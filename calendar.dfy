/**
 * The calendar widget: the month on show (`currentDate`) and the clicked day (`selectedDate`),
 * the month arithmetic behind its grid, and the per-day task lookup behind its badges.
 */
module CalendarView {
  import opened Wrappers
  import opened Civil
  import opened Seqs
  import opened Text
  import opened TaskModel
  import TaskManagement

  // ---------------------------------------------------------------- month arithmetic

  /** What `getDaysInMonth` returns. */
  datatype MonthInfo = MonthInfo(daysInMonth: int, startingDayOfWeek: int, year: int, month: int)

  /** Day 0 of the next month is the last day of this one, December rolling into January. */
  lemma LastDayOfMonth(y: int, m: int)
    requires 0 <= m < 12
    ensures Normalize(y, m + 1, 0) == CivilDate(y, m, MonthLength(y, m))
  {
    var ym, mn := y + (m + 1) / 12, (m + 1) % 12;
    assert PrevOf(ym, mn) == (y, m);
    NormalizeValid(CivilDate(y, m, MonthLength(y, m)));
  }

  /**
   * `getDaysInMonth`: the length of the shown month, from `new Date(year, month + 1, 0)`, and
   * the weekday of its 1st, from `new Date(year, month, 1).getDay()`.
   */
  function GetDaysInMonth(date: Civil): (r: MonthInfo)
    ensures r.year == date.year && r.month == date.month
    ensures r.daysInMonth == MonthLength(date.year, date.month)
    ensures 28 <= r.daysInMonth <= 31
    ensures date.month == 1 ==> (r.daysInMonth == 29 <==> IsLeapYear(date.year))
    ensures 0 <= r.startingDayOfWeek < 7
    ensures r.startingDayOfWeek == Weekday(CivilDate(date.year, date.month, 1))
  {
    LastDayOfMonth(date.year, date.month);
    NormalizeValid(CivilDate(date.year, date.month, 1));
    var firstDay := Normalize(date.year, date.month, 1);
    var lastDay := Normalize(date.year, date.month + 1, 0);
    MonthInfo(lastDay.day, Weekday(firstDay), date.year, date.month)
  }

  /** June 2024 has 30 days and began on a Saturday, so its grid opens with six blanks. */
  lemma JuneTwentyTwentyFour()
    ensures GetDaysInMonth(CivilDate(2024, 5, 10)).daysInMonth == 30
    ensures GetDaysInMonth(CivilDate(2024, 5, 10)).startingDayOfWeek == 6
  {
    FirstOfJuneTwentyTwentyFour();
  }

  lemma FirstOfJuneTwentyTwentyFour()
    ensures Weekday(CivilDate(2024, 5, 1)) == 6
  {
    assert YearDays(2024) == 739251;
    assert MarchDays(3) == 92;
  }

  /** `new Date(year, month + 1, 1)`. */
  function NextMonthOf(c: Civil): (r: Civil)
    ensures (r.year, r.month) == NextOf(c.year, c.month) && r.day == 1
  {
    var n := NextOf(c.year, c.month);
    assert (c.year + (c.month + 1) / 12, (c.month + 1) % 12) == n;
    NormalizeValid(CivilDate(n.0, n.1, 1));
    Normalize(c.year, c.month + 1, 1)
  }

  /** `new Date(year, month - 1, 1)`: month -1 is December of the year before. */
  function PrevMonthOf(c: Civil): (r: Civil)
    ensures (r.year, r.month) == PrevOf(c.year, c.month) && r.day == 1
  {
    var p := PrevOf(c.year, c.month);
    assert (c.year + (c.month - 1) / 12, (c.month - 1) % 12) == p;
    NormalizeValid(CivilDate(p.0, p.1, 1));
    Normalize(c.year, c.month - 1, 1)
  }

  /** Previous after next, and next after previous, return to the 1st of the same month. */
  lemma MonthStepsInvert(c: Civil)
    ensures PrevMonthOf(NextMonthOf(c)) == CivilDate(c.year, c.month, 1)
    ensures NextMonthOf(PrevMonthOf(c)) == CivilDate(c.year, c.month, 1)
  {
    var n := NextMonthOf(c);
    assert PrevOf(n.year, n.month) == (c.year, c.month);
  }

  // ---------------------------------------------------------------- the month grid

  /** A cell of the grid: a blank before the 1st, or a day of the month. */
  datatype Cell = Blank | Day(day: int)

  /** `startingDayOfWeek` blanks, then the days 1 to `daysInMonth`. */
  function MonthGrid(info: MonthInfo): (g: seq<Cell>)
    requires info.startingDayOfWeek >= 0 && info.daysInMonth >= 0
    ensures |g| == info.startingDayOfWeek + info.daysInMonth
    ensures forall i :: 0 <= i < info.startingDayOfWeek ==> g[i] == Blank
    ensures forall i :: info.startingDayOfWeek <= i < |g| ==> g[i] == Day(i - info.startingDayOfWeek + 1)
  {
    seq(info.startingDayOfWeek, _ => Blank) +
    seq(info.daysInMonth, i requires 0 <= i < info.daysInMonth => Day(i + 1))
  }

  lemma ModSevenShift(a: int, k: nat)
    ensures (a + k) % 7 == (a % 7 + k) % 7
  {}

  /** Day `d` of a month falls `d - 1` weekdays after the 1st. */
  lemma DayColumn(y: int, m: int, d: int)
    requires 0 <= m < 12 && 1 <= d <= MonthLength(y, m)
    ensures (Weekday(CivilDate(y, m, 1)) + d - 1) % 7 == Weekday(CivilDate(y, m, d))
  {
    DaysFromFirst(y, m, d);
    ModSevenShift(DayNumber(CivilDate(y, m, 1)) + 4, d - 1);
  }

  /** The grid of a month takes from 28 to 37 cells, and day `d` is in cell `startingDayOfWeek + d - 1`. */
  lemma GridShape(date: Civil)
    ensures var info := GetDaysInMonth(date);
      var g := MonthGrid(info);
      && 28 <= |g| <= 37
      && forall d :: 1 <= d <= info.daysInMonth ==> g[info.startingDayOfWeek + d - 1] == Day(d)
  {
    GridOfLength(GetDaysInMonth(date));
  }

  lemma GridOfLength(info: MonthInfo)
    requires 28 <= info.daysInMonth <= 31 && 0 <= info.startingDayOfWeek < 7
    ensures 28 <= |MonthGrid(info)| <= 37
    ensures forall d :: 1 <= d <= info.daysInMonth ==> MonthGrid(info)[info.startingDayOfWeek + d - 1] == Day(d)
  {}

  /** In a grid of seven columns every day of the month sits in its weekday's column. */
  lemma GridColumns(date: Civil)
    ensures var info := GetDaysInMonth(date);
      forall d :: 1 <= d <= info.daysInMonth ==>
        (info.startingDayOfWeek + d - 1) % 7 == Weekday(CivilDate(date.year, date.month, d))
  {
    var info := GetDaysInMonth(date);
    MonthColumns(date.year, date.month, info.startingDayOfWeek, info.daysInMonth);
  }

  lemma MonthColumns(y: int, m: int, start: int, days: int)
    requires 0 <= m < 12 && start == Weekday(CivilDate(y, m, 1)) && days == MonthLength(y, m)
    ensures forall d :: 1 <= d <= days ==> (start + d - 1) % 7 == Weekday(CivilDate(y, m, d))
  {
    forall d | 1 <= d <= days
      ensures (start + d - 1) % 7 == Weekday(CivilDate(y, m, d))
    {
      DayColumn(y, m, d);
    }
  }

  // ---------------------------------------------------------------- tasks per day

  /** A task with a due date on `date`. */
  function DueOnFn(date: Civil): Task -> bool {
    (t: Task) => t.dueDate.Some? && t.dueDate.value == date
  }

  /**
   * `getTasksForDate`: the tasks due on `date`, in list order; nothing when `tasks` is missing or
   * not an array (`None`).
   */
  function TasksForDate(tasks: Option<seq<Task>>, date: Civil): (r: seq<Task>)
    ensures tasks.None? ==> r == []
    ensures forall i :: 0 <= i < |r| ==> r[i].dueDate == Some(date)
    ensures tasks.Some? ==> |r| <= |tasks.value|
  {
    if tasks.None? then [] else Filter(tasks.value, DueOnFn(date))
  }

  /** `getTaskCountForDate`: the same filter, counted; 0 when `tasks` is missing. */
  function TaskCountForDate(tasks: Option<seq<Task>>, date: Civil): (n: nat)
    ensures tasks.None? ==> n == 0
  {
    if tasks.None? then 0 else |Filter(tasks.value, DueOnFn(date))|
  }

  /** The count on a day's badge is the number of tasks listed for that day. */
  lemma CountMatchesList(tasks: Option<seq<Task>>, date: Civil)
    ensures TaskCountForDate(tasks, date) == |TasksForDate(tasks, date)|
  {}

  /** A task is listed for a day exactly when it is in the list and due that day. */
  lemma TasksForDateMembership(tasks: seq<Task>, date: Civil)
    ensures forall t :: t in TasksForDate(Some(tasks), date) <==> t in tasks && t.dueDate == Some(date)
    ensures multiset(TasksForDate(Some(tasks), date)) <= multiset(tasks)
  {
    FilterMembership(tasks, DueOnFn(date));
    FilterMultiset(tasks, DueOnFn(date));
  }

  /** The lookup keeps list order: looking up a split list looks up each part. */
  lemma TasksForDateInOrder(a: seq<Task>, b: seq<Task>, date: Civil)
    ensures TasksForDate(Some(a + b), date) == TasksForDate(Some(a), date) + TasksForDate(Some(b), date)
  {
    FilterConcat(a, b, DueOnFn(date));
  }

  /** A task without a due date is listed on no day. */
  lemma UndatedNeverListed(tasks: seq<Task>, t: Task, date: Civil)
    requires t.dueDate.None?
    ensures TasksForDate(Some(tasks + [t]), date) == TasksForDate(Some(tasks), date)
  {
    FilterConcat(tasks, [t], DueOnFn(date));
  }

  /** Over distinct days, the badges never count more tasks than there are. */
  lemma CountsOverDays(tasks: seq<Task>, days: seq<Civil>)
    requires NoDuplicates(days)
    ensures CountOver(tasks, days) <= |tasks|
  {
    CountsWithin(tasks, days);
  }

  function DueWithinFn(days: seq<Civil>): Task -> bool {
    (t: Task) => t.dueDate.Some? && t.dueDate.value in days
  }

  /** The badge counts of the days in `days`, added up. */
  function CountOver(tasks: seq<Task>, days: seq<Civil>): nat
    decreases |days|
  {
    if days == [] then 0 else TaskCountForDate(Some(tasks), days[0]) + CountOver(tasks, days[1..])
  }

  lemma {:induction false} CountsWithin(tasks: seq<Task>, days: seq<Civil>)
    requires NoDuplicates(days)
    ensures CountOver(tasks, days) == |Filter(tasks, DueWithinFn(days))|
    decreases |days|
  {
    if days == [] {
      FilterEmpty(tasks, DueWithinFn(days));
    } else {
      var rest := days[1..];
      assert NoDuplicates(rest) by {
        forall i, j | 0 <= i < j < |rest| ensures rest[i] != rest[j] {
          assert rest[i] == days[i + 1] && rest[j] == days[j + 1];
        }
      }
      assert days[0] !in rest by {
        forall i | 0 <= i < |rest| ensures rest[i] != days[0] {
          assert rest[i] == days[i + 1];
        }
      }
      assert forall x :: x in days <==> x == days[0] || x in rest by {
        assert days == [days[0]] + rest;
      }
      CountsWithin(tasks, rest);
      CountDisjoint(tasks, DueOnFn(days[0]), DueWithinFn(rest), DueWithinFn(days));
    }
  }

  // ---------------------------------------------------------------- badges and chips

  /** The mini view's badge: none at 0, '9+' above 9, otherwise the count's one digit. */
  function MiniBadge(count: nat): (r: Option<string>)
    ensures r.None? <==> count == 0
    ensures r == Some("9+") <==> count > 9
    ensures 0 < count <= 9 ==> |r.value| == 1 && ParseDecimal(r.value) == count
  {
    if count == 0 then None
    else if count > 9 then Some("9+")
    else
      ParseNatToString(count);
      Some(NatToString(count))
  }

  /** The full view's noun: 'task' for exactly one, 'tasks' otherwise. */
  function Noun(count: nat): (r: string)
    ensures r == "task" <==> count == 1
    ensures r == "tasks" <==> count != 1
  {
    if count == 1 then "task" else "tasks"
  }

  /** The full view's label, `{taskCount} {noun}`, shown only for a positive count. */
  function FullLabel(count: nat): (r: Option<string>)
    ensures r.None? <==> count == 0
  {
    if count == 0 then None else Some(NatToString(count) + " " + Noun(count))
  }

  /** The label reads back as its count, followed by the right noun. */
  lemma FullLabelReadsBack(count: nat)
    requires count > 0
    ensures var shown := FullLabel(count).value;
      var digits := |NatToString(count)|;
      && ParseDecimal(shown[..digits]) == count
      && shown[digits] == ' '
      && (shown[digits + 1..] == "task" <==> count == 1)
  {
    var shown := FullLabel(count).value;
    var digits := |NatToString(count)|;
    assert shown[..digits] == NatToString(count);
    assert shown[digits + 1..] == Noun(count);
    ParseNatToString(count);
  }

  /** The side panel's priority chip: red for High, yellow for Medium, green for anything else. */
  function ChipColor(priority: string): (r: string)
    ensures r == TaskManagement.HighColor <==> priority == "High"
    ensures r == TaskManagement.MediumColor <==> priority == "Medium"
    ensures r == TaskManagement.LowColor <==> priority != "High" && priority != "Medium"
  {
    if priority == "High" then TaskManagement.HighColor
    else if priority == "Medium" then TaskManagement.MediumColor
    else TaskManagement.LowColor
  }

  /**
   * The chip agrees with the list view's badge on the three priorities; an unknown priority is
   * green here and grey in the list.
   */
  lemma ChipAgreesWithBadge(priority: string)
    ensures priority in {"High", "Medium", "Low"} ==> ChipColor(priority) == TaskManagement.PriorityColor(priority)
    ensures priority !in {"High", "Medium", "Low"} ==>
      ChipColor(priority) != TaskManagement.PriorityColor(priority)
  {
  }

  // ---------------------------------------------------------------- the widget's state

  class CalendarState {
    /** `currentDate`: any day of the month on show. */
    var current: Civil
    /** `selectedDate`: the last clicked day, if any. */
    var selected: Option<Civil>

    /** `useState(new Date())` and `useState(null)`. */
    constructor (today: Civil)
      ensures current == today && selected == None
    {
      current := today;
      selected := None;
    }

    function Info(): (r: MonthInfo)
      reads this
      ensures r.year == current.year && r.month == current.month
    {
      GetDaysInMonth(current)
    }

    /** `previousMonth`. */
    method PreviousMonth()
      modifies this
      ensures current == PrevMonthOf(old(current))
      ensures selected == old(selected)
    {
      var info := GetDaysInMonth(current);
      current := Normalize(info.year, info.month - 1, 1);
    }

    /** `nextMonth`. */
    method NextMonth()
      modifies this
      ensures current == NextMonthOf(old(current))
      ensures selected == old(selected)
    {
      var info := GetDaysInMonth(current);
      current := Normalize(info.year, info.month + 1, 1);
    }

    /** `handleDateClick(day)`: select `new Date(year, month, day)` and report it. */
    method DateClick(day: int) returns (clicked: Civil)
      modifies this
      ensures clicked == Normalize(current.year, current.month, day)
      ensures 1 <= day <= MonthLength(current.year, current.month) ==>
        clicked == CivilDate(current.year, current.month, day)
      ensures selected == Some(clicked)
      ensures current == old(current)
    {
      var info := GetDaysInMonth(current);
      clicked := Normalize(info.year, info.month, day);
      if 1 <= day <= MonthLength(current.year, current.month) {
        NormalizeValid(CivilDate(current.year, current.month, day));
      }
      selected := Some(clicked);
    }

    /** `isToday(day)`: the cell is today's date. */
    function IsToday(day: int, today: Civil): (r: bool)
      reads this
      ensures r <==> CivilDate(current.year, current.month, day) == today
    {
      var info := GetDaysInMonth(current);
      day == today.day && info.month == today.month && info.year == today.year
    }

    /** `isSelected(day)`: the cell is the selected date; never when nothing is selected. */
    function IsSelected(day: int): (r: bool)
      reads this
      ensures r <==> selected == Some(CivilDate(current.year, current.month, day))
      ensures selected.None? ==> !r
    {
      var info := GetDaysInMonth(current);
      if selected.None? then false
      else day == selected.value.day && info.month == selected.value.month && info.year == selected.value.year
    }

    /** `selectedDateTasks`: the tasks of the selected date, or none. */
    function SelectedDateTasks(tasks: Option<seq<Task>>): (r: seq<Task>)
      reads this
      ensures selected.None? ==> r == []
      ensures forall i :: 0 <= i < |r| ==> r[i].dueDate == selected
    {
      if selected.None? then [] else TasksForDate(tasks, selected.value)
    }
  }

  /** Clicking a day of the shown month selects exactly that cell and no other. */
  lemma ClickSelectsCell(current: Civil, day: int, other: int)
    requires 1 <= day <= MonthLength(current.year, current.month)
    ensures var clicked := Normalize(current.year, current.month, day);
      (CivilDate(current.year, current.month, other) == clicked <==> other == day)
  {
    NormalizeValid(CivilDate(current.year, current.month, day));
  }
}
