/**
 * The analytics page: headline figures, the per-priority, per-category and per-status counts,
 * the seven-day completion trend and the "most active" picks, all computed from the task list.
 */
module Analytics {
  import opened Civil
  import opened Seqs
  import opened Sorting
  import opened TaskModel

  // ---------------------------------------------------------------- headline figures

  function CompletedFn(): Task -> bool {
    t => IsCompleted(t)
  }

  /** `tasks.filter(t => t.status === 'Completed').length`. */
  function CompletedCount(tasks: seq<Task>): (n: nat)
    ensures n <= |tasks|
  {
    |Filter(tasks, CompletedFn())|
  }

  /**
   * `completionRate` before rounding: 0 for an empty list, otherwise the percentage of completed
   * tasks, which lies between 0 and 100 and is 100 exactly when every task is completed.
   */
  function CompletionRate(tasks: seq<Task>): (r: real)
    ensures |tasks| == 0 ==> r == 0.0
    ensures r * (|tasks| as real) == 100.0 * (CompletedCount(tasks) as real)
    ensures 0.0 <= r <= 100.0
    ensures r == 100.0 <==> |tasks| > 0 && forall i :: 0 <= i < |tasks| ==> IsCompleted(tasks[i])
    ensures r == 0.0 <==> forall i :: 0 <= i < |tasks| ==> !IsCompleted(tasks[i])
  {
    CountExtremes(tasks);
    if |tasks| == 0 then 0.0
    else
      var c, n := CompletedCount(tasks) as real, |tasks| as real;
      Percentage(c, n);
      (c / n) * 100.0
  }

  /** Every task is completed exactly when all are counted, and none exactly when none are. */
  lemma CountExtremes(tasks: seq<Task>)
    ensures CompletedCount(tasks) == |tasks| <==> forall i :: 0 <= i < |tasks| ==> IsCompleted(tasks[i])
    ensures CompletedCount(tasks) == 0 <==> forall i :: 0 <= i < |tasks| ==> !IsCompleted(tasks[i])
  {
    FilterFull(tasks, CompletedFn());
    FilterEmpty(tasks, CompletedFn());
  }

  lemma Percentage(c: real, n: real)
    requires 0.0 <= c <= n && 0.0 < n
    ensures 0.0 <= (c / n) * 100.0 <= 100.0
    ensures (c / n) * 100.0 * n == 100.0 * c
    ensures (c / n) * 100.0 == 100.0 <==> c == n
    ensures (c / n) * 100.0 == 0.0 <==> c == 0.0
  {
    var q := c / n;
    assert q * n == c;
    assert (1.0 - q) * n == n - c;
    if c == n {
      assert q == n / n == 1.0;
    }
    if q == 1.0 {
      assert c == n;
    }
  }

  /** `totalPoints`: ten points per completed task. */
  function TotalPoints(tasks: seq<Task>): (r: nat)
    ensures r == 10 * CompletedCount(tasks)
    ensures r % 10 == 0 && r <= 10 * |tasks|
    ensures r * 10 == (CompletionRate(tasks) * (|tasks| as real)).Floor
    ensures r == 10 * |tasks| <==> forall i :: 0 <= i < |tasks| ==> IsCompleted(tasks[i])
  {
    CountExtremes(tasks);
    10 * CompletedCount(tasks)
  }

  // ---------------------------------------------------------------- distributions

  /** One slice of a chart: a label and how many tasks carry it. */
  datatype Entry = Entry(name: string, value: nat)

  function PriorityOf(t: Task): string { t.priority }
  function CategoryOf(t: Task): string { t.category }
  function StatusOf(t: Task): string { t.status }

  function HasFn(field: Task -> string, name: string): Task -> bool {
    t => field(t) == name
  }

  function OutsideFn(field: Task -> string, names: seq<string>): Task -> bool {
    t => field(t) !in names
  }

  /** `tasks.filter(t => t.<field> === name).length`: an exact, case-sensitive match. */
  function CountBy(tasks: seq<Task>, field: Task -> string, name: string): nat {
    |Filter(tasks, HasFn(field, name))|
  }

  /** One entry per label, in the order the labels are listed. */
  function Tally(tasks: seq<Task>, field: Task -> string, names: seq<string>): (r: seq<Entry>)
    ensures |r| == |names|
    ensures forall i :: 0 <= i < |r| ==> r[i].name == names[i]
    ensures forall i :: 0 <= i < |r| ==> r[i].value == CountBy(tasks, field, names[i])
    decreases |names|
  {
    if names == [] then []
    else [Entry(names[0], CountBy(tasks, field, names[0]))] + Tally(tasks, field, names[1..])
  }

  function Total(entries: seq<Entry>): nat
    decreases |entries|
  {
    if entries == [] then 0 else entries[0].value + Total(entries[1..])
  }

  const PriorityNames: seq<string> := ["High", "Medium", "Low"]
  const CategoryNames: seq<string> := ["Work", "Personal", "Shopping", "Health", "Other"]
  const StatusNames: seq<string> := ["To Do", "In Progress", "Completed"]

  function PriorityData(tasks: seq<Task>): seq<Entry> { Tally(tasks, PriorityOf, PriorityNames) }
  function CategoryData(tasks: seq<Task>): seq<Entry> { Tally(tasks, CategoryOf, CategoryNames) }
  function StatusData(tasks: seq<Task>): seq<Entry> { Tally(tasks, StatusOf, StatusNames) }

  /**
   * Count reconciliation: over distinct labels, the counts plus the number of tasks carrying
   * none of the labels is the number of tasks.
   */
  lemma {:induction false} TallyReconciles(tasks: seq<Task>, field: Task -> string, names: seq<string>)
    requires NoDuplicates(names)
    ensures Total(Tally(tasks, field, names)) + |Filter(tasks, OutsideFn(field, names))| == |tasks|
    decreases |names|
  {
    if names == [] {
      FilterAll(tasks, OutsideFn(field, names));
    } else {
      var rest := names[1..];
      assert NoDuplicates(rest) by {
        forall i, j | 0 <= i < j < |rest| ensures rest[i] != rest[j] {
          assert rest[i] == names[i + 1] && rest[j] == names[j + 1];
        }
      }
      assert names[0] !in rest by {
        forall i | 0 <= i < |rest| ensures rest[i] != names[0] {
          assert rest[i] == names[i + 1];
        }
      }
      assert forall x :: x in names <==> x == names[0] || x in rest by {
        assert names == [names[0]] + rest;
      }
      TallyReconciles(tasks, field, rest);
      CountDisjoint(tasks, HasFn(field, names[0]), OutsideFn(field, names), OutsideFn(field, rest));
    }
  }

  /**
   * The priority counts add up to at most the number of tasks, and to exactly that number when
   * every task has one of the three priorities.
   */
  lemma PriorityCountsReconcile(tasks: seq<Task>)
    ensures Total(PriorityData(tasks)) <= |tasks|
    ensures Total(PriorityData(tasks)) == |tasks| <==>
      forall i :: 0 <= i < |tasks| ==> tasks[i].priority in PriorityNames
  {
    PriorityNamesDistinct();
    TallyReconciles(tasks, PriorityOf, PriorityNames);
    FilterEmpty(tasks, OutsideFn(PriorityOf, PriorityNames));
    forall i | 0 <= i < |tasks|
      ensures OutsideFn(PriorityOf, PriorityNames)(tasks[i]) == (tasks[i].priority !in PriorityNames)
    {
      assert PriorityOf(tasks[i]) == tasks[i].priority;
    }
  }

  /** The three charted priorities are told apart by their first letters. */
  lemma PriorityNamesDistinct()
    ensures NoDuplicates(PriorityNames)
  {
    forall i, j | 0 <= i < j < |PriorityNames| ensures PriorityNames[i] != PriorityNames[j] {
      assert PriorityNames[i][0] != PriorityNames[j][0];
    }
  }

  /** The three charted statuses are told apart by their first letters. */
  lemma StatusNamesDistinct()
    ensures NoDuplicates(StatusNames)
  {
    forall i, j | 0 <= i < j < |StatusNames| ensures StatusNames[i] != StatusNames[j] {
      assert StatusNames[i][0] != StatusNames[j][0];
    }
  }

  /** The five charted categories are told apart by their first letters. */
  lemma CategoryNamesDistinct()
    ensures NoDuplicates(CategoryNames)
  {
    forall i, j | 0 <= i < j < |CategoryNames| ensures CategoryNames[i] != CategoryNames[j] {
      assert CategoryNames[i][0] != CategoryNames[j][0];
    }
  }

  /**
   * The category counts add up to the number of tasks less those whose category is none of the
   * five charted ones (such as 'Health & Fitness', which the form offers).
   */
  lemma CategoryCountsReconcile(tasks: seq<Task>)
    ensures Total(CategoryData(tasks)) + |Filter(tasks, OutsideFn(CategoryOf, CategoryNames))| == |tasks|
  {
    CategoryNamesDistinct();
    TallyReconciles(tasks, CategoryOf, CategoryNames);
  }

  /** The status counts likewise; a stored 'To do' is one of the statuses counted nowhere. */
  lemma StatusCountsReconcile(tasks: seq<Task>)
    ensures Total(StatusData(tasks)) + |Filter(tasks, OutsideFn(StatusOf, StatusNames))| == |tasks|
  {
    StatusNamesDistinct();
    TallyReconciles(tasks, StatusOf, StatusNames);
  }

  /** A task whose label is not charted changes no count. */
  lemma TallyIgnores(tasks: seq<Task>, field: Task -> string, names: seq<string>, t: Task)
    requires field(t) !in names
    ensures Tally(tasks + [t], field, names) == Tally(tasks, field, names)
  {
    forall i | 0 <= i < |names|
      ensures CountBy(tasks + [t], field, names[i]) == CountBy(tasks, field, names[i])
    {
      FilterConcat(tasks, [t], HasFn(field, names[i]));
    }
  }

  /** A task with one of the charted labels adds exactly one to that label's count. */
  lemma TallyCounts(tasks: seq<Task>, field: Task -> string, names: seq<string>, t: Task, k: int)
    requires 0 <= k < |names| && field(t) == names[k]
    ensures Tally(tasks + [t], field, names)[k].value == Tally(tasks, field, names)[k].value + 1
  {
    FilterConcat(tasks, [t], HasFn(field, names[k]));
  }

  /** A 'To do' task, the status the form stores, is invisible to the status chart. */
  lemma StoredToDoUncounted(tasks: seq<Task>, t: Task)
    requires t.status == "To do"
    ensures StatusData(tasks + [t]) == StatusData(tasks)
  {
    TallyIgnores(tasks, StatusOf, StatusNames, t);
  }

  /** A 'Health & Fitness' task is invisible to the category chart. */
  lemma UnlistedCategoryUncounted(tasks: seq<Task>, t: Task)
    requires t.category == "Health & Fitness"
    ensures CategoryData(tasks + [t]) == CategoryData(tasks)
  {
    TallyIgnores(tasks, CategoryOf, CategoryNames, t);
  }

  // ---------------------------------------------------------------- seven-day trend

  /** One point of the trend chart (the random `created` placeholder is not modelled). */
  datatype TrendDay = TrendDay(day: string, completed: nat)

  /** `toLocaleDateString('en-US', { weekday: 'short' })`, indexed by `getDay()`. */
  const WeekdayShort: seq<string> := ["Sun", "Mon", "Tue", "Wed", "Thu", "Fri", "Sat"]

  /** A completed task whose last update fell on `date`. */
  function CompletedOnFn(date: Civil): Task -> bool {
    (t: Task) => t.updatedAt.Some? && IsCompleted(t) && t.updatedAt.value == date
  }

  function CompletedOn(tasks: seq<Task>, date: Civil): nat {
    |Filter(tasks, CompletedOnFn(date))|
  }

  function TrendEntry(tasks: seq<Task>, date: Civil): TrendDay {
    TrendDay(WeekdayShort[Weekday(date)], CompletedOn(tasks, date))
  }

  /** The `i`-th day of the window: six days before `today` up to `today` itself. */
  function WindowDay(today: Civil, k: int): Civil {
    DayShift(today, k - 6)
  }

  /** The trend for the week ending `today`, oldest day first. */
  function WeeklyTrend(tasks: seq<Task>, today: Civil): (r: seq<TrendDay>)
    ensures |r| == 7
  {
    seq(7, k requires 0 <= k < 7 => TrendEntry(tasks, WindowDay(today, k)))
  }

  /** `getLast7Days`: for `i` from 6 down to 0, the day `i` days before today. */
  method Last7Days(tasks: seq<Task>, today: Civil) returns (days: seq<TrendDay>)
    ensures days == WeeklyTrend(tasks, today)
  {
    days := [];
    var i := 6;
    while i >= 0
      invariant -1 <= i <= 6
      invariant |days| == 6 - i
      invariant forall k :: 0 <= k < |days| ==> days[k] == TrendEntry(tasks, WindowDay(today, k))
    {
      var date := DayShift(today, -i);
      assert date == WindowDay(today, |days|);
      var dayName := WeekdayShort[Weekday(date)];
      var completedCount := |Filter(tasks, CompletedOnFn(date))|;
      days := days + [TrendDay(dayName, completedCount)];
      i := i - 1;
    }
  }

  /** The window runs over seven consecutive days and ends with today. */
  lemma WindowIsConsecutive(today: Civil)
    ensures forall k :: 0 <= k < 7 ==> DayNumber(WindowDay(today, k)) == DayNumber(today) - 6 + k
    ensures WindowDay(today, 6) == today
  {
    forall k | 0 <= k < 7 ensures DayNumber(WindowDay(today, k)) == DayNumber(today) - 6 + k {
      DayShiftNumber(today, k - 6);
    }
    NormalizeValid(today);
  }

  /** Consecutive points of the window fall on consecutive weekdays. */
  lemma WindowWeekdays(today: Civil, k: int)
    requires 0 <= k < 6
    ensures Weekday(WindowDay(today, k + 1)) == (Weekday(WindowDay(today, k)) + 1) % 7
  {
    var a, b := WindowDay(today, k), WindowDay(today, k + 1);
    DayShiftNumber(today, k - 6);
    DayShiftNumber(today, k - 5);
    assert DayNumber(b) == DayNumber(a) + 1;
    ModSevenStep(DayNumber(a) + 4);
  }

  /** Each point is labelled with its day's weekday, and the last point is today's. */
  lemma TrendLabels(tasks: seq<Task>, today: Civil)
    ensures forall k :: 0 <= k < 7 ==>
      WeeklyTrend(tasks, today)[k].day == WeekdayShort[Weekday(WindowDay(today, k))]
    ensures WeeklyTrend(tasks, today)[6].day == WeekdayShort[Weekday(today)]
  {
    NormalizeValid(today);
    assert WindowDay(today, 6) == today;
  }

  /** A week ending on Monday 10 June 2024 is labelled Tue, Wed, .., Sun, Mon. */
  lemma TrendLabelsExample(tasks: seq<Task>)
    ensures WeeklyTrend(tasks, CivilDate(2024, 5, 10))[6].day == "Mon"
    ensures WeeklyTrend(tasks, CivilDate(2024, 5, 10))[0].day == "Tue"
  {
    WeekdayExample();
    TrendLabels(tasks, CivilDate(2024, 5, 10));
    WindowIsConsecutive(CivilDate(2024, 5, 10));
    WeekdayFromSunday(WindowDay(CivilDate(2024, 5, 10), 0));
    EpochWeekdays();
  }

  /** A task that is not completed, or was never updated, changes no point of the trend. */
  lemma TrendIgnores(tasks: seq<Task>, today: Civil, t: Task)
    requires t.updatedAt.None? || !IsCompleted(t)
    ensures WeeklyTrend(tasks + [t], today) == WeeklyTrend(tasks, today)
  {
    forall k | 0 <= k < 7
      ensures CompletedOn(tasks + [t], WindowDay(today, k)) == CompletedOn(tasks, WindowDay(today, k))
    {
      FilterConcat(tasks, [t], CompletedOnFn(WindowDay(today, k)));
    }
  }

  function CompletedWithinFn(dates: seq<Civil>): Task -> bool {
    (t: Task) => t.updatedAt.Some? && IsCompleted(t) && t.updatedAt.value in dates
  }

  function CompletedOnEach(tasks: seq<Task>, dates: seq<Civil>): nat
    decreases |dates|
  {
    if dates == [] then 0 else CompletedOn(tasks, dates[0]) + CompletedOnEach(tasks, dates[1..])
  }

  /** Over distinct days, the per-day counts add up to the completed tasks updated on one of them. */
  lemma {:induction false} CompletedOnDistinctDays(tasks: seq<Task>, dates: seq<Civil>)
    requires NoDuplicates(dates)
    ensures CompletedOnEach(tasks, dates) == |Filter(tasks, CompletedWithinFn(dates))|
    decreases |dates|
  {
    if dates == [] {
      FilterEmpty(tasks, CompletedWithinFn(dates));
    } else {
      var rest := dates[1..];
      assert NoDuplicates(rest) by {
        forall i, j | 0 <= i < j < |rest| ensures rest[i] != rest[j] {
          assert rest[i] == dates[i + 1] && rest[j] == dates[j + 1];
        }
      }
      assert dates[0] !in rest by {
        forall i | 0 <= i < |rest| ensures rest[i] != dates[0] {
          assert rest[i] == dates[i + 1];
        }
      }
      assert forall x :: x in dates <==> x == dates[0] || x in rest by {
        assert dates == [dates[0]] + rest;
      }
      CompletedOnDistinctDays(tasks, rest);
      CountDisjoint(tasks, CompletedOnFn(dates[0]), CompletedWithinFn(rest), CompletedWithinFn(dates));
    }
  }

  function TrendTotal(days: seq<TrendDay>): nat
    decreases |days|
  {
    if days == [] then 0 else days[0].completed + TrendTotal(days[1..])
  }

  lemma {:induction false} TrendTotalOfDates(tasks: seq<Task>, days: seq<TrendDay>, dates: seq<Civil>)
    requires |days| == |dates|
    requires forall k :: 0 <= k < |days| ==> days[k].completed == CompletedOn(tasks, dates[k])
    ensures TrendTotal(days) == CompletedOnEach(tasks, dates)
    decreases |days|
  {
    if days != [] {
      TrendTotalOfDates(tasks, days[1..], dates[1..]);
    }
  }

  /** The trend never shows more completions than there are completed tasks. */
  lemma TrendBounded(tasks: seq<Task>, today: Civil)
    ensures TrendTotal(WeeklyTrend(tasks, today)) <= CompletedCount(tasks)
  {
    var dates := seq(7, k requires 0 <= k < 7 => WindowDay(today, k));
    WindowIsConsecutive(today);
    assert NoDuplicates(dates) by {
      forall i, j | 0 <= i < j < 7 ensures dates[i] != dates[j] {
        assert DayNumber(dates[i]) != DayNumber(dates[j]);
      }
    }
    TrendTotalOfDates(tasks, WeeklyTrend(tasks, today), dates);
    CompletedOnDistinctDays(tasks, dates);
    CountMonotone(tasks, CompletedWithinFn(dates), CompletedFn());
  }

  // ---------------------------------------------------------------- "most active" picks

  /** `(a, b) => b.value - a.value` orders by this key: larger counts first. */
  function ValueKey(): Entry -> Key {
    (e: Entry) => Num(-(e.value as int))
  }

  /** The comparator is non-positive exactly when the key lets `a` stay before `b`. */
  function ValueComparator(a: Entry, b: Entry): (r: int)
    ensures r <= 0 <==> KeyLe(ValueKey()(a), ValueKey()(b))
    ensures r == 0 <==> ValueKey()(a) == ValueKey()(b)
  {
    b.value - a.value
  }

  /** The index of the first entry with the largest count. */
  function FirstMaximal(s: seq<Entry>): (j: nat)
    requires |s| > 0
    ensures j < |s|
    ensures forall i :: 0 <= i < |s| ==> s[i].value <= s[j].value
    ensures forall i :: 0 <= i < j ==> s[i].value < s[j].value
    decreases |s|
  {
    if |s| == 1 then 0
    else
      var j := FirstMaximal(s[..|s| - 1]);
      if s[|s| - 1].value > s[j].value then |s| - 1 else j
  }

  /** The head of the descending sort carries the largest count. */
  lemma SortedHeadValue(s: seq<Entry>)
    requires |s| > 0
    ensures SortByKey(s, ValueKey())[0].value == s[FirstMaximal(s)].value
  {
    var key := ValueKey();
    var r := SortByKey(s, key);
    var j := FirstMaximal(s);
    SortPermutation(s, key);
    SortSorted(s, key);
    assert r[0] in multiset(s) by {
      assert r[0] in multiset(r);
    }
    var i0 :| 0 <= i0 < |s| && s[i0] == r[0];
    assert r[0].value <= s[j].value;
    assert s[j] in multiset(r);
    var m :| 0 <= m < |r| && r[m] == s[j];
    if m > 0 {
      assert KeyLe(key(r[0]), key(r[m]));
    }
  }

  /**
   * The head of the stable descending sort is the first entry, in declaration order, whose count
   * is maximal.
   */
  lemma SortedHeadIsFirstMaximal(s: seq<Entry>)
    requires |s| > 0
    ensures SortByKey(s, ValueKey())[0] == s[FirstMaximal(s)]
  {
    var key := ValueKey();
    var r := SortByKey(s, key);
    var j := FirstMaximal(s);
    var k := key(s[j]);
    SortedHeadValue(s);
    FilterFirst(r, HasKey(key, k), 0);
    FilterFirst(s, HasKey(key, k), j);
    SortStable(s, key, k);
  }

  /** `data.sort((a, b) => b.value - a.value)[0]?.name || 'N/A'`. */
  function TopName(s: seq<Entry>): string {
    if |s| == 0 then "N/A"
    else if s[FirstMaximal(s)].name == "" then "N/A"
    else s[FirstMaximal(s)].name
  }

  /** Sorts the chart data in place, as the page does, and reads off the top entry's name. */
  method MostActive(data: array<Entry>) returns (name: string)
    modifies data
    ensures data[..] == SortByKey(old(data[..]), ValueKey())
    ensures name == TopName(old(data[..]))
  {
    ghost var before := data[..];
    SortInPlace(data, ValueKey());
    if data.Length == 0 || data[0].name == "" {
      name := "N/A";
    } else {
      name := data[0].name;
    }
    if data.Length > 0 {
      SortedHeadIsFirstMaximal(before);
    }
  }

  /** When no task carries any of the labels, every count is 0. */
  lemma NothingCounted(tasks: seq<Task>, field: Task -> string, names: seq<string>)
    requires forall i :: 0 <= i < |tasks| ==> field(tasks[i]) !in names
    ensures forall k :: 0 <= k < |names| ==> Tally(tasks, field, names)[k].value == 0
  {
    forall k | 0 <= k < |names| ensures CountBy(tasks, field, names[k]) == 0 {
      FilterEmpty(tasks, HasFn(field, names[k]));
    }
  }

  /** With every count equal, the first entry is the first maximal one. */
  lemma FirstMaximalOfTies(s: seq<Entry>)
    requires |s| > 0
    requires forall i :: 0 <= i < |s| ==> s[i].value == s[0].value
    ensures FirstMaximal(s) == 0
  {
  }

  /** With no charted category, the category pick is the first one listed, 'Work'. */
  lemma CategoryPickWhenNothingCounted(tasks: seq<Task>)
    requires forall i :: 0 <= i < |tasks| ==> tasks[i].category !in CategoryNames
    ensures TopName(CategoryData(tasks)) == "Work"
  {
    NothingCounted(tasks, CategoryOf, CategoryNames);
    FirstMaximalOfTies(CategoryData(tasks));
  }

  /** With no charted priority, the priority pick is the first one listed, 'High'. */
  lemma PriorityPickWhenNothingCounted(tasks: seq<Task>)
    requires forall i :: 0 <= i < |tasks| ==> tasks[i].priority !in PriorityNames
    ensures TopName(PriorityData(tasks)) == "High"
  {
    NothingCounted(tasks, PriorityOf, PriorityNames);
    FirstMaximalOfTies(PriorityData(tasks));
  }

  /** The top pick always names one of the charted labels, and its count is the largest. */
  lemma TopPickIsMaximal(tasks: seq<Task>)
    ensures TopName(CategoryData(tasks)) in CategoryNames
    ensures forall i :: 0 <= i < 5 ==>
      CategoryData(tasks)[i].value <= CountBy(tasks, CategoryOf, TopName(CategoryData(tasks)))
  {
    var d := CategoryData(tasks);
    var j := FirstMaximal(d);
    assert d[j].name == CategoryNames[j];
  }

  /** The priority pick likewise names a charted priority, and no priority outnumbers it. */
  lemma TopPriorityPickIsMaximal(tasks: seq<Task>)
    ensures TopName(PriorityData(tasks)) in PriorityNames
    ensures forall i :: 0 <= i < 3 ==>
      PriorityData(tasks)[i].value <= CountBy(tasks, PriorityOf, TopName(PriorityData(tasks)))
  {
    var d := PriorityData(tasks);
    var j := FirstMaximal(d);
    assert d[j].name == PriorityNames[j];
  }
}
