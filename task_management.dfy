/**
 * The task-management page: the filter-and-sort pipeline that produces the displayed list,
 * selection toggling, quick and bulk completion, and the priority badge colour.
 */
module TaskManagement {
  import opened Wrappers
  import opened Seqs
  import opened Text
  import opened Sorting
  import opened TaskModel

  /** The page's filter state: search box and the three drop-downs ("All" switches one off). */
  datatype Criteria = Criteria(query: string, category: string, priority: string, status: string)

  /** What the search throws: `.toLowerCase()` read off an undefined description. */
  datatype SearchError = DescriptionUndefined(taskId: string)

  const All: string := "All"

  // ---------------------------------------------------------------- search

  predicate TitleHit(t: Task, q: string) {
    Includes(Lower(t.title), Lower(q))
  }

  predicate DescriptionHit(t: Task, q: string) {
    t.description.Some? && Includes(Lower(t.description.value), Lower(q))
  }

  /** The search callback throws on `t`: the title misses, so the absent description is read. */
  predicate SearchThrows(t: Task, q: string) {
    !TitleHit(t, q) && t.description.None?
  }

  /** The search callback on one task; `||` reads the description only when the title misses. */
  function SearchTest(t: Task, q: string): (r: Result<bool, SearchError>)
    ensures r.Failure? <==> SearchThrows(t, q)
    ensures r.Failure? ==> r.error == DescriptionUndefined(t.id)
    ensures r.Success? ==> (r.value <==> TitleHit(t, q) || DescriptionHit(t, q))
  {
    if TitleHit(t, q) then Success(true)
    else if t.description.None? then Failure(DescriptionUndefined(t.id))
    else Success(DescriptionHit(t, q))
  }

  function SearchFn(q: string): Task -> bool {
    t => TitleHit(t, q) || DescriptionHit(t, q)
  }

  /** `filtered.filter(...)` with the search callback: front to back, the first throw aborts. */
  function SearchStage(s: seq<Task>, q: string): Result<seq<Task>, SearchError>
    decreases |s|
  {
    if s == [] then Success([])
    else match SearchTest(s[0], q)
      case Failure(e) => Failure(e)
      case Success(keep) =>
        match SearchStage(s[1..], q)
        case Failure(e) => Failure(e)
        case Success(rest) => Success((if keep then [s[0]] else []) + rest)
  }

  /**
   * The search fails exactly when some task throws, and then reports the first such task;
   * otherwise it keeps the tasks whose lowered title or description contains the lowered query.
   */
  lemma {:induction false} SearchStageSpec(s: seq<Task>, q: string)
    ensures SearchStage(s, q).Failure? <==> exists i :: 0 <= i < |s| && SearchThrows(s[i], q)
    ensures SearchStage(s, q).Success? ==> SearchStage(s, q).value == Filter(s, SearchFn(q))
    ensures SearchStage(s, q).Failure? ==>
      exists i :: 0 <= i < |s| && SearchThrows(s[i], q) &&
        SearchStage(s, q).error == DescriptionUndefined(s[i].id) &&
        forall k :: 0 <= k < i ==> !SearchThrows(s[k], q)
    decreases |s|
  {
    if s != [] {
      SearchStageSpec(s[1..], q);
      if !SearchThrows(s[0], q) && SearchStage(s[1..], q).Failure? {
        var i :| 0 <= i < |s[1..]| && SearchThrows(s[1..][i], q) &&
          SearchStage(s[1..], q).error == DescriptionUndefined(s[1..][i].id) &&
          forall k :: 0 <= k < i ==> !SearchThrows(s[1..][k], q);
        assert SearchThrows(s[i + 1], q);
        assert forall k :: 0 <= k < i + 1 ==> !SearchThrows(s[k], q) by {
          forall k | 0 <= k < i + 1 ensures !SearchThrows(s[k], q) {
            if k > 0 { assert s[k] == s[1..][k - 1]; }
          }
        }
      }
      if (exists i :: 0 <= i < |s| && SearchThrows(s[i], q)) && !SearchThrows(s[0], q) {
        var i :| 0 <= i < |s| && SearchThrows(s[i], q);
        assert SearchThrows(s[1..][i - 1], q);
      }
    }
  }

  // ---------------------------------------------------------------- exact filters

  datatype Field = CategoryField | PriorityField | StatusField

  function FieldOf(t: Task, f: Field): string {
    match f
    case CategoryField => t.category
    case PriorityField => t.priority
    case StatusField => t.status
  }

  function FieldFn(f: Field, v: string): Task -> bool {
    t => FieldOf(t, f) == v
  }

  /** `if (filterX !== 'All') filtered = filtered.filter(task => task.x === filterX)`. */
  function FieldStage(s: seq<Task>, f: Field, v: string): seq<Task> {
    if v == All then s else Filter(s, FieldFn(f, v))
  }

  // ---------------------------------------------------------------- the criteria as one predicate

  predicate SearchOk(t: Task, q: string) {
    q == "" || TitleHit(t, q) || DescriptionHit(t, q)
  }

  predicate FieldOk(t: Task, f: Field, v: string) {
    v == All || FieldOf(t, f) == v
  }

  /** A task satisfies every active criterion. */
  predicate Matches(t: Task, c: Criteria) {
    SearchOk(t, c.query) && FieldOk(t, CategoryField, c.category) &&
    FieldOk(t, PriorityField, c.priority) && FieldOk(t, StatusField, c.status)
  }

  function MatchesFn(c: Criteria): Task -> bool {
    t => Matches(t, c)
  }

  /** The input tasks that satisfy every active criterion, in input order. */
  function Selected(s: seq<Task>, c: Criteria): seq<Task> {
    Filter(s, MatchesFn(c))
  }

  /** The pipeline throws: a non-empty query meets a task whose title misses and that has no description. */
  predicate Throws(s: seq<Task>, c: Criteria) {
    c.query != "" && exists i :: 0 <= i < |s| && SearchThrows(s[i], c.query)
  }

  function UptoSearchFn(c: Criteria): Task -> bool {
    t => SearchOk(t, c.query)
  }

  function UptoCategoryFn(c: Criteria): Task -> bool {
    t => SearchOk(t, c.query) && FieldOk(t, CategoryField, c.category)
  }

  function UptoPriorityFn(c: Criteria): Task -> bool {
    t => SearchOk(t, c.query) && FieldOk(t, CategoryField, c.category) && FieldOk(t, PriorityField, c.priority)
  }

  /** One exact-match stage applied after a filter is the filter by both. */
  lemma FieldStageAfter(s: seq<Task>, a: Task -> bool, f: Field, v: string, b: Task -> bool)
    requires forall t :: b(t) == (a(t) && FieldOk(t, f, v))
    ensures FieldStage(Filter(s, a), f, v) == Filter(s, b)
  {
    if v == All {
      FilterExt(s, a, b);
    } else {
      FilterFilter(s, a, FieldFn(f, v), b);
    }
  }

  /** The stages in the page's order select exactly the tasks that satisfy every criterion. */
  lemma StagesSelect(s: seq<Task>, c: Criteria, searched: seq<Task>)
    requires searched == Filter(s, UptoSearchFn(c))
    ensures FieldStage(FieldStage(FieldStage(searched, CategoryField, c.category),
              PriorityField, c.priority), StatusField, c.status) == Selected(s, c)
  {
    FieldStageAfter(s, UptoSearchFn(c), CategoryField, c.category, UptoCategoryFn(c));
    FieldStageAfter(s, UptoCategoryFn(c), PriorityField, c.priority, UptoPriorityFn(c));
    FieldStageAfter(s, UptoPriorityFn(c), StatusField, c.status, MatchesFn(c));
  }

  /**
   * The pipeline throws exactly when the search runs and fails; when it does not throw, the
   * search stage (or the untouched list, for an empty query) is the filter by the query alone.
   */
  lemma SearchOutcome(s: seq<Task>, c: Criteria)
    ensures Throws(s, c) <==> (c.query != "" && SearchStage(s, c.query).Failure?)
    ensures !Throws(s, c) ==>
      Filter(s, UptoSearchFn(c)) == (if c.query == "" then s else SearchStage(s, c.query).value)
  {
    if c.query == "" {
      FilterAll(s, UptoSearchFn(c));
    } else {
      SearchStageSpec(s, c.query);
      FilterExt(s, SearchFn(c.query), UptoSearchFn(c));
    }
  }

  // ---------------------------------------------------------------- sorting

  /** `{ 'High': 3, 'Medium': 2, 'Low': 1 }`; a priority outside the table ranks 0. */
  function PriorityRank(p: string): int {
    if p == "High" then 3 else if p == "Medium" then 2 else if p == "Low" then 1 else 0
  }

  /** The page's comparator: positive when `a` must come after `b`. */
  function Comparator(sortBy: string, a: Task, b: Task): int {
    if sortBy == "date" then b.createdAt - a.createdAt
    else if sortBy == "priority" then PriorityRank(b.priority) - PriorityRank(a.priority)
    else if sortBy == "title" then LocaleCompare(a.title, b.title)
    else 0
  }

  /** The key the comparator orders by. */
  function SortKey(sortBy: string, t: Task): Key {
    if sortBy == "date" then Num(-t.createdAt)
    else if sortBy == "priority" then Num(-PriorityRank(t.priority))
    else if sortBy == "title" then Str(t.title)
    else Num(0)
  }

  function KeyFor(sortBy: string): Task -> Key {
    t => SortKey(sortBy, t)
  }

  /** The comparator's sign is the order of the keys, so sorting by key is sorting by the comparator. */
  lemma ComparatorAgrees(sortBy: string, a: Task, b: Task)
    ensures Comparator(sortBy, a, b) > 0 <==> KeyLt(SortKey(sortBy, b), SortKey(sortBy, a))
    ensures Comparator(sortBy, a, b) == 0 <==> SortKey(sortBy, a) == SortKey(sortBy, b)
    ensures Comparator(sortBy, a, b) < 0 <==> KeyLt(SortKey(sortBy, a), SortKey(sortBy, b))
  {
    if sortBy == "title" {
      if a.title != b.title {
        LexStrict(a.title, b.title);
      } else {
        LexReflexive(a.title);
      }
    }
  }

  // ---------------------------------------------------------------- the pipeline

  /** A fresh array holding `s`: what `[...xs]` and `xs.filter(...)` return. */
  method NewArray(s: seq<Task>) returns (a: array<Task>)
    ensures fresh(a) && a[..] == s
  {
    a := new Task[|s|](i requires 0 <= i < |s| => s[i]);
  }

  /**
   * `applyFiltersAndSort`: copy the tasks, search, apply the three exact filters, then sort
   * the last array in place. The input array is only read.
   */
  method ApplyFiltersAndSort(tasks: array<Task>, c: Criteria, sortBy: string)
    returns (r: Result<seq<Task>, SearchError>)
    ensures r.Failure? <==> Throws(tasks[..], c)
    ensures r.Failure? ==>
      SearchStage(tasks[..], c.query).Failure? && r.error == SearchStage(tasks[..], c.query).error
    ensures r.Success? ==> r.value == SortByKey(Selected(tasks[..], c), KeyFor(sortBy))
  {
    var filtered := FilterStages(tasks, c);
    if filtered.Failure? {
      return Failure(filtered.error);
    }
    SortInPlace(filtered.value, KeyFor(sortBy));
    r := Success(filtered.value[..]);
  }

  /** The copy, the search and the three exact filters, each stage on the previous one's array. */
  method FilterStages(tasks: array<Task>, c: Criteria) returns (r: Result<array<Task>, SearchError>)
    ensures r.Failure? <==> Throws(tasks[..], c)
    ensures r.Failure? ==>
      SearchStage(tasks[..], c.query).Failure? && r.error == SearchStage(tasks[..], c.query).error
    ensures r.Success? ==> fresh(r.value) && r.value[..] == Selected(tasks[..], c)
  {
    ghost var input := tasks[..];
    SearchOutcome(input, c);
    var filtered := NewArray(tasks[..]);
    var searched := QueryStage(filtered, c.query);
    if searched.Failure? {
      return Failure(searched.error);
    }
    filtered := searched.value;
    StagesSelect(input, c, filtered[..]);
    filtered := ExactStage(filtered, CategoryField, c.category);
    filtered := ExactStage(filtered, PriorityField, c.priority);
    filtered := ExactStage(filtered, StatusField, c.status);
    r := Success(filtered);
  }

  /** The search stage: the same array for an empty query, else a fresh array or the error. */
  method QueryStage(filtered: array<Task>, q: string) returns (r: Result<array<Task>, SearchError>)
    ensures q == "" ==> r == Success(filtered)
    ensures q != "" ==> (r.Failure? <==> SearchStage(filtered[..], q).Failure?)
    ensures q != "" && r.Failure? ==> r.error == SearchStage(filtered[..], q).error
    ensures q != "" && r.Success? ==> fresh(r.value) && r.value[..] == SearchStage(filtered[..], q).value
  {
    r := Success(filtered);
    if q != "" {
      var searched := SearchStage(filtered[..], q);
      if searched.Failure? {
        r := Failure(searched.error);
      } else {
        var a := NewArray(searched.value);
        r := Success(a);
      }
    }
  }

  /** One exact-match stage: a fresh filtered array, or the same array when the filter is "All". */
  method ExactStage(filtered: array<Task>, f: Field, v: string) returns (out: array<Task>)
    ensures out == filtered || fresh(out)
    ensures out[..] == FieldStage(filtered[..], f, v)
  {
    out := filtered;
    if v != All {
      out := NewArray(Filter(filtered[..], FieldFn(f, v)));
    }
  }

  // ---------------------------------------------------------------- what the displayed list is

  /**
   * The displayed list holds exactly the input tasks that satisfy every criterion, each as often
   * as in the input (a permutation of that selection), ordered by the sort key, and tasks with
   * equal keys keep their input order.
   */
  lemma DisplayedList(s: seq<Task>, c: Criteria, sortBy: string)
    ensures var r := SortByKey(Selected(s, c), KeyFor(sortBy));
      && multiset(r) == multiset(Selected(s, c))
      && (forall t :: t in r <==> t in s && Matches(t, c))
      && (forall t :: Matches(t, c) ==> multiset(r)[t] == multiset(s)[t])
      && (forall t :: !Matches(t, c) ==> multiset(r)[t] == 0)
      && |r| <= |s|
      && SortedBy(r, KeyFor(sortBy))
      && (forall k :: WithKey(r, KeyFor(sortBy), k) == WithKey(Selected(s, c), KeyFor(sortBy), k))
  {
    var sel := Selected(s, c);
    var r := SortByKey(sel, KeyFor(sortBy));
    SortPermutation(sel, KeyFor(sortBy));
    FilterMembership(s, MatchesFn(c));
    FilterMultiset(s, MatchesFn(c));
    SortSorted(sel, KeyFor(sortBy));
    forall k ensures WithKey(r, KeyFor(sortBy), k) == WithKey(sel, KeyFor(sortBy), k) {
      SortStable(sel, KeyFor(sortBy), k);
    }
    forall t ensures t in r <==> t in sel {
      assert t in r <==> t in multiset(r);
      assert t in sel <==> t in multiset(sel);
    }
  }

  /** With an empty query and every drop-down on "All" nothing is filtered out. */
  lemma NoCriteriaKeepsAll(s: seq<Task>)
    ensures Selected(s, Criteria("", All, All, All)) == s
    ensures !Throws(s, Criteria("", All, All, All))
  {
    FilterAll(s, MatchesFn(Criteria("", All, All, All)));
  }

  /** Sorting by "date" puts the most recently created first. */
  lemma DateOrder(r: seq<Task>)
    requires SortedBy(r, KeyFor("date"))
    ensures forall i, j :: 0 <= i < j < |r| ==> r[i].createdAt >= r[j].createdAt
  {
    forall i, j | 0 <= i < j < |r| ensures r[i].createdAt >= r[j].createdAt {
      assert KeyLe(SortKey("date", r[i]), SortKey("date", r[j]));
    }
  }

  /** Sorting by "priority" puts High before Medium before Low. */
  lemma PriorityOrder(r: seq<Task>)
    requires SortedBy(r, KeyFor("priority"))
    ensures forall i, j :: 0 <= i < j < |r| ==> PriorityRank(r[i].priority) >= PriorityRank(r[j].priority)
  {
    forall i, j | 0 <= i < j < |r|
      ensures PriorityRank(r[i].priority) >= PriorityRank(r[j].priority)
    {
      assert KeyLe(SortKey("priority", r[i]), SortKey("priority", r[j]));
    }
  }

  /** Sorting by "title" puts the titles in ascending order. */
  lemma TitleOrder(r: seq<Task>)
    requires SortedBy(r, KeyFor("title"))
    ensures forall i, j :: 0 <= i < j < |r| ==> LexLe(r[i].title, r[j].title)
  {
    forall i, j | 0 <= i < j < |r| ensures LexLe(r[i].title, r[j].title) {
      assert KeyLe(SortKey("title", r[i]), SortKey("title", r[j]));
    }
  }

  /** Any other sort value makes the comparator 0 throughout, so the filtered order is kept. */
  lemma OtherKeyKeepsOrder(s: seq<Task>, sortBy: string)
    requires sortBy != "date" && sortBy != "priority" && sortBy != "title"
    ensures SortByKey(s, KeyFor(sortBy)) == s
  {
    assert SortedBy(s, KeyFor(sortBy));
    SortOfSorted(s, KeyFor(sortBy));
  }

  /** Re-sorting the displayed list by the same key changes nothing. */
  lemma ResortIsIdentity(s: seq<Task>, c: Criteria, sortBy: string)
    ensures SortByKey(SortByKey(Selected(s, c), KeyFor(sortBy)), KeyFor(sortBy)) ==
            SortByKey(Selected(s, c), KeyFor(sortBy))
  {
    SortIdempotent(Selected(s, c), KeyFor(sortBy));
  }

  // ---------------------------------------------------------------- selection

  function NotFn(id: string): string -> bool {
    x => x != id
  }

  /** `toggleSelectTask`: drop the id when it is selected, append it when it is not. */
  function ToggleSelect(selected: seq<string>, id: string): (r: seq<string>)
    ensures id in r <==> id !in selected
    ensures forall x :: x != id ==> (x in r <==> x in selected)
  {
    FilterMembership(selected, NotFn(id));
    if id in selected then Filter(selected, NotFn(id)) else selected + [id]
  }

  /** Toggling never introduces a duplicate. */
  lemma ToggleNoDuplicates(selected: seq<string>, id: string)
    requires NoDuplicates(selected)
    ensures NoDuplicates(ToggleSelect(selected, id))
  {
    if id in selected {
      FilterNoDuplicates(selected, NotFn(id));
    }
  }

  /** Toggling an unselected id twice restores the selection exactly. */
  lemma ToggleTwiceUnselected(selected: seq<string>, id: string)
    requires id !in selected
    ensures ToggleSelect(ToggleSelect(selected, id), id) == selected
  {
    FilterConcat(selected, [id], NotFn(id));
    FilterAll(selected, NotFn(id));
  }

  /**
   * Toggling a selected id twice restores the set of selected ids, but the id moves to the
   * end of the selection.
   */
  lemma ToggleTwiceSelected(selected: seq<string>, id: string)
    requires id in selected
    ensures ToggleSelect(ToggleSelect(selected, id), id) == Filter(selected, NotFn(id)) + [id]
    ensures forall x :: x in ToggleSelect(ToggleSelect(selected, id), id) <==> x in selected
  {
  }

  /** The header checkbox of the list view: every displayed id, or nothing. */
  function SelectAll(displayed: seq<Task>, checked: bool): (r: seq<string>)
    ensures checked ==> |r| == |displayed| && forall i :: 0 <= i < |r| ==> r[i] == displayed[i].id
    ensures !checked ==> r == []
  {
    if checked then seq(|displayed|, i requires 0 <= i < |displayed| => displayed[i].id) else []
  }

  // ---------------------------------------------------------------- completion

  /** `{ ...task, status: 'Completed' }`. */
  function QuickComplete(t: Task): (r: Task)
    ensures IsCompleted(r)
    ensures r.(status := t.status) == t
  {
    t.(status := CompletedStatus)
  }

  function InSelectionFn(selected: seq<string>): Task -> bool {
    (t: Task) => t.id in selected
  }

  /**
   * `handleBulkComplete`: nothing when the selection is empty; otherwise one completed copy of
   * every task whose id is selected, in task-list order.
   */
  function BulkComplete(tasks: seq<Task>, selected: seq<string>): (r: Option<seq<Task>>)
    ensures r.None? <==> |selected| == 0
    ensures r.Some? ==> |r.value| == |Filter(tasks, InSelectionFn(selected))|
    ensures r.Some? ==> forall i :: 0 <= i < |r.value| ==>
      r.value[i] == QuickComplete(Filter(tasks, InSelectionFn(selected))[i])
  {
    if |selected| == 0 then None
    else
      var targets := Filter(tasks, InSelectionFn(selected));
      Some(seq(|targets|, i requires 0 <= i < |targets| => QuickComplete(targets[i])))
  }

  /** The bulk-complete targets are exactly the listed tasks whose id is selected. */
  lemma BulkCompleteTargets(tasks: seq<Task>, selected: seq<string>)
    ensures forall t :: t in Filter(tasks, InSelectionFn(selected)) <==> t in tasks && t.id in selected
    ensures multiset(Filter(tasks, InSelectionFn(selected))) <= multiset(tasks)
  {
    FilterMembership(tasks, InSelectionFn(selected));
    FilterMultiset(tasks, InSelectionFn(selected));
  }

  // ---------------------------------------------------------------- badge colour

  const HighColor: string := "bg-red-100 text-red-700"
  const MediumColor: string := "bg-yellow-100 text-yellow-700"
  const LowColor: string := "bg-green-100 text-green-700"
  const OtherColor: string := "bg-gray-100 text-gray-700"

  /** `getPriorityColor`: red, yellow and green for the three priorities, grey for anything else. */
  function PriorityColor(priority: string): (r: string)
    ensures r == OtherColor <==> priority != "High" && priority != "Medium" && priority != "Low"
    ensures r == HighColor <==> priority == "High"
    ensures r == MediumColor <==> priority == "Medium"
    ensures r == LowColor <==> priority == "Low"
  {
    match priority
    case "High" => HighColor
    case "Medium" => MediumColor
    case "Low" => LowColor
    case _ => OtherColor
  }
}
