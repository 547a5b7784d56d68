/**
 * The task form: the edited task as a record of named string fields, the change handler that
 * writes one field, and the values the inputs display, with their fallbacks.
 */
module TaskForm {
  import opened Text

  /**
   * The task object the form edits: a field name maps to its value; a missing name is an
   * absent (`undefined` or `null`) field.
   */
  type Record = map<string, string>

  /** `setTask({ ...task, [name]: value })`. */
  function HandleChange(rec: Record, name: string, value: string): (r: Record)
    ensures name in r && r[name] == value
    ensures forall k :: k != name ==> (k in r <==> k in rec)
    ensures forall k :: k != name && k in rec ==> r[k] == rec[k]
    ensures r.Keys == rec.Keys + {name}
  {
    rec[name := value]
  }

  /** Making the same change twice is making it once. */
  lemma ChangeIdempotent(rec: Record, name: string, value: string)
    ensures HandleChange(HandleChange(rec, name, value), name, value) == HandleChange(rec, name, value)
  {}

  /** A later change to a field overrides an earlier one. */
  lemma ChangeOverrides(rec: Record, name: string, v1: string, v2: string)
    ensures HandleChange(HandleChange(rec, name, v1), name, v2) == HandleChange(rec, name, v2)
  {}

  /** Changes to different fields can be made in either order. */
  lemma ChangesCommute(rec: Record, n1: string, v1: string, n2: string, v2: string)
    requires n1 != n2
    ensures HandleChange(HandleChange(rec, n1, v1), n2, v2) == HandleChange(HandleChange(rec, n2, v2), n1, v1)
  {}

  /** Writing back the value a field already holds leaves the record as it was. */
  lemma ChangeToSameValue(rec: Record, name: string)
    requires name in rec
    ensures HandleChange(rec, name, rec[name]) == rec
  {}

  // ---------------------------------------------------------------- what the inputs display

  /** `task.<name> || fallback`: the stored value unless it is absent or empty. */
  function ValueOr(rec: Record, name: string, fallback: string): (r: string)
    ensures name in rec && rec[name] != "" ==> r == rec[name]
    ensures name !in rec || rec[name] == "" ==> r == fallback
  {
    if name in rec && rec[name] != "" then rec[name] else fallback
  }

  function TitleShown(rec: Record): string { ValueOr(rec, "title", "") }
  function DescriptionShown(rec: Record): string { ValueOr(rec, "description", "") }
  function PriorityShown(rec: Record): string { ValueOr(rec, "priority", "Medium") }
  function CategoryShown(rec: Record): string { ValueOr(rec, "category", "Work") }
  function StatusShown(rec: Record): string { ValueOr(rec, "status", "To do") }

  /** The empty record `map[]` shows an empty title and description, and Medium, Work and 'To do'. */
  lemma EmptyRecordDefaults()
    ensures TitleShown(map[]) == "" && DescriptionShown(map[]) == ""
    ensures PriorityShown(map[]) == "Medium" && CategoryShown(map[]) == "Work"
    ensures StatusShown(map[]) == "To do"
  {}

  /** The values the status select offers. */
  const StatusOptions: seq<string> := ["To do", "In Progress", "Completed"]

  /** The record the task page opens the form with for a new task (`openCreateModal`). */
  function NewTaskRecord(): (r: Record)
    ensures r.Keys == {"title", "description", "priority", "category", "status", "dueDate"}
  {
    map["title" := "", "description" := "", "priority" := "Medium", "category" := "Work",
        "status" := "To Do", "dueDate" := ""]
  }

  /**
   * A new task's status select is handed 'To Do', which none of its options carries, while the
   * other inputs show their fallbacks.
   */
  lemma NewTaskStatusNotAnOption()
    ensures StatusShown(NewTaskRecord()) == "To Do"
    ensures StatusShown(NewTaskRecord()) !in StatusOptions
    ensures TitleShown(NewTaskRecord()) == "" && DueDateShown(NewTaskRecord()) == ""
    ensures PriorityShown(NewTaskRecord()) == "Medium" && CategoryShown(NewTaskRecord()) == "Work"
  {
    var r := NewTaskRecord();
    assert r["status"] == "To Do";
    assert "To Do"[3] != "To do"[3];
  }

  /** A text input shows back what was typed into it, whatever else the record holds. */
  lemma TypedTextShown(rec: Record, value: string)
    ensures TitleShown(HandleChange(rec, "title", value)) == value
    ensures DescriptionShown(HandleChange(rec, "description", value)) == value
  {}

  /** A select shows the picked option, or its fallback if the pick is empty. */
  lemma PickedOptionShown(rec: Record, value: string)
    ensures PriorityShown(HandleChange(rec, "priority", value)) == (if value == "" then "Medium" else value)
    ensures CategoryShown(HandleChange(rec, "category", value)) == (if value == "" then "Work" else value)
    ensures StatusShown(HandleChange(rec, "status", value)) == (if value == "" then "To do" else value)
  {}

  /** A change to one field leaves what every other input shows unchanged. */
  lemma ChangeShowsOnlyItsField(rec: Record, name: string, value: string)
    requires name != "title" && name != "priority"
    ensures TitleShown(HandleChange(rec, name, value)) == TitleShown(rec)
    ensures PriorityShown(HandleChange(rec, name, value)) == PriorityShown(rec)
  {}

  // ---------------------------------------------------------------- the due date

  /** `s.split(sep)[0]`: the part of `s` before the first `sep`, or all of `s`. */
  function BeforeFirst(s: string, sep: char): (r: string)
    ensures IsPrefix(r, s)
    ensures sep !in r
    ensures |r| < |s| ==> s[|r|] == sep
    ensures sep !in s ==> r == s
    decreases |s|
  {
    if s == [] then []
    else if s[0] == sep then []
    else [s[0]] + BeforeFirst(s[1..], sep)
  }

  /** `task.dueDate ? task.dueDate.split('T')[0] : ''`. */
  function DueDateShown(rec: Record): (r: string)
    ensures "dueDate" !in rec || rec["dueDate"] == "" ==> r == ""
    ensures "dueDate" in rec ==> IsPrefix(r, rec["dueDate"]) && 'T' !in r
  {
    if "dueDate" in rec && rec["dueDate"] != "" then BeforeFirst(rec["dueDate"], 'T') else ""
  }

  /** Cutting at the first separator a second time changes nothing. */
  lemma BeforeFirstIdempotent(s: string, sep: char)
    ensures BeforeFirst(BeforeFirst(s, sep), sep) == BeforeFirst(s, sep)
  {}

  /** The cut keeps everything before the first separator: the prefix and the rest recompose `s`. */
  lemma {:induction false} BeforeFirstSplits(s: string, sep: char)
    requires sep in s
    ensures s == BeforeFirst(s, sep) + [sep] + s[|BeforeFirst(s, sep)| + 1..]
    decreases |s|
  {
    if s[0] != sep {
      BeforeFirstSplits(s[1..], sep);
    }
  }

  /** For example, the stored timestamp 2025-03-14T00:00:00.000Z shows as its date part. */
  lemma TimestampShowsDate(rec: Record)
    requires "dueDate" in rec && rec["dueDate"] == "2025-03-14T00:00:00.000Z"
    ensures DueDateShown(rec) == "2025-03-14"
  {
    var s := rec["dueDate"];
    assert s[10] == 'T';
    assert 'T' !in s[..10];
    assert s[..10] == "2025-03-14";
  }

  /** A date picked in the date input (`yyyy-mm-dd`, no 'T') shows back unchanged. */
  lemma PickedDateShown(rec: Record, value: string)
    requires 'T' !in value
    ensures DueDateShown(HandleChange(rec, "dueDate", value)) == value
  {}
}
