/**
 * The task record as the frontend receives it from the API, shaped by the fields of the
 * backend's task schema. Status, priority and category stay strings: the views disagree on
 * their spelling (the schema says 'To do'; the new-task record, the filter and the chart say
 * 'To Do').
 */
module TaskModel {
  import opened Wrappers
  import opened Civil

  datatype Task = Task(
    id: string,                // `_id`
    title: string,
    description: Option<string>,
    priority: string,
    category: string,
    status: string,
    dueDate: Option<Civil>,    // the local day of `dueDate`
    createdAt: int,            // milliseconds since the epoch
    updatedAt: Option<Civil>)  // the local day of `updatedAt`

  /** The status every view treats as done. */
  const CompletedStatus: string := "Completed"

  predicate IsCompleted(t: Task) {
    t.status == CompletedStatus
  }
}
