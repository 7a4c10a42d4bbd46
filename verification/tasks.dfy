/** The task record, limited to the fields the cache reads or writes. */
module Tasks {
  import opened Base
  import opened Uuids

  datatype TaskStatus = Pending | Completed | Deleted | Waiting | Recurring

  datatype Task = Task(
    status: TaskStatus,
    uuid: Uuid,
    description: string,
    partof: Option<Uuid>,          // the parent task, if any
    project: Option<string>,
    tags: Option<seq<string>>)

  /** Completed and deleted tasks are not indexed as children. */
  predicate IsActive(s: TaskStatus) {
    s != Completed && s != Deleted
  }

  /** The tag that marks a task as somebody's parent. */
  const ProjectTag: string := "project"

  predicate HasTag(t: Task, tag: string) {
    t.tags.Some? && tag in t.tags.value
  }

  function UuidsOf(ts: seq<Task>): set<Uuid> {
    set t | t in ts :: t.uuid
  }

  /** `t` is an active child of `p`, the test `refresh` applies. */
  predicate IsChildOf(t: Task, p: Uuid) {
    t.partof == Some(p) && IsActive(t.status)
  }
}
