/** The external task tool, as far as the cache relies on it: a sequence of
    task records that `task export` prints in order, and the modification
    commands of the free functions of src/task.rs, which the tool applies to
    the records with the targeted uuid. Spawning the process, formatting the
    arguments and printing the log lines are not part of this model. */
module Store {
  import opened Base
  import opened Uuids
  import opened Tasks

  /** One `task uuid:<u> ...` modification, as issued by `project`, `done`,
      `delete`, `pending`, `partof`, `set_description`, `add_tag` and
      `remove_tag`. An absent project or parent is sent as the empty value. */
  datatype Command =
    | SetProject(target: Uuid, value: string)
    | MarkDone(target: Uuid)
    | MarkDeleted(target: Uuid)
    | MarkPending(target: Uuid)
    | SetPartof(target: Uuid, parent: Option<Uuid>)
    | SetDescription(target: Uuid, text: string)
    | AddTag(target: Uuid, tag: string)
    | RemoveTag(target: Uuid, tag: string)

  /** The argument `project(uuid, p)` sends: `p`, or empty for None. */
  function ProjectCommand(u: Uuid, p: Option<string>): (c: Command)
    ensures c.SetProject? && c.target == u
    ensures c.value == "" <==> p.None? || p == Some("")
    ensures p.Some? ==> c.value == p.value
  {
    SetProject(u, p.GetOr(""))
  }

  function TagsOf(t: Task): seq<string> {
    t.tags.GetOr([])
  }

  function Without(tags: seq<string>, tag: string): (r: seq<string>)
    ensures tag !in r
    ensures forall x :: x in r <==> x in tags && x != tag
  {
    if tags == [] then []
    else (if tags[0] == tag then [] else [tags[0]]) + Without(tags[1..], tag)
  }

  /** The record the tool holds after applying `c` to `t`. An empty project
      clears the field; `+tag` adds a tag once; `-tag` removes it, and a
      record left without tags has no tag list. */
  function Applied(t: Task, c: Command): (r: Task)
    ensures r.uuid == t.uuid
    ensures c.AddTag? ==> HasTag(r, c.tag)
    ensures c.RemoveTag? ==> !HasTag(r, c.tag)
    ensures c.SetProject? ==> r.project == (if c.value == "" then None else Some(c.value))
    ensures c.SetProject? || c.AddTag? || c.RemoveTag? ==>
              r.partof == t.partof && r.description == t.description && r.status == t.status
    ensures c.AddTag? || c.RemoveTag? ==> r.project == t.project
    ensures c.SetProject? ==> r.tags == t.tags
  {
    match c
    case SetProject(_, v) => t.(project := if v == "" then None else Some(v))
    case MarkDone(_) => t.(status := Completed)
    case MarkDeleted(_) => t.(status := Deleted)
    case MarkPending(_) => t.(status := Pending)
    case SetPartof(_, p) => t.(partof := p)
    case SetDescription(_, d) => t.(description := d)
    case AddTag(_, tag) => if HasTag(t, tag) then t else t.(tags := Some(TagsOf(t) + [tag]))
    case RemoveTag(_, tag) =>
      var rest := Without(TagsOf(t), tag);
      t.(tags := if rest == [] then None else Some(rest))
  }

  /** The record after `c` when `c` may target another task. */
  function ApplyTo(t: Task, c: Command): (r: Task)
    ensures r.uuid == t.uuid
  {
    if t.uuid == c.target then Applied(t, c) else t
  }

  /** The export after `c`: every record with the targeted uuid changes. */
  function ApplyAll(records: seq<Task>, c: Command): (r: seq<Task>)
    ensures |r| == |records|
    ensures forall i :: 0 <= i < |r| ==> r[i] == ApplyTo(records[i], c)
  {
    if records == [] then [] else [ApplyTo(records[0], c)] + ApplyAll(records[1..], c)
  }

  /** What `task export uuid:<u>` prints: the records with uuid `u`, in order. */
  function Exported(records: seq<Task>, u: Uuid): (r: seq<Task>)
    ensures forall i :: 0 <= i < |r| ==> r[i].uuid == u && r[i] in records
    ensures r == [] <==> u !in UuidsOf(records)
  {
    if records == [] then []
    else (if records[0].uuid == u then [records[0]] else []) + Exported(records[1..], u)
  }

  lemma ApplyAllAppend(a: seq<Task>, b: seq<Task>, c: Command)
    ensures ApplyAll(a + b, c) == ApplyAll(a, c) + ApplyAll(b, c)
  {
  }

  /** Filtering the export by uuid commutes with applying a command. */
  lemma {:induction false} ExportedApplyAll(records: seq<Task>, c: Command, u: Uuid)
    ensures Exported(ApplyAll(records, c), u) == ApplyAll(Exported(records, u), c)
  {
    if records != [] {
      var head, rest := records[0], records[1..];
      ExportedApplyAll(rest, c, u);
      var hs := if head.uuid == u then [head] else [];
      assert Exported(records, u) == hs + Exported(rest, u);
      ApplyAllAppend(hs, Exported(rest, u), c);
    }
  }

  /** The first record the tool exports for `u` after `c` is the first one
      before, changed by `c` when `u` is its target. */
  lemma FirstExportedAfter(records: seq<Task>, c: Command, u: Uuid)
    requires Exported(records, u) != []
    ensures Exported(ApplyAll(records, c), u) != []
    ensures Exported(ApplyAll(records, c), u)[0]
         == if u == c.target then Applied(Exported(records, u)[0], c) else Exported(records, u)[0]
  {
    ExportedApplyAll(records, c, u);
  }

  /** Exporting after one more record: the new record comes last. */
  lemma {:induction false} ExportedSnoc(records: seq<Task>, t: Task, u: Uuid)
    ensures Exported(records + [t], u) == Exported(records, u) + (if t.uuid == u then [t] else [])
    decreases |records|
  {
    if records == [] {
      assert records + [t] == [t];
      assert [t][1..] == [];
    } else {
      var rest := records[1..];
      assert (records + [t])[0] == records[0];
      assert (records + [t])[1..] == rest + [t];
      ExportedSnoc(rest, t, u);
      var head := if records[0].uuid == u then [records[0]] else [];
      var last := if t.uuid == u then [t] else [];
      assert Exported(records + [t], u) == head + Exported(rest + [t], u);
      assert Exported(records + [t], u) == head + (Exported(rest, u) + last);
      assert Exported(records, u) == head + Exported(rest, u);
    }
  }

  /** The task `task add` creates: pending, with no project and no tags. */
  function NewTask(description: string, partof: Option<Uuid>, id: Uuid): (t: Task)
    ensures t.uuid == id && t.description == description && t.partof == partof
    ensures t.status == Pending && IsActive(t.status)
    ensures t.project.None? && !HasTag(t, ProjectTag)
  {
    Task(Pending, id, description, partof, None, None)
  }

  /** What `task add rc.verbose=new-uuid` prints for a task created as `id`. */
  function Feedback(id: Uuid): (s: string)
    ensures |s| == 14 + UuidLength && s[13..13 + UuidLength] == id
  {
    "Created task " + id + "."
  }

  /** The uuid scan finds the created task's uuid in the feedback. */
  lemma FeedbackNamesTask(id: Uuid)
    ensures ExtractUuid(Feedback(id)) == Ok(id)
  {
    var text := Feedback(id);
    var prefix := "Created task ";
    assert |prefix| == 13 && text[12] == ' ';
    forall j: nat | j < 13 ensures !MatchesAt(text, j) {
      if j + UuidLength <= |text| {
        var window := text[j..j + UuidLength];
        assert window[12 - j] == ' ';
      }
    }
    assert text[13..13 + UuidLength] == id;
    assert MatchesAt(text, 13);
  }

  class TaskStore {
    /** The records `task export` prints, in order. */
    var records: seq<Task>
    /** Every modification command issued, oldest first. */
    var log: seq<Command>

    constructor (records: seq<Task>)
      ensures this.records == records && log == []
    {
      this.records := records;
      log := [];
    }

    /** Issue one modification command (src/task.rs:196-273). */
    method Run(c: Command)
      modifies this
      ensures records == ApplyAll(old(records), c)
      ensures log == old(log) + [c]
    {
      records := ApplyAll(records, c);
      log := log + [c];
    }

    /** `task add`: the tool creates the task as `id` and prints feedback. */
    method Add(description: string, partof: Option<Uuid>, id: Uuid) returns (feedback: string)
      modifies this
      ensures records == old(records) + [NewTask(description, partof, id)]
      ensures log == old(log)
      ensures feedback == Feedback(id)
    {
      records := records + [NewTask(description, partof, id)];
      feedback := Feedback(id);
    }
  }
}
