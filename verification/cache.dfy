/** `TaskCache`: the in-memory mirror of the task tool's records, with the
    parent-to-children index, and the free function `get_tasks`. The tool
    is the `TaskStore` passed to each operation that talks to it. */
module Cache {
  import opened Base
  import opened Text
  import opened Uuids
  import opened Tasks
  import opened Store
  import opened Index
  import opened Ancestry
  import opened Repair

  class TaskCache {
    /** The `set_project` feature: keep each task's project equal to its
        derived project name. */
    const setProject: bool
    /** The `set_project_tag` feature: tag exactly the parents "project". */
    const setProjectTag: bool
    var tasks: map<Uuid, Task>
    var children: map<Uuid, seq<Uuid>>

    /** `TaskCache::new`, with the two features fixed for the cache's life. */
    constructor(setProject: bool, setProjectTag: bool)
      ensures this.setProject == setProject && this.setProjectTag == setProjectTag
      ensures tasks == map[] && children == map[]
    {
      this.setProject := setProject;
      this.setProjectTag := setProjectTag;
      tasks := map[];
      children := map[];
    }

    /** Reload every exported task and rebuild the index from scratch. */
    method Refresh(store: TaskStore)
      modifies this
      ensures children == ChildIndex(store.records)
      ensures tasks == Loaded(old(tasks), store.records)
    {
      var ts := store.records;
      children := map[];
      assert Parents(ts[..0]) == {};
      var i := 0;
      while i < |ts|
        invariant 0 <= i <= |ts|
        invariant children == ChildIndex(ts[..i])
        invariant tasks == Loaded(old(tasks), ts[..i])
      {
        var t := ts[i];
        assert ts[..i + 1] == ts[..i] + [t];
        RefreshStep(old(tasks), ts[..i], t);
        if t.partof.Some? {
          if t.status != Completed && t.status != Deleted {
            var parent := t.partof.value;
            if parent in children {
              children := children[parent := children[parent] + [t.uuid]];
            } else {
              children := children[parent := [t.uuid]];
            }
          }
        }
        tasks := tasks[t.uuid := t];
        i := i + 1;
      }
      assert ts[..|ts|] == ts;
    }

    /** Reload `u` from the tool into the entry under the key `u`. */
    method Update(u: Uuid, store: TaskStore) returns (r: Result<Task>)
      modifies this
      ensures children == old(children)
      ensures r.Err? <==> u !in UuidsOf(store.records)
      ensures r.Err? ==> r.error == NoExportRecord && tasks == old(tasks)
      ensures r.Ok? ==> r.value == Exported(store.records, u)[0] && tasks == old(tasks)[u := r.value]
      ensures Outcome(World(tasks, store.records, store.log), r) ==
              Reload(World(old(tasks), store.records, store.log), u)
    {
      var exported := Exported(store.records, u);
      if exported == [] {
        return Err(NoExportRecord);
      }
      tasks := tasks[u := exported[0]];
      return Ok(exported[0]);
    }

    /** Walk from `u` up its parents, prepending each parent's description.
        The set of tasks not yet passed stops the walk where the source's
        loop would go round a cycle forever. */
    method GetProjectName(u: Uuid) returns (r: Result<Option<string>>)
      ensures r == ProjectName(tasks, u)
    {
      if u !in tasks {
        return Err(NotInCache);
      }
      var descriptions: seq<string> := [];
      var task := tasks[u];
      var unvisited := tasks.Keys - {u};
      ExtendTwice(Climb(tasks, task, unvisited), [], []);
      while task.partof.Some?
        invariant AncestorDescriptions(tasks, u) == Extend(Climb(tasks, task, unvisited), descriptions)
        decreases unvisited
      {
        var parent := task.partof.value;
        if parent !in tasks {
          return Err(NotInCache);
        }
        if parent !in unvisited {
          return Err(CyclicParents);
        }
        task := tasks[parent];
        unvisited := unvisited - {parent};
        ExtendTwice(Climb(tasks, task, unvisited), [task.description], descriptions);
        descriptions := [task.description] + descriptions;
      }
      assert AncestorDescriptions(tasks, u) == Ok(descriptions) by {
        assert [] + descriptions == descriptions;
      }
      if |descriptions| > 0 {
        return Ok(Some(Normalize(Join(descriptions, "."))));
      }
      return Ok(None);
    }

    /** Read `u`, first repairing its project and its "project" tag as the
        enabled features ask. */
    method GetTask(u: Uuid, store: TaskStore) returns (r: Result<Task>)
      modifies this, store
      ensures children == old(children)
      ensures Outcome(World(tasks, store.records, store.log), r) ==
              ReadWithRepair(setProject, setProjectTag,
                             World(old(tasks), old(store.records), old(store.log)), children, u)
    {
      ghost var w0 := World(tasks, store.records, store.log);
      if setProject {
        var name := GetProjectName(u);
        if name.Err? {
          return Err(name.error);
        }
        if tasks[u].project != name.value {
          store.Run(ProjectCommand(u, name.value));
          var loaded := Update(u, store);
          if loaded.Err? {
            return Err(loaded.error);
          }
        }
      }
      ghost var w1 := World(tasks, store.records, store.log);
      assert Outcome(w1, Ok(())) == if setProject then ProjectStep(w0, u) else Outcome(w0, Ok(()));
      if setProjectTag {
        if u !in tasks {
          return Err(NotInCache);
        }
        var hasTag := HasTag(tasks[u], ProjectTag);
        var needsTag := u in children;
        if hasTag && !needsTag {
          store.Run(RemoveTag(u, ProjectTag));
        }
        if !hasTag && needsTag {
          store.Run(AddTag(u, ProjectTag));
        }
        if hasTag != needsTag {
          var loaded := Update(u, store);
          if loaded.Err? {
            return Err(loaded.error);
          }
        }
      }
      if u !in tasks {
        return Err(NotInCache);
      }
      return Ok(tasks[u]);
    }

    /** Add a task to the tool, take its uuid from the tool's feedback and
        load it. The store stands for the tool and `id` for the uuid the
        tool chooses. */
    method Create(description: string, partof: Option<Uuid>, store: TaskStore, id: Uuid) returns (r: Result<Task>)
      modifies this, store
      ensures store.records == old(store.records) + [NewTask(description, partof, id)]
      ensures store.log == old(store.log)
      ensures children == old(children)
      ensures Outcome(World(tasks, store.records, store.log), r) ==
              Reload(World(old(tasks), store.records, store.log), id)
      ensures id !in UuidsOf(old(store.records)) ==>
                r == Ok(NewTask(description, partof, id)) && tasks == old(tasks)[id := NewTask(description, partof, id)]
    {
      var feedback := store.Add(description, partof, id);
      FeedbackNamesTask(id);
      var found := ExtractUuid(feedback);
      r := Update(found.value, store);
      assert Exported(old(store.records), id) == [] ==> Exported(store.records, id) == [NewTask(description, partof, id)] by {
        ExportedSnoc(old(store.records), NewTask(description, partof, id), id);
      }
    }
  }

  /** One turn of the refresh loop, in terms of the maps it updates. */
  lemma RefreshStep(m: map<Uuid, Task>, prefix: seq<Task>, t: Task)
    ensures var children := ChildIndex(prefix);
            ChildIndex(prefix + [t]) ==
              if t.partof.Some? && t.status != Completed && t.status != Deleted then
                var p := t.partof.value;
                if p in children then children[p := children[p] + [t.uuid]] else children[p := [t.uuid]]
              else children
    ensures Loaded(m, prefix + [t]) == Loaded(m, prefix)[t.uuid := t]
  {
    ChildIndexSnoc(prefix, t);
    LoadedSnoc(m, prefix, t);
    assert [] + [t.uuid] == [t.uuid];
  }

  /** The uuids of the tokens, or UuidSyntax at the first token that does
      not parse. */
  function ParseAll(words: seq<string>): (r: Result<seq<Uuid>>)
    ensures r.Ok? <==> forall i :: 0 <= i < |words| ==> ParseUuid(words[i]).Some?
    ensures r.Ok? ==> |r.value| == |words| && forall i :: 0 <= i < |words| ==> ParseUuid(words[i]) == Some(r.value[i])
    ensures r.Err? ==> r.error == UuidSyntax
  {
    if words == [] then Ok([])
    else match ParseUuid(words[0])
      case None => Err(UuidSyntax)
      case Some(id) =>
        match ParseAll(words[1..])
        case Err(e) => Err(e)
        case Ok(rest) => Ok([id] + rest)
  }

  /** `get_tasks`: the uuids listed in the output of `task _uuid`, one per
      whitespace-separated token, in order. The query itself and running
      the tool are outside the model: `output` is what the tool printed. */
  method GetTasks(output: string) returns (r: Result<seq<Uuid>>)
    ensures r == ParseAll(Tokens(output))
    ensures AllWhitespace(output) ==> r == Ok([])
  {
    var words := Tokens(output);
    TokensEmpty(output);
    var ids: seq<Uuid> := [];
    assert words[0..] == words;
    PrefixedStep([], words);
    for i := 0 to |words|
      invariant ParseAll(words) == Prefixed(ids, ParseAll(words[i..]))
    {
      PrefixedStep(ids, words[i..]);
      assert words[i..][1..] == words[i + 1..];
      var id := ParseUuid(words[i]);
      if id.None? {
        return Err(UuidSyntax);
      }
      ids := ids + [id.value];
    }
    assert words[|words|..] == [] && ids + [] == ids;
    return Ok(ids);
  }

  /** `prefix` put in front of a successful parse. */
  function Prefixed(prefix: seq<Uuid>, r: Result<seq<Uuid>>): Result<seq<Uuid>> {
    match r
    case Err(e) => Err(e)
    case Ok(rest) => Ok(prefix + rest)
  }

  lemma PrefixedStep(ids: seq<Uuid>, words: seq<string>)
    ensures Prefixed([], ParseAll(words)) == ParseAll(words)
    ensures words != [] && ParseUuid(words[0]).None? ==> ParseAll(words) == Err(UuidSyntax)
    ensures words != [] && ParseUuid(words[0]).Some? ==>
              Prefixed(ids, ParseAll(words)) == Prefixed(ids + [ParseUuid(words[0]).value], ParseAll(words[1..]))
  {
    if ParseAll(words).Ok? {
      assert [] + ParseAll(words).value == ParseAll(words).value;
    }
    if words != [] && ParseUuid(words[0]).Some? && ParseAll(words[1..]).Ok? {
      var id, rest := ParseUuid(words[0]).value, ParseAll(words[1..]).value;
      assert ids + ([id] + rest) == ids + [id] + rest;
    }
  }

  /** Uuids listed one per line, as the tool prints them, come back as
      listed. */
  lemma ListingRoundTrip(ids: seq<Uuid>)
    ensures ParseAll(Tokens(Join(ids, "\n"))) == Ok(ids)
  {
    forall i | 0 <= i < |ids| ensures ids[i] != [] && NoWhitespace(ids[i]) {
      assert ids[i][0] == ids[i][0];
    }
    TokensOfJoin(ids, '\n');
    ParseAllCanonical(ids);
  }

  lemma {:induction false} ParseAllCanonical(ids: seq<Uuid>)
    ensures ParseAll(ids) == Ok(ids)
  {
    if ids != [] {
      ParseAllCanonical(ids[1..]);
      assert [ids[0]] + ids[1..] == ids;
    }
  }

  /** Deleting the last active child of `p` takes `p` out of the index
      that the next refresh builds, so the next read of `p` with the tag
      feature removes its "project" tag. */
  lemma LastChildDeleted(ts: seq<Task>, p: Uuid, v: Uuid)
    requires forall i :: 0 <= i < |ts| && IsChildOf(ts[i], p) ==> ts[i].uuid == v
    ensures p !in ChildIndex(ApplyAll(ts, MarkDeleted(v)))
  {
    var after := ApplyAll(ts, MarkDeleted(v));
    ParentsMembers(after, p);
    forall i | 0 <= i < |after| ensures !IsChildOf(after[i], p) {
      assert after[i] == ApplyTo(ts[i], MarkDeleted(v));
    }
  }
}
