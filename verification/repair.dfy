/** The read-with-repair path of `get_task`, as functions of the cache's
    task map and the external tool's state. The cache method that performs
    it is proved to agree with `ReadWithRepair`. */
module Repair {
  import opened Base
  import opened Text
  import opened Uuids
  import opened Tasks
  import opened Ancestry
  import opened Store

  /** The cache's task map, the tool's records and the commands issued so far. */
  datatype World = World(tasks: map<Uuid, Task>, records: seq<Task>, log: seq<Command>)

  /** The state after a step, and the step's result. */
  datatype Outcome<T> = Outcome(world: World, result: Result<T>)

  /** The project the tool holds after `project:<v>`: an empty value clears it. */
  function Stored(v: Option<string>): Option<string> {
    if v.GetOr("") == "" then None else v
  }

  /** `update(u)`: the first record the tool exports for `u` replaces the
      cache entry under the key `u`; NoExportRecord when there is none. */
  function Reload(w: World, u: Uuid): (o: Outcome<Task>)
    ensures o.world.records == w.records && o.world.log == w.log
    ensures o.result.Ok? <==> u in UuidsOf(w.records)
    ensures o.result.Err? ==> o.result.error == NoExportRecord && o.world == w
    ensures o.result.Ok? ==> o.result.value == Exported(w.records, u)[0]
    ensures o.result.Ok? ==> o.result.value.uuid == u && o.result.value in w.records
    ensures o.result.Ok? ==> o.world.tasks.Keys == w.tasks.Keys + {u} && o.world.tasks[u] == o.result.value
    ensures forall k :: k in w.tasks && k != u ==> k in o.world.tasks && o.world.tasks[k] == w.tasks[k]
  {
    var ex := Exported(w.records, u);
    if ex == [] then Outcome(w, Err(NoExportRecord))
    else Outcome(w.(tasks := w.tasks[u := ex[0]]), Ok(ex[0]))
  }

  /** Send one modification command to the tool. */
  function Issue(w: World, c: Command): World {
    w.(records := ApplyAll(w.records, c), log := w.log + [c])
  }

  function Discard(o: Outcome<Task>): Outcome<()> {
    Outcome(o.world, if o.result.Ok? then Ok(()) else Err(o.result.error))
  }

  /** `w1` follows `w` by at most one command aimed at `u`, and only the
      entry of `u` may have changed. */
  predicate StepFrame(w: World, w1: World, u: Uuid) {
    w1.tasks.Keys == w.tasks.Keys &&
    (forall k :: k in w.tasks && k != u ==> w1.tasks[k] == w.tasks[k]) &&
    (w1.log == w.log || (|w1.log| == |w.log| + 1 && w1.log[..|w.log|] == w.log && w1.log[|w.log|].target == u))
  }

  /** Two such steps issue at most two commands, all aimed at `u`. */
  lemma FramesCompose(w: World, w1: World, w2: World, u: Uuid)
    requires StepFrame(w, w1, u) && StepFrame(w1, w2, u)
    ensures w2.tasks.Keys == w.tasks.Keys
    ensures forall k :: k in w.tasks && k != u ==> w2.tasks[k] == w.tasks[k]
    ensures |w.log| <= |w2.log| <= |w.log| + 2
    ensures w2.log[..|w.log|] == w.log
    ensures forall i :: |w.log| <= i < |w2.log| ==> w2.log[i].target == u
  {
    if w2.log != w1.log {
      assert w2.log[..|w.log|] == w1.log[..|w.log|];
      forall i | |w.log| <= i < |w2.log| ensures w2.log[i].target == u {
        if i < |w1.log| { assert w2.log[i] == w1.log[i]; }
      }
    }
  }

  /** A successful reload after a command aimed at `u` yields the
      command applied to the record the tool exported first before. */
  lemma ReloadAfter(w: World, c: Command, u: Uuid)
    requires c.target == u
    ensures var o := Reload(Issue(w, c), u);
            (o.result.Err? <==> Exported(w.records, u) == []) &&
            (o.result.Ok? ==> Exported(w.records, u) != [] && o.result.value == Applied(Exported(w.records, u)[0], c))
  {
    ExportedApplyAll(w.records, c, u);
  }

  /** The project-name policy's decision: no command when the cached
      project equals the derived name, otherwise the `project` command that
      sets the derived name (or clears the project for a root). */
  function ProjectFix(tasks: map<Uuid, Task>, u: Uuid): (r: Result<Option<Command>>)
    ensures r.Err? <==> ProjectName(tasks, u).Err?
    ensures r.Err? ==> r.error == ProjectName(tasks, u).error
    ensures r.Ok? ==> u in tasks
    ensures r == Ok(None) <==> u in tasks && ProjectName(tasks, u) == Ok(tasks[u].project)
    ensures r.Ok? && r.value.Some? ==>
              var c := r.value.value;
              c.SetProject? && c.target == u &&
              Applied(tasks[u], c).project == Stored(ProjectName(tasks, u).value)
  {
    match ProjectName(tasks, u)
    case Err(e) => Err(e)
    case Ok(name) => if tasks[u].project == name then Ok(None) else Ok(Some(ProjectCommand(u, name)))
  }

  /** The hierarchy-tag policy's decision for `t`, cached under `u`:
      remove the tag from a task that is no parent, add it to one that is,
      and issue nothing when tag and index agree. */
  function TagFix(u: Uuid, t: Task, isParent: bool): (r: Option<Command>)
    ensures r.None? <==> HasTag(t, ProjectTag) == isParent
    ensures r == Some(RemoveTag(u, ProjectTag)) <==> HasTag(t, ProjectTag) && !isParent
    ensures r == Some(AddTag(u, ProjectTag)) <==> !HasTag(t, ProjectTag) && isParent
    ensures r.Some? ==> HasTag(Applied(t, r.value), ProjectTag) == isParent
  {
    var has := HasTag(t, ProjectTag);
    if has && !isParent then Some(RemoveTag(u, ProjectTag))
    else if !has && isParent then Some(AddTag(u, ProjectTag))
    else None
  }

  /** src/task.rs:118-132, when the project-name policy is enabled. */
  function ProjectStep(w: World, u: Uuid): (o: Outcome<()>)
    ensures StepFrame(w, o.world, u)
    ensures o.result.Ok? ==> u in w.tasks && u in o.world.tasks
    ensures ProjectFix(w.tasks, u) == Ok(None) ==> o == Outcome(w, Ok(()))
    ensures ProjectFix(w.tasks, u).Err? ==> o == Outcome(w, Err(ProjectName(w.tasks, u).error))
    ensures ProjectFix(w.tasks, u).Ok? && ProjectFix(w.tasks, u).value.Some? ==>
              var c := ProjectFix(w.tasks, u).value.value;
              o.world.log == w.log + [c] && o.world.records == ApplyAll(w.records, c) &&
              (o.result.Err? <==> Exported(w.records, u) == []) &&
              (o.result.Err? ==> o.result.error == NoExportRecord && o.world.tasks == w.tasks) &&
              (o.result.Ok? ==> o.world.tasks[u] == Applied(Exported(w.records, u)[0], c) &&
                                o.world.tasks[u].project == Stored(ProjectName(w.tasks, u).value))
    ensures o.world.log == w.log ==> o.world == w
  {
    match ProjectFix(w.tasks, u)
    case Err(e) => Outcome(w, Err(e))
    case Ok(None) => Outcome(w, Ok(()))
    case Ok(Some(c)) =>
      var w' := Issue(w, c);
      var o := Reload(w', u);
      ReloadAfter(w, c, u);
      Discard(o)
  }

  /** src/task.rs:133-151, when the hierarchy-tag policy is enabled. The
      tag is wanted exactly when `u` is a key of the children index. */
  function TagStep(w: World, children: map<Uuid, seq<Uuid>>, u: Uuid): (o: Outcome<()>)
    ensures StepFrame(w, o.world, u)
    ensures u !in w.tasks ==> o == Outcome(w, Err(NotInCache))
    ensures u in w.tasks && HasTag(w.tasks[u], ProjectTag) == (u in children) ==> o == Outcome(w, Ok(()))
    ensures u in w.tasks && HasTag(w.tasks[u], ProjectTag) && u !in children ==>
              o.world.log == w.log + [RemoveTag(u, ProjectTag)]
    ensures u in w.tasks && !HasTag(w.tasks[u], ProjectTag) && u in children ==>
              o.world.log == w.log + [AddTag(u, ProjectTag)]
    ensures o.result.Ok? ==> u in o.world.tasks && HasTag(o.world.tasks[u], ProjectTag) == (u in children)
    ensures u in w.tasks && TagFix(u, w.tasks[u], u in children).Some? ==>
              var c := TagFix(u, w.tasks[u], u in children).value;
              o.world.records == ApplyAll(w.records, c) &&
              (o.result.Err? <==> Exported(w.records, u) == []) &&
              (o.result.Err? ==> o.result.error == NoExportRecord && o.world.tasks == w.tasks) &&
              (o.result.Ok? ==> o.world.tasks[u] == Applied(Exported(w.records, u)[0], c))
    ensures o.world.log == w.log ==> o.world == w
  {
    if u !in w.tasks then Outcome(w, Err(NotInCache))
    else match TagFix(u, w.tasks[u], u in children)
      case None => Outcome(w, Ok(()))
      case Some(c) =>
        var o := Reload(Issue(w, c), u);
        ReloadAfter(w, c, u);
        Discard(o)
  }

  /** `get_task(u)` with the two policies switched by `setProject` and
      `setProjectTag`: the project step, then the tag step, then the lookup;
      the first failure ends the call. */
  function ReadWithRepair(setProject: bool, setProjectTag: bool, w: World,
                          children: map<Uuid, seq<Uuid>>, u: Uuid): (o: Outcome<Task>)
    ensures u !in w.tasks ==> o == Outcome(w, Err(NotInCache))
    ensures o.result.Ok? ==> u in o.world.tasks && o.result.value == o.world.tasks[u]
    ensures o.world.tasks.Keys == w.tasks.Keys
    ensures forall k :: k in w.tasks && k != u ==> o.world.tasks[k] == w.tasks[k]
    ensures |w.log| <= |o.world.log| <= |w.log| + 2
    ensures o.world.log[..|w.log|] == w.log
    ensures forall i :: |w.log| <= i < |o.world.log| ==> o.world.log[i].target == u
    ensures !setProject && !setProjectTag ==>
              o == Outcome(w, if u in w.tasks then Ok(w.tasks[u]) else Err(NotInCache))
    ensures o.result.Ok? && setProjectTag ==> (HasTag(o.result.value, ProjectTag) <==> u in children)
  {
    var s1 := if setProject then ProjectStep(w, u) else Outcome(w, Ok(()));
    if s1.result.Err? then Outcome(s1.world, Err(s1.result.error))
    else
      var s2 := if setProjectTag then TagStep(s1.world, children, u) else Outcome(s1.world, Ok(()));
      FramesCompose(w, s1.world, s2.world, u);
      if s2.result.Err? then Outcome(s2.world, Err(s2.result.error))
      else if u !in s2.world.tasks then Outcome(s2.world, Err(NotInCache))
      else Outcome(s2.world, Ok(s2.world.tasks[u]))
  }

  /** The tool's first record for `u` is the cached one: nothing changed
      the task outside the cache since it was last loaded. */
  predicate Agrees(w: World, u: Uuid) {
    u in w.tasks && Exported(w.records, u) != [] && Exported(w.records, u)[0] == w.tasks[u]
  }

  /** Both enabled policies find nothing to repair for `u`. */
  predicate Settled(setProject: bool, setProjectTag: bool, w: World, children: map<Uuid, seq<Uuid>>, u: Uuid) {
    u in w.tasks &&
    (setProject ==> ProjectFix(w.tasks, u) == Ok(None)) &&
    (setProjectTag ==> TagFix(u, w.tasks[u], u in children).None?)
  }

  /** A settled task is read without any command and without any change. */
  lemma SettledIsQuiet(setProject: bool, setProjectTag: bool, w: World, children: map<Uuid, seq<Uuid>>, u: Uuid)
    requires Settled(setProject, setProjectTag, w, children, u)
    ensures ReadWithRepair(setProject, setProjectTag, w, children, u) == Outcome(w, Ok(w.tasks[u]))
  {
  }

  /** Applying a repair command to the agreeing record and reloading it
      keeps agreement, parents and descriptions. */
  lemma RepairReload(w: World, c: Command, u: Uuid)
    requires Agrees(w, u) && c.target == u
    requires c.SetProject? || c.AddTag? || c.RemoveTag?
    ensures var o := Reload(Issue(w, c), u);
            o.result.Ok? && o.world.tasks == w.tasks[u := Applied(w.tasks[u], c)] &&
            Agrees(o.world, u) && SameLinks(o.world.tasks, w.tasks)
  {
    var w' := Issue(w, c);
    FirstExportedAfter(w.records, c, u);
    var t := Applied(w.tasks[u], c);
    assert Exported(w'.records, u)[0] == t;
    var o := Reload(w', u);
    assert o.world.tasks == w.tasks[u := t];
    SameLinksUpdate(w.tasks, u, t);
  }

  lemma SameLinksUpdate(tasks: map<Uuid, Task>, u: Uuid, t: Task)
    requires u in tasks && t.partof == tasks[u].partof && t.description == tasks[u].description
    ensures SameLinks(tasks[u := t], tasks)
  {
  }

  /** The project step on an agreeing task whose name can be derived, and
      is not empty, succeeds and leaves the project as the policy wants,
      the task agreeing and parents and descriptions as they were. */
  lemma ProjectStepSettles(w: World, u: Uuid)
    requires Agrees(w, u)
    requires ProjectName(w.tasks, u).Ok? && ProjectName(w.tasks, u) != Ok(Some(""))
    ensures var o := ProjectStep(w, u);
            o.result.Ok? && Agrees(o.world, u) && SameLinks(o.world.tasks, w.tasks) &&
            ProjectFix(o.world.tasks, u) == Ok(None)
  {
    match ProjectFix(w.tasks, u)
    case Ok(None) =>
    case Ok(Some(c)) =>
      RepairReload(w, c, u);
      ProjectNameSameLinks(ProjectStep(w, u).world.tasks, w.tasks, u);
  }

  /** The tag step on an agreeing task succeeds and leaves the tag as the
      index wants, the task agreeing, and its project, parents and
      descriptions as they were. */
  lemma TagStepSettles(w: World, children: map<Uuid, seq<Uuid>>, u: Uuid)
    requires Agrees(w, u)
    ensures var o := TagStep(w, children, u);
            o.result.Ok? && Agrees(o.world, u) && SameLinks(o.world.tasks, w.tasks) &&
            o.world.tasks[u].project == w.tasks[u].project &&
            TagFix(u, o.world.tasks[u], u in children).None?
  {
    match TagFix(u, w.tasks[u], u in children)
    case None =>
    case Some(c) =>
      RepairReload(w, c, u);
  }

  /** Reading an agreeing task whose project name can be derived, and is
      not empty, succeeds; afterwards the task is settled and still agrees,
      and its derived project name is what it was before. */
  lemma RepairSettles(setProject: bool, setProjectTag: bool, w: World, children: map<Uuid, seq<Uuid>>, u: Uuid)
    requires Agrees(w, u)
    requires setProject ==> ProjectName(w.tasks, u).Ok? && ProjectName(w.tasks, u) != Ok(Some(""))
    ensures var o := ReadWithRepair(setProject, setProjectTag, w, children, u);
            o.result.Ok? && Agrees(o.world, u) && Settled(setProject, setProjectTag, o.world, children, u) &&
            ProjectName(o.world.tasks, u) == ProjectName(w.tasks, u)
  {
    var s1 := if setProject then ProjectStep(w, u) else Outcome(w, Ok(()));
    if setProject {
      ProjectStepSettles(w, u);
    }
    var s2 := if setProjectTag then TagStep(s1.world, children, u) else Outcome(s1.world, Ok(()));
    if setProjectTag {
      TagStepSettles(s1.world, children, u);
      ProjectNameSameLinks(s2.world.tasks, s1.world.tasks, u);
    }
    ProjectNameSameLinks(s1.world.tasks, w.tasks, u);
    assert setProject ==> ProjectFix(s2.world.tasks, u) == Ok(None);
  }

  /** Reading the same task twice, with the tool unchanged in between:
      the second read issues no command and returns what the first
      returned. A read that fails, because the project name cannot be
      derived, changes nothing and fails again the same way. */
  lemma RepairIdempotent(setProject: bool, setProjectTag: bool, w: World, children: map<Uuid, seq<Uuid>>, u: Uuid)
    requires Agrees(w, u)
    requires setProject ==> ProjectName(w.tasks, u) != Ok(Some(""))
    ensures var first := ReadWithRepair(setProject, setProjectTag, w, children, u);
            ReadWithRepair(setProject, setProjectTag, first.world, children, u) == first
  {
    if setProject && ProjectName(w.tasks, u).Err? {
      assert ReadWithRepair(setProject, setProjectTag, w, children, u) == Outcome(w, Err(ProjectName(w.tasks, u).error));
    } else {
      RepairSettles(setProject, setProjectTag, w, children, u);
      var first := ReadWithRepair(setProject, setProjectTag, w, children, u);
      SettledIsQuiet(setProject, setProjectTag, first.world, children, u);
    }
  }

  /** With only the tag feature, a read that succeeded is repeated
      exactly: the second read issues nothing and returns the same task. */
  lemma TagOnlyIdempotent(w: World, children: map<Uuid, seq<Uuid>>, u: Uuid)
    requires ReadWithRepair(false, true, w, children, u).result.Ok?
    ensures var first := ReadWithRepair(false, true, w, children, u);
            ReadWithRepair(false, true, first.world, children, u) == first
  {
  }

  /** After a successful read with the tag feature, a second read with the
      same index issues no tag command, whether or not the cache agreed
      with the tool before: any command it issues is a `project:`. */
  lemma SecondReadNoTagFix(setProject: bool, w: World, children: map<Uuid, seq<Uuid>>, u: Uuid)
    requires ReadWithRepair(setProject, true, w, children, u).result.Ok?
    ensures var w1 := ReadWithRepair(setProject, true, w, children, u).world;
            var w2 := ReadWithRepair(setProject, true, w1, children, u).world;
            forall i :: |w1.log| <= i < |w2.log| ==> w2.log[i].SetProject?
  {
    var first := ReadWithRepair(setProject, true, w, children, u);
    if first.world != w {
      FirstReadAgrees(setProject, w, children, u);
      SecondReadAgreeing(setProject, first.world, children, u);
    }
  }

  /** A successful read that changed anything ended with a reload, so the
      cache then agrees with the tool on `u`. */
  lemma FirstReadAgrees(setProject: bool, w: World, children: map<Uuid, seq<Uuid>>, u: Uuid)
    requires ReadWithRepair(setProject, true, w, children, u).result.Ok?
    requires ReadWithRepair(setProject, true, w, children, u).world != w
    ensures Agrees(ReadWithRepair(setProject, true, w, children, u).world, u)
  {
    var s1 := if setProject then ProjectStep(w, u) else Outcome(w, Ok(()));
    var s2 := TagStep(s1.world, children, u);
    if s2.world.log == s1.world.log {
      assert setProject && s1.world.log != w.log;
      ProjectReloadAgrees(w, u);
    } else {
      TagReloadAgrees(s1.world, children, u);
    }
  }

  /** A project step that issued a command and succeeded ended with a
      reload. */
  lemma ProjectReloadAgrees(w: World, u: Uuid)
    requires ProjectStep(w, u).result.Ok? && ProjectStep(w, u).world.log != w.log
    ensures Agrees(ProjectStep(w, u).world, u)
  {
    FirstExportedAfter(w.records, ProjectFix(w.tasks, u).value.value, u);
  }

  /** A tag step that issued a command and succeeded ended with a reload. */
  lemma TagReloadAgrees(w: World, children: map<Uuid, seq<Uuid>>, u: Uuid)
    requires TagStep(w, children, u).result.Ok? && TagStep(w, children, u).world.log != w.log
    ensures Agrees(TagStep(w, children, u).world, u)
  {
    FirstExportedAfter(w.records, TagFix(u, w.tasks[u], u in children).value, u);
  }

  /** Reading a task that agrees with the tool and already carries the tag
      the index wants issues at most a `project:`. */
  lemma SecondReadAgreeing(setProject: bool, w: World, children: map<Uuid, seq<Uuid>>, u: Uuid)
    requires Agrees(w, u) && HasTag(w.tasks[u], ProjectTag) == (u in children)
    ensures var w2 := ReadWithRepair(setProject, true, w, children, u).world;
            forall i :: |w.log| <= i < |w2.log| ==> w2.log[i].SetProject?
  {
    if setProject {
      ProjectStepKeepsTag(w, u);
    }
  }

  /** On an agreeing task the project step issues at most a `project:`,
      and a successful one keeps the task's tags. */
  lemma ProjectStepKeepsTag(w: World, u: Uuid)
    requires Agrees(w, u)
    ensures var o := ProjectStep(w, u);
            (forall i :: |w.log| <= i < |o.world.log| ==> o.world.log[i].SetProject?) &&
            (o.result.Ok? ==> HasTag(o.world.tasks[u], ProjectTag) == HasTag(w.tasks[u], ProjectTag))
  {
    if ProjectFix(w.tasks, u).Ok? && ProjectFix(w.tasks, u).value.Some? {
      var c := ProjectFix(w.tasks, u).value.value;
      var o := ProjectStep(w, u);
      assert o.world.log == w.log + [c];
      assert o.result.Ok? ==> o.world.tasks[u] == Applied(w.tasks[u], c);
    }
  }

  /** A derived name that is empty, as for a parent whose description is
      all whitespace, cannot be stored: `project:` with an empty value
      clears the project, so every read issues the command again. */
  lemma EmptyNameNeverSettles(w: World, children: map<Uuid, seq<Uuid>>, u: Uuid)
    requires Agrees(w, u)
    requires ProjectName(w.tasks, u) == Ok(Some("")) && w.tasks[u].project != Some("")
    ensures var w1 := ReadWithRepair(true, false, w, children, u).world;
            w1.log == w.log + [SetProject(u, "")] &&
            ReadWithRepair(true, false, w1, children, u).world.log == w1.log + [SetProject(u, "")]
  {
    var c := SetProject(u, "");
    assert ProjectFix(w.tasks, u) == Ok(Some(c));
    RepairReload(w, c, u);
    var w1 := ReadWithRepair(true, false, w, children, u).world;
    ProjectNameSameLinks(w1.tasks, w.tasks, u);
    assert ProjectFix(w1.tasks, u) == Ok(Some(c));
  }

  /** With only the project feature, a read leaves the world its project
      step leaves. */
  lemma ProjectOnlyRead(w: World, children: map<Uuid, seq<Uuid>>, u: Uuid)
    ensures ReadWithRepair(true, false, w, children, u).world == ProjectStep(w, u).world
  {
  }

  /** A stale cache need not settle. The cached `u` is a root with a
      project, but the tool's record of `u` has meanwhile been put under
      the cached root `p`. The first read clears the project and reloads
      `u`, which brings in the new parent; the second read then derives a
      name from `p` and issues another `project:`. */
  lemma StaleParentRepairsAgain(w: World, children: map<Uuid, seq<Uuid>>, u: Uuid, p: Uuid)
    requires u in w.tasks && w.tasks[u].partof.None? && w.tasks[u].project.Some?
    requires p in w.tasks && p != u && w.tasks[p].partof.None?
    requires Exported(w.records, u) != [] && Exported(w.records, u)[0].partof == Some(p)
    ensures var w1 := ReadWithRepair(true, false, w, children, u).world;
            w1.log == w.log + [SetProject(u, "")] &&
            ReadWithRepair(true, false, w1, children, u).world.log ==
              w1.log + [SetProject(u, Normalize(w.tasks[p].description))]
  {
    var c := SetProject(u, "");
    assert ProjectFix(w.tasks, u) == Ok(Some(c));
    ProjectOnlyRead(w, children, u);
    var w1 := ProjectStep(w, u).world;
    StaleReload(w, c, u, p);
    ProjectOnlyRead(w1, children, u);
    RootParentName(w1.tasks, u, p);
  }

  /** Clearing the project of `u` and reloading it brings in the tool's
      parent of `u`; other entries stay. */
  lemma StaleReload(w: World, c: Command, u: Uuid, p: Uuid)
    requires c == SetProject(u, "") && ProjectFix(w.tasks, u) == Ok(Some(c))
    requires Exported(w.records, u) != [] && Exported(w.records, u)[0].partof == Some(p)
    ensures var w1 := ProjectStep(w, u).world;
            w1.log == w.log + [c] && w1.tasks == w.tasks[u := w1.tasks[u]] &&
            w1.tasks[u].partof == Some(p) && w1.tasks[u].project.None?
  {
    FirstExportedAfter(w.records, c, u);
    var o := Reload(Issue(w, c), u);
    assert ProjectStep(w, u).world == o.world;
  }

  /** The name of a task whose cached parent is a root is that parent's
      normalised description. */
  lemma RootParentName(tasks: map<Uuid, Task>, u: Uuid, p: Uuid)
    requires u in tasks && tasks[u].partof == Some(p) && p in tasks && p != u && tasks[p].partof.None?
    ensures ProjectName(tasks, u) == Ok(Some(Normalize(tasks[p].description)))
  {
    AncestorsUnfold(tasks, u);
    AncestorsUnfold(tasks, p);
    var d := tasks[p].description;
    assert [] + [d] == [d];
    assert AncestorDescriptions(tasks, u) == Ok([d]);
  }
}
