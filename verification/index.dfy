/** What `refresh` derives from a full export: the parent-to-children index
    and the updated task map. */
module Index {
  import opened Base
  import opened Uuids
  import opened Tasks

  /** The uuids of the active children of `p` in `ts`, in export order. */
  function ChildrenOf(ts: seq<Task>, p: Uuid): (r: seq<Uuid>)
    ensures |r| <= |ts|
    decreases |ts|
  {
    if ts == [] then []
    else
      var last := ts[|ts| - 1];
      ChildrenOf(ts[..|ts| - 1], p) + (if IsChildOf(last, p) then [last.uuid] else [])
  }

  /** The tasks that have at least one active child in `ts`. */
  function Parents(ts: seq<Task>): set<Uuid> {
    set i | 0 <= i < |ts| && ts[i].partof.Some? && IsActive(ts[i].status) :: ts[i].partof.value
  }

  /** The index `refresh` builds: each parent with its active children. */
  function ChildIndex(ts: seq<Task>): (r: map<Uuid, seq<Uuid>>)
    ensures r.Keys == Parents(ts)
    ensures forall p :: p in r ==> |r[p]| <= |ts|
  {
    map p | p in Parents(ts) :: ChildrenOf(ts, p)
  }

  lemma {:induction false} ChildrenOfMembers(ts: seq<Task>, p: Uuid, v: Uuid)
    ensures v in ChildrenOf(ts, p) <==> exists i :: 0 <= i < |ts| && IsChildOf(ts[i], p) && ts[i].uuid == v
    decreases |ts|
  {
    if ts != [] {
      var n := |ts| - 1;
      var front := ts[..n];
      ChildrenOfMembers(front, p, v);
      var last := if IsChildOf(ts[n], p) then [ts[n].uuid] else [];
      assert ChildrenOf(ts, p) == ChildrenOf(front, p) + last;
      assert v in ChildrenOf(ts, p) <==> v in ChildrenOf(front, p) || v in last;
      assert forall i :: 0 <= i < n ==> front[i] == ts[i];
      if v in ChildrenOf(front, p) {
        var i :| 0 <= i < |front| && IsChildOf(front[i], p) && front[i].uuid == v;
        assert IsChildOf(ts[i], p) && ts[i].uuid == v;
      } else if v in last {
        assert IsChildOf(ts[n], p) && ts[n].uuid == v;
      } else {
        forall i | 0 <= i < |ts| ensures !(IsChildOf(ts[i], p) && ts[i].uuid == v) {
          if i < n {
            assert !(IsChildOf(front[i], p) && front[i].uuid == v);
          }
        }
      }
    }
  }

  lemma ParentsMembers(ts: seq<Task>, p: Uuid)
    ensures p in Parents(ts) <==> exists i :: 0 <= i < |ts| && IsChildOf(ts[i], p)
  {
    if exists i :: 0 <= i < |ts| && IsChildOf(ts[i], p) {
      var i :| 0 <= i < |ts| && IsChildOf(ts[i], p);
      assert ts[i].partof.value == p;
    }
  }

  /** After `refresh`, the index has a key exactly for each task that is the
      parent of an active exported task; its list holds exactly the uuids of
      those children, so it is never empty, and a task exported only as
      completed or deleted is in no list. */
  lemma ChildIndexCharacterized(ts: seq<Task>, p: Uuid, v: Uuid)
    ensures p in ChildIndex(ts) <==> exists i :: 0 <= i < |ts| && IsChildOf(ts[i], p)
    ensures p in ChildIndex(ts) ==> ChildIndex(ts)[p] != []
    ensures p in ChildIndex(ts) ==>
              (v in ChildIndex(ts)[p] <==> exists i :: 0 <= i < |ts| && IsChildOf(ts[i], p) && ts[i].uuid == v)
    ensures (forall i :: 0 <= i < |ts| && ts[i].uuid == v ==> !IsActive(ts[i].status)) ==>
              forall q :: q in ChildIndex(ts) ==> v !in ChildIndex(ts)[q]
  {
    ParentsMembers(ts, p);
    ChildrenOfMembers(ts, p, v);
    if p in ChildIndex(ts) {
      var i :| 0 <= i < |ts| && IsChildOf(ts[i], p);
      ChildrenOfMembers(ts, p, ts[i].uuid);
    }
    forall q | q in ChildIndex(ts) && v in ChildIndex(ts)[q]
      ensures exists i :: 0 <= i < |ts| && ts[i].uuid == v && IsActive(ts[i].status)
    {
      ChildrenOfMembers(ts, q, v);
    }
  }

  /** No uuid is exported twice. */
  predicate UniqueUuids(ts: seq<Task>) {
    forall i, j :: 0 <= i < j < |ts| ==> ts[i].uuid != ts[j].uuid
  }

  predicate NoDuplicates(s: seq<Uuid>) {
    forall i, j :: 0 <= i < j < |s| ==> s[i] != s[j]
  }

  /** When the export has no duplicate uuids, each active child appears in
      its parent's list exactly once. */
  lemma {:induction false} ChildrenOfDistinct(ts: seq<Task>, p: Uuid)
    requires UniqueUuids(ts)
    ensures NoDuplicates(ChildrenOf(ts, p))
    decreases |ts|
  {
    if ts != [] {
      var n := |ts| - 1;
      var front := ts[..n];
      assert UniqueUuids(front) by {
        forall i, j | 0 <= i < j < |front| ensures front[i].uuid != front[j].uuid {
          assert front[i] == ts[i] && front[j] == ts[j];
        }
      }
      ChildrenOfDistinct(front, p);
      if IsChildOf(ts[n], p) {
        ChildrenOfMembers(front, p, ts[n].uuid);
        forall i | 0 <= i < |front| ensures front[i].uuid != ts[n].uuid {
          assert front[i] == ts[i];
        }
        assert ts[n].uuid !in ChildrenOf(front, p);
      }
    }
  }

  /** Appending one exported task changes at most its parent's list. */
  lemma ChildIndexSnoc(ts: seq<Task>, t: Task)
    ensures ChildIndex(ts + [t]) ==
      if t.partof.Some? && IsActive(t.status) then
        var p := t.partof.value;
        ChildIndex(ts)[p := (if p in ChildIndex(ts) then ChildIndex(ts)[p] else []) + [t.uuid]]
      else ChildIndex(ts)
  {
    var ts' := ts + [t];
    assert ts'[..|ts|] == ts;
    forall q ensures ChildrenOf(ts', q) == ChildrenOf(ts, q) + (if IsChildOf(t, q) then [t.uuid] else []) { }
    forall q ensures q in Parents(ts') <==> q in Parents(ts) || IsChildOf(t, q) {
      ParentsMembers(ts', q);
      ParentsMembers(ts, q);
      if exists i :: 0 <= i < |ts| && IsChildOf(ts[i], q) {
        var i :| 0 <= i < |ts| && IsChildOf(ts[i], q);
        assert ts'[i] == ts[i];
      }
      if IsChildOf(t, q) {
        assert ts'[|ts|] == t;
      }
    }
    forall q | q !in Parents(ts) ensures ChildrenOf(ts, q) == [] {
      ParentsMembers(ts, q);
      if ChildrenOf(ts, q) != [] {
        ChildrenOfMembers(ts, q, ChildrenOf(ts, q)[0]);
      }
    }
    var expected :=
      if t.partof.Some? && IsActive(t.status) then
        var p := t.partof.value;
        ChildIndex(ts)[p := (if p in ChildIndex(ts) then ChildIndex(ts)[p] else []) + [t.uuid]]
      else ChildIndex(ts);
    assert ChildIndex(ts').Keys == expected.Keys;
    forall q | q in expected ensures ChildIndex(ts')[q] == expected[q] { }
  }

  /** The last record in `ts` whose uuid is `u`. */
  function LastWith(ts: seq<Task>, u: Uuid): (r: Task)
    requires u in UuidsOf(ts)
    ensures r.uuid == u
    ensures exists i :: 0 <= i < |ts| && ts[i] == r && forall j :: i < j < |ts| ==> ts[j].uuid != u
    decreases |ts|
  {
    var n := |ts| - 1;
    if ts[n].uuid == u then ts[n]
    else
      var front := ts[..n];
      assert u in UuidsOf(front) by {
        var t :| t in ts && t.uuid == u;
        var k :| 0 <= k < |ts| && ts[k] == t;
        assert front[k] == t;
      }
      var r := LastWith(front, u);
      assert exists i :: 0 <= i < |ts| && ts[i] == r && forall j :: i < j < |ts| ==> ts[j].uuid != u by {
        var i :| 0 <= i < |front| && front[i] == r && forall j :: i < j < |front| ==> front[j].uuid != u;
        assert ts[i] == r;
        assert forall j :: i < j < |ts| ==> ts[j].uuid != u by {
          forall j | i < j < |ts| ensures ts[j].uuid != u {
            if j < n { assert ts[j] == front[j]; }
          }
        }
      }
      r
  }

  /** The task map after loading `ts` over `m`: each exported task under its
      own uuid, the last of duplicates winning, and every other entry of `m`
      kept, since `refresh` never clears the task map. */
  function Loaded(m: map<Uuid, Task>, ts: seq<Task>): (r: map<Uuid, Task>)
    ensures r.Keys == m.Keys + UuidsOf(ts)
    ensures forall u :: u in m && u !in UuidsOf(ts) ==> r[u] == m[u]
    ensures forall u :: u in UuidsOf(ts) ==> r[u] in ts && r[u].uuid == u
    ensures forall i :: 0 <= i < |ts| && (forall j :: i < j < |ts| ==> ts[j].uuid != ts[i].uuid) ==>
              r[ts[i].uuid] == ts[i]
  {
    var r := map u | u in m.Keys + UuidsOf(ts) :: if u in UuidsOf(ts) then LastWith(ts, u) else m[u];
    assert r.Keys == m.Keys + UuidsOf(ts);
    assert forall u :: u in UuidsOf(ts) ==> r[u] == LastWith(ts, u);
    assert forall i :: 0 <= i < |ts| && (forall j :: i < j < |ts| ==> ts[j].uuid != ts[i].uuid) ==>
              r[ts[i].uuid] == ts[i] by {
      forall i | 0 <= i < |ts| && (forall j :: i < j < |ts| ==> ts[j].uuid != ts[i].uuid)
        ensures r[ts[i].uuid] == ts[i]
      {
        LastWithIsLast(ts, i);
      }
    }
    r
  }

  /** A record with no later record of its uuid is the last one. */
  lemma {:induction false} LastWithIsLast(ts: seq<Task>, i: nat)
    requires i < |ts| && forall j :: i < j < |ts| ==> ts[j].uuid != ts[i].uuid
    ensures ts[i].uuid in UuidsOf(ts) && LastWith(ts, ts[i].uuid) == ts[i]
    decreases |ts|
  {
    var n := |ts| - 1;
    assert ts[i] in ts;
    if i < n {
      var front := ts[..n];
      assert front[i] == ts[i];
      forall j | i < j < |front| ensures front[j].uuid != front[i].uuid {
        assert front[j] == ts[j];
      }
      LastWithIsLast(front, i);
    }
  }

  lemma UuidsOfSnoc(ts: seq<Task>, t: Task)
    ensures UuidsOf(ts + [t]) == UuidsOf(ts) + {t.uuid}
  {
    var ts' := ts + [t];
    forall x | x in ts' ensures x in ts || x == t { }
  }

  lemma LastWithSnoc(ts: seq<Task>, t: Task, u: Uuid)
    requires u in UuidsOf(ts) && u != t.uuid
    ensures u in UuidsOf(ts + [t]) && LastWith(ts + [t], u) == LastWith(ts, u)
  {
    UuidsOfSnoc(ts, t);
    assert (ts + [t])[..|ts|] == ts;
  }

  lemma LoadedAt(m: map<Uuid, Task>, ts: seq<Task>, u: Uuid)
    requires u in m || u in UuidsOf(ts)
    ensures u in Loaded(m, ts)
    ensures Loaded(m, ts)[u] == if u in UuidsOf(ts) then LastWith(ts, u) else m[u]
  {
  }

  /** Loading one more task overwrites its own entry only. */
  lemma LoadedSnoc(m: map<Uuid, Task>, ts: seq<Task>, t: Task)
    ensures Loaded(m, ts + [t]) == Loaded(m, ts)[t.uuid := t]
  {
    var ts' := ts + [t];
    UuidsOfSnoc(ts, t);
    var a, b := Loaded(m, ts'), Loaded(m, ts)[t.uuid := t];
    assert a.Keys == b.Keys;
    forall u | u in a ensures a[u] == b[u] {
      LoadedAt(m, ts', u);
      if u != t.uuid {
        LoadedAt(m, ts, u);
        if u in UuidsOf(ts) {
          LastWithSnoc(ts, t, u);
        }
      } else {
        assert ts'[|ts|] == t;
      }
    }
  }
}
