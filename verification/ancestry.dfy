/** The ancestor walk of `get_project_name`: from a cached task up its
    `partof` links to the root, collecting the ancestors' descriptions. */
module Ancestry {
  import opened Base
  import opened Text
  import opened Uuids
  import opened Tasks

  /** `r` with `suffix` appended to its list, errors passed through. */
  function Extend(r: Result<seq<string>>, suffix: seq<string>): Result<seq<string>> {
    match r
    case Err(e) => Err(e)
    case Ok(ds) => Ok(ds + suffix)
  }

  lemma ExtendTwice(r: Result<seq<string>>, a: seq<string>, b: seq<string>)
    ensures Extend(Extend(r, a), b) == Extend(r, a + b)
    ensures Extend(r, []) == r
  {
    if r.Ok? {
      assert r.value + a + b == r.value + (a + b);
      assert r.value + [] == r.value;
    }
  }

  /** The descriptions of the ancestors of `t`, root-most first. A parent
      missing from the map is NotInCache; entering a task outside
      `unvisited`, one the walk has already passed, is CyclicParents: from
      there the source's loop would repeat forever. */
  function Climb(tasks: map<Uuid, Task>, t: Task, unvisited: set<Uuid>): (r: Result<seq<string>>)
    ensures r == Ok([]) <==> t.partof.None?
    ensures r.Ok? ==> |r.value| <= |unvisited|
    decreases unvisited
  {
    match t.partof
    case None => Ok([])
    case Some(p) =>
      if p !in tasks then Err(NotInCache)
      else if p !in unvisited then Err(CyclicParents)
      else Extend(Climb(tasks, tasks[p], unvisited - {p}), [tasks[p].description])
  }

  /** The ancestors of the cached task `u`, root-most first. */
  function AncestorDescriptions(tasks: map<Uuid, Task>, u: Uuid): (r: Result<seq<string>>)
    ensures u !in tasks ==> r == Err(NotInCache)
    ensures u in tasks ==> (r == Ok([]) <==> tasks[u].partof.None?)
    ensures r.Ok? ==> |r.value| < |tasks|
  {
    if u !in tasks then Err(NotInCache) else Climb(tasks, tasks[u], tasks.Keys - {u})
  }

  /** The project name `get_project_name` derives: the ancestors' descriptions
      joined by ".", lower-cased and without whitespace; None for a root. */
  function ProjectName(tasks: map<Uuid, Task>, u: Uuid): (r: Result<Option<string>>)
    ensures u !in tasks ==> r == Err(NotInCache)
    ensures r == Ok(None) <==> u in tasks && tasks[u].partof.None?
    ensures r.Ok? && r.value.Some? ==> NoWhitespace(r.value.value) && NoUpper(r.value.value)
  {
    match AncestorDescriptions(tasks, u)
    case Err(e) => Err(e)
    case Ok(ds) => if |ds| > 0 then Ok(Some(Normalize(Join(ds, ".")))) else Ok(None)
  }

  /** A walk that does not come back on itself is unaffected by allowing it
      to enter more tasks. */
  lemma {:induction false} ClimbMonotone(tasks: map<Uuid, Task>, t: Task, small: set<Uuid>, large: set<Uuid>)
    requires small <= large
    ensures Climb(tasks, t, small) != Err(CyclicParents) ==> Climb(tasks, t, large) == Climb(tasks, t, small)
    decreases small
  {
    if t.partof.Some? {
      var p := t.partof.value;
      if p in tasks && p in small {
        ClimbMonotone(tasks, tasks[p], small - {p}, large - {p});
      }
    }
  }

  /** A walk that does not come back on itself never passes through a child
      `u` of a task `p` it may not enter, so forbidding `u` changes nothing. */
  lemma {:induction false} ClimbAvoidsChild(tasks: map<Uuid, Task>, t: Task, unvisited: set<Uuid>, u: Uuid, p: Uuid)
    requires u in tasks && tasks[u].partof == Some(p) && p in tasks && p !in unvisited
    requires Climb(tasks, t, unvisited) != Err(CyclicParents)
    ensures Climb(tasks, t, unvisited - {u}) == Climb(tasks, t, unvisited)
    decreases unvisited
  {
    if t.partof.Some? {
      var q := t.partof.value;
      if q in tasks && q in unvisited {
        assert q != u;
        ClimbAvoidsChild(tasks, tasks[q], unvisited - {q}, u, p);
        assert unvisited - {u} - {q} == unvisited - {q} - {u};
      }
    }
  }

  /** The walk from a task is the walk from its parent followed by the
      parent's own description: the recursive reading of the loop of
      src/task.rs:170-173. */
  lemma AncestorsUnfold(tasks: map<Uuid, Task>, u: Uuid)
    requires u in tasks
    ensures tasks[u].partof.None? ==> AncestorDescriptions(tasks, u) == Ok([])
    ensures tasks[u].partof.Some? && tasks[u].partof.value !in tasks ==>
              AncestorDescriptions(tasks, u) == Err(NotInCache)
    ensures tasks[u].partof == Some(u) ==> AncestorDescriptions(tasks, u) == Err(CyclicParents)
    ensures tasks[u].partof.Some? && tasks[u].partof.value in tasks && tasks[u].partof.value != u ==>
              var p := tasks[u].partof.value;
              AncestorDescriptions(tasks, u) == Extend(AncestorDescriptions(tasks, p), [tasks[p].description])
  {
    if tasks[u].partof.Some? {
      var p := tasks[u].partof.value;
      if p in tasks && p != u {
        var keys := tasks.Keys;
        var large := keys - {p};
        var small := keys - {u} - {p};
        assert small == large - {u};
        if Climb(tasks, tasks[p], large) != Err(CyclicParents) {
          ClimbAvoidsChild(tasks, tasks[p], large, u, p);
        } else {
          ClimbMonotone(tasks, tasks[p], small, large);
        }
      }
    }
  }

  /** Two task maps with the same keys, parents and descriptions. */
  predicate SameLinks(a: map<Uuid, Task>, b: map<Uuid, Task>) {
    a.Keys == b.Keys &&
    forall k :: k in a ==> a[k].partof == b[k].partof && a[k].description == b[k].description
  }

  lemma {:induction false} ClimbSameLinks(a: map<Uuid, Task>, b: map<Uuid, Task>, ta: Task, tb: Task, unvisited: set<Uuid>)
    requires SameLinks(a, b) && ta.partof == tb.partof
    ensures Climb(a, ta, unvisited) == Climb(b, tb, unvisited)
    decreases unvisited
  {
    if ta.partof.Some? {
      var p := ta.partof.value;
      if p in a && p in unvisited {
        ClimbSameLinks(a, b, a[p], b[p], unvisited - {p});
      }
    }
  }

  /** The project name reads only parents and descriptions: changing a
      task's project or tags, which is what the repairs do, leaves every
      derived name as it was. */
  lemma ProjectNameSameLinks(a: map<Uuid, Task>, b: map<Uuid, Task>, u: Uuid)
    requires SameLinks(a, b)
    ensures ProjectName(a, u) == ProjectName(b, u)
  {
    if u in a {
      ClimbSameLinks(a, b, a[u], b[u], a.Keys - {u});
    }
  }

  /** A three-level chain: the grandchild's project name is made of its
      grandparent's and its parent's descriptions, not its own. */
  lemma ThreeLevelName(tasks: map<Uuid, Task>, a: Uuid, b: Uuid, c: Uuid)
    requires a in tasks && b in tasks && c in tasks
    requires a != b && b != c && a != c
    requires tasks[a].partof == None && tasks[a].description == "Foo"
    requires tasks[b].partof == Some(a) && tasks[b].description == "Bar"
    requires tasks[c].partof == Some(b) && tasks[c].description == "Baz"
    ensures ProjectName(tasks, c) == Ok(Some("foo.bar"))
    ensures ProjectName(tasks, b) == Ok(Some("foo"))
    ensures ProjectName(tasks, a) == Ok(None)
  {
    AncestorsUnfold(tasks, a);
    AncestorsUnfold(tasks, b);
    AncestorsUnfold(tasks, c);
    assert AncestorDescriptions(tasks, a) == Ok([]);
    assert AncestorDescriptions(tasks, b) == Ok([] + ["Foo"]);
    assert [] + ["Foo"] == ["Foo"] && ["Foo"] + ["Bar"] == ["Foo", "Bar"];
    assert AncestorDescriptions(tasks, c) == Ok(["Foo", "Bar"]);
    FooBarNormalized();
  }

  lemma FooBarNormalized()
    ensures Normalize(Join(["Foo"], ".")) == "foo"
    ensures Normalize(Join(["Foo", "Bar"], ".")) == "foo.bar"
  {
    WordNormalized("Foo", "foo");
    WordNormalized("Bar", "bar");
    assert NormalizeAll(["Foo", "Bar"]) == ["foo", "bar"];
    assert Join(["foo", "bar"], ".") == "foo.bar";
    NormalizeJoin(["Foo", "Bar"]);
  }

  lemma WordNormalized(w: string, l: string)
    requires |w| == 3 && |l| == 3 && LowerChar(w[0]) == l[0] && w[1..] == l[1..]
    requires !IsUpper(w[1]) && !IsUpper(w[2]) && NoWhitespace(l)
    ensures Normalize(w) == l
  {
    assert Lower(w) == l;
  }
}
