/** The parent and child maps of `renderTree` and the lineage walk behind
    the hover highlight (`getLineageIds`). */
module Lineage {
  import opened Records

  /** `n` copies of `p`. */
  function Repeat(p: Id, n: nat): (r: seq<Id>)
    ensures |r| == n && forall x :: x in r ==> x == p
  {
    if n == 0 then [] else [p] + Repeat(p, n - 1)
  }

  /** How often `c` occurs in a child list. */
  function Occ(cs: seq<Id>, c: Id): (n: nat)
    ensures n > 0 <==> c in cs
  {
    if cs == [] then 0 else (if cs[0] == c then 1 else 0) + Occ(cs[1..], c)
  }

  /** `parentsMap.get(c)` once the records of `data` are processed: each
      record's id once per occurrence of `c` in its child list, records in
      data order. */
  function ParentsOf(data: seq<Person>, c: Id): seq<Id>
  {
    if data == [] then []
    else
      var last := data[|data| - 1];
      ParentsOf(data[..|data| - 1], c) + Repeat(last.id, Occ(last.children, c))
  }

  /** The same list, built front to back: an independent reading of
      "parents in data order". */
  function ParentsInOrder(data: seq<Person>, c: Id): seq<Id>
  {
    if data == [] then [] else Repeat(data[0].id, Occ(data[0].children, c)) + ParentsInOrder(data[1..], c)
  }

  /** The parents of `c` in two runs of records are those of the first run
      followed by those of the second. */
  lemma {:induction false} ParentsOfAppend(a: seq<Person>, b: seq<Person>, c: Id)
    ensures ParentsOf(a + b, c) == ParentsOf(a, c) + ParentsOf(b, c)
    decreases |b|
  {
    if b != [] {
      var b' := b[..|b| - 1];
      assert (a + b)[..|a + b| - 1] == a + b';
      ParentsOfAppend(a, b', c);
    } else {
      assert a + b == a;
    }
  }

  lemma {:induction false} ParentsOfInOrder(data: seq<Person>, c: Id)
    ensures ParentsOf(data, c) == ParentsInOrder(data, c)
    decreases |data|
  {
    if data != [] {
      assert data == [data[0]] + data[1..];
      ParentsOfAppend([data[0]], data[1..], c);
      ParentsOfInOrder(data[1..], c);
      assert ParentsOf([data[0]], c) == Repeat(data[0].id, Occ(data[0].children, c)) by {
        assert [data[0]][..0] == [];
      }
    }
  }

  /** `p` is listed as a parent of `c` exactly when some record with id `p`
      lists `c` as a child. */
  lemma ParentsOfMembership(data: seq<Person>, c: Id, p: Id)
    ensures p in ParentsOf(data, c) <==> exists i :: 0 <= i < |data| && data[i].id == p && c in data[i].children
  {
    if p in ParentsOf(data, c) {
      ParentsOfSound(data, c, p);
    }
    if exists i :: 0 <= i < |data| && data[i].id == p && c in data[i].children {
      var i :| 0 <= i < |data| && data[i].id == p && c in data[i].children;
      ParentsOfComplete(data, c, i);
    }
  }

  /** Only records that list `c` contribute to its parents. */
  lemma {:induction false} ParentsOfSound(data: seq<Person>, c: Id, p: Id)
    requires p in ParentsOf(data, c)
    ensures exists i :: 0 <= i < |data| && data[i].id == p && c in data[i].children
    decreases |data|
  {
    var front := data[..|data| - 1];
    var last := data[|data| - 1];
    if p in ParentsOf(front, c) {
      ParentsOfSound(front, c, p);
      var i :| 0 <= i < |front| && front[i].id == p && c in front[i].children;
      assert data[i] == front[i];
    } else {
      assert p in Repeat(last.id, Occ(last.children, c));
      assert data[|data| - 1] == last;
    }
  }

  /** Every record that lists `c` contributes its id. */
  lemma {:induction false} ParentsOfComplete(data: seq<Person>, c: Id, i: nat)
    requires i < |data| && c in data[i].children
    ensures data[i].id in ParentsOf(data, c)
    decreases |data|
  {
    var front := data[..|data| - 1];
    var last := data[|data| - 1];
    if i < |front| {
      assert front[i] == data[i];
      ParentsOfComplete(front, c, i);
    } else {
      assert Repeat(last.id, Occ(last.children, c)) != [];
    }
  }

  /** `childrenMap` once the records of `data` are processed (line 95). */
  function ChildrenMapOf(data: seq<Person>): map<Id, seq<Id>>
    decreases |data|
  {
    if data == [] then map[]
    else
      var last := data[|data| - 1];
      ChildrenMapOf(data[..|data| - 1])[last.id := last.children]
  }

  /** The keys of `childrenMap` are exactly the record ids. */
  lemma {:induction false} ChildrenMapKeys(data: seq<Person>, k: Id)
    ensures k in ChildrenMapOf(data) <==> exists i :: 0 <= i < |data| && data[i].id == k
    decreases |data|
  {
    if data != [] {
      var front := data[..|data| - 1];
      ChildrenMapKeys(front, k);
      if exists i :: 0 <= i < |front| && front[i].id == k {
        var i :| 0 <= i < |front| && front[i].id == k;
        assert data[i] == front[i];
      }
      if exists i :: 0 <= i < |data| && data[i].id == k {
        var i :| 0 <= i < |data| && data[i].id == k;
        if i < |front| {
          assert front[i] == data[i];
        }
      }
    }
  }

  /** An id maps to the children of the last record with that id. */
  lemma {:induction false} ChildrenMapLastWins(data: seq<Person>, i: nat)
    requires i < |data| && LastWithId(data, i)
    ensures data[i].id in ChildrenMapOf(data) && ChildrenMapOf(data)[data[i].id] == data[i].children
    decreases |data|
  {
    if i < |data| - 1 {
      var front := data[..|data| - 1];
      assert front[i] == data[i];
      assert LastWithId(front, i);
      ChildrenMapLastWins(front, i);
    }
  }

  /** With unique ids, `childrenMap` and `parentsMap` are inverse: `c` is a
      child of `p` exactly when `p` is a parent of `c`. */
  lemma ChildrenMapInverse(data: seq<Person>, p: Id, c: Id)
    requires forall i, j :: 0 <= i < j < |data| ==> data[i].id != data[j].id
    ensures c in Get(ChildrenMapOf(data), p) <==> p in Get(ParentsMap(data), c)
  {
    ParentsMapIsParentsOf(data, c);
    ParentsOfMembership(data, c, p);
    ChildrenMapKeys(data, p);
    if p in ChildrenMapOf(data) {
      var i :| 0 <= i < |data| && data[i].id == p;
      ChildrenMapLastWins(data, i);
      if exists j :: 0 <= j < |data| && data[j].id == p && c in data[j].children {
        var j :| 0 <= j < |data| && data[j].id == p && c in data[j].children;
        assert i == j;
      }
    }
  }

  /** No record after the one at `i` has its id. */
  predicate LastWithId(data: seq<Person>, i: nat)
    requires i < |data|
  {
    forall j :: i < j < |data| ==> data[j].id != data[i].id
  }

  /** The list a map holds for `c`, or the empty list. */
  function Get(pm: map<Id, seq<Id>>, c: Id): seq<Id>
  {
    if c in pm then pm[c] else []
  }

  /** Lines 98-99: `p` pushed onto the list of `c` (created when missing). */
  function Push(pm: map<Id, seq<Id>>, c: Id, p: Id): map<Id, seq<Id>>
  {
    pm[c := Get(pm, c) + [p]]
  }

  /** The inner `forEach`: `p` pushed for each child in order. */
  function PushAll(pm: map<Id, seq<Id>>, p: Id, cs: seq<Id>): map<Id, seq<Id>>
    decreases |cs|
  {
    if cs == [] then pm else PushAll(Push(pm, cs[0], p), p, cs[1..])
  }

  /** `parentsMap` once the records of `data` are processed. */
  function ParentsMap(data: seq<Person>): map<Id, seq<Id>>
  {
    if data == [] then map[]
    else
      var last := data[|data| - 1];
      PushAll(ParentsMap(data[..|data| - 1]), last.id, last.children)
  }

  /** Pushing `p` for each child adds one `p` per occurrence of `c` to the
      list of `c`, and creates a key exactly for the children. */
  lemma {:induction false} PushAllSpec(pm: map<Id, seq<Id>>, p: Id, cs: seq<Id>, c: Id)
    ensures Get(PushAll(pm, p, cs), c) == Get(pm, c) + Repeat(p, Occ(cs, c))
    ensures c in PushAll(pm, p, cs) <==> c in pm || c in cs
    decreases |cs|
  {
    if cs != [] {
      PushAllSpec(Push(pm, cs[0], p), p, cs[1..], c);
      if cs[0] == c {
        assert Repeat(p, Occ(cs, c)) == [p] + Repeat(p, Occ(cs[1..], c));
      }
      assert c in cs <==> c == cs[0] || c in cs[1..];
    } else {
      assert Repeat(p, 0) == [];
    }
  }

  /** `parentsMap` holds a key exactly for the ids some record lists as a
      child, and its list for that id is ParentsOf. */
  lemma {:induction false} ParentsMapIsParentsOf(data: seq<Person>, c: Id)
    ensures Get(ParentsMap(data), c) == ParentsOf(data, c)
    ensures c in ParentsMap(data) <==> ParentsOf(data, c) != []
    decreases |data|
  {
    if data != [] {
      var front := data[..|data| - 1];
      var last := data[|data| - 1];
      ParentsMapIsParentsOf(front, c);
      PushAllSpec(ParentsMap(front), last.id, last.children, c);
    }
  }

  lemma ParentsMapStep(data: seq<Person>, i: nat)
    requires i < |data|
    ensures ParentsMap(data[..i + 1]) == PushAll(ParentsMap(data[..i]), data[i].id, data[i].children)
  {
    assert data[..i + 1][..i] == data[..i];
  }

  lemma ChildrenMapStep(data: seq<Person>, i: nat)
    requires i < |data|
    ensures ChildrenMapOf(data[..i + 1]) == ChildrenMapOf(data[..i])[data[i].id := data[i].children]
  {
    assert data[..i + 1][..i] == data[..i];
  }

  /** The list of every id ParentsMap knows is ParentsOf. */
  lemma ParentsMapAll(data: seq<Person>)
    ensures forall c :: c in ParentsMap(data) <==> ParentsOf(data, c) != []
    ensures forall c :: c in ParentsMap(data) ==> ParentsMap(data)[c] == ParentsOf(data, c)
  {
    forall c
      ensures c in ParentsMap(data) <==> ParentsOf(data, c) != []
      ensures c in ParentsMap(data) ==> ParentsMap(data)[c] == ParentsOf(data, c)
    {
      ParentsMapIsParentsOf(data, c);
    }
  }

  /** Lines 96-99: the parent pushed onto the list of each of its children. */
  method PushParent(parentsMap: map<Id, seq<Id>>, parent: Id, children: seq<Id>) returns (pm: map<Id, seq<Id>>)
    ensures pm == PushAll(parentsMap, parent, children)
  {
    pm := parentsMap;
    var j := 0;
    while j < |children|
      invariant 0 <= j <= |children|
      invariant PushAll(pm, parent, children[j..]) == PushAll(parentsMap, parent, children)
    {
      var childId := children[j];
      assert children[j..][1..] == children[j + 1..];
      ghost var pushed := Push(pm, childId, parent);
      if childId !in pm {
        pm := pm[childId := []];
      }
      pm := pm[childId := pm[childId] + [parent]];
      assert pm == pushed;
      j := j + 1;
    }
    assert children[|children|..] == [];
  }

  /** Lines 91-101, in place: both maps filled by one pass over the records. */
  method BuildLineageMaps(data: seq<Person>) returns (parentsMap: map<Id, seq<Id>>, childrenMap: map<Id, seq<Id>>)
    ensures parentsMap == ParentsMap(data)
    ensures forall c :: c in parentsMap <==> ParentsOf(data, c) != []
    ensures forall c :: c in parentsMap ==> parentsMap[c] == ParentsOf(data, c)
    ensures childrenMap == ChildrenMapOf(data)
  {
    parentsMap := map[];
    childrenMap := map[];
    var i := 0;
    while i < |data|
      invariant 0 <= i <= |data|
      invariant parentsMap == ParentsMap(data[..i])
      invariant childrenMap == ChildrenMapOf(data[..i])
    {
      var person := data[i];
      ChildrenMapStep(data, i);
      ParentsMapStep(data, i);
      childrenMap := childrenMap[person.id := person.children];
      parentsMap := PushParent(parentsMap, person.id, person.children);
      i := i + 1;
    }
    assert data[..|data|] == data;
    ParentsMapAll(data);
  }

  // ---------------------------------------------------------------------
  // Reachability

  /** `(map.get(n) || [])`. */
  function Next(edges: map<Id, seq<Id>>, n: Id): seq<Id>
  {
    if n in edges then edges[n] else []
  }

  /** Every id a map mentions. */
  ghost function Nodes(edges: map<Id, seq<Id>>): set<Id>
  {
    edges.Keys + (set k, m | k in edges && m in edges[k] :: m)
  }

  lemma NextInNodes(edges: map<Id, seq<Id>>, n: Id)
    ensures forall m :: m in Next(edges, n) ==> m in Nodes(edges)
  {
  }

  /** `S` contains the successors of each of its members. */
  ghost predicate Closed(edges: map<Id, seq<Id>>, S: set<Id>)
  {
    forall n, m :: n in S && m in Next(edges, n) ==> m in S
  }

  /** The ids reachable from `root` (itself included): those inside every
      closed set that contains `root`. */
  ghost function Reach(edges: map<Id, seq<Id>>, root: Id): set<Id>
  {
    set x | x in Nodes(edges) + {root} && forall S :: root in S && Closed(edges, S) ==> x in S
  }

  /** Reach is the least closed set that contains the root. */
  lemma ReachIsLeast(edges: map<Id, seq<Id>>, root: Id)
    ensures root in Reach(edges, root)
    ensures Closed(edges, Reach(edges, root))
    ensures forall S :: root in S && Closed(edges, S) ==> Reach(edges, root) <= S
  {
    var R := Reach(edges, root);
    forall n, m | n in R && m in Next(edges, n)
      ensures m in R
    {
      NextInNodes(edges, n);
    }
  }

  /** A closed set holding `root` and lying inside every other such set is Reach. */
  lemma LeastClosedIsReach(edges: map<Id, seq<Id>>, root: Id, v: set<Id>)
    requires root in v && Closed(edges, v)
    requires InEveryClosed(edges, root, v)
    ensures v == Reach(edges, root)
  {
    ReachIsLeast(edges, root);
    forall n, m | n in Nodes(edges) + {root} && m in Next(edges, n)
      ensures m in Nodes(edges) + {root}
    {
      NextInNodes(edges, n);
    }
  }

  /** `A` lies inside every closed set that holds `root`. */
  ghost predicate InEveryClosed(edges: map<Id, seq<Id>>, root: Id, A: set<Id>)
  {
    forall S :: root in S && Closed(edges, S) ==> A <= S
  }

  /** Visiting `curr` makes the walk's measure drop for every successor. */
  lemma WalkMeasureDrops(nodes: set<Id>, before: set<Id>, curr: Id, visited: set<Id>, n: Id)
    requires n in nodes && curr !in before && before + {curr} <= visited
    ensures nodes + {n} - visited < nodes + {curr} - before
  {
    assert curr !in nodes + {n} - visited;
  }

  /** `S` contains each successor of its members that is not in `avoid`. */
  ghost predicate ClosedAvoiding(edges: map<Id, seq<Id>>, avoid: set<Id>, S: set<Id>)
  {
    forall n, m :: n in S && m in Next(edges, n) && m !in avoid ==> m in S
  }

  /** `A` lies inside every set that holds `root` and is closed under the
      edges leading outside `avoid`: each id of `A` is reachable from `root`
      through ids not in `avoid`. */
  ghost predicate InEveryClosedAvoiding(edges: map<Id, seq<Id>>, root: Id, avoid: set<Id>, A: set<Id>)
  {
    forall S :: root in S && ClosedAvoiding(edges, avoid, S) ==> A <= S
  }

  /** The walk from a successor `n` of `curr` adds only ids reachable from
      `curr` without passing an id visited before `curr`. */
  lemma InEveryClosedAvoidingStep(edges: map<Id, seq<Id>>, curr: Id, n: Id, before: set<Id>, mid: set<Id>, after: set<Id>)
    requires n in Next(edges, curr) && before <= mid
    requires InEveryClosedAvoiding(edges, curr, before, mid - before)
    requires InEveryClosedAvoiding(edges, n, mid, after - mid)
    requires n in mid ==> after == mid
    ensures InEveryClosedAvoiding(edges, curr, before, after - before)
  {
    forall S | curr in S && ClosedAvoiding(edges, before, S)
      ensures after - before <= S
    {
      if n !in mid {
        assert n in S;
        assert ClosedAvoiding(edges, mid, S);
      }
    }
  }

  /** The new ids of a walk whose successors are all visited are closed
      under the edges that avoid the ids visited before. */
  lemma SuccessorsInAvoiding(edges: map<Id, seq<Id>>, before: set<Id>, visited: set<Id>)
    requires SuccessorsIn(edges, visited - before, visited)
    ensures ClosedAvoiding(edges, before, visited - before)
  {
  }

  /** The successors of each id of `A` lie in `B`. */
  ghost predicate SuccessorsIn(edges: map<Id, seq<Id>>, A: set<Id>, B: set<Id>)
  {
    forall n, m :: n in A && m in Next(edges, n) ==> m in B
  }

  lemma SuccessorsGrow(edges: map<Id, seq<Id>>, before: set<Id>, curr: Id, mid: set<Id>, after: set<Id>)
    requires mid <= after
    requires SuccessorsIn(edges, mid - before - {curr}, mid)
    requires SuccessorsIn(edges, after - mid, after)
    ensures SuccessorsIn(edges, after - before - {curr}, after)
  {
  }

  lemma SuccessorsWithRoot(edges: map<Id, seq<Id>>, before: set<Id>, curr: Id, visited: set<Id>)
    requires SuccessorsIn(edges, visited - before - {curr}, visited)
    requires forall m :: m in Next(edges, curr) ==> m in visited
    ensures SuccessorsIn(edges, visited - before, visited)
  {
  }

  /** What the walk from `curr` has added to `before` so far: the new ids
      other than `curr` have their successors visited, and every new id is
      reachable from `curr` without passing an id of `before`. */
  ghost predicate WalkSoFar(edges: map<Id, seq<Id>>, curr: Id, before: set<Id>, visited: set<Id>)
  {
    && SuccessorsIn(edges, visited - before - {curr}, visited)
    && InEveryClosedAvoiding(edges, curr, before, visited - before)
  }

  /** Reachable while avoiding some ids is reachable. */
  lemma AvoidingIsReachable(edges: map<Id, seq<Id>>, root: Id, avoid: set<Id>, A: set<Id>)
    requires InEveryClosedAvoiding(edges, root, avoid, A)
    ensures InEveryClosed(edges, root, A)
  {
    forall S | root in S && Closed(edges, S)
      ensures A <= S
    {
      assert ClosedAvoiding(edges, avoid, S);
    }
  }

  /** One successor's walk keeps WalkSoFar. */
  lemma WalkStep(edges: map<Id, seq<Id>>, curr: Id, n: Id, before: set<Id>, mid: set<Id>, after: set<Id>)
    requires n in Next(edges, curr) && before <= mid <= after
    requires WalkSoFar(edges, curr, before, mid)
    requires n in mid ==> after == mid
    requires SuccessorsIn(edges, after - mid, after)
    requires InEveryClosedAvoiding(edges, n, mid, after - mid)
    ensures WalkSoFar(edges, curr, before, after)
  {
    SuccessorsGrow(edges, before, curr, mid, after);
    InEveryClosedAvoidingStep(edges, curr, n, before, mid, after);
  }

  /** The state of `getLineageIds`: the maps it walks and its `visited` set. */
  class LineageWalk {
    const parentsMap: map<Id, seq<Id>>
    const childrenMap: map<Id, seq<Id>>
    var visited: set<Id>

    constructor (parentsMap: map<Id, seq<Id>>, childrenMap: map<Id, seq<Id>>)
      ensures this.parentsMap == parentsMap && this.childrenMap == childrenMap && visited == {}
    {
      this.parentsMap := parentsMap;
      this.childrenMap := childrenMap;
      visited := {};
    }

    /** `dfsUp` (over `edges == parentsMap`) and `dfsDown` (over
        `edges == childrenMap`): the same walk. It adds exactly the ids
        reachable from `curr` without passing through an id visited before:
        the new ids hold `curr` (unless it was visited), are closed under the
        edges that avoid old ids, and lie inside every such closed set. */
    method Dfs(edges: map<Id, seq<Id>>, curr: Id)
      modifies this
      ensures old(visited) <= visited && curr in visited
      ensures curr in old(visited) ==> visited == old(visited)
      ensures SuccessorsIn(edges, visited - old(visited), visited)
      ensures ClosedAvoiding(edges, old(visited), visited - old(visited))
      ensures InEveryClosed(edges, curr, visited - old(visited))
      ensures InEveryClosedAvoiding(edges, curr, old(visited), visited - old(visited))
      decreases Nodes(edges) + {curr} - visited, 2
    {
      if curr in visited {
        return;
      }
      ghost var before := visited;
      visited := visited + {curr};
      VisitNext(edges, curr, before);
      SuccessorsWithRoot(edges, before, curr, visited);
      SuccessorsInAvoiding(edges, before, visited);
      AvoidingIsReachable(edges, curr, before, visited - before);
    }

    /** The `forEach` of a walk over the successors of `curr`, which has
        just been added to the ids visited `before`. */
    method VisitNext(edges: map<Id, seq<Id>>, curr: Id, ghost before: set<Id>)
      requires curr !in before && visited == before + {curr}
      modifies this
      ensures before + {curr} <= visited
      ensures forall m :: m in Next(edges, curr) ==> m in visited
      ensures SuccessorsIn(edges, visited - before - {curr}, visited)
      ensures InEveryClosedAvoiding(edges, curr, before, visited - before)
      decreases Nodes(edges) + {curr} - before, 1
    {
      var next := Next(edges, curr);
      NextInNodes(edges, curr);
      var i := 0;
      while i < |next|
        invariant 0 <= i <= |next|
        invariant before + {curr} <= visited
        invariant forall k :: 0 <= k < i ==> next[k] in visited
        invariant WalkSoFar(edges, curr, before, visited)
      {
        ghost var mid := visited;
        VisitOne(edges, curr, before, next[i]);
        forall k | 0 <= k <= i
          ensures next[k] in visited
        {
          if k < i {
            assert next[k] in mid;
          }
        }
        i := i + 1;
      }
      forall m | m in next
        ensures m in visited
      {
        var k :| 0 <= k < |next| && next[k] == m;
      }
    }

    /** One pass of that `forEach`: the walk from the successor `n`. */
    method VisitOne(edges: map<Id, seq<Id>>, curr: Id, ghost before: set<Id>, n: Id)
      requires n in Next(edges, curr) && curr !in before && before + {curr} <= visited
      requires WalkSoFar(edges, curr, before, visited)
      modifies this
      ensures old(visited) <= visited && n in visited
      ensures WalkSoFar(edges, curr, before, visited)
      decreases Nodes(edges) + {curr} - before, 0
    {
      NextInNodes(edges, curr);
      WalkMeasureDrops(Nodes(edges), before, curr, visited, n);
      ghost var mid := visited;
      Dfs(edges, n);
      WalkStep(edges, curr, n, before, mid, visited);
    }
  }

  /** `getLineageIds(id)`: `dfsUp(id)` then `dfsDown(id)` on one visited
      set. The second walk starts at an id the first has visited, so it adds
      nothing: the result is `id` and its ancestors. */
  method GetLineageIds(parentsMap: map<Id, seq<Id>>, childrenMap: map<Id, seq<Id>>, id: Id) returns (lineage: set<Id>)
    ensures lineage == Reach(parentsMap, id)
  {
    var walk := new LineageWalk(parentsMap, childrenMap);
    walk.Dfs(walk.parentsMap, id);
    LeastClosedIsReach(parentsMap, id, walk.visited);
    walk.Dfs(walk.childrenMap, id);
    lineage := walk.visited;
  }

  /** The lineage as intended: `id`, its ancestors and its descendants, each
      walk with its own visited set. */
  method GetLineageIdsBothWays(parentsMap: map<Id, seq<Id>>, childrenMap: map<Id, seq<Id>>, id: Id) returns (lineage: set<Id>)
    ensures lineage == Reach(parentsMap, id) + Reach(childrenMap, id)
  {
    var up := new LineageWalk(parentsMap, childrenMap);
    up.Dfs(up.parentsMap, id);
    LeastClosedIsReach(parentsMap, id, up.visited);
    var down := new LineageWalk(parentsMap, childrenMap);
    down.Dfs(down.childrenMap, id);
    LeastClosedIsReach(childrenMap, id, down.visited);
    lineage := up.visited + down.visited;
  }

  /** Ancestors are in the lineage: a parent of an id in the lineage is too. */
  lemma ParentInLineage(data: seq<Person>, parentsMap: map<Id, seq<Id>>, id: Id, c: Id, p: Id)
    requires forall k :: k in parentsMap ==> parentsMap[k] == ParentsOf(data, k)
    requires forall k :: k !in parentsMap ==> ParentsOf(data, k) == []
    requires c in Reach(parentsMap, id)
    requires exists i :: 0 <= i < |data| && data[i].id == p && c in data[i].children
    ensures p in Reach(parentsMap, id)
  {
    ParentsOfMembership(data, c, p);
    ReachIsLeast(parentsMap, id);
    assert p in Next(parentsMap, c);
  }

  /** The maps the pass over the records builds for P, listing C as its
      only child, followed by C. */
  lemma FindingMaps(p: Id, c: Id)
    requires p != c
    ensures var data := [Person(p, None, None, None, None, None, [c]), Person(c, None, None, None, None, None, [])];
      && ParentsMap(data) == map[c := [p]]
      && ChildrenMapOf(data) == map[p := [c], c := []]
  {
    var pr := Person(p, None, None, None, None, None, [c]);
    var cr := Person(c, None, None, None, None, None, []);
    var data := [pr, cr];
    assert data[..|data| - 1] == [pr];
    assert [pr][..|[pr]| - 1] == [];
    assert [c][1..] == [];
    var pm0: map<Id, seq<Id>> := map[];
    assert Get(pm0, c) + [p] == [p];
    assert Push(pm0, c, p) == map[c := [p]];
    assert PushAll(pm0, p, [c]) == PushAll(Push(pm0, c, p), p, []);
    assert ParentsMap([pr]) == map[c := [p]];
    assert ChildrenMapOf([pr]) == map[p := [c]];
  }

  /** A person with no recorded parent and one child (the records P and C
      above): the lineage as written holds only the person, the intended one
      holds the child too. */
  lemma LineageMissesChild(p: Id, c: Id)
    requires p != c
    ensures var data := [Person(p, None, None, None, None, None, [c]), Person(c, None, None, None, None, None, [])];
      var parentsMap := ParentsMap(data);
      var childrenMap := ChildrenMapOf(data);
      && Reach(parentsMap, p) == {p}
      && c !in Reach(parentsMap, p)
      && c in Reach(parentsMap, p) + Reach(childrenMap, p)
  {
    FindingMaps(p, c);
    var parentsMap := map[c := [p]];
    var childrenMap := map[p := [c], c := []];
    ReachIsLeast(parentsMap, p);
    assert Closed(parentsMap, {p});
    ReachIsLeast(childrenMap, p);
    assert c in Next(childrenMap, p);
  }
}
