/** The connectors `renderTree` draws from the finished positions: a spouse
    line per couple, a trunk under each parent (or couple) with children and
    a path from the trunk to each positioned child, and the hover predicate
    that highlights them. */
module Connectors {
  import opened Records
  import opened Layout
  import opened Lineage

  datatype Kind = SpouseLine | Trunk | ChildPath

  datatype Point = Point(x: real, y: real)

  /** What one `line` or `path` element receives: its kind, `data-from`,
      `data-to` and the points it is drawn through. */
  datatype Connector = Connector(kind: Kind, from: Id, to: Id, points: seq<Point>)

  /** Gap between the bend of a child path and the child's centre line. */
  const Curve := 12

  /** Centre of a card, horizontally. */
  function CentreX(p: Pos): real
  {
    (p.x + NodeWidth / 2) as real
  }

  /** Line 168: the record's spouse has a position. */
  predicate HasSpouse(d: Person, pos: map<Id, Pos>)
  {
    d.spouse.Some? && d.spouse.value in pos
  }

  /** Line 189: this record draws the children's connectors (once per couple). */
  predicate DrawsChildren(d: Person, pos: map<Id, Pos>)
  {
    d.id in pos && |d.children| > 0 && (!HasSpouse(d, pos) || IdLess(d.id, d.spouse.value))
  }

  /** Line 172: this record draws the spouse line (once per couple). */
  predicate DrawsSpouseLine(d: Person, pos: map<Id, Pos>)
  {
    d.id in pos && HasSpouse(d, pos) && IdLess(d.id, d.spouse.value)
  }

  /** Lines 172-186: the horizontal line between the two card centres. */
  function SpouseLineOf(d: Person, pos: map<Id, Pos>): seq<Connector>
  {
    if DrawsSpouseLine(d, pos) then
      var from := pos[d.id];
      var to := pos[d.spouse.value];
      var y := (from.y + NodeHeight / 2) as real;
      [Connector(SpouseLine, d.id, d.spouse.value, [Point(CentreX(from), y), Point(CentreX(to), y)])]
    else []
  }

  /** Lines 191-193: the card's centre, or the mean of the two centres of a
      couple. */
  function ParentX(d: Person, pos: map<Id, Pos>): real
    requires d.id in pos
  {
    if HasSpouse(d, pos) then (CentreX(pos[d.id]) + CentreX(pos[d.spouse.value])) / 2.0
    else CentreX(pos[d.id])
  }

  function ParentY(d: Person, pos: map<Id, Pos>): real
    requires d.id in pos
  {
    (pos[d.id].y + NodeHeight / 2) as real
  }

  /** Line 195: where the trunk ends and the child paths begin. */
  function MidY(d: Person, pos: map<Id, Pos>): real
    requires d.id in pos
  {
    ParentY(d, pos) + (NodeHeight / 2 + 20) as real
  }

  /** Lines 197-206: the vertical trunk. */
  function TrunkOf(d: Person, pos: map<Id, Pos>): Connector
    requires d.id in pos
  {
    Connector(Trunk, d.id, if HasSpouse(d, pos) then d.spouse.value else d.id,
      [Point(ParentX(d, pos), ParentY(d, pos)), Point(ParentX(d, pos), MidY(d, pos))])
  }

  /** Lines 212-217: the bend of a child path lies `Curve` short of the
      child's centre, on the side of the parent. */
  function BendX(childX: real, parentX: real): real
  {
    if childX < parentX then childX + Curve as real else childX - Curve as real
  }

  /** Lines 209-225: one child path, the points of its `d` attribute in order
      (start, end of the horizontal leg, the control point and end of the
      quarter turn, the top of the child's card). */
  function ChildPathOf(d: Person, pos: map<Id, Pos>, cid: Id): Connector
    requires d.id in pos && cid in pos
  {
    var parentX := ParentX(d, pos);
    var midY := MidY(d, pos);
    var childX := CentreX(pos[cid]);
    Connector(ChildPath, d.id, cid,
      [Point(parentX, midY), Point(BendX(childX, parentX), midY), Point(childX, midY),
       Point(childX, midY + Curve as real), Point(childX, pos[cid].y as real)])
  }

  /** The `d.children.forEach` of line 208: one path per positioned child,
      in order; unpositioned children are skipped. */
  function ChildPaths(d: Person, pos: map<Id, Pos>, cids: seq<Id>): seq<Connector>
    requires d.id in pos
  {
    if cids == [] then []
    else (if cids[0] in pos then [ChildPathOf(d, pos, cids[0])] else []) + ChildPaths(d, pos, cids[1..])
  }

  /** Everything one record of the `data.forEach` of line 164 draws. */
  function RecordConnectors(d: Person, pos: map<Id, Pos>): seq<Connector>
  {
    if d.id !in pos then []
    else
      SpouseLineOf(d, pos)
      + (if DrawsChildren(d, pos) then [TrunkOf(d, pos)] + ChildPaths(d, pos, d.children) else [])
  }

  /** Every connector, records in data order. */
  function AllConnectors(data: seq<Person>, pos: map<Id, Pos>): seq<Connector>
  {
    if data == [] then [] else RecordConnectors(data[0], pos) + AllConnectors(data[1..], pos)
  }

  function CountKind(cs: seq<Connector>, k: Kind): nat
  {
    if cs == [] then 0 else (if cs[0].kind == k then 1 else 0) + CountKind(cs[1..], k)
  }

  /** The number of ids of `cids` that have a position. */
  function CountPositioned(cids: seq<Id>, pos: map<Id, Pos>): nat
  {
    if cids == [] then 0 else (if cids[0] in pos then 1 else 0) + CountPositioned(cids[1..], pos)
  }

  lemma {:induction false} CountKindAppend(a: seq<Connector>, b: seq<Connector>, k: Kind)
    ensures CountKind(a + b, k) == CountKind(a, k) + CountKind(b, k)
    decreases |a|
  {
    if a != [] {
      assert (a + b)[1..] == a[1..] + b;
      CountKindAppend(a[1..], b, k);
    } else {
      assert a + b == b;
    }
  }

  /** Child paths: one per positioned child, each from the record to that
      child, with its bend `Curve` short of the child's centre on the
      parent's side, its quarter turn about `(childX, midY)` down to
      `Curve` below the leg, and its last point on top of the child's card. */
  lemma {:induction false} ChildPathsShape(d: Person, pos: map<Id, Pos>, cids: seq<Id>)
    requires d.id in pos
    ensures var ps := ChildPaths(d, pos, cids);
      && |ps| == CountPositioned(cids, pos)
      && CountKind(ps, ChildPath) == |ps| && CountKind(ps, Trunk) == 0 && CountKind(ps, SpouseLine) == 0
      && forall c :: c in ps ==>
           && c.kind == ChildPath && c.from == d.id && c.to in cids && c.to in pos
           && |c.points| == 5
           && c.points[0] == Point(ParentX(d, pos), MidY(d, pos))
           && c.points[1].y == MidY(d, pos)
           && c.points[2] == Point(CentreX(pos[c.to]), MidY(d, pos))
           && c.points[3] == Point(CentreX(pos[c.to]), MidY(d, pos) + Curve as real)
           && c.points[4] == Point(CentreX(pos[c.to]), pos[c.to].y as real)
           && (CentreX(pos[c.to]) < ParentX(d, pos) ==> c.points[1].x == CentreX(pos[c.to]) + Curve as real)
           && (CentreX(pos[c.to]) >= ParentX(d, pos) ==> c.points[1].x == CentreX(pos[c.to]) - Curve as real)
    decreases |cids|
  {
    if cids != [] {
      ChildPathsShape(d, pos, cids[1..]);
      var head := if cids[0] in pos then [ChildPathOf(d, pos, cids[0])] else [];
      CountKindAppend(head, ChildPaths(d, pos, cids[1..]), ChildPath);
      CountKindAppend(head, ChildPaths(d, pos, cids[1..]), Trunk);
      CountKindAppend(head, ChildPaths(d, pos, cids[1..]), SpouseLine);
    }
  }

  /** The `data-to` ids of a run of connectors, in order. */
  function Targets(cs: seq<Connector>): seq<Id>
  {
    if cs == [] then [] else [cs[0].to] + Targets(cs[1..])
  }

  /** The ids of `cids` that have a position, in order. */
  function PositionedChildren(cids: seq<Id>, pos: map<Id, Pos>): seq<Id>
  {
    if cids == [] then [] else (if cids[0] in pos then [cids[0]] else []) + PositionedChildren(cids[1..], pos)
  }

  lemma {:induction false} TargetsAppend(a: seq<Connector>, b: seq<Connector>)
    ensures Targets(a + b) == Targets(a) + Targets(b)
    decreases |a|
  {
    if a != [] {
      assert (a + b)[1..] == a[1..] + b;
      TargetsAppend(a[1..], b);
    } else {
      assert a + b == b;
    }
  }

  /** The child paths lead to the positioned children, one each and in the
      order of the child list. */
  lemma {:induction false} ChildPathsTargets(d: Person, pos: map<Id, Pos>, cids: seq<Id>)
    requires d.id in pos
    ensures Targets(ChildPaths(d, pos, cids)) == PositionedChildren(cids, pos)
    decreases |cids|
  {
    if cids != [] {
      ChildPathsTargets(d, pos, cids[1..]);
      var head := if cids[0] in pos then [ChildPathOf(d, pos, cids[0])] else [];
      TargetsAppend(head, ChildPaths(d, pos, cids[1..]));
    }
  }

  /** Every positioned child gets its path. */
  lemma {:induction false} ChildPathsCover(d: Person, pos: map<Id, Pos>, cids: seq<Id>, cid: Id)
    requires d.id in pos && cid in cids && cid in pos
    ensures ChildPathOf(d, pos, cid) in ChildPaths(d, pos, cids)
    decreases |cids|
  {
    if cids[0] != cid {
      ChildPathsCover(d, pos, cids[1..], cid);
    }
  }

  /** The child paths hold neither trunks nor spouse lines. */
  lemma ChildPathsKinds(d: Person, pos: map<Id, Pos>, cids: seq<Id>)
    requires d.id in pos
    ensures CountKind(ChildPaths(d, pos, cids), Trunk) == 0 && CountKind(ChildPaths(d, pos, cids), SpouseLine) == 0
    ensures forall c :: c in ChildPaths(d, pos, cids) ==> c.kind == ChildPath
  {
    ChildPathsShape(d, pos, cids);
  }

  /** What a record draws besides its child paths: the spouse line and the
      trunk, each when its condition holds. */
  lemma RecordLines(d: Person, pos: map<Id, Pos>)
    ensures CountKind(RecordConnectors(d, pos), SpouseLine) == (if DrawsSpouseLine(d, pos) then 1 else 0)
    ensures CountKind(RecordConnectors(d, pos), Trunk) == (if DrawsChildren(d, pos) then 1 else 0)
    ensures forall c :: c in RecordConnectors(d, pos) && c.kind == SpouseLine ==> DrawsSpouseLine(d, pos) && c == SpouseLineOf(d, pos)[0]
    ensures forall c :: c in RecordConnectors(d, pos) && c.kind == Trunk ==> DrawsChildren(d, pos) && c == TrunkOf(d, pos)
  {
    if d.id in pos {
      var spouse := SpouseLineOf(d, pos);
      var rest := if DrawsChildren(d, pos) then [TrunkOf(d, pos)] + ChildPaths(d, pos, d.children) else [];
      assert RecordConnectors(d, pos) == spouse + rest;
      CountKindAppend(spouse, rest, SpouseLine);
      CountKindAppend(spouse, rest, Trunk);
      ChildPathsKinds(d, pos, d.children);
      if DrawsChildren(d, pos) {
        CountKindAppend([TrunkOf(d, pos)], ChildPaths(d, pos, d.children), SpouseLine);
        CountKindAppend([TrunkOf(d, pos)], ChildPaths(d, pos, d.children), Trunk);
      }
    }
  }

  /** Lines 172-186: one spouse line exactly when the record and its spouse
      are positioned and the record's id is the smaller; it is horizontal at
      half a card below the record's top, between the two card centres. */
  lemma SpouseLineRule(d: Person, pos: map<Id, Pos>)
    ensures CountKind(RecordConnectors(d, pos), SpouseLine) == (if DrawsSpouseLine(d, pos) then 1 else 0)
    ensures forall c :: c in RecordConnectors(d, pos) && c.kind == SpouseLine ==>
      && DrawsSpouseLine(d, pos) && c.from == d.id && c.to == d.spouse.value
      && c.points == [Point(CentreX(pos[d.id]), (pos[d.id].y + 85) as real), Point(CentreX(pos[d.spouse.value]), (pos[d.id].y + 85) as real)]
  {
    RecordLines(d, pos);
  }

  /** Lines 189-206: one trunk exactly when the record is positioned, has
      children and has no positioned spouse or the smaller id; it is
      vertical at the parent x, from half a card below the top to 105 further
      down, and the parent x is the mean of the two centres of a couple. */
  lemma TrunkRule(d: Person, pos: map<Id, Pos>)
    ensures CountKind(RecordConnectors(d, pos), Trunk) == (if DrawsChildren(d, pos) then 1 else 0)
    ensures forall c :: c in RecordConnectors(d, pos) && c.kind == Trunk ==>
      && DrawsChildren(d, pos) && c.from == d.id
      && c.to == (if HasSpouse(d, pos) then d.spouse.value else d.id)
      && var px := ParentX(d, pos);
         var py := (pos[d.id].y + 85) as real;
         && c.points == [Point(px, py), Point(px, py + 105.0)]
         && (HasSpouse(d, pos) ==> px == (CentreX(pos[d.id]) + CentreX(pos[d.spouse.value])) / 2.0)
         && (!HasSpouse(d, pos) ==> px == CentreX(pos[d.id]))
  {
    RecordLines(d, pos);
  }

  /** Lines 189 and 208-210: as many child paths as the record has
      positioned children when it draws its children, none otherwise, and
      every positioned child gets its path. */
  lemma ChildPathRule(d: Person, pos: map<Id, Pos>)
    ensures CountKind(RecordConnectors(d, pos), ChildPath) == (if DrawsChildren(d, pos) then CountPositioned(d.children, pos) else 0)
    ensures forall c :: c in RecordConnectors(d, pos) && c.kind == ChildPath ==>
      DrawsChildren(d, pos) && c.from == d.id && c.to in d.children && c.to in pos
    ensures DrawsChildren(d, pos) ==> forall cid :: cid in d.children && cid in pos ==> ChildPathOf(d, pos, cid) in RecordConnectors(d, pos)
  {
    if d.id in pos {
      var rest := if DrawsChildren(d, pos) then [TrunkOf(d, pos)] + ChildPaths(d, pos, d.children) else [];
      CountKindAppend(SpouseLineOf(d, pos), rest, ChildPath);
      ChildPathsShape(d, pos, d.children);
      if DrawsChildren(d, pos) {
        CountKindAppend([TrunkOf(d, pos)], ChildPaths(d, pos, d.children), ChildPath);
        assert RecordConnectors(d, pos) == SpouseLineOf(d, pos) + rest;
        forall cid | cid in d.children && cid in pos
          ensures ChildPathOf(d, pos, cid) in RecordConnectors(d, pos)
        {
          ChildPathsCover(d, pos, d.children, cid);
        }
      }
    }
  }

  /** Every connector joins two positioned ids. */
  lemma {:induction false} EndpointsPositioned(data: seq<Person>, pos: map<Id, Pos>)
    ensures forall c :: c in AllConnectors(data, pos) ==> c.from in pos && c.to in pos
    decreases |data|
  {
    if data != [] {
      EndpointsPositioned(data[1..], pos);
      var d := data[0];
      if d.id in pos {
        ChildPathsShape(d, pos, d.children);
      }
    }
  }

  /** A couple that name each other, both positioned, get exactly one
      spouse line between them: the record with the smaller id draws it. */
  lemma CoupleDrawsOneLine(a: Person, b: Person, pos: map<Id, Pos>)
    requires a.id != b.id && a.spouse == Some(b.id) && b.spouse == Some(a.id)
    requires a.id in pos && b.id in pos
    ensures CountKind(RecordConnectors(a, pos) + RecordConnectors(b, pos), SpouseLine) == 1
  {
    SpouseLineRule(a, pos);
    SpouseLineRule(b, pos);
    CountKindAppend(RecordConnectors(a, pos), RecordConnectors(b, pos), SpouseLine);
    IdLessTotal(a.id, b.id);
    if IdLess(a.id, b.id) {
      IdLessAsymmetric(a.id, b.id);
    } else {
      IdLessAsymmetric(b.id, a.id);
    }
  }

  // ---------------------------------------------------------------------
  // Hover highlight

  /** Line 156: a connector is highlighted when both of its ends are in the
      lineage of the hovered card. */
  predicate IsHighlighted(lineage: set<Id>, c: Connector)
  {
    c.from in lineage && c.to in lineage
  }

  /** The highlight flag of every connector, in order. */
  function Highlights(lineage: set<Id>, cs: seq<Connector>): (flags: seq<bool>)
    ensures |flags| == |cs|
    ensures forall i :: 0 <= i < |cs| ==> (flags[i] <==> cs[i].from in lineage && cs[i].to in lineage)
  {
    if cs == [] then [] else [IsHighlighted(lineage, cs[0])] + Highlights(lineage, cs[1..])
  }

  /** Hovering a child highlights the path from each parent record that
      draws to it, since the parent is in the child's lineage. */
  lemma ChildHoverHighlightsPath(data: seq<Person>, parentsMap: map<Id, seq<Id>>, pos: map<Id, Pos>, i: nat, c: Connector)
    requires forall k :: k in parentsMap ==> parentsMap[k] == ParentsOf(data, k)
    requires forall k :: k !in parentsMap ==> ParentsOf(data, k) == []
    requires i < |data| && c in RecordConnectors(data[i], pos) && c.kind == ChildPath
    ensures IsHighlighted(Reach(parentsMap, c.to), c)
  {
    ChildPathRule(data[i], pos);
    ReachIsLeast(parentsMap, c.to);
    ParentInLineage(data, parentsMap, c.to, c.to, data[i].id);
  }

  /** With the lineage as computed (the hovered id and its ancestors) over
      the records P (children [C]) and C, the path from P to C is not
      highlighted while P is hovered; with the intended lineage (descendants
      too) it is. */
  lemma ParentHoverMissesPath(p: Id, ch: Id, pos: map<Id, Pos>)
    requires p != ch && p in pos && ch in pos
    ensures var d := Person(p, None, None, None, None, None, [ch]);
      var data := [d, Person(ch, None, None, None, None, None, [])];
      var path := ChildPathOf(d, pos, ch);
      && path in RecordConnectors(d, pos)
      && !IsHighlighted(Reach(ParentsMap(data), p), path)
      && IsHighlighted(Reach(ParentsMap(data), p) + Reach(ChildrenMapOf(data), p), path)
  {
    var d := Person(p, None, None, None, None, None, [ch]);
    assert DrawsChildren(d, pos);
    assert ChildPaths(d, pos, [ch]) == [ChildPathOf(d, pos, ch)] by {
      assert [ch][1..] == [];
    }
    LineageMissesChild(p, ch);
  }
}
