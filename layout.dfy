/** The forest layout of `renderTree`: `layoutTree`, which places one person,
    their spouse and, recursively, their children, and the loop that places
    one tree per root, left to right.

    The functions LayNode, LayChildren and LayRoots say what the layout
    computes; the class ForestLayout performs it in place, on a `positions`
    map and a `rowWidths` ledger, and each of its methods is proved to end in
    the state those functions describe. */
module Layout {
  import opened Records

  const NodeWidth := 150
  const NodeHeight := 170
  const PaddingX := 60
  const PaddingY := 120
  /** x of the first root tree. */
  const StartX := 50

  /** Top-left corner of a card. */
  datatype Pos = Pos(x: int, y: int)

  /** The state `layoutTree` updates: `positions` and the per-depth ledger
      `rowWidths` (a depth without an entry is `undefined` in the source). */
  datatype Ledger = Ledger(positions: map<Id, Pos>, rows: map<nat, int>)

  const EmptyLedger := Ledger(map[], map[])

  function Max(a: int, b: int): int
  {
    if a >= b then a else b
  }

  /** The y of every card at a depth. */
  function RowY(depth: nat): int
  {
    depth * (NodeHeight + PaddingY)
  }

  /** `widthUsed` (line 75): one card, or two cards and a gap when the record
      names a spouse (placed or not). */
  function Footprint(nm: map<Id, Person>, id: Id): int
  {
    if SpouseIn(nm, id).Some? then NodeWidth * 2 + PaddingX else NodeWidth
  }

  /** Every position of `p` is still in `q`, unchanged. */
  ghost predicate Preserves(p: map<Id, Pos>, q: map<Id, Pos>)
  {
    forall k :: k in p ==> k in q && q[k] == p[k]
  }

  ghost function Elems(s: seq<Id>): set<Id>
  {
    set c | c in s
  }

  /** The measure falls from a node to its children: the node is now placed. */
  lemma NodeMeasureDrops(u: set<Id>, cs: set<Id>, id: Id, before: set<Id>, after: set<Id>)
    requires cs <= u && before + {id} <= after && id !in before
    ensures u + cs - after < u + {id} - before
  {
    assert id in u + {id} - before && id !in u + cs - after;
  }

  /** The measure does not grow from a child list to its first child. */
  lemma FirstChildMeasure(u: set<Id>, cids: seq<Id>, placed: set<Id>)
    requires cids != []
    ensures u + {cids[0]} - placed <= u + Elems(cids) - placed
  {
  }

  /** The measure does not grow from a child list to the rest of the list. */
  lemma RestMeasure(u: set<Id>, cids: seq<Id>, before: set<Id>, after: set<Id>)
    requires cids != [] && before <= after
    ensures u + Elems(cids[1..]) - after <= u + Elems(cids) - before
  {
    forall c | c in Elems(cids[1..]) ensures c in Elems(cids) {
      assert c in cids[1..];
    }
  }

  /** The measure of one child, once other cards are placed, is at most
      that of the whole child list on entry. */
  lemma MeasureWithin(u: set<Id>, cids: seq<Id>, i: nat, before: set<Id>, after: set<Id>)
    requires i < |cids| && before <= after
    ensures var a := u + {cids[i]} - after; var b := u + Elems(cids) - before; a < b || a == b
  {
  }

  /** Lines 57 and 59: the x a person gets is the ledger's entry for its
      depth, which `offsetX` fills in only while it is undefined. */
  function SlotX(st: Ledger, depth: nat, offsetX: int): int
  {
    if depth in st.rows then st.rows[depth] else offsetX
  }

  /** Lines 57-66, once the guard of line 53 has passed: the person's card at
      the slot's x and the depth's y, and the spouse's card one card and a gap
      to the right when the spouse has a record and no card yet. */
  function Place(nm: map<Id, Person>, st: Ledger, id: Id, depth: nat, offsetX: int): (r: Ledger)
    requires id !in st.positions
    ensures Preserves(st.positions, r.positions)
    ensures id in r.positions && st.positions.Keys + {id} <= r.positions.Keys
    ensures r.rows == st.rows[depth := SlotX(st, depth, offsetX)]
    ensures r.positions[id] == Pos(SlotX(st, depth, offsetX), RowY(depth))
    ensures forall k :: k in r.positions && k !in st.positions && k != id ==>
      SpouseIn(nm, id) == Some(k) && k in nm && r.positions[k] == Pos(SlotX(st, depth, offsetX) + NodeWidth + PaddingX, RowY(depth))
  {
    var x := SlotX(st, depth, offsetX);
    var placed := st.positions[id := Pos(x, RowY(depth))];
    var spouse := SpouseIn(nm, id);
    var placed' :=
      if spouse.Some? && spouse.value !in placed && spouse.value in nm
      then placed[spouse.value := Pos(x + NodeWidth + PaddingX, RowY(depth))]
      else placed;
    Ledger(placed', st.rows[depth := x])
  }

  /** Lines 75-76: after the children, the ledger of the depth covers the
      person's footprint and a gap. */
  function CloseRow(nm: map<Id, Person>, st: Ledger, id: Id, depth: nat, x: int): (r: Ledger)
    requires depth in st.rows
  {
    Ledger(st.positions, st.rows[depth := Max(st.rows[depth], x + Footprint(nm, id) + PaddingX)])
  }

  /** `layoutTree(id, depth, offsetX)` (lines 52-77). For an id that already
      has a position it returns at once and changes nothing (line 53). */
  function LayNode(nm: map<Id, Person>, st: Ledger, id: Id, depth: nat, offsetX: int): (r: Ledger)
    ensures Preserves(st.positions, r.positions)
    ensures id in r.positions
    ensures st.rows.Keys <= r.rows.Keys
    ensures id in st.positions ==> r == st
    decreases Universe(nm) + {id} - st.positions.Keys, 0, 0
  {
    if id in st.positions then st
    else
      var st1 := Place(nm, st, id, depth, offsetX);
      ChildrenInUniverse(nm, id);
      NodeMeasureDrops(Universe(nm), Elems(ChildrenIn(nm, id)), id, st.positions.Keys, st1.positions.Keys);
      var st2 := LayChildren(nm, st1, ChildrenIn(nm, id), depth, SlotX(st, depth, offsetX));
      CloseRow(nm, st2, id, depth, SlotX(st, depth, offsetX))
  }

  /** Lines 71-72: the next child's offset, one card and a gap past the
      ledger of the children's depth (or past the previous offset while that
      entry is undefined). */
  function NextOffset(st: Ledger, depth: nat, childOffset: int): int
  {
    (if depth + 1 in st.rows then st.rows[depth + 1] else childOffset) + NodeWidth + PaddingX
  }

  function SetRow(st: Ledger, depth: nat, v: int): Ledger
  {
    Ledger(st.positions, st.rows[depth := v])
  }

  /** The `forEach` over a node's children (lines 68-73): each child is laid
      out one depth further down, then the ledger of that depth is advanced
      by one card and a gap. */
  function LayChildren(nm: map<Id, Person>, st: Ledger, cids: seq<Id>, depth: nat, childOffset: int): (r: Ledger)
    ensures Preserves(st.positions, r.positions)
    ensures forall c :: c in cids ==> c in r.positions
    ensures st.rows.Keys <= r.rows.Keys
    decreases Universe(nm) + Elems(cids) - st.positions.Keys, 1, |cids|
  {
    if cids == [] then st
    else
      FirstChildMeasure(Universe(nm), cids, st.positions.Keys);
      var st1 := LayNode(nm, st, cids[0], depth + 1, childOffset);
      var next := NextOffset(st1, depth, childOffset);
      RestMeasure(Universe(nm), cids, st.positions.Keys, st1.positions.Keys);
      LayChildren(nm, SetRow(st1, depth + 1, next), cids[1..], depth, next)
  }

  /** One step of the `forEach`, at index `i`. */
  lemma LayChildrenStep(nm: map<Id, Person>, st: Ledger, cids: seq<Id>, i: nat, depth: nat, childOffset: int, st1: Ledger, next: int)
    requires i < |cids|
    requires st1 == LayNode(nm, st, cids[i], depth + 1, childOffset) && next == NextOffset(st1, depth, childOffset)
    ensures LayChildren(nm, st, cids[i..], depth, childOffset) == LayChildren(nm, SetRow(st1, depth + 1, next), cids[i + 1..], depth, next)
  {
    assert cids[i..][1..] == cids[i + 1..];
  }

  /** One step of the root loop, at index `i`. */
  lemma LayRootsStep(nm: map<Id, Person>, st: Ledger, roots: seq<Id>, i: nat, startX: int, st1: Ledger)
    requires i < |roots| && st1 == LayNode(nm, st, roots[i], 0, startX)
    ensures LayRoots(nm, st, roots[i..], startX) == LayRoots(nm, st1, roots[i + 1..], NextStart(st1.rows, startX))
  {
    assert roots[i..][1..] == roots[i + 1..];
  }

  lemma KeysGrow(p: map<Id, Pos>, q: map<Id, Pos>)
    requires Preserves(p, q)
    ensures p.Keys <= q.Keys
  {
  }

  /** The largest ledger entry among `keys`. */
  ghost function MaxOver(rows: map<nat, int>, keys: set<nat>): (m: int)
    requires keys != {} && keys <= rows.Keys
    ensures forall d :: d in keys ==> rows[d] <= m
    ensures exists d :: d in keys && rows[d] == m
    decreases keys
  {
    var d :| d in keys;
    if keys == {d} then rows[d] else Max(rows[d], MaxOver(rows, keys - {d}))
  }

  /** Lines 81-83: the next root tree starts two gaps past the widest ledger
      entry (the previous `startX` while the ledger is empty). */
  ghost function NextStart(rows: map<nat, int>, startX: int): int
  {
    (if rows != map[] then MaxOver(rows, rows.Keys) else startX) + PaddingX * 2
  }

  /** The root loop (lines 79-84): each root is laid out at depth 0, each
      after the first from NextStart. */
  ghost function LayRoots(nm: map<Id, Person>, st: Ledger, roots: seq<Id>, startX: int): (r: Ledger)
    ensures Preserves(st.positions, r.positions)
    ensures forall k :: k in roots ==> k in r.positions
    decreases |roots|
  {
    if roots == [] then st
    else
      var st1 := LayNode(nm, st, roots[0], 0, startX);
      LayRoots(nm, st1, roots[1..], NextStart(st1.rows, startX))
  }

  // ---------------------------------------------------------------------
  // Frame: what a call may change

  /** Ledger entries, once defined, never decrease. */
  ghost predicate RowsGrow(a: map<nat, int>, b: map<nat, int>)
  {
    forall d :: d in a ==> d in b && a[d] <= b[d]
  }

  /** Ledger entries above `depth` are untouched. */
  ghost predicate RowsSameAbove(a: map<nat, int>, b: map<nat, int>, depth: nat)
  {
    forall d: nat :: d < depth ==> (d in a <==> d in b) && (d in a ==> a[d] == b[d])
  }

  /** Every card added lies at `depth` or deeper. */
  ghost predicate AddedFrom(p: map<Id, Pos>, q: map<Id, Pos>, depth: nat)
  {
    forall k :: k in q && k !in p ==> Row(q[k].y) >= depth
  }

  ghost predicate Frame(st: Ledger, r: Ledger, depth: nat)
  {
    && Preserves(st.positions, r.positions)
    && RowsGrow(st.rows, r.rows) && RowsSameAbove(st.rows, r.rows, depth) && AddedFrom(st.positions, r.positions, depth)
  }

  lemma {:induction false} LayNodeFrame(nm: map<Id, Person>, st: Ledger, id: Id, depth: nat, offsetX: int)
    ensures Frame(st, LayNode(nm, st, id, depth, offsetX), depth)
    ensures id !in st.positions ==> depth in LayNode(nm, st, id, depth, offsetX).rows
    decreases Universe(nm) + {id} - st.positions.Keys, 0, 0
  {
    if id !in st.positions {
      var x := SlotX(st, depth, offsetX);
      var st1 := Place(nm, st, id, depth, offsetX);
      RowOfRowY(depth);
      assert Frame(st, st1, depth);
      ChildrenInUniverse(nm, id);
      NodeMeasureDrops(Universe(nm), Elems(ChildrenIn(nm, id)), id, st.positions.Keys, st1.positions.Keys);
      LayChildrenFrame(nm, st1, ChildrenIn(nm, id), depth, x);
      var st2 := LayChildren(nm, st1, ChildrenIn(nm, id), depth, x);
      assert st2.rows[depth] == x;
      FrameTrans(st, st1, st2, depth);
      assert Frame(st2, CloseRow(nm, st2, id, depth, x), depth);
      FrameTrans(st, st2, CloseRow(nm, st2, id, depth, x), depth);
    }
  }

  lemma RowsGrowTrans(a: map<nat, int>, b: map<nat, int>, c: map<nat, int>)
    requires RowsGrow(a, b) && RowsGrow(b, c)
    ensures RowsGrow(a, c)
  {
  }

  lemma FrameTrans(a: Ledger, b: Ledger, c: Ledger, depth: nat)
    requires Frame(a, b, depth) && Frame(b, c, depth)
    ensures Frame(a, c, depth)
  {
  }

  /** Raising (or filling in) the ledger entry of `depth` changes nothing above it. */
  lemma SetRowFrame(st: Ledger, depth: nat, v: int)
    requires depth in st.rows ==> st.rows[depth] <= v
    ensures Frame(st, SetRow(st, depth, v), depth)
  {
  }

  lemma {:induction false} LayChildrenFrame(nm: map<Id, Person>, st: Ledger, cids: seq<Id>, depth: nat, childOffset: int)
    ensures Frame(st, LayChildren(nm, st, cids, depth, childOffset), depth + 1)
    decreases Universe(nm) + Elems(cids) - st.positions.Keys, 1, |cids|
  {
    if cids != [] {
      FirstChildMeasure(Universe(nm), cids, st.positions.Keys);
      LayNodeFrame(nm, st, cids[0], depth + 1, childOffset);
      var st1 := LayNode(nm, st, cids[0], depth + 1, childOffset);
      var next := NextOffset(st1, depth, childOffset);
      RestMeasure(Universe(nm), cids, st.positions.Keys, st1.positions.Keys);
      LayChildrenFrame(nm, SetRow(st1, depth + 1, next), cids[1..], depth, next);
      SetRowFrame(st1, depth + 1, next);
      FrameTrans(st, st1, SetRow(st1, depth + 1, next), depth + 1);
      FrameTrans(st, SetRow(st1, depth + 1, next), LayChildren(nm, SetRow(st1, depth + 1, next), cids[1..], depth, next), depth + 1);
    }
  }

  /** Where `layoutTree` puts a person it has not placed yet: at the ledger's
      x for its depth (the `offsetX` passed in only when that entry is still
      undefined) and at the depth's y; its spouse, when it has a record and
      no position yet, one card and a gap to the right; and afterwards the
      ledger of that depth stands one footprint and a gap past the person. */
  lemma LayNodePlacement(nm: map<Id, Person>, st: Ledger, id: Id, depth: nat, offsetX: int)
    requires id !in st.positions
    ensures
      var x := if depth in st.rows then st.rows[depth] else offsetX;
      var r := LayNode(nm, st, id, depth, offsetX);
      var spouse := SpouseIn(nm, id);
      && r.positions[id] == Pos(x, RowY(depth))
      && (spouse.Some? && spouse.value != id && spouse.value !in st.positions && spouse.value in nm ==>
            r.positions[spouse.value] == Pos(x + NodeWidth + PaddingX, RowY(depth)))
      && depth in r.rows
      && r.rows[depth] == x + Footprint(nm, id) + PaddingX
  {
    var x := SlotX(st, depth, offsetX);
    var st1 := Place(nm, st, id, depth, offsetX);
    LayChildrenFrame(nm, st1, ChildrenIn(nm, id), depth, x);
    var st2 := LayChildren(nm, st1, ChildrenIn(nm, id), depth, x);
    assert st2.rows[depth] == x;
  }

  // ---------------------------------------------------------------------
  // No two cards of a row overlap

  /** The depth a card's y belongs to. */
  function Row(y: int): nat
  {
    if y <= 0 then 0 else y / (NodeHeight + PaddingY)
  }

  lemma RowOfRowY(depth: nat)
    ensures Row(RowY(depth)) == depth
  {
  }

  /** For every depth from `lo` down, each card of that row ends, with a gap,
      at or before the row's ledger entry, so the next card placed there
      cannot overlap it. */
  ghost predicate RowBound(st: Ledger, lo: nat)
  {
    forall k :: k in st.positions && lo <= Row(st.positions[k].y) ==>
      Row(st.positions[k].y) in st.rows && st.positions[k].x + NodeWidth + PaddingX <= st.rows[Row(st.positions[k].y)]
  }

  /** Cards that share a y are at least one card and a gap apart. */
  ghost predicate NoOverlap(positions: map<Id, Pos>)
  {
    forall a, b :: a in positions && b in positions && a != b && positions[a].y == positions[b].y ==>
      positions[a].x + NodeWidth + PaddingX <= positions[b].x || positions[b].x + NodeWidth + PaddingX <= positions[a].x
  }

  /** Every card of row `depth` ends, with a gap, at or before `x`, or is
      the card at `x`, or (when `wide`) the spouse card one slot to its right. */
  ghost predicate RowFits(positions: map<Id, Pos>, depth: nat, x: int, wide: bool)
  {
    forall k :: k in positions && Row(positions[k].y) == depth ==>
      positions[k].x + NodeWidth + PaddingX <= x || positions[k].x == x || (wide && positions[k].x == x + NodeWidth + PaddingX)
  }

  /** Placing a person at the slot of a row whose bound holds (and the
      spouse one slot further right) keeps the cards apart, leaves the rows
      below bounded and the new row fitting around the slot. */
  lemma PlaceKeepsApart(nm: map<Id, Person>, st: Ledger, id: Id, depth: nat, offsetX: int)
    requires id !in st.positions
    requires RowBound(st, depth) && NoOverlap(st.positions)
    ensures var st1 := Place(nm, st, id, depth, offsetX);
      && NoOverlap(st1.positions)
      && RowBound(st1, depth + 1)
      && RowFits(st1.positions, depth, SlotX(st, depth, offsetX), SpouseIn(nm, id).Some?)
  {
    var x := SlotX(st, depth, offsetX);
    OldCardsLeftOfSlot(st, depth, x);
    PlaceNoOverlap(nm, st, id, depth, offsetX);
    PlaceRowBound(nm, st, id, depth, offsetX);
    PlaceRowFits(nm, st, id, depth, offsetX);
  }

  /** The new cards sit in row `depth`, so the rows below stay bounded. */
  lemma PlaceRowBound(nm: map<Id, Person>, st: Ledger, id: Id, depth: nat, offsetX: int)
    requires id !in st.positions
    requires RowBound(st, depth)
    ensures RowBound(Place(nm, st, id, depth, offsetX), depth + 1)
  {
    var st1 := Place(nm, st, id, depth, offsetX);
    RowOfRowY(depth);
    forall k | k in st1.positions && depth + 1 <= Row(st1.positions[k].y)
      ensures Row(st1.positions[k].y) in st1.rows && st1.positions[k].x + NodeWidth + PaddingX <= st1.rows[Row(st1.positions[k].y)]
    {
      assert k in st.positions;
    }
  }

  /** Row `depth` fits around the slot after placing. */
  lemma PlaceRowFits(nm: map<Id, Person>, st: Ledger, id: Id, depth: nat, offsetX: int)
    requires id !in st.positions
    requires RowBound(st, depth)
    ensures RowFits(Place(nm, st, id, depth, offsetX).positions, depth, SlotX(st, depth, offsetX), SpouseIn(nm, id).Some?)
  {
    var x := SlotX(st, depth, offsetX);
    var st1 := Place(nm, st, id, depth, offsetX);
    RowOfRowY(depth);
    forall k | k in st1.positions && Row(st1.positions[k].y) == depth
      ensures st1.positions[k].x + NodeWidth + PaddingX <= x || st1.positions[k].x == x || (SpouseIn(nm, id).Some? && st1.positions[k].x == x + NodeWidth + PaddingX)
    {
      if k in st.positions && k != id {
        assert st1.positions[k] == st.positions[k];
      }
    }
  }

  /** Under the row bound, every card already in row `depth` ends, with a
      gap, at or before the row's slot. */
  lemma OldCardsLeftOfSlot(st: Ledger, depth: nat, x: int)
    requires RowBound(st, depth)
    requires depth in st.rows ==> x == st.rows[depth]
    ensures forall k :: k in st.positions && st.positions[k].y == RowY(depth) ==> st.positions[k].x + NodeWidth + PaddingX <= x
  {
    forall k | k in st.positions && st.positions[k].y == RowY(depth)
      ensures st.positions[k].x + NodeWidth + PaddingX <= x
    {
      RowOfRowY(depth);
    }
  }

  lemma PlaceNoOverlap(nm: map<Id, Person>, st: Ledger, id: Id, depth: nat, offsetX: int)
    requires id !in st.positions && NoOverlap(st.positions)
    requires forall k :: k in st.positions && st.positions[k].y == RowY(depth) ==> st.positions[k].x + NodeWidth + PaddingX <= SlotX(st, depth, offsetX)
    ensures NoOverlap(Place(nm, st, id, depth, offsetX).positions)
  {
  }

  /** Cards added deeper down do not disturb a row that fits. */
  lemma FitsCarry(p: map<Id, Pos>, q: map<Id, Pos>, depth: nat, x: int, wide: bool)
    requires RowFits(p, depth, x, wide) && Preserves(p, q) && AddedFrom(p, q, depth + 1)
    ensures RowFits(q, depth, x, wide)
  {
  }

  /** Lines 75-76 restore the bound of the person's row. */
  lemma CloseRowBound(nm: map<Id, Person>, st: Ledger, id: Id, depth: nat, x: int)
    requires depth in st.rows && st.rows[depth] == x
    requires RowBound(st, depth + 1) && RowFits(st.positions, depth, x, SpouseIn(nm, id).Some?)
    ensures RowBound(CloseRow(nm, st, id, depth, x), depth)
  {
  }

  /** Filling in or raising the ledger entry of one row keeps the bound. */
  lemma RaiseKeepsBound(st: Ledger, lo: nat, d0: nat, v: int)
    requires RowBound(st, lo)
    requires d0 in st.rows ==> st.rows[d0] <= v
    ensures RowBound(SetRow(st, d0, v), lo)
  {
  }

  lemma {:induction false} LayNodeKeepsApart(nm: map<Id, Person>, st: Ledger, id: Id, depth: nat, offsetX: int)
    requires RowBound(st, depth) && NoOverlap(st.positions)
    ensures var r := LayNode(nm, st, id, depth, offsetX); RowBound(r, depth) && NoOverlap(r.positions)
    decreases Universe(nm) + {id} - st.positions.Keys, 0, 0
  {
    if id !in st.positions {
      var x := SlotX(st, depth, offsetX);
      var st1 := Place(nm, st, id, depth, offsetX);
      var children := ChildrenIn(nm, id);
      PlaceKeepsApart(nm, st, id, depth, offsetX);
      ChildrenInUniverse(nm, id);
      NodeMeasureDrops(Universe(nm), Elems(children), id, st.positions.Keys, st1.positions.Keys);
      LayChildrenKeepsApart(nm, st1, children, depth, x);
      LayChildrenFrame(nm, st1, children, depth, x);
      var st2 := LayChildren(nm, st1, children, depth, x);
      assert st2.rows[depth] == x;
      FitsCarry(st1.positions, st2.positions, depth, x, SpouseIn(nm, id).Some?);
      CloseRowBound(nm, st2, id, depth, x);
    }
  }

  lemma {:induction false} LayChildrenKeepsApart(nm: map<Id, Person>, st: Ledger, cids: seq<Id>, depth: nat, childOffset: int)
    requires RowBound(st, depth + 1) && NoOverlap(st.positions)
    ensures var r := LayChildren(nm, st, cids, depth, childOffset); RowBound(r, depth + 1) && NoOverlap(r.positions)
    decreases Universe(nm) + Elems(cids) - st.positions.Keys, 1, |cids|
  {
    if cids != [] {
      FirstChildMeasure(Universe(nm), cids, st.positions.Keys);
      LayNodeKeepsApart(nm, st, cids[0], depth + 1, childOffset);
      var st1 := LayNode(nm, st, cids[0], depth + 1, childOffset);
      var next := NextOffset(st1, depth, childOffset);
      RaiseKeepsBound(st1, depth + 1, depth + 1, next);
      RestMeasure(Universe(nm), cids, st.positions.Keys, st1.positions.Keys);
      LayChildrenKeepsApart(nm, SetRow(st1, depth + 1, next), cids[1..], depth, next);
    }
  }

  /** Laying out a whole forest keeps every row's cards apart and never
      lowers a ledger entry. */
  lemma {:induction false} LayRootsKeepsApart(nm: map<Id, Person>, st: Ledger, roots: seq<Id>, startX: int)
    requires RowBound(st, 0) && NoOverlap(st.positions)
    ensures var r := LayRoots(nm, st, roots, startX); RowBound(r, 0) && NoOverlap(r.positions) && RowsGrow(st.rows, r.rows)
    decreases |roots|
  {
    if roots != [] {
      LayNodeKeepsApart(nm, st, roots[0], 0, startX);
      LayNodeFrame(nm, st, roots[0], 0, startX);
      var st1 := LayNode(nm, st, roots[0], 0, startX);
      LayRootsKeepsApart(nm, st1, roots[1..], NextStart(st1.rows, startX));
      RowsGrowTrans(st.rows, st1.rows, LayRoots(nm, st1, roots[1..], NextStart(st1.rows, startX)).rows);
    }
  }

  // ---------------------------------------------------------------------
  // The in-place layout

  class ForestLayout {
    const nodeMap: map<Id, Person>
    var positions: map<Id, Pos>
    var rowWidths: map<nat, int>

    function State(): Ledger
      reads this
    {
      Ledger(positions, rowWidths)
    }

    constructor (nodeMap: map<Id, Person>)
      ensures this.nodeMap == nodeMap && State() == EmptyLedger
    {
      this.nodeMap := nodeMap;
      positions := map[];
      rowWidths := map[];
    }

    /** Lines 57-66: the cards of a person not yet placed and of their
        spouse; returns the person's x. */
    method PlaceCards(id: Id, depth: nat, offsetX: int) returns (x: int)
      requires id !in positions
      modifies this
      ensures x == SlotX(old(State()), depth, offsetX)
      ensures State() == Place(nodeMap, old(State()), id, depth, offsetX)
    {
      if depth !in rowWidths {
        rowWidths := rowWidths[depth := offsetX];
      }
      x := rowWidths[depth];
      var y := RowY(depth);
      positions := positions[id := Pos(x, y)];
      var spouse := SpouseIn(nodeMap, id);
      if spouse.Some? && spouse.value !in positions && spouse.value in nodeMap {
        positions := positions[spouse.value := Pos(x + NodeWidth + PaddingX, y)];
      }
    }

    /** `layoutTree(id, depth, offsetX)`. */
    method LayoutTree(id: Id, depth: nat, offsetX: int)
      modifies this
      ensures State() == LayNode(nodeMap, old(State()), id, depth, offsetX)
      decreases Universe(nodeMap) + {id} - positions.Keys, 0
    {
      if id in positions {
        return;
      }
      ghost var st0 := State();
      var x := PlaceCards(id, depth, offsetX);
      var spouse := SpouseIn(nodeMap, id);
      var children := ChildrenIn(nodeMap, id);
      ChildrenInUniverse(nodeMap, id);
      NodeMeasureDrops(Universe(nodeMap), Elems(children), id, st0.positions.Keys, positions.Keys);
      LayoutChildren(children, depth, x);
      var widthUsed := if spouse.Some? then NodeWidth * 2 + PaddingX else NodeWidth;
      rowWidths := rowWidths[depth := Max(rowWidths[depth], x + widthUsed + PaddingX)];
    }

    /** The `forEach` of lines 68-73 over the children of a person laid out
        at `depth`. */
    method LayoutChildren(children: seq<Id>, depth: nat, x: int)
      modifies this
      ensures State() == LayChildren(nodeMap, old(State()), children, depth, x)
      decreases Universe(nodeMap) + Elems(children) - positions.Keys, 1
    {
      ghost var goal := LayChildren(nodeMap, State(), children, depth, x);
      ghost var entry := positions.Keys;
      var childOffset := x;
      var i := 0;
      while i < |children|
        invariant 0 <= i <= |children|
        invariant entry <= positions.Keys
        invariant LayChildren(nodeMap, State(), children[i..], depth, childOffset) == goal
      {
        MeasureWithin(Universe(nodeMap), children, i, entry, positions.Keys);
        ghost var before := State();
        ghost var offset := childOffset;
        LayoutTree(children[i], depth + 1, childOffset);
        ghost var after := State();
        KeysGrow(before.positions, after.positions);
        childOffset := NextOffset(State(), depth, childOffset);
        rowWidths := rowWidths[depth + 1 := childOffset];
        LayChildrenStep(nodeMap, before, children, i, depth, offset, after, childOffset);
        assert State() == SetRow(after, depth + 1, childOffset);
        i := i + 1;
      }
    }

    /** The root loop: each root tree at depth 0, every `startX` after the
        first taken from the widest ledger entry. */
    method LayoutForest(rootIds: seq<Id>)
      modifies this
      ensures State() == LayRoots(nodeMap, old(State()), rootIds, StartX)
    {
      var startX := StartX;
      var i := 0;
      while i < |rootIds|
        invariant 0 <= i <= |rootIds|
        invariant LayRoots(nodeMap, State(), rootIds[i..], startX) == LayRoots(nodeMap, old(State()), rootIds, StartX)
      {
        ghost var before := State();
        ghost var start := startX;
        LayoutTree(rootIds[i], 0, startX);
        var maxRow := MaxRowWidth(rowWidths);
        startX := (if maxRow.Some? then maxRow.value else startX) + PaddingX * 2;
        MaxRowWidthIsNextStart(rowWidths, maxRow, start, startX);
        LayRootsStep(nodeMap, before, rootIds, i, start, State());
        i := i + 1;
      }
    }
  }

  /** `Math.max(...rowWidths.filter(v => v !== undefined))`, with None for
      the -Infinity of an empty ledger (the case `isFinite` rejects). */
  method MaxRowWidth(rows: map<nat, int>) returns (m: Option<int>)
    ensures m.None? <==> rows == map[]
    ensures m.Some? ==> (forall d :: d in rows ==> rows[d] <= m.value) && (exists d :: d in rows && rows[d] == m.value)
  {
    if rows == map[] {
      return None;
    }
    var left := rows.Keys;
    var d :| d in left;
    var best := rows[d];
    left := left - {d};
    while left != {}
      invariant left <= rows.Keys
      invariant forall e :: e in rows && e !in left ==> rows[e] <= best
      invariant exists e :: e in rows && rows[e] == best
      decreases left
    {
      var e :| e in left;
      best := Max(best, rows[e]);
      left := left - {e};
    }
    m := Some(best);
  }

  /** The `startX` the root loop computes from MaxRowWidth is NextStart. */
  lemma MaxRowWidthIsNextStart(rows: map<nat, int>, m: Option<int>, startX: int, next: int)
    requires m.None? <==> rows == map[]
    requires m.Some? ==> (forall d :: d in rows ==> rows[d] <= m.value) && (exists d :: d in rows && rows[d] == m.value)
    requires next == (if m.Some? then m.value else startX) + PaddingX * 2
    ensures next == NextStart(rows, startX)
  {
  }

  /** The positions `renderTree` computes for `data` from the given roots. */
  ghost function ForestPositions(nm: map<Id, Person>, roots: seq<Id>): map<Id, Pos>
  {
    LayRoots(nm, EmptyLedger, roots, StartX).positions
  }

  /** Lines 47-84: a fresh layout of the forest from its roots. Every root is
      placed and no two cards of one row overlap. */
  method LayoutRoots(nm: map<Id, Person>, roots: seq<Id>) returns (positions: map<Id, Pos>)
    ensures positions == ForestPositions(nm, roots)
    ensures forall k :: k in roots ==> k in positions
    ensures NoOverlap(positions)
  {
    var layout := new ForestLayout(nm);
    layout.LayoutForest(roots);
    positions := layout.positions;
    LayRootsKeepsApart(nm, EmptyLedger, roots, StartX);
  }
}
