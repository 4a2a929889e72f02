/** Small forests worked through end to end: roots, positions, connectors
    and cards. */
module Scenarios {
  import opened Records
  import opened RootSelection
  import opened Layout
  import opened Connectors
  import opened Cards

  const SingleD := Person("D", None, None, None, None, None, [])
  const SingleE := Person("E", None, None, None, None, None, [])
  const SinglesData := [SingleD, SingleE]

  /** Two people without relations are both roots, in data order. */
  lemma SinglesRoots()
    ensures Roots(SinglesData) == ["D", "E"]
  {
    var data := SinglesData;
    assert !IsChild(data, "D") && !IsChild(data, "E");
    var ids := ["D", "E"];
    assert AllIds(data) == ids;
    assert ids[1..] == ["E"] && ids[1..][1..] == [];
    assert Candidates(data) == ids;
    var nm := SinglesNodeMap();
    SinglesLookupRoots(Lookup(nm, ids, ids));
  }

  lemma SinglesNodeMap() returns (nm: map<Id, Person>)
    ensures NodeMap(SinglesData) == nm == map["D" := SingleD, "E" := SingleE]
  {
    assert SinglesData[..1] == [SingleD] && SinglesData[..1][..0] == [];
    nm := map["D" := SingleD, "E" := SingleE];
  }

  lemma SinglesLookupRoots(lk: Lookup)
    requires lk == Lookup(map["D" := SingleD, "E" := SingleE], ["D", "E"], ["D", "E"])
    ensures RootsUpTo(lk, 2) == ["D", "E"]
  {
    assert Chosen(lk, "D") == "D" && Chosen(lk, "E") == "E";
    assert RootsUpTo(lk, 1) == ["D"];
  }

  /** The root loop over the two: D at the start, E one gap past D's card
      (the ledger of the top row, not the `startX` of 380 the loop passes). */
  lemma SinglesLayout(nm: map<Id, Person>)
    requires nm == map["D" := SingleD, "E" := SingleE]
    ensures ForestPositions(nm, ["D", "E"]) == map["D" := Pos(50, 0), "E" := Pos(260, 0)]
  {
    var p1 := Place(nm, EmptyLedger, "D", 0, 50);
    assert p1 == Ledger(map["D" := Pos(50, 0)], map[0 := 50]);
    var st1 := LayNode(nm, EmptyLedger, "D", 0, 50);
    assert ChildrenIn(nm, "D") == [] && SlotX(EmptyLedger, 0, 50) == 50;
    assert LayChildren(nm, p1, [], 0, 50) == p1;
    assert st1 == Ledger(map["D" := Pos(50, 0)], map[0 := 260]);
    assert NextStart(st1.rows, 50) == 380;
    var p2 := Place(nm, st1, "E", 0, 380);
    assert p2 == Ledger(map["D" := Pos(50, 0), "E" := Pos(260, 0)], map[0 := 260]);
    var st2 := LayNode(nm, st1, "E", 0, 380);
    assert ChildrenIn(nm, "E") == [] && SlotX(st1, 0, 380) == 260;
    assert LayChildren(nm, p2, [], 0, 260) == p2;
    assert LayRoots(nm, EmptyLedger, ["D", "E"], 50) == LayRoots(nm, st1, ["E"], 380);
    assert LayRoots(nm, st1, ["E"], 380) == LayRoots(nm, st2, [], NextStart(st2.rows, 380));
  }

  /** Both are in the top row, the second one slot right of the first one's
      footprint, and there are no connectors. */
  lemma TwoSingles()
    ensures var pos := ForestPositions(NodeMap(SinglesData), Roots(SinglesData));
      && pos == map["D" := Pos(50, 0), "E" := Pos(260, 0)]
      && AllConnectors(SinglesData, pos) == []
  {
    SinglesRoots();
    var nm := SinglesNodeMap();
    SinglesLayout(nm);
    var pos := map["D" := Pos(50, 0), "E" := Pos(260, 0)];
    var data := SinglesData;
    assert data[1..] == [SingleE] && data[1..][1..] == [];
    assert RecordConnectors(SingleD, pos) == [] && RecordConnectors(SingleE, pos) == [];
    assert AllConnectors(data[1..], pos) == RecordConnectors(SingleE, pos) + AllConnectors([], pos);
  }

  const CoupleA := Person("A", Some("A"), None, None, None, Some("B"), ["C"])
  const CoupleB := Person("B", Some("B"), None, None, None, Some("A"), [])
  const CoupleC := Person("C", Some("C"), None, None, None, None, [])
  const CoupleData := [CoupleA, CoupleB, CoupleC]

  /** A couple with one child: A is the only root. */
  lemma CoupleWithChildRoots()
    ensures Roots(CoupleData) == ["A"]
  {
    var cands := CoupleCandidates();
    var nm := CoupleNodeMap();
    var lk := Lookup(nm, ["A", "B", "C"], cands);
    assert LookupOf(CoupleData) == lk;
    CoupleLookupRoots(lk);
  }

  /** The root loop over the couple's lookups keeps A and skips B. */
  lemma CoupleLookupRoots(lk: Lookup)
    requires lk == Lookup(map["A" := CoupleA, "B" := CoupleB, "C" := CoupleC], ["A", "B", "C"], ["A", "B"])
    ensures RootsUpTo(lk, 2) == ["A"]
  {
    assert SpouseIn(lk.nodeMap, "A") == Some("B") && SpouseIn(lk.nodeMap, "B") == Some("A");
    assert "B" in lk.allIds && lk.allIds[0] == "A";
    assert IndexOf(lk.allIds, "A") == 0;
    assert IndexOf(lk.allIds, "B") > 0;
    assert Chosen(lk, "A") == "A" && Chosen(lk, "B") == "A";
    assert RootsUpTo(lk, 1) == ["A"];
  }

  /** The candidates of the couple scenario: the two partners. */
  lemma CoupleCandidates() returns (cands: seq<Id>)
    ensures Candidates(CoupleData) == cands == ["A", "B"]
  {
    var data := CoupleData;
    assert IsChild(data, "C") by {
      assert "C" in data[0].children;
    }
    assert !IsChild(data, "A") && !IsChild(data, "B");
    var ids := ["A", "B", "C"];
    assert AllIds(data) == ids;
    assert ids[1..] == ["B", "C"] && ids[1..][1..] == ["C"] && ids[1..][1..][1..] == [];
    assert Filter(["C"], data) == [];
    assert Filter(["B", "C"], data) == ["B"];
    cands := ["A", "B"];
  }

  /** The lookup table of the couple scenario. */
  lemma CoupleNodeMap() returns (nm: map<Id, Person>)
    ensures NodeMap(CoupleData) == nm == map["A" := CoupleA, "B" := CoupleB, "C" := CoupleC]
  {
    var data := CoupleData;
    assert data[..2] == [CoupleA, CoupleB] && data[..2][..1] == [CoupleA] && data[..2][..1][..0] == [];
    assert NodeMap([CoupleA]) == map["A" := CoupleA];
    assert NodeMap([CoupleA, CoupleB]) == map["A" := CoupleA, "B" := CoupleB];
    nm := map["A" := CoupleA, "B" := CoupleB, "C" := CoupleC];
  }

  /** B is placed right of A and C below A (at A's x, not under the
      couple's midpoint). */
  lemma CoupleWithChildLayout()
    ensures ForestPositions(NodeMap(CoupleData), Roots(CoupleData)) == map["A" := Pos(50, 0), "B" := Pos(260, 0), "C" := Pos(50, 290)]
  {
    CoupleWithChildRoots();
    var nm := CoupleNodeMap();
    CoupleLayout(nm);
  }

  /** The root loop from A alone. */
  lemma CoupleLayout(nm: map<Id, Person>)
    requires nm == map["A" := CoupleA, "B" := CoupleB, "C" := CoupleC]
    ensures ForestPositions(nm, ["A"]) == map["A" := Pos(50, 0), "B" := Pos(260, 0), "C" := Pos(50, 290)]
  {
    var p1 := Place(nm, EmptyLedger, "A", 0, 50);
    assert p1 == Ledger(map["A" := Pos(50, 0), "B" := Pos(260, 0)], map[0 := 50]);
    var c1 := Place(nm, p1, "C", 1, 50);
    assert c1 == Ledger(map["A" := Pos(50, 0), "B" := Pos(260, 0), "C" := Pos(50, 290)], map[0 := 50, 1 := 50]);
    assert ChildrenIn(nm, "C") == [] && LayChildren(nm, c1, [], 1, 50) == c1;
    var c2 := LayNode(nm, p1, "C", 1, 50);
    assert c2 == Ledger(c1.positions, map[0 := 50, 1 := 260]);
    assert NextOffset(c2, 0, 50) == 470;
    var s3 := SetRow(c2, 1, 470);
    assert LayChildren(nm, s3, [], 0, 470) == s3;
    assert ["C"][1..] == [];
    assert LayChildren(nm, p1, ["C"], 0, 50) == s3;
    var st := LayNode(nm, EmptyLedger, "A", 0, 50);
    assert st == CloseRow(nm, s3, "A", 0, 50);
    assert LayRoots(nm, EmptyLedger, ["A"], 50) == LayRoots(nm, st, [], NextStart(st.rows, 50));
  }

  /** Its connectors: one spouse line A-B, one trunk under the couple and one
      path to C, all drawn by A's record. */
  lemma CoupleWithChildConnectors()
    ensures var pos := ForestPositions(NodeMap(CoupleData), Roots(CoupleData));
      var cs := AllConnectors(CoupleData, pos);
      && CountKind(cs, SpouseLine) == 1 && CountKind(cs, Trunk) == 1 && CountKind(cs, ChildPath) == 1
      && |cs| == 3
  {
    CoupleWithChildLayout();
    CoupleConnectors(map["A" := Pos(50, 0), "B" := Pos(260, 0), "C" := Pos(50, 290)]);
  }

  /** The connectors of the couple at its computed positions. */
  lemma CoupleConnectors(pos: map<Id, Pos>)
    requires pos == map["A" := Pos(50, 0), "B" := Pos(260, 0), "C" := Pos(50, 290)]
    ensures var cs := AllConnectors(CoupleData, pos);
      && CountKind(cs, SpouseLine) == 1 && CountKind(cs, Trunk) == 1 && CountKind(cs, ChildPath) == 1
      && |cs| == 3
  {
    var data := CoupleData;
    assert IdLess("A", "B");
    assert !IdLess("B", "A");
    var a := data[0];
    assert DrawsSpouseLine(a, pos) && DrawsChildren(a, pos);
    assert ChildPaths(a, pos, ["C"]) == [ChildPathOf(a, pos, "C")] by {
      assert ["C"][1..] == [];
    }
    assert RecordConnectors(data[1], pos) == [];
    assert RecordConnectors(data[2], pos) == [];
    assert data[1..][1..][1..] == [];
    assert AllConnectors(data[1..][1..], pos) == [];
    assert AllConnectors(data, pos) == RecordConnectors(a, pos) + [] + [] + [];
    assert RecordConnectors(a, pos) + [] + [] + [] == RecordConnectors(a, pos);
    SpouseLineRule(a, pos);
    TrunkRule(a, pos);
    ChildPathRule(a, pos);
    assert CountPositioned(["C"], pos) == 1;
    var cs := AllConnectors(data, pos);
    assert CountKind(cs, SpouseLine) == 1 && CountKind(cs, Trunk) == 1 && CountKind(cs, ChildPath) == 1;
    assert RecordConnectors(a, pos) == SpouseLineOf(a, pos) + [TrunkOf(a, pos)] + [ChildPathOf(a, pos, "C")];
  }

  const DanglingA := Person("A", Some("Ann"), None, None, None, None, ["Z"])
  const DanglingData := [DanglingA]

  /** A record whose child id has no record of its own is the only root. */
  lemma DanglingRoots()
    ensures Roots(DanglingData) == ["A"]
  {
    var data := DanglingData;
    assert !IsChild(data, "A");
    assert AllIds(data) == ["A"] && ["A"][1..] == [];
    assert Candidates(data) == ["A"];
    var nm := DanglingNodeMap();
    var lk := Lookup(nm, ["A"], ["A"]);
    assert LookupOf(data) == lk;
    assert Chosen(lk, "A") == "A";
    assert RootsUpTo(lk, 1) == Step(lk, [], "A") == ["A"];
  }

  lemma DanglingNodeMap() returns (nm: map<Id, Person>)
    ensures NodeMap(DanglingData) == nm == map["A" := DanglingA]
  {
    assert DanglingData[..0] == [];
    nm := map["A" := DanglingA];
  }

  /** A at the start, its dangling child Z one row below at A's x. */
  lemma DanglingLayout(nm: map<Id, Person>)
    requires nm == map["A" := DanglingA]
    ensures ForestPositions(nm, ["A"]) == map["A" := Pos(50, 0), "Z" := Pos(50, 290)]
  {
    var p1 := Place(nm, EmptyLedger, "A", 0, 50);
    assert p1 == Ledger(map["A" := Pos(50, 0)], map[0 := 50]);
    var z1 := Place(nm, p1, "Z", 1, 50);
    assert z1 == Ledger(map["A" := Pos(50, 0), "Z" := Pos(50, 290)], map[0 := 50, 1 := 50]);
    assert ChildrenIn(nm, "Z") == [] && LayChildren(nm, z1, [], 1, 50) == z1;
    var z2 := LayNode(nm, p1, "Z", 1, 50);
    var s3 := SetRow(z2, 1, NextOffset(z2, 0, 50));
    assert LayChildren(nm, s3, [], 0, NextOffset(z2, 0, 50)) == s3;
    assert ["Z"][1..] == [];
    assert LayChildren(nm, p1, ["Z"], 0, 50) == s3;
    var st := LayNode(nm, EmptyLedger, "A", 0, 50);
    assert st == CloseRow(nm, s3, "A", 0, 50);
    assert LayRoots(nm, EmptyLedger, ["A"], 50) == LayRoots(nm, st, [], NextStart(st.rows, 50));
  }

  /** A child id without a record is still laid out, below its parent, and
      gets the placeholder card. */
  lemma DanglingChild()
    ensures var pos := ForestPositions(NodeMap(DanglingData), Roots(DanglingData));
      && pos == map["A" := Pos(50, 0), "Z" := Pos(50, 290)]
      && AllCards(NodeMap(DanglingData), pos)["Z"] == Card("Z", Pos(50, 290), "Z", DefaultPhoto, "")
  {
    DanglingRoots();
    var nm := DanglingNodeMap();
    DanglingLayout(nm);
    assert "Z" !in nm;
  }

  const LostR1 := Person("R1", None, None, None, None, Some("X"), [])
  const LostR2 := Person("R2", None, None, None, None, None, ["X"])
  const LostX := Person("X", None, None, None, None, None, ["Y"])
  const LostData := [LostR1, LostR2, LostX]

  /** R1 names X as spouse and R2 lists X as a child, so R1 and R2 are the
      roots (X is a child), in data order. */
  lemma LostRoots()
    ensures Roots(LostData) == ["R1", "R2"]
  {
    var cands := LostCandidates();
    var nm := LostNodeMap();
    var lk := Lookup(nm, ["R1", "R2", "X"], cands);
    assert LookupOf(LostData) == lk;
    LostLookupRoots(lk);
  }

  lemma LostCandidates() returns (cands: seq<Id>)
    ensures Candidates(LostData) == cands == ["R1", "R2"]
  {
    var data := LostData;
    assert IsChild(data, "X") by {
      assert "X" in data[1].children;
    }
    assert !IsChild(data, "R1") && !IsChild(data, "R2");
    var ids := ["R1", "R2", "X"];
    assert AllIds(data) == ids;
    assert ids[1..] == ["R2", "X"] && ids[1..][1..] == ["X"] && ids[1..][1..][1..] == [];
    assert Filter(["X"], data) == [];
    assert Filter(["R2", "X"], data) == ["R2"];
    cands := ["R1", "R2"];
  }

  lemma LostNodeMap() returns (nm: map<Id, Person>)
    ensures NodeMap(LostData) == nm == map["R1" := LostR1, "R2" := LostR2, "X" := LostX]
  {
    var data := LostData;
    assert data[..2] == [LostR1, LostR2] && data[..2][..1] == [LostR1] && data[..2][..1][..0] == [];
    assert NodeMap([LostR1]) == map["R1" := LostR1];
    assert NodeMap([LostR1, LostR2]) == map["R1" := LostR1, "R2" := LostR2];
    nm := map["R1" := LostR1, "R2" := LostR2, "X" := LostX];
  }

  lemma LostLookupRoots(lk: Lookup)
    requires lk == Lookup(map["R1" := LostR1, "R2" := LostR2, "X" := LostX], ["R1", "R2", "X"], ["R1", "R2"])
    ensures RootsUpTo(lk, 2) == ["R1", "R2"]
  {
    assert SpouseIn(lk.nodeMap, "R1") == Some("X") && "X" !in lk.candidates;
    assert Chosen(lk, "R1") == "R1" && Chosen(lk, "R2") == "R2";
    assert RootsUpTo(lk, 1) == ["R1"];
  }

  /** The root loop: R1 and its spouse X in the top row; R2 after them, where
      its child X is found placed already. */
  lemma LostLayout(nm: map<Id, Person>)
    requires nm == map["R1" := LostR1, "R2" := LostR2, "X" := LostX]
    ensures ForestPositions(nm, ["R1", "R2"]) == map["R1" := Pos(50, 0), "X" := Pos(260, 0), "R2" := Pos(470, 0)]
  {
    var p1 := Place(nm, EmptyLedger, "R1", 0, 50);
    assert p1 == Ledger(map["R1" := Pos(50, 0), "X" := Pos(260, 0)], map[0 := 50]);
    assert ChildrenIn(nm, "R1") == [] && LayChildren(nm, p1, [], 0, 50) == p1;
    var st1 := LayNode(nm, EmptyLedger, "R1", 0, 50);
    assert st1 == Ledger(p1.positions, map[0 := 470]);
    assert NextStart(st1.rows, 50) == 590;
    var p2 := Place(nm, st1, "R2", 0, 590);
    assert p2 == Ledger(map["R1" := Pos(50, 0), "X" := Pos(260, 0), "R2" := Pos(470, 0)], map[0 := 470]);
    assert LayNode(nm, p2, "X", 1, 470) == p2;
    var s3 := SetRow(p2, 1, 680);
    assert NextOffset(p2, 0, 470) == 680;
    assert ["X"][1..] == [];
    assert LayChildren(nm, s3, [], 0, 680) == s3;
    assert LayChildren(nm, p2, ["X"], 0, 470) == s3;
    var st2 := LayNode(nm, st1, "R2", 0, 590);
    assert st2 == CloseRow(nm, s3, "R2", 0, 470);
    assert LayRoots(nm, EmptyLedger, ["R1", "R2"], 50) == LayRoots(nm, st1, ["R2"], 590);
    assert LayRoots(nm, st1, ["R2"], 590) == LayRoots(nm, st2, [], NextStart(st2.rows, 590));
  }

  /** A person reachable from a root can stay unplaced: X gets its card as
      R1's spouse, so when R2's tree reaches X as a child the layout stops
      there, and X's child Y never gets a position. X's record still draws a
      trunk, with no child path below it. */
  lemma LostGrandchild()
    ensures var nm := NodeMap(LostData);
      var pos := ForestPositions(nm, Roots(LostData));
      && pos == map["R1" := Pos(50, 0), "X" := Pos(260, 0), "R2" := Pos(470, 0)]
      && "Y" in ChildrenIn(nm, "X") && "Y" !in pos
      && RecordConnectors(LostX, pos) == [TrunkOf(LostX, pos)]
  {
    LostRoots();
    var nm := LostNodeMap();
    LostLayout(nm);
    LostTrunk(map["R1" := Pos(50, 0), "X" := Pos(260, 0), "R2" := Pos(470, 0)]);
  }

  /** At those positions X draws its trunk and, Y being unplaced, nothing
      else. */
  lemma LostTrunk(pos: map<Id, Pos>)
    requires pos == map["R1" := Pos(50, 0), "X" := Pos(260, 0), "R2" := Pos(470, 0)]
    ensures RecordConnectors(LostX, pos) == [TrunkOf(LostX, pos)]
  {
    assert !HasSpouse(LostX, pos) && DrawsChildren(LostX, pos) && !DrawsSpouseLine(LostX, pos);
    assert ["Y"][1..] == [];
    assert ChildPaths(LostX, pos, ["Y"]) == [];
  }
}
