/** Root selection (`renderTree`, the candidate filter and the `forEach`
    that fills `rootSet`): the ids that are nobody's child, with a couple of
    such ids collapsed to the partner that comes first in the data. */
module RootSelection {
  import opened Records

  /** `childIds.has(c)`, where `childIds` is
      `new Set(data.flatMap(d => d.children || []))`: some record lists `c`
      as a child. */
  predicate IsChild(data: seq<Person>, c: Id)
  {
    exists i :: 0 <= i < |data| && c in data[i].children
  }

  /** `data.map(d => d.id).filter(id => !childIds.has(id))`, in data order. */
  function Candidates(data: seq<Person>): (cs: seq<Id>)
    ensures forall c :: c in cs <==> c in AllIds(data) && !IsChild(data, c)
  {
    Filter(AllIds(data), data)
  }

  function Filter(ids: seq<Id>, data: seq<Person>): (cs: seq<Id>)
    ensures forall c :: c in cs <==> c in ids && !IsChild(data, c)
    ensures |cs| <= |ids|
  {
    if ids == [] then []
    else if IsChild(data, ids[0]) then Filter(ids[1..], data)
    else [ids[0]] + Filter(ids[1..], data)
  }

  /** `Array.prototype.indexOf`: the first index of `x`, or -1. */
  function IndexOf(s: seq<Id>, x: Id): (r: int)
    ensures r == -1 <==> x !in s
    ensures 0 <= r ==> r < |s| && s[r] == x && forall j :: 0 <= j < r ==> s[j] != x
    ensures -1 <= r
  {
    if s == [] then -1
    else if s[0] == x then 0
    else
      var r := IndexOf(s[1..], x);
      if r == -1 then -1 else r + 1
  }

  /** What the root loop looks ids up in: `nodeMap`, `allIds` and
      `candidateRoots`. */
  datatype Lookup = Lookup(nodeMap: map<Id, Person>, allIds: seq<Id>, candidates: seq<Id>)

  function LookupOf(data: seq<Person>): Lookup
  {
    Lookup(NodeMap(data), AllIds(data), Candidates(data))
  }

  /** The root a candidate contributes (lines 37-43): when its spouse is a
      candidate too, whichever of the two comes first in the data; else
      itself. */
  function Chosen(lk: Lookup, id: Id): Id
  {
    var spouse := SpouseIn(lk.nodeMap, id);
    if spouse.Some? && spouse.value in lk.candidates then
      if IndexOf(lk.allIds, id) <= IndexOf(lk.allIds, spouse.value) then id else spouse.value
    else id
  }

  /** `Set.prototype.add` on an insertion-ordered set. */
  function Insert(acc: seq<Id>, x: Id): (r: seq<Id>)
    ensures x in r && forall y :: y in r <==> y in acc || y == x
  {
    if x in acc then acc else acc + [x]
  }

  /** One pass of the `forEach` (lines 34-44). */
  function Step(lk: Lookup, acc: seq<Id>, id: Id): seq<Id>
  {
    if id in acc then acc else Insert(acc, Chosen(lk, id))
  }

  /** A step keeps `rootSet` as a prefix and appends at most one id: the
      choice of the candidate, unless the candidate is already a root. */
  lemma StepSpec(lk: Lookup, acc: seq<Id>, id: Id)
    ensures acc <= Step(lk, acc, id) && |Step(lk, acc, id)| <= |acc| + 1
    ensures forall y :: y in Step(lk, acc, id) <==> y in acc || (id !in acc && y == Chosen(lk, id))
  {
  }

  /** `rootSet` after the first `n` candidates. */
  function RootsUpTo(lk: Lookup, n: nat): seq<Id>
    requires n <= |lk.candidates|
  {
    if n == 0 then [] else Step(lk, RootsUpTo(lk, n - 1), lk.candidates[n - 1])
  }

  /** Each candidate adds at most one root, so there are never more roots
      than candidates seen. */
  lemma {:induction false} RootsUpToBound(lk: Lookup, n: nat)
    requires n <= |lk.candidates|
    ensures |RootsUpTo(lk, n)| <= n
  {
    if n > 0 {
      RootsUpToBound(lk, n - 1);
      StepSpec(lk, RootsUpTo(lk, n - 1), lk.candidates[n - 1]);
    }
  }

  /** `rootIds` (line 45). */
  function Roots(data: seq<Person>): seq<Id>
  {
    RootsUpTo(LookupOf(data), |Candidates(data)|)
  }

  predicate NoDup(s: seq<Id>)
  {
    forall i, j :: 0 <= i < j < |s| ==> s[i] != s[j]
  }

  /** Lines 27-33, then the root loop. */
  method SelectRoots(data: seq<Person>) returns (rootIds: seq<Id>)
    ensures rootIds == Roots(data)
  {
    var nodeMap := NodeMap(data);
    var allIds := AllIds(data);
    var candidateRoots := Candidates(data);
    rootIds := FillRootSet(nodeMap, allIds, candidateRoots);
  }

  /** Lines 34-45, in place: the loop over the candidates, adding into
      `rootSet`. */
  method FillRootSet(nodeMap: map<Id, Person>, allIds: seq<Id>, candidateRoots: seq<Id>) returns (rootSet: seq<Id>)
    ensures rootSet == RootsUpTo(Lookup(nodeMap, allIds, candidateRoots), |candidateRoots|)
  {
    ghost var lk := Lookup(nodeMap, allIds, candidateRoots);
    rootSet := [];
    var i := 0;
    while i < |candidateRoots|
      invariant 0 <= i <= |candidateRoots|
      invariant rootSet == RootsUpTo(lk, i)
    {
      var id := candidateRoots[i];
      if id !in rootSet {
        var spouseId := SpouseIn(nodeMap, id);
        if spouseId.Some? && spouseId.value in candidateRoots {
          var idxA := IndexOf(allIds, id);
          var idxB := IndexOf(allIds, spouseId.value);
          rootSet := Insert(rootSet, if idxA <= idxB then id else spouseId.value);
        } else {
          rootSet := Insert(rootSet, id);
        }
      }
      i := i + 1;
    }
  }

  /** The choice for a candidate is a candidate. */
  lemma ChosenIsCandidate(lk: Lookup, id: Id)
    requires id in lk.candidates
    ensures Chosen(lk, id) in lk.candidates
  {
  }

  lemma InsertNoDup(acc: seq<Id>, x: Id)
    requires NoDup(acc)
    ensures NoDup(Insert(acc, x))
  {
  }

  /** The roots so far have no duplicates. */
  lemma {:induction false} RootsUpToNoDup(lk: Lookup, n: nat)
    requires n <= |lk.candidates|
    ensures NoDup(RootsUpTo(lk, n))
  {
    if n > 0 {
      RootsUpToNoDup(lk, n - 1);
      InsertNoDup(RootsUpTo(lk, n - 1), Chosen(lk, lk.candidates[n - 1]));
    }
  }

  /** Every root so far is the choice of one of the first `n` candidates. */
  lemma {:induction false} RootsUpToChosen(lk: Lookup, n: nat, x: Id)
    requires n <= |lk.candidates| && x in RootsUpTo(lk, n)
    ensures exists i :: 0 <= i < n && Chosen(lk, lk.candidates[i]) == x
  {
    var acc := RootsUpTo(lk, n - 1);
    if x in acc {
      RootsUpToChosen(lk, n - 1, x);
      var i :| 0 <= i < n - 1 && Chosen(lk, lk.candidates[i]) == x;
      assert 0 <= i < n;
    } else {
      assert Chosen(lk, lk.candidates[n - 1]) == x;
    }
  }

  /** The roots are distinct candidates, each chosen for some candidate. */
  lemma RootsAreCandidates(data: seq<Person>)
    ensures NoDup(Roots(data))
    ensures forall x :: x in Roots(data) ==> x in AllIds(data) && !IsChild(data, x)
    ensures forall x :: x in Roots(data) ==> exists c :: c in Candidates(data) && Chosen(LookupOf(data), c) == x
  {
    var lk := LookupOf(data);
    RootsUpToNoDup(lk, |lk.candidates|);
    forall x | x in Roots(data)
      ensures x in AllIds(data) && !IsChild(data, x)
      ensures exists c :: c in Candidates(data) && Chosen(lk, c) == x
    {
      RootsUpToChosen(lk, |lk.candidates|, x);
      var i :| 0 <= i < |lk.candidates| && Chosen(lk, lk.candidates[i]) == x;
      ChosenIsCandidate(lk, lk.candidates[i]);
    }
  }

  /** Roots, once added, stay. */
  lemma {:induction false} RootsUpToGrow(lk: Lookup, m: nat, n: nat)
    requires m <= n <= |lk.candidates|
    ensures forall x :: x in RootsUpTo(lk, m) ==> x in RootsUpTo(lk, n)
    decreases n
  {
    if m < n {
      RootsUpToGrow(lk, m, n - 1);
    }
  }

  /** Every candidate is represented: it is a root itself, or its choice is. */
  lemma RootsCover(data: seq<Person>, c: Id)
    requires c in Candidates(data)
    ensures c in Roots(data) || Chosen(LookupOf(data), c) in Roots(data)
  {
    var lk := LookupOf(data);
    var i :| 0 <= i < |lk.candidates| && lk.candidates[i] == c;
    RootsUpToGrow(lk, i + 1, |lk.candidates|);
  }

  /** A couple of candidates who name each other collapse to the one that
      comes first in the data: it is a root and its partner is not, as long as
      no other candidate names the later partner as spouse. */
  lemma SpousePairCollapse(data: seq<Person>, a: Id, b: Id)
    requires a in Candidates(data) && b in Candidates(data)
    requires SpouseIn(NodeMap(data), a) == Some(b) && SpouseIn(NodeMap(data), b) == Some(a)
    requires IndexOf(AllIds(data), a) < IndexOf(AllIds(data), b)
    requires forall c :: c in Candidates(data) && c != a ==> SpouseIn(NodeMap(data), c) != Some(b)
    ensures a in Roots(data) && b !in Roots(data)
  {
    PairCollapse(LookupOf(data), a, b);
  }

  /** The same over the lookups themselves. */
  lemma PairCollapse(lk: Lookup, a: Id, b: Id)
    requires a in lk.candidates && b in lk.candidates
    requires SpouseIn(lk.nodeMap, a) == Some(b) && SpouseIn(lk.nodeMap, b) == Some(a)
    requires IndexOf(lk.allIds, a) < IndexOf(lk.allIds, b)
    requires forall c :: c in lk.candidates && c != a ==> SpouseIn(lk.nodeMap, c) != Some(b)
    ensures a in RootsUpTo(lk, |lk.candidates|) && b !in RootsUpTo(lk, |lk.candidates|)
  {
    var n := |lk.candidates|;
    var i :| 0 <= i < n && lk.candidates[i] == a;
    ChosenSelf(lk, a, b);
    assert a in RootsUpTo(lk, i + 1);
    RootsUpToGrow(lk, i + 1, n);
    forall j | 0 <= j < n
      ensures Chosen(lk, lk.candidates[j]) != b
    {
      ChosenNotLater(lk, a, b, lk.candidates[j]);
    }
    if b in RootsUpTo(lk, n) {
      RootsUpToChosen(lk, n, b);
      assert false;
    }
  }

  /** The earlier partner of the couple is its own choice. */
  lemma ChosenSelf(lk: Lookup, a: Id, b: Id)
    requires b in lk.candidates
    requires SpouseIn(lk.nodeMap, a) == Some(b)
    requires IndexOf(lk.allIds, a) < IndexOf(lk.allIds, b)
    ensures Chosen(lk, a) == a
  {
  }

  /** No candidate's choice is the later partner. */
  lemma ChosenNotLater(lk: Lookup, a: Id, b: Id, c: Id)
    requires a in lk.candidates && c in lk.candidates
    requires SpouseIn(lk.nodeMap, a) == Some(b) && SpouseIn(lk.nodeMap, b) == Some(a)
    requires IndexOf(lk.allIds, a) < IndexOf(lk.allIds, b)
    requires c != a ==> SpouseIn(lk.nodeMap, c) != Some(b)
    ensures Chosen(lk, c) != b
  {
  }
}
