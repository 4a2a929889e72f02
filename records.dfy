/** Person records as the renderer receives them, and the id lookups every
    other part of the renderer is built on. */
module Records {

  datatype Option<+T> = None | Some(value: T)

  /** Record identifiers. Connectors carry their endpoints as DOM attributes,
      which read back as strings, so ids are strings throughout. */
  type Id = string

  /** JavaScript's `<` on two strings: lexicographic by character, and a
      proper prefix comes first. */
  predicate IdLess(a: Id, b: Id)
    decreases |a|
  {
    if |a| == 0 then |b| > 0
    else if |b| == 0 then false
    else if a[0] != b[0] then a[0] < b[0]
    else IdLess(a[1..], b[1..])
  }

  lemma {:induction false} IdLessAsymmetric(a: Id, b: Id)
    requires IdLess(a, b)
    ensures !IdLess(b, a)
    decreases |a|
  {
    if |a| > 0 && |b| > 0 && a[0] == b[0] {
      IdLessAsymmetric(a[1..], b[1..]);
    }
  }

  /** Two different ids are always ordered one way or the other. */
  lemma {:induction false} IdLessTotal(a: Id, b: Id)
    requires a != b
    ensures IdLess(a, b) || IdLess(b, a)
    decreases |a|
  {
    if |a| > 0 && |b| > 0 && a[0] == b[0] {
      assert a == [a[0]] + a[1..] && b == [b[0]] + b[1..];
      IdLessTotal(a[1..], b[1..]);
    }
  }

  /** One input record. `spouse` is None for every falsy JavaScript value
      (absent, null, the empty string); an absent `children` list is []. */
  datatype Person = Person(
    id: Id,
    name: Option<string>,
    birth: Option<string>,
    death: Option<string>,
    photo: Option<string>,
    spouse: Option<Id>,
    children: seq<Id>)

  /** `data.map(d => d.id)`: the ids in input order, duplicates kept. */
  function AllIds(data: seq<Person>): (ids: seq<Id>)
    ensures |ids| == |data|
    ensures forall i :: 0 <= i < |data| ==> ids[i] == data[i].id
  {
    seq(|data|, i requires 0 <= i < |data| => data[i].id)
  }

  /** `new Map(data.map(d => [d.id, d]))`: a later record with the same id
      replaces an earlier one. */
  function NodeMap(data: seq<Person>): (m: map<Id, Person>)
    ensures forall i :: 0 <= i < |data| ==> data[i].id in m
    ensures forall k :: k in m ==> m[k].id == k && m[k] in data
    decreases |data|
  {
    if |data| == 0 then map[]
    else
      var last := data[|data| - 1];
      NodeMap(data[..|data| - 1])[last.id := last]
  }

  /** The record NodeMap keeps for an id is the last one with that id. */
  lemma {:induction false} NodeMapLastWins(data: seq<Person>, i: nat)
    requires i < |data|
    requires forall j :: i < j < |data| ==> data[j].id != data[i].id
    ensures NodeMap(data)[data[i].id] == data[i]
    decreases |data|
  {
    if i < |data| - 1 {
      var front := data[..|data| - 1];
      assert front[i] == data[i];
      NodeMapLastWins(front, i);
    }
  }

  /** `nodeMap.get(id)?.spouse`, or nothing for an id without a record. */
  function SpouseIn(nm: map<Id, Person>, id: Id): Option<Id>
  {
    if id in nm then nm[id].spouse else None
  }

  /** `(nodeMap.get(id) || {}).children || []`. */
  function ChildrenIn(nm: map<Id, Person>, id: Id): seq<Id>
  {
    if id in nm then nm[id].children else []
  }

  /** Every id the layout can ever place: record ids and the child ids the
      records mention (a dangling child id is placed too). */
  ghost function Universe(nm: map<Id, Person>): set<Id>
  {
    nm.Keys + (set k, c | k in nm && c in nm[k].children :: c)
  }

  lemma ChildrenInUniverse(nm: map<Id, Person>, id: Id)
    ensures forall c :: c in ChildrenIn(nm, id) ==> c in Universe(nm)
  {
  }
}
