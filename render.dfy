/** `renderTree` end to end: the roots, the layout of the forest, the
    lineage maps, then what is drawn from them. */
module Render {
  import opened Records
  import opened RootSelection
  import opened Layout
  import opened Lineage
  import opened Connectors
  import opened Cards

  /** Everything one render pass computes for `data`. */
  datatype Drawing = Drawing(
    positions: map<Id, Pos>,
    parentsMap: map<Id, seq<Id>>,
    childrenMap: map<Id, seq<Id>>,
    connectors: seq<Connector>,
    cards: map<Id, Card>)

  /** Lines 25-230 without the DOM: every root gets a position, rows never
      overlap, every drawn connector joins two placed ids and every placed id
      gets a card at its position. A person reachable from a root can still
      go unplaced (see Scenarios.LostGrandchild). */
  method RenderTree(data: seq<Person>) returns (r: Drawing)
    ensures r.positions == ForestPositions(NodeMap(data), Roots(data))
    ensures forall k :: k in Roots(data) ==> k in r.positions
    ensures NoOverlap(r.positions)
    ensures r.parentsMap == ParentsMap(data) && r.childrenMap == ChildrenMapOf(data)
    ensures r.connectors == AllConnectors(data, r.positions)
    ensures forall c :: c in r.connectors ==> c.from in r.positions && c.to in r.positions
    ensures r.cards.Keys == r.positions.Keys
    ensures forall k :: k in r.cards ==> r.cards[k] == CardFor(NodeMap(data), k, r.positions[k])
  {
    var nodeMap := NodeMap(data);
    var rootIds := SelectRoots(data);
    var positions := LayoutRoots(nodeMap, rootIds);
    var parentsMap, childrenMap := BuildLineageMaps(data);
    var connectors := AllConnectors(data, positions);
    EndpointsPositioned(data, positions);
    CardsCoverPositions(nodeMap, positions);
    r := Drawing(positions, parentsMap, childrenMap, connectors, AllCards(nodeMap, positions));
  }

  /** Lines 151-157: the highlight flag of every connector when the card of
      `id` is hovered, with the lineage `getLineageIds` returns (the id and
      its ancestors). */
  method HoverHighlights(r: Drawing, id: Id) returns (flags: seq<bool>)
    ensures |flags| == |r.connectors|
    ensures forall i :: 0 <= i < |flags| ==>
      (flags[i] <==> r.connectors[i].from in Reach(r.parentsMap, id) && r.connectors[i].to in Reach(r.parentsMap, id))
  {
    var lineage := GetLineageIds(r.parentsMap, r.childrenMap, id);
    flags := Highlights(lineage, r.connectors);
  }

  /** The same flags with the lineage as intended (see
      Lineage.GetLineageIdsBothWays): the id, its ancestors and its
      descendants. */
  method HoverHighlightsBothWays(r: Drawing, id: Id) returns (flags: seq<bool>)
    ensures |flags| == |r.connectors|
    ensures forall i :: 0 <= i < |flags| ==>
      (flags[i] <==> && r.connectors[i].from in Reach(r.parentsMap, id) + Reach(r.childrenMap, id)
                     && r.connectors[i].to in Reach(r.parentsMap, id) + Reach(r.childrenMap, id))
  {
    var lineage := GetLineageIdsBothWays(r.parentsMap, r.childrenMap, id);
    flags := Highlights(lineage, r.connectors);
  }
}
