# Family-forest renderer: a Dafny model of `renderTree`

`renderTree` takes a list of person records, each with an id, a name, dates, a photo, an optional spouse and an ordered list of child ids. It draws them as a forest of cards joined by connectors. This project models the computation behind that drawing and proves what it guarantees:

- **Root selection.** The roots are the ids that are nobody's child. A couple of such ids is collapsed to the partner listed first.
- **Layout.** `layoutTree` packs each root's tree left to right, one row per generation. It works on a `positions` map and a per-depth ledger `rowWidths`, both updated in place.
- **Lineage maps.** `parentsMap` and `childrenMap` are built by a pass over the records.
- **Lineage walk.** `getLineageIds` is a depth-first walk with a visited set, used by the hover highlight.
- **Connectors.** The spouse lines, trunks and child paths are derived from the positions.
- **Cards.** The text and fallbacks each card shows.

Files, one module each:

| file | module | contents |
|---|---|---|
| `records.dfy` | `Records` | the record type, the JavaScript string order on ids, `nodeMap` |
| `roots.dfy` | `RootSelection` | candidates, the spouse collapse, the root loop |
| `layout.dfy` | `Layout` | see below |
| `lineage.dfy` | `Lineage` | `parentsMap` and `childrenMap`; the walk as the class `LineageWalk`, specified by least closed sets |
| `connectors.dfy` | `Connectors` | connector descriptors (kind, endpoints, points) and the highlight predicate |
| `cards.dfy` | `Cards` | the placeholder record, the name and photo fallbacks, the life-span label |
| `render.dfy` | `Render` | the whole pass, chained as `renderTree` chains it |
| `scenarios.dfy` | `Scenarios` | small forests worked through to concrete positions and connectors |

The layout is the imperative heart of the program. The class `ForestLayout` keeps `positions` and `rowWidths` as fields that its methods update in place. Each method is proved equal to a specification function over a `Ledger` value (`LayNode`, `LayChildren`, `LayRoots`). The properties are then proved about those functions:

- no position is overwritten;
- where a card and its spouse land;
- the ledger never decreases;
- cards of one row never overlap.

Termination holds on any input, cycles included. The measure is the set of ids not yet placed among the record ids and the child ids they mention.

Behaviour of the code that a reader of `renderTree` might not expect, each shown on a concrete forest:

- **A later root ignores `startX`.** The root loop passes a `startX` (lines 79-83), but `layoutTree` reads it only while `rowWidths[0]` is undefined (line 57). From the second root on, the x is `rowWidths[0]`. Two unrelated people D and E therefore sit at x = 50 and x = 260: E is one gap right of D's card, which ends at 200. The `startX` that line 83 computes for E is 260 + 120 = 380, three gaps past D's card (`Scenarios.TwoSingles`, `Scenarios.SinglesLayout`).
- **A child is not centred.** The child of a couple is placed at the couple's left x, not centred under the couple (`Scenarios.CoupleWithChildLayout`).
- **A reachable person can stay unplaced.** `layoutTree` returns at once for an id that already has a position (line 53), and a spouse gets a position without its own call (line 65). Take R1 with spouse X, R2 with child X, and X with child Y. X is placed as R1's spouse, R2's call for X returns at once, and Y never gets a position. X's record still draws a trunk with no child path below it (`Scenarios.LostGrandchild`).
- **The lineage has no descendants.** A hovered card's lineage is the card and its ancestors only (`Lineage.GetLineageIds`, and the finding below).

## Model

| member | source | states |
|---|---|---|
| RootSelection.IsChild | script-forest.js:28 | computed only. `RootSelection.Candidates` and `RootSelection.Filter` state that exactly the ids for which it fails pass the filter |
| RootSelection.Filter | script-forest.js:31 | the filter keeps exactly the ids of its input that no record lists as a child, and never lengthens the list |
| RootSelection.Candidates | script-forest.js:28-31 | the candidates are exactly the record ids that no record lists as a child |
| Records.AllIds | script-forest.js:27 | `allIds` has one id per record, the i-th record's id at index i |
| RootSelection.Chosen | script-forest.js:37-43 | computed only. `RootSelection.ChosenIsCandidate` states that the choice is itself a candidate, and `RootSelection.PairCollapse` which partner of a couple wins |
| RootSelection.Step | script-forest.js:34-43 | computed only. `RootSelection.StepSpec` states that a step keeps `rootSet` as a prefix and adds at most one id, the candidate's choice, and only when the candidate is not already a root |
| RootSelection.StepSpec | script-forest.js:34-43 | a step keeps the earlier roots in their order and appends at most one id; the members afterwards are the earlier ones plus the choice of the candidate, unless the candidate was already a root |
| RootSelection.Insert | script-forest.js:40-42 | `rootSet.add`: the added id is a member afterwards, and the members are exactly the earlier ones plus that id |
| RootSelection.RootsUpTo | script-forest.js:33-44 | computed only. `RootSelection.RootsUpToChosen` states that every root so far is the choice of an earlier candidate |
| RootSelection.Roots | script-forest.js:45 | computed only. `RootSelection.RootsAreCandidates` and `RootSelection.RootsCover` carry its properties |
| RootSelection.IndexOf | script-forest.js:38-39 | `indexOf` returns -1 exactly for an absent id, and otherwise the first index holding it |
| RootSelection.SelectRoots | script-forest.js:26-45 | the root loop computes `Roots(data)` |
| RootSelection.FillRootSet | script-forest.js:32-45 | the `forEach` filling `rootSet` computes the fold `RootsUpTo` over all candidates |
| RootSelection.RootsAreCandidates | script-forest.js:31-45 | the roots have no duplicates, each is a record id nobody lists as child, and each is the choice made for some candidate |
| RootSelection.RootsCover | script-forest.js:33-44 | every candidate is a root or its chosen partner is |
| RootSelection.SpousePairCollapse | script-forest.js:36-40 | of two candidates who name each other, the one first in the data is a root and the other is not (when no third candidate names the later one) |
| RootSelection.PairCollapse | script-forest.js:36-40 | the same collapse, over the lookups the loop consults |
| RootSelection.RootsUpToNoDup | script-forest.js:34-43 | `rootSet` stays free of duplicates after every candidate |
| RootSelection.RootsUpToGrow | script-forest.js:34-43 | a root, once added, stays in `rootSet` |
| RootSelection.RootsUpToBound | script-forest.js:33-44 | there are never more roots than candidates seen |
| Records.SpouseIn | script-forest.js:36 | computed only. `Layout.Place`, `Layout.LayNodePlacement` and `RootSelection.SpousePairCollapse` state how the spouse it reads is used: the spouse is placed beside the card, and a spouse pair collapses to one root |
| Records.ChildrenIn | script-forest.js:63-69 | computed only. `Records.ChildrenInUniverse` and `Layout.LayChildren` state that each of the ids it yields, a dangling id included, is one the layout may place, and is placed |
| Records.ChildrenInUniverse | script-forest.js:63-69 | every id from `node.children`, dangling or not, is one of the ids the layout may place |
| Records.NodeMap | script-forest.js:26 | every record id is a key and every entry is a record of `data` under its own id |
| Records.NodeMapLastWins | script-forest.js:26 | for a duplicated id the map keeps the last record with that id |
| Records.IdLess | script-forest.js:172 | computed only. `Records.IdLessTotal` and `Records.IdLessAsymmetric` state that it orders any two different ids, one way only |
| Records.IdLessTotal | script-forest.js:172 | two different ids are ordered one way or the other by string `<` |
| Records.IdLessAsymmetric | script-forest.js:172 | string `<` never holds both ways |
| Layout.Place | script-forest.js:57-66 | the ledger entry is filled in only when undefined; the person goes to (that entry, depth × 290); only the spouse can be added besides, and only when it has a record, one card and a gap to the right; old positions stay |
| Layout.SlotX | script-forest.js:57-59 | computed only. `Layout.LayNodePlacement` states that the slot is the ledger entry of the depth when defined and `offsetX` otherwise |
| Layout.CloseRow | script-forest.js:75-76 | computed only. `Layout.LayNodePlacement` states the ledger it leaves behind, x + 210 or x + 420 with a spouse |
| Layout.Footprint | script-forest.js:75 | computed only. `Layout.LayNodePlacement` states the ledger it leads to, x + 210 or x + 420 with a spouse, and `Layout.LayNodeKeepsApart` that every card of the row, a spouse's included, ends a gap before the ledger |
| Layout.NextOffset | script-forest.js:71-72 | computed only. `Layout.SetRowFrame` states that raising the children's ledger entry disturbs nothing above it, and `Layout.LayChildrenKeepsApart` that the children's row stays apart and ends before its ledger entry |
| Layout.NextStart | script-forest.js:82-83 | computed only. `Layout.MaxRowWidthIsNextStart` states that it is two gaps past the widest ledger entry |
| Layout.RowY | script-forest.js:60 | computed only. `Layout.LayNodePlacement` states that each card placed at a depth gets y = depth × 290 |
| Layout.SetRow | script-forest.js:72 | computed only. `Layout.SetRowFrame` states that it changes no position and no ledger entry other than the one it sets |
| Layout.LayNode | script-forest.js:52-77 | `layoutTree` never changes a set position, always places its id and never drops a ledger entry; for an id already placed it changes nothing |
| Layout.LayChildren | script-forest.js:68-73 | every child id is placed, a dangling one included, and no set position changes |
| Layout.LayRoots | script-forest.js:79-84 | every root is placed and no set position changes |
| Layout.LayNodePlacement | script-forest.js:57-76 | an unplaced person lands at the ledger x of its depth and y = depth × 290; a spouse with a record and no position lands 210 to the right; the ledger then stands at x + 210, or x + 420 with a spouse |
| Layout.LayNodeFrame | script-forest.js:52-77 | ledger entries never decrease, rows above the call's depth are untouched, and new cards lie at that depth or below |
| Layout.LayChildrenFrame | script-forest.js:68-73 | the same frame for the children's loop, from the children's depth down |
| Layout.SetRowFrame | script-forest.js:71-72 | advancing the children's ledger entry disturbs nothing above it |
| Layout.PlaceKeepsApart | script-forest.js:57-66 | placing keeps the cards of every row apart |
| Layout.PlaceNoOverlap | script-forest.js:61-65 | no two cards of one row are closer than a card and a gap after the placement |
| Layout.LayNodeKeepsApart | script-forest.js:52-77 | `layoutTree` keeps every row's cards a card and a gap apart, and keeps each row's cards left of its ledger entry |
| Layout.LayChildrenKeepsApart | script-forest.js:68-73 | the same for the loop over the children |
| Layout.LayRootsKeepsApart | script-forest.js:79-84 | the whole forest keeps the rows apart and the ledger monotone |
| Layout.MaxOver | script-forest.js:82 | the maximum of the defined ledger entries bounds all of them and is one of them |
| Layout.ForestLayout.PlaceCards | script-forest.js:57-66 | in place, the fields move from the old state to `Place` of it, and the returned x is the slot |
| Layout.ForestLayout.LayoutTree | script-forest.js:52-77 | in place, the fields move from the old state to `LayNode` of it |
| Layout.ForestLayout.LayoutChildren | script-forest.js:68-73 | in place, the children's loop moves the fields to `LayChildren` of the old state |
| Layout.ForestLayout.LayoutForest | script-forest.js:79-84 | in place, the root loop moves the fields to `LayRoots` from `startX` = 50 |
| Layout.MaxRowWidth | script-forest.js:82 | the maximum of the defined ledger entries is absent exactly for an empty ledger, and otherwise bounds all of them and is one of them |
| Layout.MaxRowWidthIsNextStart | script-forest.js:82-83 | the next `startX` is two gaps past the widest ledger entry |
| Layout.LayoutRoots | script-forest.js:47-84 | a fresh layout equals `ForestPositions`, places every root and has no overlapping cards in a row |
| Layout.ForestPositions | script-forest.js:47-84 | computed only. `Layout.LayoutRoots` and `Layout.LayRootsKeepsApart` state that every root gets a place and no two cards of one row overlap |
| Layout.ForestLayout.constructor | script-forest.js:47-50 | `positions` and `rowWidths` start empty, over the given `nodeMap` |
| Lineage.ParentsOfInOrder | script-forest.js:93-99 | the parent list of an id holds its parents in data order, once per listing |
| Lineage.ParentsOfMembership | script-forest.js:93-99 | `p` is a parent of `c` exactly when a record with id `p` lists `c` as a child |
| Lineage.ParentsOfSound | script-forest.js:96-98 | an id listed as a parent of `c` belongs to a record that lists `c` |
| Lineage.ParentsOfComplete | script-forest.js:96-98 | every record that lists `c` has its id listed as a parent of `c` |
| Lineage.PushAllSpec | script-forest.js:96-99 | the inner loop appends the parent once per occurrence of each child and creates keys exactly for the children |
| Lineage.ParentsMapIsParentsOf | script-forest.js:91-101 | `parentsMap` has a key exactly for listed children, and its entry is the parent list |
| Lineage.ParentsOf | script-forest.js:96-98 | computed only. `Lineage.ParentsOfMembership`, `Lineage.ParentsOfSound`, `Lineage.ParentsOfComplete` and `Lineage.ParentsOfInOrder` carry its properties |
| Lineage.Push | script-forest.js:97-98 | computed only. `Lineage.PushAllSpec` states the effect of the pushes on every list |
| Lineage.PushAll | script-forest.js:96-99 | computed only. `Lineage.PushAllSpec` carries its properties |
| Lineage.Get | script-forest.js:97-98 | computed only. `Lineage.PushAllSpec` states that a list missing from the map reads as empty and gets created by the first push |
| Lineage.ParentsMap | script-forest.js:91-101 | computed only. `Lineage.ParentsMapIsParentsOf` carries its properties |
| Lineage.ChildrenMapOf | script-forest.js:93-95 | computed only. `Lineage.ChildrenMapKeys`, `Lineage.ChildrenMapLastWins` and `Lineage.ChildrenMapInverse` carry its properties |
| Lineage.ChildrenMapKeys | script-forest.js:93-95 | `childrenMap` has a key exactly for the ids of the records |
| Lineage.ChildrenMapLastWins | script-forest.js:93-95 | for a duplicated id, `childrenMap` keeps the children of the last record with that id |
| Lineage.ChildrenMapInverse | script-forest.js:91-101 | with unique ids, `c` is in the children list of `p` exactly when `p` is in the parents list of `c` |
| Lineage.PushParent | script-forest.js:96-99 | in place, the push loop computes `PushAll` |
| Lineage.BuildLineageMaps | script-forest.js:91-101 | in place, the pass over the records builds both maps, and every entry of `parentsMap` is the parent list of its key |
| Lineage.ReachIsLeast | script-forest.js:103-118 | the reachable set holds the start, is closed under the edges and lies inside every closed set that holds the start |
| Lineage.Next | script-forest.js:108-113 | computed only. `Lineage.ReachIsLeast` and `Lineage.LineageWalk.Dfs` state that the walk follows exactly its successors, an id with no entry having none |
| Lineage.NextInNodes | script-forest.js:108-113 | every successor is an id mentioned by the map |
| Lineage.LineageWalk.constructor | script-forest.js:104 | `visited` starts empty, over the two given maps |
| Lineage.LineageWalk.Dfs | script-forest.js:105-114 | `dfsUp` and `dfsDown` only add to `visited`, and the ids they add are exactly those reachable from `curr` without passing an id visited before: they hold `curr`, are closed under the edges that avoid old ids, and lie inside every such closed set; an already visited id adds nothing |
| Lineage.LineageWalk.VisitOne | script-forest.js:108-113 | one pass of the `forEach`: the successor ends up visited, nothing is removed, and every id added since `curr` is still reachable from `curr` without passing an id visited before |
| Lineage.LineageWalk.VisitNext | script-forest.js:105-114 | the `forEach` over the successors visits each of them |
| Lineage.GetLineageIds | script-forest.js:103-118 | the lineage is the id and everything reachable through `parentsMap`, its ancestors |
| Lineage.GetLineageIdsBothWays | script-forest.js:103-118 | with a visited set per walk, the lineage is the id, its ancestors and its descendants |
| Lineage.ParentInLineage | script-forest.js:96-108 | a parent of an id in the lineage is in the lineage |
| Lineage.FindingMaps | script-forest.js:91-101 | over the records P (children [C]) and C, the pass builds `parentsMap` {C: [P]} and `childrenMap` {P: [C], C: []} |
| Lineage.LineageMissesChild | script-forest.js:115-117 | over the records P (children [C]) and C, the lineage of P as written is {P}, missing C, and the two-walk lineage contains C |
| Connectors.HasSpouse | script-forest.js:168 | computed only. `Connectors.SpouseLineRule` and `Connectors.TrunkRule` state what it decides: the spouse line, the trunk's far end and the couple's midpoint |
| Connectors.DrawsSpouseLine | script-forest.js:172 | computed only. `Connectors.SpouseLineRule` states that a record draws one spouse line exactly when it holds, and `Connectors.CoupleDrawsOneLine` that a placed couple gets exactly one |
| Connectors.DrawsChildren | script-forest.js:189 | computed only. `Connectors.TrunkRule` and `Connectors.ChildPathRule` state that the trunk and the child paths are drawn exactly when it holds |
| Connectors.CentreX | script-forest.js:180-181 | computed only. `Connectors.SpouseLineRule`, `Connectors.TrunkRule` and `Connectors.ChildPathsShape` state that lines start and end at the centre of a card, x + 75 |
| Connectors.ParentY | script-forest.js:194 | computed only. `Connectors.TrunkRule` states that the trunk starts at the card's vertical centre, y + 85 |
| Connectors.SpouseLineOf | script-forest.js:172-186 | computed only. `Connectors.SpouseLineRule` states its ends and its two points |
| Connectors.ChildPaths | script-forest.js:208-210 | computed only. `Connectors.ChildPathsShape`, `Connectors.ChildPathsTargets` and `Connectors.ChildPathsCover` carry its properties |
| Connectors.ChildPathsTargets | script-forest.js:208-210 | the paths lead to the positioned children, one each, in the order of the child list; unplaced children are skipped |
| Connectors.ChildPathsCover | script-forest.js:208-221 | every positioned child gets its path |
| Connectors.ParentX | script-forest.js:190-193 | computed only. `Connectors.TrunkRule` states that the trunk stands at the card centre, or at the mean of the couple's centres |
| Connectors.MidY | script-forest.js:194-195 | computed only. `Connectors.TrunkRule` states that the trunk ends 105 below its start at the card's top + 85, and `Connectors.ChildPathsShape` that every child path leaves from that point |
| Connectors.TrunkOf | script-forest.js:197-206 | computed only. `Connectors.TrunkRule` and `Connectors.RecordLines` carry its properties |
| Connectors.BendX | script-forest.js:212-215 | computed only. `Connectors.ChildPathsShape` states that the bend lies 12 short of the child's centre on the parent's side |
| Connectors.ChildPathOf | script-forest.js:208-227 | computed only. `Connectors.ChildPathsShape` carries its properties |
| Connectors.RecordConnectors | script-forest.js:165-229 | computed only. `Connectors.RecordLines`, `Connectors.SpouseLineRule`, `Connectors.TrunkRule` and `Connectors.ChildPathRule` state what one record draws |
| Connectors.AllConnectors | script-forest.js:164-230 | computed only. `Connectors.EndpointsPositioned` and `Connectors.CoupleDrawsOneLine` carry its properties |
| Connectors.SpouseLineRule | script-forest.js:168-186 | a record draws a spouse line exactly when it and its spouse are placed and its id is the smaller; the line lies 85 below the top, between the card centres |
| Connectors.TrunkRule | script-forest.js:168-206 | a record draws one trunk exactly when it is placed, has children and has no placed spouse or the smaller id; it runs from 85 below the top, 105 down, at the card centre or the mean of the couple's centres |
| Connectors.ChildPathRule | script-forest.js:189-210 | a record draws one child path per placed child, and only when it draws the trunk; every placed child gets its path, and every path leads to a placed child |
| Connectors.ChildPathsShape | script-forest.js:208-227 | each path goes from the record to a placed child: it leaves the trunk's foot, bends 12 short of the child's centre on the parent's side, turns about the point above the child's centre down to 12 below the leg, and ends at the top of the child's card |
| Connectors.RecordLines | script-forest.js:172-206 | the spouse line and the trunk are the only non-path connectors, and each is drawn when its condition holds |
| Connectors.EndpointsPositioned | script-forest.js:164-210 | every connector joins two placed ids |
| Connectors.CoupleDrawsOneLine | script-forest.js:172 | a placed couple naming each other gets exactly one spouse line |
| Connectors.IsHighlighted | script-forest.js:156 | computed only. `Connectors.Highlights` states that a flag is set exactly when both ends are in the lineage |
| Connectors.Highlights | script-forest.js:153-157 | a connector's flag is set exactly when both of its ends are in the lineage |
| Connectors.ChildHoverHighlightsPath | script-forest.js:152-156 | hovering a child highlights the path that leads to it |
| Connectors.ParentHoverMissesPath | script-forest.js:115-156 | over the records P (children [C]) and C, hovering P leaves the path P → C dark; the two-walk lineage would light it |
| Cards.OrElse | script-forest.js:134-142 | the text with its fallback is empty exactly when the text is missing or empty and the fallback is empty, and it is always the text or the fallback |
| Cards.Present | script-forest.js:134-144 | computed only. `Cards.OrElse` and `Cards.LifeLabelEmpty` state that a missing or empty text counts as absent |
| Cards.LifeLabel | script-forest.js:144 | computed only. `Cards.LifeLabelEmpty` and `Cards.LifeLabelShape` carry its properties |
| Cards.NodeFor | script-forest.js:122 | computed only. `Cards.CardsCoverPositions` states the placeholder it gives an id without a record |
| Cards.CardFor | script-forest.js:122-148 | computed only. `Cards.CardFallbacks` carries its properties |
| Cards.AllCards | script-forest.js:121-148 | computed only. `Cards.CardsCoverPositions` carries its properties |
| Cards.LifeLabelEmpty | script-forest.js:144 | the life label is empty exactly when neither date is present |
| Cards.LifeLabelShape | script-forest.js:144 | the life label is `birth - death`, `birth - ` or ` - death` |
| Cards.CardsCoverPositions | script-forest.js:121-122 | every placed id gets a card at its position, and one without a record shows its id, the default photo and no dates |
| Cards.CardFallbacks | script-forest.js:134-144 | the photo is the record's when present and the default photo otherwise, so never empty; the name and life label come from the record |
| Render.RenderTree | script-forest.js:25-230 | the pass places every root without overlap, builds both lineage maps, draws only connectors between placed ids, and gives every placed id its card |
| Render.HoverHighlights | script-forest.js:151-157 | as written: hovering a card flags exactly the connectors whose two ends are the card or its ancestors |
| Render.HoverHighlightsBothWays | script-forest.js:151-157 | with the two-walk lineage: hovering a card flags exactly the connectors whose two ends are the card, its ancestors or its descendants |
| Scenarios.SinglesRoots | script-forest.js:28-45 | two people without relations are both roots, in data order |
| Scenarios.TwoSingles | script-forest.js:79-84 | from those roots, D lands at (50, 0) and E at (260, 0), with no connectors |
| Scenarios.CoupleWithChildRoots | script-forest.js:31-45 | for the couple A, B with child C, A is the only root |
| Scenarios.CoupleWithChildLayout | script-forest.js:52-77 | from the root A, A lands at (50, 0), B at (260, 0) and C at (50, 290) |
| Scenarios.CoupleWithChildConnectors | script-forest.js:164-229 | the couple, so laid out, gets one spouse line, one trunk and one child path |
| Scenarios.DanglingRoots | script-forest.js:28-45 | a record whose only child has no record is the only root |
| Scenarios.DanglingChild | script-forest.js:63-70 | from that root, the child id with no record is placed at (50, 290) and shown as a placeholder card |
| Scenarios.LostRoots | script-forest.js:28-45 | R1 (spouse X) and R2 (child X) are the roots, and X is not |
| Scenarios.LostGrandchild | script-forest.js:52-77 | R1 lands at (50, 0), its spouse X at (260, 0) and R2 at (470, 0); X's child Y gets no position, and X's record draws a trunk and no child path |

## Left out

- The SVG setup, zoom and reset button (lines 2-18): user interface with no computed output.
- Loading `people.json` (lines 20-23): asynchronous I/O. The model starts from the parsed list.
- DOM clearing and every `append`/`attr` call (lines 87-88, 123-148, 176-227). The model keeps only the data each call receives: card origins and texts, and connector kinds, endpoints and points. It does not model the SVG path string of line 217, the fixed offsets of the image and texts inside a card, or colours and strokes.
- Event wiring (lines 151-160). Only the highlight predicate of line 156 and the lineage it uses are modelled. Clearing on `mouseleave` sets every flag false and needs no model.
- The `offsetX === undefined` branch (lines 54-56) is unreachable: both callers (lines 70 and 81) pass an offset.
- The `isFinite` fallback (line 83) can only fire on an empty ledger, which cannot happen after a root is laid out. `Layout.MaxRowWidth` returns None for that case and the loop keeps the old `startX`.
- JavaScript truthiness is folded into the record type. A falsy `spouse` (absent, null, empty string) is None. An absent `children` list is the empty list. A `name`, `photo`, `birth` or `death` that is absent or empty counts as missing.
- Absent versus empty `children`. A record with no `children` key sets no `childrenMap` entry (line 94); the model sets one with an empty list. For a duplicated id this can change which record's children `childrenMap` keeps. The walks read a missing entry as `[]`, so lineages agree whenever ids are unique.
- Ids are strings. String `<` is ordered by character, where JavaScript compares UTF-16 code units. Numeric ids are left out because line 156 compares ids read back from DOM attributes, which are strings.
- Coordinates are integers, except the couple midpoint of line 192 and the connector points derived from it, which are exact reals. No floating point is modelled.
- Card draw order: `positions.forEach` (line 121) visits ids in insertion order. The model keeps the cards in a map, so the order of the card elements in the document is not captured.

## Findings

| source | as written | input that shows it | evidently intended | confidence | as-written member | corrected member |
|---|---|---|---|---|---|---|
| script-forest.js:103-118 | `dfsUp(id)` marks `id` visited, so `dfsDown(id)` returns at once and the lineage holds no descendants | records `P` (children `["C"]`) and `C`; hover `P` | the lineage is the id, its ancestors and its descendants, so the path P → C lights up | not executed | Lineage.GetLineageIds, Lineage.LineageMissesChild, Render.HoverHighlights | Lineage.GetLineageIdsBothWays, Render.HoverHighlightsBothWays |
