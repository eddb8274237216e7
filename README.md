# Problem mind map: a Dafny model of its core

The application reads a Notion database of problems and objectives and shows
it in three ways: as a mind map, as a roadmap, and as an impact/effort matrix.
This project models the logic behind those views:

- **Page conversion** (`src/api/notionDirect.ts`). Each Notion page becomes a
  `ProblemNode`: its title, its parent and child relations, and its status and
  priority, normalised by an ordered table of substring rules.
- **Relationship repair.** `buildRelationships` makes parent and child links
  agree in both directions.
- **Tree building.** `buildTree` finds the configured root page under its
  id, its dash-free id, or a key that matches it once dashes are removed. It then walks the root's
  descendants and the nodes that name them as parent. With no such page it
  falls back to a virtual root over the top of the hierarchy.
- **Mind-map layout** (`src/utils/mindmapLayout.ts`). The `MindMapLayoutEngine`
  class hides the descendants of collapsed nodes. It lays out nodes in tiers,
  breadth first, or on rings, each child in its own equal part of its
  parent's wedge. It then
  emits the view nodes and de-duplicated child edges.
- **Roadmap layout** (`src/components/RoadmapMindMap.tsx`). Objectives are
  sorted so that each comes after the ones it follows, and given a level
  from their ancestor count. They are grouped by level and by parent, spread
  under the parent, and nudged sideways (at most 20 tries) away from
  collisions. Related problems are placed beside the first objective that
  lists them, and parent/child, after/before and objective/problem edges are
  built.
- **Impact/effort matrix** (`src/components/Matrix_new.tsx`,
  `src/pages/Matrix.tsx`). Which nodes become tickets, the quadrant each
  clamped score pair falls in, where a ticket is drawn inside its box, and
  the page's split into plotted and unmappable nodes, with their canvas
  position, colour and label.

The modelling conventions are as follows.

- **Maps and sets.** A JavaScript `Map` is an insertion-ordered key list plus
  a Dafny `map` (`NotionTypes.Tree`, `KeysOf`). Re-setting a key keeps its
  place. `Set`s are Dafny sets.
- **Numbers.** JavaScript numbers are exact `real`s in the layouts, and
  `int`s in the roadmap's integer arithmetic.
- **Acyclicity.** The source follows parent and child links with recursion
  or loops that do not end on a cycle: `findDescendants`, `getNodeDepth`,
  `calculateNodeLevel` and the `after` chains of `topologicalSort`. The
  model asks for a ghost rank map that decreases along the links the source
  actually follows, and only there. `RankedBelow` ranks the child links
  below the collapsed nodes. `VisibleRanked` ranks the parent chains
  climbed from the visible nodes. `RankedFrom` ranks the parent chain
  climbed from each objective. `AfterRanked` is only the premise of the
  ordering clause of `TopologicalSort`. A cycle that the source never
  follows is allowed. The model proves everything else without a rank.

## Model

| member | source | states |
|---|---|---|
| NotionDirect.NormalizeStatusByRules | src/api/notionDirect.ts:104-116 | An absent or empty status name gives no status. Otherwise the status comes from the first rule whose keyword occurs in the lower-cased name: todo (open, todo), in-progress (progress, development, analysis), done (done, closed, released), blocked. With no match it is todo |
| NotionDirect.NormalizePriorityByRules | src/api/notionDirect.ts:118-129 | An absent or empty name gives no priority. Otherwise the priority comes from the first matching rule: low, medium (medium, normal), high, critical (critical, urgent). With no match it is medium |
| NotionDirect.NormalizeIgnoresCase | src/api/notionDirect.ts:107-121 | Status and priority do not depend on the ASCII letter case of the name |
| NotionDirect.InProgressBeforeBlocked | src/api/notionDirect.ts:110-113 | A name with "progress" and "blocked" but neither "open" nor "todo" normalises to in-progress, because rule order decides |
| NotionDirect.TitleRule | src/api/notionDirect.ts:61-62 | The title comes from the Title property, then title, then Name. With none of them it is "Untitled" |
| NotionDirect.ConvertPage | src/api/notionDirect.ts:59-95 | The page id is kept and the title is non-empty. The parent is the first "Parent Problem" relation id when that id is non-empty, and none otherwise. The children are the "Child Problem(s)" relation ids and tags are present. The roadmap fields are left unset |
| NotionDirect.FirstLister | src/api/notionDirect.ts:143-148 | The lister found is a stored key whose node lists the child, and the first such key in map order |
| NotionDirect.LinkToParent | src/api/notionDirect.ts:135-140 | Afterwards the node is listed by its stored parent. The keys and the other fields are unchanged, and children lists only grow |
| NotionDirect.AdoptChildren | src/api/notionDirect.ts:143-148 | Each child the node lists that has no parent yet gets the node as parent. The first-pass state then holds for one more key |
| NotionDirect.FirstPass | src/api/notionDirect.ts:133-149 | After the first pass the keys and other fields are unchanged and children lists only grow. Each node has its own parent, else its first lister, and every node is listed by its stored parent |
| NotionDirect.AppendNamedChildren | src/api/notionDirect.ts:153-163 | Every node naming the given node as parent is appended to its children, once |
| NotionDirect.SecondPass | src/api/notionDirect.ts:153-163 | Parents are unchanged and children lists only grow. Afterwards every node whose parent is stored is listed by that parent |
| NotionDirect.BuildRelationships | src/api/notionDirect.ts:131-164 | The keys and all other fields are unchanged, and children lists only grow. A parent is the node's own, else the first lister in key order. Every appended child names the node as parent, and every parent lists its child |
| NotionDirect.ResolvedChildren | src/api/notionDirect.ts:131-164 | After repair, a node's children are its own list together with the nodes that name it as parent, and nothing else |
| NotionDirect.ResolvedOrphan | src/api/notionDirect.ts:143-148 | A node that is left without a parent is listed by no stored node |
| NotionDirect.RepairIdempotent | src/api/notionDirect.ts:131-164 | Repairing a repaired map changes nothing |
| NotionDirect.RepairKeepsParent | src/api/notionDirect.ts:143-148 | Repairing a repaired map gives no node a new parent |
| NotionDirect.RepairKeepsChildren | src/api/notionDirect.ts:135-140 | Repairing a repaired map appends no child, so a node whose parent is kept is unchanged |
| NotionDirect.CollectedKeyed | src/api/notionDirect.ts:56-96 | The key order lists exactly the collected ids, once each, and every node sits under its own id |
| NotionDirect.CollectedLastWins | src/api/notionDirect.ts:95 | An id is collected exactly when some page has it. It holds the node of the last such page |
| NotionDirect.ConvertToNodes | src/api/notionDirect.ts:56-102 | The key order is the pages' id order, and the map is the repaired map of the converted pages |
| NotionTree.FindRootKey | src/api/notionDirect.ts:171-186 | The root key is the exact id, else the id without dashes. Otherwise it is the last key whose dash-free form equals the dash-free id, or none. A key found is stored |
| NotionTree.AddNodeAndDescendants | src/api/notionDirect.ts:268-291 | The node ends up visited. The collected keys are the visited stored keys, once each, and each is listed by an earlier one. Children lists only grow, by nodes naming the lister as parent. Every newly visited node has its children and referrers visited. A new stored node is collected next |
| NotionTree.WalkChildren | src/api/notionDirect.ts:277-280 | Afterwards every child the node lists has been visited |
| NotionTree.WalkReferrers | src/api/notionDirect.ts:283-290 | Afterwards every child of the node and every node naming it as parent has been visited |
| NotionTree.BuildFromRoot | src/api/notionDirect.ts:262-301 | The root comes first, with its parent cleared. Every other collected node is its input node, with children extended only by nodes naming it as parent. The collection is closed under children and under naming a member as parent (except the root). Each key after the first is listed by an earlier one |
| NotionTree.WalkClosedUnder | src/api/notionDirect.ts:268-291 | When every collected key is finished, the collection is closed under stored children and under nodes naming a member as parent, except the root |
| NotionTree.RootedTreeReachable | src/api/notionDirect.ts:262-301 | Every node in the rooted tree is reachable from the root along a path of children |
| NotionTree.CollectWithParent | src/api/notionDirect.ts:196-201 | The nodes with a parent, and their parent ids in first-appearance order |
| NotionTree.AddParents | src/api/notionDirect.ts:204-209 | Every stored parent of a node with a parent joins the hierarchy, once |
| NotionTree.CollectCandidates | src/api/notionDirect.ts:212-217 | The candidate roots are exactly the parents that have no stored parent of their own |
| NotionTree.CandidatesAreRootParents | src/api/notionDirect.ts:212-217 | The `children.length > 0` test never decides: the candidates equal the top parents |
| NotionTree.HierarchyDistinct | src/api/notionDirect.ts:196-209 | The hierarchy map holds each node once |
| NotionTree.BuildVirtual | src/api/notionDirect.ts:234-251 | The virtual root lists every candidate, and each candidate is re-parented to it |
| NotionTree.BuildFallback | src/api/notionDirect.ts:188-258 | No candidate gives an empty tree. One candidate gives a tree rooted at it. Several give a virtual root over them all |
| NotionTree.BuildTree | src/api/notionDirect.ts:166-302 | With a root key (found as FindRootKey states) the tree is rooted and shaped as BuildFromRoot states. Otherwise it is the fallback tree |
| MindmapLayout.SpacingX | src/utils/mindmapLayout.ts:98 | The x spacing is never zero: a missing or zero spacing falls back to 300 |
| MindmapLayout.SpacingY | src/utils/mindmapLayout.ts:99 | The y spacing is never zero: a missing or zero spacing falls back to 120 |
| MindmapLayout.DefaultConfig | src/utils/mindmapLayout.ts:310-316 | The defaults are horizontal layout, spacing 300 by 120, labels and animation on |
| MindmapLayout.OverridesWin | src/utils/mindmapLayout.ts:310-316 | A layout given by the caller wins, a non-zero spacing given by the caller is used, and maxDepth is the caller's |
| MindmapLayout.DescendantChain | src/utils/mindmapLayout.ts:46-55 | Every descendant found is the end of a chain of stored children from the node |
| MindmapLayout.ChainDescendant | src/utils/mindmapLayout.ts:46-55 | The end of every chain of stored children from the node is found as a descendant |
| MindmapLayout.CollapsedHiddenOnlyBelowOther | src/utils/mindmapLayout.ts:46-60 | A collapsed node is hidden only when it lies below another collapsed node |
| MindmapLayout.HorizontalTierCentred | src/utils/mindmapLayout.ts:113-128 | In the horizontal layout a tier sits at x = depth * spacingX * 2.2. Its y slots, 1.5 * spacingY apart, are centred on 0 |
| MindmapLayout.HorizontalSlotsDistinct | src/utils/mindmapLayout.ts:113-128 | Two nodes of one horizontal tier get different positions |
| MindmapLayout.VerticalTierShared | src/utils/mindmapLayout.ts:119-125 | In any other layout a whole tier shares the point (0, depth * spacingY * 2) |
| MindmapLayout.PositionsAreTiers | src/utils/mindmapLayout.ts:102-129 | Writing the tiers one by one gives exactly the tier-position map |
| MindmapLayout.ChildWedgeInside | src/utils/mindmapLayout.ts:188-194 | Each child's wedge lies inside its parent's wedge, and neighbouring children's wedges abut |
| MindmapLayout.PolarOnRing | src/utils/mindmapLayout.ts:178-184 | With a cosine and sine whose squares sum to 1 at the angle, a node drawn on ring `depth` lies 200 * depth from the origin |
| MindmapLayout.SpreadAtSlots | src/utils/mindmapLayout.ts:186-199 | The wedges handed out go, in child order, to exactly the stored, unplaced children. Child number `index` of `n` gets the middle of part `index` of the parent's wedge cut into `n` equal parts, and the part as its range |
| MindmapLayout.MindMapLayoutEngine.constructor | src/utils/mindmapLayout.ts:15-18 | The config is kept and a missing collapsed set becomes empty. Positions and hidden nodes start empty |
| MindmapLayout.MindMapLayoutEngine.FindDescendants | src/utils/mindmapLayout.ts:47-55 | The hidden set grows by exactly the node's descendants |
| MindmapLayout.MindMapLayoutEngine.FindHiddenNodes | src/utils/mindmapLayout.ts:46-60 | The hidden set grows by exactly the descendants of the collapsed nodes |
| MindmapLayout.MindMapLayoutEngine.EnqueueChildren | src/utils/mindmapLayout.ts:86-93 | The queue grows by the stored, unvisited, not-hidden children at the next depth, in order |
| MindmapLayout.MindMapLayoutEngine.BreadthFirstTiers | src/utils/mindmapLayout.ts:65-95 | The walk groups nodes into tiers, each node once, with the root at depth 0. The tiers are closed under visible children: a collapsed node's children are not entered, and hidden nodes are skipped. Every visible child of a placed, expanded node is at most one tier below it, so each tier is the breadth-first depth. Each node below the root was placed by the first expanded node, in the tier above, that lists it. Each tier lists its nodes by the position of that node in the tier above, then by their first index among that node's children |
| MindmapWalk.OrderDone | src/utils/mindmapLayout.ts:75-94 | When the first-in-first-out queue drains, every visible child of a placed, expanded node is placed at most one tier below it, and every node below the root was placed by the first expanded node of the tier above that lists it, and every tier below the root is in breadth-first order |
| MindmapWalk.ShortestBound | src/utils/mindmapLayout.ts:75-94 | With that bound, the end of any visible path from the root is placed, on a tier no deeper than the path's length |
| MindmapWalk.PlacedPath | src/utils/mindmapLayout.ts:75-94 | Every placed node is reached from the root by a visible path exactly as long as its tier, so its tier is its shortest visible distance |
| MindmapLayout.MindMapLayoutEngine.PositionTier | src/utils/mindmapLayout.ts:113-128 | Each node of the tier is written at its slot, and no other position changes |
| MindmapLayout.MindMapLayoutEngine.PositionTiers | src/utils/mindmapLayout.ts:102-129 | The positions become the old ones overridden by the tier positions |
| MindmapLayout.MindMapLayoutEngine.CalculateHierarchicalLayout | src/utils/mindmapLayout.ts:62-130 | With no root nothing changes. Otherwise the positions are the tier positions of the breadth-first tiers: shortest visible depths, each node placed by the first expanded node of the tier above that lists it, each tier in breadth-first order |
| MindmapLayout.MindMapLayoutEngine.SpreadChildren | src/utils/mindmapLayout.ts:186-203 | The queue grows by each stored, unvisited child with its own slice of the parent's wedge |
| MindmapLayout.MindMapLayoutEngine.CalculateRadialLayout | src/utils/mindmapLayout.ts:162-205 | With no root nothing changes. Otherwise the root sits at the origin with angle 0 and the whole circle 2 * pi. Every other node reached sits on ring 200 * depth, its depth the shortest stored-child distance, and every untouched position is kept. A node's angle is the middle of part `i` of the wedge of the node that placed it, which is the first node of the tier above that lists it, cut into one equal part per listed child, where `i` is its first index among that node's children, and that part is its range |
| MindmapLayout.MindMapLayoutEngine.GenerateLayout | src/utils/mindmapLayout.ts:20-44 | With no root there are no nodes or edges. Otherwise hidden nodes are computed first. The nodes are the visible stored nodes with their positions, and the edges are the visible child links, once each. Positions are the radial wedges or the breadth-first tiers, by the configured layout |
| MindmapLayout.MindMapLayoutEngine.GetNodeDepth | src/utils/mindmapLayout.ts:278-290 | The depth is the number of parent hops, counting the hop to a parent that is not stored |
| MindmapLayout.MindMapLayoutEngine.CreateNodes | src/utils/mindmapLayout.ts:207-241 | One view node per visible stored node, in key order, with its position, depth and collapsed flag |
| MindmapLayout.MindMapLayoutEngine.EmitChildEdges | src/utils/mindmapLayout.ts:247-273 | The node's visible child edges are appended, skipping ids already emitted |
| MindmapLayout.MindMapLayoutEngine.CreateEdges | src/utils/mindmapLayout.ts:243-276 | The edges are exactly the de-duplicated visible child links of the stored nodes |
| MindmapLayout.CreateMindMapLayout | src/utils/mindmapLayout.ts:306-320 | A fresh engine hides nothing: every stored node is viewed and every child link drawn, at its shortest depth and in breadth-first tier order. A non-radial layout is tiered with the merged config, and a radial one places every node in its part of its parent's wedge |
| MindmapView.HopsCountAncestors | src/utils/mindmapLayout.ts:278-290 | The depth is the length of the chain of parent ids, which ends at a node without a parent or at a missing parent |
| MindmapView.ViewNodesAreVisible | src/utils/mindmapLayout.ts:207-241 | The view node ids are exactly the stored, not-hidden keys, each once |
| MindmapView.EdgeColorSeparates | src/utils/mindmapLayout.ts:292-303 | Grey marks exactly the edges whose child is not stored. Two stored children get the same colour exactly when their statuses (a missing one read as todo) agree |
| MindmapView.EdgesSpec | src/utils/mindmapLayout.ts:243-276 | The edge ids are distinct. Each edge joins a visible node to a visible child id it lists, and each such link has an edge with its id |
| RoadmapOrder.TopologicalSort | src/components/RoadmapMindMap.tsx:31-75 | The result holds distinct ids, exactly those of the input, and each node is the one the id map stores. When the after chains are acyclic, each node comes after every node it follows. With no after ids and distinct ids, the order is unchanged |
| RoadmapOrder.Visit | src/components/RoadmapMindMap.tsx:37-58 | A node on the current path, already visited or not stored changes nothing. Otherwise it ends up visited and appended last, directly when it has no after ids. When the after chains are acyclic, every node in the result comes after the nodes it follows |
| RoadmapOrder.VisitEach | src/components/RoadmapMindMap.tsx:45-51 | Every stored after-dependency is visited and the result only grows |
| RoadmapOrder.NoBeforeDeps | src/components/RoadmapMindMap.tsx:61-63 | The start nodes are exactly those that no node lists as an after-dependency |
| RoadmapOrder.NoBeforeDepsAll | src/components/RoadmapMindMap.tsx:61-63 | With no after ids anywhere, every node is a start node |
| RoadmapOrder.VisitRest | src/components/RoadmapMindMap.tsx:68-72 | The nodes not yet visited are visited in input order, so every input id ends up in the result |
| RoadmapOrder.NodeMapOfDistinct | src/components/RoadmapMindMap.tsx:33 | With distinct ids the id map returns each node itself |
| RoadmapOrder.LevelCountsAncestors | src/components/RoadmapMindMap.tsx:78-89 | The level is the length of the chain of stored ancestors |
| RoadmapOrder.LevelAgainstDepth | src/components/RoadmapMindMap.tsx:78-89 | The level is the mind-map depth, or one less when the chain ends at a missing parent |
| RoadmapGroup.KeyOrder | src/components/RoadmapMindMap.tsx:164-187 | The keys come once each, in first-appearance order |
| RoadmapGroup.GroupBy | src/components/RoadmapMindMap.tsx:164-187 | The keys are in first-appearance order, and each key's group is its nodes in order |
| RoadmapGroup.Push | src/components/RoadmapMindMap.tsx:168-172 | The node is appended to its key's group, and a new key starts an empty group at the end of the order |
| RoadmapGroup.SortLevels | src/components/RoadmapMindMap.tsx:176-178 | The same levels, sorted ascending, and strictly ascending when distinct |
| RoadmapPlace.SiblingX | src/components/RoadmapMindMap.tsx:194-212 | A single child sits under its parent. Otherwise siblings are spread 350 apart, starting 175 * (count - 1) left of the parent |
| RoadmapPlace.SiblingsSpread | src/components/RoadmapMindMap.tsx:194-212 | Siblings are symmetric about the parent, 350 apart, and within 175 * (count - 1) of it |
| RoadmapPlace.HasCollision | src/components/RoadmapMindMap.tsx:223-231 | There is a collision exactly when a placed node on the same level is less than 280 away in x |
| RoadmapPlace.ShiftClosedForm | src/components/RoadmapMindMap.tsx:237-241 | After 2k + 1 tries the shift is 280k to the right, and after 2k tries (k > 0) it is 280k to the left |
| RoadmapPlace.ShiftBounds | src/components/RoadmapMindMap.tsx:216-242 | Every shift within 20 tries is a whole number of 280 steps, at most ten of them either way |
| RoadmapPlace.Nudge | src/components/RoadmapMindMap.tsx:216-242 | At most 20 tries. Every earlier try collides, and the last one is free unless all 20 were used |
| RoadmapPlace.PlaceNode | src/components/RoadmapMindMap.tsx:190-245 | The node is placed at the nudged base x. The base x is the sibling spread under a placed parent, else its temporal x. It is placed at y = level * 200 on its level |
| RoadmapPlace.PlaceGroup | src/components/RoadmapMindMap.tsx:190-245 | Every sibling is placed on its level, and nothing placed earlier is lost |
| RoadmapPlace.PlaceLevel | src/components/RoadmapMindMap.tsx:180-245 | Every node of the level is placed, group by parent, on its level |
| RoadmapPlace.PlaceObjectives | src/components/RoadmapMindMap.tsx:164-245 | Exactly the sorted objectives are placed, each on its level at y = level * 200 |
| RoadmapProblems.ProblemIdsOf | src/components/RoadmapMindMap.tsx:124-129 | The related problem ids are distinct and are exactly those listed by some objective |
| RoadmapProblems.CollectProblemIds | src/components/RoadmapMindMap.tsx:124-129 | The loop gathers exactly the related problem ids |
| RoadmapProblems.AsProblem | src/components/RoadmapMindMap.tsx:138-141 | The cached node is marked as a problem, and nothing else changes |
| RoadmapProblems.RelatedOf | src/components/RoadmapMindMap.tsx:132-144 | Each related problem is a cached node under a related id, marked as a problem. Every cached related id gives one |
| RoadmapProblems.RelatedDistinct | src/components/RoadmapMindMap.tsx:132-144 | The related problems have distinct ids, each of them related |
| RoadmapProblems.GatherRelated | src/components/RoadmapMindMap.tsx:132-144 | The loop gathers exactly the related problems |
| RoadmapProblems.FirstReferrer | src/components/RoadmapMindMap.tsx:252-254 | The first objective listing the problem, or none when no objective lists it |
| RoadmapProblems.PlaceProblems | src/components/RoadmapMindMap.tsx:250-268 | The loop places problems as ProblemsPlaced defines |
| RoadmapProblems.ProblemsPlacedFrame | src/components/RoadmapMindMap.tsx:250-268 | Placing problems leaves every other position unchanged |
| RoadmapProblems.ProblemsPlacedAt | src/components/RoadmapMindMap.tsx:250-268 | A problem is placed exactly when its first referrer is placed. It then sits at the objective's position plus (500, 100 * its index), on the objective's level |
| RoadmapLayout.FlowNodeOf | src/components/RoadmapMindMap.tsx:271-287 | The flow node carries the id, the position and the node. It is an objective unless marked otherwise, and has children when it lists any |
| RoadmapLayout.LayoutNodes | src/components/RoadmapMindMap.tsx:271-287 | One flow node per placed id, in placement order, at its position |
| RoadmapLayout.EdgeFor | src/components/RoadmapMindMap.tsx:293-432 | Parent-child and after edges run from the other node to this one. Before and objective-problem edges run from this node to the other |
| RoadmapLayout.Links | src/components/RoadmapMindMap.tsx:293-432 | An edge for exactly each listed id that is placed |
| RoadmapLayout.EdgesSpec | src/components/RoadmapMindMap.tsx:289-432 | The edges are exactly the parent-child, after, before and objective-problem links between placed ids |
| RoadmapLayout.TemporalPass | src/components/RoadmapMindMap.tsx:152-161 | The i-th sorted objective gets temporal x = i * 350 and the level its ancestor count gives |
| RoadmapLayout.PlaceAll | src/components/RoadmapMindMap.tsx:149-268 | The objectives are placed first, exactly the objective ids, each at y = level * 200. The related problems are then placed as ProblemsPlaced defines, so every objective is placed and only objectives and related problems are |
| RoadmapLayout.ShownEdges | src/components/RoadmapMindMap.tsx:289-432 | Every edge joins two shown nodes |
| RoadmapLayout.Layout | src/components/RoadmapMindMap.tsx:118-435 | No objectives give no layout. Otherwise the flow nodes are one per placed id, in placement order, at its position, and the edges are exactly the links between shown ids. The objectives sit at y = level * 200, and with no id clash every related problem sits beside its first referring objective. The shown ids are distinct and include every objective |
| MatrixTickets.Clamp | src/components/Matrix_new.tsx:27-28 | The value is clamped to [0, 10], and a value inside is unchanged |
| MatrixTickets.Classify | src/components/Matrix_new.tsx:31-43 | High impact means impact > 5, and high effort means effort > 5. Each quadrant holds exactly when its two tests hold |
| MatrixTickets.ClampKeepsSide | src/components/Matrix_new.tsx:27-43 | Clamping never moves a score across the > 5 threshold: a ticket is high impact exactly when its raw impact is above 5, and high effort exactly when its raw effort is |
| MatrixTickets.TicketOf | src/components/Matrix_new.tsx:27-50 | The ticket keeps its node. Its x is the clamped effort and its y the clamped impact, and its quadrant is their classification |
| MatrixTickets.TicketsOfMembers | src/components/Matrix_new.tsx:22-50 | There is a ticket exactly for each stored node with a parent and both scores, built from that node |
| MatrixTickets.MatrixTicketsOf | src/components/Matrix_new.tsx:14-55 | With no tree there are no tickets. Otherwise there is one ticket per eligible node, in key order |
| MatrixTickets.TicketsIn | src/components/Matrix_new.tsx:57-59 | A quadrant's list is exactly the tickets of that quadrant |
| MatrixTickets.QuadrantsPartition | src/components/Matrix_new.tsx:57-59 | The four quadrant lists share out all tickets |
| MatrixTickets.FractionsInUnit | src/components/Matrix_new.tsx:74-92 | A ticket's distance from the midpoint, as a fraction of its box, lies in [0, 1] |
| MatrixTickets.BasePosition | src/components/Matrix_new.tsx:74-92 | The x is the effort fraction across the usable width. The y is the impact fraction, up from the bottom for high impact and down from the top for low impact |
| MatrixTickets.BasePositionInBox | src/components/Matrix_new.tsx:74-92 | The base position lies inside the usable box |
| MatrixTickets.OffsetsDistinct | src/components/Matrix_new.tsx:95-96 | Different indices get different offsets |
| MatrixTickets.TicketPosition | src/components/Matrix_new.tsx:95-99 | The drawn position lies within [10, width - 180] by [10, height - 80], and is 10 on an axis whose range is empty |
| MatrixTickets.OffsetApplied | src/components/Matrix_new.tsx:95-99 | When no clamp applies, the drawn position is the base position plus the offset |
| MatrixTickets.TicketsDrawnApart | src/components/Matrix_new.tsx:95-99 | Any two tickets of a box that start from the same spot and are not clamped are drawn at different positions |
| MatrixTickets.RenderQuadrantTickets | src/components/Matrix_new.tsx:67-128 | One drawn position per ticket. Each lies within [10, width - 180] by [10, height - 80], and is 10 on an axis whose range is empty. Two tickets that start from the same spot are drawn apart unless a clamp applies |
| MatrixPage.ClampScores | src/pages/Matrix.tsx:24-25 | Both scores are clamped to [0, 10] and every other field is kept |
| MatrixPage.PartitionCount | src/pages/Matrix.tsx:11-34 | Plotted, unmappable and parentless nodes account for every key once |
| MatrixPage.Rooted | src/pages/Matrix.tsx:17-18 | The keys that neither list shows are exactly those without a parent |
| MatrixPage.PartitionComplete | src/pages/Matrix.tsx:18-28 | A node with a parent and both scores is plotted, clamped. One with a parent and a score missing is unmappable |
| MatrixPage.PartitionSound | src/pages/Matrix.tsx:18-28 | Every plotted node is a clamped eligible node, and every unmappable node has a parent and lacks a score |
| MatrixPage.Partition | src/pages/Matrix.tsx:11-34 | The loop builds exactly the two lists |
| MatrixPage.NodePosition | src/pages/Matrix.tsx:37-42 | Scores in [0, 10] map to positions in [0, 100] percent on both axes |
| MatrixPage.NodePositionMonotone | src/pages/Matrix.tsx:37-42 | More effort moves a node right, and more impact moves it up (a smaller y) |
| MatrixPage.QuadrantColor | src/pages/Matrix.tsx:140-153 | The colour is never the default grey. Each of the four colours holds exactly when its pair of strict > 5 tests holds |
| MatrixPage.ColorMatchesQuadrant | src/pages/Matrix.tsx:140-153 | The colour always matches the ticket quadrant of the same scores |
| MatrixPage.NodeLabel | src/pages/Matrix.tsx:138 | The label is the unique id when set. Otherwise it is the part of the id after the last dash, the whole id when there is no dash, or the last eight characters when the id ends in a dash |

## Left out

- Fetching pages from Notion (`fetchAllProblems`, the API key, `initialize`) and the network are not modelled. The model starts from the list of pages.
- The cached problem data that `loadCachedProblemsData` reads from `localStorage` is a parameter (`cached`). Its JSON parsing and error handling are not modelled.
- The clock (`new Date()`) behind the virtual root's timestamps is a parameter (`now`).
- `Math.cos` and `Math.sin` in the radial layout are function parameters. Floating-point rounding is not modelled, and numbers are exact reals.
- Rendering, JSX, styling, click and hover handlers and the store are not modelled. Edge style fields are collapsed into an edge kind and a stroke colour.
- `autoCollapseDeepNodes` is not modelled, because the source never calls it.
- `buildTree`'s console logging is not modelled.
- Acyclicity is a precondition, but only along the links the source follows: the child links below collapsed nodes, the parent chains climbed from visible mind-map nodes and from objectives. On such a cycle the source's recursion or loop does not end, so no result exists to model. Cycles elsewhere are laid out as the source lays them out.
- A missing `parentId` and a `null` one are both `None`. The matrix tests `parentId !== null`, which would let an undefined parent through. But `convertToNodes` writes `|| null` and the virtual root sets `null`, so no node in the tree has an undefined parent.
- Node objects shared between two maps are modelled as values. The tree that `buildTree` returns is a snapshot of the nodes' final state.
- MindmapLayout.MindMapLayoutEngine.PositionTiers: does not model the sort of each tier by the y of each node's parent (lines 104-111). The model keeps each tier in the breadth-first order that BreadthFirstTiers states. On trees that `buildTree` returns, every node below the root has a parent id, so that sort is a consistent order by the parent's y. But the parent id need not be the node that placed the node in the walk (a node can be listed as a child by several nodes), and a parent without a position counts as y 0. In those cases the sort can move a node, and the order of slots within a tier differs from the source's. Which slots a tier gets is the same, and in the vertical layout a whole tier shares one point anyway.
- MindmapLayout.MindMapLayoutEngine.PositionTier: states the slot of each node in breadth-first order, not in the parent-y order above.
- RoadmapPlace.PlaceGroup: states the placement, level and y of every sibling but not its x. PlaceNode states the x of one node exactly.
- RoadmapPlace.PlaceLevel: states placement, level and y but not x, as for PlaceGroup.
- RoadmapPlace.PlaceObjectives: states placement, level and y but not x, as for PlaceGroup.
- RoadmapPlace.Nudge: follows the source's shift sequence, in which the second try shifts by 0 and re-tests the unshifted x. When all 20 tries collide, the node keeps the 20th shift, which was never tested.
- RoadmapProblems.ProblemsPlacedAt: the problem index counts over all related problems, not only those of one objective, as the source does.
- RoadmapOrder.CalculateNodeLevel: the function carries no contract of its own. Its meaning is stated by LevelCountsAncestors and LevelAgainstDepth.
- Strings.ToLower: folds only the ASCII letters A-Z, where `toLowerCase` folds all of Unicode. A status such as "BLOC\u212AED" (with the Kelvin sign) is blocked in the source and todo in the model.
- Strings.LowerChar: ASCII letters only, as for ToLower.
- NotionDirect.NormalizeIgnoresCase: states independence from ASCII letter case only, as for ToLower.
- RoadmapProblems.ProblemsPlacedAt: requires that no related problem shares an id with an objective. When one does, the source overwrites that objective's position with the problem's, and the model computes the same overwrite in ProblemsPlaced but states no position for it.
- RoadmapLayout.Layout: states each related problem's position only when no related problem shares an id with an objective, as for ProblemsPlacedAt, and not the objectives' x, as for PlaceAll.
- RoadmapLayout.PlaceAll: states the objectives' y but not their x. PlaceNode states the x of one node exactly.
- NotionDirect.ResolvedChildren: states which nodes are appended to a parent's children, not the order in which they are appended (the key order of the nodes naming that parent).
- MindmapLayout.MergeConfig: an override field is either given or absent. A field given explicitly as `undefined` is not modelled. In the source such a field replaces the default through the spread, so `layout: undefined` takes the vertical branch.
