/**
 * The roadmap view's layout (`RoadmapMindMap`'s `useMemo`): the related
 * problems gathered, the objectives sorted, levelled and placed, the
 * problems placed beside them, then one flow node per placed id and the
 * edges between placed ids.
 */
module RoadmapLayout {
  import opened Wrappers
  import opened Seqs
  import opened NotionTypes
  import opened RoadmapOrder
  import opened RoadmapPlace
  import opened RoadmapProblems
  import opened MindmapView

  /** A React Flow node of the roadmap (`type: 'custom'`, always expanded). */
  datatype FlowNode = FlowNode(id: string, x: int, y: int, title: string, node: Node, hasChildren: bool, isObjective: bool)

  datatype EdgeKind = ParentChild | After | Before | ObjectiveProblem

  /** A React Flow edge; its style follows from its kind. */
  datatype FlowEdge = FlowEdge(id: string, source: string, target: string, kind: EdgeKind)

  /**
   * The flow node of a placed id: labelled with the title, a problem only
   * when `isObjective` is explicitly `false`.
   */
  function FlowNodeOf(id: string, p: Pos, node: Node): (r: FlowNode)
    ensures r.id == id && r.x == p.x && r.y == p.y && r.node == node
    ensures r.isObjective <==> node.isObjective != Some(false)
    ensures r.hasChildren <==> node.children != []
  {
    FlowNode(id, p.x, p.y, node.title, node, |node.children| > 0, node.isObjective != Some(false))
  }

  /** `finalPositions.forEach(...)`: one flow node per placed id, in placement order. */
  method LayoutNodes(placed: Positions, nodeMap: map<string, Node>) returns (layoutNodes: seq<FlowNode>)
    requires placed.Valid() && forall id :: id in placed.at ==> id in nodeMap
    ensures |layoutNodes| == |placed.keys|
    ensures forall i :: 0 <= i < |layoutNodes| ==>
      layoutNodes[i] == FlowNodeOf(placed.keys[i], placed.at[placed.keys[i]], nodeMap[placed.keys[i]])
  {
    layoutNodes := [];
    for i := 0 to |placed.keys|
      invariant |layoutNodes| == i
      invariant forall m :: 0 <= m < i ==>
        layoutNodes[m] == FlowNodeOf(placed.keys[m], placed.at[placed.keys[m]], nodeMap[placed.keys[m]])
    {
      var nodeId := placed.keys[i];
      var node := nodeMap[nodeId];
      layoutNodes := layoutNodes + [FlowNodeOf(nodeId, placed.at[nodeId], node)];
    }
  }

  // ---------------------------------------------------------------------
  // Edges
  // ---------------------------------------------------------------------

  /**
   * The edge of one link between the node `nodeId` and another id: from the
   * parent, from the node named in `afterIds`, to the node named in
   * `beforeIds`, to the problem named in `problemIds`.
   */
  function EdgeFor(kind: EdgeKind, nodeId: string, other: string): (e: FlowEdge)
    ensures e.kind == kind
    ensures kind in {ParentChild, After} ==> e.source == other && e.target == nodeId
    ensures kind in {Before, ObjectiveProblem} ==> e.source == nodeId && e.target == other
  {
    match kind
    case ParentChild => FlowEdge("parent-" + other + "-" + nodeId, other, nodeId, kind)
    case After => FlowEdge("after-" + other + "-" + nodeId, other, nodeId, kind)
    case Before => FlowEdge("before-" + nodeId + "-" + other, nodeId, other, kind)
    case ObjectiveProblem => FlowEdge("objective-problem-" + nodeId + "-" + other, nodeId, other, kind)
  }

  /** The edges of the links from `nodeId` to those of `others` that are placed, in order. */
  function Links(kind: EdgeKind, nodeId: string, others: seq<string>, placed: set<string>): (r: seq<FlowEdge>)
    ensures forall e :: e in r <==> exists o :: o in others && o in placed && e == EdgeFor(kind, nodeId, o)
  {
    if others == [] then []
    else
      var init := Links(kind, nodeId, others[..|others| - 1], placed);
      var o := others[|others| - 1];
      assert others == others[..|others| - 1] + [o];
      if o in placed then init + [EdgeFor(kind, nodeId, o)] else init
  }

  /** The ids a node links to by one kind of edge. */
  function Targets(kind: EdgeKind, n: Node): seq<string>
  {
    match kind
    case ParentChild => if Truthy(n.parentId) then [n.parentId.value] else []
    case After => AfterOf(n)
    case Before => n.beforeIds.GetOr([])
    case ObjectiveProblem => ProblemsOf(n)
  }

  /** One pass over the nodes: the edges of each node's links of `kind`, node by node. */
  function PassEdges(kind: EdgeKind, nodes: seq<Node>, placed: set<string>): (r: seq<FlowEdge>)
    ensures forall e :: e in r <==>
      exists n, o :: n in nodes && o in Targets(kind, n) && o in placed && e == EdgeFor(kind, n.id, o)
  {
    if nodes == [] then []
    else
      var init := nodes[..|nodes| - 1];
      var n := nodes[|nodes| - 1];
      assert nodes == init + [n];
      PassEdges(kind, init, placed) + Links(kind, n.id, Targets(kind, n), placed)
  }

  /** The parent pass, then the after and before links node by node, then the problem links. */
  function EdgesOf(nodes: seq<Node>, placed: set<string>): seq<FlowEdge>
  {
    PassEdges(ParentChild, nodes, placed) + OrderEdges(nodes, placed) + PassEdges(ObjectiveProblem, nodes, placed)
  }

  /** The second pass: each node's after links, then its before links. */
  function OrderEdges(nodes: seq<Node>, placed: set<string>): (r: seq<FlowEdge>)
    ensures forall e :: e in r <==> e in PassEdges(After, nodes, placed) || e in PassEdges(Before, nodes, placed)
  {
    if nodes == [] then []
    else
      var init := nodes[..|nodes| - 1];
      var n := nodes[|nodes| - 1];
      assert nodes == init + [n];
      OrderEdges(init, placed) + Links(After, n.id, Targets(After, n), placed) + Links(Before, n.id, Targets(Before, n), placed)
  }

  /**
   * Every edge joins a node of the list to a placed id, in the direction
   * of its kind; every link of a listed node to a placed id has its edge.
   */
  lemma EdgesSpec(nodes: seq<Node>, placed: set<string>)
    ensures forall e :: e in EdgesOf(nodes, placed) <==>
      exists kind, n, o :: n in nodes && o in Targets(kind, n) && o in placed && e == EdgeFor(kind, n.id, o)
  {
    forall e | e in EdgesOf(nodes, placed)
      ensures exists kind, n, o :: n in nodes && o in Targets(kind, n) && o in placed && e == EdgeFor(kind, n.id, o)
    {
      if e in PassEdges(ParentChild, nodes, placed) {
      } else if e in PassEdges(After, nodes, placed) {
      } else if e in PassEdges(Before, nodes, placed) {
      } else {
        assert e in PassEdges(ObjectiveProblem, nodes, placed);
      }
    }
    forall kind, n, o | n in nodes && o in Targets(kind, n) && o in placed
      ensures EdgeFor(kind, n.id, o) in EdgesOf(nodes, placed)
    {
      assert EdgeFor(kind, n.id, o) in PassEdges(kind, nodes, placed);
    }
  }

  /** `others.forEach(o => { if (finalPositions.has(o)) layoutEdges.push(...) })`. */
  method PushLinks(edges0: seq<FlowEdge>, kind: EdgeKind, nodeId: string, others: seq<string>, placed: Positions)
    returns (edges: seq<FlowEdge>)
    ensures edges == edges0 + Links(kind, nodeId, others, placed.at.Keys)
  {
    edges := edges0;
    for j := 0 to |others|
      invariant edges == edges0 + Links(kind, nodeId, others[..j], placed.at.Keys)
    {
      PrefixOfPrefix(others, j, j + 1);
      if others[j] in placed.at {
        AppendAssoc(edges0, Links(kind, nodeId, others[..j], placed.at.Keys), [EdgeFor(kind, nodeId, others[j])]);
        edges := edges + [EdgeFor(kind, nodeId, others[j])];
      }
    }
    PrefixFull(others);
  }

  lemma PassSnoc(kind: EdgeKind, nodes: seq<Node>, i: nat, placed: set<string>)
    requires i < |nodes|
    ensures PassEdges(kind, nodes[..i + 1], placed) ==
      PassEdges(kind, nodes[..i], placed) + Links(kind, nodes[i].id, Targets(kind, nodes[i]), placed)
  {
    PrefixOfPrefix(nodes, i, i + 1);
  }

  lemma OrderSnoc(nodes: seq<Node>, i: nat, placed: set<string>)
    requires i < |nodes|
    ensures OrderEdges(nodes[..i + 1], placed) ==
      OrderEdges(nodes[..i], placed) + Links(After, nodes[i].id, Targets(After, nodes[i]), placed)
        + Links(Before, nodes[i].id, Targets(Before, nodes[i]), placed)
  {
    PrefixOfPrefix(nodes, i, i + 1);
  }

  /** The loop over the nodes for the parent pass or the problem pass. */
  method PushPass(edges0: seq<FlowEdge>, kind: EdgeKind, nodes: seq<Node>, placed: Positions) returns (edges: seq<FlowEdge>)
    ensures edges == edges0 + PassEdges(kind, nodes, placed.at.Keys)
  {
    edges := edges0;
    for i := 0 to |nodes|
      invariant edges == edges0 + PassEdges(kind, nodes[..i], placed.at.Keys)
    {
      PassSnoc(kind, nodes, i, placed.at.Keys);
      AppendAssoc(edges0, PassEdges(kind, nodes[..i], placed.at.Keys), Links(kind, nodes[i].id, Targets(kind, nodes[i]), placed.at.Keys));
      edges := PushLinks(edges, kind, nodes[i].id, Targets(kind, nodes[i]), placed);
    }
    PrefixFull(nodes);
  }

  /** The loop over the nodes for the after and before links. */
  method PushOrder(edges0: seq<FlowEdge>, nodes: seq<Node>, placed: Positions) returns (edges: seq<FlowEdge>)
    ensures edges == edges0 + OrderEdges(nodes, placed.at.Keys)
  {
    edges := edges0;
    for i := 0 to |nodes|
      invariant edges == edges0 + OrderEdges(nodes[..i], placed.at.Keys)
    {
      OrderSnoc(nodes, i, placed.at.Keys);
      var afterLinks := Links(After, nodes[i].id, Targets(After, nodes[i]), placed.at.Keys);
      var beforeLinks := Links(Before, nodes[i].id, Targets(Before, nodes[i]), placed.at.Keys);
      AppendAssoc(edges0, OrderEdges(nodes[..i], placed.at.Keys), afterLinks);
      AppendAssoc(edges0, OrderEdges(nodes[..i], placed.at.Keys) + afterLinks, beforeLinks);
      edges := PushLinks(edges, After, nodes[i].id, Targets(After, nodes[i]), placed);
      edges := PushLinks(edges, Before, nodes[i].id, Targets(Before, nodes[i]), placed);
    }
    PrefixFull(nodes);
  }

  // ---------------------------------------------------------------------
  // The whole layout
  // ---------------------------------------------------------------------

  /** The related problems of the objectives, as the layout gathers them from the cache. */
  function RelatedProblemsOf(nodes: seq<Node>, cached: map<string, Node>): seq<Node>
  {
    RelatedOf(ProblemIdsOf(nodes), cached)
  }

  /** The ids of the flow nodes. */
  function FlowIds(vs: seq<FlowNode>): (r: seq<string>)
    ensures |r| == |vs| && forall i :: 0 <= i < |vs| ==> r[i] == vs[i].id
  {
    seq(|vs|, i requires 0 <= i < |vs| => vs[i].id)
  }

  /**
   * `finalPositions` once the objectives and then the related problems are
   * placed. `objectivesPlaced` is the map after the objectives alone: it
   * holds exactly the objectives, each at `VerticalSpacing` times its
   * level, and the final map is it with the related problems placed in
   * order beside their first referrers.
   */
  method PlaceAll(nodes: seq<Node>, related: seq<Node>, nodeMap: map<string, Node>, ghost rank: map<string, nat>)
    returns (placed: Positions, ghost objectivesPlaced: Positions)
    requires nodeMap == NodeMapOf(nodes + related)
    requires forall id :: id in NodeMapOf(nodes) ==> RankedFrom(nodeMap, rank, NodeMapOf(nodes)[id].parentId)
    ensures objectivesPlaced.Valid()
    ensures forall id :: id in objectivesPlaced.at <==> id in Ids(nodes)
    ensures forall id :: id in objectivesPlaced.at && id in NodeMapOf(nodes) ==>
      objectivesPlaced.at[id].y == CalculateNodeLevel(NodeMapOf(nodes)[id], nodeMap, rank) * VerticalSpacing
    ensures placed == ProblemsPlaced(objectivesPlaced, nodes, related)
    ensures placed.Valid()
    ensures forall id :: id in Ids(nodes) ==> id in placed.at
    ensures forall id :: id in placed.at ==> id in Ids(nodes) || id in Ids(related)
    ensures forall id :: id in placed.at && id in NodeMapOf(nodes) && id !in Ids(related) ==>
      placed.at[id].y == CalculateNodeLevel(NodeMapOf(nodes)[id], nodeMap, rank) * VerticalSpacing
  {
    var sortedNodes := TopologicalSort(nodes, rank);
    var temporal, levels, lv := TemporalPass(sortedNodes, nodeMap, rank);
    placed := PlaceObjectives(sortedNodes, levels, temporal, lv);
    objectivesPlaced := placed;
    ObjectiveLevels(placed, objectivesPlaced, sortedNodes, levels, nodes, [], nodeMap, rank);
    placed := PlaceProblems(placed, nodes, related);
    ProblemsPlacedFrame(objectivesPlaced, nodes, related);
    ObjectiveLevels(placed, objectivesPlaced, sortedNodes, levels, nodes, related, nodeMap, rank);
  }

  /** The ids of the shown flow nodes. */
  function ShownIds(vs: seq<FlowNode>): set<string>
  {
    set v | v in vs :: v.id
  }

  /**
   * The layout of the objectives `nodes`, with the cached problem nodes
   * `cached`. Nothing for no objectives. Otherwise: `objectivesPlaced` holds
   * exactly the objectives, each at `VerticalSpacing` times its level;
   * `placed` adds the related problems beside their first referrers (when
   * the problems are new ids, exactly as `PlacedBeside` says); there is one
   * flow node per placed id, in placement order, built from the node map;
   * and the edges are exactly the links of the objectives to shown ids.
   * `rank` says the parent links have no cycle.
   */
  method Layout(nodes: seq<Node>, cached: map<string, Node>, ghost rank: map<string, nat>)
    returns (layoutNodes: seq<FlowNode>, layoutEdges: seq<FlowEdge>, ghost placed: Positions, ghost objectivesPlaced: Positions)
    requires forall id :: id in NodeMapOf(nodes) ==>
      RankedFrom(NodeMapOf(nodes + RelatedProblemsOf(nodes, cached)), rank, NodeMapOf(nodes)[id].parentId)
    ensures nodes == [] ==> layoutNodes == [] && layoutEdges == []
    ensures nodes != [] ==>
      var related, nodeMap := RelatedProblemsOf(nodes, cached), NodeMapOf(nodes + RelatedProblemsOf(nodes, cached));
      && objectivesPlaced.Valid()
      && (forall id :: id in objectivesPlaced.at <==> id in Ids(nodes))
      && (forall id :: id in objectivesPlaced.at && id in NodeMapOf(nodes) ==>
            objectivesPlaced.at[id].y == CalculateNodeLevel(NodeMapOf(nodes)[id], nodeMap, rank) * VerticalSpacing)
      && placed == ProblemsPlaced(objectivesPlaced, nodes, related)
      && placed.Valid()
      && (forall id :: id in placed.at ==> id in nodeMap)
      && |layoutNodes| == |placed.keys|
      && (forall i :: 0 <= i < |layoutNodes| ==>
            layoutNodes[i] == FlowNodeOf(placed.keys[i], placed.at[placed.keys[i]], nodeMap[placed.keys[i]]))
      && ShownIds(layoutNodes) == placed.at.Keys
      && layoutEdges == EdgesOf(nodes, ShownIds(layoutNodes))
    ensures nodes != [] && Fresh(objectivesPlaced, nodes, RelatedProblemsOf(nodes, cached)) ==>
      forall k :: 0 <= k < |RelatedProblemsOf(nodes, cached)| ==> PlacedBeside(objectivesPlaced, nodes, RelatedProblemsOf(nodes, cached), k)
    ensures forall i, j :: 0 <= i < j < |layoutNodes| ==> layoutNodes[i].id != layoutNodes[j].id
    ensures forall n :: n in nodes ==> n.id in FlowIds(layoutNodes)
    ensures forall v :: v in layoutNodes ==> v.id in Ids(nodes) || v.id in Ids(RelatedProblemsOf(nodes, cached))
    ensures forall e :: e in layoutEdges ==> e.source in FlowIds(layoutNodes) && e.target in FlowIds(layoutNodes)
    ensures forall v :: v in layoutNodes && v.id in NodeMapOf(nodes) && v.id !in Ids(RelatedProblemsOf(nodes, cached)) ==>
      v.y == CalculateNodeLevel(NodeMapOf(nodes)[v.id], NodeMapOf(nodes + RelatedProblemsOf(nodes, cached)), rank) * VerticalSpacing
  {
    if |nodes| == 0 {
      return [], [], Positions([], map[]), Positions([], map[]);
    }
    var relatedProblemIds := CollectProblemIds(nodes);
    var relatedProblems := GatherRelated(relatedProblemIds, cached);
    var allNodes := nodes + relatedProblems;
    var nodeMap := NodeMapOf(allNodes);
    var finalPositions;
    finalPositions, objectivesPlaced := PlaceAll(nodes, relatedProblems, nodeMap, rank);
    placed := finalPositions;
    ShownAreListed(nodes, relatedProblems, finalPositions, nodeMap);
    layoutNodes := LayoutNodes(finalPositions, nodeMap);
    layoutEdges := PushPass([], ParentChild, nodes, finalPositions);
    layoutEdges := PushOrder(layoutEdges, nodes, finalPositions);
    layoutEdges := PushPass(layoutEdges, ObjectiveProblem, nodes, finalPositions);
    assert FlowIds(layoutNodes) == finalPositions.keys;
    ShownIdsAreKeys(layoutNodes, finalPositions);
    forall n | n in nodes
      ensures n.id in FlowIds(layoutNodes)
    {
      InIds(nodes, n);
    }
    assert layoutEdges == EdgesOf(nodes, finalPositions.at.Keys) by {
      assert [] + PassEdges(ParentChild, nodes, finalPositions.at.Keys) == PassEdges(ParentChild, nodes, finalPositions.at.Keys);
    }
    ShownEdges(nodes, finalPositions.at.Keys, layoutEdges, FlowIds(layoutNodes));
    if Fresh(objectivesPlaced, nodes, relatedProblems) {
      ProblemsPlacedAt(objectivesPlaced, nodes, relatedProblems);
    }
  }

  /** The shown ids are the placed ids. */
  lemma ShownIdsAreKeys(vs: seq<FlowNode>, placed: Positions)
    requires placed.Valid() && FlowIds(vs) == placed.keys
    ensures ShownIds(vs) == placed.at.Keys
  {
    forall id | id in placed.at
      ensures id in ShownIds(vs)
    {
      var i :| 0 <= i < |placed.keys| && placed.keys[i] == id;
      assert vs[i] in vs;
    }
  }

  /** Both ends of every edge are shown when every listed id and every linked id is. */
  lemma ShownEdges(nodes: seq<Node>, placed: set<string>, edges: seq<FlowEdge>, shown: seq<string>)
    requires edges == EdgesOf(nodes, placed)
    requires forall id :: id in Ids(nodes) ==> id in placed
    requires forall id :: id in placed ==> id in shown
    ensures forall e :: e in edges ==> e.source in shown && e.target in shown
  {
    EdgesSpec(nodes, placed);
    forall e | e in edges
      ensures e.source in shown && e.target in shown
    {
      var kind, n, o :| n in nodes && o in Targets(kind, n) && o in placed && e == EdgeFor(kind, n.id, o);
      InIds(nodes, n);
    }
  }

  /** An objective's position keeps the height its level gave it unless a problem took its id. */
  lemma ObjectiveLevels(placed: Positions, objectivesPlaced: Positions, sorted: seq<Node>,
                        levels: seq<nat>, nodes: seq<Node>, related: seq<Node>, nodeMap: map<string, Node>, rank: map<string, nat>)
    requires forall id :: id in NodeMapOf(nodes) ==> RankedFrom(nodeMap, rank, NodeMapOf(nodes)[id].parentId)
    requires forall id :: id in placed.at && id !in Ids(related) ==>
      id in objectivesPlaced.at && placed.at[id] == objectivesPlaced.at[id]
    requires forall id :: id in objectivesPlaced.at <==> id in Ids(sorted)
    requires |levels| == |sorted|
    requires forall i :: 0 <= i < |sorted| ==>
      && sorted[i].id in NodeMapOf(nodes) && sorted[i] == NodeMapOf(nodes)[sorted[i].id]
      && sorted[i].id in objectivesPlaced.at
      && objectivesPlaced.at[sorted[i].id].y == levels[i] * VerticalSpacing
      && levels[i] == CalculateNodeLevel(sorted[i], nodeMap, rank)
    ensures forall id :: id in placed.at && id in NodeMapOf(nodes) && id !in Ids(related) ==>
      placed.at[id].y == CalculateNodeLevel(NodeMapOf(nodes)[id], nodeMap, rank) * VerticalSpacing
  {
    forall id | id in placed.at && id in NodeMapOf(nodes) && id !in Ids(related)
      ensures placed.at[id].y == CalculateNodeLevel(NodeMapOf(nodes)[id], nodeMap, rank) * VerticalSpacing
    {
      var j :| 0 <= j < |sorted| && Ids(sorted)[j] == id;
      assert sorted[j].id == id;
    }
  }

  /** A member of the list has its id among the list's ids. */
  lemma InIds(s: seq<Node>, n: Node)
    requires n in s
    ensures n.id in Ids(s)
  {
    var k :| 0 <= k < |s| && s[k] == n;
    assert Ids(s)[k] == n.id;
  }

  /** Every placed id is an objective's or a related problem's, so the node map has it. */
  lemma ShownAreListed(nodes: seq<Node>, related: seq<Node>, placed: Positions, nodeMap: map<string, Node>)
    requires nodeMap == NodeMapOf(nodes + related)
    requires forall id :: id in placed.at ==> id in Ids(nodes) || id in Ids(related)
    ensures forall id :: id in placed.at ==> id in nodeMap
  {
    NodeMapIds(nodes + related);
    IdsAppend(nodes, related);
  }

  lemma IdsAppend(a: seq<Node>, b: seq<Node>)
    ensures Ids(a + b) == Ids(a) + Ids(b)
  {
    var s := a + b;
    forall i | 0 <= i < |s|
      ensures Ids(s)[i] == (Ids(a) + Ids(b))[i]
    {
      if i >= |a| {
        assert s[i] == b[i - |a|];
      }
    }
  }

  /**
   * The first pass over the sorted objectives: the `index`-th sits at
   * `index * NodeSpacing` on the time axis, on the level its parent chain
   * gives it.
   */
  method TemporalPass(sorted: seq<Node>, nodeMap: map<string, Node>, ghost rank: map<string, nat>)
    returns (temporal: map<string, int>, levels: seq<nat>, ghost lv: map<string, nat>)
    requires DistinctIds(sorted) && forall i :: 0 <= i < |sorted| ==> RankedFrom(nodeMap, rank, sorted[i].parentId)
    ensures |levels| == |sorted|
    ensures forall i :: 0 <= i < |sorted| ==>
      && levels[i] == CalculateNodeLevel(sorted[i], nodeMap, rank)
      && sorted[i].id in temporal && temporal[sorted[i].id] == i * NodeSpacing
      && sorted[i].id in lv && lv[sorted[i].id] == levels[i]
    ensures forall id :: id in lv ==> id in Ids(sorted)
  {
    temporal, levels, lv := map[], [], map[];
    for i := 0 to |sorted|
      invariant |levels| == i
      invariant forall m :: 0 <= m < i ==>
        && levels[m] == CalculateNodeLevel(sorted[m], nodeMap, rank)
        && sorted[m].id in temporal && temporal[sorted[m].id] == m * NodeSpacing
        && sorted[m].id in lv && lv[sorted[m].id] == levels[m]
      invariant forall id :: id in lv ==> exists m :: 0 <= m < i && sorted[m].id == id
    {
      var node := sorted[i];
      var level := CalculateNodeLevel(node, nodeMap, rank);
      temporal := temporal[node.id := i * NodeSpacing];
      levels := levels + [level];
      lv := lv[node.id := level];
    }
    forall id | id in lv
      ensures id in Ids(sorted)
    {
      var m :| 0 <= m < |sorted| && sorted[m].id == id;
      assert Ids(sorted)[m] == id;
    }
  }
}
