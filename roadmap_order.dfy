/**
 * The orderings the roadmap view computes before placing anything: the
 * depth-first topological sort of the objectives by their `afterIds`, which
 * skips the nodes of a cycle instead of looping, and the hierarchical level
 * of a node by its chain of stored parents.
 */
module RoadmapOrder {
  import opened Wrappers
  import opened Seqs
  import opened NotionTypes
  import opened MindmapView

  /** The ids of a node list, in order. */
  function Ids(s: seq<Node>): (r: seq<string>)
    ensures |r| == |s| && forall i :: 0 <= i < |s| ==> r[i] == s[i].id
  {
    if s == [] then [] else Ids(s[..|s| - 1]) + [s[|s| - 1].id]
  }

  lemma IdsSnoc(s: seq<Node>, n: Node)
    ensures Ids(s + [n]) == Ids(s) + [n.id]
  {
    assert (s + [n])[..|s|] == s;
  }

  /** The ids of a node list, as a set. */
  ghost function IdSet(s: seq<Node>): set<string>
  {
    if s == [] then {} else IdSet(s[..|s| - 1]) + {s[|s| - 1].id}
  }

  lemma IdSetSnoc(s: seq<Node>, n: Node)
    ensures IdSet(s + [n]) == IdSet(s) + {n.id}
  {
    assert (s + [n])[..|s|] == s;
  }

  lemma {:induction false} IdSetIds(s: seq<Node>)
    ensures forall x :: x in IdSet(s) <==> x in Ids(s)
  {
    if s != [] {
      IdSetIds(s[..|s| - 1]);
      IdsSnoc(s[..|s| - 1], s[|s| - 1]);
      assert s == s[..|s| - 1] + [s[|s| - 1]];
    }
  }

  /** No two nodes of the list share an id. */
  predicate DistinctIds(s: seq<Node>)
  {
    forall i, j :: 0 <= i < j < |s| ==> s[i].id != s[j].id
  }

  lemma DistinctSnoc(s: seq<Node>, n: Node)
    requires DistinctIds(s) && n.id !in Ids(s)
    ensures DistinctIds(s + [n])
  {
    forall i | 0 <= i < |s|
      ensures s[i].id != n.id
    {
      assert s[i].id == Ids(s)[i];
    }
  }

  /** `node.afterIds ?? []`: the nodes this one comes after. */
  function AfterOf(n: Node): seq<string>
  {
    n.afterIds.GetOr([])
  }

  // ---------------------------------------------------------------------
  // `new Map(nodes.map(node => [node.id, node]))`
  // ---------------------------------------------------------------------

  /** The key order of the map built from a node list: each id at its first occurrence. */
  function IdOrder(nodes: seq<Node>): seq<string>
  {
    if nodes == [] then []
    else
      var before := IdOrder(nodes[..|nodes| - 1]);
      if nodes[|nodes| - 1].id in before then before else before + [nodes[|nodes| - 1].id]
  }

  /** The map built from a node list: each node under its id, a later node overwriting an earlier one. */
  function NodeMapOf(nodes: seq<Node>): map<string, Node>
  {
    if nodes == [] then map[]
    else NodeMapOf(nodes[..|nodes| - 1])[nodes[|nodes| - 1].id := nodes[|nodes| - 1]]
  }

  /** The map holds exactly the listed ids, each node under its own id. */
  lemma {:induction false} NodeMapIds(nodes: seq<Node>)
    ensures WellKeyed(NodeMapOf(nodes))
    ensures forall k :: k in NodeMapOf(nodes) <==> k in Ids(nodes)
  {
    if nodes != [] {
      var init := nodes[..|nodes| - 1];
      NodeMapIds(init);
      assert nodes == init + [nodes[|nodes| - 1]];
      IdsSnoc(init, nodes[|nodes| - 1]);
    }
  }

  lemma NodeMapWellKeyed(nodes: seq<Node>)
    ensures WellKeyed(NodeMapOf(nodes))
  {
    NodeMapIds(nodes);
  }

  /** The key order lists the map's ids once each, in first-occurrence order. */
  lemma {:induction false} NodeMapKeyed(nodes: seq<Node>)
    ensures KeysOf(IdOrder(nodes), NodeMapOf(nodes)) && WellKeyed(NodeMapOf(nodes))
  {
    if nodes != [] {
      NodeMapKeyed(nodes[..|nodes| - 1]);
    }
  }

  /** With distinct ids, every listed node is the one stored under its id. */
  lemma {:induction false} NodeMapOfDistinct(nodes: seq<Node>)
    requires DistinctIds(nodes)
    ensures forall i :: 0 <= i < |nodes| ==> nodes[i].id in NodeMapOf(nodes) && NodeMapOf(nodes)[nodes[i].id] == nodes[i]
  {
    if nodes != [] {
      var init := nodes[..|nodes| - 1];
      NodeMapOfDistinct(init);
      forall i | 0 <= i < |nodes| - 1
        ensures nodes[i].id in NodeMapOf(nodes) && NodeMapOf(nodes)[nodes[i].id] == nodes[i]
      {
        assert init[i] == nodes[i];
      }
    }
  }

  // ---------------------------------------------------------------------
  // `topologicalSort`
  // ---------------------------------------------------------------------

  /**
   * The state the depth-first visit keeps: the result lists stored nodes
   * once each, `visited` holds exactly their ids, and the ids on the
   * current path (`visiting`) are stored and not yet visited.
   */
  ghost predicate SortState(nm: map<string, Node>, visiting: set<string>, visited: set<string>, result: seq<Node>)
  {
    && DistinctIds(result)
    && (forall i :: 0 <= i < |result| ==> result[i].id in nm && nm[result[i].id] == result[i])
    && visited == IdSet(result)
    && visiting <= nm.Keys
    && visited !! visiting
  }

  /** Finishing a node on the path: it leaves the path and is appended to the result. */
  lemma PushVisited(nm: map<string, Node>, visiting: set<string>, visited: set<string>, result: seq<Node>, node: Node)
    requires SortState(nm, visiting + {node.id}, visited, result)
    requires node.id in nm && nm[node.id] == node && node.id !in visiting
    ensures SortState(nm, visiting, visited + {node.id}, result + [node])
    ensures node.id !in Ids(result)
  {
    IdSetSnoc(result, node);
    IdSetIds(result);
    assert node.id !in visited;
    DistinctSnoc(result, node);
  }

  /** A rank that falls along every `afterIds` link between stored nodes: those links have no cycle. */
  ghost predicate AfterRanked(nm: map<string, Node>, rank: map<string, nat>)
  {
    forall k :: k in nm ==>
      && k in rank
      && (forall a :: a in AfterOf(nm[k]) && a in nm ==> a in rank && rank[a] < rank[k])
  }

  /** Every stored node a listed node names in its `afterIds` is listed before it. */
  ghost predicate AfterFirst(nm: map<string, Node>, result: seq<Node>)
  {
    forall j, a :: 0 <= j < |result| && a in AfterOf(result[j]) && a in nm ==> a in Ids(result)[..j]
  }

  /** Appending a node whose stored predecessors are all listed keeps every predecessor first. */
  lemma AfterFirstSnoc(nm: map<string, Node>, result: seq<Node>, n: Node)
    requires AfterFirst(nm, result)
    requires forall a :: a in AfterOf(n) && a in nm ==> a in IdSet(result)
    ensures AfterFirst(nm, result + [n])
  {
    IdsSnoc(result, n);
    IdSetIds(result);
    var r := result + [n];
    forall j, a | 0 <= j < |r| && a in AfterOf(r[j]) && a in nm
      ensures a in Ids(r)[..j]
    {
      assert Ids(r)[..|result|] == Ids(result);
      if j < |result| {
        assert Ids(r)[..j] == Ids(result)[..j];
      }
    }
  }

  /**
   * `visit(nodeId)`: a node on the current path (a cycle), already visited
   * or not stored is skipped; otherwise every node it names in `afterIds`
   * is visited first and the node is appended last. `visiting` is this
   * call's path; the source adds the id before the inner visits and deletes
   * it after them, which the value parameter reproduces.
   */
  method Visit(nm: map<string, Node>, nodeId: string, visiting: set<string>, visited0: set<string>, result0: seq<Node>,
               ghost rank: map<string, nat>)
    returns (visited: set<string>, result: seq<Node>)
    requires WellKeyed(nm)
    requires SortState(nm, visiting, visited0, result0)
    requires AfterRanked(nm, rank) ==>
      AfterFirst(nm, result0) && (nodeId in nm ==> forall v :: v in visiting ==> rank[v] > rank[nodeId])
    ensures SortState(nm, visiting, visited, result)
    ensures visited0 <= visited && result0 <= result
    ensures nodeId in visiting || nodeId in visited0 || nodeId !in nm ==> visited == visited0 && result == result0
    ensures nodeId in nm && nodeId !in visiting ==> nodeId in visited
    ensures nodeId in nm && nodeId !in visiting && nodeId !in visited0 ==>
      |result| > |result0| && result[|result| - 1] == nm[nodeId]
    ensures nodeId in nm && nodeId !in visiting && nodeId !in visited0 && AfterOf(nm[nodeId]) == [] ==>
      result == result0 + [nm[nodeId]]
    ensures AfterRanked(nm, rank) ==> AfterFirst(nm, result)
    decreases nm.Keys - visited0 - visiting, 0
  {
    visited, result := visited0, result0;
    if nodeId in visiting {
      return;
    }
    if nodeId in visited {
      return;
    }
    if nodeId !in nm {
      return;
    }
    var node := nm[nodeId];
    var inner := visiting + {nodeId};
    visited, result := VisitEach(nm, AfterOf(node), inner, visited, result, rank);
    PushVisited(nm, visiting, visited, result, node);
    if AfterRanked(nm, rank) {
      AfterFirstSnoc(nm, result, node);
    }
    visited := visited + {nodeId};
    result := result + [node];
  }

  /** `node.afterIds?.forEach(visit)`: a visit from each id in turn, on the same path. */
  method VisitEach(nm: map<string, Node>, ids: seq<string>, visiting: set<string>, visited0: set<string>, result0: seq<Node>,
                   ghost rank: map<string, nat>)
    returns (visited: set<string>, result: seq<Node>)
    requires WellKeyed(nm)
    requires SortState(nm, visiting, visited0, result0)
    requires AfterRanked(nm, rank) ==>
      AfterFirst(nm, result0) && forall a, v :: a in ids && a in nm && v in visiting ==> rank[v] > rank[a]
    ensures SortState(nm, visiting, visited, result)
    ensures visited0 <= visited && result0 <= result
    ensures ids == [] ==> visited == visited0 && result == result0
    ensures AfterRanked(nm, rank) ==> AfterFirst(nm, result) && forall a :: a in ids && a in nm ==> a in visited
    decreases nm.Keys - visited0 - visiting, 1
  {
    visited, result := visited0, result0;
    for j := 0 to |ids|
      invariant SortState(nm, visiting, visited, result)
      invariant visited0 <= visited && result0 <= result
      invariant j == 0 ==> visited == visited0 && result == result0
      invariant AfterRanked(nm, rank) ==>
        AfterFirst(nm, result) && forall m :: 0 <= m < j && ids[m] in nm ==> ids[m] in visited
    {
      visited, result := Visit(nm, ids[j], visiting, visited, result, rank);
    }
  }

  /** Some node of the list names `id` in its `afterIds`. */
  predicate ListedAfter(nodes: seq<Node>, id: string)
  {
    exists o :: o in nodes && id in AfterOf(o)
  }

  /** `noBeforeDeps`: the nodes of `s`, in order, that no node of `all` names in its `afterIds`. */
  function NoBeforeDeps(all: seq<Node>, s: seq<Node>): (r: seq<Node>)
    ensures forall n :: n in r <==> n in s && !ListedAfter(all, n.id)
  {
    if s == [] then []
    else
      var rest := NoBeforeDeps(all, s[1..]);
      if ListedAfter(all, s[0].id) then rest else [s[0]] + rest
  }

  /** When no node names any other, every node is a starting node. */
  lemma {:induction false} NoBeforeDepsAll(all: seq<Node>, s: seq<Node>)
    requires forall o :: o in all ==> AfterOf(o) == []
    ensures NoBeforeDeps(all, s) == s
  {
    if s != [] {
      NoBeforeDepsAll(all, s[1..]);
      assert !ListedAfter(all, s[0].id);
    }
  }

  /**
   * `topologicalSort`: visits start from the nodes nobody names in
   * `afterIds`, in input order, then from every node still unvisited, in
   * input order. Each distinct input id is listed once, as the node the
   * map stores under it; when the `afterIds` links between input nodes
   * have no cycle, every input node a node names comes before it; and with
   * no `afterIds` at all the input order is kept.
   */
  method TopologicalSort(nodes: seq<Node>, ghost rank: map<string, nat>) returns (result: seq<Node>)
    ensures DistinctIds(result)
    ensures forall x :: x in Ids(result) <==> x in Ids(nodes)
    ensures forall i :: 0 <= i < |result| ==> result[i].id in NodeMapOf(nodes) && result[i] == NodeMapOf(nodes)[result[i].id]
    ensures AfterRanked(NodeMapOf(nodes), rank) ==> AfterFirst(NodeMapOf(nodes), result)
    ensures (forall o :: o in nodes ==> AfterOf(o) == []) && DistinctIds(nodes) ==> result == nodes
  {
    var nodeMap := NodeMapOf(nodes);
    NodeMapIds(nodes);
    var visited: set<string>;
    visited, result := VisitStarts(nodes, rank);
    ghost var plain := (forall o :: o in nodes ==> AfterOf(o) == []) && DistinctIds(nodes);
    IdSetIds(result);
    assert plain ==> forall x :: x in Ids(nodes) ==> x in visited;
    visited, result := VisitRest(nodes, visited, result, rank);
  }

  /** The first loop of `topologicalSort`: a visit from each node nobody names, in input order. */
  method VisitStarts(nodes: seq<Node>, ghost rank: map<string, nat>) returns (visited: set<string>, result: seq<Node>)
    ensures SortState(NodeMapOf(nodes), {}, visited, result)
    ensures AfterRanked(NodeMapOf(nodes), rank) ==> AfterFirst(NodeMapOf(nodes), result)
    ensures (forall o :: o in nodes ==> AfterOf(o) == []) && DistinctIds(nodes) ==> result == nodes
  {
    var nodeMap := NodeMapOf(nodes);
    NodeMapWellKeyed(nodes);
    ghost var plain := (forall o :: o in nodes ==> AfterOf(o) == []) && DistinctIds(nodes);
    if plain {
      NoBeforeDepsAll(nodes, nodes);
    }
    visited, result := {}, [];
    var starts := NoBeforeDeps(nodes, nodes);
    for i := 0 to |starts|
      invariant SortState(nodeMap, {}, visited, result)
      invariant AfterRanked(nodeMap, rank) ==> AfterFirst(nodeMap, result)
      invariant plain ==> result == nodes[..i]
    {
      if plain {
        PlainStep(nodes, i);
        PrefixSnoc(nodes, i);
        assert starts[i] == nodes[i] && AfterOf(nodes[i]) == [];
      }
      visited, result := Visit(nodeMap, starts[i].id, {}, visited, result, rank);
    }
    if plain {
      PrefixFull(nodes);
    }
  }

  /** With distinct ids, the next input node is not yet visited and is the node stored under its id. */
  lemma PlainStep(nodes: seq<Node>, i: nat)
    requires DistinctIds(nodes) && i < |nodes|
    ensures nodes[i].id !in IdSet(nodes[..i])
    ensures nodes[i].id in NodeMapOf(nodes) && NodeMapOf(nodes)[nodes[i].id] == nodes[i]
  {
    NodeMapOfDistinct(nodes);
    var before := nodes[..i];
    assert forall m :: 0 <= m < |before| ==> before[m].id != nodes[i].id;
    NotInIdSet(before, nodes[i].id);
  }

  lemma {:induction false} NotInIdSet(s: seq<Node>, x: string)
    requires forall m :: 0 <= m < |s| ==> s[m].id != x
    ensures x !in IdSet(s)
  {
    if s != [] {
      NotInIdSet(s[..|s| - 1], x);
    }
  }

  /** The second loop of `topologicalSort`: a visit from every node still unvisited, in input order. */
  method VisitRest(nodes: seq<Node>, visited0: set<string>, result0: seq<Node>, ghost rank: map<string, nat>)
    returns (visited: set<string>, result: seq<Node>)
    requires SortState(NodeMapOf(nodes), {}, visited0, result0)
    requires AfterRanked(NodeMapOf(nodes), rank) ==> AfterFirst(NodeMapOf(nodes), result0)
    ensures SortState(NodeMapOf(nodes), {}, visited, result)
    ensures AfterRanked(NodeMapOf(nodes), rank) ==> AfterFirst(NodeMapOf(nodes), result)
    ensures forall x :: x in Ids(result) <==> x in Ids(nodes)
    ensures (forall x :: x in Ids(nodes) ==> x in visited0) ==> result == result0
  {
    var nodeMap := NodeMapOf(nodes);
    NodeMapIds(nodes);
    visited, result := visited0, result0;
    ghost var allSeen := forall x :: x in Ids(nodes) ==> x in visited0;
    for i := 0 to |nodes|
      invariant SortState(nodeMap, {}, visited, result)
      invariant AfterRanked(nodeMap, rank) ==> AfterFirst(nodeMap, result)
      invariant forall m :: 0 <= m < i ==> nodes[m].id in visited
      invariant allSeen ==> result == result0 && visited == visited0
    {
      assert nodes[i].id == Ids(nodes)[i] && nodes[i].id in Ids(nodes);
      assert allSeen ==> nodes[i].id in visited;
      ghost var before := visited;
      visited, result := VisitUnvisited(nodeMap, nodes[i].id, visited, result, rank);
      StillVisited(nodes, before, visited, i);
    }
    EveryIdVisited(nodes, visited, result);
  }

  /** Visits only grow, so the input prefix stays visited. */
  lemma StillVisited(nodes: seq<Node>, before: set<string>, visited: set<string>, i: nat)
    requires i < |nodes| && before <= visited && nodes[i].id in visited
    requires forall m :: 0 <= m < i ==> nodes[m].id in before
    ensures forall m :: 0 <= m < i + 1 ==> nodes[m].id in visited
  {
  }

  /** The body of the second loop: a visit from a stored node unless it is already visited. */
  method VisitUnvisited(nm: map<string, Node>, nodeId: string, visited0: set<string>, result0: seq<Node>,
                        ghost rank: map<string, nat>)
    returns (visited: set<string>, result: seq<Node>)
    requires WellKeyed(nm) && nodeId in nm
    requires SortState(nm, {}, visited0, result0)
    requires AfterRanked(nm, rank) ==> AfterFirst(nm, result0)
    ensures SortState(nm, {}, visited, result)
    ensures AfterRanked(nm, rank) ==> AfterFirst(nm, result)
    ensures visited0 <= visited && nodeId in visited
    ensures nodeId in visited0 ==> visited == visited0 && result == result0
  {
    visited, result := visited0, result0;
    if nodeId !in visited {
      visited, result := Visit(nm, nodeId, {}, visited, result, rank);
    }
  }

  /** Once every input id is visited, the result lists exactly the input ids. */
  lemma EveryIdVisited(nodes: seq<Node>, visited: set<string>, result: seq<Node>)
    requires SortState(NodeMapOf(nodes), {}, visited, result)
    requires forall m :: 0 <= m < |nodes| ==> nodes[m].id in visited
    ensures forall x :: x in Ids(result) <==> x in Ids(nodes)
  {
    NodeMapIds(nodes);
    IdSetIds(result);
    forall x | x in Ids(nodes)
      ensures x in Ids(result)
    {
      var m :| 0 <= m < |nodes| && Ids(nodes)[m] == x;
    }
  }

  // ---------------------------------------------------------------------
  // `calculateNodeLevel`
  // ---------------------------------------------------------------------

  /**
   * `calculateNodeLevel`: 0 for a node without a truthy parent link or
   * whose parent is not stored, otherwise one more than its parent's level.
   * The source has no guard against a parent cycle; `rank` (see
   * `RankedFrom`) is the precondition that the chain climbed from `node`
   * holds none. Cycles that this chain does not reach are allowed.
   */
  function CalculateNodeLevel(node: Node, nodeMap: map<string, Node>, ghost rank: map<string, nat>): (level: nat)
    requires RankedFrom(nodeMap, rank, node.parentId)
    decreases if Truthy(node.parentId) && node.parentId.value in nodeMap then rank[node.parentId.value] + 1 else 0
  {
    if !Truthy(node.parentId) then 0
    else if node.parentId.value !in nodeMap then 0
    else CalculateNodeLevel(nodeMap[node.parentId.value], nodeMap, rank) + 1
  }

  /** The stored ancestors of a node, nearest first: each one the parent of the one before. */
  ghost predicate StoredAncestors(nodeMap: map<string, Node>, node: Node, chain: seq<string>)
  {
    && (forall i :: 0 <= i < |chain| ==> chain[i] in nodeMap)
    && (chain != [] ==> Truthy(node.parentId) && node.parentId.value == chain[0])
    && (forall i :: 0 <= i < |chain| - 1 ==>
          Truthy(nodeMap[chain[i]].parentId) && nodeMap[chain[i]].parentId.value == chain[i + 1])
    && (var top := if chain == [] then node else nodeMap[chain[|chain| - 1]];
        !Truthy(top.parentId) || top.parentId.value !in nodeMap)
  }

  /** A node's level is the number of its stored ancestors. */
  lemma {:induction false} LevelCountsAncestors(node: Node, nodeMap: map<string, Node>, rank: map<string, nat>)
    returns (chain: seq<string>)
    requires RankedFrom(nodeMap, rank, node.parentId)
    ensures StoredAncestors(nodeMap, node, chain) && |chain| == CalculateNodeLevel(node, nodeMap, rank)
    decreases if Truthy(node.parentId) && node.parentId.value in nodeMap then rank[node.parentId.value] + 1 else 0
  {
    if !Truthy(node.parentId) || node.parentId.value !in nodeMap {
      chain := [];
    } else {
      var p := node.parentId.value;
      var rest := LevelCountsAncestors(nodeMap[p], nodeMap, rank);
      chain := [p] + rest;
      forall i | 0 <= i < |chain| - 1
        ensures Truthy(nodeMap[chain[i]].parentId) && nodeMap[chain[i]].parentId.value == chain[i + 1]
      {
        if i > 0 {
          assert chain[i] == rest[i - 1] && chain[i + 1] == rest[i];
        }
      }
    }
  }

  /**
   * The roadmap level and the mind-map depth (`getNodeDepth`) of a node
   * differ only in a parent link to a node that is not stored: the depth
   * counts that hop, the level does not.
   */
  lemma {:induction false} LevelAgainstDepth(node: Node, nodeMap: map<string, Node>, rank: map<string, nat>)
    requires RankedFrom(nodeMap, rank, node.parentId)
    ensures CalculateNodeLevel(node, nodeMap, rank) <= Hops(nodeMap, rank, node.parentId) <= CalculateNodeLevel(node, nodeMap, rank) + 1
    ensures ((forall k :: k in nodeMap && Truthy(nodeMap[k].parentId) ==> nodeMap[k].parentId.value in nodeMap)
             && (Truthy(node.parentId) ==> node.parentId.value in nodeMap)) ==>
      Hops(nodeMap, rank, node.parentId) == CalculateNodeLevel(node, nodeMap, rank)
    decreases if Truthy(node.parentId) && node.parentId.value in nodeMap then rank[node.parentId.value] + 1 else 0
  {
    if Truthy(node.parentId) && node.parentId.value in nodeMap {
      LevelAgainstDepth(nodeMap[node.parentId.value], nodeMap, rank);
    }
  }
}
