/**
 * The records the mind-map view receives (`MindMapNode`, `MindMapEdge`)
 * and what the layout engine puts in them: which stored nodes become view
 * nodes, the depth each one reports, which parent-child links become
 * edges and the colour of each edge.
 */
module MindmapView {
  import opened Wrappers
  import opened Seqs
  import opened NotionTypes

  datatype Position = Position(x: real, y: real)

  /** One node of the view (`MindMapNode`, of type `custom`), its `data` fields inlined. */
  datatype MindMapNode = MindMapNode(
    id: string,
    position: Position,
    nodeLabel: string,
    description: Option<string>,
    status: Option<Status>,
    priority: Option<Priority>,
    tags: Option<seq<string>>,
    expanded: bool,
    depth: nat,
    notionUrl: Option<string>,
    hasChildren: bool,
    isCollapsed: bool)

  /**
   * One edge of the view (`MindMapEdge`); every edge is `straight`, not
   * animated, two pixels wide and dashed `5,5`, so only its stroke varies.
   */
  datatype MindMapEdge = MindMapEdge(id: string, source: string, target: string, stroke: string)

  // ---------------------------------------------------------------------
  // Depth by parent links
  // ---------------------------------------------------------------------

  /** A rank that falls along every stored parent link out of a ranked key: the chains climbed from ranked keys end. */
  ghost predicate ParentRanked(nodes: map<string, Node>, rank: map<string, nat>)
  {
    forall k :: k in nodes && k in rank && Truthy(nodes[k].parentId) && nodes[k].parentId.value in nodes ==>
      nodes[k].parentId.value in rank && rank[nodes[k].parentId.value] < rank[k]
  }

  /** The chain climbed from the parent link `p` runs through ranked keys only, so it ends. */
  ghost predicate RankedFrom(nodes: map<string, Node>, rank: map<string, nat>, p: Option<string>)
  {
    ParentRanked(nodes, rank) && (Truthy(p) && p.value in nodes ==> p.value in rank)
  }

  /** Every stored node that is not hidden is ranked: the chain climbed from each one ends. */
  ghost predicate VisibleRanked(nodes: map<string, Node>, rank: map<string, nat>, hidden: set<string>)
  {
    ParentRanked(nodes, rank) && forall k :: k in nodes && k !in hidden ==> k in rank
  }

  /**
   * The hops `getNodeDepth` counts from a node whose parent link is `p`:
   * one per truthy link, the last one possibly to a node that is not stored.
   */
  ghost function Hops(nodes: map<string, Node>, rank: map<string, nat>, p: Option<string>): nat
    requires RankedFrom(nodes, rank, p)
    decreases if Truthy(p) && p.value in nodes then rank[p.value] + 1 else 0
  {
    if !Truthy(p) then 0
    else if p.value !in nodes then 1
    else 1 + Hops(nodes, rank, nodes[p.value].parentId)
  }

  /** The ancestor chain: the ids the parent links name, ending at a missing node or at one without a parent. */
  ghost predicate AncestorChain(nodes: map<string, Node>, p: Option<string>, chain: seq<string>)
  {
    && (!Truthy(p) <==> chain == [])
    && (chain != [] ==> chain[0] == p.value)
    && (forall i :: 0 <= i < |chain| - 1 ==>
          chain[i] in nodes && Truthy(nodes[chain[i]].parentId) && nodes[chain[i]].parentId.value == chain[i + 1])
    && (chain != [] ==> chain[|chain| - 1] !in nodes || !Truthy(nodes[chain[|chain| - 1]].parentId))
    && (forall i :: 0 <= i < |chain| ==> chain[i] != "")
  }

  /** The depth a node reports is the length of its ancestor chain. */
  lemma {:induction false} HopsCountAncestors(nodes: map<string, Node>, rank: map<string, nat>, p: Option<string>)
    returns (chain: seq<string>)
    requires RankedFrom(nodes, rank, p)
    ensures AncestorChain(nodes, p, chain) && |chain| == Hops(nodes, rank, p)
    decreases if Truthy(p) && p.value in nodes then rank[p.value] + 1 else 0
  {
    if !Truthy(p) {
      chain := [];
    } else if p.value !in nodes {
      chain := [p.value];
    } else {
      var rest := HopsCountAncestors(nodes, rank, nodes[p.value].parentId);
      chain := [p.value] + rest;
      forall i | 0 <= i < |chain| - 1
        ensures chain[i] in nodes && Truthy(nodes[chain[i]].parentId) && nodes[chain[i]].parentId.value == chain[i + 1]
      {
        if i > 0 {
          assert chain[i] == rest[i - 1] && chain[i + 1] == rest[i];
        }
      }
    }
  }

  // ---------------------------------------------------------------------
  // View nodes
  // ---------------------------------------------------------------------

  /** The keys, in order, that are not hidden. */
  function VisibleKeys(keys: seq<string>, hidden: set<string>): (r: seq<string>)
    ensures forall x :: x in r <==> x in keys && x !in hidden
    ensures |r| <= |keys|
  {
    if keys == [] then []
    else
      var init := VisibleKeys(keys[..|keys| - 1], hidden);
      var k := keys[|keys| - 1];
      assert keys == keys[..|keys| - 1] + [k];
      if k in hidden then init else init + [k]
  }

  /** Distinct keys stay distinct: no node is listed twice. */
  lemma {:induction false} VisibleKeysDistinct(keys: seq<string>, hidden: set<string>)
    requires forall i, j :: 0 <= i < j < |keys| ==> keys[i] != keys[j]
    ensures forall i, j :: 0 <= i < j < |VisibleKeys(keys, hidden)| ==>
      VisibleKeys(keys, hidden)[i] != VisibleKeys(keys, hidden)[j]
  {
    if keys != [] {
      var init := keys[..|keys| - 1];
      var last := keys[|keys| - 1];
      VisibleKeysDistinct(init, hidden);
      assert last !in init;
      var r0 := VisibleKeys(init, hidden);
      if last !in hidden {
        var r := r0 + [last];
        forall i, j | 0 <= i < j < |r|
          ensures r[i] != r[j]
        {
          if j == |r0| {
            assert r[i] in r0;
          }
        }
      }
    }
  }

  /** `positions.get(id) || { x: 0, y: 0 }`: an unplaced node sits at the origin. */
  function PositionOf(positions: map<string, Position>, id: string): Position
  {
    if id in positions then positions[id] else Position(0.0, 0.0)
  }

  /** The view node `createNodes` builds for the node stored under `id`. */
  ghost function ViewOf(nodes: map<string, Node>, rank: map<string, nat>, positions: map<string, Position>,
                        collapsed: set<string>, id: string): MindMapNode
    requires ParentRanked(nodes, rank) && id in nodes && id in rank
  {
    var node := nodes[id];
    MindMapNode(id, PositionOf(positions, id), node.title, node.description, node.status, node.priority,
                node.tags, id !in collapsed, Hops(nodes, rank, node.parentId), node.notionUrl,
                |node.children| > 0, id in collapsed)
  }

  /** The view nodes of `ids`, in order. */
  ghost function ViewsOf(nodes: map<string, Node>, rank: map<string, nat>, positions: map<string, Position>,
                         collapsed: set<string>, ids: seq<string>): seq<MindMapNode>
    requires ParentRanked(nodes, rank) && forall id :: id in ids ==> id in nodes && id in rank
  {
    if ids == [] then []
    else ViewsOf(nodes, rank, positions, collapsed, ids[..|ids| - 1]) + [ViewOf(nodes, rank, positions, collapsed, ids[|ids| - 1])]
  }

  /** Entry `j` of the view nodes of `ids` is the view node of `ids[j]`. */
  lemma {:induction false} ViewsOfAt(nodes: map<string, Node>, rank: map<string, nat>, positions: map<string, Position>,
                                     collapsed: set<string>, ids: seq<string>)
    requires ParentRanked(nodes, rank) && forall id :: id in ids ==> id in nodes && id in rank
    ensures var r := ViewsOf(nodes, rank, positions, collapsed, ids);
      |r| == |ids| && forall j :: 0 <= j < |ids| ==> r[j] == ViewOf(nodes, rank, positions, collapsed, ids[j])
  {
    if ids != [] {
      var init := ids[..|ids| - 1];
      ViewsOfAt(nodes, rank, positions, collapsed, init);
      forall j | 0 <= j < |ids|
        ensures ViewsOf(nodes, rank, positions, collapsed, ids)[j] == ViewOf(nodes, rank, positions, collapsed, ids[j])
      {
        if j < |init| {
          assert ids[j] == init[j];
        }
      }
    }
  }

  lemma ViewsOfSnoc(nodes: map<string, Node>, rank: map<string, nat>, positions: map<string, Position>,
                    collapsed: set<string>, ids: seq<string>, id: string)
    requires ParentRanked(nodes, rank) && id in nodes && id in rank && forall x :: x in ids ==> x in nodes && x in rank
    ensures ViewsOf(nodes, rank, positions, collapsed, ids + [id]) ==
      ViewsOf(nodes, rank, positions, collapsed, ids) + [ViewOf(nodes, rank, positions, collapsed, id)]
  {
    assert (ids + [id])[..|ids|] == ids;
  }

  /** The keys one step longer: the visible keys gain the new key unless it is hidden. */
  lemma VisibleKeysSnoc(keys: seq<string>, hidden: set<string>, i: nat)
    requires i < |keys|
    ensures VisibleKeys(keys[..i + 1], hidden) ==
      VisibleKeys(keys[..i], hidden) + (if keys[i] in hidden then [] else [keys[i]])
  {
    assert keys[..i + 1][..i] == keys[..i];
  }

  /** `r` holds one view node per visible key, in key order. */
  ghost predicate ViewNodes(t: Tree, rank: map<string, nat>, positions: map<string, Position>,
                            collapsed: set<string>, hidden: set<string>, r: seq<MindMapNode>)
    requires t.Valid() && VisibleRanked(t.nodes, rank, hidden)
  {
    r == ViewsOf(t.nodes, rank, positions, collapsed, VisibleKeys(t.keys, hidden))
  }

  /** The view nodes are exactly the stored nodes that are not hidden, each once. */
  lemma ViewNodesAreVisible(t: Tree, rank: map<string, nat>, positions: map<string, Position>,
                            collapsed: set<string>, hidden: set<string>, r: seq<MindMapNode>)
    requires t.Valid() && VisibleRanked(t.nodes, rank, hidden)
    requires ViewNodes(t, rank, positions, collapsed, hidden, r)
    ensures forall id :: (exists i :: 0 <= i < |r| && r[i].id == id) <==> id in t.nodes && id !in hidden
    ensures forall i, j :: 0 <= i < j < |r| ==> r[i].id != r[j].id
  {
    var vis := VisibleKeys(t.keys, hidden);
    VisibleKeysDistinct(t.keys, hidden);
    ViewsOfAt(t.nodes, rank, positions, collapsed, vis);
    assert |r| == |vis|;
    assert forall i :: 0 <= i < |r| ==> r[i].id == vis[i];
    forall id | id in t.nodes && id !in hidden
      ensures exists i :: 0 <= i < |r| && r[i].id == id
    {
      var i :| 0 <= i < |vis| && vis[i] == id;
      assert r[i].id == id;
    }
  }

  // ---------------------------------------------------------------------
  // Edge colours
  // ---------------------------------------------------------------------

  /** `getEdgeColor`: grey for a missing child, else the child's status colour, a missing status read as `todo`. */
  function EdgeColor(child: Option<Node>): (r: string)
  {
    if child.None? then "#888"
    else match child.value.status.GetOr(Todo)
      case Done => "#10b981"
      case InProgress => "#3b82f6"
      case Blocked => "#ef4444"
      case Todo => "#6b7280"
  }

  /** The grey stroke marks exactly the edges whose child is not stored; each status has its own colour. */
  lemma EdgeColorSeparates(a: Option<Node>, b: Option<Node>)
    ensures EdgeColor(a) == "#888" <==> a.None?
    ensures a.Some? && b.Some? ==>
      (EdgeColor(a) == EdgeColor(b) <==> a.value.status.GetOr(Todo) == b.value.status.GetOr(Todo))
  {
  }

  // ---------------------------------------------------------------------
  // Edges
  // ---------------------------------------------------------------------

  /** `tree.nodes.get(k)`. */
  function Lookup(nodes: map<string, Node>, k: string): (r: Option<Node>)
  {
    if k in nodes then Some(nodes[k]) else None
  }

  /** The edge from `node` to its child `c`, with the id `${node.id}-${childId}`. */
  function EdgeOf(nodes: map<string, Node>, node: Node, c: string): MindMapEdge
  {
    MindMapEdge(node.id + "-" + c, node.id, c, EdgeColor(Lookup(nodes, c)))
  }

  /** The edges `node` offers: one per listed child that is not hidden, in child order. */
  function ChildEdges(nodes: map<string, Node>, hidden: set<string>, node: Node, cs: seq<string>): (r: seq<MindMapEdge>)
    ensures forall e :: e in r <==> exists c :: c in cs && c !in hidden && e == EdgeOf(nodes, node, c)
  {
    if cs == [] then []
    else
      var init := ChildEdges(nodes, hidden, node, cs[..|cs| - 1]);
      var c := cs[|cs| - 1];
      assert cs == cs[..|cs| - 1] + [c];
      if c in hidden then init else init + [EdgeOf(nodes, node, c)]
  }

  /** The edges a visible stored node offers, none for a hidden one. */
  function NodeEdges(nodes: map<string, Node>, hidden: set<string>, node: Node): seq<MindMapEdge>
  {
    if node.id in hidden then [] else ChildEdges(nodes, hidden, node, node.children)
  }

  lemma ChildEdgesSnoc(nodes: map<string, Node>, hidden: set<string>, node: Node, cs: seq<string>, j: nat)
    requires j < |cs|
    ensures ChildEdges(nodes, hidden, node, cs[..j + 1]) ==
      ChildEdges(nodes, hidden, node, cs[..j]) + (if cs[j] in hidden then [] else [EdgeOf(nodes, node, cs[j])])
  {
    assert cs[..j + 1][..j] == cs[..j];
  }

  /** All offered edges, node by node in key order. */
  function Candidates(nodes: map<string, Node>, hidden: set<string>, keys: seq<string>): (r: seq<MindMapEdge>)
    requires forall k :: k in keys ==> k in nodes
  {
    if keys == [] then []
    else Candidates(nodes, hidden, keys[..|keys| - 1]) + NodeEdges(nodes, hidden, nodes[keys[|keys| - 1]])
  }

  lemma CandidatesSnoc(nodes: map<string, Node>, hidden: set<string>, keys: seq<string>, i: nat)
    requires i < |keys| && forall k :: k in keys ==> k in nodes
    ensures Candidates(nodes, hidden, keys[..i + 1]) ==
      Candidates(nodes, hidden, keys[..i]) + NodeEdges(nodes, hidden, nodes[keys[i]])
  {
    assert keys[..i + 1][..i] == keys[..i];
  }

  /** An edge is offered exactly when it joins a visible stored node to a visible listed child. */
  lemma {:induction false} CandidateMembers(nodes: map<string, Node>, hidden: set<string>, keys: seq<string>, e: MindMapEdge)
    requires forall k :: k in keys ==> k in nodes
    ensures e in Candidates(nodes, hidden, keys) <==>
      exists k, c :: k in keys && c in nodes[k].children && nodes[k].id !in hidden && c !in hidden
                     && e == EdgeOf(nodes, nodes[k], c)
  {
    if keys != [] {
      var init := keys[..|keys| - 1];
      var last := keys[|keys| - 1];
      assert keys == init + [last];
      CandidateMembers(nodes, hidden, init, e);
      if e in NodeEdges(nodes, hidden, nodes[last]) {
        var c :| c in nodes[last].children && c !in hidden && e == EdgeOf(nodes, nodes[last], c);
        assert last in keys;
      }
      if exists k, c :: k in keys && c in nodes[k].children && nodes[k].id !in hidden && c !in hidden
                        && e == EdgeOf(nodes, nodes[k], c) {
        var k, c :| k in keys && c in nodes[k].children && nodes[k].id !in hidden && c !in hidden
                    && e == EdgeOf(nodes, nodes[k], c);
        if k != last {
          assert k in init;
        }
      }
    }
  }

  /** The ids already emitted. */
  function IdsOf(es: seq<MindMapEdge>): set<string>
  {
    set e | e in es :: e.id
  }

  /** Emit `es` after `acc`, each one only when its id has not been emitted yet (`visited` in `createEdges`). */
  function Dedup(acc: seq<MindMapEdge>, es: seq<MindMapEdge>): seq<MindMapEdge>
  {
    if es == [] then acc
    else
      var before := Dedup(acc, es[..|es| - 1]);
      var e := es[|es| - 1];
      if e.id in IdsOf(before) then before else before + [e]
  }

  /** One more edge: emitted unless its id already was. */
  lemma DedupSnoc(acc: seq<MindMapEdge>, es: seq<MindMapEdge>, e: MindMapEdge)
    ensures Dedup(acc, es + [e]) ==
      (if e.id in IdsOf(Dedup(acc, es)) then Dedup(acc, es) else Dedup(acc, es) + [e])
  {
    assert (es + [e])[..|es|] == es;
  }

  lemma IdsOfSnoc(r: seq<MindMapEdge>, e: MindMapEdge)
    ensures IdsOf(r + [e]) == IdsOf(r) + {e.id}
  {
  }

  /** Emitting from distinct ids keeps them distinct, drops no id and invents no edge. */
  lemma {:induction false} DedupSpec(acc: seq<MindMapEdge>, es: seq<MindMapEdge>)
    requires forall i, j :: 0 <= i < j < |acc| ==> acc[i].id != acc[j].id
    ensures var r := Dedup(acc, es);
      && (forall i, j :: 0 <= i < j < |r| ==> r[i].id != r[j].id)
      && IdsOf(r) == IdsOf(acc) + IdsOf(es)
      && (forall e :: e in r ==> e in acc || e in es)
      && acc <= r
  {
    if es != [] {
      var init := es[..|es| - 1];
      var e := es[|es| - 1];
      assert es == init + [e];
      DedupSpec(acc, init);
      var before := Dedup(acc, init);
      if e.id !in IdsOf(before) {
        var r := before + [e];
        forall i, j | 0 <= i < j < |r|
          ensures r[i].id != r[j].id
        {
          if j == |before| {
            assert r[i] in before;
          }
        }
        assert IdsOf(r) == IdsOf(before) + {e.id};
      }
      assert IdsOf(es) == IdsOf(init) + {e.id};
    }
  }

  /** Emitting `a + b` is emitting `a`, then `b`. */
  lemma {:induction false} DedupAppend(acc: seq<MindMapEdge>, a: seq<MindMapEdge>, b: seq<MindMapEdge>)
    ensures Dedup(acc, a + b) == Dedup(Dedup(acc, a), b)
  {
    if b != [] {
      var init := b[..|b| - 1];
      assert (a + b)[..|a + b| - 1] == a + init;
      assert (a + b)[|a + b| - 1] == b[|b| - 1];
      DedupAppend(acc, a, init);
    } else {
      assert a + b == a;
    }
  }

  /** One more stored node: its offered edges are emitted after those of the nodes before it. */
  lemma EdgesStep(t: Tree, hidden: set<string>, i: nat, r: seq<MindMapEdge>)
    requires t.Valid() && i < |t.keys|
    requires r == Dedup([], Candidates(t.nodes, hidden, t.keys[..i]))
    ensures Dedup([], Candidates(t.nodes, hidden, t.keys[..i + 1])) == Dedup(r, NodeEdges(t.nodes, hidden, t.nodes[t.keys[i]]))
  {
    CandidatesSnoc(t.nodes, hidden, t.keys, i);
    DedupAppend([], Candidates(t.nodes, hidden, t.keys[..i]), NodeEdges(t.nodes, hidden, t.nodes[t.keys[i]]));
  }

  /** The edges `createEdges` returns. */
  function Edges(t: Tree, hidden: set<string>): seq<MindMapEdge>
    requires t.Valid()
  {
    Dedup([], Candidates(t.nodes, hidden, t.keys))
  }

  /**
   * The returned edges carry distinct ids; each joins a visible stored node
   * to a visible listed child, and every such link has an edge with its id.
   */
  lemma EdgesSpec(t: Tree, hidden: set<string>)
    requires t.Valid()
    ensures var r := Edges(t, hidden);
      && (forall i, j :: 0 <= i < j < |r| ==> r[i].id != r[j].id)
      && (forall e :: e in r ==>
            exists k, c :: k in t.nodes && c in t.nodes[k].children && t.nodes[k].id !in hidden && c !in hidden
                           && e == EdgeOf(t.nodes, t.nodes[k], c))
      && (forall k, c :: k in t.nodes && c in t.nodes[k].children && t.nodes[k].id !in hidden && c !in hidden ==>
            t.nodes[k].id + "-" + c in IdsOf(r))
  {
    var cands := Candidates(t.nodes, hidden, t.keys);
    DedupSpec([], cands);
    var r := Dedup([], cands);
    forall e | e in r
      ensures exists k, c :: k in t.nodes && c in t.nodes[k].children && t.nodes[k].id !in hidden && c !in hidden
                             && e == EdgeOf(t.nodes, t.nodes[k], c)
    {
      CandidateMembers(t.nodes, hidden, t.keys, e);
    }
    forall k, c | k in t.nodes && c in t.nodes[k].children && t.nodes[k].id !in hidden && c !in hidden
      ensures t.nodes[k].id + "-" + c in IdsOf(r)
    {
      var e := EdgeOf(t.nodes, t.nodes[k], c);
      CandidateMembers(t.nodes, hidden, t.keys, e);
      assert e in cands;
      assert e.id in IdsOf(cands);
    }
  }
}
