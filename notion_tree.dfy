/**
 * `buildTree` of the Notion client (src/api/notionDirect.ts): the hierarchy
 * under the known root, or, when that root is absent, the part of the map
 * that takes part in a parent relation, under one root or a synthesised
 * `virtual-root`.
 *
 * The map is the insertion-ordered pair `keys`/`nodes` of `NotionTypes`.
 * Nodes are objects shared between the input map and the result, so the
 * result holds each node in its final state; the model threads the node map
 * through the walk and reads the result from its final value.
 */
module NotionTree {
  import opened Wrappers
  import opened Seqs
  import opened Strings
  import opened NotionTypes
  import opened NotionDirect

  /** The id of the known root page. */
  const RootId: string := "269c2345-ab46-819c-9b6c-e2eda20aba4c"

  /** The id of the synthesised root. */
  const VirtualRootId: string := "virtual-root"

  // ---------------------------------------------------------------------
  // Root lookup
  // ---------------------------------------------------------------------

  /**
   * `r` is the key under which `buildTree` finds the root `rootId`: the
   * exact id, else the id without dashes, else the last key in map order
   * whose dash-free form equals the dash-free id; `None` when there is none.
   */
  ghost predicate IsRootKey(rootId: string, keys: seq<string>, nodes: map<string, Node>, r: Option<string>)
  {
    && (rootId in nodes ==> r == Some(rootId))
    && (rootId !in nodes && StripDashes(rootId) in nodes ==> r == Some(StripDashes(rootId)))
    && (rootId !in nodes && StripDashes(rootId) !in nodes ==>
          && (r.Some? <==> exists i :: 0 <= i < |keys| && StripDashes(keys[i]) == StripDashes(rootId))
          && (r.Some? ==> exists i :: 0 <= i < |keys| && keys[i] == r.value
                            && StripDashes(keys[i]) == StripDashes(rootId)
                            && forall j :: i < j < |keys| ==> StripDashes(keys[j]) != StripDashes(rootId)))
    && (r.Some? ==> r.value in nodes)
  }

  /** The root lookup of `buildTree`. */
  method FindRootKey(rootId: string, keys: seq<string>, nodes: map<string, Node>) returns (r: Option<string>)
    requires KeysOf(keys, nodes)
    ensures IsRootKey(rootId, keys, nodes, r)
  {
    if rootId in nodes {
      return Some(rootId);
    }
    var alternative := StripDashes(rootId);
    if alternative in nodes {
      return Some(alternative);
    }
    r := None;
    ghost var at := 0;
    for i := 0 to |keys|
      invariant r.None? <==> forall j :: 0 <= j < i ==> StripDashes(keys[j]) != alternative
      invariant r.Some? ==> 0 <= at < i && keys[at] == r.value && StripDashes(keys[at]) == alternative
                            && forall j :: at < j < i ==> StripDashes(keys[j]) != alternative
    {
      if StripDashes(keys[i]) == alternative {
        r := Some(keys[i]);
        at := i;
      }
    }
  }

  // ---------------------------------------------------------------------
  // The walk from the root (`addNodeAndDescendants`)
  // ---------------------------------------------------------------------

  /** Every id the walk can meet: the keys and every listed child of `g`. */
  ghost predicate InUniverse(u: set<string>, g: map<string, Node>)
  {
    && (forall k :: k in g ==> k in u)
    && (forall k, c :: k in g && c in g[k].children ==> c in u)
  }

  /** Node `k` is finished: its children and the nodes naming it as parent are all visited. */
  ghost predicate Closed(g: map<string, Node>, visited: set<string>, k: string)
    requires k in g
  {
    && (forall c :: c in g[k].children ==> c in visited)
    && (forall o :: o in g && g[o].parentId == Some(k) ==> o in visited)
  }

  /** Each entry of `order` after the first is listed as a child by the earlier entry `from` names. */
  ghost predicate Spanning(g: map<string, Node>, order: seq<string>, from: seq<nat>)
  {
    && |from| == |order|
    && (forall i :: 0 <= i < |order| ==> order[i] in g)
    && (forall i :: 0 < i < |order| ==> from[i] < i && order[i] in g[order[from[i]]].children)
  }

  /** The state of the walk: the keys collected so far are exactly the visited keys, once each. */
  ghost predicate Walk(u: set<string>, g: map<string, Node>, visited: set<string>, order: seq<string>, from: seq<nat>)
  {
    && InUniverse(u, g) && visited <= u
    && Spanning(g, order, from)
    && (forall i, j :: 0 <= i < j < |order| ==> order[i] != order[j])
    && (forall i :: 0 <= i < |order| ==> order[i] in visited)
    && (forall k :: k in g && k in visited ==> k in order)
  }

  /** `g` is `g0` with children lists only extended, each extension a node naming its lister as parent. */
  ghost predicate Backfilled(g0: map<string, Node>, g: map<string, Node>)
  {
    && g.Keys == g0.Keys
    && (forall k :: k in g ==> SameFields(g0[k], g[k]) && g[k].parentId == g0[k].parentId)
    && (forall k :: k in g ==> g0[k].children <= g[k].children)
    && AppendsJustified(g0, g)
  }

  lemma BackfilledTrans(g0: map<string, Node>, g1: map<string, Node>, g2: map<string, Node>)
    requires Backfilled(g0, g1) && Backfilled(g1, g2)
    ensures Backfilled(g0, g2)
  {
    forall k | k in g2
      ensures SameFields(g0[k], g2[k]) && g0[k].children <= g2[k].children
    {
      assert g1[k].children <= g2[k].children;
    }
    forall k, j | k in g2 && |g0[k].children| <= j < |g2[k].children|
      ensures g2[k].children[j] in g2 && g2[g2[k].children[j]].parentId == Some(k)
    {
      if j < |g1[k].children| {
        assert g2[k].children[j] == g1[k].children[j];
      }
    }
  }

  /** Children only growing keeps the spanning links and the universe. */
  lemma SpanningGrown(u: set<string>, g0: map<string, Node>, g: map<string, Node>, order: seq<string>, from: seq<nat>)
    requires Backfilled(g0, g) && Spanning(g0, order, from) && InUniverse(u, g0)
    ensures Spanning(g, order, from) && InUniverse(u, g)
  {
    forall i | 0 < i < |order|
      ensures order[i] in g[order[from[i]]].children
    {
      var p := order[from[i]];
      var t :| 0 <= t < |g0[p].children| && g0[p].children[t] == order[i];
      assert g[p].children[t] == order[i];
    }
    forall k, c | k in g && c in g[k].children
      ensures c in u
    {
      var t :| 0 <= t < |g[k].children| && g[k].children[t] == c;
      if t < |g0[k].children| {
        assert g0[k].children[t] == c;
      }
    }
  }

  /** A node left unchanged keeps being closed as the visited set grows. */
  lemma ClosedGrown(g0: map<string, Node>, g: map<string, Node>, v0: set<string>, v: set<string>, k: string)
    requires Backfilled(g0, g) && v0 <= v && k in g0 && g[k] == g0[k] && Closed(g0, v0, k)
    ensures Closed(g, v, k)
  {
  }

  /**
   * Walk state (`g`, `v`, `o`, `f`) reached from (`g0`, `v0`, `o0`, `f0`):
   * the visited set and collected keys only grow, nodes outside `pending`
   * change only once they are newly visited, and each newly visited node
   * outside `pending` is closed.
   */
  ghost predicate Progress(u: set<string>, g0: map<string, Node>, v0: set<string>, o0: seq<string>, f0: seq<nat>,
                           g: map<string, Node>, v: set<string>, o: seq<string>, f: seq<nat>, pending: set<string>)
  {
    && Walk(u, g, v, o, f) && Backfilled(g0, g)
    && v0 <= v && o0 <= o && f0 <= f
    && (forall k :: k in g && k !in pending && (k in v0 || k !in v) ==> g[k] == g0[k])
    && (forall k :: k in g && k in v && k !in v0 && k !in pending ==> Closed(g, v, k))
  }

  lemma ProgressTrans(u: set<string>,
                      gA: map<string, Node>, vA: set<string>, oA: seq<string>, fA: seq<nat>,
                      gB: map<string, Node>, vB: set<string>, oB: seq<string>, fB: seq<nat>,
                      gC: map<string, Node>, vC: set<string>, oC: seq<string>, fC: seq<nat>,
                      p: set<string>, q: set<string>)
    requires Progress(u, gA, vA, oA, fA, gB, vB, oB, fB, p)
    requires Progress(u, gB, vB, oB, fB, gC, vC, oC, fC, q)
    requires q <= p
    ensures Progress(u, gA, vA, oA, fA, gC, vC, oC, fC, p)
  {
    BackfilledTrans(gA, gB, gC);
    forall k | k in gC && k in vC && k !in vA && k !in p
      ensures Closed(gC, vC, k)
    {
      if k in vB {
        ClosedGrown(gB, gC, vB, vC, k);
      }
    }
  }

  /**
   * `addNodeAndDescendants(nodeId)`: mark `nodeId` visited; when it is a
   * key, collect it, walk its children, then the nodes naming it as parent.
   * `link` is the position in `o0` of a collected node listing `nodeId`.
   */
  method AddNodeAndDescendants(ghost u: set<string>, keys: seq<string>, g0: map<string, Node>,
                               v0: set<string>, o0: seq<string>, ghost f0: seq<nat>,
                               nodeId: string, ghost link: nat)
    returns (g: map<string, Node>, v: set<string>, o: seq<string>, ghost f: seq<nat>)
    requires KeysOf(keys, g0) && Walk(u, g0, v0, o0, f0) && nodeId in u
    requires nodeId !in v0 && o0 != [] ==> link < |o0| && nodeId in g0[o0[link]].children
    ensures Progress(u, g0, v0, o0, f0, g, v, o, f, {}) && nodeId in v
    ensures nodeId !in v0 && nodeId in g0 ==> |o| > |o0| && o[|o0|] == nodeId
    decreases u - v0, 3
  {
    g, v, o, f := g0, v0, o0, f0;
    if nodeId in v0 {
      return;
    }
    v := v0 + {nodeId};
    if nodeId !in g0 {
      return;
    }
    o := o0 + [nodeId];
    f := f0 + [link];
    VisitStart(u, g0, v0, o0, f0, nodeId, link);
    var g1, v1, o1, f1 := WalkChildren(u, keys, g, v, o, f, nodeId, |o0|);
    ProgressTrans(u, g0, v0, o0, f0, g, v, o, f, g1, v1, o1, f1, {nodeId}, {});
    g, v, o, f := WalkReferrers(u, keys, g1, v1, o1, f1, nodeId, |o0|);
    ProgressTrans(u, g0, v0, o0, f0, g1, v1, o1, f1, g, v, o, f, {nodeId}, {nodeId});
    VisitSettle(u, g0, v0, o0, f0, g, v, o, f, nodeId);
  }

  /** Collecting an unvisited key, linked from an earlier collected lister, starts a walk step pending on it. */
  lemma VisitStart(u: set<string>, g0: map<string, Node>, v0: set<string>, o0: seq<string>, f0: seq<nat>,
                   nodeId: string, link: nat)
    requires Walk(u, g0, v0, o0, f0) && nodeId in u && nodeId !in v0 && nodeId in g0
    requires o0 != [] ==> link < |o0| && nodeId in g0[o0[link]].children
    ensures Progress(u, g0, v0, o0, f0, g0, v0 + {nodeId}, o0 + [nodeId], f0 + [link], {nodeId})
  {
    var o := o0 + [nodeId];
    var f := f0 + [link];
    assert Spanning(g0, o, f) by {
      forall i | 0 < i < |o|
        ensures f[i] < i && o[i] in g0[o[f[i]]].children
      {
        if i < |o0| {
          assert o[i] == o0[i] && f[i] == f0[i] && o[f[i]] == o0[f0[i]];
        }
      }
    }
    assert forall i :: 0 <= i < |o0| ==> o0[i] in v0;
  }

  /** Once the pending key is closed, the step is settled. */
  lemma VisitSettle(u: set<string>, g0: map<string, Node>, v0: set<string>, o0: seq<string>, f0: seq<nat>,
                    g: map<string, Node>, v: set<string>, o: seq<string>, f: seq<nat>, nodeId: string)
    requires Progress(u, g0, v0, o0, f0, g, v, o, f, {nodeId})
    requires nodeId in g && nodeId in v && nodeId !in v0 && Closed(g, v, nodeId)
    ensures Progress(u, g0, v0, o0, f0, g, v, o, f, {})
  {
  }

  /** The children loop of `addNodeAndDescendants` for the collected node at `here`. */
  method WalkChildren(ghost u: set<string>, keys: seq<string>, g0: map<string, Node>,
                      v0: set<string>, o0: seq<string>, ghost f0: seq<nat>,
                      nodeId: string, ghost here: nat)
    returns (g: map<string, Node>, v: set<string>, o: seq<string>, ghost f: seq<nat>)
    requires KeysOf(keys, g0) && Walk(u, g0, v0, o0, f0)
    requires nodeId in g0 && nodeId in v0 && here < |o0| && o0[here] == nodeId
    ensures Progress(u, g0, v0, o0, f0, g, v, o, f, {})
    ensures forall c :: c in g0[nodeId].children ==> c in v
    decreases u - (v0 - {nodeId}), 1
  {
    g, v, o, f := g0, v0, o0, f0;
    var cs := g[nodeId].children;
    for j := 0 to |cs|
      invariant Progress(u, g0, v0, o0, f0, g, v, o, f, {})
      invariant forall c :: c in cs[..j] ==> c in v
    {
      PrefixSnoc(cs, j);
      assert o[here] == nodeId && g[nodeId] == g0[nodeId];
      var g1, v1, o1, f1 := AddNodeAndDescendants(u, keys, g, v, o, f, cs[j], here);
      ProgressTrans(u, g0, v0, o0, f0, g, v, o, f, g1, v1, o1, f1, {}, {});
      g, v, o, f := g1, v1, o1, f1;
    }
    PrefixFull(cs);
  }

  /**
   * The referrer loop of `addNodeAndDescendants`: in map order, each
   * unvisited node naming `nodeId` as parent is appended to its children
   * when missing and walked.
   */
  method WalkReferrers(ghost u: set<string>, keys: seq<string>, g0: map<string, Node>,
                       v0: set<string>, o0: seq<string>, ghost f0: seq<nat>,
                       nodeId: string, ghost here: nat)
    returns (g: map<string, Node>, v: set<string>, o: seq<string>, ghost f: seq<nat>)
    requires KeysOf(keys, g0) && Walk(u, g0, v0, o0, f0)
    requires nodeId in g0 && nodeId in v0 && here < |o0| && o0[here] == nodeId
    requires forall c :: c in g0[nodeId].children ==> c in v0
    ensures Progress(u, g0, v0, o0, f0, g, v, o, f, {nodeId})
    ensures Closed(g, v, nodeId)
    decreases u - (v0 - {nodeId}), 2
  {
    g, v, o, f := g0, v0, o0, f0;
    for j := 0 to |keys|
      invariant Progress(u, g0, v0, o0, f0, g, v, o, f, {nodeId})
      invariant forall c :: c in g[nodeId].children ==> c in v
      invariant forall k :: k in keys[..j] && g[k].parentId == Some(nodeId) ==> k in v
    {
      g, v, o, f := ReferrerStep(u, keys, g0, v0, o0, f0, g, v, o, f, nodeId, here, j);
    }
    PrefixFull(keys);
  }

  /** One turn of the referrer loop: the walk state from the loop's start is kept, and `keys[j]` is settled. */
  method ReferrerStep(ghost u: set<string>, keys: seq<string>,
                      ghost g0: map<string, Node>, ghost v0: set<string>, ghost o0: seq<string>, ghost f0: seq<nat>,
                      gA: map<string, Node>, vA: set<string>, oA: seq<string>, ghost fA: seq<nat>,
                      nodeId: string, ghost here: nat, j: nat)
    returns (g: map<string, Node>, v: set<string>, o: seq<string>, ghost f: seq<nat>)
    requires KeysOf(keys, g0) && j < |keys|
    requires nodeId in g0 && nodeId in v0 && here < |o0| && o0[here] == nodeId
    requires Progress(u, g0, v0, o0, f0, gA, vA, oA, fA, {nodeId})
    requires forall c :: c in gA[nodeId].children ==> c in vA
    requires forall k :: k in keys[..j] && gA[k].parentId == Some(nodeId) ==> k in vA
    ensures Progress(u, g0, v0, o0, f0, g, v, o, f, {nodeId})
    ensures forall c :: c in g[nodeId].children ==> c in v
    ensures forall k :: k in keys[..j + 1] && g[k].parentId == Some(nodeId) ==> k in v
    decreases u - (vA - {nodeId}), 1
  {
    PrefixSnoc(keys, j);
    assert oA[here] == nodeId;
    g, v, o, f := VisitReferrer(u, keys, gA, vA, oA, fA, nodeId, here, keys[j]);
    ReferrersKept(gA, vA, g, v, keys[..j], nodeId);
    ProgressTrans(u, g0, v0, o0, f0, gA, vA, oA, fA, g, v, o, f, {nodeId}, {nodeId});
  }

  /** A referrer step keeps every earlier referrer visited: parent links never change and visits only grow. */
  lemma ReferrersKept(g: map<string, Node>, v: set<string>, g1: map<string, Node>, v1: set<string>,
                      ks: seq<string>, nodeId: string)
    requires Backfilled(g, g1) && v <= v1
    requires forall k :: k in ks ==> k in g
    requires forall k :: k in ks && g[k].parentId == Some(nodeId) ==> k in v
    ensures forall k :: k in ks && g1[k].parentId == Some(nodeId) ==> k in v1
  {
  }

  /** One step of the referrer loop, for the node under key `other`. */
  method VisitReferrer(ghost u: set<string>, keys: seq<string>, g0: map<string, Node>,
                       v0: set<string>, o0: seq<string>, ghost f0: seq<nat>,
                       nodeId: string, ghost here: nat, other: string)
    returns (g: map<string, Node>, v: set<string>, o: seq<string>, ghost f: seq<nat>)
    requires KeysOf(keys, g0) && Walk(u, g0, v0, o0, f0)
    requires nodeId in g0 && nodeId in v0 && here < |o0| && o0[here] == nodeId && other in g0
    requires forall c :: c in g0[nodeId].children ==> c in v0
    ensures Progress(u, g0, v0, o0, f0, g, v, o, f, {nodeId})
    ensures forall c :: c in g[nodeId].children ==> c in v
    ensures g0[other].parentId == Some(nodeId) ==> other in v
    decreases u - (v0 - {nodeId}), 0
  {
    g, v, o, f := g0, v0, o0, f0;
    if g[other].parentId == Some(nodeId) && other !in v {
      if other !in g[nodeId].children {
        PushReferrer(u, g0, v0, o0, f0, g, v, o, f, nodeId, other);
        g := g[nodeId := g[nodeId].(children := g[nodeId].children + [other])];
      }
      assert o[here] == nodeId;
      var g2, v2, o2, f2 := AddNodeAndDescendants(u, keys, g, v, o, f, other, here);
      ProgressTrans(u, g0, v0, o0, f0, g, v, o, f, g2, v2, o2, f2, {nodeId}, {});
      g, v, o, f := g2, v2, o2, f2;
    }
  }

  /** Appending a referrer to `nodeId`'s children keeps the walk state. */
  lemma PushReferrer(u: set<string>, g0: map<string, Node>, v0: set<string>, o0: seq<string>, f0: seq<nat>,
                     g: map<string, Node>, v: set<string>, o: seq<string>, f: seq<nat>, nodeId: string, other: string)
    requires Progress(u, g0, v0, o0, f0, g, v, o, f, {nodeId})
    requires nodeId in g && other in g && g[other].parentId == Some(nodeId) && other !in g[nodeId].children
    ensures var g1 := g[nodeId := g[nodeId].(children := g[nodeId].children + [other])];
      Progress(u, g0, v0, o0, f0, g1, v, o, f, {nodeId})
  {
    var g1 := g[nodeId := g[nodeId].(children := g[nodeId].children + [other])];
    PushBackfills(g, nodeId, other);
    SpanningGrown(u, g, g1, o, f);
    BackfilledTrans(g0, g, g1);
    PushKeepsClosed(g, v, v0, nodeId, other);
  }

  /** Appending a node that names `nodeId` as parent to `nodeId`'s children is a backfill. */
  lemma PushBackfills(g: map<string, Node>, nodeId: string, other: string)
    requires nodeId in g && other in g && g[other].parentId == Some(nodeId)
    ensures Backfilled(g, g[nodeId := g[nodeId].(children := g[nodeId].children + [other])])
  {
    var g1 := g[nodeId := g[nodeId].(children := g[nodeId].children + [other])];
    forall k, j | k in g1 && |g[k].children| <= j < |g1[k].children|
      ensures g1[k].children[j] in g1 && g1[g1[k].children[j]].parentId == Some(k)
    {
    }
  }

  /** The append touches only `nodeId`, so every other closed node stays closed. */
  lemma PushKeepsClosed(g: map<string, Node>, v: set<string>, v0: set<string>, nodeId: string, other: string)
    requires nodeId in g && forall k :: k in g && k in v && k !in v0 && k !in {nodeId} ==> Closed(g, v, k)
    ensures var g1 := g[nodeId := g[nodeId].(children := g[nodeId].children + [other])];
      forall k :: k in g1 && k in v && k !in v0 && k !in {nodeId} ==> Closed(g1, v, k)
  {
    var g1 := g[nodeId := g[nodeId].(children := g[nodeId].children + [other])];
    forall k | k in g1 && k in v && k !in v0 && k !in {nodeId}
      ensures Closed(g1, v, k)
    {
      assert Closed(g, v, k);
      assert g1[k] == g[k];
    }
  }

  /** The ids of the union of all children lists of `m`. */
  ghost function ChildIds(m: map<string, Node>): set<string>
  {
    set k, c | k in m && c in m[k].children :: c
  }

  /** The root, marked parentless, comes first and the keys list the collected nodes once each. */
  ghost predicate RootFirst(nodes: map<string, Node>, rk: string, t: Tree)
  {
    && rk in nodes
    && t.root.Some? && t.root.value.id == rk && t.root.value.parentId.None?
    && t.keys != [] && t.keys[0] == rk && rk in t.nodes && t.nodes[rk] == t.root.value
    && KeysOf(t.keys, t.nodes) && t.nodes.Keys <= nodes.Keys
  }

  /**
   * Every collected node is its input node with the root's parent cleared
   * and children extended only by nodes naming it as parent.
   */
  ghost predicate Backfill(nodes: map<string, Node>, rk: string, m: map<string, Node>)
    requires m.Keys <= nodes.Keys
  {
    && (forall k :: k in m ==>
          && SameFields(nodes[k], m[k])
          && m[k].parentId == (if k == rk then None else nodes[k].parentId)
          && nodes[k].children <= m[k].children)
    && (forall k, j :: k in m && |nodes[k].children| <= j < |m[k].children| ==>
          m[k].children[j] in m && m[m[k].children[j]].parentId == Some(k))
  }

  /** The collection is closed under children and under naming a collected node as parent. */
  ghost predicate ClosedUnder(nodes: map<string, Node>, rk: string, m: map<string, Node>)
  {
    && (forall k, c :: k in m && c in m[k].children && c in nodes ==> c in m)
    && (forall k, o :: k in m && o in nodes && o != rk && nodes[o].parentId == Some(k) ==> o in m)
  }

  /** Every entry after the first is listed as a child by an earlier entry. */
  ghost predicate ListedEarlier(keys: seq<string>, m: map<string, Node>)
    requires forall k :: k in keys ==> k in m
  {
    forall i :: 0 < i < |keys| ==> keys[i] in m && exists j :: 0 <= j < i && keys[i] in m[keys[j]].children
  }

  /** What `buildTree` returns as `t` once the root is found under key `rk`. */
  ghost predicate RootedTree(nodes: map<string, Node>, rk: string, t: Tree)
  {
    && RootFirst(nodes, rk, t)
    && Backfill(nodes, rk, t.nodes)
    && ClosedUnder(nodes, rk, t.nodes)
    && ListedEarlier(t.keys, t.nodes)
  }

  /** The collected part of the final walk state, in collection order. */
  function Collect(g: map<string, Node>, o: seq<string>): (m: map<string, Node>)
    requires forall k :: k in o ==> k in g
    ensures m.Keys == set k | k in o
    ensures forall k :: k in m ==> m[k] == g[k]
  {
    map k | k in o :: g[k]
  }

  /** The walk from the parentless root yields the tree `RootedTree` describes. */
  lemma {:induction false} WalkYieldsTree(u: set<string>, nodes: map<string, Node>, rk: string, g: map<string, Node>,
                                          g1: map<string, Node>, v: set<string>, o: seq<string>, f: seq<nat>)
    requires WellKeyed(nodes) && rk in nodes && g == nodes[rk := nodes[rk].(parentId := None)]
    requires Progress(u, g, {}, [], [], g1, v, o, f, {}) && |o| > 0 && o[0] == rk
    ensures forall k :: k in o ==> k in g1
    ensures var t := Tree(Some(g1[rk]), o, Collect(g1, o)); RootedTree(nodes, rk, t)
  {
    assert Walk(u, g1, v, o, f) && Backfilled(g, g1);
    assert Spanning(g1, o, f);
    WalkRootFirst(nodes, rk, g, g1, o);
    BackfillHolds(nodes, rk, g, g1, o);
    WalkClosedUnder(nodes, rk, g, g1, v, o);
    WalkListed(g1, o, f);
  }

  /** The walk collects the parentless root first and each key once. */
  lemma WalkRootFirst(nodes: map<string, Node>, rk: string, g: map<string, Node>, g1: map<string, Node>, o: seq<string>)
    requires WellKeyed(nodes) && rk in nodes && g == nodes[rk := nodes[rk].(parentId := None)]
    requires Backfilled(g, g1) && |o| > 0 && o[0] == rk
    requires forall i :: 0 <= i < |o| ==> o[i] in g1
    requires forall i, j :: 0 <= i < j < |o| ==> o[i] != o[j]
    ensures RootFirst(nodes, rk, Tree(Some(g1[rk]), o, Collect(g1, o)))
  {
    assert SameFields(g[rk], g1[rk]);
  }

  /** Every collected key is closed, so the collection is closed under children and referrers. */
  lemma WalkClosedUnder(nodes: map<string, Node>, rk: string, g: map<string, Node>, g1: map<string, Node>,
                        v: set<string>, o: seq<string>)
    requires rk in nodes && g == nodes[rk := nodes[rk].(parentId := None)] && Backfilled(g, g1)
    requires forall k :: k in o ==> k in g1 && k in v
    requires forall k :: k in g1 && k in v ==> k in o
    requires forall k :: k in g1 && k in v ==> Closed(g1, v, k)
    ensures ClosedUnder(nodes, rk, Collect(g1, o))
  {
    var m := Collect(g1, o);
    forall k, c | k in m && c in m[k].children && c in nodes
      ensures c in m
    {
      assert Closed(g1, v, k);
    }
    forall k, x | k in m && x in nodes && x != rk && nodes[x].parentId == Some(k)
      ensures x in m
    {
      assert Closed(g1, v, k);
      assert g1[x].parentId == g[x].parentId;
    }
  }

  /** The spanning links of the walk list each later key as a child of an earlier one. */
  lemma WalkListed(g1: map<string, Node>, o: seq<string>, f: seq<nat>)
    requires Spanning(g1, o, f)
    ensures forall k :: k in o ==> k in g1
    ensures ListedEarlier(o, Collect(g1, o))
  {
    forall k | k in o
      ensures k in g1
    {
      var i :| 0 <= i < |o| && o[i] == k;
    }
    var m := Collect(g1, o);
    forall i | 0 < i < |o|
      ensures o[i] in m && exists j :: 0 <= j < i && o[i] in m[o[j]].children
    {
      var j := f[i];
      assert o[j] in m && m[o[j]] == g1[o[j]];
    }
  }

  lemma BackfillHolds(nodes: map<string, Node>, rk: string, g: map<string, Node>, g1: map<string, Node>, o: seq<string>)
    requires rk in nodes && g == nodes[rk := nodes[rk].(parentId := None)]
    requires Backfilled(g, g1) && forall k :: k in o ==> k in g1
    requires forall k, j :: k in o && |g[k].children| <= j < |g1[k].children| ==> g1[k].children[j] in o
    ensures Backfill(nodes, rk, Collect(g1, o))
  {
  }

  /** `buildTree` once the root is found under key `rk`. */
  method BuildFromRoot(keys: seq<string>, nodes: map<string, Node>, rk: string) returns (t: Tree)
    requires KeysOf(keys, nodes) && WellKeyed(nodes) && rk in nodes
    ensures RootedTree(nodes, rk, t) && Shaped(t)
  {
    var g := nodes[rk := nodes[rk].(parentId := None)];
    ghost var u := g.Keys + ChildIds(g);
    var g1, v, o, f := AddNodeAndDescendants(u, keys, g, {}, [], [], nodes[rk].id, 0);
    WalkYieldsTree(u, nodes, rk, g, g1, v, o, f);
    t := Tree(Some(g1[rk]), o, Collect(g1, o));
  }

  /** `path` follows children links of `m` from its first id to its last. */
  ghost predicate ChildPath(m: map<string, Node>, path: seq<string>)
  {
    && |path| > 0
    && (forall i :: 0 <= i < |path| ==> path[i] in m)
    && (forall i :: 0 <= i < |path| - 1 ==> path[i + 1] in m[path[i]].children)
  }

  /** Every collected node is reachable from the first through children links inside the collection. */
  lemma {:induction false} ListedEarlierReaches(keys: seq<string>, m: map<string, Node>, i: nat)
    returns (path: seq<string>)
    requires forall k :: k in keys ==> k in m
    requires ListedEarlier(keys, m) && i < |keys|
    ensures ChildPath(m, path) && path[0] == keys[0] && path[|path| - 1] == keys[i]
    decreases i
  {
    if i == 0 {
      path := [keys[0]];
    } else {
      var j :| 0 <= j < i && keys[i] in m[keys[j]].children;
      var prefix := ListedEarlierReaches(keys, m, j);
      ChildPathSnoc(m, prefix, keys[i]);
      path := prefix + [keys[i]];
    }
  }

  /** The rooted tree holds exactly nodes reachable from the root through their children. */
  lemma RootedTreeReachable(nodes: map<string, Node>, rk: string, t: Tree, k: string)
    requires RootedTree(nodes, rk, t) && k in t.nodes
    ensures exists path :: ChildPath(t.nodes, path) && path[0] == rk && path[|path| - 1] == k
  {
    var i :| 0 <= i < |t.keys| && t.keys[i] == k;
    var path := ListedEarlierReaches(t.keys, t.nodes, i);
  }

  lemma ChildPathSnoc(m: map<string, Node>, path: seq<string>, x: string)
    requires ChildPath(m, path) && x in m && x in m[path[|path| - 1]].children
    ensures ChildPath(m, path + [x]) && (path + [x])[0] == path[0]
  {
    var p := path + [x];
    forall i | 0 <= i < |p| - 1
      ensures p[i + 1] in m[p[i]].children
    {
      if i < |path| - 1 {
        assert p[i] == path[i] && p[i + 1] == path[i + 1];
      }
    }
  }

  // ---------------------------------------------------------------------
  // The fallback without the known root
  // ---------------------------------------------------------------------

  /** The keys, in map order, of the nodes that have a parent. */
  function WithParent(keys: seq<string>, nodes: map<string, Node>): seq<string>
  {
    if keys == [] then []
    else
      var init := WithParent(keys[..|keys| - 1], nodes);
      var k := keys[|keys| - 1];
      if k in nodes && nodes[k].parentId.Some? then init + [k] else init
  }

  /** The distinct parent ids named by the nodes, in order of first mention (the `parentIds` set). */
  function ParentOrder(keys: seq<string>, nodes: map<string, Node>): seq<string>
  {
    if keys == [] then []
    else
      var init := ParentOrder(keys[..|keys| - 1], nodes);
      var k := keys[|keys| - 1];
      if k in nodes && nodes[k].parentId.Some? && nodes[k].parentId.value !in init
      then init + [nodes[k].parentId.value] else init
  }

  /** The ids of `ps` that are parentless nodes, in order. */
  function RootParents(ps: seq<string>, nodes: map<string, Node>): seq<string>
  {
    if ps == [] then []
    else
      var init := RootParents(ps[..|ps| - 1], nodes);
      var p := ps[|ps| - 1];
      if p in nodes && nodes[p].parentId.None? then init + [p] else init
  }

  /**
   * The key order of `nodesWithRelationships`: the nodes with a parent, then
   * the named parents not already there.
   */
  function HierarchyKeys(keys: seq<string>, nodes: map<string, Node>): seq<string>
  {
    WithParent(keys, nodes) + RootParents(ParentOrder(keys, nodes), nodes)
  }

  /** The keys of `hk` the fallback takes as roots: parentless, and with children or named as a parent. */
  function Candidates(hk: seq<string>, nodes: map<string, Node>, ps: seq<string>): seq<string>
  {
    if hk == [] then []
    else
      var init := Candidates(hk[..|hk| - 1], nodes, ps);
      var k := hk[|hk| - 1];
      if k in nodes && nodes[k].parentId.None? && (|nodes[k].children| > 0 || k in ps) then init + [k] else init
  }

  /** The synthesised root over several candidate roots; `now` stands for the current time. */
  function VirtualRoot(roots: seq<string>, now: string): Node
  {
    Node(
      id := VirtualRootId,
      title := "Problem Hierarchy",
      description := Some(NatToString(|roots|) + " root problems"),
      parentId := None,
      children := roots,
      status := None,
      priority := None,
      tags := Some([]),
      createdAt := now,
      updatedAt := now,
      notionUrl := Some(""),
      clickUpId := None,
      impact := None,
      effort := None,
      solutionIds := None,
      afterIds := None,
      beforeIds := None,
      problemIds := None,
      isObjective := None,
      uniqueId := None)
  }

  /** The nodes of `m` under the keys of `ks`. */
  function Restrict(m: map<string, Node>, ks: seq<string>): (r: map<string, Node>)
    requires forall k :: k in ks ==> k in m
    ensures r.Keys == set k | k in ks
    ensures forall k :: k in r ==> r[k] == m[k]
  {
    map k | k in ks :: m[k]
  }

  lemma {:induction false} WithParentMembers(keys: seq<string>, nodes: map<string, Node>, k: string)
    ensures k in WithParent(keys, nodes) <==> k in keys && k in nodes && nodes[k].parentId.Some?
  {
    if keys != [] {
      WithParentMembers(keys[..|keys| - 1], nodes, k);
      PrefixSnoc(keys, |keys| - 1);
    }
  }

  lemma {:induction false} WithParentDistinct(keys: seq<string>, nodes: map<string, Node>)
    requires forall i, j :: 0 <= i < j < |keys| ==> keys[i] != keys[j]
    ensures forall i, j :: 0 <= i < j < |WithParent(keys, nodes)| ==>
      WithParent(keys, nodes)[i] != WithParent(keys, nodes)[j]
  {
    if keys != [] {
      var n := |keys| - 1;
      WithParentDistinct(keys[..n], nodes);
      WithParentMembers(keys[..n], nodes, keys[n]);
    }
  }

  lemma {:induction false} ParentOrderMembers(keys: seq<string>, nodes: map<string, Node>, p: string)
    ensures p in ParentOrder(keys, nodes) <==>
      exists i :: 0 <= i < |keys| && keys[i] in nodes && nodes[keys[i]].parentId == Some(p)
    ensures forall i, j :: 0 <= i < j < |ParentOrder(keys, nodes)| ==>
      ParentOrder(keys, nodes)[i] != ParentOrder(keys, nodes)[j]
  {
    if keys != [] {
      var n := |keys| - 1;
      ParentOrderMembers(keys[..n], nodes, p);
      if exists i :: 0 <= i < |keys| && keys[i] in nodes && nodes[keys[i]].parentId == Some(p) {
        var i :| 0 <= i < |keys| && keys[i] in nodes && nodes[keys[i]].parentId == Some(p);
        if i < n {
          assert keys[..n][i] == keys[i];
        }
      }
      if exists i :: 0 <= i < n && keys[..n][i] in nodes && nodes[keys[..n][i]].parentId == Some(p) {
        var i :| 0 <= i < n && keys[..n][i] in nodes && nodes[keys[..n][i]].parentId == Some(p);
        assert keys[i] == keys[..n][i];
      }
    }
  }

  lemma {:induction false} RootParentsMembers(ps: seq<string>, nodes: map<string, Node>, p: string)
    ensures p in RootParents(ps, nodes) <==> p in ps && p in nodes && nodes[p].parentId.None?
  {
    if ps != [] {
      RootParentsMembers(ps[..|ps| - 1], nodes, p);
      PrefixSnoc(ps, |ps| - 1);
    }
  }

  lemma {:induction false} RootParentsDistinct(ps: seq<string>, nodes: map<string, Node>)
    requires forall i, j :: 0 <= i < j < |ps| ==> ps[i] != ps[j]
    ensures forall i, j :: 0 <= i < j < |RootParents(ps, nodes)| ==>
      RootParents(ps, nodes)[i] != RootParents(ps, nodes)[j]
  {
    if ps != [] {
      var n := |ps| - 1;
      RootParentsDistinct(ps[..n], nodes);
      RootParentsMembers(ps[..n], nodes, ps[n]);
    }
  }

  lemma {:induction false} CandidatesAppend(a: seq<string>, b: seq<string>, nodes: map<string, Node>, ps: seq<string>)
    ensures Candidates(a + b, nodes, ps) == Candidates(a, nodes, ps) + Candidates(b, nodes, ps)
  {
    if b != [] {
      var n := |b| - 1;
      assert (a + b)[..|a + b| - 1] == a + b[..n];
      assert (a + b)[|a + b| - 1] == b[n];
      CandidatesAppend(a, b[..n], nodes, ps);
    } else {
      assert a + b == a;
    }
  }

  lemma {:induction false} CandidatesOfWithParent(keys: seq<string>, nodes: map<string, Node>, ps: seq<string>)
    ensures Candidates(WithParent(keys, nodes), nodes, ps) == []
  {
    if keys != [] {
      var n := |keys| - 1;
      CandidatesOfWithParent(keys[..n], nodes, ps);
      if keys[n] in nodes && nodes[keys[n]].parentId.Some? {
        CandidatesAppend(WithParent(keys[..n], nodes), [keys[n]], nodes, ps);
      }
    }
  }

  lemma {:induction false} CandidatesOfRootParents(qs: seq<string>, nodes: map<string, Node>, ps: seq<string>)
    requires forall q :: q in qs ==> q in ps
    ensures Candidates(RootParents(qs, nodes), nodes, ps) == RootParents(qs, nodes)
  {
    if qs != [] {
      var n := |qs| - 1;
      CandidatesOfRootParents(qs[..n], nodes, ps);
      if qs[n] in nodes && nodes[qs[n]].parentId.None? {
        CandidatesAppend(RootParents(qs[..n], nodes), [qs[n]], nodes, ps);
      }
    }
  }

  /**
   * The candidate roots are exactly the parentless nodes named as a parent,
   * in order of first mention: the `children.length > 0` test never decides.
   */
  lemma CandidatesAreRootParents(keys: seq<string>, nodes: map<string, Node>)
    ensures Candidates(HierarchyKeys(keys, nodes), nodes, ParentOrder(keys, nodes))
         == RootParents(ParentOrder(keys, nodes), nodes)
  {
    var ps := ParentOrder(keys, nodes);
    CandidatesAppend(WithParent(keys, nodes), RootParents(ps, nodes), nodes, ps);
    CandidatesOfWithParent(keys, nodes, ps);
    CandidatesOfRootParents(ps, nodes, ps);
  }

  /** A node belongs to the hierarchy exactly when it has a parent or is named as one. */
  lemma HierarchyMembers(keys: seq<string>, nodes: map<string, Node>, k: string)
    requires KeysOf(keys, nodes)
    ensures k in HierarchyKeys(keys, nodes) <==>
      k in nodes && (nodes[k].parentId.Some? || exists i :: 0 <= i < |keys| && nodes[keys[i]].parentId == Some(k))
  {
    ParentOrderMembers(keys, nodes, k);
    WithParentMembers(keys, nodes, k);
    RootParentsMembers(ParentOrder(keys, nodes), nodes, k);
  }

  /** No key is listed twice in the hierarchy. */
  lemma HierarchyDistinct(keys: seq<string>, nodes: map<string, Node>)
    requires KeysOf(keys, nodes)
    ensures forall i, j :: 0 <= i < j < |HierarchyKeys(keys, nodes)| ==>
      HierarchyKeys(keys, nodes)[i] != HierarchyKeys(keys, nodes)[j]
  {
    var wp := WithParent(keys, nodes);
    var ps := ParentOrder(keys, nodes);
    var rp := RootParents(ps, nodes);
    WithParentDistinct(keys, nodes);
    ParentOrderMembers(keys, nodes, "");
    RootParentsDistinct(ps, nodes);
    forall i, j | 0 <= i < |wp| && 0 <= j < |rp|
      ensures wp[i] != rp[j]
    {
      WithParentMembers(keys, nodes, wp[i]);
      RootParentsMembers(ps, nodes, rp[j]);
    }
    DisjointAppend(wp, rp);
  }

  /**
   * What `buildTree` returns as `t` without the known root: nothing when no
   * candidate root exists; the hierarchy under its only candidate; or the
   * hierarchy with `virtual-root` set in, listing the candidates as
   * children, each of which (but one keyed `virtual-root`) now names it as
   * parent.
   */
  ghost predicate FallbackTree(keys: seq<string>, nodes: map<string, Node>, now: string, t: Tree)
  {
    var hk := HierarchyKeys(keys, nodes);
    var cs := RootParents(ParentOrder(keys, nodes), nodes);
    && (forall k :: k in hk ==> k in nodes)
    && (|cs| == 0 ==> t == Tree(None, [], map[]))
    && (|cs| == 1 ==> t == Tree(Some(nodes[cs[0]]), hk, Restrict(nodes, hk)))
    && (|cs| > 1 ==>
          && t.root == Some(VirtualRoot(cs, now))
          && t.keys == (if VirtualRootId in hk then hk else hk + [VirtualRootId])
          && t.nodes.Keys == (set k | k in hk) + {VirtualRootId}
          && t.nodes[VirtualRootId] == VirtualRoot(cs, now)
          && forall k :: k in t.nodes && k != VirtualRootId ==>
               t.nodes[k] == if k in cs then nodes[k].(parentId := Some(VirtualRootId)) else nodes[k])
  }

  /** `hm` holds the nodes of `nodes` under the keys `hk`, each once. */
  ghost predicate Holds(hk: seq<string>, hm: map<string, Node>, nodes: map<string, Node>)
  {
    KeysOf(hk, hm) && forall k :: k in hm ==> k in nodes && hm[k] == nodes[k]
  }

  /** The first loop of the fallback: nodes with a parent, and the parents they name. */
  method CollectWithParent(keys: seq<string>, nodes: map<string, Node>)
    returns (hk: seq<string>, hm: map<string, Node>, parentIds: seq<string>)
    requires KeysOf(keys, nodes) && WellKeyed(nodes)
    ensures hk == WithParent(keys, nodes) && parentIds == ParentOrder(keys, nodes) && Holds(hk, hm, nodes)
  {
    hk, hm, parentIds := [], map[], [];
    for i := 0 to |keys|
      invariant hk == WithParent(keys[..i], nodes) && parentIds == ParentOrder(keys[..i], nodes)
      invariant Holds(hk, hm, nodes)
    {
      var k := keys[i];
      assert keys[..i + 1][..i] == keys[..i] && keys[..i + 1][i] == k;
      var node := nodes[k];
      if node.parentId.Some? {
        if node.parentId.value !in parentIds {
          parentIds := parentIds + [node.parentId.value];
        }
        WithParentMembers(keys[..i], nodes, k);
        hk := SetKey(hk, hm, node.id, node);
        hm := hm[node.id := node];
      }
    }
    PrefixFull(keys);
  }

  /** The second loop of the fallback: every named parent that is a node is set in. */
  method AddParents(keys: seq<string>, nodes: map<string, Node>, hk0: seq<string>, hm0: map<string, Node>,
                    parentIds: seq<string>)
    returns (hk: seq<string>, hm: map<string, Node>)
    requires KeysOf(keys, nodes) && WellKeyed(nodes)
    requires hk0 == WithParent(keys, nodes) && Holds(hk0, hm0, nodes)
    requires parentIds == ParentOrder(keys, nodes)
    ensures hk == HierarchyKeys(keys, nodes) && Holds(hk, hm, nodes)
  {
    hk, hm := hk0, hm0;
    ParentOrderMembers(keys, nodes, "");
    for j := 0 to |parentIds|
      invariant hk == hk0 + RootParents(parentIds[..j], nodes)
      invariant Holds(hk, hm, nodes)
    {
      var p := parentIds[j];
      AddParentStep(keys, nodes, hk0, parentIds, j, hk, hm);
      if p in nodes {
        hk := SetKey(hk, hm, p, nodes[p]);
        hm := hm[p := nodes[p]];
      }
    }
    PrefixFull(parentIds);
  }

  /** One more named parent: it is new to the hierarchy exactly when it is a node without a parent. */
  lemma AddParentStep(keys: seq<string>, nodes: map<string, Node>, hk0: seq<string>, parentIds: seq<string>,
                      j: nat, hk: seq<string>, hm: map<string, Node>)
    requires KeysOf(keys, nodes) && WellKeyed(nodes) && j < |parentIds|
    requires hk0 == WithParent(keys, nodes) && parentIds == ParentOrder(keys, nodes)
    requires hk == hk0 + RootParents(parentIds[..j], nodes) && Holds(hk, hm, nodes)
    ensures var p := parentIds[j];
      && (p in nodes ==> (p in hm <==> nodes[p].parentId.Some?))
      && hk0 + RootParents(parentIds[..j + 1], nodes) ==
           if p in nodes && nodes[p].parentId.None? then hk + [p] else hk
  {
    var p := parentIds[j];
    var ps := parentIds[..j];
    assert parentIds[..j + 1][..j] == ps && parentIds[..j + 1][j] == p;
    assert RootParents(parentIds[..j + 1], nodes) ==
      if p in nodes && nodes[p].parentId.None? then RootParents(ps, nodes) + [p] else RootParents(ps, nodes);
    ParentOrderMembers(keys, nodes, "");
    assert p !in ps;
    WithParentMembers(keys, nodes, p);
    RootParentsMembers(ps, nodes, p);
    AppendAssoc(hk0, RootParents(ps, nodes), [p]);
  }

  /** The third loop of the fallback: the candidate roots among the hierarchy, in its order. */
  method CollectCandidates(hk: seq<string>, hm: map<string, Node>, nodes: map<string, Node>, parentIds: seq<string>)
    returns (roots: seq<string>)
    requires Holds(hk, hm, nodes)
    ensures roots == Candidates(hk, nodes, parentIds)
  {
    roots := [];
    for j := 0 to |hk|
      invariant roots == Candidates(hk[..j], nodes, parentIds)
    {
      var node := hm[hk[j]];
      assert hk[..j + 1][..j] == hk[..j] && hk[..j + 1][j] == hk[j];
      if node.parentId.None? && (|node.children| > 0 || hk[j] in parentIds) {
        roots := roots + [hk[j]];
      }
    }
    PrefixFull(hk);
  }

  /** The last loop of the fallback: each candidate still in the map now names `virtual-root` as parent. */
  method Reparent(hm0: map<string, Node>, roots: seq<string>) returns (hm: map<string, Node>)
    requires forall r :: r in roots ==> r in hm0
    ensures hm.Keys == hm0.Keys
    ensures forall k :: k in hm ==>
      hm[k] == if k in roots && k != VirtualRootId then hm0[k].(parentId := Some(VirtualRootId)) else hm0[k]
  {
    hm := hm0;
    for j := 0 to |roots|
      invariant hm.Keys == hm0.Keys
      invariant forall k :: k in hm ==>
        hm[k] == if k in roots[..j] && k != VirtualRootId then hm0[k].(parentId := Some(VirtualRootId)) else hm0[k]
    {
      PrefixSnoc(roots, j);
      var r := roots[j];
      if r != VirtualRootId {
        hm := hm[r := hm[r].(parentId := Some(VirtualRootId))];
      }
    }
    PrefixFull(roots);
  }

  /** `buildTree` when the known root is absent; `now` stands for the current time. */
  method BuildFallback(keys: seq<string>, nodes: map<string, Node>, now: string) returns (t: Tree)
    requires KeysOf(keys, nodes) && WellKeyed(nodes)
    ensures FallbackTree(keys, nodes, now, t) && Shaped(t)
  {
    var hk, hm, parentIds := CollectWithParent(keys, nodes);
    hk, hm := AddParents(keys, nodes, hk, hm, parentIds);
    var roots := CollectCandidates(hk, hm, nodes, parentIds);
    CandidatesAreRootParents(keys, nodes);
    HoldsRestrict(hk, hm, nodes);
    if |roots| == 0 {
      return Tree(None, [], map[]);
    }
    RootsHeld(keys, nodes, roots);
    if |roots| == 1 {
      return Tree(Some(hm[roots[0]]), hk, hm);
    }
    t := BuildVirtual(keys, nodes, now, hk, hm, roots);
  }

  /** A map that holds exactly the nodes under `hk` is their restriction. */
  lemma HoldsRestrict(hk: seq<string>, hm: map<string, Node>, nodes: map<string, Node>)
    requires Holds(hk, hm, nodes)
    ensures forall k :: k in hk ==> k in nodes
    ensures hm == Restrict(nodes, hk)
  {
  }

  /** The candidate roots are hierarchy keys. */
  lemma RootsHeld(keys: seq<string>, nodes: map<string, Node>, roots: seq<string>)
    requires KeysOf(keys, nodes)
    requires roots == RootParents(ParentOrder(keys, nodes), nodes)
    ensures forall r :: r in roots ==> r in HierarchyKeys(keys, nodes)
  {
    forall r | r in roots
      ensures r in HierarchyKeys(keys, nodes)
    {
      RootParentsMembers(ParentOrder(keys, nodes), nodes, r);
      HierarchyMembers(keys, nodes, r);
      ParentOrderMembers(keys, nodes, r);
    }
  }

  /** Several candidate roots: `virtual-root` is set in over them and each is reparented to it. */
  method BuildVirtual(keys: seq<string>, nodes: map<string, Node>, now: string, hk0: seq<string>,
                      hm0: map<string, Node>, roots: seq<string>)
    returns (t: Tree)
    requires KeysOf(keys, nodes) && WellKeyed(nodes)
    requires hk0 == HierarchyKeys(keys, nodes) && Holds(hk0, hm0, nodes) && hm0 == Restrict(nodes, hk0)
    requires roots == RootParents(ParentOrder(keys, nodes), nodes) && |roots| > 1
    requires forall r :: r in roots ==> r in hk0
    ensures FallbackTree(keys, nodes, now, t) && Shaped(t)
  {
    var root := VirtualRoot(roots, now);
    RootParentsMembers(ParentOrder(keys, nodes), nodes, VirtualRootId);
    var hk := SetKey(hk0, hm0, VirtualRootId, root);
    var hm := hm0[VirtualRootId := root];
    hm := Reparent(hm, roots);
    t := Tree(Some(root), hk, hm);
  }

  /**
   * `buildTree`: the tree under the known root when some key holds it,
   * otherwise the fallback hierarchy; `now` stands for the current time.
   */
  method BuildTree(keys: seq<string>, nodes: map<string, Node>, now: string) returns (t: Tree)
    requires KeysOf(keys, nodes) && WellKeyed(nodes)
    ensures exists r :: IsRootKey(RootId, keys, nodes, r)
                        && (r.Some? ==> RootedTree(nodes, r.value, t))
                        && (r.None? ==> FallbackTree(keys, nodes, now, t))
    ensures Shaped(t)
  {
    var r := FindRootKey(RootId, keys, nodes);
    if r.Some? {
      t := BuildFromRoot(keys, nodes, r.value);
    } else {
      t := BuildFallback(keys, nodes, now);
    }
  }
}
