/**
 * The breadth-first walk of the mind-map layout engine: the queue of
 * entries, what the walk has placed and the invariants a turn keeps,
 * both the tiers and depths it assigns and the order it lists them in.
 */
module MindmapWalk {
  import opened Seqs
  import opened NotionTypes

  /** A queue entry of the breadth-first walk: a node, by the id it is stored under, and its depth. */
  datatype Entry = Entry(id: string, depth: nat)

  /** The ids waiting in the queue. */
  function QueueIds(q: seq<Entry>): set<string>
  {
    if q == [] then {} else {q[0].id} + QueueIds(q[1..])
  }

  lemma QueueIdsPop(q: seq<Entry>)
    requires q != []
    ensures QueueIds(q) == {q[0].id} + QueueIds(q[1..])
  {
  }

  lemma {:induction false} QueueIdsAppend(q: seq<Entry>, r: seq<Entry>)
    ensures QueueIds(q + r) == QueueIds(q) + QueueIds(r)
    decreases |q|
  {
    if q == [] {
      assert q + r == r;
    } else {
      assert (q + r)[1..] == q[1..] + r;
      QueueIdsAppend(q[1..], r);
    }
  }

  lemma QueueIdsPush(q: seq<Entry>, e: Entry)
    ensures QueueIds(q + [e]) == QueueIds(q) + {e.id}
  {
    QueueIdsAppend(q, [e]);
    assert QueueIds([e]) == {e.id} by {
      assert [e][1..] == [];
    }
  }

  /**
   * What the walk has placed: `depthOf` gives each placed id its tier and
   * `via` names, for every placed id below the root, the placed, expanded
   * parent one tier up that listed it.
   */
  ghost predicate Placed(nodes: map<string, Node>, root: string, collapsed: set<string>, hidden: set<string>,
                         depthOf: map<string, nat>, via: map<string, string>)
  {
    && (forall v :: v in depthOf ==> v in nodes && v !in hidden)
    && (forall v :: v in depthOf && depthOf[v] == 0 ==> v == root)
    && (forall v :: v in depthOf && depthOf[v] > 0 ==> v in via)
    && (forall v {:trigger via[v]} :: v in via ==>
          && v in depthOf && depthOf[v] > 0 && via[v] in depthOf && depthOf[via[v]] == depthOf[v] - 1
          && via[v] in nodes && via[v] !in collapsed && v in nodes[via[v]].children)
  }

  /** `groups` lists the ids of each tier, each once, in placement order. */
  ghost predicate Grouped(groups: map<nat, seq<string>>, depthOf: map<string, nat>)
  {
    && (forall d, i :: d in groups && 0 <= i < |groups[d]| ==> groups[d][i] in depthOf && depthOf[groups[d][i]] == d)
    && (forall v :: v in depthOf ==> depthOf[v] in groups && v in groups[depthOf[v]])
    && (forall d, i, j :: d in groups && 0 <= i < j < |groups[d]| ==> groups[d][i] != groups[d][j])
  }

  ghost predicate Layered(nodes: map<string, Node>, root: string, collapsed: set<string>, hidden: set<string>,
                          groups: map<nat, seq<string>>, depthOf: map<string, nat>, via: map<string, string>)
  {
    Placed(nodes, root, collapsed, hidden, depthOf, via) && Grouped(groups, depthOf)
  }

  /** Every visible child of a placed, expanded node is placed too. */
  ghost predicate ClosedLayers(nodes: map<string, Node>, collapsed: set<string>, hidden: set<string>, depthOf: map<string, nat>)
  {
    forall p :: p in depthOf && p in nodes && p !in collapsed ==>
      forall c :: c in nodes[p].children && c in nodes && c !in hidden ==> c in depthOf
  }

  /** Every visible child of a placed, expanded node is placed or waiting in the queue. */
  ghost predicate Pending(nodes: map<string, Node>, collapsed: set<string>, hidden: set<string>, queue: seq<Entry>, depthOf: map<string, nat>)
  {
    forall p :: p in depthOf && p in nodes && p !in collapsed ==>
      forall c :: c in nodes[p].children && c in nodes && c !in hidden ==> c in depthOf || c in QueueIds(queue)
  }

  /** Each queued entry is stored in the tree; below the root it was enqueued by the placed, expanded `parents[i]`. */
  ghost predicate QueueShape(nodes: map<string, Node>, root: string, collapsed: set<string>, queue: seq<Entry>, parents: seq<string>, depthOf: map<string, nat>)
  {
    && |parents| == |queue|
    && (forall i :: 0 <= i < |queue| ==> queue[i].id in nodes)
    && (forall i :: 0 <= i < |queue| && queue[i].depth == 0 ==> queue[i].id == root)
    && (forall i :: 0 <= i < |queue| && queue[i].depth > 0 ==>
          && parents[i] in depthOf && depthOf[parents[i]] == queue[i].depth - 1
          && parents[i] in nodes && parents[i] !in collapsed && queue[i].id in nodes[parents[i]].children)
  }

  /** `n` copies of `x`. */
  function Repeat(x: string, n: nat): (r: seq<string>)
    ensures |r| == n && forall i :: 0 <= i < n ==> r[i] == x
  {
    seq(n, _ => x)
  }

  /** `d2` keeps every entry of `d1`. */
  ghost predicate Grows(d1: map<string, nat>, d2: map<string, nat>)
  {
    forall v :: v in d1 ==> v in d2 && d2[v] == d1[v]
  }

  /** The invariant of the walk loop, with `parents` naming who enqueued each entry. */
  ghost predicate WalkInv(nodes: map<string, Node>, root: string, collapsed: set<string>, hidden: set<string>,
                          queue: seq<Entry>, parents: seq<string>, visited: set<string>,
                          groups: map<nat, seq<string>>, depthOf: map<string, nat>, via: map<string, string>)
  {
    && Layered(nodes, root, collapsed, hidden, groups, depthOf, via)
    && visited == depthOf.Keys
    && QueueShape(nodes, root, collapsed, queue, parents, depthOf)
    && Pending(nodes, collapsed, hidden, queue, depthOf)
    && (root !in hidden ==> (root in depthOf && depthOf[root] == 0) || (queue == [Entry(root, 0)] && depthOf == map[]))
  }

  lemma QueueShapeTail(nodes: map<string, Node>, root: string, collapsed: set<string>, queue: seq<Entry>, parents: seq<string>,
                       d1: map<string, nat>, d2: map<string, nat>)
    requires queue != []
    requires QueueShape(nodes, root, collapsed, queue, parents, d1) && Grows(d1, d2)
    ensures QueueShape(nodes, root, collapsed, queue[1..], parents[1..], d2)
  {
    forall i | 0 <= i < |queue| - 1 && queue[1..][i].depth > 0
      ensures parents[1..][i] in d2 && d2[parents[1..][i]] == queue[1..][i].depth - 1
    {
      assert queue[1..][i] == queue[i + 1] && parents[1..][i] == parents[i + 1];
    }
  }

  lemma QueueShapeAppend(nodes: map<string, Node>, root: string, collapsed: set<string>, queue: seq<Entry>, parents: seq<string>,
                         depthOf: map<string, nat>, p: string, added: seq<Entry>)
    requires QueueShape(nodes, root, collapsed, queue, parents, depthOf)
    requires added != [] ==> p in depthOf && p !in collapsed && p in nodes
    requires forall i :: 0 <= i < |added| ==>
      p in depthOf && added[i].depth == depthOf[p] + 1 && p in nodes && added[i].id in nodes[p].children && added[i].id in nodes
    ensures QueueShape(nodes, root, collapsed, queue + added, parents + Repeat(p, |added|), depthOf)
  {
    var q, ps := queue + added, parents + Repeat(p, |added|);
    forall i | 0 <= i < |q|
      ensures q[i].id in nodes
      ensures q[i].depth == 0 ==> q[i].id == root
      ensures q[i].depth > 0 ==>
        (&& ps[i] in depthOf && depthOf[ps[i]] == q[i].depth - 1
         && ps[i] in nodes && ps[i] !in collapsed && q[i].id in nodes[ps[i]].children)
    {
      if i >= |queue| {
        assert q[i] == added[i - |queue|] && ps[i] == p;
      } else {
        assert q[i] == queue[i] && ps[i] == parents[i];
      }
    }
  }

  lemma PendingSkip(nodes: map<string, Node>, collapsed: set<string>, hidden: set<string>, queue: seq<Entry>, depthOf: map<string, nat>)
    requires queue != [] && (queue[0].id in depthOf || queue[0].id in hidden)
    requires Pending(nodes, collapsed, hidden, queue, depthOf)
    ensures Pending(nodes, collapsed, hidden, queue[1..], depthOf)
  {
    QueueIdsPop(queue);
  }

  lemma PendingPlace(nodes: map<string, Node>, collapsed: set<string>, hidden: set<string>, queue: seq<Entry>,
                     depthOf: map<string, nat>, visited: set<string>, visited': set<string>, added: seq<Entry>)
    requires queue != [] && queue[0].id !in depthOf && queue[0].id in nodes
    requires Pending(nodes, collapsed, hidden, queue, depthOf)
    requires visited == depthOf.Keys && visited' == visited + {queue[0].id}
    requires added == if queue[0].id !in collapsed
      then Enqueued(nodes, hidden, visited', nodes[queue[0].id].children, queue[0].depth + 1) else []
    ensures Pending(nodes, collapsed, hidden, queue[1..] + added, depthOf[queue[0].id := queue[0].depth])
  {
    QueueIdsPop(queue);
    QueueIdsAppend(queue[1..], added);
  }

  lemma GrowsUpdate(d: map<string, nat>, k: string, n: nat)
    requires k !in d
    ensures Grows(d, d[k := n])
  {
  }

  lemma PlacePlaced(nodes: map<string, Node>, root: string, collapsed: set<string>, hidden: set<string>,
                    depthOf: map<string, nat>, via: map<string, string>, e: Entry, p: string,
                    d2: map<string, nat>, v2: map<string, string>)
    requires Placed(nodes, root, collapsed, hidden, depthOf, via)
    requires e.id in nodes && e.id !in depthOf && e.id !in hidden
    requires e.depth == 0 ==> e.id == root
    requires e.depth > 0 ==>
      (&& p in depthOf && depthOf[p] == e.depth - 1 && p in nodes
       && p !in collapsed && e.id in nodes[p].children)
    requires d2 == depthOf[e.id := e.depth] && v2 == if e.depth > 0 then via[e.id := p] else via
    ensures Placed(nodes, root, collapsed, hidden, d2, v2)
  {
    forall v | v in d2
      ensures v in nodes && v !in hidden
      ensures d2[v] == 0 ==> v == root
      ensures d2[v] > 0 ==> v in v2
    {
      if v != e.id {
        assert d2[v] == depthOf[v];
      }
    }
    forall v | v in v2
      ensures v in d2 && d2[v] > 0 && v2[v] in d2 && d2[v2[v]] == d2[v] - 1
      ensures v2[v] in nodes && v2[v] !in collapsed && v in nodes[v2[v]].children
    {
      if v == e.id && e.depth > 0 {
        assert v2[v] == p && d2[v] == e.depth && d2[p] == depthOf[p];
      } else {
        assert v in via && v2[v] == via[v];
        assert v in depthOf && via[v] in depthOf;
        assert d2[v] == depthOf[v] && d2[via[v]] == depthOf[via[v]];
      }
    }
  }

  lemma PlaceGrouped(groups: map<nat, seq<string>>, depthOf: map<string, nat>, e: Entry)
    requires Grouped(groups, depthOf) && e.id !in depthOf
    ensures Grouped(groups[e.depth := (if e.depth in groups then groups[e.depth] else []) + [e.id]],
                    depthOf[e.id := e.depth])
  {
    var group := if e.depth in groups then groups[e.depth] else [];
    var g2 := groups[e.depth := group + [e.id]];
    var d2 := depthOf[e.id := e.depth];
    forall d, i | d in g2 && 0 <= i < |g2[d]|
      ensures g2[d][i] in d2 && d2[g2[d][i]] == d
    {
      if d == e.depth && i == |group| {
        assert g2[d][i] == e.id;
      } else if d == e.depth {
        assert g2[d][i] == group[i];
      }
    }
    forall v | v in d2
      ensures d2[v] in g2 && v in g2[d2[v]]
    {
      if v != e.id && d2[v] == e.depth {
        assert v in group;
      }
    }
    forall d, i, j | d in g2 && 0 <= i < j < |g2[d]|
      ensures g2[d][i] != g2[d][j]
    {
      if d == e.depth {
        assert g2[d][i] == group[i];
        if j == |group| {
          assert g2[d][j] == e.id;
        } else {
          assert g2[d][j] == group[j];
        }
      }
    }
  }

  lemma WalkVisitedInTree(nodes: map<string, Node>, root: string, collapsed: set<string>, hidden: set<string>,
                          queue: seq<Entry>, parents: seq<string>, visited: set<string>,
                          groups: map<nat, seq<string>>, depthOf: map<string, nat>, via: map<string, string>)
    requires WalkInv(nodes, root, collapsed, hidden, queue, parents, visited, groups, depthOf, via)
    ensures visited <= nodes.Keys && (queue != [] ==> queue[0].id in nodes)
  {
    forall v | v in visited
      ensures v in nodes
    {
      assert v in depthOf;
    }
  }

  lemma FewerUnvisited(u: set<string>, v: set<string>, x: string)
    requires x in u && x !in v
    ensures |u - (v + {x})| < |u - v|
  {
    assert u - (v + {x}) == (u - v) - {x};
  }

  /** A turn that skips a placed or hidden entry keeps the invariant. */
  lemma WalkSkip(nodes: map<string, Node>, root: string, collapsed: set<string>, hidden: set<string>,
                 queue: seq<Entry>, parents: seq<string>, visited: set<string>,
                 groups: map<nat, seq<string>>, depthOf: map<string, nat>, via: map<string, string>)
    requires queue != []
    requires WalkInv(nodes, root, collapsed, hidden, queue, parents, visited, groups, depthOf, via)
    requires queue[0].id in visited || queue[0].id in hidden
    ensures WalkInv(nodes, root, collapsed, hidden, queue[1..], parents[1..], visited, groups, depthOf, via)
  {
    QueueShapeTail(nodes, root, collapsed, queue, parents, depthOf, depthOf);
    PendingSkip(nodes, collapsed, hidden, queue, depthOf);
  }

  /**
   * One placing turn: the head `e` of the queue is placed at its depth, the
   * node that enqueued it becomes its parent, and, unless `e` is collapsed,
   * its children that are stored, unplaced and not hidden join the queue.
   */
  ghost predicate PlaceStep(nodes: map<string, Node>, collapsed: set<string>, hidden: set<string>,
                            queue: seq<Entry>, parents: seq<string>, visited: set<string>,
                            groups: map<nat, seq<string>>, depthOf: map<string, nat>, via: map<string, string>,
                            added: seq<Entry>, queue': seq<Entry>, parents': seq<string>, visited': set<string>,
                            groups': map<nat, seq<string>>, depthOf': map<string, nat>, via': map<string, string>)
  {
    && queue != [] && |parents| == |queue| && queue[0].id in nodes
    && var e := queue[0];
    && visited' == visited + {e.id}
    && depthOf' == depthOf[e.id := e.depth]
    && via' == (if e.depth > 0 then via[e.id := parents[0]] else via)
    && groups' == groups[e.depth := (if e.depth in groups then groups[e.depth] else []) + [e.id]]
    && added == (if e.id !in collapsed
                 then Enqueued(nodes, hidden, visited', nodes[e.id].children, e.depth + 1) else [])
    && queue' == queue[1..] + added
    && parents' == parents[1..] + Repeat(e.id, |added|)
  }

  /** A turn that places its entry and enqueues the entry's children keeps the invariant. */
  lemma WalkPlace(nodes: map<string, Node>, root: string, collapsed: set<string>, hidden: set<string>,
                  queue: seq<Entry>, parents: seq<string>, visited: set<string>,
                  groups: map<nat, seq<string>>, depthOf: map<string, nat>, via: map<string, string>,
                  added: seq<Entry>, queue': seq<Entry>, parents': seq<string>, visited': set<string>,
                  groups': map<nat, seq<string>>, depthOf': map<string, nat>, via': map<string, string>)
    requires queue != []
    requires WalkInv(nodes, root, collapsed, hidden, queue, parents, visited, groups, depthOf, via)
    requires queue[0].id !in visited && queue[0].id !in hidden
    requires PlaceStep(nodes, collapsed, hidden, queue, parents, visited, groups, depthOf, via,
                       added, queue', parents', visited', groups', depthOf', via')
    ensures WalkInv(nodes, root, collapsed, hidden, queue', parents', visited', groups', depthOf', via')
  {
    WalkPlaceLayers(nodes, root, collapsed, hidden, queue, parents, visited, groups, depthOf, via,
              visited', groups', depthOf', via');
    WalkPlaceQueue(nodes, root, collapsed, hidden, queue, parents, visited, groups, depthOf, via,
              added, queue', parents', visited', groups', depthOf', via');
  }

  lemma WalkPlaceLayers(nodes: map<string, Node>, root: string, collapsed: set<string>, hidden: set<string>,
                  queue: seq<Entry>, parents: seq<string>, visited: set<string>,
                  groups: map<nat, seq<string>>, depthOf: map<string, nat>, via: map<string, string>,
                  visited': set<string>, groups': map<nat, seq<string>>, depthOf': map<string, nat>, via': map<string, string>)
    requires queue != []
    requires Layered(nodes, root, collapsed, hidden, groups, depthOf, via) && visited == depthOf.Keys
    requires QueueShape(nodes, root, collapsed, queue, parents, depthOf)
    requires queue[0].id !in visited && queue[0].id !in hidden
    requires var e := queue[0];
      && visited' == visited + {e.id}
      && depthOf' == depthOf[e.id := e.depth]
      && via' == (if e.depth > 0 then via[e.id := parents[0]] else via)
      && groups' == groups[e.depth := (if e.depth in groups then groups[e.depth] else []) + [e.id]]
    ensures Layered(nodes, root, collapsed, hidden, groups', depthOf', via') && visited' == depthOf'.Keys
  {
    var e := queue[0];
    assert e.id in nodes;
    assert e.depth == 0 ==> e.id == root;
    PlacePlaced(nodes, root, collapsed, hidden, depthOf, via, e, parents[0], depthOf', via');
    PlaceGrouped(groups, depthOf, e);
  }

  lemma WalkPlaceQueue(nodes: map<string, Node>, root: string, collapsed: set<string>, hidden: set<string>,
                  queue: seq<Entry>, parents: seq<string>, visited: set<string>,
                  groups: map<nat, seq<string>>, depthOf: map<string, nat>, via: map<string, string>,
                  added: seq<Entry>, queue': seq<Entry>, parents': seq<string>, visited': set<string>,
                  groups': map<nat, seq<string>>, depthOf': map<string, nat>, via': map<string, string>)
    requires queue != []
    requires WalkInv(nodes, root, collapsed, hidden, queue, parents, visited, groups, depthOf, via)
    requires queue[0].id !in visited && queue[0].id !in hidden
    requires PlaceStep(nodes, collapsed, hidden, queue, parents, visited, groups, depthOf, via,
                       added, queue', parents', visited', groups', depthOf', via')
    ensures QueueShape(nodes, root, collapsed, queue', parents', depthOf')
    ensures Pending(nodes, collapsed, hidden, queue', depthOf')
    ensures root !in hidden ==> (root in depthOf' && depthOf'[root] == 0) || (queue' == [Entry(root, 0)] && depthOf' == map[])
  {
    var e := queue[0];
    GrowsUpdate(depthOf, e.id, e.depth);
    QueueShapeTail(nodes, root, collapsed, queue, parents, depthOf, depthOf');
    QueueShapeAppend(nodes, root, collapsed, queue[1..], parents[1..], depthOf', e.id, added);
    PendingPlace(nodes, collapsed, hidden, queue, depthOf, visited, visited', added);
  }

  /** The children a placed node enqueues: those stored in the tree, neither placed nor hidden. */
  function Enqueued(nodes: map<string, Node>, hidden: set<string>, visited: set<string>, cs: seq<string>, depth: nat): (r: seq<Entry>)
    ensures forall i :: 0 <= i < |r| ==> r[i].depth == depth && r[i].id in cs && r[i].id in nodes
    ensures forall c :: c in cs && c in nodes && c !in visited && c !in hidden ==> c in QueueIds(r)
  {
    if cs == [] then []
    else
      var c := cs[|cs| - 1];
      var init := Enqueued(nodes, hidden, visited, cs[..|cs| - 1], depth);
      QueueIdsPush(init, Entry(c, depth));
      if c in nodes && c !in visited && c !in hidden then init + [Entry(c, depth)] else init
  }

  /** The first index of `v` in `g`. */
  function IndexOf(g: seq<string>, v: string): (i: nat)
    requires v in g
    ensures i < |g| && g[i] == v && forall j :: 0 <= j < i ==> g[j] != v
  {
    if g[0] == v then 0 else 1 + IndexOf(g[1..], v)
  }

  /** The walk starts from the root alone. */
  lemma WalkStart(nodes: map<string, Node>, root: string, collapsed: set<string>, hidden: set<string>)
    requires root in nodes
    ensures WalkInv(nodes, root, collapsed, hidden, [Entry(root, 0)], [""], {}, map[], map[], map[])
  {
  }

  /** With the queue drained, the placed layers are closed. */
  lemma WalkDone(nodes: map<string, Node>, root: string, collapsed: set<string>, hidden: set<string>,
                 parents: seq<string>, visited: set<string>,
                 groups: map<nat, seq<string>>, depthOf: map<string, nat>, via: map<string, string>)
    requires WalkInv(nodes, root, collapsed, hidden, [], parents, visited, groups, depthOf, via)
    ensures Layered(nodes, root, collapsed, hidden, groups, depthOf, via)
    ensures ClosedLayers(nodes, collapsed, hidden, depthOf)
    ensures root !in hidden ==> root in depthOf && depthOf[root] == 0
  {
    assert QueueIds([]) == {};
  }

  // ---------------------------------------------------------------------
  // Breadth-first order
  // ---------------------------------------------------------------------

  /** The child indices `Enqueued` takes, in order: those of the children stored in the tree, neither placed nor hidden. */
  function EnqueuedSlots(nodes: map<string, Node>, hidden: set<string>, visited: set<string>, cs: seq<string>): (r: seq<nat>)
    ensures forall k :: 0 <= k < |r| ==> r[k] < |cs| && cs[r[k]] in nodes && cs[r[k]] !in visited && cs[r[k]] !in hidden
    ensures forall k, l :: 0 <= k < l < |r| ==> r[k] < r[l]
    ensures forall s :: 0 <= s < |cs| && cs[s] in nodes && cs[s] !in visited && cs[s] !in hidden ==> s in r
  {
    if cs == [] then []
    else
      var c := cs[|cs| - 1];
      var init := EnqueuedSlots(nodes, hidden, visited, cs[..|cs| - 1]);
      if c in nodes && c !in visited && c !in hidden then init + [|cs| - 1] else init
  }

  /** `Enqueued` lists the children at the indices `EnqueuedSlots` gives, one entry per index. */
  lemma {:induction false} EnqueuedAtSlots(nodes: map<string, Node>, hidden: set<string>, visited: set<string>, cs: seq<string>, depth: nat)
    ensures |Enqueued(nodes, hidden, visited, cs, depth)| == |EnqueuedSlots(nodes, hidden, visited, cs)|
    ensures forall k :: 0 <= k < |EnqueuedSlots(nodes, hidden, visited, cs)| ==>
      Enqueued(nodes, hidden, visited, cs, depth)[k] == Entry(cs[EnqueuedSlots(nodes, hidden, visited, cs)[k]], depth)
    decreases |cs|
  {
    if cs != [] {
      var init, c := cs[..|cs| - 1], cs[|cs| - 1];
      EnqueuedAtSlots(nodes, hidden, visited, init, depth);
      var e0, s0 := Enqueued(nodes, hidden, visited, init, depth), EnqueuedSlots(nodes, hidden, visited, init);
      assert forall k :: 0 <= k < |s0| ==> e0[k] == Entry(cs[s0[k]], depth) by {
        assert forall k :: 0 <= k < |s0| ==> s0[k] < |init| && cs[s0[k]] == init[s0[k]];
      }
      if c in nodes && c !in visited && c !in hidden {
        assert Enqueued(nodes, hidden, visited, cs, depth) == e0 + [Entry(c, depth)];
        assert EnqueuedSlots(nodes, hidden, visited, cs) == s0 + [|cs| - 1];
      } else {
        assert Enqueued(nodes, hidden, visited, cs, depth) == e0;
        assert EnqueuedSlots(nodes, hidden, visited, cs) == s0;
      }
    }
  }

  /**
   * The ghost state of a breadth-first walk: the queue, the node that
   * enqueued each entry and the index it was listed at among that node's
   * children, the tiers, and for each placed id its depth, the parent that
   * placed it and its index among that parent's children.
   */
  datatype Walk = Walk(queue: seq<Entry>, parents: seq<string>, slots: seq<nat>,
                       groups: map<nat, seq<string>>, depthOf: map<string, nat>,
                       via: map<string, string>, slotOf: map<string, nat>)

  /** The index of `v` in tier `d`, or -1 when it is not listed there. */
  function TierIndex(groups: map<nat, seq<string>>, d: nat, v: string): int
  {
    if d in groups && v in groups[d] then IndexOf(groups[d], v) else -1
  }

  /** Ordered by the parent's index in its tier, then by the index among that parent's children. */
  predicate PairBefore(p1: int, s1: nat, p2: int, s2: nat)
  {
    p1 < p2 || (p1 == p2 && s1 < s2)
  }

  /** The index, in the tier above, of the node that enqueued entry `i`; -1 for an entry at the root's depth. */
  ghost function EntryParent(w: Walk, i: nat): int
    requires i < |w.queue| && |w.parents| == |w.queue|
  {
    if w.queue[i].depth == 0 then -1 else TierIndex(w.groups, w.queue[i].depth - 1, w.parents[i])
  }

  /** The index, in the tier above, of the node that placed `v`; -1 for the root. */
  ghost function PlacedParent(w: Walk, v: string): int
  {
    if v in w.depthOf && w.depthOf[v] > 0 && v in w.via then TierIndex(w.groups, w.depthOf[v] - 1, w.via[v]) else -1
  }

  /** The index of `v` among the children of the node that placed it. */
  ghost function PlacedSlot(w: Walk, v: string): nat
  {
    if v in w.slotOf then w.slotOf[v] else 0
  }

  /** The queue is in breadth-first order: by depth, then by the parent's index, then by the child index. */
  ghost predicate QueueSorted(w: Walk)
    requires |w.parents| == |w.queue| && |w.slots| == |w.queue|
  {
    forall i, j :: 0 <= i < j < |w.queue| ==>
      || w.queue[i].depth < w.queue[j].depth
      || (w.queue[i].depth == w.queue[j].depth && PairBefore(EntryParent(w, i), w.slots[i], EntryParent(w, j), w.slots[j]))
  }

  /** The queue holds at most two depths. */
  ghost predicate QueueSpan(w: Walk)
  {
    forall i :: 0 <= i < |w.queue| ==> w.queue[i].depth <= w.queue[0].depth + 1
  }

  /** Nothing placed is deeper than anything queued. */
  ghost predicate PlacedAhead(w: Walk)
  {
    forall v, i :: v in w.depthOf && 0 <= i < |w.queue| ==> w.depthOf[v] <= w.queue[i].depth
  }

  /** Each tier below the root lists its nodes in breadth-first order. */
  ghost predicate TiersSorted(w: Walk)
  {
    forall d, i, j :: d in w.groups && d > 0 && 0 <= i < j < |w.groups[d]| ==>
      PairBefore(PlacedParent(w, w.groups[d][i]), PlacedSlot(w, w.groups[d][i]),
                 PlacedParent(w, w.groups[d][j]), PlacedSlot(w, w.groups[d][j]))
  }

  /** A node placed below the root comes before every entry queued at its depth. */
  ghost predicate PlacedFirst(w: Walk)
    requires |w.parents| == |w.queue| && |w.slots| == |w.queue|
  {
    forall v, i :: v in w.depthOf && w.depthOf[v] > 0 && 0 <= i < |w.queue| && w.queue[i].depth == w.depthOf[v] ==>
      PairBefore(PlacedParent(w, v), PlacedSlot(w, v), EntryParent(w, i), w.slots[i])
  }

  /** Entry `i` below the root is child number `slots[i]` of `parents[i]`. */
  ghost predicate SlotsListed(nodes: map<string, Node>, w: Walk)
    requires |w.parents| == |w.queue| && |w.slots| == |w.queue|
  {
    forall i :: 0 <= i < |w.queue| && w.queue[i].depth > 0 ==>
      && w.parents[i] in nodes && w.slots[i] < |nodes[w.parents[i]].children|
      && nodes[w.parents[i]].children[w.slots[i]] == w.queue[i].id
  }

  /**
   * Where the same child is listed at an earlier index of the same parent,
   * the child is placed already or an earlier entry holds that index.
   */
  ghost predicate EarlierSlotsQueued(nodes: map<string, Node>, w: Walk)
    requires |w.parents| == |w.queue| && |w.slots| == |w.queue|
  {
    forall i, s :: && 0 <= i < |w.queue| && w.queue[i].depth > 0 && w.parents[i] in nodes
                   && 0 <= s < w.slots[i] && s < |nodes[w.parents[i]].children|
                   && nodes[w.parents[i]].children[s] == w.queue[i].id ==>
      || w.queue[i].id in w.depthOf
      || exists j :: 0 <= j < i && w.queue[j].depth > 0 && w.parents[j] == w.parents[i] && w.slots[j] == s
  }

  /** No entry below the root is hidden. */
  ghost predicate QueuedVisible(hidden: set<string>, w: Walk)
  {
    forall i :: 0 <= i < |w.queue| && w.queue[i].depth > 0 ==> w.queue[i].id !in hidden
  }

  /** `slotOf[v]` is the first index of `v` among the children of the node that placed it. */
  ghost predicate FirstSlots(nodes: map<string, Node>, w: Walk)
  {
    forall v :: v in w.via ==>
      && v in w.slotOf && w.via[v] in nodes && w.slotOf[v] < |nodes[w.via[v]].children|
      && nodes[w.via[v]].children[w.slotOf[v]] == v
      && forall s :: 0 <= s < w.slotOf[v] ==> nodes[w.via[v]].children[s] != v
  }

  /**
   * Every visible child of a placed, expanded node is placed at most one
   * tier below it, or queued at most that deep.
   */
  ghost predicate Reaching(nodes: map<string, Node>, collapsed: set<string>, hidden: set<string>, w: Walk)
    requires |w.parents| == |w.queue|
  {
    forall p, c :: p in w.depthOf && p in nodes && p !in collapsed && c in nodes[p].children && c in nodes && c !in hidden ==>
      || (c in w.depthOf && w.depthOf[c] <= w.depthOf[p] + 1)
      || exists i :: 0 <= i < |w.queue| && w.queue[i].id == c && w.parents[i] == p && w.queue[i].depth == w.depthOf[p] + 1
  }

  /**
   * Every node below the root was placed by the first node, in the tier
   * above, that lists it and is expanded: no expanded node earlier in that
   * tier lists it.
   */
  ghost predicate FirstLister(nodes: map<string, Node>, collapsed: set<string>, groups: map<nat, seq<string>>,
                              depthOf: map<string, nat>, via: map<string, string>)
  {
    forall v, q :: && v in via && v in depthOf && q in depthOf && q in nodes && q !in collapsed
                   && v in nodes[q].children && depthOf[q] + 1 == depthOf[v] ==>
      TierIndex(groups, depthOf[q], via[v]) <= TierIndex(groups, depthOf[q], q)
  }

  /** The ordering invariant of the walk loop, beside `WalkInv`. */
  ghost predicate OrderInv(nodes: map<string, Node>, collapsed: set<string>, hidden: set<string>, w: Walk)
  {
    && |w.parents| == |w.queue| && |w.slots| == |w.queue|
    && QueueSorted(w) && QueueSpan(w) && PlacedAhead(w) && TiersSorted(w) && PlacedFirst(w)
    && SlotsListed(nodes, w) && EarlierSlotsQueued(nodes, w) && QueuedVisible(hidden, w)
    && FirstSlots(nodes, w) && Reaching(nodes, collapsed, hidden, w)
    && FirstLister(nodes, collapsed, w.groups, w.depthOf, w.via)
  }

  /** The indices a placing turn records: those of the children it enqueues, and the placed entry's own. */
  ghost predicate SlotStep(nodes: map<string, Node>, collapsed: set<string>, hidden: set<string>,
                           queue: seq<Entry>, slots: seq<nat>, slotOf: map<string, nat>,
                           visited': set<string>, slots': seq<nat>, slotOf': map<string, nat>)
  {
    && queue != [] && |slots| == |queue| && queue[0].id in nodes
    && slots' == slots[1..] + (if queue[0].id !in collapsed
                               then EnqueuedSlots(nodes, hidden, visited', nodes[queue[0].id].children) else [])
    && slotOf' == (if queue[0].depth > 0 then slotOf[queue[0].id := slots[0]] else slotOf)
  }

  /** A placing turn taken from a state that keeps both invariants. */
  ghost predicate PlacingTurn(nodes: map<string, Node>, root: string, collapsed: set<string>, hidden: set<string>,
                              w: Walk, visited: set<string>, added: seq<Entry>, w': Walk, visited': set<string>)
  {
    && w.queue != []
    && WalkInv(nodes, root, collapsed, hidden, w.queue, w.parents, visited, w.groups, w.depthOf, w.via)
    && OrderInv(nodes, collapsed, hidden, w)
    && w.queue[0].id !in visited && w.queue[0].id !in hidden
    && PlaceStep(nodes, collapsed, hidden, w.queue, w.parents, visited, w.groups, w.depthOf, w.via,
                 added, w'.queue, w'.parents, visited', w'.groups, w'.depthOf, w'.via)
    && SlotStep(nodes, collapsed, hidden, w.queue, w.slots, w.slotOf, visited', w'.slots, w'.slotOf)
  }

  lemma IndexOfAppend(g: seq<string>, x: string, v: string)
    requires v in g
    ensures IndexOf(g + [x], v) == IndexOf(g, v)
  {
    assert forall t :: 0 <= t < |g| ==> (g + [x])[t] == g[t];
    assert (g + [x])[IndexOf(g, v)] == v;
  }

  lemma IndexOfLast(g: seq<string>, x: string)
    requires x !in g
    ensures IndexOf(g + [x], x) == |g|
  {
    assert forall t :: 0 <= t < |g| ==> (g + [x])[t] == g[t];
    assert (g + [x])[|g|] == x;
  }

  /** Appending `x` to tier `d` keeps the index of every id listed already and gives `x` the next one. */
  lemma TierIndexAppend(groups: map<nat, seq<string>>, d: nat, x: string, d2: nat, v: string)
    ensures var g := if d in groups then groups[d] else [];
      && (d2 in groups && v in groups[d2] ==> TierIndex(groups[d := g + [x]], d2, v) == TierIndex(groups, d2, v))
      && (x !in g ==> TierIndex(groups[d := g + [x]], d, x) == |g|)
  {
    var g := if d in groups then groups[d] else [];
    if d2 == d && d2 in groups && v in groups[d2] {
      IndexOfAppend(g, x, v);
    }
    if x !in g {
      IndexOfLast(g, x);
    }
  }

  /** An index holding the first occurrence of `v` is `IndexOf`. */
  lemma FirstIndex(cs: seq<string>, v: string, s: nat)
    requires s < |cs| && cs[s] == v && forall t :: 0 <= t < s ==> cs[t] != v
    ensures IndexOf(cs, v) == s
  {
    var k := IndexOf(cs, v);
    assert cs[k] == v;
  }

  /** The walk starts from the root alone, at index 0. */
  lemma OrderStart(nodes: map<string, Node>, collapsed: set<string>, hidden: set<string>, root: string)
    ensures OrderInv(nodes, collapsed, hidden, Walk([Entry(root, 0)], [""], [0], map[], map[], map[], map[]))
  {
  }

  /** The walk state after a turn that only drops the head of the queue. */
  ghost function Dropped(w: Walk): Walk
    requires w.queue != [] && |w.parents| == |w.queue| && |w.slots| == |w.queue|
  {
    w.(queue := w.queue[1..], parents := w.parents[1..], slots := w.slots[1..])
  }

  /** Dropping the head moves every other entry one place forward. */
  lemma DroppedShift(w: Walk)
    requires w.queue != [] && |w.parents| == |w.queue| && |w.slots| == |w.queue|
    ensures var w' := Dropped(w);
      && |w'.parents| == |w'.queue| && |w'.slots| == |w'.queue| && |w'.queue| == |w.queue| - 1
      && forall i :: 0 <= i < |w.queue| - 1 ==>
           && w'.queue[i] == w.queue[i + 1] && w'.parents[i] == w.parents[i + 1] && w'.slots[i] == w.slots[i + 1]
           && EntryParent(w', i) == EntryParent(w, i + 1)
  {
  }

  lemma OrderSkipShift(nodes: map<string, Node>, hidden: set<string>, w: Walk)
    requires w.queue != [] && |w.parents| == |w.queue| && |w.slots| == |w.queue|
    requires QueueSorted(w) && QueueSpan(w) && PlacedAhead(w) && PlacedFirst(w) && SlotsListed(nodes, w) && QueuedVisible(hidden, w)
    ensures var w' := Dropped(w);
      && |w'.parents| == |w'.queue| && |w'.slots| == |w'.queue|
      && QueueSorted(w') && QueueSpan(w') && PlacedAhead(w') && PlacedFirst(w') && SlotsListed(nodes, w') && QueuedVisible(hidden, w')
  {
    DroppedShift(w);
    if |w.queue| > 1 {
      assert w.queue[0].depth <= w.queue[1].depth;
    }
  }

  lemma OrderSkipEarlier(nodes: map<string, Node>, hidden: set<string>, w: Walk)
    requires w.queue != [] && |w.parents| == |w.queue| && |w.slots| == |w.queue|
    requires EarlierSlotsQueued(nodes, w) && SlotsListed(nodes, w) && QueuedVisible(hidden, w)
    requires w.queue[0].id in w.depthOf || w.queue[0].id in hidden
    ensures EarlierSlotsQueued(nodes, Dropped(w))
  {
    var w', n1 := Dropped(w), |w.queue| - 1;
    DroppedShift(w);
    var x := w.queue[0].id;
    assert w.queue[0].depth > 0 ==> x in w.depthOf;
    assert w.queue[0].depth > 0 ==> nodes[w.parents[0]].children[w.slots[0]] == x;
    forall i, s | && 0 <= i < n1 && w'.queue[i].depth > 0 && w'.parents[i] in nodes
                  && 0 <= s < w'.slots[i] && s < |nodes[w'.parents[i]].children|
                  && nodes[w'.parents[i]].children[s] == w'.queue[i].id
      ensures || w'.queue[i].id in w'.depthOf
              || exists j :: 0 <= j < i && w'.queue[j].depth > 0 && w'.parents[j] == w'.parents[i] && w'.slots[j] == s
    {
      if w'.queue[i].id !in w.depthOf {
        var j :| 0 <= j < i + 1 && w.queue[j].depth > 0 && w.parents[j] == w.parents[i + 1] && w.slots[j] == s;
        assert j != 0;
        assert w'.queue[j - 1].depth > 0 && w'.parents[j - 1] == w'.parents[i] && w'.slots[j - 1] == s;
      }
    }
  }

  lemma OrderSkipReach(nodes: map<string, Node>, collapsed: set<string>, hidden: set<string>, w: Walk)
    requires w.queue != [] && |w.parents| == |w.queue| && |w.slots| == |w.queue|
    requires Reaching(nodes, collapsed, hidden, w) && PlacedAhead(w)
    requires w.queue[0].id in w.depthOf || w.queue[0].id in hidden
    ensures Reaching(nodes, collapsed, hidden, Dropped(w))
  {
    var w', n1 := Dropped(w), |w.queue| - 1;
    DroppedShift(w);
    var x := w.queue[0].id;
    assert x in w.depthOf ==> w.depthOf[x] <= w.queue[0].depth;
    forall p, c | p in w.depthOf && p in nodes && p !in collapsed && c in nodes[p].children && c in nodes && c !in hidden
      ensures || (c in w.depthOf && w.depthOf[c] <= w.depthOf[p] + 1)
              || exists i :: 0 <= i < n1 && w'.queue[i].id == c && w'.parents[i] == p && w'.queue[i].depth == w.depthOf[p] + 1
    {
      if !(c in w.depthOf && w.depthOf[c] <= w.depthOf[p] + 1) {
        var i :| 0 <= i < |w.queue| && w.queue[i].id == c && w.parents[i] == p && w.queue[i].depth == w.depthOf[p] + 1;
        assert i != 0;
        assert w'.queue[i - 1].id == c && w'.parents[i - 1] == p;
      }
    }
  }

  /** A turn that skips a placed or hidden entry keeps the ordering invariant. */
  lemma OrderSkip(nodes: map<string, Node>, root: string, collapsed: set<string>, hidden: set<string>, w: Walk, visited: set<string>)
    requires w.queue != []
    requires WalkInv(nodes, root, collapsed, hidden, w.queue, w.parents, visited, w.groups, w.depthOf, w.via)
    requires OrderInv(nodes, collapsed, hidden, w)
    requires w.queue[0].id in visited || w.queue[0].id in hidden
    ensures OrderInv(nodes, collapsed, hidden, Dropped(w))
  {
    OrderSkipShift(nodes, hidden, w);
    OrderSkipEarlier(nodes, hidden, w);
    OrderSkipReach(nodes, collapsed, hidden, w);
  }

  /**
   * The shape of a placing turn on the ghost state: the head `e` is placed
   * at its depth and appended to its tier; `added` joins the queue, each
   * entry with `e` as its parent and its index from `sl`.
   */
  ghost predicate Turned(w: Walk, added: seq<Entry>, sl: seq<nat>, w': Walk)
  {
    && w.queue != [] && |w.parents| == |w.queue| && |w.slots| == |w.queue| && |sl| == |added|
    && var e := w.queue[0];
    && e.id !in w.depthOf
    && w'.queue == w.queue[1..] + added
    && w'.parents == w.parents[1..] + Repeat(e.id, |added|)
    && w'.slots == w.slots[1..] + sl
    && w'.groups == w.groups[e.depth := (if e.depth in w.groups then w.groups[e.depth] else []) + [e.id]]
    && w'.depthOf == w.depthOf[e.id := e.depth]
    && w'.via == (if e.depth > 0 then w.via[e.id := w.parents[0]] else w.via)
    && w'.slotOf == (if e.depth > 0 then w.slotOf[e.id := w.slots[0]] else w.slotOf)
  }

  /** What a placing turn enqueues: unless the head is collapsed, its stored, unplaced, visible children, with their indices. */
  ghost predicate Children(nodes: map<string, Node>, collapsed: set<string>, hidden: set<string>,
                           w: Walk, visited': set<string>, added: seq<Entry>, sl: seq<nat>)
  {
    && w.queue != [] && w.queue[0].id in nodes && w.queue[0].id !in hidden
    && visited' == w.depthOf.Keys + {w.queue[0].id}
    && var e := w.queue[0];
    && added == (if e.id !in collapsed then Enqueued(nodes, hidden, visited', nodes[e.id].children, e.depth + 1) else [])
    && sl == (if e.id !in collapsed then EnqueuedSlots(nodes, hidden, visited', nodes[e.id].children) else [])
  }

  /** A placing turn moves every entry it keeps one place forward, with its parent's index unchanged. */
  lemma PlacingKept(nodes: map<string, Node>, root: string, collapsed: set<string>, w: Walk, added: seq<Entry>, sl: seq<nat>, w': Walk)
    requires Turned(w, added, sl, w') && Grouped(w.groups, w.depthOf)
    requires QueueShape(nodes, root, collapsed, w.queue, w.parents, w.depthOf)
    ensures |w'.parents| == |w'.queue| && |w'.slots| == |w'.queue| && |w'.queue| == |w.queue| - 1 + |added|
    ensures forall i :: 0 <= i < |w.queue| - 1 ==>
      && w'.queue[i] == w.queue[i + 1] && w'.parents[i] == w.parents[i + 1] && w'.slots[i] == w.slots[i + 1]
      && EntryParent(w', i) == EntryParent(w, i + 1)
  {
    var e, n1 := w.queue[0], |w.queue| - 1;
    forall i | 0 <= i < n1
      ensures w'.queue[i] == w.queue[i + 1] && w'.parents[i] == w.parents[i + 1] && w'.slots[i] == w.slots[i + 1]
      ensures EntryParent(w', i) == EntryParent(w, i + 1)
    {
      if w.queue[i + 1].depth > 0 {
        var pd, p := w.queue[i + 1].depth - 1, w.parents[i + 1];
        assert p in w.depthOf && w.depthOf[p] == pd;
        TierIndexAppend(w.groups, e.depth, e.id, pd, p);
      }
    }
  }

  /** The entries a placing turn adds: children of the head at their indices, stored, unplaced and visible. */
  lemma PlacingAdded(nodes: map<string, Node>, collapsed: set<string>, hidden: set<string>,
                     w: Walk, visited': set<string>, added: seq<Entry>, sl: seq<nat>, w': Walk)
    requires Turned(w, added, sl, w') && Children(nodes, collapsed, hidden, w, visited', added, sl)
    ensures |w'.parents| == |w'.queue| && |w'.slots| == |w'.queue| && |w'.queue| == |w.queue| - 1 + |added|
    ensures forall i :: |w.queue| - 1 <= i < |w'.queue| ==>
      && w.queue[0].id !in collapsed && w'.parents[i] == w.queue[0].id
      && w'.slots[i] < |nodes[w.queue[0].id].children|
      && w'.queue[i] == Entry(nodes[w.queue[0].id].children[w'.slots[i]], w.queue[0].depth + 1)
      && w'.queue[i].id in nodes && w'.queue[i].id !in visited' && w'.queue[i].id !in hidden
  {
    var e, n1 := w.queue[0], |w.queue| - 1;
    var cs := nodes[e.id].children;
    EnqueuedAtSlots(nodes, hidden, visited', cs, e.depth + 1);
    forall i | n1 <= i < |w'.queue|
      ensures && e.id !in collapsed && w'.parents[i] == e.id
              && w'.slots[i] < |cs| && w'.queue[i] == Entry(cs[w'.slots[i]], e.depth + 1)
              && w'.queue[i].id in nodes && w'.queue[i].id !in visited' && w'.queue[i].id !in hidden
    {
      AppendIndex(w.queue[1..], added, i);
      AppendIndex(w.parents[1..], Repeat(e.id, |added|), i);
      AppendIndex(w.slots[1..], sl, i);
    }
  }

  /** The entries a placing turn adds are in increasing order of index, with none left out. */
  lemma PlacingAddedSlots(nodes: map<string, Node>, collapsed: set<string>, hidden: set<string>,
                          w: Walk, visited': set<string>, added: seq<Entry>, sl: seq<nat>, w': Walk)
    requires Turned(w, added, sl, w') && Children(nodes, collapsed, hidden, w, visited', added, sl)
    ensures forall i, j :: |w.queue| - 1 <= i < j < |w'.queue| ==> w'.slots[i] < w'.slots[j]
    ensures forall s :: && w.queue[0].id !in collapsed && 0 <= s < |nodes[w.queue[0].id].children|
                        && nodes[w.queue[0].id].children[s] in nodes && nodes[w.queue[0].id].children[s] !in visited'
                        && nodes[w.queue[0].id].children[s] !in hidden ==>
      exists i :: |w.queue| - 1 <= i < |w'.queue| && w'.slots[i] == s
  {
    var e, n1 := w.queue[0], |w.queue| - 1;
    var cs := nodes[e.id].children;
    forall i, j | n1 <= i < j < |w'.queue|
      ensures w'.slots[i] < w'.slots[j]
    {
      AppendIndex(w.slots[1..], sl, i);
      AppendIndex(w.slots[1..], sl, j);
    }
    forall s | e.id !in collapsed && 0 <= s < |cs| && cs[s] in nodes && cs[s] !in visited' && cs[s] !in hidden
      ensures exists i :: n1 <= i < |w'.queue| && w'.slots[i] == s
    {
      var k :| 0 <= k < |sl| && sl[k] == s;
      AppendIndex(w.slots[1..], sl, n1 + k);
    }
  }

  /** Every entry a placing turn adds has the head's index in its tier as its parent's index. */
  lemma PlacingAddedParent(nodes: map<string, Node>, collapsed: set<string>, hidden: set<string>,
                           w: Walk, visited': set<string>, added: seq<Entry>, sl: seq<nat>, w': Walk)
    requires Turned(w, added, sl, w') && Children(nodes, collapsed, hidden, w, visited', added, sl)
    requires Grouped(w.groups, w.depthOf)
    ensures forall i :: |w.queue| - 1 <= i < |w'.queue| ==>
      EntryParent(w', i) == |if w.queue[0].depth in w.groups then w.groups[w.queue[0].depth] else []|
  {
    var e, n1 := w.queue[0], |w.queue| - 1;
    var g := if e.depth in w.groups then w.groups[e.depth] else [];
    assert e.id !in g by {
      if e.depth in w.groups {
        assert forall i :: 0 <= i < |g| ==> g[i] in w.depthOf;
      }
    }
    TierIndexAppend(w.groups, e.depth, e.id, e.depth, e.id);
    forall i | n1 <= i < |w'.queue|
      ensures EntryParent(w', i) == |g|
    {
      AppendIndex(w.queue[1..], added, i);
      AppendIndex(w.parents[1..], Repeat(e.id, |added|), i);
    }
  }

  /** A placing turn keeps the parent's index and the child index of every node placed before. */
  lemma PlacingPlaced(nodes: map<string, Node>, root: string, collapsed: set<string>, hidden: set<string>,
                      w: Walk, added: seq<Entry>, sl: seq<nat>, w': Walk)
    requires Turned(w, added, sl, w') && Placed(nodes, root, collapsed, hidden, w.depthOf, w.via) && Grouped(w.groups, w.depthOf)
    ensures forall v :: v in w.depthOf ==> PlacedParent(w', v) == PlacedParent(w, v) && PlacedSlot(w', v) == PlacedSlot(w, v)
  {
    var e := w.queue[0];
    forall v | v in w.depthOf
      ensures PlacedParent(w', v) == PlacedParent(w, v) && PlacedSlot(w', v) == PlacedSlot(w, v)
    {
      assert v != e.id;
      if w.depthOf[v] > 0 {
        assert w'.via[v] == w.via[v] && w'.depthOf[v] == w.depthOf[v];
        TierIndexAppend(w.groups, e.depth, e.id, w.depthOf[v] - 1, w.via[v]);
      }
    }
  }

  /** The node a placing turn places takes the parent's index and the child index of its entry. */
  lemma PlacingPlacedHead(w: Walk, added: seq<Entry>, sl: seq<nat>, w': Walk)
    requires Turned(w, added, sl, w')
    ensures w.queue[0].depth > 0 ==>
      PlacedParent(w', w.queue[0].id) == EntryParent(w, 0) && PlacedSlot(w', w.queue[0].id) == w.slots[0]
  {
    var e := w.queue[0];
    if e.depth > 0 {
      assert e.depth - 1 in w.groups ==> w'.groups[e.depth - 1] == w.groups[e.depth - 1];
    }
  }

  /** The entries a turn keeps: each moves one place forward with its parent's index unchanged. */
  ghost predicate KeptShape(w: Walk, w': Walk)
  {
    && w.queue != [] && |w.parents| == |w.queue| && |w.slots| == |w.queue|
    && |w'.parents| == |w'.queue| && |w'.slots| == |w'.queue| && |w'.queue| >= |w.queue| - 1
    && forall i :: 0 <= i < |w.queue| - 1 ==>
         && w'.queue[i] == w.queue[i + 1] && w'.parents[i] == w.parents[i + 1] && w'.slots[i] == w.slots[i + 1]
         && EntryParent(w', i) == EntryParent(w, i + 1)
  }

  /**
   * The entries a turn adds after the kept ones: children of the head `e`
   * at increasing indices, each stored, unplaced and visible, none left
   * out, and all with `e`'s index in its tier as their parent's index.
   */
  ghost predicate AddedShape(nodes: map<string, Node>, collapsed: set<string>, hidden: set<string>,
                             w: Walk, visited': set<string>, w': Walk)
  {
    && w.queue != [] && w.queue[0].id in nodes && w.queue[0].id !in hidden
    && visited' == w.depthOf.Keys + {w.queue[0].id}
    && |w'.parents| == |w'.queue| && |w'.slots| == |w'.queue| && |w'.queue| >= |w.queue| - 1
    && var e, cs := w.queue[0], nodes[w.queue[0].id].children;
    && (forall i :: |w.queue| - 1 <= i < |w'.queue| ==>
          && e.id !in collapsed && w'.parents[i] == e.id
          && w'.slots[i] < |cs| && w'.queue[i] == Entry(cs[w'.slots[i]], e.depth + 1)
          && w'.queue[i].id in nodes && w'.queue[i].id !in visited' && w'.queue[i].id !in hidden
          && EntryParent(w', i) == |if e.depth in w.groups then w.groups[e.depth] else []|)
    && (forall i, j :: |w.queue| - 1 <= i < j < |w'.queue| ==> w'.slots[i] < w'.slots[j])
    && (forall s :: e.id !in collapsed && 0 <= s < |cs| && cs[s] in nodes && cs[s] !in visited' && cs[s] !in hidden ==>
          exists i :: |w.queue| - 1 <= i < |w'.queue| && w'.slots[i] == s)
  }

  /** A placing turn moves the queue as `KeptShape` and `AddedShape` say. */
  lemma PlacingShape(nodes: map<string, Node>, root: string, collapsed: set<string>, hidden: set<string>,
                     w: Walk, visited': set<string>, added: seq<Entry>, sl: seq<nat>, w': Walk)
    requires Turned(w, added, sl, w') && Children(nodes, collapsed, hidden, w, visited', added, sl)
    requires Grouped(w.groups, w.depthOf) && QueueShape(nodes, root, collapsed, w.queue, w.parents, w.depthOf)
    ensures KeptShape(w, w') && AddedShape(nodes, collapsed, hidden, w, visited', w')
  {
    PlacingKept(nodes, root, collapsed, w, added, sl, w');
    PlacingAdded(nodes, collapsed, hidden, w, visited', added, sl, w');
    PlacingAddedSlots(nodes, collapsed, hidden, w, visited', added, sl, w');
    PlacingAddedParent(nodes, collapsed, hidden, w, visited', added, sl, w');
  }

  /** Every entry after a turn is one tier below the placed head, or at its tier. */
  lemma TurnDepths(nodes: map<string, Node>, collapsed: set<string>, hidden: set<string>, w: Walk, visited': set<string>, w': Walk)
    requires KeptShape(w, w') && AddedShape(nodes, collapsed, hidden, w, visited', w')
    requires QueueSorted(w) && QueueSpan(w)
    ensures forall i :: 0 <= i < |w'.queue| ==> w.queue[0].depth <= w'.queue[i].depth <= w.queue[0].depth + 1
  {
    forall i | 0 <= i < |w'.queue|
      ensures w.queue[0].depth <= w'.queue[i].depth <= w.queue[0].depth + 1
    {
      if i < |w.queue| - 1 {
        assert w.queue[0].depth <= w.queue[i + 1].depth;
      }
    }
  }

  /** A placing turn keeps the queue in breadth-first order. */
  lemma OrderPlaceSorted(nodes: map<string, Node>, root: string, collapsed: set<string>, hidden: set<string>,
                         w: Walk, visited': set<string>, w': Walk)
    requires KeptShape(w, w') && AddedShape(nodes, collapsed, hidden, w, visited', w')
    requires Grouped(w.groups, w.depthOf) && QueueShape(nodes, root, collapsed, w.queue, w.parents, w.depthOf)
    requires QueueSorted(w) && QueueSpan(w)
    ensures QueueSorted(w')
  {
    var e, n1 := w.queue[0], |w.queue| - 1;
    var g := if e.depth in w.groups then w.groups[e.depth] else [];
    TurnDepths(nodes, collapsed, hidden, w, visited', w');
    forall i, j | 0 <= i < j < |w'.queue|
      ensures || w'.queue[i].depth < w'.queue[j].depth
              || (w'.queue[i].depth == w'.queue[j].depth
                  && PairBefore(EntryParent(w', i), w'.slots[i], EntryParent(w', j), w'.slots[j]))
    {
      if j < n1 {
        assert w'.queue[i] == w.queue[i + 1] && w'.queue[j] == w.queue[j + 1];
      } else if i < n1 && w.queue[i + 1].depth == e.depth + 1 {
        var p := w.parents[i + 1];
        assert p in w.depthOf && w.depthOf[p] == e.depth;
        assert e.depth in w.groups && p in w.groups[e.depth];
        assert EntryParent(w', i) == IndexOf(g, p) < |g| == EntryParent(w', j);
      }
    }
  }

  /** A placing turn keeps the queue within two depths and behind everything placed. */
  lemma OrderPlaceSpan(nodes: map<string, Node>, collapsed: set<string>, hidden: set<string>,
                       w: Walk, visited': set<string>, added: seq<Entry>, sl: seq<nat>, w': Walk)
    requires Turned(w, added, sl, w') && KeptShape(w, w') && AddedShape(nodes, collapsed, hidden, w, visited', w')
    requires QueueSorted(w) && QueueSpan(w) && PlacedAhead(w)
    ensures QueueSpan(w') && PlacedAhead(w')
  {
    var e := w.queue[0];
    TurnDepths(nodes, collapsed, hidden, w, visited', w');
    forall v, i | v in w'.depthOf && 0 <= i < |w'.queue|
      ensures w'.depthOf[v] <= w'.queue[i].depth
    {
      if v != e.id {
        assert w.depthOf[v] <= w.queue[0].depth;
      }
    }
  }

  /** A placing turn keeps every tier in breadth-first order. */
  lemma OrderPlaceTiers(nodes: map<string, Node>, root: string, collapsed: set<string>, hidden: set<string>,
                        w: Walk, added: seq<Entry>, sl: seq<nat>, w': Walk)
    requires Turned(w, added, sl, w')
    requires Grouped(w.groups, w.depthOf) && Placed(nodes, root, collapsed, hidden, w.depthOf, w.via)
    requires TiersSorted(w) && PlacedFirst(w)
    ensures TiersSorted(w')
  {
    var e := w.queue[0];
    var g := if e.depth in w.groups then w.groups[e.depth] else [];
    PlacingPlaced(nodes, root, collapsed, hidden, w, added, sl, w');
    PlacingPlacedHead(w, added, sl, w');
    forall d, i, j | d in w'.groups && d > 0 && 0 <= i < j < |w'.groups[d]|
      ensures PairBefore(PlacedParent(w', w'.groups[d][i]), PlacedSlot(w', w'.groups[d][i]),
                         PlacedParent(w', w'.groups[d][j]), PlacedSlot(w', w'.groups[d][j]))
    {
      if d != e.depth {
        assert w'.groups[d] == w.groups[d];
        assert w.groups[d][i] in w.depthOf && w.groups[d][j] in w.depthOf;
      } else {
        assert w'.groups[d] == g + [e.id];
        var a := g[i];
        assert w'.groups[d][i] == a && a in w.depthOf && w.depthOf[a] == e.depth;
        if j < |g| {
          assert w'.groups[d][j] == g[j] && d in w.groups && g[j] in w.depthOf;
        } else {
          assert w'.groups[d][j] == e.id;
          assert PairBefore(PlacedParent(w, a), PlacedSlot(w, a), EntryParent(w, 0), w.slots[0]);
        }
      }
    }
  }

  /** A placing turn keeps each placed node ahead of the entries queued at its depth. */
  lemma OrderPlaceAhead(nodes: map<string, Node>, root: string, collapsed: set<string>, hidden: set<string>,
                        w: Walk, visited': set<string>, added: seq<Entry>, sl: seq<nat>, w': Walk)
    requires Turned(w, added, sl, w') && KeptShape(w, w') && AddedShape(nodes, collapsed, hidden, w, visited', w')
    requires Grouped(w.groups, w.depthOf) && Placed(nodes, root, collapsed, hidden, w.depthOf, w.via)
    requires QueueSorted(w) && PlacedAhead(w) && PlacedFirst(w)
    ensures PlacedFirst(w')
  {
    var e, n1 := w.queue[0], |w.queue| - 1;
    PlacingPlaced(nodes, root, collapsed, hidden, w, added, sl, w');
    PlacingPlacedHead(w, added, sl, w');
    forall v, i | v in w'.depthOf && w'.depthOf[v] > 0 && 0 <= i < |w'.queue| && w'.queue[i].depth == w'.depthOf[v]
      ensures PairBefore(PlacedParent(w', v), PlacedSlot(w', v), EntryParent(w', i), w'.slots[i])
    {
      if v == e.id {
        assert i < n1;
        assert w.queue[0].depth == w.queue[i + 1].depth;
      } else {
        assert w.depthOf[v] <= w.queue[0].depth;
        assert i < n1;
        assert PairBefore(PlacedParent(w, v), PlacedSlot(w, v), EntryParent(w, i + 1), w.slots[i + 1]);
      }
    }
  }

  /** A placing turn keeps each entry at its index among its parent's children, and no entry below the root hidden. */
  lemma OrderPlaceListed(nodes: map<string, Node>, collapsed: set<string>, hidden: set<string>,
                         w: Walk, visited': set<string>, w': Walk)
    requires KeptShape(w, w') && AddedShape(nodes, collapsed, hidden, w, visited', w')
    requires SlotsListed(nodes, w) && QueuedVisible(hidden, w)
    ensures SlotsListed(nodes, w') && QueuedVisible(hidden, w')
  {
  }

  /** A placing turn keeps every placed node's index the first at which its parent lists it. */
  lemma OrderPlaceFirst(nodes: map<string, Node>, w: Walk, added: seq<Entry>, sl: seq<nat>, w': Walk)
    requires Turned(w, added, sl, w')
    requires SlotsListed(nodes, w) && EarlierSlotsQueued(nodes, w) && FirstSlots(nodes, w)
    ensures FirstSlots(nodes, w')
  {
    var e := w.queue[0];
    if e.depth > 0 {
      var cs := nodes[w.parents[0]].children;
      assert cs[w.slots[0]] == e.id;
      assert forall s :: 0 <= s < w.slots[0] ==> cs[s] != e.id;
    }
  }

  /** An earlier listing of a kept entry is placed or queued ahead of it after a placing turn. */
  lemma OrderPlaceEarlierKept(nodes: map<string, Node>, w: Walk, w': Walk, i: nat, s: nat)
    requires KeptShape(w, w') && EarlierSlotsQueued(nodes, w) && SlotsListed(nodes, w)
    requires Grows(w.depthOf, w'.depthOf) && w.queue[0].id in w'.depthOf
    requires && i < |w.queue| - 1 && w'.queue[i].depth > 0 && w'.parents[i] in nodes
             && s < w'.slots[i] && s < |nodes[w'.parents[i]].children|
             && nodes[w'.parents[i]].children[s] == w'.queue[i].id
    ensures || w'.queue[i].id in w'.depthOf
            || exists j :: 0 <= j < i && w'.queue[j].depth > 0 && w'.parents[j] == w'.parents[i] && w'.slots[j] == s
  {
    assert w'.queue[i] == w.queue[i + 1] && w'.parents[i] == w.parents[i + 1] && w'.slots[i] == w.slots[i + 1];
    if w'.queue[i].id !in w.depthOf {
      var j :| 0 <= j < i + 1 && w.queue[j].depth > 0 && w.parents[j] == w.parents[i + 1] && w.slots[j] == s;
      if j == 0 {
        assert nodes[w.parents[0]].children[w.slots[0]] == w.queue[0].id == w'.queue[i].id;
      } else {
        assert w'.queue[j - 1].depth > 0 && w'.parents[j - 1] == w'.parents[i] && w'.slots[j - 1] == s;
      }
    }
  }

  /** An earlier listing of an added entry is queued ahead of it: the turn adds the head's children in index order. */
  lemma OrderPlaceEarlierAdded(nodes: map<string, Node>, collapsed: set<string>, hidden: set<string>,
                               w: Walk, visited': set<string>, w': Walk, i: nat, s: nat)
    requires AddedShape(nodes, collapsed, hidden, w, visited', w')
    requires && |w.queue| - 1 <= i < |w'.queue| && w'.queue[i].depth > 0 && w'.parents[i] in nodes
             && s < w'.slots[i] && s < |nodes[w'.parents[i]].children|
             && nodes[w'.parents[i]].children[s] == w'.queue[i].id
    ensures exists j :: 0 <= j < i && w'.queue[j].depth > 0 && w'.parents[j] == w'.parents[i] && w'.slots[j] == s
  {
    var e, n1 := w.queue[0], |w.queue| - 1;
    var c, cs := w'.queue[i].id, nodes[e.id].children;
    assert cs[s] == c && c in nodes && c !in visited' && c !in hidden;
    var k :| n1 <= k < |w'.queue| && w'.slots[k] == s;
    assert k < i;
    assert w'.queue[k].depth > 0 && w'.parents[k] == w'.parents[i];
  }

  /** A placing turn keeps every earlier listing of a queued child placed or queued ahead of it. */
  lemma OrderPlaceEarlier(nodes: map<string, Node>, collapsed: set<string>, hidden: set<string>,
                          w: Walk, visited': set<string>, added: seq<Entry>, sl: seq<nat>, w': Walk)
    requires Turned(w, added, sl, w') && KeptShape(w, w') && AddedShape(nodes, collapsed, hidden, w, visited', w')
    requires SlotsListed(nodes, w) && EarlierSlotsQueued(nodes, w)
    ensures EarlierSlotsQueued(nodes, w')
  {
    assert Grows(w.depthOf, w'.depthOf) && w.queue[0].id in w'.depthOf;
    forall i, s | && 0 <= i < |w'.queue| && w'.queue[i].depth > 0 && w'.parents[i] in nodes
                  && 0 <= s < w'.slots[i] && s < |nodes[w'.parents[i]].children|
                  && nodes[w'.parents[i]].children[s] == w'.queue[i].id
      ensures || w'.queue[i].id in w'.depthOf
              || exists j :: 0 <= j < i && w'.queue[j].depth > 0 && w'.parents[j] == w'.parents[i] && w'.slots[j] == s
    {
      if i < |w.queue| - 1 {
        OrderPlaceEarlierKept(nodes, w, w', i, s);
      } else {
        OrderPlaceEarlierAdded(nodes, collapsed, hidden, w, visited', w', i, s);
      }
    }
  }

  /** A placing turn keeps every visible child of the placed head placed or queued at most one tier below it. */
  lemma OrderPlaceReachHead(nodes: map<string, Node>, collapsed: set<string>, hidden: set<string>,
                            w: Walk, visited': set<string>, added: seq<Entry>, sl: seq<nat>, w': Walk, c: string)
    requires Turned(w, added, sl, w') && AddedShape(nodes, collapsed, hidden, w, visited', w')
    requires PlacedAhead(w)
    requires w.queue[0].id !in collapsed && c in nodes[w.queue[0].id].children && c in nodes && c !in hidden
    ensures var p := w.queue[0].id;
      || (c in w'.depthOf && w'.depthOf[c] <= w'.depthOf[p] + 1)
      || exists i :: 0 <= i < |w'.queue| && w'.queue[i].id == c && w'.parents[i] == p && w'.queue[i].depth == w'.depthOf[p] + 1
  {
    var e, n1 := w.queue[0], |w.queue| - 1;
    if c !in w'.depthOf {
      var cs := nodes[e.id].children;
      var s :| 0 <= s < |cs| && cs[s] == c;
      var i :| n1 <= i < |w'.queue| && w'.slots[i] == s;
      assert w'.queue[i].id == c && w'.parents[i] == e.id && w'.queue[i].depth == w'.depthOf[e.id] + 1;
    } else if c != e.id {
      assert w.depthOf[c] <= w.queue[0].depth;
    }
  }

  /** A placing turn keeps every visible child of a placed, expanded node placed or queued at most one tier below it. */
  lemma OrderPlaceReach(nodes: map<string, Node>, collapsed: set<string>, hidden: set<string>,
                        w: Walk, visited': set<string>, added: seq<Entry>, sl: seq<nat>, w': Walk)
    requires Turned(w, added, sl, w') && KeptShape(w, w') && AddedShape(nodes, collapsed, hidden, w, visited', w')
    requires Reaching(nodes, collapsed, hidden, w) && PlacedAhead(w)
    ensures Reaching(nodes, collapsed, hidden, w')
  {
    var e, n1 := w.queue[0], |w.queue| - 1;
    forall p, c | p in w'.depthOf && p in nodes && p !in collapsed && c in nodes[p].children && c in nodes && c !in hidden
      ensures || (c in w'.depthOf && w'.depthOf[c] <= w'.depthOf[p] + 1)
              || exists i :: 0 <= i < |w'.queue| && w'.queue[i].id == c && w'.parents[i] == p && w'.queue[i].depth == w'.depthOf[p] + 1
    {
      if p == e.id {
        OrderPlaceReachHead(nodes, collapsed, hidden, w, visited', added, sl, w', c);
      } else if !(c in w.depthOf && w.depthOf[c] <= w.depthOf[p] + 1) {
        var i :| 0 <= i < |w.queue| && w.queue[i].id == c && w.parents[i] == p && w.queue[i].depth == w.depthOf[p] + 1;
        if i > 0 {
          assert w'.queue[i - 1].id == c && w'.parents[i - 1] == p;
        }
      }
    }
  }

  /** The node a placing turn places was enqueued by the first expanded node listing it in the tier above. */
  lemma OrderPlaceListerHead(nodes: map<string, Node>, root: string, collapsed: set<string>, hidden: set<string>,
                             w: Walk, groups': map<nat, seq<string>>, q: string)
    requires w.queue != [] && |w.parents| == |w.queue| && |w.slots| == |w.queue|
    requires w.queue[0].id in nodes && w.queue[0].id !in hidden && w.queue[0].id !in w.depthOf
    requires groups' == w.groups[w.queue[0].depth := (if w.queue[0].depth in w.groups then w.groups[w.queue[0].depth] else []) + [w.queue[0].id]]
    requires Grouped(w.groups, w.depthOf) && QueueShape(nodes, root, collapsed, w.queue, w.parents, w.depthOf)
    requires QueueSorted(w) && Reaching(nodes, collapsed, hidden, w)
    requires w.queue[0].depth > 0 && q in w.depthOf && q in nodes && q !in collapsed
    requires w.queue[0].id in nodes[q].children && w.depthOf[q] + 1 == w.queue[0].depth
    ensures TierIndex(groups', w.depthOf[q], w.parents[0]) <= TierIndex(groups', w.depthOf[q], q)
  {
    var e, d, p := w.queue[0], w.depthOf[q], w.parents[0];
    assert p in w.depthOf && w.depthOf[p] == d;
    TierIndexAppend(w.groups, e.depth, e.id, d, p);
    TierIndexAppend(w.groups, e.depth, e.id, d, q);
    ReachingEntry(nodes, collapsed, hidden, w, q, e.id);
    var i :| 0 <= i < |w.queue| && w.queue[i].id == e.id && w.parents[i] == q && w.queue[i].depth == d + 1;
    if i > 0 {
      SortedHead(w, i);
    }
  }

  /** An unplaced, visible child of a placed, expanded node is queued with that node as its parent. */
  lemma ReachingEntry(nodes: map<string, Node>, collapsed: set<string>, hidden: set<string>, w: Walk, q: string, c: string)
    requires |w.parents| == |w.queue| && Reaching(nodes, collapsed, hidden, w)
    requires q in w.depthOf && q in nodes && q !in collapsed && c in nodes[q].children && c in nodes && c !in hidden
    requires c !in w.depthOf
    ensures exists i :: 0 <= i < |w.queue| && w.queue[i].id == c && w.parents[i] == q && w.queue[i].depth == w.depthOf[q] + 1
  {
  }

  /** An entry queued at the head's depth has a parent no earlier in its tier than the head's. */
  lemma SortedHead(w: Walk, i: nat)
    requires |w.parents| == |w.queue| && |w.slots| == |w.queue| && QueueSorted(w)
    requires 0 < i < |w.queue| && w.queue[i].depth == w.queue[0].depth > 0
    ensures TierIndex(w.groups, w.queue[0].depth - 1, w.parents[0]) <= TierIndex(w.groups, w.queue[0].depth - 1, w.parents[i])
  {
    assert PairBefore(EntryParent(w, 0), w.slots[0], EntryParent(w, i), w.slots[i]);
  }

  /** A placing turn keeps every node placed before it placed by the first expanded node listing it. */
  lemma OrderPlaceListerKept(nodes: map<string, Node>, root: string, collapsed: set<string>, hidden: set<string>,
                             w: Walk, added: seq<Entry>, sl: seq<nat>, w': Walk, v: string, q: string)
    requires Turned(w, added, sl, w')
    requires Placed(nodes, root, collapsed, hidden, w.depthOf, w.via) && Grouped(w.groups, w.depthOf)
    requires PlacedAhead(w) && FirstLister(nodes, collapsed, w.groups, w.depthOf, w.via)
    requires v in w.via && q in w'.depthOf && q in nodes && q !in collapsed
    requires v in nodes[q].children && w'.depthOf[q] + 1 == w.depthOf[v]
    ensures q in w.depthOf && w.depthOf[q] == w'.depthOf[q]
    ensures TierIndex(w'.groups, w.depthOf[q], w.via[v]) <= TierIndex(w'.groups, w.depthOf[q], q)
  {
    var e := w.queue[0];
    assert q != e.id by {
      assert w.depthOf[v] <= e.depth;
    }
    var d, p := w.depthOf[q], w.via[v];
    assert p in w.depthOf && w.depthOf[p] == d;
    TierIndexAppend(w.groups, e.depth, e.id, d, p);
    TierIndexAppend(w.groups, e.depth, e.id, d, q);
  }

  /** What a placing turn needs to keep `FirstLister`. */
  ghost predicate ListerTurn(nodes: map<string, Node>, root: string, collapsed: set<string>, hidden: set<string>,
                             w: Walk, visited': set<string>, added: seq<Entry>, sl: seq<nat>, w': Walk)
  {
    && Turned(w, added, sl, w') && AddedShape(nodes, collapsed, hidden, w, visited', w')
    && Placed(nodes, root, collapsed, hidden, w.depthOf, w.via) && Grouped(w.groups, w.depthOf)
    && QueueShape(nodes, root, collapsed, w.queue, w.parents, w.depthOf)
    && QueueSorted(w) && PlacedAhead(w) && Reaching(nodes, collapsed, hidden, w)
    && FirstLister(nodes, collapsed, w.groups, w.depthOf, w.via)
  }

  /** After a placing turn, one placed node and one expanded lister one tier above it are in first-lister order. */
  lemma OrderPlaceListerAt(nodes: map<string, Node>, root: string, collapsed: set<string>, hidden: set<string>,
                           w: Walk, visited': set<string>, added: seq<Entry>, sl: seq<nat>, w': Walk, v: string, q: string)
    requires ListerTurn(nodes, root, collapsed, hidden, w, visited', added, sl, w')
    requires && v in w'.via && v in w'.depthOf && q in w'.depthOf && q in nodes && q !in collapsed
             && v in nodes[q].children && w'.depthOf[q] + 1 == w'.depthOf[v]
    ensures TierIndex(w'.groups, w'.depthOf[q], w'.via[v]) <= TierIndex(w'.groups, w'.depthOf[q], q)
  {
    var e := w.queue[0];
    if v == e.id {
      assert e.depth > 0 && q != e.id;
      assert w'.via[v] == w.parents[0] && w'.depthOf[q] == w.depthOf[q];
      OrderPlaceListerHead(nodes, root, collapsed, hidden, w, w'.groups, q);
    } else {
      OrderPlaceListerKept(nodes, root, collapsed, hidden, w, added, sl, w', v, q);
    }
  }

  /** A placing turn keeps every node placed by the first expanded node listing it in the tier above. */
  lemma OrderPlaceLister(nodes: map<string, Node>, root: string, collapsed: set<string>, hidden: set<string>,
                         w: Walk, visited': set<string>, added: seq<Entry>, sl: seq<nat>, w': Walk)
    requires ListerTurn(nodes, root, collapsed, hidden, w, visited', added, sl, w')
    ensures FirstLister(nodes, collapsed, w'.groups, w'.depthOf, w'.via)
  {
    forall v, q | && v in w'.via && v in w'.depthOf && q in w'.depthOf && q in nodes && q !in collapsed
                  && v in nodes[q].children && w'.depthOf[q] + 1 == w'.depthOf[v]
      ensures TierIndex(w'.groups, w'.depthOf[q], w'.via[v]) <= TierIndex(w'.groups, w'.depthOf[q], q)
    {
      OrderPlaceListerAt(nodes, root, collapsed, hidden, w, visited', added, sl, w', v, q);
    }
  }

  /** A placing turn keeps the ordering invariant. */
  lemma OrderPlace(nodes: map<string, Node>, root: string, collapsed: set<string>, hidden: set<string>,
                   w: Walk, visited: set<string>, added: seq<Entry>, w': Walk, visited': set<string>)
    requires PlacingTurn(nodes, root, collapsed, hidden, w, visited, added, w', visited')
    ensures OrderInv(nodes, collapsed, hidden, w')
  {
    var e := w.queue[0];
    var sl := if e.id !in collapsed then EnqueuedSlots(nodes, hidden, visited', nodes[e.id].children) else [];
    EnqueuedAtSlots(nodes, hidden, visited', nodes[e.id].children, e.depth + 1);
    assert Turned(w, added, sl, w');
    assert Children(nodes, collapsed, hidden, w, visited', added, sl);
    PlacingShape(nodes, root, collapsed, hidden, w, visited', added, sl, w');
    OrderPlaceSorted(nodes, root, collapsed, hidden, w, visited', w');
    OrderPlaceSpan(nodes, collapsed, hidden, w, visited', added, sl, w');
    OrderPlaceTiers(nodes, root, collapsed, hidden, w, added, sl, w');
    OrderPlaceAhead(nodes, root, collapsed, hidden, w, visited', added, sl, w');
    OrderPlaceListed(nodes, collapsed, hidden, w, visited', w');
    OrderPlaceFirst(nodes, w, added, sl, w');
    OrderPlaceEarlier(nodes, collapsed, hidden, w, visited', added, sl, w');
    OrderPlaceReach(nodes, collapsed, hidden, w, visited', added, sl, w');
    assert ListerTurn(nodes, root, collapsed, hidden, w, visited', added, sl, w');
    OrderPlaceLister(nodes, root, collapsed, hidden, w, visited', added, sl, w');
  }

  /** Every visible child of a placed, expanded node is placed at most one tier below it. */
  ghost predicate Shortest(nodes: map<string, Node>, collapsed: set<string>, hidden: set<string>, depthOf: map<string, nat>)
  {
    forall p, c :: p in depthOf && p in nodes && p !in collapsed && c in nodes[p].children && c in nodes && c !in hidden ==>
      c in depthOf && depthOf[c] <= depthOf[p] + 1
  }

  /**
   * `a` comes before `b` in a tier whose tier above is `above`: the node
   * that placed `a` comes earlier in `above`, or both were placed by the
   * same node and `a` is listed first among its children.
   */
  ghost predicate ChildBefore(nodes: map<string, Node>, above: seq<string>, via: map<string, string>, a: string, b: string)
  {
    && a in via && b in via && via[a] in above && via[b] in above
    && via[a] in nodes && via[b] in nodes && a in nodes[via[a]].children && b in nodes[via[b]].children
    && (|| IndexOf(above, via[a]) < IndexOf(above, via[b])
        || (via[a] == via[b] && IndexOf(nodes[via[a]].children, a) < IndexOf(nodes[via[a]].children, b)))
  }

  /**
   * Every tier below the root is in breadth-first order: each node was
   * placed by the first expanded node of the tier above that lists it, and
   * the tier is ordered by those nodes, then by the index among their children.
   */
  ghost predicate BreadthFirstOrder(nodes: map<string, Node>, collapsed: set<string>, groups: map<nat, seq<string>>,
                                    depthOf: map<string, nat>, via: map<string, string>)
  {
    && FirstLister(nodes, collapsed, groups, depthOf, via)
    && forall d, i, j :: d in groups && d > 0 && 0 <= i < j < |groups[d]| && d - 1 in groups ==>
      ChildBefore(nodes, groups[d - 1], via, groups[d][i], groups[d][j])
  }

  /** With the queue drained, depths are shortest and the tiers are in breadth-first order. */
  lemma OrderDone(nodes: map<string, Node>, root: string, collapsed: set<string>, hidden: set<string>, w: Walk, visited: set<string>)
    requires w.queue == []
    requires WalkInv(nodes, root, collapsed, hidden, w.queue, w.parents, visited, w.groups, w.depthOf, w.via)
    requires OrderInv(nodes, collapsed, hidden, w)
    ensures Shortest(nodes, collapsed, hidden, w.depthOf)
    ensures BreadthFirstOrder(nodes, collapsed, w.groups, w.depthOf, w.via)
  {
    forall d, i, j | d in w.groups && d > 0 && 0 <= i < j < |w.groups[d]| && d - 1 in w.groups
      ensures ChildBefore(nodes, w.groups[d - 1], w.via, w.groups[d][i], w.groups[d][j])
    {
      TierPairOrdered(nodes, root, collapsed, hidden, w, visited, d, i, j);
    }
  }

  lemma TierPairOrdered(nodes: map<string, Node>, root: string, collapsed: set<string>, hidden: set<string>,
                        w: Walk, visited: set<string>, d: nat, i: nat, j: nat)
    requires WalkInv(nodes, root, collapsed, hidden, w.queue, w.parents, visited, w.groups, w.depthOf, w.via)
    requires OrderInv(nodes, collapsed, hidden, w)
    requires d in w.groups && d > 0 && 0 <= i < j < |w.groups[d]| && d - 1 in w.groups
    ensures ChildBefore(nodes, w.groups[d - 1], w.via, w.groups[d][i], w.groups[d][j])
  {
    var a, b, above := w.groups[d][i], w.groups[d][j], w.groups[d - 1];
    assert a in w.depthOf && w.depthOf[a] == d && b in w.depthOf && w.depthOf[b] == d;
    var pa, pb := w.via[a], w.via[b];
    assert pa in w.depthOf && w.depthOf[pa] == d - 1 && pb in w.depthOf && w.depthOf[pb] == d - 1;
    assert pa in above && pb in above;
    FirstIndex(nodes[pa].children, a, w.slotOf[a]);
    FirstIndex(nodes[pb].children, b, w.slotOf[b]);
    assert PlacedParent(w, a) == IndexOf(above, pa) && PlacedParent(w, b) == IndexOf(above, pb);
    assert PairBefore(PlacedParent(w, a), PlacedSlot(w, a), PlacedParent(w, b), PlacedSlot(w, b));
    if IndexOf(above, pa) == IndexOf(above, pb) {
      assert pa == above[IndexOf(above, pa)] == pb;
    }
  }

  /** A child link the walk follows: from a stored, expanded node to a stored, visible child. */
  ghost predicate Step(nodes: map<string, Node>, collapsed: set<string>, hidden: set<string>, p: string, c: string)
  {
    p in nodes && p !in collapsed && c in nodes[p].children && c in nodes && c !in hidden
  }

  /** A path of such links. */
  ghost predicate VisiblePath(nodes: map<string, Node>, collapsed: set<string>, hidden: set<string>, path: seq<string>)
  {
    && |path| >= 1
    && forall i, j :: 0 <= i && j == i + 1 && j < |path| ==> Step(nodes, collapsed, hidden, path[i], path[j])
  }

  /** No visible path from the root reaches a node in fewer steps than its tier: the end is placed, at most that deep. */
  lemma {:induction false} ShortestBound(nodes: map<string, Node>, collapsed: set<string>, hidden: set<string>,
                                         root: string, depthOf: map<string, nat>, path: seq<string>)
    requires Shortest(nodes, collapsed, hidden, depthOf) && root in depthOf && depthOf[root] == 0
    requires VisiblePath(nodes, collapsed, hidden, path) && path[0] == root
    ensures path[|path| - 1] in depthOf && depthOf[path[|path| - 1]] <= |path| - 1
    decreases |path|
  {
    if |path| > 1 {
      var init := path[..|path| - 1];
      forall i, j | 0 <= i && j == i + 1 && j < |init|
        ensures Step(nodes, collapsed, hidden, init[i], init[j])
      {
        assert init[i] == path[i] && init[j] == path[j];
      }
      ShortestBound(nodes, collapsed, hidden, root, depthOf, init);
      assert Step(nodes, collapsed, hidden, path[|path| - 2], path[|path| - 1]);
      assert path[|path| - 2] == init[|init| - 1];
    }
  }

  /** Every placed node is reached from the root by a visible path exactly as long as its tier, through the nodes that placed it. */
  lemma {:induction false} PlacedPath(nodes: map<string, Node>, root: string, collapsed: set<string>, hidden: set<string>,
                                      depthOf: map<string, nat>, via: map<string, string>, v: string)
    returns (path: seq<string>)
    requires Placed(nodes, root, collapsed, hidden, depthOf, via) && v in depthOf
    ensures VisiblePath(nodes, collapsed, hidden, path) && path[0] == root && path[|path| - 1] == v
    ensures |path| == depthOf[v] + 1
    decreases depthOf[v]
  {
    if depthOf[v] == 0 {
      path := [v];
    } else {
      var p := via[v];
      var init := PlacedPath(nodes, root, collapsed, hidden, depthOf, via, p);
      path := init + [v];
      forall i, j | 0 <= i && j == i + 1 && j < |path|
        ensures Step(nodes, collapsed, hidden, path[i], path[j])
      {
        if j < |init| {
          assert path[i] == init[i] && path[j] == init[j];
        } else {
          assert path[i] == p && path[j] == v;
        }
      }
    }
  }
}
