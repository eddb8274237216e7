/**
 * The mind-map layout engine (`MindMapLayoutEngine`): it hides the
 * descendants of collapsed nodes, places the visible nodes tier by tier
 * in breadth-first order (or on a radial wedge layout), and turns the
 * tree into the view's node and edge records.
 */
module MindmapLayout {
  import opened Wrappers
  import opened Seqs
  import opened NotionTypes
  import opened MindmapView
  import opened MindmapWalk

  datatype LayoutKind = Horizontal | Vertical | Radial

  datatype Spacing = Spacing(x: real, y: real)

  /** `MindMapConfig`. */
  datatype MindMapConfig = MindMapConfig(
    layout: LayoutKind,
    nodeSpacing: Option<Spacing>,
    maxDepth: Option<int>,
    showLabels: bool,
    enableAnimation: bool)

  // ---------------------------------------------------------------------
  // Configuration
  // ---------------------------------------------------------------------

  /** Horizontal spacing, `nodeSpacing?.x || 300`: a missing or zero value falls back. */
  function SpacingX(c: MindMapConfig): (r: real)
    ensures r != 0.0
  {
    if c.nodeSpacing.Some? && c.nodeSpacing.value.x != 0.0 then c.nodeSpacing.value.x else 300.0
  }

  /** Vertical spacing, `nodeSpacing?.y || 120`. */
  function SpacingY(c: MindMapConfig): (r: real)
    ensures r != 0.0
  {
    if c.nodeSpacing.Some? && c.nodeSpacing.value.y != 0.0 then c.nodeSpacing.value.y else 120.0
  }

  /** The fields a caller of `createMindMapLayout` may override. */
  datatype ConfigOverride = ConfigOverride(
    layout: Option<LayoutKind>,
    nodeSpacing: Option<Spacing>,
    maxDepth: Option<int>,
    showLabels: Option<bool>,
    enableAnimation: Option<bool>)

  /** The configuration `createMindMapLayout` builds: its defaults, then the caller's fields. */
  function MergeConfig(o: ConfigOverride): MindMapConfig
  {
    MindMapConfig(
      o.layout.GetOr(Horizontal),
      Some(o.nodeSpacing.GetOr(Spacing(300.0, 120.0))),
      o.maxDepth,
      o.showLabels.GetOr(true),
      o.enableAnimation.GetOr(true))
  }

  /** Without overrides the layout is horizontal with spacing 300 by 120. */
  lemma DefaultConfig()
    ensures var c := MergeConfig(ConfigOverride(None, None, None, None, None));
      c.layout == Horizontal && SpacingX(c) == 300.0 && SpacingY(c) == 120.0 && c.showLabels && c.enableAnimation
  {
  }

  /** A field the caller gives wins over the default. */
  lemma OverridesWin(o: ConfigOverride)
    ensures o.layout.Some? ==> MergeConfig(o).layout == o.layout.value
    ensures o.nodeSpacing.Some? && o.nodeSpacing.value.x != 0.0 ==> SpacingX(MergeConfig(o)) == o.nodeSpacing.value.x
    ensures o.nodeSpacing.Some? && o.nodeSpacing.value.y != 0.0 ==> SpacingY(MergeConfig(o)) == o.nodeSpacing.value.y
    ensures MergeConfig(o).maxDepth == o.maxDepth
  {
  }

  // ---------------------------------------------------------------------
  // Hidden nodes
  // ---------------------------------------------------------------------

  /**
   * A rank that falls along every children link out of a ranked node: the
   * children links below a ranked node hold no cycle.
   */
  ghost predicate ChildRanked(nodes: map<string, Node>, rank: map<string, nat>)
  {
    forall k :: k in nodes && k in rank ==> forall c :: c in nodes[k].children ==> c in rank && rank[c] < rank[k]
  }

  /** The children links below every stored collapsed node hold no cycle. */
  ghost predicate RankedBelow(nodes: map<string, Node>, rank: map<string, nat>, collapsed: set<string>)
  {
    ChildRanked(nodes, rank) && forall c :: c in collapsed && c in nodes ==> c in rank
  }

  lemma RankedChild(nodes: map<string, Node>, rank: map<string, nat>, k: string, c: string)
    requires ChildRanked(nodes, rank) && k in nodes && k in rank && c in nodes[k].children
    ensures k in rank && c in rank && rank[c] < rank[k]
  {
  }

  /** Everything below `k` through children links, a listed child counting even when it is missing. */
  ghost function Descendants(nodes: map<string, Node>, rank: map<string, nat>, k: string): set<string>
    requires ChildRanked(nodes, rank) && (k in nodes ==> k in rank)
    decreases if k in rank then rank[k] else 0, 1, 0
  {
    if k !in nodes then {} else Below(nodes, rank, k, nodes[k].children)
  }

  /** The children `cs` of `k` and everything below them. */
  ghost function Below(nodes: map<string, Node>, rank: map<string, nat>, k: string, cs: seq<string>): set<string>
    requires ChildRanked(nodes, rank) && k in nodes && k in rank && forall c :: c in cs ==> c in nodes[k].children
    decreases if k in rank then rank[k] else 0, 0, |cs|
  {
    if cs == [] then {}
    else
      var c := cs[|cs| - 1];
      Below(nodes, rank, k, cs[..|cs| - 1]) + {c} + Descendants(nodes, rank, c)
  }

  lemma {:induction false} BelowMembers(nodes: map<string, Node>, rank: map<string, nat>, k: string, cs: seq<string>, d: string)
    requires ChildRanked(nodes, rank) && k in nodes && k in rank && forall c :: c in cs ==> c in nodes[k].children
    ensures d in Below(nodes, rank, k, cs) <==> exists c :: c in cs && (d == c || d in Descendants(nodes, rank, c))
    decreases |cs|
  {
    if cs != [] {
      var init, last := cs[..|cs| - 1], cs[|cs| - 1];
      BelowMembers(nodes, rank, k, init, d);
      assert cs == init + [last];
      if d in Below(nodes, rank, k, cs) {
        if d in Below(nodes, rank, k, init) {
          var c :| c in init && (d == c || d in Descendants(nodes, rank, c));
          assert c in cs;
        } else {
          assert last in cs && (d == last || d in Descendants(nodes, rank, last));
        }
      }
      if exists c :: c in cs && (d == c || d in Descendants(nodes, rank, c)) {
        var c :| c in cs && (d == c || d in Descendants(nodes, rank, c));
        if c != last {
          assert c in init;
        }
      }
    }
  }

  /** A node's descendants are its children and their descendants. */
  lemma DescendantsStep(nodes: map<string, Node>, rank: map<string, nat>, k: string, d: string)
    requires ChildRanked(nodes, rank) && (k in nodes ==> k in rank)
    ensures d in Descendants(nodes, rank, k) <==>
      k in nodes && exists c :: c in nodes[k].children && (d == c || d in Descendants(nodes, rank, c))
  {
    if k in nodes {
      BelowMembers(nodes, rank, k, nodes[k].children, d);
    }
  }

  /** Everything below some collapsed node. */
  ghost function HiddenUnder(nodes: map<string, Node>, rank: map<string, nat>, collapsed: set<string>): set<string>
    requires RankedBelow(nodes, rank, collapsed)
  {
    set c, d | c in collapsed && d in Descendants(nodes, rank, c) :: d
  }

  /** Descendants are exactly the ends of child chains of one step or more. */
  lemma {:induction false} DescendantChain(nodes: map<string, Node>, rank: map<string, nat>, k: string, d: string)
    returns (path: seq<string>)
    requires ChildRanked(nodes, rank) && (k in nodes ==> k in rank) && d in Descendants(nodes, rank, k)
    ensures |path| >= 2 && path[0] == k && path[|path| - 1] == d && ChildSteps(nodes, path)
    decreases if k in rank then rank[k] else 0
  {
    DescendantsStep(nodes, rank, k, d);
    if d in nodes[k].children {
      path := [k, d];
    } else {
      var c :| c in nodes[k].children && d in Descendants(nodes, rank, c);
      var tail := DescendantChain(nodes, rank, c, d);
      path := [k] + tail;
      forall i | 0 <= i < |path| - 1
        ensures path[i] in nodes && path[i + 1] in nodes[path[i]].children
      {
        if i > 0 {
          assert path[i] == tail[i - 1] && path[i + 1] == tail[i];
        }
      }
    }
  }

  /** The end of every child chain of one step or more is a descendant of its start. */
  lemma {:induction false} ChainDescendant(nodes: map<string, Node>, rank: map<string, nat>, path: seq<string>)
    requires ChildRanked(nodes, rank) && |path| >= 2 && ChildSteps(nodes, path) && path[0] in rank
    ensures path[|path| - 1] in Descendants(nodes, rank, path[0])
    decreases |path|
  {
    if |path| > 2 {
      var tail := path[1..];
      assert ChildSteps(nodes, tail) by {
        forall i | 0 <= i < |tail| - 1
          ensures tail[i] in nodes && tail[i + 1] in nodes[tail[i]].children
        {
          assert tail[i] == path[i + 1] && tail[i + 1] == path[i + 2];
        }
      }
      ChainDescendant(nodes, rank, tail);
      assert path[|path| - 1] == tail[|tail| - 1];
      DescendantsStep(nodes, rank, path[0], path[|path| - 1]);
    } else {
      DescendantsStep(nodes, rank, path[0], path[1]);
    }
  }

  /** Descendants rank strictly below the node they descend from. */
  lemma {:induction false} DescendantsRankBelow(nodes: map<string, Node>, rank: map<string, nat>, k: string, d: string)
    requires ChildRanked(nodes, rank) && (k in nodes ==> k in rank) && d in Descendants(nodes, rank, k)
    ensures k in rank && d in rank && rank[d] < rank[k]
    decreases if k in rank then rank[k] else 0
  {
    DescendantsStep(nodes, rank, k, d);
    if d in nodes[k].children {
      RankedChild(nodes, rank, k, d);
    } else {
      var c :| c in nodes[k].children && d in Descendants(nodes, rank, c);
      RankedChild(nodes, rank, k, c);
      DescendantsRankBelow(nodes, rank, c, d);
    }
  }

  lemma HiddenUnderAdd(nodes: map<string, Node>, rank: map<string, nat>, s: set<string>, c: string)
    requires RankedBelow(nodes, rank, s + {c})
    ensures HiddenUnder(nodes, rank, s + {c}) == HiddenUnder(nodes, rank, s) + Descendants(nodes, rank, c)
  {
  }

  /** One collapsed node more: the hidden set grows by what lies below it. */
  lemma HiddenStep(nodes: map<string, Node>, rank: map<string, nat>, h0: set<string>, h1: set<string>, h2: set<string>,
                   done: set<string>, c: string)
    requires RankedBelow(nodes, rank, done + {c})
    requires h1 == h0 + HiddenUnder(nodes, rank, done)
    requires h2 == h1 + Descendants(nodes, rank, c)
    ensures h2 == h0 + HiddenUnder(nodes, rank, done + {c})
  {
    HiddenUnderAdd(nodes, rank, done, c);
  }

  /**
   * No node hides itself, so a collapsed node is hidden only when it lies
   * below another collapsed node.
   */
  lemma CollapsedHiddenOnlyBelowOther(nodes: map<string, Node>, rank: map<string, nat>, collapsed: set<string>, c: string)
    requires RankedBelow(nodes, rank, collapsed) && c in collapsed && c in HiddenUnder(nodes, rank, collapsed)
    ensures exists o :: o in collapsed && o != c && c in Descendants(nodes, rank, o)
  {
    var o :| o in collapsed && c in Descendants(nodes, rank, o);
    DescendantsRankBelow(nodes, rank, o, c);
  }


  // ---------------------------------------------------------------------
  // Tier positions
  // ---------------------------------------------------------------------

  /**
   * Where the hierarchical layout puts entry `i` of the `n` entries of tier
   * `d`: horizontally, tiers are columns 2.2 spacings apart and a tier is
   * a centred column of rows 1.5 spacings apart; otherwise every node of a
   * tier sits at the same point two spacings below the previous tier.
   */
  function Slot(c: MindMapConfig, d: nat, i: nat, n: nat): Position
  {
    var spacing := SpacingY(c) * 1.5;
    var startY := -(n as real * spacing) / 2.0 + spacing / 2.0;
    if c.layout == Horizontal then
      Position(d as real * SpacingX(c) * 2.2, startY + i as real * spacing)
    else
      Position(0.0, d as real * SpacingY(c) * 2.0)
  }

  /** A horizontal tier is centred on the axis and evenly spaced. */
  lemma HorizontalTierCentred(c: MindMapConfig, d: nat, n: nat, i: nat)
    requires c.layout == Horizontal && 0 < n && i + 1 < n
    ensures Slot(c, d, 0, n).y + Slot(c, d, n - 1, n).y == 0.0
    ensures Slot(c, d, i + 1, n).y - Slot(c, d, i, n).y == SpacingY(c) * 1.5
    ensures Slot(c, d, i, n).x == Slot(c, d, i + 1, n).x
  {
  }

  /** In the horizontal layout two places of the tiers never coincide. */
  lemma HorizontalSlotsDistinct(c: MindMapConfig, d1: nat, i1: nat, n1: nat, d2: nat, i2: nat, n2: nat)
    requires c.layout == Horizontal && (d1 != d2 || (n1 == n2 && i1 != i2))
    ensures Slot(c, d1, i1, n1) != Slot(c, d2, i2, n2)
  {
    var sx, sy := SpacingX(c), SpacingY(c) * 1.5;
    if d1 != d2 {
      assert (d1 as real - d2 as real) * sx * 2.2 != 0.0;
    } else {
      assert (i1 as real - i2 as real) * sy != 0.0;
    }
  }

  /** In the vertical layout every node of a tier lands on the same point. */
  lemma VerticalTierShared(c: MindMapConfig, d: nat, i: nat, j: nat, n: nat)
    requires c.layout == Vertical
    ensures Slot(c, d, i, n) == Slot(c, d, j, n) && Slot(c, d, i, n).x == 0.0
  {
  }


  /** Where the hierarchical layout puts every placed id: its slot in its tier. */
  ghost function TierPositions(c: MindMapConfig, groups: map<nat, seq<string>>, depthOf: map<string, nat>): map<string, Position>
    requires Grouped(groups, depthOf)
  {
    map v | v in depthOf :: Slot(c, depthOf[v], IndexOf(groups[depthOf[v]], v), |groups[depthOf[v]]|)
  }

  /** Placing tier by tier puts entry `i` of tier `d` on its slot. */
  lemma TierPositionsAt(c: MindMapConfig, groups: map<nat, seq<string>>, depthOf: map<string, nat>, d: nat, i: nat)
    requires Grouped(groups, depthOf) && d in groups && i < |groups[d]|
    ensures groups[d][i] in TierPositions(c, groups, depthOf)
    ensures TierPositions(c, groups, depthOf)[groups[d][i]] == Slot(c, d, i, |groups[d]|)
  {
    var v := groups[d][i];
    var j := IndexOf(groups[d], v);
    if j != i {
      assert false;
    }
  }

  /** `p2` is `p1` with tier `d`, listed in `g`, written onto its slots. */
  ghost predicate TierWritten(p1: map<string, Position>, p2: map<string, Position>, c: MindMapConfig, d: nat, g: seq<string>)
  {
    && (forall k :: k in p2 <==> k in p1 || k in g)
    && (forall i :: 0 <= i < |g| ==> g[i] in p2 && p2[g[i]] == Slot(c, d, i, |g|))
    && (forall k :: k in p1 && k !in g ==> p2[k] == p1[k])
  }

  /** `p` is `p0` with the tiers in `done` written onto their slots. */
  ghost predicate TiersWritten(p0: map<string, Position>, p: map<string, Position>, c: MindMapConfig,
                               groups: map<nat, seq<string>>, depthOf: map<string, nat>, done: set<nat>)
  {
    && (forall k :: k in p <==> k in p0 || (k in depthOf && depthOf[k] in done))
    && (forall d, i :: d in done && d in groups && 0 <= i < |groups[d]| ==>
          groups[d][i] in p && p[groups[d][i]] == Slot(c, d, i, |groups[d]|))
    && (forall k :: k in p0 && !(k in depthOf && depthOf[k] in done) ==> p[k] == p0[k])
  }

  /** An id listed in tier `d` is placed at depth `d`. */
  lemma InTier(groups: map<nat, seq<string>>, depthOf: map<string, nat>, d: nat, k: string)
    requires Grouped(groups, depthOf) && d in groups
    ensures k in groups[d] ==> k in depthOf && depthOf[k] == d
  {
    if k in groups[d] {
      var i :| 0 <= i < |groups[d]| && groups[d][i] == k;
    }
  }

  lemma TierStep(p0: map<string, Position>, p1: map<string, Position>, p2: map<string, Position>, c: MindMapConfig,
                 groups: map<nat, seq<string>>, depthOf: map<string, nat>, done: set<nat>, d: nat)
    requires Grouped(groups, depthOf) && d in groups && d !in done
    requires TiersWritten(p0, p1, c, groups, depthOf, done)
    requires TierWritten(p1, p2, c, d, groups[d])
    ensures TiersWritten(p0, p2, c, groups, depthOf, done + {d})
  {
    forall k
      ensures k in p2 <==> k in p0 || (k in depthOf && depthOf[k] in done + {d})
    {
      InTier(groups, depthOf, d, k);
    }
    forall e, i | e in done + {d} && e in groups && 0 <= i < |groups[e]|
      ensures groups[e][i] in p2 && p2[groups[e][i]] == Slot(c, e, i, |groups[e]|)
    {
      InTier(groups, depthOf, d, groups[e][i]);
    }
    forall k | k in p0 && !(k in depthOf && depthOf[k] in done + {d})
      ensures p2[k] == p0[k]
    {
      InTier(groups, depthOf, d, k);
    }
  }

  /** A map holding every tier on its slots agrees with `TierPositions` on every placed id. */
  lemma TiersAgree(p: map<string, Position>, c: MindMapConfig, groups: map<nat, seq<string>>, depthOf: map<string, nat>)
    requires Grouped(groups, depthOf)
    requires forall d, i :: d in groups && 0 <= i < |groups[d]| ==>
               groups[d][i] in p && p[groups[d][i]] == Slot(c, d, i, |groups[d]|)
    ensures forall k :: k in depthOf ==> k in p && p[k] == TierPositions(c, groups, depthOf)[k]
  {
    forall k | k in depthOf
      ensures k in p && p[k] == TierPositions(c, groups, depthOf)[k]
    {
      var d := depthOf[k];
      var i := IndexOf(groups[d], k);
      TierPositionsAt(c, groups, depthOf, d, i);
    }
  }

  /** Writing every tier onto its slots is `TierPositions`. */
  lemma PositionsAreTiers(p0: map<string, Position>, p: map<string, Position>, c: MindMapConfig,
                          groups: map<nat, seq<string>>, depthOf: map<string, nat>)
    requires Grouped(groups, depthOf)
    requires TiersWritten(p0, p, c, groups, depthOf, groups.Keys)
    ensures p == p0 + TierPositions(c, groups, depthOf)
  {
    var t := TierPositions(c, groups, depthOf);
    TiersAgree(p, c, groups, depthOf);
    assert t.Keys == depthOf.Keys;
    assert forall k :: k in depthOf ==> depthOf[k] in groups.Keys;
    UnionOf(p0, p, t);
  }

  /** A map with the keys of `p0 + t`, agreeing with `t` on its keys and with `p0` elsewhere, is `p0 + t`. */
  lemma UnionOf(p0: map<string, Position>, p: map<string, Position>, t: map<string, Position>)
    requires forall k :: k in p <==> k in p0 || k in t
    requires forall k :: k in t ==> k in p && p[k] == t[k]
    requires forall k :: k in p0 && k !in t ==> p[k] == p0[k]
    ensures p == p0 + t
  {
  }

  lemma EmptyUnion(p0: map<string, Position>, p: map<string, Position>)
    requires p0 == map[]
    ensures p0 + p == p
  {
  }


  // ---------------------------------------------------------------------
  // Radial layout
  // ---------------------------------------------------------------------

  /** `Math.PI`, the double nearest to pi, written out. */
  const Pi: real := 3.141592653589793

  /** A queue entry of the radial walk: a node, its ring, the angle it sits at and the wedge it may fill. */
  datatype Wedge = Wedge(id: string, depth: nat, angle: real, range: real)

  /** The radial queue seen as a queue of the breadth-first walk. */
  function Entries(q: seq<Wedge>): (r: seq<Entry>)
    ensures |r| == |q| && forall i :: 0 <= i < |q| ==> r[i] == Entry(q[i].id, q[i].depth)
  {
    seq(|q|, i requires 0 <= i < |q| => Entry(q[i].id, q[i].depth))
  }

  lemma EntriesTail(q: seq<Wedge>)
    requires q != []
    ensures Entries(q[1..]) == Entries(q)[1..]
  {
    assert |Entries(q[1..])| == |Entries(q)[1..]|;
    forall i | 0 <= i < |q| - 1
      ensures Entries(q[1..])[i] == Entries(q)[1..][i]
    {
      assert q[1..][i] == q[i + 1];
    }
  }

  lemma EntriesAppend(q: seq<Wedge>, a: seq<Wedge>)
    ensures Entries(q + a) == Entries(q) + Entries(a)
  {
    assert |Entries(q + a)| == |Entries(q) + Entries(a)|;
    forall i | 0 <= i < |q| + |a|
      ensures Entries(q + a)[i] == (Entries(q) + Entries(a))[i]
    {
      if i < |q| {
        assert (q + a)[i] == q[i];
      } else {
        assert (q + a)[i] == a[i - |q|];
      }
    }
  }

  /** The wedge of half-width `r / 2` around `a` lies within the wedge of half-width `pr / 2` around `pa`. */
  ghost predicate WedgeInside(a: real, r: real, pa: real, pr: real)
  {
    pa - pr / 2.0 <= a - r / 2.0 && a + r / 2.0 <= pa + pr / 2.0
  }

  /**
   * The angle given to child number `index` of the `n` children of a node
   * at `angle` with wedge `range`: the wedge is cut into `n` equal parts
   * and the child sits in the middle of its part.
   */
  function ChildAngle(angle: real, range: real, n: nat, index: nat): real
    requires n > 0
  {
    (angle - range / 2.0) + (range / n as real) * (index as real + 0.5)
  }

  /** Each child's part lies within the parent's wedge, and neighbouring parts abut. */
  lemma ChildWedgeInside(angle: real, range: real, n: nat, index: nat)
    requires 0 <= index < n && range >= 0.0
    ensures range / n as real >= 0.0
    ensures WedgeInside(ChildAngle(angle, range, n, index), range / n as real, angle, range)
    ensures index + 1 < n ==>
      ChildAngle(angle, range, n, index) + (range / n as real) / 2.0 == ChildAngle(angle, range, n, index + 1) - (range / n as real) / 2.0
  {
    var cr, x, start := range / n as real, index as real, angle - range / 2.0;
    assert cr * n as real == range;
    assert cr >= 0.0;
    assert ChildAngle(angle, range, n, index) == start + cr * x + cr / 2.0 by {
      assert cr * (x + 0.5) == cr * x + cr * 0.5;
    }
    assert 0.0 <= cr * x by {
      assert 0.0 <= x;
    }
    assert cr * x + cr <= range by {
      var slack := n as real - x - 1.0;
      assert slack >= 0.0;
      assert cr * slack >= 0.0;
      assert cr * n as real == cr * x + cr + cr * slack;
    }
    if index + 1 < n {
      assert ChildAngle(angle, range, n, index + 1) == start + cr * x + cr + cr / 2.0 by {
        assert cr * ((index + 1) as real + 0.5) == cr * x + cr * 1.5;
      }
    }
  }

  /** Where a node on ring `depth` at `angle` goes: 200 units per ring from the origin. */
  function Polar(cos: real -> real, sin: real -> real, depth: nat, angle: real): Position
  {
    var radius := (depth * 200) as real;
    Position(radius * cos(angle), radius * sin(angle))
  }

  /** With a cosine and sine that satisfy cos² + sin² = 1, a node drawn on ring `depth` lies 200·depth from the origin. */
  lemma PolarOnRing(cos: real -> real, sin: real -> real, depth: nat, angle: real)
    requires cos(angle) * cos(angle) + sin(angle) * sin(angle) == 1.0
    ensures var p := Polar(cos, sin, depth, angle);
      p.x * p.x + p.y * p.y == ((depth * 200) * (depth * 200)) as real
  {
    var r, c, s := (depth * 200) as real, cos(angle), sin(angle);
    assert (r * c) * (r * c) + (r * s) * (r * s) == r * r * (c * c + s * s);
  }

  /**
   * The wedges a placed node hands to `cs[..j]`, its first `j` children:
   * those stored in the tree and not yet placed, each on the next ring.
   */
  function Spread(nodes: map<string, Node>, visited: set<string>, cs: seq<string>, j: nat, depth: nat, angle: real, range: real): (r: seq<Wedge>)
    requires j <= |cs|
    ensures range >= 0.0 ==> forall i :: 0 <= i < |r| ==> r[i].range >= 0.0 && WedgeInside(r[i].angle, r[i].range, angle, range)
    decreases j
  {
    if j == 0 then []
    else
      var init := Spread(nodes, visited, cs, j - 1, depth, angle, range);
      var c := cs[j - 1];
      if c in nodes && c !in visited then
        var w := Wedge(c, depth, ChildAngle(angle, range, |cs|, j - 1), range / |cs| as real);
        if range >= 0.0 then ChildWedgeInside(angle, range, |cs|, j - 1); init + [w] else init + [w]
      else init
  }

  /** One more child: a stored, unplaced child adds its wedge. */
  lemma SpreadSnoc(nodes: map<string, Node>, visited: set<string>, cs: seq<string>, j: nat, depth: nat, angle: real, range: real)
    requires j < |cs|
    ensures Spread(nodes, visited, cs, j + 1, depth, angle, range)
         == Spread(nodes, visited, cs, j, depth, angle, range)
          + (if cs[j] in nodes && cs[j] !in visited
             then [Wedge(cs[j], depth, ChildAngle(angle, range, |cs|, j), range / |cs| as real)] else [])
  {
  }

  /** Seen as walk entries, the radial walk enqueues what the breadth-first walk enqueues with nothing hidden. */
  lemma {:induction false} SpreadEntries(nodes: map<string, Node>, visited: set<string>, cs: seq<string>, j: nat, depth: nat, angle: real, range: real)
    requires j <= |cs|
    ensures Entries(Spread(nodes, visited, cs, j, depth, angle, range)) == Enqueued(nodes, {}, visited, cs[..j], depth)
    decreases j
  {
    if j == 0 {
      assert cs[..0] == [];
    } else {
      var init := Spread(nodes, visited, cs, j - 1, depth, angle, range);
      SpreadEntries(nodes, visited, cs, j - 1, depth, angle, range);
      assert cs[..j][..j - 1] == cs[..j - 1];
      var c := cs[j - 1];
      assert cs[..j][j - 1] == c;
      if c in nodes && c !in visited {
        var w := Wedge(c, depth, ChildAngle(angle, range, |cs|, j - 1), range / |cs| as real);
        assert Spread(nodes, visited, cs, j, depth, angle, range) == init + [w];
        assert Enqueued(nodes, {}, visited, cs[..j], depth) == Enqueued(nodes, {}, visited, cs[..j - 1], depth) + [Entry(c, depth)];
        EntriesAppend(init, [w]);
        assert Entries([w]) == [Entry(c, depth)];
      } else {
        assert Spread(nodes, visited, cs, j, depth, angle, range) == init;
      }
    }
  }

  /** The wedges `Spread` hands out go to the children at the indices `EnqueuedSlots` gives, in that order. */
  lemma {:induction false} SpreadAtSlots(nodes: map<string, Node>, visited: set<string>, cs: seq<string>, j: nat, depth: nat, angle: real, range: real)
    requires j <= |cs|
    ensures |Spread(nodes, visited, cs, j, depth, angle, range)| == |EnqueuedSlots(nodes, {}, visited, cs[..j])|
    ensures forall k :: 0 <= k < |EnqueuedSlots(nodes, {}, visited, cs[..j])| ==>
      var s := EnqueuedSlots(nodes, {}, visited, cs[..j])[k];
      s < |cs| && Spread(nodes, visited, cs, j, depth, angle, range)[k] == Wedge(cs[s], depth, ChildAngle(angle, range, |cs|, s), range / |cs| as real)
    decreases j
  {
    if j > 0 {
      SpreadAtSlots(nodes, visited, cs, j - 1, depth, angle, range);
      assert cs[..j][..j - 1] == cs[..j - 1];
      assert cs[..j][j - 1] == cs[j - 1];
      var init := Spread(nodes, visited, cs, j - 1, depth, angle, range);
      var sl := EnqueuedSlots(nodes, {}, visited, cs[..j - 1]);
      forall k | 0 <= k < |sl|
        ensures sl[k] < j - 1
      {
      }
      if cs[j - 1] in nodes && cs[j - 1] !in visited {
        assert EnqueuedSlots(nodes, {}, visited, cs[..j]) == sl + [j - 1];
        assert Spread(nodes, visited, cs, j, depth, angle, range)
            == init + [Wedge(cs[j - 1], depth, ChildAngle(angle, range, |cs|, j - 1), range / |cs| as real)];
      } else {
        assert EnqueuedSlots(nodes, {}, visited, cs[..j]) == sl;
      }
    }
  }

  /**
   * What the radial walk has drawn: the root at the origin, every other
   * placed node on ring `depthOf[v]` at `angleOf[v]`, every position it
   * did not touch as it was.
   */
  ghost predicate RadialPlaced(root: string, cos: real -> real, sin: real -> real, p0: map<string, Position>, p: map<string, Position>,
                               depthOf: map<string, nat>, angleOf: map<string, real>)
  {
    && angleOf.Keys == depthOf.Keys
    && (forall k :: k in p <==> k in p0 || k == root || k in depthOf)
    && root in p && p[root] == Position(0.0, 0.0)
    && (forall v :: v in depthOf && v != root ==> p[v] == Polar(cos, sin, depthOf[v], angleOf[v]))
    && (forall k :: k in p0 && k != root && k !in depthOf ==> p[k] == p0[k])
  }

  /** Every placed node has an angle and a wedge, and its wedge lies within that of the parent that placed it. */
  ghost predicate WedgesNested(depthOf: map<string, nat>, via: map<string, string>, angleOf: map<string, real>, rangeOf: map<string, real>)
  {
    && angleOf.Keys == depthOf.Keys && rangeOf.Keys == depthOf.Keys
    && (forall v :: v in rangeOf ==> rangeOf[v] >= 0.0)
    && (forall v {:trigger via[v]} :: v in via ==>
          v in angleOf && via[v] in angleOf && WedgeInside(angleOf[v], rangeOf[v], angleOf[via[v]], rangeOf[via[v]]))
  }

  /** Every wedge, placed or queued, lies within the wedge of the node that handed it out. */
  ghost predicate Wedged(queue: seq<Wedge>, parents: seq<string>, depthOf: map<string, nat>, via: map<string, string>,
                         angleOf: map<string, real>, rangeOf: map<string, real>)
  {
    && WedgesNested(depthOf, via, angleOf, rangeOf)
    && |parents| == |queue|
    && (forall i :: 0 <= i < |queue| ==> queue[i].range >= 0.0)
    && (forall i :: 0 <= i < |queue| && queue[i].depth > 0 ==>
          parents[i] in angleOf && WedgeInside(queue[i].angle, queue[i].range, angleOf[parents[i]], rangeOf[parents[i]]))
  }

  /**
   * The wedge `p` hands to its child number `s`: `p`'s wedge cut into one
   * equal part per listed child, and the middle of part `s`.
   */
  ghost predicate HandedOut(nodes: map<string, Node>, angleOf: map<string, real>, rangeOf: map<string, real>,
                            p: string, s: nat, angle: real, range: real)
  {
    && p in nodes && p in angleOf && p in rangeOf && s < |nodes[p].children|
    && angle == ChildAngle(angleOf[p], rangeOf[p], |nodes[p].children|, s)
    && range == rangeOf[p] / |nodes[p].children| as real
  }

  /** A queued wedge: the whole circle at the root's ring, otherwise what its parent handed out at its index. */
  ghost predicate QueuedWedge(nodes: map<string, Node>, angleOf: map<string, real>, rangeOf: map<string, real>,
                              w: Wedge, p: string, s: nat)
  {
    if w.depth == 0 then w.angle == 0.0 && w.range == 2.0 * Pi
    else HandedOut(nodes, angleOf, rangeOf, p, s, w.angle, w.range)
  }

  /** Every queued wedge is the part its parent handed out at the index it was listed at. */
  ghost predicate QueueWedges(nodes: map<string, Node>, queue: seq<Wedge>, parents: seq<string>, slots: seq<nat>,
                              angleOf: map<string, real>, rangeOf: map<string, real>)
  {
    && |parents| == |queue| && |slots| == |queue|
    && forall i :: 0 <= i < |queue| ==> QueuedWedge(nodes, angleOf, rangeOf, queue[i], parents[i], slots[i])
  }

  /**
   * Every placed wedge: the whole circle on the root's ring, otherwise the
   * part the node that placed it handed out at index `slotOf[v]`.
   */
  ghost predicate WedgesExact(nodes: map<string, Node>, depthOf: map<string, nat>, via: map<string, string>,
                              slotOf: map<string, nat>, angleOf: map<string, real>, rangeOf: map<string, real>)
  {
    && (forall v :: v in depthOf && depthOf[v] == 0 ==> v in angleOf && v in rangeOf && angleOf[v] == 0.0 && rangeOf[v] == 2.0 * Pi)
    && (forall v {:trigger via[v]} :: v in via ==>
          v in slotOf && v in angleOf && v in rangeOf && HandedOut(nodes, angleOf, rangeOf, via[v], slotOf[v], angleOf[v], rangeOf[v]))
  }

  /**
   * The wedges of a finished radial walk: the root has the whole circle at
   * angle 0, and every other placed node has the part that the node that
   * placed it hands out at the first index at which it lists the node.
   */
  ghost predicate WedgesDivided(nodes: map<string, Node>, root: string, via: map<string, string>,
                                angleOf: map<string, real>, rangeOf: map<string, real>)
  {
    && root in angleOf && root in rangeOf && angleOf[root] == 0.0 && rangeOf[root] == 2.0 * Pi
    && forall v {:trigger via[v]} :: v in via ==>
         && v in angleOf && v in rangeOf && via[v] in nodes && v in nodes[via[v]].children
         && HandedOut(nodes, angleOf, rangeOf, via[v], IndexOf(nodes[via[v]].children, v), angleOf[v], rangeOf[v])
  }

  /** The invariant of the radial walk loop: the breadth-first invariant with nothing collapsed or hidden, plus the drawing. */
  ghost predicate RadialInv(nodes: map<string, Node>, root: string, cos: real -> real, sin: real -> real,
                            p0: map<string, Position>, p: map<string, Position>,
                            queue: seq<Wedge>, parents: seq<string>, slots: seq<nat>, visited: set<string>,
                            groups: map<nat, seq<string>>, depthOf: map<string, nat>, via: map<string, string>,
                            slotOf: map<string, nat>, angleOf: map<string, real>, rangeOf: map<string, real>)
  {
    && WalkInv(nodes, root, {}, {}, Entries(queue), parents, visited, groups, depthOf, via)
    && OrderInv(nodes, {}, {}, Walk(Entries(queue), parents, slots, groups, depthOf, via, slotOf))
    && RadialPlaced(root, cos, sin, p0, p, depthOf, angleOf)
    && Wedged(queue, parents, depthOf, via, angleOf, rangeOf)
    && QueueWedges(nodes, queue, parents, slots, angleOf, rangeOf)
    && WedgesExact(nodes, depthOf, via, slotOf, angleOf, rangeOf)
  }

  /**
   * One placing turn of the radial walk: the head `e` is placed on its ring
   * (drawn unless it is the root), and its stored, unplaced children get
   * their parts of its wedge.
   */
  ghost predicate RadialStep(nodes: map<string, Node>, cos: real -> real, sin: real -> real,
                             queue: seq<Wedge>, parents: seq<string>, visited: set<string>,
                             groups: map<nat, seq<string>>, depthOf: map<string, nat>, via: map<string, string>,
                             angleOf: map<string, real>, rangeOf: map<string, real>, p: map<string, Position>,
                             added: seq<Wedge>, queue': seq<Wedge>, parents': seq<string>, visited': set<string>,
                             groups': map<nat, seq<string>>, depthOf': map<string, nat>, via': map<string, string>,
                             angleOf': map<string, real>, rangeOf': map<string, real>, p': map<string, Position>)
  {
    && queue != [] && |parents| == |queue| && queue[0].id in nodes
    && var e := queue[0];
    && visited' == visited + {e.id}
    && depthOf' == depthOf[e.id := e.depth]
    && via' == (if e.depth > 0 then via[e.id := parents[0]] else via)
    && groups' == groups[e.depth := (if e.depth in groups then groups[e.depth] else []) + [e.id]]
    && angleOf' == angleOf[e.id := e.angle]
    && rangeOf' == rangeOf[e.id := e.range]
    && p' == (if e.depth > 0 then p[e.id := Polar(cos, sin, e.depth, e.angle)] else p)
    && added == Spread(nodes, visited', nodes[e.id].children, |nodes[e.id].children|, e.depth + 1, e.angle, e.range)
    && queue' == queue[1..] + added
    && parents' == parents[1..] + Repeat(e.id, |added|)
  }

  /** The radial walk starts from the root at the origin, with the whole circle. */
  lemma RadialStart(nodes: map<string, Node>, root: string, cos: real -> real, sin: real -> real, p0: map<string, Position>)
    requires root in nodes
    ensures RadialInv(nodes, root, cos, sin, p0, p0[root := Position(0.0, 0.0)], [Wedge(root, 0, 0.0, 2.0 * Pi)], [""], [0], {},
                      map[], map[], map[], map[], map[], map[])
  {
    assert Entries([Wedge(root, 0, 0.0, 2.0 * Pi)]) == [Entry(root, 0)];
    WalkStart(nodes, root, {}, {});
    OrderStart(nodes, {}, {}, root);
  }

  /** A turn that skips a placed entry keeps the invariant. */
  lemma RadialSkip(nodes: map<string, Node>, root: string, cos: real -> real, sin: real -> real,
                   p0: map<string, Position>, p: map<string, Position>,
                   queue: seq<Wedge>, parents: seq<string>, slots: seq<nat>, visited: set<string>,
                   groups: map<nat, seq<string>>, depthOf: map<string, nat>, via: map<string, string>,
                   slotOf: map<string, nat>, angleOf: map<string, real>, rangeOf: map<string, real>)
    requires queue != [] && queue[0].id in visited
    requires RadialInv(nodes, root, cos, sin, p0, p, queue, parents, slots, visited, groups, depthOf, via, slotOf, angleOf, rangeOf)
    ensures RadialInv(nodes, root, cos, sin, p0, p, queue[1..], parents[1..], slots[1..], visited, groups, depthOf, via, slotOf, angleOf, rangeOf)
  {
    EntriesTail(queue);
    assert Entries(queue)[0].id == queue[0].id;
    WalkSkip(nodes, root, {}, {}, Entries(queue), parents, visited, groups, depthOf, via);
    OrderSkip(nodes, root, {}, {}, Walk(Entries(queue), parents, slots, groups, depthOf, via, slotOf), visited);
    forall i | 0 <= i < |queue| - 1
      ensures queue[1..][i] == queue[i + 1] && parents[1..][i] == parents[i + 1] && slots[1..][i] == slots[i + 1]
    {
    }
  }

  /** Seen as walk entries, a radial placing turn is a placing turn of the breadth-first walk with nothing hidden. */
  lemma RadialStepProjects(nodes: map<string, Node>, cos: real -> real, sin: real -> real,
                           queue: seq<Wedge>, parents: seq<string>, visited: set<string>,
                           groups: map<nat, seq<string>>, depthOf: map<string, nat>, via: map<string, string>,
                           angleOf: map<string, real>, rangeOf: map<string, real>, p: map<string, Position>,
                           added: seq<Wedge>, queue': seq<Wedge>, parents': seq<string>, visited': set<string>,
                           groups': map<nat, seq<string>>, depthOf': map<string, nat>, via': map<string, string>,
                           angleOf': map<string, real>, rangeOf': map<string, real>, p': map<string, Position>)
    requires RadialStep(nodes, cos, sin, queue, parents, visited, groups, depthOf, via, angleOf, rangeOf, p,
                        added, queue', parents', visited', groups', depthOf', via', angleOf', rangeOf', p')
    ensures PlaceStep(nodes, {}, {}, Entries(queue), parents, visited, groups, depthOf, via,
                      Entries(added), Entries(queue'), parents', visited', groups', depthOf', via')
  {
    var e := queue[0];
    var cs := nodes[e.id].children;
    SpreadEntries(nodes, visited', cs, |cs|, e.depth + 1, e.angle, e.range);
    assert cs[..|cs|] == cs;
    EntriesTail(queue);
    EntriesAppend(queue[1..], added);
    assert Entries(queue)[0] == Entry(e.id, e.depth);
  }

  /** A placing turn keeps the breadth-first part of the invariant. */
  lemma RadialPlaceWalk(nodes: map<string, Node>, root: string, cos: real -> real, sin: real -> real,
                        queue: seq<Wedge>, parents: seq<string>, visited: set<string>,
                        groups: map<nat, seq<string>>, depthOf: map<string, nat>, via: map<string, string>,
                        angleOf: map<string, real>, rangeOf: map<string, real>, p: map<string, Position>,
                        added: seq<Wedge>, queue': seq<Wedge>, parents': seq<string>, visited': set<string>,
                        groups': map<nat, seq<string>>, depthOf': map<string, nat>, via': map<string, string>,
                        angleOf': map<string, real>, rangeOf': map<string, real>, p': map<string, Position>)
    requires queue != [] && queue[0].id !in visited
    requires WalkInv(nodes, root, {}, {}, Entries(queue), parents, visited, groups, depthOf, via)
    requires RadialStep(nodes, cos, sin, queue, parents, visited, groups, depthOf, via, angleOf, rangeOf, p,
                        added, queue', parents', visited', groups', depthOf', via', angleOf', rangeOf', p')
    ensures WalkInv(nodes, root, {}, {}, Entries(queue'), parents', visited', groups', depthOf', via')
  {
    RadialStepProjects(nodes, cos, sin, queue, parents, visited, groups, depthOf, via, angleOf, rangeOf, p,
                       added, queue', parents', visited', groups', depthOf', via', angleOf', rangeOf', p');
    assert Entries(queue)[0].id == queue[0].id;
    WalkPlace(nodes, root, {}, {}, Entries(queue), parents, visited, groups, depthOf, via,
              Entries(added), Entries(queue'), parents', visited', groups', depthOf', via');
  }

  /** Placing `e` keeps the drawing: a node below the root lands on its ring, the root stays at the origin. */
  lemma RadialPlaceDrawn(root: string, cos: real -> real, sin: real -> real, p0: map<string, Position>, p: map<string, Position>,
                         depthOf: map<string, nat>, angleOf: map<string, real>, e: Wedge,
                         depthOf': map<string, nat>, angleOf': map<string, real>, p': map<string, Position>)
    requires RadialPlaced(root, cos, sin, p0, p, depthOf, angleOf)
    requires e.id !in depthOf && (e.depth > 0 ==> e.id != root) && (e.depth == 0 ==> e.id == root)
    requires depthOf' == depthOf[e.id := e.depth] && angleOf' == angleOf[e.id := e.angle]
    requires p' == (if e.depth > 0 then p[e.id := Polar(cos, sin, e.depth, e.angle)] else p)
    ensures RadialPlaced(root, cos, sin, p0, p', depthOf', angleOf')
  {
  }

  /** A placing turn keeps the invariant of the radial walk. */
  lemma RadialPlace(nodes: map<string, Node>, root: string, cos: real -> real, sin: real -> real,
                    p0: map<string, Position>, p: map<string, Position>,
                    queue: seq<Wedge>, parents: seq<string>, slots: seq<nat>, visited: set<string>,
                    groups: map<nat, seq<string>>, depthOf: map<string, nat>, via: map<string, string>,
                    slotOf: map<string, nat>, angleOf: map<string, real>, rangeOf: map<string, real>,
                    added: seq<Wedge>, queue': seq<Wedge>, parents': seq<string>, slots': seq<nat>, visited': set<string>,
                    groups': map<nat, seq<string>>, depthOf': map<string, nat>, via': map<string, string>,
                    slotOf': map<string, nat>, angleOf': map<string, real>, rangeOf': map<string, real>, p': map<string, Position>)
    requires queue != [] && queue[0].id !in visited
    requires RadialInv(nodes, root, cos, sin, p0, p, queue, parents, slots, visited, groups, depthOf, via, slotOf, angleOf, rangeOf)
    requires RadialStep(nodes, cos, sin, queue, parents, visited, groups, depthOf, via, angleOf, rangeOf, p,
                        added, queue', parents', visited', groups', depthOf', via', angleOf', rangeOf', p')
    requires SlotStep(nodes, {}, {}, Entries(queue), slots, slotOf, visited', slots', slotOf')
    ensures RadialInv(nodes, root, cos, sin, p0, p', queue', parents', slots', visited', groups', depthOf', via', slotOf', angleOf', rangeOf')
  {
    var e := queue[0];
    assert Entries(queue)[0] == Entry(e.id, e.depth);
    assert e.depth == 0 ==> e.id == root;
    assert e.depth > 0 ==> e.id != root;
    RadialPlaceWalk(nodes, root, cos, sin, queue, parents, visited, groups, depthOf, via, angleOf, rangeOf, p,
                    added, queue', parents', visited', groups', depthOf', via', angleOf', rangeOf', p');
    RadialPlaceDrawn(root, cos, sin, p0, p, depthOf, angleOf, e, depthOf', angleOf', p');
    RadialPlaceWedged(nodes, root, cos, sin, p0, p, queue, parents, visited, groups, depthOf, via, angleOf, rangeOf,
                      added, queue', parents', visited', groups', depthOf', via', angleOf', rangeOf', p');
    RadialPlaceOrder(nodes, root, cos, sin, queue, parents, slots, visited, groups, depthOf, via, slotOf, angleOf, rangeOf, p,
                     added, queue', parents', slots', visited', groups', depthOf', via', slotOf', angleOf', rangeOf', p');
    RadialPlaceQueued(nodes, queue, parents, slots, angleOf, rangeOf, visited', added, queue', parents', slots', angleOf', rangeOf');
    RadialPlaceExact(nodes, queue, parents, slots, depthOf, via, slotOf, angleOf, rangeOf, depthOf', via', slotOf', angleOf', rangeOf');
  }

  /** A placing turn of the radial walk keeps the ordering invariant. */
  lemma RadialPlaceOrder(nodes: map<string, Node>, root: string, cos: real -> real, sin: real -> real,
                         queue: seq<Wedge>, parents: seq<string>, slots: seq<nat>, visited: set<string>,
                         groups: map<nat, seq<string>>, depthOf: map<string, nat>, via: map<string, string>,
                         slotOf: map<string, nat>, angleOf: map<string, real>, rangeOf: map<string, real>, p: map<string, Position>,
                         added: seq<Wedge>, queue': seq<Wedge>, parents': seq<string>, slots': seq<nat>, visited': set<string>,
                         groups': map<nat, seq<string>>, depthOf': map<string, nat>, via': map<string, string>,
                         slotOf': map<string, nat>, angleOf': map<string, real>, rangeOf': map<string, real>, p': map<string, Position>)
    requires queue != [] && queue[0].id !in visited
    requires WalkInv(nodes, root, {}, {}, Entries(queue), parents, visited, groups, depthOf, via)
    requires OrderInv(nodes, {}, {}, Walk(Entries(queue), parents, slots, groups, depthOf, via, slotOf))
    requires RadialStep(nodes, cos, sin, queue, parents, visited, groups, depthOf, via, angleOf, rangeOf, p,
                        added, queue', parents', visited', groups', depthOf', via', angleOf', rangeOf', p')
    requires SlotStep(nodes, {}, {}, Entries(queue), slots, slotOf, visited', slots', slotOf')
    ensures OrderInv(nodes, {}, {}, Walk(Entries(queue'), parents', slots', groups', depthOf', via', slotOf'))
  {
    assert Entries(queue)[0].id == queue[0].id;
    RadialStepProjects(nodes, cos, sin, queue, parents, visited, groups, depthOf, via, angleOf, rangeOf, p,
                       added, queue', parents', visited', groups', depthOf', via', angleOf', rangeOf', p');
    OrderPlace(nodes, root, {}, {}, Walk(Entries(queue), parents, slots, groups, depthOf, via, slotOf), visited, Entries(added),
               Walk(Entries(queue'), parents', slots', groups', depthOf', via', slotOf'), visited');
  }

  /** A placing turn keeps every queued wedge the part its parent handed out. */
  lemma RadialPlaceQueued(nodes: map<string, Node>, queue: seq<Wedge>, parents: seq<string>, slots: seq<nat>,
                          angleOf: map<string, real>, rangeOf: map<string, real>, visited': set<string>,
                          added: seq<Wedge>, queue': seq<Wedge>, parents': seq<string>, slots': seq<nat>,
                          angleOf': map<string, real>, rangeOf': map<string, real>)
    requires queue != [] && queue[0].id in nodes && queue[0].id !in angleOf
    requires QueueWedges(nodes, queue, parents, slots, angleOf, rangeOf)
    requires angleOf' == angleOf[queue[0].id := queue[0].angle] && rangeOf' == rangeOf[queue[0].id := queue[0].range]
    requires var e := queue[0]; var cs := nodes[e.id].children;
      && added == Spread(nodes, visited', cs, |cs|, e.depth + 1, e.angle, e.range)
      && queue' == queue[1..] + added
      && parents' == parents[1..] + Repeat(e.id, |added|)
      && slots' == slots[1..] + EnqueuedSlots(nodes, {}, visited', cs)
    ensures QueueWedges(nodes, queue', parents', slots', angleOf', rangeOf')
  {
    var e := queue[0];
    var cs := nodes[e.id].children;
    var sl := EnqueuedSlots(nodes, {}, visited', cs);
    RadialKeptQueued(nodes, queue, parents, slots, angleOf, rangeOf, angleOf', rangeOf');
    RadialAddedQueued(nodes, e, visited', angleOf', rangeOf');
    var n := |queue| - 1;
    forall i | 0 <= i < |queue'|
      ensures QueuedWedge(nodes, angleOf', rangeOf', queue'[i], parents'[i], slots'[i])
    {
      if i < n {
        assert queue'[i] == queue[1..][i] && parents'[i] == parents[1..][i] && slots'[i] == slots[1..][i];
      } else {
        AppendIndex(queue[1..], added, i);
        AppendIndex(parents[1..], Repeat(e.id, |added|), i);
        AppendIndex(slots[1..], sl, i);
      }
    }
  }

  /** The entries a placing turn keeps still hold their parents' parts: placing a new node changes no placed wedge. */
  lemma RadialKeptQueued(nodes: map<string, Node>, queue: seq<Wedge>, parents: seq<string>, slots: seq<nat>,
                         angleOf: map<string, real>, rangeOf: map<string, real>,
                         angleOf': map<string, real>, rangeOf': map<string, real>)
    requires queue != [] && queue[0].id !in angleOf
    requires QueueWedges(nodes, queue, parents, slots, angleOf, rangeOf)
    requires angleOf' == angleOf[queue[0].id := queue[0].angle] && rangeOf' == rangeOf[queue[0].id := queue[0].range]
    ensures forall i :: 0 <= i < |queue| - 1 ==> QueuedWedge(nodes, angleOf', rangeOf', queue[1..][i], parents[1..][i], slots[1..][i])
  {
    forall i | 0 <= i < |queue| - 1
      ensures QueuedWedge(nodes, angleOf', rangeOf', queue[1..][i], parents[1..][i], slots[1..][i])
    {
      assert queue[1..][i] == queue[i + 1] && parents[1..][i] == parents[i + 1] && slots[1..][i] == slots[i + 1];
      assert QueuedWedge(nodes, angleOf, rangeOf, queue[i + 1], parents[i + 1], slots[i + 1]);
    }
  }

  /** The wedges a placing turn hands out are the parts of the placed node's wedge at its children's indices. */
  lemma RadialAddedQueued(nodes: map<string, Node>, e: Wedge, visited': set<string>,
                          angleOf': map<string, real>, rangeOf': map<string, real>)
    requires e.id in nodes && e.id in angleOf' && e.id in rangeOf' && angleOf'[e.id] == e.angle && rangeOf'[e.id] == e.range
    ensures var cs := nodes[e.id].children;
      var added, sl := Spread(nodes, visited', cs, |cs|, e.depth + 1, e.angle, e.range), EnqueuedSlots(nodes, {}, visited', cs);
      && |added| == |sl|
      && forall k :: 0 <= k < |added| ==> QueuedWedge(nodes, angleOf', rangeOf', added[k], e.id, sl[k])
  {
    var cs := nodes[e.id].children;
    SpreadAtSlots(nodes, visited', cs, |cs|, e.depth + 1, e.angle, e.range);
    assert cs[..|cs|] == cs;
  }

  /** A placing turn records the wedge the head was handed, which is the part its parent handed out. */
  lemma RadialPlaceExact(nodes: map<string, Node>, queue: seq<Wedge>, parents: seq<string>, slots: seq<nat>,
                         depthOf: map<string, nat>, via: map<string, string>, slotOf: map<string, nat>,
                         angleOf: map<string, real>, rangeOf: map<string, real>,
                         depthOf': map<string, nat>, via': map<string, string>, slotOf': map<string, nat>,
                         angleOf': map<string, real>, rangeOf': map<string, real>)
    requires queue != [] && queue[0].id !in depthOf && angleOf.Keys == depthOf.Keys && rangeOf.Keys == depthOf.Keys
    requires QueueWedges(nodes, queue, parents, slots, angleOf, rangeOf)
    requires WedgesExact(nodes, depthOf, via, slotOf, angleOf, rangeOf)
    requires var e := queue[0];
      && depthOf' == depthOf[e.id := e.depth]
      && via' == (if e.depth > 0 then via[e.id := parents[0]] else via)
      && slotOf' == (if e.depth > 0 then slotOf[e.id := slots[0]] else slotOf)
      && angleOf' == angleOf[e.id := e.angle] && rangeOf' == rangeOf[e.id := e.range]
    ensures WedgesExact(nodes, depthOf', via', slotOf', angleOf', rangeOf')
  {
    var e := queue[0];
    assert QueuedWedge(nodes, angleOf, rangeOf, e, parents[0], slots[0]);
    forall v | v in via'
      ensures v in slotOf' && v in angleOf' && v in rangeOf'
      ensures HandedOut(nodes, angleOf', rangeOf', via'[v], slotOf'[v], angleOf'[v], rangeOf'[v])
    {
      if v == e.id {
        assert e.depth > 0 && parents[0] in angleOf;
      } else {
        assert via'[v] == via[v] && via[v] in angleOf;
      }
    }
  }

  /** A placing turn keeps every wedge within its parent's. */
  lemma RadialPlaceWedged(nodes: map<string, Node>, root: string, cos: real -> real, sin: real -> real,
                          p0: map<string, Position>, p: map<string, Position>,
                          queue: seq<Wedge>, parents: seq<string>, visited: set<string>,
                          groups: map<nat, seq<string>>, depthOf: map<string, nat>, via: map<string, string>,
                          angleOf: map<string, real>, rangeOf: map<string, real>,
                          added: seq<Wedge>, queue': seq<Wedge>, parents': seq<string>, visited': set<string>,
                          groups': map<nat, seq<string>>, depthOf': map<string, nat>, via': map<string, string>,
                          angleOf': map<string, real>, rangeOf': map<string, real>, p': map<string, Position>)
    requires queue != [] && queue[0].id !in visited
    requires Wedged(queue, parents, depthOf, via, angleOf, rangeOf) && visited == depthOf.Keys
    requires RadialStep(nodes, cos, sin, queue, parents, visited, groups, depthOf, via, angleOf, rangeOf, p,
                        added, queue', parents', visited', groups', depthOf', via', angleOf', rangeOf', p')
    ensures Wedged(queue', parents', depthOf', via', angleOf', rangeOf')
  {
    var e := queue[0];
    assert e.range >= 0.0;
    forall v | v in via'
      ensures v in angleOf' && via'[v] in angleOf' && WedgeInside(angleOf'[v], rangeOf'[v], angleOf'[via'[v]], rangeOf'[via'[v]])
    {
      if v == e.id {
        assert parents[0] in angleOf && parents[0] != e.id;
      } else {
        assert via'[v] == via[v] && via[v] != e.id;
      }
    }
    forall i | 0 <= i < |queue'|
      ensures queue'[i].range >= 0.0
      ensures queue'[i].depth > 0 ==>
        parents'[i] in angleOf' && WedgeInside(queue'[i].angle, queue'[i].range, angleOf'[parents'[i]], rangeOf'[parents'[i]])
    {
      if i < |queue| - 1 {
        assert queue'[i] == queue[i + 1] && parents'[i] == parents[i + 1];
        assert queue[i + 1].depth > 0 ==> parents[i + 1] != e.id;
      } else {
        assert queue'[i] == added[i - (|queue| - 1)] && parents'[i] == e.id;
        assert added[i - (|queue| - 1)].range >= 0.0;
      }
    }
  }

  /** With the queue drained, the radial walk has placed the root and every stored child of a placed node. */
  lemma RadialDone(nodes: map<string, Node>, root: string, cos: real -> real, sin: real -> real,
                   p0: map<string, Position>, p: map<string, Position>, parents: seq<string>, slots: seq<nat>, visited: set<string>,
                   groups: map<nat, seq<string>>, depthOf: map<string, nat>, via: map<string, string>,
                   slotOf: map<string, nat>, angleOf: map<string, real>, rangeOf: map<string, real>)
    requires RadialInv(nodes, root, cos, sin, p0, p, [], parents, slots, visited, groups, depthOf, via, slotOf, angleOf, rangeOf)
    ensures Layered(nodes, root, {}, {}, groups, depthOf, via)
    ensures ClosedLayers(nodes, {}, {}, depthOf)
    ensures root in depthOf && depthOf[root] == 0
    ensures Shortest(nodes, {}, {}, depthOf) && BreadthFirstOrder(nodes, {}, groups, depthOf, via)
    ensures RadialPlaced(root, cos, sin, p0, p, depthOf, angleOf) && WedgesNested(depthOf, via, angleOf, rangeOf)
    ensures WedgesDivided(nodes, root, via, angleOf, rangeOf)
  {
    assert Entries([]) == [];
    var w := Walk([], parents, slots, groups, depthOf, via, slotOf);
    WalkDone(nodes, root, {}, {}, parents, visited, groups, depthOf, via);
    OrderDone(nodes, root, {}, {}, w, visited);
    forall v | v in via
      ensures via[v] in nodes && v in nodes[via[v]].children && IndexOf(nodes[via[v]].children, v) == slotOf[v]
    {
      assert FirstSlots(nodes, w);
      FirstIndex(nodes[via[v]].children, v, slotOf[v]);
    }
  }

  // ---------------------------------------------------------------------
  // The engine
  // ---------------------------------------------------------------------

  class MindMapLayoutEngine {
    const config: MindMapConfig
    var positions: map<string, Position>
    var collapsedNodes: set<string>
    var hiddenNodes: set<string>

    /** `new MindMapLayoutEngine(config, collapsedNodes)`: no collapsed set means none collapsed. */
    constructor(config: MindMapConfig, collapsed: Option<set<string>>)
      ensures this.config == config && collapsedNodes == collapsed.GetOr({})
      ensures positions == map[] && hiddenNodes == {}
    {
      this.config := config;
      collapsedNodes := collapsed.GetOr({});
      positions := map[];
      hiddenNodes := {};
    }

    /** `findDescendants`: marks every descendant of `nodeId` hidden. */
    method FindDescendants(tree: Tree, ghost rank: map<string, nat>, nodeId: string)
      requires ChildRanked(tree.nodes, rank) && (nodeId in tree.nodes ==> nodeId in rank)
      modifies this`hiddenNodes
      ensures hiddenNodes == old(hiddenNodes) + Descendants(tree.nodes, rank, nodeId)
      decreases if nodeId in rank then rank[nodeId] else 0
    {
      if nodeId !in tree.nodes {
        return;
      }
      var node := tree.nodes[nodeId];
      var j := 0;
      while j < |node.children|
        invariant 0 <= j <= |node.children|
        invariant hiddenNodes == old(hiddenNodes) + Below(tree.nodes, rank, nodeId, node.children[..j])
      {
        var childId := node.children[j];
        hiddenNodes := hiddenNodes + {childId};
        FindDescendants(tree, rank, childId);
        PrefixSnoc(node.children, j);
        j := j + 1;
      }
      PrefixFull(node.children);
    }

    /** `findHiddenNodes`: marks everything below a collapsed node hidden. */
    method FindHiddenNodes(tree: Tree, ghost rank: map<string, nat>)
      requires RankedBelow(tree.nodes, rank, collapsedNodes)
      modifies this`hiddenNodes
      ensures hiddenNodes == old(hiddenNodes) + HiddenUnder(tree.nodes, rank, collapsedNodes)
    {
      ghost var h0 := hiddenNodes;
      var rest := collapsedNodes;
      ghost var done := {};
      while rest != {}
        invariant done + rest == collapsedNodes
        invariant hiddenNodes == h0 + HiddenUnder(tree.nodes, rank, done)
        decreases rest
      {
        var c :| c in rest;
        ghost var h1 := hiddenNodes;
        FindDescendants(tree, rank, c);
        HiddenStep(tree.nodes, rank, h0, h1, hiddenNodes, done, c);
        done, rest := done + {c}, rest - {c};
      }
      assert done == collapsedNodes;
    }

    /** The inner loop of a turn: enqueue each child stored in the tree that is neither placed nor hidden. */
    method EnqueueChildren(tree: Tree, cs: seq<string>, depth: nat, visited: set<string>, queue: seq<Entry>)
      returns (r: seq<Entry>)
      ensures r == queue + Enqueued(tree.nodes, hiddenNodes, visited, cs, depth)
    {
      r := queue;
      var j := 0;
      while j < |cs|
        invariant 0 <= j <= |cs|
        invariant r == queue + Enqueued(tree.nodes, hiddenNodes, visited, cs[..j], depth)
      {
        var childId := cs[j];
        PrefixSnoc(cs, j);
        if childId in tree.nodes && childId !in visited && childId !in hiddenNodes {
          r := r + [Entry(childId, depth)];
        }
        j := j + 1;
      }
      PrefixFull(cs);
    }

    /** One turn of the walk in `calculateHierarchicalLayout`: take the head of the queue and place it. */
    method Visit(tree: Tree, queue: seq<Entry>, ghost parents: seq<string>, ghost slots: seq<nat>, visited: set<string>,
                 groups: map<nat, seq<string>>, ghost depthOf: map<string, nat>, ghost via: map<string, string>,
                 ghost slotOf: map<string, nat>)
      returns (queue': seq<Entry>, ghost parents': seq<string>, ghost slots': seq<nat>, visited': set<string>,
               groups': map<nat, seq<string>>, ghost depthOf': map<string, nat>, ghost via': map<string, string>,
               ghost slotOf': map<string, nat>)
      requires tree.root.Some? && queue != []
      requires WalkInv(tree.nodes, tree.root.value.id, collapsedNodes, hiddenNodes, queue, parents, visited, groups, depthOf, via)
      requires OrderInv(tree.nodes, collapsedNodes, hiddenNodes, Walk(queue, parents, slots, groups, depthOf, via, slotOf))
      ensures WalkInv(tree.nodes, tree.root.value.id, collapsedNodes, hiddenNodes, queue', parents', visited', groups', depthOf', via')
      ensures OrderInv(tree.nodes, collapsedNodes, hiddenNodes, Walk(queue', parents', slots', groups', depthOf', via', slotOf'))
      ensures || (visited' == visited && |queue'| < |queue|)
              || (queue[0].id in tree.nodes && queue[0].id !in visited && visited' == visited + {queue[0].id})
    {
      ghost var w := Walk(queue, parents, slots, groups, depthOf, via, slotOf);
      WalkVisitedInTree(tree.nodes, tree.root.value.id, collapsedNodes, hiddenNodes, queue, parents, visited, groups, depthOf, via);
      if queue[0].id in visited || queue[0].id in hiddenNodes {
        WalkSkip(tree.nodes, tree.root.value.id, collapsedNodes, hiddenNodes, queue, parents, visited, groups, depthOf, via);
        OrderSkip(tree.nodes, tree.root.value.id, collapsedNodes, hiddenNodes, w, visited);
        return queue[1..], parents[1..], slots[1..], visited, groups, depthOf, via, slotOf;
      }
      ghost var added;
      added, queue', parents', slots', visited', groups', depthOf', via', slotOf' :=
        Place(tree, queue, parents, slots, visited, groups, depthOf, via, slotOf);
      WalkPlace(tree.nodes, tree.root.value.id, collapsedNodes, hiddenNodes, queue, parents, visited, groups, depthOf, via,
                added, queue', parents', visited', groups', depthOf', via');
      OrderPlace(tree.nodes, tree.root.value.id, collapsedNodes, hiddenNodes, w, visited, added,
                 Walk(queue', parents', slots', groups', depthOf', via', slotOf'), visited');
    }

    /** A turn whose entry is new and visible: place it at its depth and enqueue its children unless it is collapsed. */
    method Place(tree: Tree, queue: seq<Entry>, ghost parents: seq<string>, ghost slots: seq<nat>, visited: set<string>,
                 groups: map<nat, seq<string>>, ghost depthOf: map<string, nat>, ghost via: map<string, string>,
                 ghost slotOf: map<string, nat>)
      returns (ghost added: seq<Entry>, queue': seq<Entry>, ghost parents': seq<string>, ghost slots': seq<nat>,
               visited': set<string>, groups': map<nat, seq<string>>, ghost depthOf': map<string, nat>,
               ghost via': map<string, string>, ghost slotOf': map<string, nat>)
      requires queue != [] && |parents| == |queue| && |slots| == |queue| && queue[0].id in tree.nodes
      ensures PlaceStep(tree.nodes, collapsedNodes, hiddenNodes, queue, parents, visited, groups, depthOf, via,
                        added, queue', parents', visited', groups', depthOf', via')
      ensures SlotStep(tree.nodes, collapsedNodes, hiddenNodes, queue, slots, slotOf, visited', slots', slotOf')
    {
      var e := queue[0];
      visited' := visited + {e.id};
      depthOf' := depthOf[e.id := e.depth];
      via' := if e.depth > 0 then via[e.id := parents[0]] else via;
      slotOf' := if e.depth > 0 then slotOf[e.id := slots[0]] else slotOf;
      var group := if e.depth in groups then groups[e.depth] else [];
      groups' := groups[e.depth := group + [e.id]];
      var node := tree.nodes[e.id];
      added := [];
      slots' := slots[1..];
      queue' := queue[1..];
      if e.id !in collapsedNodes {
        added := Enqueued(tree.nodes, hiddenNodes, visited', node.children, e.depth + 1);
        slots' := slots' + EnqueuedSlots(tree.nodes, hiddenNodes, visited', node.children);
        queue' := EnqueueChildren(tree, node.children, e.depth + 1, visited', queue');
      } else {
        assert queue' == queue[1..] + added;
        assert slots' == slots[1..] + [];
      }
      parents' := parents[1..] + Repeat(e.id, |added|);
    }

    /**
     * The walk loop of `calculateHierarchicalLayout`: the tiers of the
     * visible nodes reached from the root. Each node's tier is its
     * breadth-first depth, and each tier lists its nodes in breadth-first
     * order.
     */
    method BreadthFirstTiers(tree: Tree) returns (groups: map<nat, seq<string>>, ghost depthOf: map<string, nat>, ghost via: map<string, string>)
      requires Shaped(tree) && tree.root.Some?
      ensures Layered(tree.nodes, tree.root.value.id, collapsedNodes, hiddenNodes, groups, depthOf, via)
      ensures ClosedLayers(tree.nodes, collapsedNodes, hiddenNodes, depthOf)
      ensures tree.root.value.id !in hiddenNodes ==> tree.root.value.id in depthOf && depthOf[tree.root.value.id] == 0
      ensures Shortest(tree.nodes, collapsedNodes, hiddenNodes, depthOf)
      ensures BreadthFirstOrder(tree.nodes, collapsedNodes, groups, depthOf, via)
    {
      var queue := [Entry(tree.root.value.id, 0)];
      ghost var parents, slots, slotOf := [""], [0], map[];
      var visited := {};
      groups, depthOf, via := map[], map[], map[];
      WalkStart(tree.nodes, tree.root.value.id, collapsedNodes, hiddenNodes);
      OrderStart(tree.nodes, collapsedNodes, hiddenNodes, tree.root.value.id);
      while queue != []
        invariant WalkInv(tree.nodes, tree.root.value.id, collapsedNodes, hiddenNodes, queue, parents, visited, groups, depthOf, via)
        invariant OrderInv(tree.nodes, collapsedNodes, hiddenNodes, Walk(queue, parents, slots, groups, depthOf, via, slotOf))
        invariant visited <= tree.nodes.Keys
        decreases |tree.nodes.Keys - visited|, |queue|
      {
        ghost var (q0, v0) := (queue, visited);
        queue, parents, slots, visited, groups, depthOf, via, slotOf :=
          Visit(tree, queue, parents, slots, visited, groups, depthOf, via, slotOf);
        if visited != v0 {
          FewerUnvisited(tree.nodes.Keys, v0, q0[0].id);
        }
        WalkVisitedInTree(tree.nodes, tree.root.value.id, collapsedNodes, hiddenNodes, queue, parents, visited, groups, depthOf, via);
      }
      WalkDone(tree.nodes, tree.root.value.id, collapsedNodes, hiddenNodes, parents, visited, groups, depthOf, via);
      OrderDone(tree.nodes, tree.root.value.id, collapsedNodes, hiddenNodes, Walk(queue, parents, slots, groups, depthOf, via, slotOf), visited);
    }

    /** The inner loop of the placement: tier `d`, listed in `g`, each entry on its slot. */
    method PositionTier(d: nat, g: seq<string>)
      requires forall i, j :: 0 <= i < j < |g| ==> g[i] != g[j]
      modifies this`positions
      ensures TierWritten(old(positions), positions, config, d, g)
    {
      var index := 0;
      while index < |g|
        invariant 0 <= index <= |g|
        invariant forall k :: k in positions <==> k in old(positions) || k in g[..index]
        invariant forall i :: 0 <= i < index ==> g[i] in positions && positions[g[i]] == Slot(config, d, i, |g|)
        invariant forall k :: k in old(positions) && k !in g[..index] ==> positions[k] == old(positions)[k]
      {
        PrefixSnoc(g, index);
        positions := positions[g[index] := Slot(config, d, index, |g|)];
        index := index + 1;
      }
      PrefixFull(g);
    }

    /** The placement loop of `calculateHierarchicalLayout`: every tier onto its slots. */
    method PositionTiers(groups: map<nat, seq<string>>, ghost depthOf: map<string, nat>)
      requires Grouped(groups, depthOf)
      modifies this`positions
      ensures positions == old(positions) + TierPositions(config, groups, depthOf)
    {
      var rest := groups.Keys;
      ghost var done: set<nat> := {};
      while rest != {}
        invariant done + rest == groups.Keys && done !! rest
        invariant TiersWritten(old(positions), positions, config, groups, depthOf, done)
        decreases rest
      {
        var d :| d in rest;
        ghost var p1 := positions;
        PositionTier(d, groups[d]);
        TierStep(old(positions), p1, positions, config, groups, depthOf, done, d);
        done, rest := done + {d}, rest - {d};
      }
      PositionsAreTiers(old(positions), positions, config, groups, depthOf);
    }

    /** `calculateHierarchicalLayout` with the placement kept in walk order. */
    method CalculateHierarchicalLayout(tree: Tree) returns (ghost groups: map<nat, seq<string>>, ghost depthOf: map<string, nat>, ghost via: map<string, string>)
      requires Shaped(tree)
      modifies this`positions
      ensures tree.root.None? ==> positions == old(positions)
      ensures tree.root.Some? ==>
        && Layered(tree.nodes, tree.root.value.id, collapsedNodes, hiddenNodes, groups, depthOf, via)
        && ClosedLayers(tree.nodes, collapsedNodes, hiddenNodes, depthOf)
        && (tree.root.value.id !in hiddenNodes ==> tree.root.value.id in depthOf && depthOf[tree.root.value.id] == 0)
        && Shortest(tree.nodes, collapsedNodes, hiddenNodes, depthOf)
        && BreadthFirstOrder(tree.nodes, collapsedNodes, groups, depthOf, via)
        && positions == old(positions) + TierPositions(config, groups, depthOf)
    {
      if tree.root.None? {
        return map[], map[], map[];
      }
      ghost var collapsed, hidden := collapsedNodes, hiddenNodes;
      var g;
      g, depthOf, via := BreadthFirstTiers(tree);
      groups := g;
      PositionTiers(g, depthOf);
      assert collapsedNodes == collapsed && hiddenNodes == hidden;
    }

    /** The inner loop of a radial turn: hand each stored, unplaced child its part of the wedge. */
    method SpreadChildren(tree: Tree, cs: seq<string>, depth: nat, angle: real, range: real, visited: set<string>, queue: seq<Wedge>)
      returns (r: seq<Wedge>)
      ensures r == queue + Spread(tree.nodes, visited, cs, |cs|, depth, angle, range)
    {
      r := queue;
      var childCount := |cs|;
      if childCount == 0 {
        assert r == queue + [];
        return;
      }
      var childAngleRange := range / childCount as real;
      var startAngle := angle - range / 2.0;
      var index := 0;
      while index < childCount
        invariant 0 <= index <= childCount
        invariant r == queue + Spread(tree.nodes, visited, cs, index, depth, angle, range)
      {
        var childId := cs[index];
        SpreadSnoc(tree.nodes, visited, cs, index, depth, angle, range);
        if childId in tree.nodes && childId !in visited {
          var childAngle := startAngle + childAngleRange * (index as real + 0.5);
          assert childAngle == ChildAngle(angle, range, |cs|, index);
          r := r + [Wedge(childId, depth, childAngle, childAngleRange)];
        } else {
          assert r + [] == r;
        }
        index := index + 1;
      }
    }

    /** A radial turn whose entry is new: draw it on its ring unless it is the root, and spread its children. */
    method PlaceWedge(tree: Tree, cos: real -> real, sin: real -> real,
                      queue: seq<Wedge>, ghost parents: seq<string>, ghost slots: seq<nat>, visited: set<string>,
                      ghost groups: map<nat, seq<string>>, ghost depthOf: map<string, nat>, ghost via: map<string, string>,
                      ghost slotOf: map<string, nat>, ghost angleOf: map<string, real>, ghost rangeOf: map<string, real>)
      returns (ghost added: seq<Wedge>, queue': seq<Wedge>, ghost parents': seq<string>, ghost slots': seq<nat>, visited': set<string>,
               ghost groups': map<nat, seq<string>>, ghost depthOf': map<string, nat>, ghost via': map<string, string>,
               ghost slotOf': map<string, nat>, ghost angleOf': map<string, real>, ghost rangeOf': map<string, real>)
      requires queue != [] && |parents| == |queue| && |slots| == |queue| && queue[0].id in tree.nodes
      modifies this`positions
      ensures RadialStep(tree.nodes, cos, sin, queue, parents, visited, groups, depthOf, via, angleOf, rangeOf, old(positions),
                         added, queue', parents', visited', groups', depthOf', via', angleOf', rangeOf', positions)
      ensures SlotStep(tree.nodes, {}, {}, Entries(queue), slots, slotOf, visited', slots', slotOf')
    {
      var e := queue[0];
      assert Entries(queue)[0] == Entry(e.id, e.depth);
      visited' := visited + {e.id};
      depthOf' := depthOf[e.id := e.depth];
      via' := if e.depth > 0 then via[e.id := parents[0]] else via;
      slotOf' := if e.depth > 0 then slotOf[e.id := slots[0]] else slotOf;
      groups' := groups[e.depth := (if e.depth in groups then groups[e.depth] else []) + [e.id]];
      angleOf', rangeOf' := angleOf[e.id := e.angle], rangeOf[e.id := e.range];
      if e.depth > 0 {
        positions := positions[e.id := Polar(cos, sin, e.depth, e.angle)];
      }
      var node := tree.nodes[e.id];
      added := Spread(tree.nodes, visited', node.children, |node.children|, e.depth + 1, e.angle, e.range);
      queue' := SpreadChildren(tree, node.children, e.depth + 1, e.angle, e.range, visited', queue[1..]);
      parents' := parents[1..] + Repeat(e.id, |added|);
      slots' := slots[1..] + EnqueuedSlots(tree.nodes, {}, visited', node.children);
    }

    /** One turn of the walk in `calculateRadialLayout`: take the head of the queue and place it unless it is placed already. */
    method RadialVisit(tree: Tree, cos: real -> real, sin: real -> real, ghost p0: map<string, Position>,
                       queue: seq<Wedge>, ghost parents: seq<string>, ghost slots: seq<nat>, visited: set<string>,
                       ghost groups: map<nat, seq<string>>, ghost depthOf: map<string, nat>, ghost via: map<string, string>,
                       ghost slotOf: map<string, nat>, ghost angleOf: map<string, real>, ghost rangeOf: map<string, real>)
      returns (queue': seq<Wedge>, ghost parents': seq<string>, ghost slots': seq<nat>, visited': set<string>,
               ghost groups': map<nat, seq<string>>, ghost depthOf': map<string, nat>, ghost via': map<string, string>,
               ghost slotOf': map<string, nat>, ghost angleOf': map<string, real>, ghost rangeOf': map<string, real>)
      requires tree.root.Some? && queue != []
      requires RadialInv(tree.nodes, tree.root.value.id, cos, sin, p0, positions, queue, parents, slots, visited, groups, depthOf, via, slotOf, angleOf, rangeOf)
      modifies this`positions
      ensures RadialInv(tree.nodes, tree.root.value.id, cos, sin, p0, positions, queue', parents', slots', visited', groups', depthOf', via', slotOf', angleOf', rangeOf')
      ensures || (visited' == visited && |queue'| < |queue|)
              || (queue[0].id in tree.nodes && queue[0].id !in visited && visited' == visited + {queue[0].id})
    {
      WalkVisitedInTree(tree.nodes, tree.root.value.id, {}, {}, Entries(queue), parents, visited, groups, depthOf, via);
      assert Entries(queue)[0].id == queue[0].id;
      if queue[0].id in visited {
        RadialSkip(tree.nodes, tree.root.value.id, cos, sin, p0, positions, queue, parents, slots, visited, groups, depthOf, via, slotOf, angleOf, rangeOf);
        return queue[1..], parents[1..], slots[1..], visited, groups, depthOf, via, slotOf, angleOf, rangeOf;
      }
      ghost var p := positions;
      ghost var added;
      added, queue', parents', slots', visited', groups', depthOf', via', slotOf', angleOf', rangeOf' :=
        PlaceWedge(tree, cos, sin, queue, parents, slots, visited, groups, depthOf, via, slotOf, angleOf, rangeOf);
      RadialPlace(tree.nodes, tree.root.value.id, cos, sin, p0, p, queue, parents, slots, visited, groups, depthOf, via, slotOf, angleOf, rangeOf,
                  added, queue', parents', slots', visited', groups', depthOf', via', slotOf', angleOf', rangeOf', positions);
    }

    /**
     * `calculateRadialLayout`: the root at the origin with the whole circle,
     * and every node reached from it through stored children, at its
     * breadth-first depth, on ring `depth` in the middle of its part of the
     * wedge of the node that placed it. Collapse plays no part here.
     */
    method CalculateRadialLayout(tree: Tree, cos: real -> real, sin: real -> real)
      returns (ghost groups: map<nat, seq<string>>, ghost depthOf: map<string, nat>, ghost via: map<string, string>,
               ghost angleOf: map<string, real>, ghost rangeOf: map<string, real>)
      requires Shaped(tree)
      modifies this`positions
      ensures tree.root.None? ==> positions == old(positions)
      ensures tree.root.Some? ==>
        && Layered(tree.nodes, tree.root.value.id, {}, {}, groups, depthOf, via)
        && ClosedLayers(tree.nodes, {}, {}, depthOf)
        && tree.root.value.id in depthOf && depthOf[tree.root.value.id] == 0
        && Shortest(tree.nodes, {}, {}, depthOf)
        && BreadthFirstOrder(tree.nodes, {}, groups, depthOf, via)
        && RadialPlaced(tree.root.value.id, cos, sin, old(positions), positions, depthOf, angleOf)
        && WedgesNested(depthOf, via, angleOf, rangeOf)
        && WedgesDivided(tree.nodes, tree.root.value.id, via, angleOf, rangeOf)
    {
      if tree.root.None? {
        return map[], map[], map[], map[], map[];
      }
      var root := tree.root.value.id;
      var queue := [Wedge(root, 0, 0.0, 2.0 * Pi)];
      ghost var parents, slots, slotOf := [""], [0], map[];
      var visited := {};
      groups, depthOf, via, angleOf, rangeOf := map[], map[], map[], map[], map[];
      positions := positions[root := Position(0.0, 0.0)];
      RadialStart(tree.nodes, root, cos, sin, old(positions));
      while queue != []
        invariant RadialInv(tree.nodes, root, cos, sin, old(positions), positions, queue, parents, slots, visited, groups, depthOf, via, slotOf, angleOf, rangeOf)
        invariant visited <= tree.nodes.Keys
        decreases |tree.nodes.Keys - visited|, |queue|
      {
        ghost var (q0, v0) := (queue, visited);
        queue, parents, slots, visited, groups, depthOf, via, slotOf, angleOf, rangeOf :=
          RadialVisit(tree, cos, sin, old(positions), queue, parents, slots, visited, groups, depthOf, via, slotOf, angleOf, rangeOf);
        if visited != v0 {
          FewerUnvisited(tree.nodes.Keys, v0, q0[0].id);
        }
        WalkVisitedInTree(tree.nodes, root, {}, {}, Entries(queue), parents, visited, groups, depthOf, via);
      }
      RadialDone(tree.nodes, root, cos, sin, old(positions), positions, parents, slots, visited, groups, depthOf, via, slotOf, angleOf, rangeOf);
    }

    /**
     * The first half of `generateLayout` on a tree with a root: the positions
     * and the hidden set start afresh, everything below a collapsed node is
     * hidden, and the layout the configuration names places the nodes.
     */
    method Arrange(tree: Tree, ghost crank: map<string, nat>, cos: real -> real, sin: real -> real)
      returns (ghost groups: map<nat, seq<string>>, ghost depthOf: map<string, nat>, ghost via: map<string, string>,
               ghost angleOf: map<string, real>, ghost rangeOf: map<string, real>)
      requires Shaped(tree) && RankedBelow(tree.nodes, crank, collapsedNodes) && tree.root.Some?
      modifies this`positions, this`hiddenNodes
      ensures hiddenNodes == HiddenUnder(tree.nodes, crank, collapsedNodes)
      ensures config.layout == Radial ==>
        && Layered(tree.nodes, tree.root.value.id, {}, {}, groups, depthOf, via)
        && ClosedLayers(tree.nodes, {}, {}, depthOf)
        && Shortest(tree.nodes, {}, {}, depthOf)
        && BreadthFirstOrder(tree.nodes, {}, groups, depthOf, via)
        && RadialPlaced(tree.root.value.id, cos, sin, map[], positions, depthOf, angleOf)
        && WedgesDivided(tree.nodes, tree.root.value.id, via, angleOf, rangeOf)
      ensures config.layout != Radial ==>
        && Layered(tree.nodes, tree.root.value.id, collapsedNodes, hiddenNodes, groups, depthOf, via)
        && ClosedLayers(tree.nodes, collapsedNodes, hiddenNodes, depthOf)
        && Shortest(tree.nodes, collapsedNodes, hiddenNodes, depthOf)
        && BreadthFirstOrder(tree.nodes, collapsedNodes, groups, depthOf, via)
        && positions == TierPositions(config, groups, depthOf)
    {
      positions := map[];
      hiddenNodes := {};
      FindHiddenNodes(tree, crank);
      if config.layout == Radial {
        groups, depthOf, via, angleOf, rangeOf := PlaceRadially(tree, cos, sin);
      } else {
        groups, depthOf, via := PlaceInTiers(tree);
        angleOf, rangeOf := map[], map[];
      }
    }

    /** The radial layout from no positions at all. */
    method PlaceRadially(tree: Tree, cos: real -> real, sin: real -> real)
      returns (ghost groups: map<nat, seq<string>>, ghost depthOf: map<string, nat>, ghost via: map<string, string>,
               ghost angleOf: map<string, real>, ghost rangeOf: map<string, real>)
      requires Shaped(tree) && tree.root.Some? && positions == map[]
      modifies this`positions
      ensures Layered(tree.nodes, tree.root.value.id, {}, {}, groups, depthOf, via)
      ensures ClosedLayers(tree.nodes, {}, {}, depthOf)
      ensures Shortest(tree.nodes, {}, {}, depthOf)
      ensures BreadthFirstOrder(tree.nodes, {}, groups, depthOf, via)
      ensures RadialPlaced(tree.root.value.id, cos, sin, map[], positions, depthOf, angleOf)
      ensures WedgesDivided(tree.nodes, tree.root.value.id, via, angleOf, rangeOf)
    {
      groups, depthOf, via, angleOf, rangeOf := CalculateRadialLayout(tree, cos, sin);
    }

    /** The hierarchical layout from no positions at all. */
    method PlaceInTiers(tree: Tree)
      returns (ghost groups: map<nat, seq<string>>, ghost depthOf: map<string, nat>, ghost via: map<string, string>)
      requires Shaped(tree) && tree.root.Some? && positions == map[]
      modifies this`positions
      ensures Layered(tree.nodes, tree.root.value.id, collapsedNodes, hiddenNodes, groups, depthOf, via)
      ensures ClosedLayers(tree.nodes, collapsedNodes, hiddenNodes, depthOf)
      ensures Shortest(tree.nodes, collapsedNodes, hiddenNodes, depthOf)
      ensures BreadthFirstOrder(tree.nodes, collapsedNodes, groups, depthOf, via)
      ensures positions == TierPositions(config, groups, depthOf)
    {
      ghost var p0 := positions;
      groups, depthOf, via := CalculateHierarchicalLayout(tree);
      EmptyUnion(p0, TierPositions(config, groups, depthOf));
    }

    /**
     * `generateLayout`: with no root, nothing. Otherwise the nodes are
     * arranged, and the view nodes and edges are read off the tree.
     */
    method GenerateLayout(tree: Tree, ghost crank: map<string, nat>, ghost prank: map<string, nat>, cos: real -> real, sin: real -> real)
      returns (nodes: seq<MindMapNode>, edges: seq<MindMapEdge>,
               ghost groups: map<nat, seq<string>>, ghost depthOf: map<string, nat>, ghost via: map<string, string>,
               ghost angleOf: map<string, real>, ghost rangeOf: map<string, real>)
      requires Shaped(tree) && RankedBelow(tree.nodes, crank, collapsedNodes)
      requires VisibleRanked(tree.nodes, prank, HiddenUnder(tree.nodes, crank, collapsedNodes))
      modifies this`positions, this`hiddenNodes
      ensures tree.root.None? ==>
        nodes == [] && edges == [] && positions == old(positions) && hiddenNodes == old(hiddenNodes)
      ensures tree.root.Some? ==>
        && hiddenNodes == HiddenUnder(tree.nodes, crank, collapsedNodes)
        && ViewNodes(tree, prank, positions, collapsedNodes, hiddenNodes, nodes)
        && edges == Edges(tree, hiddenNodes)
      ensures tree.root.Some? && config.layout == Radial ==>
        && Layered(tree.nodes, tree.root.value.id, {}, {}, groups, depthOf, via)
        && ClosedLayers(tree.nodes, {}, {}, depthOf)
        && Shortest(tree.nodes, {}, {}, depthOf)
        && BreadthFirstOrder(tree.nodes, {}, groups, depthOf, via)
        && RadialPlaced(tree.root.value.id, cos, sin, map[], positions, depthOf, angleOf)
        && WedgesDivided(tree.nodes, tree.root.value.id, via, angleOf, rangeOf)
      ensures tree.root.Some? && config.layout != Radial ==>
        && Layered(tree.nodes, tree.root.value.id, collapsedNodes, hiddenNodes, groups, depthOf, via)
        && ClosedLayers(tree.nodes, collapsedNodes, hiddenNodes, depthOf)
        && Shortest(tree.nodes, collapsedNodes, hiddenNodes, depthOf)
        && BreadthFirstOrder(tree.nodes, collapsedNodes, groups, depthOf, via)
        && positions == TierPositions(config, groups, depthOf)
    {
      if tree.root.None? {
        return [], [], map[], map[], map[], map[], map[];
      }
      groups, depthOf, via, angleOf, rangeOf := Arrange(tree, crank, cos, sin);
      nodes := CreateNodes(tree, prank);
      edges := CreateEdges(tree);
    }

    /** `getNodeDepth`: follows truthy parent links, counting one hop per link, until a link names a node that is not stored. */
    method GetNodeDepth(tree: Tree, ghost rank: map<string, nat>, node: Node) returns (depth: nat)
      requires RankedFrom(tree.nodes, rank, node.parentId)
      ensures depth == Hops(tree.nodes, rank, node.parentId)
    {
      depth := 0;
      var current := node;
      while Truthy(current.parentId)
        invariant RankedFrom(tree.nodes, rank, current.parentId)
        invariant depth + Hops(tree.nodes, rank, current.parentId) == Hops(tree.nodes, rank, node.parentId)
        decreases if Truthy(current.parentId) && current.parentId.value in tree.nodes then rank[current.parentId.value] + 1 else 0
      {
        depth := depth + 1;
        var parentId := current.parentId.value;
        if parentId !in tree.nodes {
          break;
        }
        current := tree.nodes[parentId];
      }
    }

    /** `createNodes`: one view node per stored node that is not hidden, in key order. */
    method CreateNodes(tree: Tree, ghost rank: map<string, nat>) returns (r: seq<MindMapNode>)
      requires tree.Valid() && VisibleRanked(tree.nodes, rank, hiddenNodes)
      ensures ViewNodes(tree, rank, positions, collapsedNodes, hiddenNodes, r)
    {
      r := [];
      var visited: set<string> := {};
      ghost var vis: seq<string> := [];
      for i := 0 to |tree.keys|
        invariant forall x :: x in visited ==> x in tree.keys[..i]
        invariant vis == VisibleKeys(tree.keys[..i], hiddenNodes)
        invariant r == ViewsOf(tree.nodes, rank, positions, collapsedNodes, vis)
      {
        var id := tree.keys[i];
        PrefixSnoc(tree.keys, i);
        VisibleKeysSnoc(tree.keys, hiddenNodes, i);
        ghost var step := if id in hiddenNodes then [] else [id];
        assert id !in visited by {
          assert id !in tree.keys[..i];
        }
        if id !in visited && id !in hiddenNodes {
          visited := visited + {id};
          var node := tree.nodes[id];
          var position := PositionOf(positions, id);
          var isCollapsed := id in collapsedNodes;
          var depth := GetNodeDepth(tree, rank, node);
          var view := MindMapNode(id, position, node.title, node.description, node.status, node.priority, node.tags,
                                  !isCollapsed, depth, node.notionUrl, |node.children| > 0, isCollapsed);
          ViewsOfSnoc(tree.nodes, rank, positions, collapsedNodes, vis, id);
          r := r + [view];
        } else {
          assert vis + step == vis;
        }
        vis := vis + step;
      }
      PrefixFull(tree.keys);
    }

    /** The inner loop of `createEdges`: the edges of one visible node, each id emitted once. */
    method EmitChildEdges(tree: Tree, node: Node, r0: seq<MindMapEdge>, visited0: set<string>)
      returns (r: seq<MindMapEdge>, visited: set<string>)
      requires visited0 == IdsOf(r0)
      ensures r == Dedup(r0, ChildEdges(tree.nodes, hiddenNodes, node, node.children)) && visited == IdsOf(r)
    {
      r, visited := r0, visited0;
      var cs := node.children;
      var j := 0;
      while j < |cs|
        invariant 0 <= j <= |cs|
        invariant r == Dedup(r0, ChildEdges(tree.nodes, hiddenNodes, node, cs[..j])) && visited == IdsOf(r)
      {
        var childId := cs[j];
        ChildEdgesSnoc(tree.nodes, hiddenNodes, node, cs, j);
        ghost var before := ChildEdges(tree.nodes, hiddenNodes, node, cs[..j]);
        if childId !in hiddenNodes {
          var edgeId := node.id + "-" + childId;
          var e := MindMapEdge(edgeId, node.id, childId, EdgeColor(Lookup(tree.nodes, childId)));
          DedupSnoc(r0, before, e);
          if edgeId !in visited {
            visited := visited + {edgeId};
            IdsOfSnoc(r, e);
            r := r + [e];
          }
        } else {
          assert before + [] == before;
        }
        j := j + 1;
      }
      PrefixFull(cs);
    }

    /** `createEdges`: an edge from every visible node to every visible listed child, each id once. */
    method CreateEdges(tree: Tree) returns (r: seq<MindMapEdge>)
      requires tree.Valid()
      ensures r == Edges(tree, hiddenNodes)
    {
      r := [];
      var visited: set<string> := {};
      var i := 0;
      while i < |tree.keys|
        invariant 0 <= i <= |tree.keys|
        invariant r == Dedup([], Candidates(tree.nodes, hiddenNodes, tree.keys[..i])) && visited == IdsOf(r)
      {
        var node := tree.nodes[tree.keys[i]];
        EdgesStep(tree, hiddenNodes, i, r);
        if node.id !in hiddenNodes {
          r, visited := EmitChildEdges(tree, node, r, visited);
        }
        i := i + 1;
      }
      PrefixFull(tree.keys);
    }
  }

  /**
   * `createMindMapLayout`: a fresh engine, with nothing collapsed, on the
   * defaults overridden by the caller's fields. With nothing collapsed
   * nothing is hidden, so every stored node gets a view node and every
   * stored child link an edge.
   */
  method CreateMindMapLayout(tree: Tree, o: ConfigOverride, ghost prank: map<string, nat>,
                             cos: real -> real, sin: real -> real)
    returns (nodes: seq<MindMapNode>, edges: seq<MindMapEdge>, ghost positions: map<string, Position>,
             ghost groups: map<nat, seq<string>>, ghost depthOf: map<string, nat>, ghost via: map<string, string>,
             ghost angleOf: map<string, real>, ghost rangeOf: map<string, real>)
    requires Shaped(tree) && VisibleRanked(tree.nodes, prank, {})
    ensures tree.root.None? ==> nodes == [] && edges == []
    ensures tree.root.Some? ==>
      && ViewNodes(tree, prank, positions, {}, {}, nodes)
      && edges == Edges(tree, {})
      && Layered(tree.nodes, tree.root.value.id, {}, {}, groups, depthOf, via)
      && ClosedLayers(tree.nodes, {}, {}, depthOf)
      && Shortest(tree.nodes, {}, {}, depthOf)
      && BreadthFirstOrder(tree.nodes, {}, groups, depthOf, via)
    ensures tree.root.Some? && MergeConfig(o).layout != Radial ==> positions == TierPositions(MergeConfig(o), groups, depthOf)
    ensures tree.root.Some? && MergeConfig(o).layout == Radial ==>
      && RadialPlaced(tree.root.value.id, cos, sin, map[], positions, depthOf, angleOf)
      && WedgesDivided(tree.nodes, tree.root.value.id, via, angleOf, rangeOf)
  {
    var engine := new MindMapLayoutEngine(MergeConfig(o), None);
    nodes, edges, groups, depthOf, via, angleOf, rangeOf := engine.GenerateLayout(tree, map[], prank, cos, sin);
    positions := engine.positions;
    assert HiddenUnder(tree.nodes, map[], {}) == {};
  }
}
