/**
 * The impact/effort matrix of `Matrix_new`: which nodes of the problem tree
 * become tickets, the quadrant each ticket falls in, the four quadrant
 * lists, and where a ticket is drawn inside its quadrant's box.
 */
module MatrixTickets {
  import opened Wrappers
  import opened NotionTypes

  /** The four quadrants, split at 5 on each axis. */
  datatype Quadrant = HighImpactLowEffort | HighImpactHighEffort | LowImpactLowEffort | LowImpactHighEffort

  /** A `MatrixTicket`: the node, its quadrant, and its clamped effort (x) and impact (y). */
  datatype Ticket = Ticket(node: Node, quadrant: Quadrant, positionX: real, positionY: real)

  /** `Math.max(lo, Math.min(hi, v))`. */
  function ClampTo(lo: real, hi: real, v: real): (r: real)
    ensures lo <= hi ==> lo <= r <= hi
    ensures lo <= v <= hi ==> r == v
    ensures v <= lo ==> r == lo
    ensures lo <= hi <= v ==> r == hi
  {
    if v < hi then (if v < lo then lo else v)
    else (if hi < lo then lo else hi)
  }

  /** A score clamped to the 0-10 scale. */
  function Clamp(v: real): (r: real)
    ensures 0.0 <= r <= 10.0
    ensures 0.0 <= v <= 10.0 ==> r == v
    ensures v < 0.0 ==> r == 0.0
    ensures v > 10.0 ==> r == 10.0
  {
    ClampTo(0.0, 10.0, v)
  }

  /**
   * The quadrant of a clamped (impact, effort) pair: an axis is high only
   * when its score is strictly above 5, so a score of exactly 5 is low.
   */
  function Classify(impact: real, effort: real): (q: Quadrant)
    ensures q == HighImpactLowEffort <==> impact > 5.0 && effort <= 5.0
    ensures q == HighImpactHighEffort <==> impact > 5.0 && effort > 5.0
    ensures q == LowImpactLowEffort <==> impact <= 5.0 && effort <= 5.0
    ensures q == LowImpactHighEffort <==> impact <= 5.0 && effort > 5.0
  {
    var isHighImpact := impact > 5.0;
    var isHighEffort := effort > 5.0;
    if isHighImpact && !isHighEffort then HighImpactLowEffort
    else if isHighImpact && isHighEffort then HighImpactHighEffort
    else if !isHighImpact && !isHighEffort then LowImpactLowEffort
    else LowImpactHighEffort
  }

  /**
   * Clamping never moves a score across the split at 5: a ticket is on the
   * high-impact (high-effort) side exactly when its node's raw score is
   * above 5, however far outside the 0-10 scale that score lies.
   */
  lemma ClampKeepsSide(impact: real, effort: real)
    ensures Classify(Clamp(impact), Clamp(effort)) in {HighImpactLowEffort, HighImpactHighEffort} <==> impact > 5.0
    ensures Classify(Clamp(impact), Clamp(effort)) in {HighImpactHighEffort, LowImpactHighEffort} <==> effort > 5.0
  {
  }

  /** A node is a ticket when it has a parent and both scores. */
  predicate Eligible(n: Node)
  {
    n.parentId.Some? && n.impact.Some? && n.effort.Some?
  }

  /** The ticket of an eligible node: clamped scores, effort on x, impact on y. */
  function TicketOf(n: Node): (t: Ticket)
    requires Eligible(n)
    ensures t.node == n
    ensures 0.0 <= t.positionX <= 10.0 && 0.0 <= t.positionY <= 10.0
    ensures t.positionX == Clamp(n.effort.value) && t.positionY == Clamp(n.impact.value)
    ensures t.quadrant == Classify(t.positionY, t.positionX)
  {
    var impact := Clamp(n.impact.value);
    var effort := Clamp(n.effort.value);
    Ticket(n, Classify(impact, effort), effort, impact)
  }

  /** The tickets of the nodes stored under `keys`, in key order. */
  function TicketsOf(keys: seq<string>, nodes: map<string, Node>): seq<Ticket>
    requires forall k :: k in keys ==> k in nodes
  {
    if keys == [] then []
    else
      var init := TicketsOf(keys[..|keys| - 1], nodes);
      var n := nodes[keys[|keys| - 1]];
      if Eligible(n) then init + [TicketOf(n)] else init
  }

  /** A ticket is listed exactly for each stored eligible node, and every ticket is built from its node. */
  lemma {:induction false} TicketsOfMembers(keys: seq<string>, nodes: map<string, Node>)
    requires forall k :: k in keys ==> k in nodes
    ensures forall t :: t in TicketsOf(keys, nodes) ==> Eligible(t.node) && t == TicketOf(t.node)
    ensures forall k :: k in keys && Eligible(nodes[k]) ==> TicketOf(nodes[k]) in TicketsOf(keys, nodes)
    ensures forall t :: t in TicketsOf(keys, nodes) ==> exists k :: k in keys && nodes[k] == t.node
  {
    if keys != [] {
      var init := keys[..|keys| - 1];
      var last := keys[|keys| - 1];
      TicketsOfMembers(init, nodes);
      assert forall k :: k in keys ==> k in init || k == last;
    }
  }

  /** `matrixTickets`: with no tree, none; otherwise one ticket per eligible node, in key order. */
  method MatrixTicketsOf(problemTree: Option<Tree>) returns (tickets: seq<Ticket>)
    requires problemTree.Some? ==> problemTree.value.Valid()
    ensures problemTree.None? ==> tickets == []
    ensures problemTree.Some? ==> tickets == TicketsOf(problemTree.value.keys, problemTree.value.nodes)
  {
    tickets := [];
    if problemTree.None? {
      return;
    }
    var tree := problemTree.value;
    for i := 0 to |tree.keys|
      invariant tickets == TicketsOf(tree.keys[..i], tree.nodes)
    {
      assert tree.keys[..i + 1][..i] == tree.keys[..i];
      var node := tree.nodes[tree.keys[i]];
      if Eligible(node) {
        var impact := Clamp(node.impact.value);
        var effort := Clamp(node.effort.value);
        tickets := tickets + [Ticket(node, Classify(impact, effort), effort, impact)];
      }
    }
    assert tree.keys[..|tree.keys|] == tree.keys;
  }

  /** `getTicketsByQuadrant`: the tickets of one quadrant, in order. */
  function TicketsIn(tickets: seq<Ticket>, q: Quadrant): (r: seq<Ticket>)
    ensures forall t :: t in r <==> t in tickets && t.quadrant == q
    ensures |r| <= |tickets|
  {
    if tickets == [] then []
    else
      var rest := TicketsIn(tickets[1..], q);
      if tickets[0].quadrant == q then [tickets[0]] + rest else rest
  }

  /** The four quadrant lists share the tickets out: their lengths add up to the whole list. */
  lemma {:induction false} QuadrantsPartition(tickets: seq<Ticket>)
    ensures |TicketsIn(tickets, HighImpactLowEffort)| + |TicketsIn(tickets, HighImpactHighEffort)|
          + |TicketsIn(tickets, LowImpactLowEffort)| + |TicketsIn(tickets, LowImpactHighEffort)| == |tickets|
  {
    if tickets != [] {
      QuadrantsPartition(tickets[1..]);
    }
  }

  // ---------------------------------------------------------------------
  // Drawing position inside a quadrant box (`renderQuadrantTickets`)
  // ---------------------------------------------------------------------

  /**
   * How far a ticket's scores sit from the midpoint towards the box's
   * outer edges, as fractions: effort along x, impact along y.
   */
  function Fractions(t: Ticket): (f: (real, real))
  {
    match t.quadrant
    case HighImpactLowEffort => ((5.0 - t.positionX) / 5.0, (t.positionY - 5.0) / 5.0)
    case HighImpactHighEffort => ((t.positionX - 5.0) / 5.0, (t.positionY - 5.0) / 5.0)
    case LowImpactLowEffort => ((5.0 - t.positionX) / 5.0, (5.0 - t.positionY) / 5.0)
    case LowImpactHighEffort => ((t.positionX - 5.0) / 5.0, (5.0 - t.positionY) / 5.0)
  }

  /** For a ticket whose quadrant matches its scores, both fractions lie in [0, 1]. */
  lemma FractionsInUnit(t: Ticket)
    requires 0.0 <= t.positionX <= 10.0 && 0.0 <= t.positionY <= 10.0
    requires t.quadrant == Classify(t.positionY, t.positionX)
    ensures 0.0 <= Fractions(t).0 <= 1.0 && 0.0 <= Fractions(t).1 <= 1.0
  {
  }

  /**
   * The position from the scores alone: the effort fraction spans the box's
   * usable width from the left margin; the impact fraction spans its usable
   * height, measured up from the bottom for a high-impact quadrant (web y
   * grows downwards) and down from the top margin for a low-impact one.
   */
  function BasePosition(t: Ticket, maxWidth: real, maxHeight: real): (p: (real, real))
    ensures p.0 == Fractions(t).0 * (maxWidth - 180.0) + 10.0
    ensures t.quadrant in {HighImpactLowEffort, HighImpactHighEffort} ==>
      p.1 == (maxHeight - 100.0) - Fractions(t).1 * (maxHeight - 100.0)
    ensures t.quadrant in {LowImpactLowEffort, LowImpactHighEffort} ==>
      p.1 == Fractions(t).1 * (maxHeight - 100.0) + 10.0
  {
    match t.quadrant
    case HighImpactLowEffort =>
      var up := ((t.positionY - 5.0) / 5.0) * (maxHeight - 100.0) + 10.0;
      (((5.0 - t.positionX) / 5.0) * (maxWidth - 180.0) + 10.0, (maxHeight - 100.0) - up + 10.0)
    case HighImpactHighEffort =>
      var up := ((t.positionY - 5.0) / 5.0) * (maxHeight - 100.0) + 10.0;
      (((t.positionX - 5.0) / 5.0) * (maxWidth - 180.0) + 10.0, (maxHeight - 100.0) - up + 10.0)
    case LowImpactLowEffort =>
      (((5.0 - t.positionX) / 5.0) * (maxWidth - 180.0) + 10.0, ((5.0 - t.positionY) / 5.0) * (maxHeight - 100.0) + 10.0)
    case LowImpactHighEffort =>
      (((t.positionX - 5.0) / 5.0) * (maxWidth - 180.0) + 10.0, ((5.0 - t.positionY) / 5.0) * (maxHeight - 100.0) + 10.0)
  }

  /**
   * In a box at least 180 wide and 100 high, a ticket built from its node
   * lands inside the box before the overlap offset: x in
   * [10, maxWidth - 170] and y in [0, maxHeight - 90].
   */
  lemma {:induction false} BasePositionInBox(t: Ticket, maxWidth: real, maxHeight: real)
    requires 0.0 <= t.positionX <= 10.0 && 0.0 <= t.positionY <= 10.0
    requires t.quadrant == Classify(t.positionY, t.positionX)
    requires maxWidth >= 180.0 && maxHeight >= 100.0
    ensures 10.0 <= BasePosition(t, maxWidth, maxHeight).0 <= maxWidth - 170.0
    ensures 0.0 <= BasePosition(t, maxWidth, maxHeight).1 <= maxHeight - 90.0
  {
    var f := Fractions(t);
    var p := BasePosition(t, maxWidth, maxHeight);
    var w := maxWidth - 180.0;
    var h := maxHeight - 100.0;
    FractionsInUnit(t);
    assert 0.0 <= f.0 <= 1.0;
    UnitScale(f.0, w);
    assert 0.0 <= f.0 * w <= w;
    assert p.0 == f.0 * w + 10.0;
    assert 10.0 <= p.0;
    assert p.0 <= w + 10.0;
    UnitScale(f.1, h);
    assert 0.0 <= f.1 * h <= h;
    if t.quadrant in {HighImpactLowEffort, HighImpactHighEffort} {
      assert p.1 == h - f.1 * h;
      assert 0.0 <= p.1 <= h;
    } else {
      assert p.1 == f.1 * h + 10.0;
      assert 10.0 <= p.1 <= h + 10.0;
    }
  }

  /** A fraction of a non-negative length is at most that length. */
  lemma UnitScale(f: real, w: real)
    requires 0.0 <= f <= 1.0 && w >= 0.0
    ensures 0.0 <= f * w <= w && 0.0 <= w * f <= w
  {
    assert w - f * w == (1.0 - f) * w;
  }

  /** The offset that fans out tickets in rows of three, 15 apart. */
  function Offset(index: nat): (o: (real, real))
    ensures o.0 in {0.0, 15.0, 30.0} && o.1 >= 0.0
  {
    (((index % 3) * 15) as real, ((index / 3) * 15) as real)
  }

  /** Different indices get different offsets, so two tickets with equal scores are drawn apart. */
  lemma {:induction false} OffsetsDistinct(i: nat, j: nat)
    requires i != j
    ensures Offset(i) != Offset(j)
  {
    assert i == 3 * (i / 3) + i % 3 && j == 3 * (j / 3) + j % 3;
    if i % 3 == j % 3 {
      assert (i / 3) * 15 != (j / 3) * 15;
    } else {
      assert (i % 3) * 15 != (j % 3) * 15;
    }
  }

  /**
   * The drawn position of the `index`-th ticket of a box: the base position
   * plus the offset, clamped to [10, maxWidth - 180] by [10, maxHeight - 80].
   */
  function TicketPosition(t: Ticket, index: nat, maxWidth: real, maxHeight: real): (p: (real, real))
    ensures 10.0 <= maxWidth - 180.0 ==> 10.0 <= p.0 <= maxWidth - 180.0
    ensures 10.0 <= maxHeight - 80.0 ==> 10.0 <= p.1 <= maxHeight - 80.0
    ensures maxWidth - 180.0 < 10.0 ==> p.0 == 10.0
    ensures maxHeight - 80.0 < 10.0 ==> p.1 == 10.0
  {
    var base := BasePosition(t, maxWidth, maxHeight);
    var off := Offset(index);
    (ClampTo(10.0, maxWidth - 180.0, base.0 + off.0), ClampTo(10.0, maxHeight - 80.0, base.1 + off.1))
  }

  /** Unclamped, the drawn position is the base position plus the offset. */
  lemma OffsetApplied(t: Ticket, index: nat, maxWidth: real, maxHeight: real)
    requires 10.0 <= BasePosition(t, maxWidth, maxHeight).0 + Offset(index).0 <= maxWidth - 180.0
    requires 10.0 <= BasePosition(t, maxWidth, maxHeight).1 + Offset(index).1 <= maxHeight - 80.0
    ensures TicketPosition(t, index, maxWidth, maxHeight).0 == BasePosition(t, maxWidth, maxHeight).0 + Offset(index).0
    ensures TicketPosition(t, index, maxWidth, maxHeight).1 == BasePosition(t, maxWidth, maxHeight).1 + Offset(index).1
  {
  }

  /** The offset of ticket `index` pushes it past no edge of the box, so neither coordinate is clamped. */
  predicate Unclamped(t: Ticket, index: nat, maxWidth: real, maxHeight: real)
  {
    var base, off := BasePosition(t, maxWidth, maxHeight), Offset(index);
    && 10.0 <= base.0 + off.0 <= maxWidth - 180.0
    && 10.0 <= base.1 + off.1 <= maxHeight - 80.0
  }

  /** Tickets `i` and `j` of a box start from the same spot and neither is clamped. */
  predicate SameSpotUnclamped(tickets: seq<Ticket>, i: nat, j: nat, maxWidth: real, maxHeight: real)
    requires i < |tickets| && j < |tickets|
  {
    && BasePosition(tickets[i], maxWidth, maxHeight) == BasePosition(tickets[j], maxWidth, maxHeight)
    && Unclamped(tickets[i], i, maxWidth, maxHeight) && Unclamped(tickets[j], j, maxWidth, maxHeight)
  }

  /** Two tickets of a box whose scores put them on the same spot are drawn apart unless a clamp pulls them together. */
  lemma TicketsDrawnApart(tickets: seq<Ticket>, maxWidth: real, maxHeight: real)
    ensures forall i, j :: 0 <= i < j < |tickets| && SameSpotUnclamped(tickets, i, j, maxWidth, maxHeight) ==>
      TicketPosition(tickets[i], i, maxWidth, maxHeight) != TicketPosition(tickets[j], j, maxWidth, maxHeight)
  {
    forall i, j | 0 <= i < j < |tickets| && SameSpotUnclamped(tickets, i, j, maxWidth, maxHeight)
      ensures TicketPosition(tickets[i], i, maxWidth, maxHeight) != TicketPosition(tickets[j], j, maxWidth, maxHeight)
    {
      OffsetsDistinct(i, j);
      OffsetApplied(tickets[i], i, maxWidth, maxHeight);
      OffsetApplied(tickets[j], j, maxWidth, maxHeight);
    }
  }

  /**
   * `renderQuadrantTickets`: one drawn position per ticket of a box. Every
   * position lies in [10, maxWidth - 180] by [10, maxHeight - 80] when those
   * ranges are not empty (at 10 on an axis whose range is empty), and two
   * tickets with the same scores are drawn apart unless clamped.
   */
  function RenderQuadrantTickets(tickets: seq<Ticket>, maxWidth: real, maxHeight: real): (r: seq<(real, real)>)
    ensures |r| == |tickets|
    ensures forall i :: 0 <= i < |r| ==> r[i] == TicketPosition(tickets[i], i, maxWidth, maxHeight)
    ensures 10.0 <= maxWidth - 180.0 ==> forall i :: 0 <= i < |r| ==> 10.0 <= r[i].0 <= maxWidth - 180.0
    ensures 10.0 <= maxHeight - 80.0 ==> forall i :: 0 <= i < |r| ==> 10.0 <= r[i].1 <= maxHeight - 80.0
    ensures maxWidth - 180.0 < 10.0 ==> forall i :: 0 <= i < |r| ==> r[i].0 == 10.0
    ensures maxHeight - 80.0 < 10.0 ==> forall i :: 0 <= i < |r| ==> r[i].1 == 10.0
    ensures forall i, j :: 0 <= i < j < |r| && SameSpotUnclamped(tickets, i, j, maxWidth, maxHeight) ==> r[i] != r[j]
  {
    TicketsDrawnApart(tickets, maxWidth, maxHeight);
    seq(|tickets|, i requires 0 <= i < |tickets| => TicketPosition(tickets[i], i, maxWidth, maxHeight))
  }
}
