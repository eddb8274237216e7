/**
 * The matrix page (`pages/Matrix`): which nodes of the problem tree can be
 * plotted and which are listed as unmappable, where a plotted node sits on
 * the canvas (in percent), the colour of its quadrant, and the short label
 * each node is shown with.
 */
module MatrixPage {
  import opened Wrappers
  import opened Strings
  import opened NotionTypes
  import MatrixTickets

  /** A node can be plotted when it has both scores. */
  predicate HasScores(n: Node)
  {
    n.impact.Some? && n.effort.Some?
  }

  /** The node as plotted: both scores clamped to [0, 10], every other field kept. */
  function ClampScores(n: Node): (r: Node)
    requires HasScores(n)
    ensures r.impact.Some? && 0.0 <= r.impact.value <= 10.0
    ensures r.effort.Some? && 0.0 <= r.effort.value <= 10.0
    ensures r.(impact := n.impact, effort := n.effort) == n
    ensures 0.0 <= n.impact.value <= 10.0 && 0.0 <= n.effort.value <= 10.0 ==> r == n
  {
    n.(impact := Some(MatrixTickets.Clamp(n.impact.value)), effort := Some(MatrixTickets.Clamp(n.effort.value)))
  }

  /** The plotted nodes among those stored under `keys`, in key order. */
  function MappableOf(keys: seq<string>, nodes: map<string, Node>): seq<Node>
    requires forall k :: k in keys ==> k in nodes
  {
    if keys == [] then []
    else
      var init := MappableOf(keys[..|keys| - 1], nodes);
      var n := nodes[keys[|keys| - 1]];
      if n.parentId.Some? && HasScores(n) then init + [ClampScores(n)] else init
  }

  /** The unmappable nodes among those stored under `keys`, in key order. */
  function UnmappableOf(keys: seq<string>, nodes: map<string, Node>): seq<Node>
    requires forall k :: k in keys ==> k in nodes
  {
    if keys == [] then []
    else
      var init := UnmappableOf(keys[..|keys| - 1], nodes);
      var n := nodes[keys[|keys| - 1]];
      if n.parentId.Some? && !HasScores(n) then init + [n] else init
  }

  /**
   * The two lists split the stored nodes that have a parent: together with
   * the parentless keys they account for every key exactly once.
   */
  lemma {:induction false} PartitionCount(keys: seq<string>, nodes: map<string, Node>)
    requires forall k :: k in keys ==> k in nodes
    ensures |MappableOf(keys, nodes)| + |UnmappableOf(keys, nodes)| + |Rooted(keys, nodes)| == |keys|
  {
    if keys != [] {
      PartitionCount(keys[..|keys| - 1], nodes);
    }
  }

  /** A node with a parent and both scores is plotted (clamped); one with a parent and a score missing is unmappable. */
  lemma {:induction false} PartitionComplete(keys: seq<string>, nodes: map<string, Node>)
    requires forall k :: k in keys ==> k in nodes
    ensures forall k :: k in keys && nodes[k].parentId.Some? && HasScores(nodes[k]) ==>
      ClampScores(nodes[k]) in MappableOf(keys, nodes)
    ensures forall k :: k in keys && nodes[k].parentId.Some? && !HasScores(nodes[k]) ==>
      nodes[k] in UnmappableOf(keys, nodes)
  {
    if keys != [] {
      var init := keys[..|keys| - 1];
      PartitionComplete(init, nodes);
      assert forall k :: k in keys ==> k in init || k == keys[|keys| - 1];
    }
  }

  /** Every plotted node is a clamped stored node with a parent and both scores; every unmappable one has a parent and lacks a score. */
  lemma {:induction false} PartitionSound(keys: seq<string>, nodes: map<string, Node>)
    requires forall k :: k in keys ==> k in nodes
    ensures forall n :: n in MappableOf(keys, nodes) ==>
      exists k :: k in keys && nodes[k].parentId.Some? && HasScores(nodes[k]) && n == ClampScores(nodes[k])
    ensures forall n :: n in UnmappableOf(keys, nodes) ==>
      exists k :: k in keys && nodes[k] == n && n.parentId.Some? && !HasScores(n)
  {
    if keys != [] {
      var init := keys[..|keys| - 1];
      PartitionSound(init, nodes);
      assert forall k :: k in init ==> k in keys;
    }
  }

  /** The keys of the stored nodes without a parent, which neither list shows. */
  function Rooted(keys: seq<string>, nodes: map<string, Node>): (r: seq<string>)
    requires forall k :: k in keys ==> k in nodes
    ensures forall k :: k in r <==> k in keys && nodes[k].parentId.None?
  {
    if keys == [] then []
    else
      var init := Rooted(keys[..|keys| - 1], nodes);
      var k := keys[|keys| - 1];
      assert forall x :: x in keys ==> x in keys[..|keys| - 1] || x == k;
      if nodes[k].parentId.None? then init + [k] else init
  }

  /**
   * `matrixNodes` and `unmappableNodes`: with no tree, both empty;
   * otherwise the stored nodes, in key order, split as above.
   */
  method Partition(problemTree: Option<Tree>) returns (matrixNodes: seq<Node>, unmappableNodes: seq<Node>)
    requires problemTree.Some? ==> problemTree.value.Valid()
    ensures problemTree.None? ==> matrixNodes == [] && unmappableNodes == []
    ensures problemTree.Some? ==>
      && matrixNodes == MappableOf(problemTree.value.keys, problemTree.value.nodes)
      && unmappableNodes == UnmappableOf(problemTree.value.keys, problemTree.value.nodes)
  {
    matrixNodes, unmappableNodes := [], [];
    if problemTree.None? {
      return;
    }
    var tree := problemTree.value;
    for i := 0 to |tree.keys|
      invariant matrixNodes == MappableOf(tree.keys[..i], tree.nodes)
      invariant unmappableNodes == UnmappableOf(tree.keys[..i], tree.nodes)
    {
      assert tree.keys[..i + 1][..i] == tree.keys[..i];
      var node := tree.nodes[tree.keys[i]];
      if node.parentId.Some? {
        if node.impact.Some? && node.effort.Some? {
          matrixNodes := matrixNodes + [ClampScores(node)];
        } else {
          unmappableNodes := unmappableNodes + [node];
        }
      }
    }
    assert tree.keys[..|tree.keys|] == tree.keys;
  }

  /** `getNodePosition`: effort across, impact up, both in percent of the canvas. */
  function NodePosition(impact: real, effort: real): (p: (real, real))
    ensures 0.0 <= effort <= 10.0 ==> 0.0 <= p.0 <= 100.0
    ensures 0.0 <= impact <= 10.0 ==> 0.0 <= p.1 <= 100.0
  {
    ((effort / 10.0) * 100.0, ((10.0 - impact) / 10.0) * 100.0)
  }

  /** More effort is further right; more impact is higher up (a smaller y). */
  lemma NodePositionMonotone(i1: real, e1: real, i2: real, e2: real)
    ensures e1 < e2 ==> NodePosition(i1, e1).0 < NodePosition(i2, e2).0
    ensures i1 < i2 ==> NodePosition(i1, e1).1 > NodePosition(i2, e2).1
  {
  }

  /** The default grey of a data point, drawn when no quadrant test matches. */
  const DefaultGrey := "#6b7280"

  /** The colour of a plotted node's quadrant, by strict `> 5` tests on each axis. */
  function QuadrantColor(impact: real, effort: real): (c: string)
    ensures c != DefaultGrey
    ensures c == "#10b981" <==> impact > 5.0 && effort <= 5.0
    ensures c == "#f59e0b" <==> impact > 5.0 && effort > 5.0
    ensures c == "#3b82f6" <==> impact <= 5.0 && effort <= 5.0
    ensures c == "#ef4444" <==> impact <= 5.0 && effort > 5.0
  {
    var isHighImpact := impact > 5.0;
    var isHighEffort := effort > 5.0;
    if isHighImpact && !isHighEffort then "#10b981"
    else if isHighImpact && isHighEffort then "#f59e0b"
    else if !isHighImpact && !isHighEffort then "#3b82f6"
    else if !isHighImpact && isHighEffort then "#ef4444"
    else DefaultGrey
  }

  /** The colour rule agrees with the ticket quadrants of the matrix board. */
  lemma ColorMatchesQuadrant(impact: real, effort: real)
    ensures QuadrantColor(impact, effort) == match MatrixTickets.Classify(impact, effort)
      case HighImpactLowEffort => "#10b981"
      case HighImpactHighEffort => "#f59e0b"
      case LowImpactLowEffort => "#3b82f6"
      case LowImpactHighEffort => "#ef4444"
  {
  }

  /**
   * The label a node is shown with: its unique id when set, otherwise the
   * part of its id after the last '-', or the id's last eight characters
   * when that part is empty.
   */
  function NodeLabel(n: Node): (r: string)
    ensures Truthy(n.uniqueId) ==> r == n.uniqueId.value
    ensures !Truthy(n.uniqueId) ==> |r| <= |n.id| && r == n.id[|n.id| - |r|..]
    ensures !Truthy(n.uniqueId) && '-' !in n.id ==> r == n.id
    ensures !Truthy(n.uniqueId) && n.id != [] && n.id[|n.id| - 1] != '-' ==>
      r != [] && '-' !in r && (|r| < |n.id| ==> n.id[|n.id| - |r| - 1] == '-')
    ensures !Truthy(n.uniqueId) && n.id != [] && n.id[|n.id| - 1] == '-' ==>
      |r| == if |n.id| < 8 then |n.id| else 8
  {
    if Truthy(n.uniqueId) then n.uniqueId.value
    else
      var tail := LastSegment(n.id);
      if tail != "" then tail else TakeLast(n.id, 8)
  }
}
