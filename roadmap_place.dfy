/**
 * Where the roadmap view puts each objective: x by the topological order or
 * spread under a placed parent, y by the hierarchical level, then nudged
 * left and right until no node already placed on the same level is within
 * the minimum distance. `finalPositions` is an insertion-ordered map.
 */
module RoadmapPlace {
  import opened Wrappers
  import opened Seqs
  import opened NotionTypes
  import opened RoadmapOrder
  import opened RoadmapGroup

  const NodeSpacing: int := 350
  const VerticalSpacing: int := 200
  const ChildSpacing: int := 350
  const MinDistance: int := 280
  const MaxAttempts: nat := 20

  /** One entry of `finalPositions`. */
  datatype Pos = Pos(x: int, y: int, level: nat)

  /** `finalPositions`: the placed ids in insertion order and their positions. */
  datatype Positions = Positions(keys: seq<string>, at: map<string, Pos>)
  {
    ghost predicate Valid()
    {
      KeysOf(keys, at)
    }
  }

  /** `finalPositions.set(id, pos)`: a new id goes last, a known one keeps its place. */
  function Put(p: Positions, id: string, v: Pos): (r: Positions)
    requires p.Valid()
    ensures r.Valid() && r.at == p.at[id := v]
    ensures r.keys == if id in p.at then p.keys else p.keys + [id]
  {
    Positions(if id in p.at then p.keys else p.keys + [id], p.at[id := v])
  }

  function Abs(v: int): nat
  {
    if v < 0 then -v else v
  }

  // ---------------------------------------------------------------------
  // The x a node starts from
  // ---------------------------------------------------------------------

  /**
   * The x of sibling `index` of `count` under a parent at `parentX`: one
   * child right under the parent, several spread `ChildSpacing` apart
   * starting half the total width to the left.
   */
  function SiblingX(parentX: int, count: nat, index: nat): (x: int)
    requires index < count
    ensures count == 1 ==> x == parentX
    ensures x == parentX - 175 * (count - 1) + ChildSpacing * index
  {
    if count == 1 then parentX
    else
      var totalWidth := (count - 1) * ChildSpacing;
      var startX := parentX - totalWidth / 2;
      startX + index * ChildSpacing
  }

  /** The siblings sit `ChildSpacing` apart, symmetric about the parent. */
  lemma SiblingsSpread(parentX: int, count: nat, index: nat)
    requires index < count
    ensures SiblingX(parentX, count, index) + SiblingX(parentX, count, count - 1 - index) == 2 * parentX
    ensures index + 1 < count ==> SiblingX(parentX, count, index + 1) - SiblingX(parentX, count, index) == ChildSpacing
    ensures parentX - 175 * (count - 1) <= SiblingX(parentX, count, index) <= parentX + 175 * (count - 1)
  {
  }

  /**
   * The x a node starts from: spread under its parent when the parent link
   * is set and the parent is already placed, otherwise its topological x.
   */
  function BaseX(placed: Positions, node: Node, index: nat, count: nat, temporal: map<string, int>): (x: int)
    requires index < count && node.id in temporal
    ensures Truthy(node.parentId) && node.parentId.value in placed.at ==>
      x == SiblingX(placed.at[node.parentId.value].x, count, index)
    ensures !(Truthy(node.parentId) && node.parentId.value in placed.at) ==> x == temporal[node.id]
  {
    if Truthy(node.parentId) && node.parentId.value in placed.at then
      SiblingX(placed.at[node.parentId.value].x, count, index)
    else
      temporal[node.id]
  }

  // ---------------------------------------------------------------------
  // Collision avoidance
  // ---------------------------------------------------------------------

  /** Some node already placed on `level` is closer than `MinDistance` to `x`. */
  ghost predicate Collides(placed: Positions, level: nat, x: int)
  {
    exists id :: id in placed.at && placed.at[id].level == level && Abs(placed.at[id].x - x) < MinDistance
  }

  /** The inner `for ... of finalPositions.entries()` with its `break`. */
  method HasCollision(placed: Positions, level: nat, x: int) returns (collision: bool)
    requires placed.Valid()
    ensures collision <==> Collides(placed, level, x)
  {
    collision := false;
    var i := 0;
    while i < |placed.keys|
      invariant 0 <= i <= |placed.keys|
      invariant forall m :: 0 <= m < i ==>
        !(placed.at[placed.keys[m]].level == level && Abs(placed.at[placed.keys[m]].x - x) < MinDistance)
    {
      var existing := placed.at[placed.keys[i]];
      if existing.level == level && Abs(existing.x - x) < MinDistance {
        collision := true;
        break;
      }
      i := i + 1;
    }
    if !collision {
      forall id | id in placed.at
        ensures !(placed.at[id].level == level && Abs(placed.at[id].x - x) < MinDistance)
      {
        var m :| 0 <= m < |placed.keys| && placed.keys[m] == id;
      }
    }
  }

  /**
   * The offset from the start x after `attempts` adjustments: none at first,
   * then `direction * ceil(t / 2) * MinDistance` for the `t`-th adjustment,
   * the direction alternating right (even `t`) and left (odd `t`).
   */
  function Shift(attempts: nat): int
  {
    if attempts == 0 then 0
    else
      var t := attempts - 1;
      var direction := if t % 2 == 0 then 1 else -1;
      var offset := ((t + 1) / 2) * MinDistance;
      direction * offset
  }

  /** `Math.ceil(t / 2)` on a natural number is `(t + 1) / 2`. */
  lemma CeilHalf(t: nat)
    ensures 2 * ((t + 1) / 2) >= t && 2 * ((t + 1) / 2) - t <= 1
  {
  }

  /**
   * The candidates tried are x, x again (the first adjustment has offset
   * 0), then x - 280, x + 280, x - 560, x + 560, ...: after an even number
   * 2k of adjustments the node is k steps left, after 2k + 1 it is k steps
   * right.
   */
  lemma ShiftClosedForm(k: nat)
    ensures k > 0 ==> Shift(2 * k) == -MinDistance * k
    ensures Shift(2 * k + 1) == MinDistance * k
  {
  }

  /** Every shift is a whole number of `MinDistance` steps, at most ten of them. */
  lemma ShiftBounds(attempts: nat)
    requires attempts <= MaxAttempts
    ensures Shift(attempts) % MinDistance == 0
    ensures -10 * MinDistance <= Shift(attempts) <= 10 * MinDistance
  {
    ShiftClosedForm(attempts / 2);
  }

  /** Apart from the repeated first try, no candidate is tried twice. */
  lemma ShiftDistinct(a: nat, b: nat)
    requires 1 <= a < b
    ensures Shift(a) != Shift(b)
  {
    ShiftClosedForm(a / 2);
    ShiftClosedForm(b / 2);
  }

  /**
   * The `while (attempts < maxAttempts)` loop: the first candidate with no
   * collision on its level, trying at most `MaxAttempts` of them; when all
   * collide, the position after the last adjustment, which is not tested.
   */
  method Nudge(placed: Positions, level: nat, x: int) returns (finalX: int, attempts: nat)
    requires placed.Valid()
    ensures attempts <= MaxAttempts && finalX == x + Shift(attempts)
    ensures forall a :: 0 <= a < attempts ==> Collides(placed, level, x + Shift(a))
    ensures attempts < MaxAttempts ==> !Collides(placed, level, finalX)
  {
    finalX := x;
    attempts := 0;
    while attempts < MaxAttempts
      invariant attempts <= MaxAttempts && finalX == x + Shift(attempts)
      invariant forall a :: 0 <= a < attempts ==> Collides(placed, level, x + Shift(a))
    {
      var collision := HasCollision(placed, level, finalX);
      if !collision {
        break;
      }
      var direction := if attempts % 2 == 0 then 1 else -1;
      var offset := ((attempts + 1) / 2) * MinDistance;
      finalX := x + direction * offset;
      attempts := attempts + 1;
    }
  }

  /** After a run of collisions the node ends at most ten steps from where it started. */
  lemma NudgeBounds(x: int, finalX: int, attempts: nat)
    requires attempts <= MaxAttempts && finalX == x + Shift(attempts)
    ensures (finalX - x) % MinDistance == 0 && Abs(finalX - x) <= 10 * MinDistance
    ensures attempts == MaxAttempts ==> finalX == x - 10 * MinDistance
  {
    ShiftBounds(attempts);
    ShiftClosedForm(10);
  }

  // ---------------------------------------------------------------------
  // Placing the objectives level by level
  // ---------------------------------------------------------------------

  /** Every placed id is an objective, on its own level, at `VerticalSpacing` times that level. */
  ghost predicate Laid(placed: Positions, lv: map<string, nat>)
  {
    && placed.Valid()
    && forall id :: id in placed.at ==>
         id in lv && placed.at[id].level == lv[id] && placed.at[id].y == lv[id] * VerticalSpacing
  }

  /**
   * One node of a sibling group: start from `BaseX`, nudge, and record the
   * result at `level * VerticalSpacing`.
   */
  method PlaceNode(placed: Positions, node: Node, index: nat, count: nat, level: nat, temporal: map<string, int>)
    returns (next: Positions, finalX: int, attempts: nat)
    requires placed.Valid() && index < count && node.id in temporal
    ensures next == Put(placed, node.id, Pos(finalX, level * VerticalSpacing, level))
    ensures attempts <= MaxAttempts && finalX == BaseX(placed, node, index, count, temporal) + Shift(attempts)
    ensures forall a :: 0 <= a < attempts ==>
      Collides(placed, level, BaseX(placed, node, index, count, temporal) + Shift(a))
    ensures attempts < MaxAttempts ==> !Collides(placed, level, finalX)
  {
    var x: int;
    if Truthy(node.parentId) && node.parentId.value in placed.at {
      var parentPos := placed.at[node.parentId.value];
      x := SiblingX(parentPos.x, count, index);
    } else {
      x := temporal[node.id];
    }
    var y := level * VerticalSpacing;
    finalX, attempts := Nudge(placed, level, x);
    next := Put(placed, node.id, Pos(finalX, y, level));
  }

  /** `siblings.forEach((node, siblingIndex) => ...)`: every sibling placed on `level`. */
  method PlaceGroup(placed0: Positions, siblings: seq<Node>, level: nat, temporal: map<string, int>,
                    ghost lv: map<string, nat>)
    returns (placed: Positions)
    requires Laid(placed0, lv)
    requires forall n :: n in siblings ==> n.id in temporal && n.id in lv && lv[n.id] == level
    ensures Laid(placed, lv)
    ensures placed0.at.Keys <= placed.at.Keys
    ensures forall n :: n in siblings ==> n.id in placed.at
  {
    placed := placed0;
    for i := 0 to |siblings|
      invariant Laid(placed, lv)
      invariant placed0.at.Keys <= placed.at.Keys
      invariant forall m :: 0 <= m < i ==> siblings[m].id in placed.at
    {
      assert siblings[i] in siblings;
      var finalX, attempts;
      placed, finalX, attempts := PlaceNode(placed, siblings[i], i, |siblings|, level, temporal);
    }
  }

  /** `node.parentId || 'root'`: the group a node is placed with. */
  function ParentKey(n: Node): string
  {
    if Truthy(n.parentId) then n.parentId.value else "root"
  }

  /** The parent key of each node, in order. */
  function ParentKeys(ns: seq<Node>): (r: seq<string>)
    ensures |r| == |ns| && forall i :: 0 <= i < |ns| ==> r[i] == ParentKey(ns[i])
  {
    seq(|ns|, i requires 0 <= i < |ns| => ParentKey(ns[i]))
  }

  /** One level: its nodes grouped by parent key, each group placed in turn. */
  method PlaceLevel(placed0: Positions, levelNodes: seq<Node>, level: nat, temporal: map<string, int>,
                    ghost lv: map<string, nat>)
    returns (placed: Positions)
    requires Laid(placed0, lv)
    requires forall n :: n in levelNodes ==> n.id in temporal && n.id in lv && lv[n.id] == level
    ensures Laid(placed, lv)
    ensures placed0.at.Keys <= placed.at.Keys
    ensures forall n :: n in levelNodes ==> n.id in placed.at
  {
    var keys := ParentKeys(levelNodes);
    var order, byParent := GroupBy(levelNodes, keys);
    MembersContainAll(levelNodes, keys);
    placed := placed0;
    for g := 0 to |order|
      invariant Laid(placed, lv)
      invariant placed0.at.Keys <= placed.at.Keys
      invariant forall i :: 0 <= i < |levelNodes| && keys[i] in order[..g] ==> levelNodes[i].id in placed.at
    {
      var siblings := byParent[order[g]];
      forall n: Node | n in siblings
        ensures n.id in temporal && n.id in lv && lv[n.id] == level
      {
        var i :| 0 <= i < |levelNodes| && levelNodes[i] == n && keys[i] == order[g];
        assert n in levelNodes;
      }
      placed := PlaceGroup(placed, siblings, level, temporal, lv);
      PrefixSnoc(order, g);
    }
    PrefixFull(order);
    forall n | n in levelNodes
      ensures n.id in placed.at
    {
      var i :| 0 <= i < |levelNodes| && levelNodes[i] == n;
    }
  }

  /**
   * The level passes: the nodes grouped by level, the levels in ascending
   * order, each level placed in turn. Every objective is placed once, on
   * its level, at `VerticalSpacing` times it, and nothing else is placed.
   */
  method PlaceObjectives(sorted: seq<Node>, levels: seq<nat>, temporal: map<string, int>, ghost lv: map<string, nat>)
    returns (placed: Positions)
    requires |levels| == |sorted|
    requires forall i :: 0 <= i < |sorted| ==>
      sorted[i].id in temporal && sorted[i].id in lv && lv[sorted[i].id] == levels[i]
    requires forall id :: id in lv ==> id in Ids(sorted)
    ensures Laid(placed, lv)
    ensures forall id :: id in placed.at <==> id in Ids(sorted)
    ensures forall i :: 0 <= i < |sorted| ==>
      placed.at[sorted[i].id].level == levels[i] && placed.at[sorted[i].id].y == levels[i] * VerticalSpacing
  {
    var order, byLevel := GroupBy(sorted, levels);
    var ascending := SortLevels(order);
    MembersContainAll(sorted, levels);
    placed := Positions([], map[]);
    for j := 0 to |ascending|
      invariant Laid(placed, lv)
      invariant forall i :: 0 <= i < |sorted| && levels[i] in ascending[..j] ==> sorted[i].id in placed.at
    {
      var level := ascending[j];
      forall n: Node | n in byLevel[level]
        ensures n.id in temporal && n.id in lv && lv[n.id] == level
      {
        var i :| 0 <= i < |sorted| && sorted[i] == n && levels[i] == level;
      }
      placed := PlaceLevel(placed, byLevel[level], level, temporal, lv);
      PrefixSnoc(ascending, j);
    }
    PrefixFull(ascending);
    forall id | id in Ids(sorted)
      ensures id in placed.at
    {
      var i :| 0 <= i < |sorted| && Ids(sorted)[i] == id;
    }
  }
}
