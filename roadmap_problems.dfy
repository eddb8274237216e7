/**
 * The problems the roadmap shows beside its objectives: the ids the
 * objectives list in `problemIds` (a `Set`, in insertion order), the cached
 * problem nodes found under them, marked as non-objectives, and where each
 * one is placed: to the right of the first objective that lists it.
 */
module RoadmapProblems {
  import opened Wrappers
  import opened Seqs
  import opened NotionTypes
  import opened RoadmapOrder
  import opened RoadmapPlace

  const ProblemOffsetX: int := 500
  const ProblemStackY: int := 100

  /** No string twice. */
  predicate NoRepeats(s: seq<string>)
  {
    forall i, j :: 0 <= i < j < |s| ==> s[i] != s[j]
  }

  /** `node.problemIds`, or none. */
  function ProblemsOf(n: Node): seq<string>
  {
    n.problemIds.GetOr([])
  }

  /** `ids.forEach(id => set.add(id))` on a set listed in insertion order. */
  function AddAll(order: seq<string>, ids: seq<string>): (r: seq<string>)
    ensures forall x :: x in r <==> x in order || x in ids
    ensures NoRepeats(order) ==> NoRepeats(r)
    ensures order <= r
  {
    if ids == [] then order
    else
      var init := AddAll(order, ids[..|ids| - 1]);
      var id := ids[|ids| - 1];
      assert ids == ids[..|ids| - 1] + [id];
      if id in init then init else init + [id]
  }

  /**
   * `relatedProblemIds`: every id some objective lists in `problemIds`,
   * once, in the order the objectives and their lists first name it.
   */
  function ProblemIdsOf(nodes: seq<Node>): (r: seq<string>)
    ensures NoRepeats(r)
    ensures forall x :: x in r <==> exists n :: n in nodes && x in ProblemsOf(n)
  {
    if nodes == [] then []
    else
      var init := nodes[..|nodes| - 1];
      var last := nodes[|nodes| - 1];
      assert nodes == init + [last];
      AddAll(ProblemIdsOf(init), ProblemsOf(last))
  }

  lemma AddAllSnoc(order: seq<string>, ids: seq<string>, j: nat)
    requires j < |ids|
    ensures AddAll(order, ids[..j + 1]) ==
      if ids[j] in AddAll(order, ids[..j]) then AddAll(order, ids[..j]) else AddAll(order, ids[..j]) + [ids[j]]
  {
    PrefixOfPrefix(ids, j, j + 1);
  }

  lemma ProblemIdsSnoc(nodes: seq<Node>, i: nat)
    requires i < |nodes|
    ensures ProblemIdsOf(nodes[..i + 1]) == AddAll(ProblemIdsOf(nodes[..i]), ProblemsOf(nodes[i]))
  {
    PrefixOfPrefix(nodes, i, i + 1);
  }

  /** The nested `forEach` that fills `relatedProblemIds`. */
  method CollectProblemIds(nodes: seq<Node>) returns (ids: seq<string>)
    ensures ids == ProblemIdsOf(nodes)
  {
    ids := [];
    for i := 0 to |nodes|
      invariant ids == ProblemIdsOf(nodes[..i])
    {
      ProblemIdsSnoc(nodes, i);
      if nodes[i].problemIds.Some? {
        var problemIds := nodes[i].problemIds.value;
        ghost var before := ids;
        for j := 0 to |problemIds|
          invariant ids == AddAll(before, problemIds[..j])
        {
          AddAllSnoc(before, problemIds, j);
          if problemIds[j] !in ids {
            ids := ids + [problemIds[j]];
          }
        }
        PrefixFull(problemIds);
      }
    }
    PrefixFull(nodes);
  }

  /** The cached node under `id`, marked `isObjective: false`. */
  function AsProblem(n: Node): (r: Node)
    ensures r.isObjective == Some(false) && r.(isObjective := n.isObjective) == n
  {
    n.(isObjective := Some(false))
  }

  /** `relatedProblems`: the cached node of each id the cache holds, in id order, marked as a problem. */
  function RelatedOf(ids: seq<string>, cached: map<string, Node>): (r: seq<Node>)
    ensures |r| <= |ids|
    ensures forall n :: n in r ==> exists id :: id in ids && id in cached && n == AsProblem(cached[id])
    ensures forall id :: id in ids && id in cached ==> AsProblem(cached[id]) in r
  {
    if ids == [] then []
    else
      var init := RelatedOf(ids[..|ids| - 1], cached);
      var id := ids[|ids| - 1];
      assert ids == ids[..|ids| - 1] + [id];
      if id in cached then init + [AsProblem(cached[id])] else init
  }

  /**
   * With distinct ids and a cache that stores each node under its own id,
   * the related problems have distinct ids, all of them listed.
   */
  lemma {:induction false} RelatedDistinct(ids: seq<string>, cached: map<string, Node>)
    requires NoRepeats(ids) && WellKeyed(cached)
    ensures DistinctIds(RelatedOf(ids, cached))
    ensures forall i :: 0 <= i < |RelatedOf(ids, cached)| ==> RelatedOf(ids, cached)[i].id in ids
  {
    if ids != [] {
      var init := ids[..|ids| - 1];
      var id := ids[|ids| - 1];
      RelatedDistinct(init, cached);
      var r := RelatedOf(init, cached);
      forall i | 0 <= i < |r|
        ensures r[i].id in ids && r[i].id != id
      {
        var m :| 0 <= m < |init| && init[m] == r[i].id;
        assert ids[m] == r[i].id;
      }
      if id in cached {
        var p := AsProblem(cached[id]);
        var s := r + [p];
        assert RelatedOf(ids, cached) == s;
        forall i, j | 0 <= i < j < |s|
          ensures s[i].id != s[j].id
        {
          assert s[i] == r[i];
          if j < |r| {
            assert s[j] == r[j];
          }
        }
      }
    }
  }

  /** The `relatedProblemIds.forEach` that fills `relatedProblems`. */
  method GatherRelated(ids: seq<string>, cached: map<string, Node>) returns (related: seq<Node>)
    ensures related == RelatedOf(ids, cached)
  {
    related := [];
    if |ids| > 0 {
      for i := 0 to |ids|
        invariant related == RelatedOf(ids[..i], cached)
      {
        PrefixOfPrefix(ids, i, i + 1);
        if ids[i] in cached {
          related := related + [AsProblem(cached[ids[i]])];
        }
      }
      PrefixFull(ids);
    }
  }

  /** The objective lists the problem in `problemIds`. */
  predicate References(obj: Node, problemId: string)
  {
    obj.problemIds.Some? && problemId in obj.problemIds.value
  }

  /** `nodes.find(obj => obj.problemIds && obj.problemIds.includes(id))`. */
  function FirstReferrer(nodes: seq<Node>, problemId: string): (r: Option<Node>)
    ensures r.None? <==> forall n :: n in nodes ==> !References(n, problemId)
    ensures r.Some? ==> exists i :: 0 <= i < |nodes| && nodes[i] == r.value && References(r.value, problemId) &&
                                   (forall j :: 0 <= j < i ==> !References(nodes[j], problemId))
  {
    if nodes == [] then None
    else if References(nodes[0], problemId) then Some(nodes[0])
    else
      var r := FirstReferrer(nodes[1..], problemId);
      assert forall n :: n in nodes ==> n == nodes[0] || n in nodes[1..];
      assert r.Some? ==> exists i :: 0 <= i < |nodes[1..]| && nodes[1..][i] == r.value && References(r.value, problemId) &&
                                     (forall j :: 0 <= j < i ==> !References(nodes[1..][j], problemId));
      r
  }

  /**
   * One problem (the `problemIndex`-th related one): when the first
   * objective that lists it is placed, it goes `ProblemOffsetX` to the
   * right of it and `ProblemStackY` times its index lower, on its level.
   */
  function PlaceProblem(placed: Positions, nodes: seq<Node>, problem: Node, problemIndex: nat): (r: Positions)
    requires placed.Valid()
    ensures r.Valid()
  {
    var objective := FirstReferrer(nodes, problem.id);
    if objective.Some? && objective.value.id in placed.at then
      var objectivePos := placed.at[objective.value.id];
      Put(placed, problem.id, Pos(objectivePos.x + ProblemOffsetX, objectivePos.y + problemIndex * ProblemStackY, objectivePos.level))
    else
      placed
  }

  /** The positions after the related problems, in order, are placed. */
  function ProblemsPlaced(placed: Positions, nodes: seq<Node>, related: seq<Node>): (r: Positions)
    requires placed.Valid()
    ensures r.Valid()
    ensures placed.at.Keys <= r.at.Keys
  {
    if related == [] then placed
    else
      var before := ProblemsPlaced(placed, nodes, related[..|related| - 1]);
      PlaceProblem(before, nodes, related[|related| - 1], |related| - 1)
  }

  lemma ProblemsPlacedSnoc(placed: Positions, nodes: seq<Node>, related: seq<Node>, i: nat)
    requires placed.Valid() && i < |related|
    ensures ProblemsPlaced(placed, nodes, related[..i + 1]) ==
      PlaceProblem(ProblemsPlaced(placed, nodes, related[..i]), nodes, related[i], i)
  {
    PrefixOfPrefix(related, i, i + 1);
  }

  /** `relatedProblems.forEach((problemNode, problemIndex) => ...)`. */
  method PlaceProblems(placed0: Positions, nodes: seq<Node>, related: seq<Node>) returns (placed: Positions)
    requires placed0.Valid()
    ensures placed == ProblemsPlaced(placed0, nodes, related)
  {
    placed := placed0;
    for i := 0 to |related|
      invariant placed == ProblemsPlaced(placed0, nodes, related[..i])
    {
      ProblemsPlacedSnoc(placed0, nodes, related, i);
      placed := PlaceProblem(placed, nodes, related[i], i);
    }
    PrefixFull(related);
  }

  /** Placing the problems changes no entry but theirs. */
  lemma {:induction false} ProblemsPlacedFrame(placed: Positions, nodes: seq<Node>, related: seq<Node>)
    requires placed.Valid()
    ensures forall id :: id in ProblemsPlaced(placed, nodes, related).at && id !in Ids(related) ==>
      id in placed.at && ProblemsPlaced(placed, nodes, related).at[id] == placed.at[id]
  {
    if related != [] {
      var init := related[..|related| - 1];
      ProblemsPlacedFrame(placed, nodes, init);
      IdsSnoc(init, related[|related| - 1]);
      assert related == init + [related[|related| - 1]];
    }
  }

  /**
   * The problems are new ids: listed once each, not yet placed, and none
   * of them an objective's id.
   */
  ghost predicate Fresh(placed: Positions, nodes: seq<Node>, related: seq<Node>)
  {
    && DistinctIds(related)
    && (forall i :: 0 <= i < |related| ==> related[i].id !in placed.at)
    && (forall i, n :: 0 <= i < |related| && n in nodes ==> related[i].id != n.id)
  }

  /** The position the `problemIndex`-th problem takes beside an objective placed at `objective`. */
  function Beside(objective: Pos, problemIndex: nat): Pos
  {
    Pos(objective.x + ProblemOffsetX, objective.y + problemIndex * ProblemStackY, objective.level)
  }

  /**
   * For new problem ids: a problem is placed exactly when the first
   * objective listing it was placed before, and then beside that
   * objective's position, stacked by its index.
   */
  lemma ProblemsPlacedAt(placed: Positions, nodes: seq<Node>, related: seq<Node>)
    requires placed.Valid() && Fresh(placed, nodes, related)
    ensures forall k :: 0 <= k < |related| ==> PlacedBeside(placed, nodes, related, k)
  {
    forall k | 0 <= k < |related|
      ensures PlacedBeside(placed, nodes, related, k)
    {
      OnePlacedBeside(placed, nodes, related, k);
    }
  }

  /** The `k`-th problem, by induction on the problems placed after it. */
  lemma {:induction false} OnePlacedBeside(placed: Positions, nodes: seq<Node>, related: seq<Node>, k: nat)
    requires placed.Valid() && Fresh(placed, nodes, related) && k < |related|
    ensures PlacedBeside(placed, nodes, related, k)
    decreases |related|
  {
    var n := |related| - 1;
    var init := related[..n];
    if k == n {
      ProblemsPlacedFrame(placed, nodes, init);
      LastPlacedBeside(placed, nodes, related);
    } else {
      FreshPrefix(placed, nodes, related);
      OnePlacedBeside(placed, nodes, init, k);
      EarlierPlacedBeside(placed, nodes, related, k);
    }
  }

  lemma FreshPrefix(placed: Positions, nodes: seq<Node>, related: seq<Node>)
    requires Fresh(placed, nodes, related) && related != []
    ensures Fresh(placed, nodes, related[..|related| - 1])
  {
  }

  /** The `k`-th problem is placed exactly when its first referrer was, and then beside it. */
  ghost predicate PlacedBeside(placed: Positions, nodes: seq<Node>, related: seq<Node>, k: nat)
    requires placed.Valid() && k < |related|
  {
    var after := ProblemsPlaced(placed, nodes, related);
    var objective := FirstReferrer(nodes, related[k].id);
    && (related[k].id in after.at <==> objective.Some? && objective.value.id in placed.at)
    && (related[k].id in after.at ==> after.at[related[k].id] == Beside(placed.at[objective.value.id], k))
  }

  lemma EarlierPlacedBeside(placed: Positions, nodes: seq<Node>, related: seq<Node>, k: nat)
    requires placed.Valid() && Fresh(placed, nodes, related) && k + 1 < |related|
    requires PlacedBeside(placed, nodes, related[..|related| - 1], k)
    ensures PlacedBeside(placed, nodes, related, k)
  {
    var n := |related| - 1;
    var init := related[..n];
    ProblemsPlacedSnoc(placed, nodes, related, n);
    PrefixFull(related);
    assert related[k] == init[k] && related[k].id != related[n].id;
  }

  lemma LastPlacedBeside(placed: Positions, nodes: seq<Node>, related: seq<Node>)
    requires placed.Valid() && Fresh(placed, nodes, related) && related != []
    requires var init := related[..|related| - 1];
      forall id :: id in ProblemsPlaced(placed, nodes, init).at && id !in Ids(init) ==>
        id in placed.at && ProblemsPlaced(placed, nodes, init).at[id] == placed.at[id]
    ensures PlacedBeside(placed, nodes, related, |related| - 1)
  {
    var n := |related| - 1;
    var init := related[..n];
    var before := ProblemsPlaced(placed, nodes, init);
    var last := related[n];
    PrefixOfPrefix(related, n, n + 1);
    PrefixFull(related);
    assert ProblemsPlaced(placed, nodes, related) == PlaceProblem(before, nodes, last, n);
    assert last.id !in Ids(init) by {
      forall i | 0 <= i < |init|
        ensures Ids(init)[i] != last.id
      {
        assert init[i] == related[i];
      }
    }
    assert last.id !in before.at;
    var objective := FirstReferrer(nodes, last.id);
    var after := ProblemsPlaced(placed, nodes, related);
    if objective.Some? {
      assert objective.value in nodes;
      assert objective.value.id !in Ids(init) by {
        forall i | 0 <= i < |init|
          ensures Ids(init)[i] != objective.value.id
        {
          assert init[i] == related[i];
        }
      }
    }
    if objective.Some? && objective.value.id in before.at {
      var objectivePos := before.at[objective.value.id];
      assert objectivePos == placed.at[objective.value.id];
      assert after == Put(before, last.id, Beside(objectivePos, n));
    } else {
      assert after == before;
    }
  }
}
