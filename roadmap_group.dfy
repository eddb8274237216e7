/**
 * The two groupings the roadmap placement makes before it places anything:
 * nodes grouped by a key in the order each key first appears (a `Map` from
 * key to list, filled by `push`), and the levels put in ascending order
 * (`Array.from(nodesByLevel.entries()).sort(([a], [b]) => a - b)`).
 */
module RoadmapGroup {
  import opened Seqs
  import opened NotionTypes

  /** The distinct keys of `ks`, each at its first appearance. */
  function KeyOrder<K(==,!new)>(ks: seq<K>): (r: seq<K>)
    ensures forall k :: k in r <==> k in ks
    ensures forall i, j :: 0 <= i < j < |r| ==> r[i] != r[j]
  {
    if ks == [] then []
    else
      var init := KeyOrder(ks[..|ks| - 1]);
      var k := ks[|ks| - 1];
      assert ks == ks[..|ks| - 1] + [k];
      if k in init then init else init + [k]
  }

  /** The nodes whose key (the entry of `ks` at the same index) is `k`, in order. */
  function Members<K(==,!new)>(ns: seq<Node>, ks: seq<K>, k: K): (r: seq<Node>)
    requires |ks| == |ns|
    ensures |r| <= |ns|
    ensures forall n :: n in r ==> exists i :: 0 <= i < |ns| && ns[i] == n && ks[i] == k
  {
    if ns == [] then []
    else
      var init := Members(ns[..|ns| - 1], ks[..|ks| - 1], k);
      if ks[|ks| - 1] == k then init + [ns[|ns| - 1]] else init
  }

  /** Every node is in the group of its own key. */
  lemma {:induction false} MembersContain<K(!new)>(ns: seq<Node>, ks: seq<K>, i: nat)
    requires |ks| == |ns| && i < |ns|
    ensures ns[i] in Members(ns, ks, ks[i])
    decreases |ns|
  {
    if i < |ns| - 1 {
      MembersContain(ns[..|ns| - 1], ks[..|ks| - 1], i);
    }
  }

  lemma MembersContainAll<K(!new)>(ns: seq<Node>, ks: seq<K>)
    requires |ks| == |ns|
    ensures forall i :: 0 <= i < |ns| ==> ns[i] in Members(ns, ks, ks[i])
  {
    forall i | 0 <= i < |ns|
      ensures ns[i] in Members(ns, ks, ks[i])
    {
      MembersContain(ns, ks, i);
    }
  }

  lemma KeyOrderSnoc<K(!new)>(ks: seq<K>, i: nat)
    requires i < |ks|
    ensures KeyOrder(ks[..i + 1]) == if ks[i] in KeyOrder(ks[..i]) then KeyOrder(ks[..i]) else KeyOrder(ks[..i]) + [ks[i]]
  {
    assert ks[..i + 1][..i] == ks[..i];
  }

  lemma MembersSnoc<K(!new)>(ns: seq<Node>, ks: seq<K>, i: nat, k: K)
    requires |ks| == |ns| && i < |ns|
    ensures Members(ns[..i + 1], ks[..i + 1], k) ==
      if ks[i] == k then Members(ns[..i], ks[..i], k) + [ns[i]] else Members(ns[..i], ks[..i], k)
  {
    assert ns[..i + 1][..i] == ns[..i] && ks[..i + 1][..i] == ks[..i];
  }

  /** The groups as a map: each key of `ks` to the nodes that carry it. */
  function GroupsOf<K(==,!new)>(ns: seq<Node>, ks: seq<K>): (m: map<K, seq<Node>>)
    requires |ks| == |ns|
    ensures forall k :: k in m <==> k in ks
  {
    map k | k in KeyOrder(ks) :: Members(ns, ks, k)
  }

  /** One more node: its key's group grows by it, a new key gets a group of one. */
  lemma GroupsSnoc<K(!new)>(ns: seq<Node>, ks: seq<K>, i: nat)
    requires |ks| == |ns| && i < |ns|
    ensures GroupsOf(ns[..i + 1], ks[..i + 1]) ==
      var g := GroupsOf(ns[..i], ks[..i]);
      g[ks[i] := (if ks[i] in g then g[ks[i]] else []) + [ns[i]]]
  {
    var g := GroupsOf(ns[..i], ks[..i]);
    var g' := GroupsOf(ns[..i + 1], ks[..i + 1]);
    var h := g[ks[i] := (if ks[i] in g then g[ks[i]] else []) + [ns[i]]];
    assert ks[..i + 1] == ks[..i] + [ks[i]];
    assert g'.Keys == h.Keys;
    forall k | k in g'
      ensures g'[k] == h[k]
    {
      MembersSnoc(ns, ks, i, k);
      if k == ks[i] && k !in g {
        MembersNone(ns[..i], ks[..i], k);
      }
    }
  }

  /** A key that no node carries has no members. */
  lemma {:induction false} MembersNone<K(!new)>(ns: seq<Node>, ks: seq<K>, k: K)
    requires |ks| == |ns| && k !in ks
    ensures Members(ns, ks, k) == []
  {
    if ns != [] {
      MembersNone(ns[..|ns| - 1], ks[..|ks| - 1], k);
    }
  }

  /**
   * `map.has(key) || map.set(key, []); map.get(key).push(node)` for each
   * node in turn: the keys in first-appearance order, and under each key
   * the nodes that carry it, in order.
   */
  method GroupBy<K(==,!new)>(ns: seq<Node>, ks: seq<K>) returns (order: seq<K>, groups: map<K, seq<Node>>)
    requires |ks| == |ns|
    ensures order == KeyOrder(ks)
    ensures groups == GroupsOf(ns, ks)
  {
    order, groups := [], map[];
    for i := 0 to |ns|
      invariant order == KeyOrder(ks[..i])
      invariant groups == GroupsOf(ns[..i], ks[..i])
    {
      GroupByStep(ns, ks, i, order, groups);
      order, groups := Push(order, groups, ks[i], ns[i]);
    }
    PrefixFull(ns);
    PrefixFull(ks);
  }

  /** One more node takes the key order and the groups of a prefix to those of the next. */
  lemma GroupByStep<K(!new)>(ns: seq<Node>, ks: seq<K>, i: nat, order: seq<K>, groups: map<K, seq<Node>>)
    requires |ks| == |ns| && i < |ns|
    requires order == KeyOrder(ks[..i]) && groups == GroupsOf(ns[..i], ks[..i])
    ensures KeyOrder(ks[..i + 1]) == if ks[i] in groups then order else order + [ks[i]]
    ensures GroupsOf(ns[..i + 1], ks[..i + 1]) ==
      groups[ks[i] := (if ks[i] in groups then groups[ks[i]] else []) + [ns[i]]]
  {
    KeyOrderSnoc(ks, i);
    GroupsSnoc(ns, ks, i);
  }

  /** `map.has(key) || map.set(key, []); map.get(key).push(node)` for one node. */
  method Push<K(==,!new)>(order0: seq<K>, groups0: map<K, seq<Node>>, k: K, n: Node)
    returns (order: seq<K>, groups: map<K, seq<Node>>)
    ensures order == if k in groups0 then order0 else order0 + [k]
    ensures groups == groups0[k := (if k in groups0 then groups0[k] else []) + [n]]
  {
    order, groups := order0, groups0;
    var group := [];
    if k in groups {
      group := groups[k];
    } else {
      order := order + [k];
    }
    groups := groups[k := group + [n]];
  }

  /** No element twice. */
  predicate Distinct(s: seq<nat>)
  {
    forall i, j :: 0 <= i < j < |s| ==> s[i] != s[j]
  }

  /** Each element no larger than the next. */
  predicate Ascending(s: seq<nat>)
  {
    forall i, j :: 0 <= i < j < |s| ==> s[i] <= s[j]
  }

  /** Puts `x` before the first element of `s` that is not smaller. */
  function Insert(x: nat, s: seq<nat>): (r: seq<nat>)
    ensures |r| == |s| + 1
    ensures forall y :: y in r <==> y == x || y in s
    ensures Ascending(s) ==> Ascending(r)
    ensures Distinct(s) && x !in s ==> Distinct(r)
  {
    if s == [] then [x]
    else if x <= s[0] then
      assert Ascending(s) ==> forall y :: y in s ==> x <= y by {
        if Ascending(s) {
          AscendingHead(s);
        }
      }
      ConsAscending(x, s);
      ConsDistinct(x, s);
      [x] + s
    else
      var rest := Insert(x, s[1..]);
      assert forall y :: y in s <==> y == s[0] || y in s[1..];
      assert Ascending(s) ==> Ascending(s[1..]) && forall y :: y in rest ==> s[0] <= y by {
        if Ascending(s) {
          AscendingHead(s);
        }
      }
      ConsAscending(s[0], rest);
      ConsDistinct(s[0], rest);
      [s[0]] + rest
  }

  /** The head of an ascending list is its least element. */
  lemma AscendingHead(s: seq<nat>)
    requires Ascending(s) && s != []
    ensures forall y :: y in s ==> s[0] <= y
  {
    forall y | y in s
      ensures s[0] <= y
    {
      var m :| 0 <= m < |s| && s[m] == y;
    }
  }

  lemma ConsAscending(x: nat, s: seq<nat>)
    ensures Ascending(s) && (forall y :: y in s ==> x <= y) ==> Ascending([x] + s)
  {
    if Ascending(s) && (forall y :: y in s ==> x <= y) {
      var r := [x] + s;
      forall i, j | 0 <= i < j < |r|
        ensures r[i] <= r[j]
      {
        assert r[j] == s[j - 1] && s[j - 1] in s;
        if i > 0 {
          assert r[i] == s[i - 1];
        }
      }
    }
  }

  lemma ConsDistinct(x: nat, s: seq<nat>)
    ensures Distinct(s) && x !in s ==> Distinct([x] + s)
  {
    if Distinct(s) && x !in s {
      var r := [x] + s;
      forall i, j | 0 <= i < j < |r|
        ensures r[i] != r[j]
      {
        assert r[j] == s[j - 1];
        if i > 0 {
          assert r[i] == s[i - 1];
        }
      }
    }
  }

  /**
   * The levels in ascending order, as the numeric comparator sorts them:
   * the same levels, as many, ascending, and strictly so when the levels
   * are distinct (they are the keys of a map).
   */
  function SortLevels(s: seq<nat>): (r: seq<nat>)
    ensures |r| == |s|
    ensures forall x :: x in r <==> x in s
    ensures Ascending(r)
    ensures Distinct(s) ==> forall i, j :: 0 <= i < j < |r| ==> r[i] < r[j]
  {
    if s == [] then []
    else
      var rest := SortLevels(s[1..]);
      assert forall y :: y in s <==> y == s[0] || y in s[1..];
      assert Distinct(s) ==> s[0] !in s[1..] && Distinct(s[1..]);
      assert Distinct(s) ==> Distinct(rest);
      Insert(s[0], rest)
  }
}
