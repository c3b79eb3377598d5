/**
 The doubly linked child lists on the heap: sort_list relinks them in place.
 */
module LinkedItems {
  import opened CStrings
  import opened Json
  import opened Sorting

  /** A list node; `item` stands for the name and the payload, which relinking never touches. */
  class Node {
    const item: Member
    var next: Node?
    var prev: Node?

    constructor (item: Member)
      ensures this.item == item && next == null && prev == null
    {
      this.item := item;
      next, prev := null, null;
    }
  }

  ghost function Items(nodes: seq<Node>): (ms: seq<Member>)
    ensures |ms| == |nodes|
    ensures forall i :: 0 <= i < |nodes| ==> ms[i] == nodes[i].item
  {
    seq(|nodes|, i requires 0 <= i < |nodes| => nodes[i].item)
  }

  ghost function Nodes(nodes: seq<Node>): set<Node> {
    set x | x in nodes
  }

  ghost predicate Injective(nodes: seq<Node>) {
    forall i, j :: 0 <= i < j < |nodes| ==> nodes[i] != nodes[j]
  }

  /** The node at position i, null behind the end. */
  ghost function At(nodes: seq<Node>, i: nat): Node? {
    if i < |nodes| then nodes[i] else null
  }

  /** `next` leads through exactly these nodes and stops. */
  ghost predicate NextLinked(nodes: seq<Node>)
    reads Nodes(nodes)
  {
    forall i {:trigger nodes[i].next} :: 0 <= i < |nodes| ==> nodes[i].next == At(nodes, i + 1)
  }

  /** Every node but the first points back to its predecessor. */
  ghost predicate PrevLinked(nodes: seq<Node>)
    reads Nodes(nodes)
  {
    forall i {:trigger nodes[i].prev} :: 1 <= i < |nodes| ==> nodes[i].prev == nodes[i - 1]
  }

  /** A list as sort_list needs it and leaves it: the head's own `prev` is not constrained. */
  ghost predicate Chain(head: Node?, nodes: seq<Node>)
    reads Nodes(nodes)
  {
    Injective(nodes) && head == At(nodes, 0) && NextLinked(nodes) && PrevLinked(nodes)
  }

  /**
   The order in which the merging loop takes the nodes of two lists: m is the merged list and
   t[k] says how many of its first k nodes come from the first list.
   */
  ghost predicate MergeOrder(a: seq<Node>, b: seq<Node>, m: seq<Node>, t: seq<nat>) {
    && |m| == |a| + |b| && |t| == |m| + 1 && t[0] == 0
    && (forall k {:trigger t[k]} :: 0 <= k <= |m| ==> t[k] <= |a| && 0 <= k - t[k] <= |b|)
    && (forall k, l {:trigger t[k], t[l]} :: 0 <= k <= l <= |m| ==> t[k] <= t[l] <= t[k] + (l - k))
    && (forall k {:trigger m[k]} :: 0 <= k < |m| ==> m[k] == if t[k] < t[k + 1] then a[t[k]] else b[k - t[k]])
    && (forall k {:trigger m[k]} :: 0 <= k < |m| && t[k] < |a| && k - t[k] < |b| ==>
          (t[k] < t[k + 1] <==> CompareKeys(a[t[k]].item.key, b[k - t[k]].item.key, false) < 0))
  }

  lemma {:induction false} FindMergeOrder(a: seq<Node>, b: seq<Node>) returns (m: seq<Node>, t: seq<nat>)
    ensures MergeOrder(a, b, m, t)
    ensures multiset(m) == multiset(a) + multiset(b)
    ensures Items(m) == MergeLists(Items(a), Items(b))
    decreases |a| + |b|
  {
    if a == [] || b == [] {
      m, t := OneListOnly(a, b);
    } else if CompareKeys(a[0].item.key, b[0].item.key, false) < 0 {
      var m', t' := FindMergeOrder(a[1..], b);
      m, t := [a[0]] + m', [0] + seq(|t'|, k requires 0 <= k < |t'| => t'[k] + 1);
      MergeOrderCons(a, b, m', t', m, t, true);
      TakeFirst(a, b, m');
      MultisetCons(a, m', a[1..], b, m);
    } else {
      var m', t' := FindMergeOrder(a, b[1..]);
      m, t := [b[0]] + m', [0] + t';
      MergeOrderCons(a, b, m', t', m, t, false);
      TakeSecond(a, b, m');
      MultisetCons(b, m', b[1..], a, m);
    }
  }

  lemma OneListOnly(a: seq<Node>, b: seq<Node>) returns (m: seq<Node>, t: seq<nat>)
    requires a == [] || b == []
    ensures MergeOrder(a, b, m, t)
    ensures multiset(m) == multiset(a) + multiset(b)
    ensures Items(m) == MergeLists(Items(a), Items(b))
  {
    if a == [] {
      m, t := b, seq(|b| + 1, _ => 0);
    } else {
      m, t := a, seq(|a| + 1, k => k);
    }
  }

  lemma MultisetCons(c: seq<Node>, m': seq<Node>, rest: seq<Node>, other: seq<Node>, m: seq<Node>)
    requires c != [] && rest == c[1..] && m == [c[0]] + m' && multiset(m') == multiset(rest) + multiset(other)
    ensures multiset(m) == multiset(c) + multiset(other)
  {
    assert c == [c[0]] + rest;
  }

  lemma ItemsSlice(nodes: seq<Node>, lo: nat, hi: nat)
    requires lo <= hi <= |nodes|
    ensures Items(nodes[lo..hi]) == Items(nodes)[lo..hi]
  {
  }

  lemma TakeFirst(a: seq<Node>, b: seq<Node>, m': seq<Node>)
    requires a != [] && b != [] && CompareKeys(a[0].item.key, b[0].item.key, false) < 0
    requires Items(m') == MergeLists(Items(a[1..]), Items(b))
    ensures Items([a[0]] + m') == MergeLists(Items(a), Items(b))
  {
    ItemsSlice(a, 1, |a|);
    assert a[1..|a|] == a[1..] && Items(a)[1..|a|] == Items(a)[1..];
    assert Items([a[0]] + m') == [a[0].item] + Items(m');
  }

  lemma TakeSecond(a: seq<Node>, b: seq<Node>, m': seq<Node>)
    requires a != [] && b != [] && CompareKeys(a[0].item.key, b[0].item.key, false) >= 0
    requires Items(m') == MergeLists(Items(a), Items(b[1..]))
    ensures Items([b[0]] + m') == MergeLists(Items(a), Items(b))
  {
    ItemsSlice(b, 1, |b|);
    assert b[1..|b|] == b[1..] && Items(b)[1..|b|] == Items(b)[1..];
    assert Items([b[0]] + m') == [b[0].item] + Items(m');
  }

  lemma MergeOrderCons(a: seq<Node>, b: seq<Node>, m': seq<Node>, t': seq<nat>, m: seq<Node>, t: seq<nat>, fromA: bool)
    requires a != [] && b != [] && fromA == (CompareKeys(a[0].item.key, b[0].item.key, false) < 0)
    requires if fromA then MergeOrder(a[1..], b, m', t') else MergeOrder(a, b[1..], m', t')
    requires m == [if fromA then a[0] else b[0]] + m'
    requires |t| == |t'| + 1 && t[0] == 0
    requires forall k :: 0 <= k < |t'| ==> t[k + 1] == t'[k] + if fromA then 1 else 0
    ensures MergeOrder(a, b, m, t)
  {
    ConsCounts(a, b, m', t', m, t, fromA);
    ConsItems(a, b, m', t', m, t, fromA);
  }

  lemma ConsCounts(a: seq<Node>, b: seq<Node>, m': seq<Node>, t': seq<nat>, m: seq<Node>, t: seq<nat>, fromA: bool)
    requires a != [] && b != [] && fromA == (CompareKeys(a[0].item.key, b[0].item.key, false) < 0)
    requires if fromA then MergeOrder(a[1..], b, m', t') else MergeOrder(a, b[1..], m', t')
    requires m == [if fromA then a[0] else b[0]] + m'
    requires |t| == |t'| + 1 && t[0] == 0
    requires forall k :: 0 <= k < |t'| ==> t[k + 1] == t'[k] + if fromA then 1 else 0
    ensures forall k {:trigger t[k]} :: 0 <= k <= |m| ==> t[k] <= |a| && 0 <= k - t[k] <= |b|
    ensures forall k, l {:trigger t[k], t[l]} :: 0 <= k <= l <= |m| ==> t[k] <= t[l] <= t[k] + (l - k)
  {
    forall k | 0 <= k <= |m| ensures t[k] <= |a| && 0 <= k - t[k] <= |b| {
      if k > 0 { assert t[k] == t'[k - 1] + if fromA then 1 else 0; }
    }
    forall k, l | 0 <= k <= l <= |m| ensures t[k] <= t[l] <= t[k] + (l - k) {
      if k > 0 { assert t[k] == t'[k - 1] + if fromA then 1 else 0; }
      if l > 0 { assert t[l] == t'[l - 1] + if fromA then 1 else 0; }
    }
  }

  lemma ConsItems(a: seq<Node>, b: seq<Node>, m': seq<Node>, t': seq<nat>, m: seq<Node>, t: seq<nat>, fromA: bool)
    requires a != [] && b != [] && fromA == (CompareKeys(a[0].item.key, b[0].item.key, false) < 0)
    requires if fromA then MergeOrder(a[1..], b, m', t') else MergeOrder(a, b[1..], m', t')
    requires m == [if fromA then a[0] else b[0]] + m'
    requires |t| == |t'| + 1 && t[0] == 0
    requires forall k :: 0 <= k < |t'| ==> t[k + 1] == t'[k] + if fromA then 1 else 0
    requires forall k {:trigger t[k]} :: 0 <= k <= |m| ==> t[k] <= |a| && 0 <= k - t[k] <= |b|
    requires forall k, l {:trigger t[k], t[l]} :: 0 <= k <= l <= |m| ==> t[k] <= t[l] <= t[k] + (l - k)
    ensures MergeOrder(a, b, m, t)
  {
    forall k | 0 <= k < |m| ensures m[k] == if t[k] < t[k + 1] then a[t[k]] else b[k - t[k]] {
      assert t[k + 1] == t'[k] + if fromA then 1 else 0;
      if k > 0 {
        assert t[k] == t'[k - 1] + if fromA then 1 else 0;
        assert m[k] == m'[k - 1];
      }
    }
    forall k | 0 <= k < |m| && t[k] < |a| && k - t[k] < |b|
      ensures t[k] < t[k + 1] <==> CompareKeys(a[t[k]].item.key, b[k - t[k]].item.key, false) < 0
    {
      assert t[k + 1] == t'[k] + if fromA then 1 else 0;
      if k > 0 {
        assert t[k] == t'[k - 1] + if fromA then 1 else 0;
        assert m[k] == m'[k - 1];
      }
    }
  }

  /** Nodes merged from two disjoint injective lists are distinct. */
  lemma MergeOrderInjective(a: seq<Node>, b: seq<Node>, m: seq<Node>, t: seq<nat>)
    requires MergeOrder(a, b, m, t) && Injective(a) && Injective(b) && Nodes(a) !! Nodes(b)
    ensures Injective(m)
  {
    forall k, l | 0 <= k < l < |m| ensures m[k] != m[l] {
      assert t[k + 1] <= t[l];
      if t[k] < t[k + 1] && t[l] < t[l + 1] {
      } else if !(t[k] < t[k + 1]) && !(t[l] < t[l + 1]) {
        assert k - t[k] < l - t[l];
      } else if t[k] < t[k + 1] {
        assert m[k] in Nodes(a) && m[l] in Nodes(b);
      } else {
        assert m[k] in Nodes(b) && m[l] in Nodes(a);
      }
    }
  }

  lemma SameNodes(a: seq<Node>, b: seq<Node>)
    requires multiset(a) == multiset(b)
    ensures Nodes(a) == Nodes(b)
  {
    forall x ensures x in Nodes(a) <==> x in Nodes(b) {
      assert x in multiset(a) <==> x in multiset(b);
    }
  }

  /** The first n nodes of the merged list are linked to each other. */
  ghost predicate Linked(m: seq<Node>, n: nat, result: Node?, tail: Node?)
    reads Nodes(m)
  {
    && n <= |m|
    && (n == 0 ==> result == null && tail == null)
    && (n > 0 ==> result == m[0] && tail == m[n - 1])
    && (forall k {:trigger m[k].next} :: 0 <= k < n - 1 ==> m[k].next == m[k + 1])
    && (forall k {:trigger m[k].prev} :: 1 <= k < n ==> m[k].prev == m[k - 1])
  }

  /** How the merging loop appends a node: the only two pointers it writes. */
  method Append(result: Node?, tail: Node?, smaller: Node, ghost m: seq<Node>, ghost n: nat) returns (result': Node)
    requires Injective(m) && n < |m| && smaller == m[n] && Linked(m, n, result, tail)
    modifies (if tail == null then {} else {tail})`next, smaller`prev
    ensures Linked(m, n + 1, result', smaller)
    ensures n == 0 ==> smaller.prev == old(smaller.prev)
  {
    if result == null {
      result' := smaller;
    } else {
      result' := result;
      tail.next := smaller;
      smaller.prev := tail;
    }
  }

  /** The nodes that are left when one list has run out. */
  ghost predicate Remaining(m: seq<Node>, n: nat, c: seq<Node>, i: nat) {
    i <= |c| && |m| - n == |c| - i && forall k :: n <= k < |m| ==> m[k] == c[i + (k - n)]
  }

  lemma RestOfFirst(a: seq<Node>, b: seq<Node>, m: seq<Node>, t: seq<nat>, n: nat)
    requires MergeOrder(a, b, m, t) && n <= |m| && n - t[n] == |b|
    ensures Remaining(m, n, a, t[n])
  {
    forall k | n <= k < |m| ensures m[k] == a[t[n] + (k - n)] {
      assert t[n] <= t[k] <= t[k + 1];
      assert k - t[k] <= |b| && k + 1 - t[k + 1] <= |b|;
      assert t[k] <= t[n] + (k - n) && t[k + 1] <= t[n] + (k + 1 - n);
    }
  }

  lemma RestOfSecond(a: seq<Node>, b: seq<Node>, m: seq<Node>, t: seq<nat>, n: nat)
    requires MergeOrder(a, b, m, t) && n <= |m| && t[n] == |a|
    ensures Remaining(m, n, b, n - t[n])
  {
    forall k | n <= k < |m| ensures m[k] == b[(n - t[n]) + (k - n)] {
      assert t[n] <= t[k] <= t[k + 1] <= |a|;
    }
  }

  /** How sort_list appends the rest of the list that has not run out. */
  method AppendRest(result: Node?, tail: Node?, rest: Node, ghost m: seq<Node>, ghost n: nat, ghost c: seq<Node>,
                    ghost i: nat)
    returns (result': Node)
    requires Injective(m) && Linked(m, n, result, tail)
    requires i < |c| && rest == c[i] && Remaining(m, n, c, i)
    requires Rest(c, i)
    modifies (if tail == null then {} else {tail})`next, rest`prev
    ensures Chain(result', m)
    ensures n == 0 ==> result'.prev == old(result'.prev)
  {
    assert m[n] == rest;
    assert forall k {:trigger m[k].next} :: n <= k < |m| ==> m[k].next == At(m, k + 1);
    assert forall k {:trigger m[k].prev} :: n < k < |m| ==> m[k].prev == m[k - 1];
    if result == null {
      return rest;
    }
    result' := result;
    tail.next := rest;
    rest.prev := tail;
  }

  /** The nodes not yet taken from a list still follow one another. */
  ghost predicate Rest(c: seq<Node>, i: nat)
    reads Nodes(c)
  {
    && (forall k {:trigger c[k].next} :: i <= k < |c| ==> c[k].next == At(c, k + 1))
    && (forall k {:trigger c[k].prev} :: i < k < |c| ==> c[k].prev == c[k - 1])
  }

  /** Nodes not yet taken are none of the two nodes that one round of the merging loop writes. */
  lemma Untouched(a: seq<Node>, b: seq<Node>, m: seq<Node>, t: seq<nat>, n: nat)
    requires MergeOrder(a, b, m, t) && Injective(a) && Injective(b) && Nodes(a) !! Nodes(b) && n < |m|
    ensures forall k {:trigger a[k]} :: t[n + 1] <= k < |a| ==> a[k] != m[n]
    ensures forall k {:trigger b[k]} :: n + 1 - t[n + 1] <= k < |b| ==> b[k] != m[n]
    ensures n > 0 ==> forall k {:trigger a[k]} :: t[n] <= k < |a| ==> a[k] != m[n - 1]
    ensures n > 0 ==> forall k {:trigger b[k]} :: n - t[n] <= k < |b| ==> b[k] != m[n - 1]
  {
    UntouchedOne(a, b, m, t, n);
    if n > 0 {
      UntouchedOne(a, b, m, t, n - 1);
    }
  }

  lemma UntouchedOne(a: seq<Node>, b: seq<Node>, m: seq<Node>, t: seq<nat>, n: nat)
    requires MergeOrder(a, b, m, t) && Injective(a) && Injective(b) && Nodes(a) !! Nodes(b) && n < |m|
    ensures forall k {:trigger a[k]} :: t[n + 1] <= k < |a| ==> a[k] != m[n]
    ensures forall k {:trigger b[k]} :: n + 1 - t[n + 1] <= k < |b| ==> b[k] != m[n]
  {
    assert t[n] <= t[n + 1] <= t[n] + 1;
    forall k | t[n + 1] <= k < |a| ensures a[k] != m[n] {
      assert a[k] in Nodes(a);
      if t[n] == t[n + 1] { assert m[n] in Nodes(b); }
    }
    forall k | n + 1 - t[n + 1] <= k < |b| ensures b[k] != m[n] {
      assert b[k] in Nodes(b);
      if t[n] < t[n + 1] { assert m[n] in Nodes(a); }
    }
  }

  /** The state of the merging loop after n rounds. */
  ghost predicate Merging(a: seq<Node>, b: seq<Node>, m: seq<Node>, t: seq<nat>, n: nat,
                          first: Node?, second: Node?, result: Node?, tail: Node?)
    reads Nodes(a), Nodes(b), Nodes(m)
  {
    && Injective(a) && Injective(b) && Nodes(a) !! Nodes(b) && MergeOrder(a, b, m, t) && Injective(m)
    && n <= |m| && (n == |m| ==> n == 0)
    && first == At(a, t[n]) && second == At(b, n - t[n])
    && Rest(a, t[n]) && Rest(b, n - t[n]) && Linked(m, n, result, tail)
  }

  /** One round of the merging loop. */
  method TakeSmaller(first: Node, second: Node, result: Node?, tail: Node?,
                     ghost a: seq<Node>, ghost b: seq<Node>, ghost m: seq<Node>, ghost t: seq<nat>, ghost n: nat)
    returns (first': Node?, second': Node?, result': Node, tail': Node)
    requires Merging(a, b, m, t, n, first, second, result, tail)
    modifies (if tail == null then {} else {tail})`next, (m[n] as Node)`prev
    ensures Merging(a, b, m, t, n + 1, first', second', result', tail')
    ensures if n == 0 then result'.prev == old(result'.prev) else result' == result && result'.prev == old(result'.prev)
  {
    Untouched(a, b, m, t, n);
    assert first in Nodes(a) && second in Nodes(b);
    var smaller: Node;
    var diff := CompareStrings(first.item.key, second.item.key, false);
    if diff < 0 {
      smaller := first;
    } else {
      smaller := second;
    }
    assert smaller == m[n];
    result' := Append(result, tail, smaller, m, n);
    tail' := smaller;
    first', second' := first, second;
    if first == smaller {
      first' := first.next;
    } else {
      second' := second.next;
    }
  }

  /** The end of sort_list: at most one of the two lists has nodes left. */
  method AppendRests(result: Node?, tail: Node?, first: Node?, second: Node?,
                     ghost a: seq<Node>, ghost b: seq<Node>, ghost m: seq<Node>, ghost t: seq<nat>, ghost n: nat)
    returns (result': Node?)
    requires Merging(a, b, m, t, n, first, second, result, tail) && (first == null || second == null)
    modifies (if tail == null then {} else {tail})`next, (if n < |m| then {m[n]} else {})`prev
    ensures Chain(result', m)
    ensures n == 0 && result' != null ==> result'.prev == old(result'.prev)
    ensures n > 0 ==> result' == result && result.prev == old(result.prev)
  {
    result' := result;
    if first != null {
      RestOfFirst(a, b, m, t, n);
      result' := AppendRest(result', tail, first, m, n, a, t[n]);
    }
    if second != null {
      RestOfSecond(a, b, m, t, n);
      result' := AppendRest(result', tail, second, m, n, b, n - t[n]);
    }
  }

  /** The merging loop of sort_list. */
  method MergeLoop(first0: Node?, second0: Node?, ghost a: seq<Node>, ghost b: seq<Node>, ghost m: seq<Node>,
                   ghost t: seq<nat>)
    returns (first: Node?, second: Node?, result: Node?, tail: Node?, ghost n: nat)
    requires Merging(a, b, m, t, 0, first0, second0, null, null)
    modifies Nodes(m)
    ensures Merging(a, b, m, t, n, first, second, result, tail) && (first == null || second == null)
    ensures m != [] ==> m[0] in Nodes(m) && m[0].prev == old(m[0].prev)
  {
    first, second, result, tail, n := first0, second0, null, null, 0;
    assert m != [] ==> m[0] in Nodes(m);
    while first != null && second != null
      invariant Merging(a, b, m, t, n, first, second, result, tail)
      invariant m != [] ==> m[0].prev == old(m[0].prev)
      decreases |m| - n
    {
      assert m[n] in Nodes(m) && (n > 0 ==> m[n - 1] in Nodes(m)) && m[0] in Nodes(m);
      first, second, result, tail := TakeSmaller(first, second, result, tail, a, b, m, t, n);
      n := n + 1;
    }
  }

  /** The merge of two sorted lists. */
  method MergeChains(first0: Node?, second0: Node?, ghost a: seq<Node>, ghost b: seq<Node>, ghost m: seq<Node>,
                     ghost t: seq<nat>)
    returns (result: Node?)
    requires Merging(a, b, m, t, 0, first0, second0, null, null)
    modifies Nodes(m)
    ensures Chain(result, m)
    ensures result != null ==> result in Nodes(m) && result.prev == old(result.prev)
  {
    var first, second, tail;
    ghost var n;
    first, second, result, tail, n := MergeLoop(first0, second0, a, b, m, t);
    assert (n < |m| ==> m[n] in Nodes(m)) && (n > 0 ==> m[n - 1] in Nodes(m)) && (m != [] ==> m[0] in Nodes(m));
    result := AppendRests(result, tail, first, second, a, b, m, t, n);
  }

  /** The walk of two pointers that finds the middle, and the cut in front of it. */
  method SplitChain(list: Node, ghost nodes: seq<Node>) returns (second: Node?, ghost middle: nat)
    requires Chain(list, nodes) && |nodes| >= 2
    modifies Nodes(nodes)
    ensures middle == (|nodes| + 1) / 2 && 0 < middle < |nodes|
    ensures Chain(list, nodes[..middle]) && Chain(second, nodes[middle..])
    ensures forall x :: x in nodes ==> x.prev == old(x.prev)
  {
    second := list;
    var current: Node? := list;
    ghost var s, c := 0, 0;
    while current != null
      invariant 0 <= s <= c <= |nodes| && (c == 2 * s || (c == |nodes| && c + 1 == 2 * s))
      invariant current == At(nodes, c) && second == At(nodes, s)
      decreases |nodes| - c
    {
      second := second.next;
      s := s + 1;
      current := current.next;
      c := c + 1;
      if current != null {
        current := current.next;
        c := c + 1;
      }
    }
    middle := s;
    assert second.prev == nodes[s - 1];
    if second != null && second.prev != null {
      second.prev.next := null;
    }
  }

  lemma SortHalvesSpec(ms: seq<Member>, cs: bool, middle: nat)
    requires |ms| >= 2 && !Increasing(ms, cs) && middle == (|ms| + 1) / 2
    ensures SortMembers(ms, cs) == MergeLists(SortMembers(ms[..middle], cs), SortMembers(ms[middle..], cs))
  {
  }

  lemma SortUnfold(nodes: seq<Node>, cs: bool, middle: nat)
    requires |nodes| >= 2 && !Increasing(Items(nodes), cs) && middle == (|nodes| + 1) / 2
    ensures SortMembers(Items(nodes), cs) ==
            MergeLists(SortMembers(Items(nodes[..middle]), cs), SortMembers(Items(nodes[middle..]), cs))
  {
    SortHalvesSpec(Items(nodes), cs, middle);
    ItemsHalves(nodes, middle);
  }

  lemma ItemsHalves(nodes: seq<Node>, middle: nat)
    requires middle <= |nodes|
    ensures Items(nodes[..middle]) == Items(nodes)[..middle] && Items(nodes[middle..]) == Items(nodes)[middle..]
  {
    var ms := Items(nodes);
    ItemsSlice(nodes, 0, middle);
    ItemsSlice(nodes, middle, |nodes|);
    assert nodes[0..middle] == nodes[..middle] && nodes[middle..|nodes|] == nodes[middle..];
    assert ms[0..middle] == ms[..middle] && ms[middle..|nodes|] == ms[middle..];
  }

  /** The test at the top of sort_list: is every key less than the next? */
  method IsIncreasing(list: Node, cs: bool, ghost nodes: seq<Node>) returns (increasing: bool)
    requires Chain(list, nodes)
    ensures increasing == Increasing(Items(nodes), cs)
  {
    var current := list;
    ghost var c := 0;
    while current.next != null
      invariant 0 <= c < |nodes| && current == nodes[c]
      invariant forall i :: 0 < i <= c ==> CompareKeys(nodes[i - 1].item.key, nodes[i].item.key, cs) < 0
      decreases |nodes| - c
    {
      var diff := CompareStrings(current.item.key, current.next.item.key, cs);
      if diff >= 0 {
        assert CompareKeys(Items(nodes)[c].key, Items(nodes)[c + 1].key, cs) >= 0;
        return false;
      }
      current := current.next;
      c := c + 1;
    }
    return true;
  }

  /** sort_list: relinks the nodes into a list whose members are the merge sort of the members. */
  method SortList(list: Node?, cs: bool, ghost nodes: seq<Node>) returns (result: Node?, ghost sorted: seq<Node>)
    requires Chain(list, nodes)
    modifies Nodes(nodes)
    ensures Chain(result, sorted)
    ensures multiset(sorted) == multiset(nodes)
    ensures Items(sorted) == SortMembers(Items(nodes), cs)
    ensures result != null ==> result in nodes && result.prev == old(result.prev)
    ensures nodes != [] ==> result == nodes[HeadIndex(Items(nodes), cs)]
    decreases |nodes|, 1
  {
    if list == null || list.next == null {
      return list, nodes;
    }
    var increasing := IsIncreasing(list, cs, nodes);
    if increasing {
      return list, nodes;
    }
    var second, middle := SplitChain(list, nodes);
    HalvesApart(nodes, middle);
    SortUnfold(nodes, cs, middle);
    HeadUnfold(nodes, cs, middle);
    result, sorted := SortHalves(list, second, cs, nodes[..middle], nodes[middle..]);
  }

  lemma HeadUnfold(nodes: seq<Node>, cs: bool, middle: nat)
    requires |nodes| >= 2 && !Increasing(Items(nodes), cs) && middle == (|nodes| + 1) / 2
    ensures var x, y := nodes[..middle][HeadIndex(Items(nodes[..middle]), cs)],
                        nodes[middle..][HeadIndex(Items(nodes[middle..]), cs)];
            nodes[HeadIndex(Items(nodes), cs)] == if CompareKeys(x.item.key, y.item.key, false) < 0 then x else y
  {
    var ms := Items(nodes);
    ItemsHalves(nodes, middle);
    var i, j := HeadIndex(ms[..middle], cs), HeadIndex(ms[middle..], cs);
    HeadOfHalves(ms, cs, middle, i, j);
    assert nodes[..middle][i] == nodes[i] && nodes[middle..][j] == nodes[middle + j];
  }

  lemma HeadOfHalves(ms: seq<Member>, cs: bool, middle: nat, i: nat, j: nat)
    requires |ms| >= 2 && !Increasing(ms, cs) && middle == (|ms| + 1) / 2
    requires i == HeadIndex(ms[..middle], cs) && j == HeadIndex(ms[middle..], cs)
    ensures i < middle && middle + j < |ms|
    ensures HeadIndex(ms, cs) == if CompareKeys(ms[i].key, ms[middle + j].key, false) < 0 then i else middle + j
  {
  }

  lemma HalvesApart(nodes: seq<Node>, middle: nat)
    requires Injective(nodes) && middle <= |nodes|
    ensures Nodes(nodes[..middle]) !! Nodes(nodes[middle..])
    ensures Nodes(nodes[..middle]) + Nodes(nodes[middle..]) == Nodes(nodes)
    ensures multiset(nodes) == multiset(nodes[..middle]) + multiset(nodes[middle..])
  {
    assert nodes == nodes[..middle] + nodes[middle..];
  }

  lemma BothNodes(m: seq<Node>, a: seq<Node>, b: seq<Node>)
    requires multiset(m) == multiset(a) + multiset(b)
    ensures Nodes(m) == Nodes(a) + Nodes(b)
  {
    assert multiset(m) == multiset(a + b);
    SameNodes(m, a + b);
  }

  /** The recursive calls of sort_list and the merge after them. */
  method SortHalves(first: Node?, second: Node?, cs: bool, ghost a: seq<Node>, ghost b: seq<Node>)
    returns (result: Node?, ghost sorted: seq<Node>)
    requires Chain(first, a) && Chain(second, b)
    requires Nodes(a) !! Nodes(b) && a != [] && b != []
    modifies Nodes(a) + Nodes(b)
    ensures Chain(result, sorted)
    ensures multiset(sorted) == multiset(a) + multiset(b)
    ensures Items(sorted) == MergeLists(SortMembers(Items(a), cs), SortMembers(Items(b), cs))
    ensures result != null ==> (result in a || result in b) && result.prev == old(result.prev)
    ensures var x, y := a[HeadIndex(Items(a), cs)], b[HeadIndex(Items(b), cs)];
            result == if CompareKeys(x.item.key, y.item.key, false) < 0 then x else y
    decreases |a| + |b|, 0
  {
    var first', a' := SortList(first, cs, a);
    SameNodes(a, a');
    var second', b' := SortList(second, cs, b);
    SameNodes(b, b');
    result, sorted := MergeSorted(first', second', a', b');
  }

  /** The merge of two chains with nodes of their own. */
  method MergeSorted(first: Node?, second: Node?, ghost a: seq<Node>, ghost b: seq<Node>)
    returns (result: Node?, ghost sorted: seq<Node>)
    requires Chain(first, a) && Chain(second, b)
    requires Nodes(a) !! Nodes(b) && a != [] && b != []
    modifies Nodes(a) + Nodes(b)
    ensures Chain(result, sorted)
    ensures multiset(sorted) == multiset(a) + multiset(b)
    ensures Items(sorted) == MergeLists(Items(a), Items(b))
    ensures result != null && (result in a || result in b) && result.prev == old(result.prev)
    ensures result == if CompareKeys(a[0].item.key, b[0].item.key, false) < 0 then a[0] else b[0]
  {
    ghost var t;
    sorted, t := FindMergeOrder(a, b);
    MergeOrderInjective(a, b, sorted, t);
    BothNodes(sorted, a, b);
    MergeHead(a, b, sorted, t);
    result := MergeChains(first, second, a, b, sorted, t);
  }

  lemma MergeHead(a: seq<Node>, b: seq<Node>, m: seq<Node>, t: seq<nat>)
    requires MergeOrder(a, b, m, t) && a != [] && b != []
    ensures m != [] && m[0] == if CompareKeys(a[0].item.key, b[0].item.key, false) < 0 then a[0] else b[0]
  {
    assert m[0] == if t[0] < t[1] then a[t[0]] else b[0 - t[0]];
  }
}
