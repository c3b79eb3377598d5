/**
 What sorting in place leaves alone. compare_json, create_patches and generate_merge_patch sort the objects they
 visit, so afterwards their operands hold the same members in another order.
 */
module Rearranged {
  import opened CStrings
  import opened Json
  import opened Sorting
  import opened Compare

  /** Whatever does not look at the order of members is in the second item as it was in the first. */
  ghost predicate Keeps(v: JSON, w: JSON) {
    && Size(w) == Size(v)
    && (forall cs :: DistinctKeys(v, cs) ==> DistinctKeys(w, cs) && Canon(w, cs) == Canon(v, cs))
    && (forall names :: KeysIn(v, names) ==> KeysIn(w, names))
    && (Plain(v) ==> Plain(w))
  }

  lemma KeepsThen(u: JSON, v: JSON, w: JSON)
    requires Keeps(u, v) && Keeps(v, w)
    ensures Keeps(u, w)
  {
  }

  // ---------- sorting ----------

  lemma {:induction false} SizeOfMerged(a: seq<Member>, b: seq<Member>)
    ensures SizeOfMembers(MergeLists(a, b)) == SizeOfMembers(a) + SizeOfMembers(b)
  {
    if a != [] && b != [] {
      if CompareKeys(a[0].key, b[0].key, false) < 0 {
        SizeOfMerged(a[1..], b);
        assert MergeLists(a, b)[1..] == MergeLists(a[1..], b);
      } else {
        SizeOfMerged(a, b[1..]);
        assert MergeLists(a, b)[1..] == MergeLists(a, b[1..]);
      }
    }
  }

  lemma {:induction false} SizeOfParts(ms: seq<Member>, n: nat)
    requires n <= |ms|
    ensures SizeOfMembers(ms) == SizeOfMembers(ms[..n]) + SizeOfMembers(ms[n..])
    decreases n
  {
    if n == 0 {
      assert ms[..0] == [] && ms[0..] == ms;
    } else {
      SizeOfParts(ms[1..], n - 1);
      assert ms[1..][..n - 1] == ms[..n][1..] && ms[1..][n - 1..] == ms[n..];
    }
  }

  lemma {:induction false} SizeOfSorted(ms: seq<Member>, cs: bool)
    ensures SizeOfMembers(SortMembers(ms, cs)) == SizeOfMembers(ms)
    decreases |ms|
  {
    if |ms| >= 2 && !Increasing(ms, cs) {
      var middle := (|ms| + 1) / 2;
      SizeOfSorted(ms[..middle], cs);
      SizeOfSorted(ms[middle..], cs);
      SizeOfMerged(SortMembers(ms[..middle], cs), SortMembers(ms[middle..], cs));
      SizeOfParts(ms, middle);
    }
  }

  lemma SortedIn(ms: seq<Member>, names: iset<CStr>, cs: bool)
    requires KeysIn(Object(ms), names)
    ensures KeysIn(Object(SortMembers(ms, cs)), names)
  {
    var xs := SortMembers(ms, cs);
    SortPermutes(ms, cs);
    forall i | 0 <= i < |xs| ensures xs[i].key in names && KeysIn(xs[i].value, names) {
      assert xs[i] in multiset(xs);
      assert xs[i] in ms;
    }
  }

  lemma SortedMembers(ms: seq<Member>, flag: bool)
    ensures forall i :: 0 <= i < |SortMembers(ms, flag)| ==> SortMembers(ms, flag)[i] in ms
  {
    var r := SortMembers(ms, flag);
    SortPermutes(ms, flag);
    forall i | 0 <= i < |r| ensures r[i] in ms {
      assert r[i] in multiset(r);
    }
  }

  lemma SortedDistinct(ms: seq<Member>, flag: bool, cs: bool)
    requires DistinctKeys(Object(ms), cs)
    ensures DistinctKeys(Object(SortMembers(ms, flag)), cs)
  {
    SortedMembers(ms, flag);
    SortPermutes(ms, flag);
    PermutedDistinct(ms, SortMembers(ms, flag), cs);
  }

  /** sort_object rearranges. */
  lemma KeepsSorted(ms: seq<Member>, flag: bool)
    ensures Keeps(Object(ms), Object(SortMembers(ms, flag)))
  {
    var v, w := Object(ms), Object(SortMembers(ms, flag));
    SizeOfSorted(ms, flag);
    forall cs | DistinctKeys(v, cs) ensures DistinctKeys(w, cs) && Canon(w, cs) == Canon(v, cs) {
      SortedDistinct(ms, flag, cs);
      SortKeepsMeaning(ms, cs, flag);
    }
    forall names | KeysIn(v, names) ensures KeysIn(w, names) {
      SortedIn(ms, names, flag);
    }
    SortedMembers(ms, flag);
  }

  // ---------- inside ----------

  lemma {:induction false} SizeOfSameItems(xs: seq<JSON>, ys: seq<JSON>)
    requires |xs| == |ys| && forall i :: 0 <= i < |xs| ==> Size(xs[i]) == Size(ys[i])
    ensures SizeOfItems(xs) == SizeOfItems(ys)
    decreases |xs|
  {
    if xs != [] {
      SizeOfSameItems(xs[1..], ys[1..]);
    }
  }

  lemma KeepsItems(xs: seq<JSON>, ys: seq<JSON>)
    requires |xs| == |ys| && forall i :: 0 <= i < |xs| ==> Keeps(xs[i], ys[i])
    ensures Keeps(Array(xs), Array(ys))
  {
    SizeOfSameItems(xs, ys);
    forall cs | DistinctKeys(Array(xs), cs)
      ensures DistinctKeys(Array(ys), cs) && Canon(Array(ys), cs) == Canon(Array(xs), cs)
    {
      forall i | 0 <= i < |xs| ensures DistinctKeys(ys[i], cs) && Canon(ys[i], cs) == Canon(xs[i], cs) {
        assert Keeps(xs[i], ys[i]);
      }
    }
    forall names | KeysIn(Array(xs), names) ensures KeysIn(Array(ys), names) {
      forall i | 0 <= i < |xs| ensures KeysIn(ys[i], names) {
        assert Keeps(xs[i], ys[i]);
      }
    }
  }

  /** The same names in the same order, and values that are kept. */
  ghost predicate Pairwise(xs: seq<Member>, ys: seq<Member>) {
    |xs| == |ys| && forall i :: 0 <= i < |xs| ==> xs[i].key == ys[i].key && Keeps(xs[i].value, ys[i].value)
  }

  lemma {:induction false} SizeOfPairs(xs: seq<Member>, ys: seq<Member>)
    requires Pairwise(xs, ys)
    ensures SizeOfMembers(xs) == SizeOfMembers(ys)
    decreases |xs|
  {
    if xs != [] {
      SizeOfPairs(xs[1..], ys[1..]);
    }
  }

  lemma {:induction false} MeaningOfPairs(xs: seq<Member>, ys: seq<Member>, cs: bool)
    requires Pairwise(xs, ys) && forall i :: 0 <= i < |xs| ==> DistinctKeys(xs[i].value, cs)
    ensures CanonMembers(xs, cs) == CanonMembers(ys, cs)
    decreases |xs|
  {
    if xs != [] {
      assert Keeps(xs[0].value, ys[0].value);
      MeaningOfPairs(xs[1..], ys[1..], cs);
    }
  }

  lemma KeepsPairs(xs: seq<Member>, ys: seq<Member>)
    requires Pairwise(xs, ys)
    ensures Keeps(Object(xs), Object(ys))
  {
    SizeOfPairs(xs, ys);
    forall cs | DistinctKeys(Object(xs), cs)
      ensures DistinctKeys(Object(ys), cs) && CanonMembers(ys, cs) == CanonMembers(xs, cs)
    {
      MeaningOfPairs(xs, ys, cs);
      forall i | 0 <= i < |ys| ensures DistinctKeys(ys[i].value, cs) {
        assert Keeps(xs[i].value, ys[i].value);
      }
    }
    forall names | KeysIn(Object(xs), names) ensures KeysIn(Object(ys), names) {
      forall i | 0 <= i < |ys| ensures ys[i].key in names && KeysIn(ys[i].value, names) {
        assert Keeps(xs[i].value, ys[i].value) && xs[i].key in names;
      }
    }
  }

  lemma PairwiseCons(xs: seq<Member>, v: JSON, rest: seq<Member>)
    requires xs != [] && Keeps(xs[0].value, v) && Pairwise(xs[1..], rest)
    ensures Pairwise(xs, [Member(xs[0].key, v)] + rest)
  {
    var ys := [Member(xs[0].key, v)] + rest;
    forall i | 0 <= i < |xs| ensures xs[i].key == ys[i].key && Keeps(xs[i].value, ys[i].value) {
      if i > 0 {
        assert xs[i] == xs[1..][i - 1] && ys[i] == rest[i - 1];
      }
    }
  }

  /** Sorted, and then rearranged inside. */
  lemma KeepsObject(ms: seq<Member>, flag: bool, ys: seq<Member>)
    requires Pairwise(SortMembers(ms, flag), ys)
    ensures Keeps(Object(ms), Object(ys))
  {
    KeepsSorted(ms, flag);
    KeepsPairs(SortMembers(ms, flag), ys);
    KeepsThen(Object(ms), Object(SortMembers(ms, flag)), Object(ys));
  }
}
