/**
 What sort_list does to the member list of an object: a merge sort that leaves a strictly
 increasing list alone, and that merges ignoring case whatever the flag says.
 */
module Sorting {
  import opened CStrings
  import opened Json

  predicate Increasing(ms: seq<Member>, cs: bool) {
    forall i :: 0 < i < |ms| ==> CompareKeys(ms[i - 1].key, ms[i].key, cs) < 0
  }

  function MergeLists(a: seq<Member>, b: seq<Member>): seq<Member> {
    if a == [] then b
    else if b == [] then a
    else if CompareKeys(a[0].key, b[0].key, false) < 0 then [a[0]] + MergeLists(a[1..], b)
    else [b[0]] + MergeLists(a, b[1..])
  }

  function SortMembers(ms: seq<Member>, cs: bool): seq<Member>
    decreases |ms|
  {
    if |ms| < 2 || Increasing(ms, cs) then ms
    else
      var middle := (|ms| + 1) / 2;
      MergeLists(SortMembers(ms[..middle], cs), SortMembers(ms[middle..], cs))
  }

  ghost predicate Ordered(ms: seq<Member>) {
    forall i, j :: 0 <= i < j < |ms| ==> CompareKeys(ms[i].key, ms[j].key, false) <= 0
  }

  lemma MultisetCons(m: Member, ms: seq<Member>)
    ensures multiset([m] + ms) == multiset{m} + multiset(ms)
  {
  }

  lemma {:induction false} MergePermutes(a: seq<Member>, b: seq<Member>)
    ensures multiset(MergeLists(a, b)) == multiset(a) + multiset(b)
  {
    if a != [] && b != [] {
      assert a == [a[0]] + a[1..] && b == [b[0]] + b[1..];
      if CompareKeys(a[0].key, b[0].key, false) < 0 {
        MergePermutes(a[1..], b);
        MultisetCons(a[0], a[1..]);
        MultisetCons(a[0], MergeLists(a[1..], b));
      } else {
        MergePermutes(a, b[1..]);
        MultisetCons(b[0], b[1..]);
        MultisetCons(b[0], MergeLists(a, b[1..]));
      }
    }
  }

  lemma SplitMultiset(ms: seq<Member>, i: nat)
    requires i <= |ms|
    ensures multiset(ms) == multiset(ms[..i]) + multiset(ms[i..])
  {
    assert ms == ms[..i] + ms[i..];
  }

  lemma {:induction false} SortPermutes(ms: seq<Member>, cs: bool)
    ensures multiset(SortMembers(ms, cs)) == multiset(ms)
    decreases |ms|
  {
    if |ms| < 2 || Increasing(ms, cs) {
    } else {
      var middle := (|ms| + 1) / 2;
      var a, b := ms[..middle], ms[middle..];
      SortPermutes(a, cs);
      SortPermutes(b, cs);
      MergePermutes(SortMembers(a, cs), SortMembers(b, cs));
      SplitMultiset(ms, middle);
    }
  }

  /** A head not after anything else keeps a list ordered. */
  lemma OrderedCons(m: Member, ms: seq<Member>)
    requires Ordered(ms)
    requires forall x :: x in ms ==> CompareKeys(m.key, x.key, false) <= 0
    ensures Ordered([m] + ms)
  {
    var r := [m] + ms;
    forall i, j | 0 <= i < j < |r| ensures CompareKeys(r[i].key, r[j].key, false) <= 0 {
      assert r[j] == ms[j - 1] && r[j] in ms;
      if i > 0 {
        assert r[i] == ms[i - 1];
      }
    }
  }

  /** What is before the head of an ordered list is before all of it. */
  lemma BeforeHead(k: CStr, ms: seq<Member>)
    requires Ordered(ms) && ms != [] && CompareKeys(k, ms[0].key, false) <= 0
    ensures forall x :: x in ms ==> CompareKeys(k, x.key, false) <= 0
  {
    forall x | x in ms ensures CompareKeys(k, x.key, false) <= 0 {
      var i :| 0 <= i < |ms| && ms[i] == x;
      CompareKeysOrder(k, ms[0].key, x.key, false);
      CompareKeysOrder(x.key, k, k, false);
      CompareKeysOrder(k, x.key, x.key, false);
    }
  }

  lemma {:induction false} MergeOrdered(a: seq<Member>, b: seq<Member>)
    requires Ordered(a) && Ordered(b)
    ensures Ordered(MergeLists(a, b))
  {
    if a == [] || b == [] {
    } else {
      CompareKeysOrder(a[0].key, b[0].key, b[0].key, false);
      CompareKeysOrder(a[0].key, a[0].key, a[0].key, false);
      CompareKeysOrder(b[0].key, b[0].key, b[0].key, false);
      if CompareKeys(a[0].key, b[0].key, false) < 0 {
        MergeOrdered(a[1..], b);
        BeforeHead(a[0].key, a);
        BeforeHead(a[0].key, b);
        HeadBeforeMerge(a[0].key, a[1..], b);
        OrderedCons(a[0], MergeLists(a[1..], b));
      } else {
        MergeOrdered(a, b[1..]);
        BeforeHead(b[0].key, b);
        BeforeHead(b[0].key, a);
        HeadBeforeMerge(b[0].key, a, b[1..]);
        OrderedCons(b[0], MergeLists(a, b[1..]));
      }
    }
  }

  lemma HeadBeforeMerge(k: CStr, a: seq<Member>, b: seq<Member>)
    requires forall x :: x in a || x in b ==> CompareKeys(k, x.key, false) <= 0
    ensures forall x :: x in MergeLists(a, b) ==> CompareKeys(k, x.key, false) <= 0
  {
    MergePermutes(a, b);
    forall x | x in MergeLists(a, b) ensures CompareKeys(k, x.key, false) <= 0 {
      assert x in multiset(a) + multiset(b);
    }
  }

  lemma {:induction false} IncreasingIsOrdered(ms: seq<Member>, i: nat, j: nat)
    requires Increasing(ms, false) && i < j < |ms|
    ensures CompareKeys(ms[i].key, ms[j].key, false) < 0
  {
    if i + 1 < j {
      IncreasingIsOrdered(ms, i, j - 1);
      CompareKeysOrder(ms[i].key, ms[j - 1].key, ms[j].key, false);
    }
  }

  lemma {:induction false} SortOrders(ms: seq<Member>)
    ensures Ordered(SortMembers(ms, false))
    decreases |ms|
  {
    if |ms| < 2 || Increasing(ms, false) {
      forall i, j | 0 <= i < j < |ms| ensures CompareKeys(ms[i].key, ms[j].key, false) <= 0 {
        IncreasingIsOrdered(ms, i, j);
      }
    } else {
      var middle := (|ms| + 1) / 2;
      SortOrders(ms[..middle]);
      SortOrders(ms[middle..]);
      MergeOrdered(SortMembers(ms[..middle], false), SortMembers(ms[middle..], false));
    }
  }

  lemma Twice(ms: seq<Member>, i: nat, j: nat)
    requires i < j < |ms| && ms[i] == ms[j]
    ensures multiset(ms)[ms[i]] >= 2
  {
    SplitMultiset(ms, j);
    assert ms[i] == ms[..j][i] && ms[j] == ms[j..][0];
    assert ms[i] in multiset(ms[..j]) && ms[i] in multiset(ms[j..]);
  }

  lemma Once(ms: seq<Member>, i: nat)
    requires i < |ms| && forall j :: 0 <= j < |ms| && j != i ==> ms[j] != ms[i]
    ensures multiset(ms)[ms[i]] == 1
  {
    assert ms == ms[..i] + ([ms[i]] + ms[i + 1..]);
    assert ms[i] !in ms[..i] && ms[i] !in ms[i + 1..];
    assert ms[i] !in multiset(ms[..i]) && ms[i] !in multiset(ms[i + 1..]);
  }

  /** Sorting keeps the members, so distinct keys stay distinct. */
  lemma SortKeepsDistinct(ms: seq<Member>, cs: bool, flag: bool)
    requires Distinct(ms, cs)
    ensures var r := SortMembers(ms, flag);
            |r| == |ms| && (forall m :: m in r <==> m in ms) && Distinct(r, cs)
  {
    SortPermutes(ms, flag);
    PermutedDistinct(ms, SortMembers(ms, flag), cs);
  }

  lemma PermutedDistinct(ms: seq<Member>, r: seq<Member>, cs: bool)
    requires Distinct(ms, cs) && multiset(r) == multiset(ms)
    ensures |r| == |ms| && (forall m :: m in r <==> m in ms) && Distinct(r, cs)
  {
    assert |multiset(r)| == |multiset(ms)|;
    forall m ensures m in r <==> m in ms {
      assert m in multiset(r) <==> m in multiset(ms);
    }
    forall i, j | 0 <= i < j < |r| ensures Fold(r[i].key, cs) != Fold(r[j].key, cs) {
      if Fold(r[i].key, cs) == Fold(r[j].key, cs) {
        assert r[i] in ms && r[j] in ms;
        var a :| 0 <= a < |ms| && ms[a] == r[i];
        var b :| 0 <= b < |ms| && ms[b] == r[j];
        assert a == b;
        Twice(r, i, j);
        Once(ms, a);
      }
    }
  }

  /** With the flag off and distinct keys, sorting yields the strictly increasing arrangement. */
  lemma SortStrict(ms: seq<Member>)
    requires Distinct(ms, false)
    ensures var r := SortMembers(ms, false);
            && |r| == |ms| && (forall m :: m in r <==> m in ms) && Distinct(r, false)
            && (forall i, j :: 0 <= i < j < |r| ==> CompareKeys(r[i].key, r[j].key, false) < 0)
  {
    var r := SortMembers(ms, false);
    SortOrders(ms);
    SortKeepsDistinct(ms, false, false);
    forall i, j | 0 <= i < j < |r| ensures CompareKeys(r[i].key, r[j].key, false) < 0 {
      CompareKeysOrder(r[i].key, r[j].key, r[j].key, false);
    }
  }

  /** Sorting never changes what an object with distinct keys means. */
  lemma SortKeepsMeaning(ms: seq<Member>, cs: bool, flag: bool)
    requires Distinct(ms, cs)
    ensures CanonMembers(SortMembers(ms, flag), cs) == CanonMembers(ms, cs)
  {
    SortKeepsDistinct(ms, cs, flag);
    SameMembersSameMap(SortMembers(ms, flag), ms, cs);
  }

  // ---------- which member comes first ----------

  /** Where the member stands that sorting puts in front. */
  function HeadIndex(ms: seq<Member>, cs: bool): (h: nat)
    requires ms != []
    ensures h < |ms|
    decreases |ms|
  {
    if |ms| < 2 || Increasing(ms, cs) then 0
    else
      var middle := (|ms| + 1) / 2;
      var i, j := HeadIndex(ms[..middle], cs), HeadIndex(ms[middle..], cs);
      if CompareKeys(ms[i].key, ms[middle + j].key, false) < 0 then i else middle + j
  }

  lemma {:induction false} SortHead(ms: seq<Member>, cs: bool)
    requires ms != []
    ensures SortMembers(ms, cs) != [] && SortMembers(ms, cs)[0] == ms[HeadIndex(ms, cs)]
    decreases |ms|
  {
    if |ms| >= 2 && !Increasing(ms, cs) {
      var middle := (|ms| + 1) / 2;
      SortHead(ms[..middle], cs);
      SortHead(ms[middle..], cs);
    }
  }

  /** The head stays in front: of an empty list, or if sorting leads back to the first member. */
  predicate HeadStays(ms: seq<Member>, cs: bool) {
    ms == [] || HeadIndex(ms, cs) == 0
  }

  /** Nothing in the list is smaller than the member at h, and nothing behind it is as small. */
  ghost predicate LastLeast(ms: seq<Member>, h: nat)
    requires h < |ms|
  {
    forall i :: 0 <= i < |ms| ==>
      CompareKeys(ms[h].key, ms[i].key, false) <= 0 && (i > h ==> CompareKeys(ms[h].key, ms[i].key, false) < 0)
  }

  lemma FirstOfIncreasing(ms: seq<Member>)
    requires ms != [] && (|ms| == 1 || Increasing(ms, false))
    ensures LastLeast(ms, 0)
  {
    forall i | 0 <= i < |ms|
      ensures CompareKeys(ms[0].key, ms[i].key, false) <= 0 && (i > 0 ==> CompareKeys(ms[0].key, ms[i].key, false) < 0)
    {
      CompareKeysOrder(ms[0].key, ms[0].key, ms[0].key, false);
      if i > 0 {
        IncreasingIsOrdered(ms, 0, i);
      }
    }
  }

  lemma LastLeastOfHalves(ms: seq<Member>, middle: nat, i: nat, j: nat)
    requires 0 < middle < |ms| && i < middle && j < |ms| - middle && LastLeast(ms[..middle], i)
             && LastLeast(ms[middle..], j)
    ensures LastLeast(ms, if CompareKeys(ms[i].key, ms[middle + j].key, false) < 0 then i else middle + j)
  {
    var x, y := ms[i].key, ms[middle + j].key;
    var h := if CompareKeys(x, y, false) < 0 then i else middle + j;
    forall k | 0 <= k < |ms|
      ensures CompareKeys(ms[h].key, ms[k].key, false) <= 0 && (k > h ==> CompareKeys(ms[h].key, ms[k].key, false) < 0)
    {
      var z := ms[k].key;
      if k < middle {
        assert CompareKeys(x, z, false) <= 0 by { assert ms[..middle][k] == ms[k]; }
        if CompareKeys(x, y, false) < 0 {
          assert k > i ==> CompareKeys(x, z, false) < 0 by { assert ms[..middle][k] == ms[k]; }
        } else {
          NotAbove(y, x, z);
        }
      } else {
        assert CompareKeys(y, z, false) <= 0 by { assert ms[middle..][k - middle] == ms[k]; }
        if CompareKeys(x, y, false) < 0 {
          CompareKeysOrder(x, y, z, false);
        } else {
          assert k > h ==> CompareKeys(y, z, false) < 0 by { assert ms[middle..][k - middle] == ms[k]; }
        }
      }
    }
  }

  lemma NotAbove(a: CStr, b: CStr, c: CStr)
    requires CompareKeys(b, a, false) >= 0 && CompareKeys(b, c, false) <= 0
    ensures CompareKeys(a, c, false) <= 0
  {
    CompareKeysOrder(a, b, c, false);
    CompareKeysOrder(c, a, b, false);
    CompareKeysOrder(b, a, c, false);
    CompareKeysOrder(b, c, a, false);
    CompareKeysOrder(a, c, c, false);
  }

  /** With the flag off a least member comes first, and of several the last one. */
  lemma {:induction false} HeadIsLastLeast(ms: seq<Member>)
    requires ms != []
    ensures LastLeast(ms, HeadIndex(ms, false))
    decreases |ms|
  {
    if |ms| < 2 || Increasing(ms, false) {
      FirstOfIncreasing(ms);
    } else {
      var middle := (|ms| + 1) / 2;
      HeadIsLastLeast(ms[..middle]);
      HeadIsLastLeast(ms[middle..]);
      LastLeastOfHalves(ms, middle, HeadIndex(ms[..middle], false), HeadIndex(ms[middle..], false));
    }
  }

  /** Every other name comes strictly behind the first one, ignoring case. */
  predicate HeadLeads(ms: seq<Member>) {
    forall i :: 0 < i < |ms| ==> CompareKeys(ms[0].key, ms[i].key, false) < 0
  }

  /** With the flag off the head stays exactly if it leads. */
  lemma HeadStaysIff(ms: seq<Member>)
    ensures HeadStays(ms, false) <==> HeadLeads(ms)
  {
    if ms != [] {
      var h := HeadIndex(ms, false);
      HeadIsLastLeast(ms);
      CompareKeysOrder(ms[0].key, ms[h].key, ms[h].key, false);
    }
  }

  /** With the flag on it stays if the list is in strcmp order already, or if it leads. */
  lemma {:induction false} HeadStaysFlagOn(ms: seq<Member>)
    requires Increasing(ms, true) || HeadLeads(ms)
    ensures HeadStays(ms, true)
    decreases |ms|
  {
    if |ms| >= 2 && !Increasing(ms, true) {
      var middle := (|ms| + 1) / 2;
      HeadStaysFlagOn(ms[..middle]);
    }
  }
}
