/**
 compare_json with its loops, and what it leaves of its operands: every pair of objects it gets to is sorted, up to
 the first difference.
 */
module CompareInPlace {
  import opened CStrings
  import opened Json
  import opened Sorting
  import opened Compare
  import opened CompareSorted
  import opened Rearranged

  /** The walk gets to element i: everything in front of it compared equal. */
  predicate Reached(xs: seq<JSON>, ys: seq<JSON>, i: nat, cs: bool) {
    i < |xs| && i < |ys| && forall j :: 0 <= j < i ==> CompareJson(xs[j], ys[j], cs)
  }

  predicate ReachedMember(xs: seq<Member>, ys: seq<Member>, i: nat, cs: bool) {
    && i < |xs| && i < |ys| && CompareKeys(xs[i].key, ys[i].key, cs) == 0
    && forall j :: 0 <= j < i ==>
         CompareKeys(xs[j].key, ys[j].key, cs) == 0 && CompareJson(xs[j].value, ys[j].value, cs)
  }

  /** What compare_json leaves of its first operand; of the second it leaves the same with the roles changed. */
  function AfterCompare(a: JSON, b: JSON, cs: bool): JSON
    decreases Size(a)
  {
    if !SameType(a, b) then a
    else match a
      case Array(items) =>
        Array(seq(|items|, i requires 0 <= i < |items| =>
          if Reached(items, b.items, i, cs) then AfterCompare(items[i], b.items[i], cs) else items[i]))
      case Object(ms) =>
        var xs, ys := SortMembers(ms, cs), SortMembers(b.members, cs);
        Object(seq(|xs|, i requires 0 <= i < |xs| =>
          if ReachedMember(xs, ys, i, cs) then
            SortedSmaller(ms, cs, i);
            Member(xs[i].key, AfterCompare(xs[i].value, ys[i].value, cs))
          else xs[i]))
      case _ => a
  }

  lemma {:induction false} CompareSymmetric(a: JSON, b: JSON, cs: bool)
    ensures CompareJson(a, b, cs) == CompareJson(b, a, cs)
    decreases Size(a)
  {
    if SameType(a, b) && a.Array? {
      forall i | 0 <= i < |a.items| && i < |b.items|
        ensures CompareJson(a.items[i], b.items[i], cs) == CompareJson(b.items[i], a.items[i], cs)
      {
        CompareSymmetric(a.items[i], b.items[i], cs);
      }
    } else if SameType(a, b) && a.Object? {
      var xs, ys := SortMembers(a.members, cs), SortMembers(b.members, cs);
      forall i | 0 <= i < |xs| && i < |ys|
        ensures CompareKeys(xs[i].key, ys[i].key, cs) == 0 <==> CompareKeys(ys[i].key, xs[i].key, cs) == 0
        ensures CompareJson(xs[i].value, ys[i].value, cs) == CompareJson(ys[i].value, xs[i].value, cs)
      {
        SortedSmaller(a.members, cs, i);
        CompareKeysOrder(xs[i].key, ys[i].key, ys[i].key, cs);
        CompareSymmetric(xs[i].value, ys[i].value, cs);
      }
      assert CompareJson(a, b, cs) <==> MembersAgree(xs, ys, cs);
      assert CompareJson(b, a, cs) <==> MembersAgree(ys, xs, cs);
    }
  }

  lemma ReachedSymmetric(xs: seq<JSON>, ys: seq<JSON>, cs: bool)
    ensures forall i :: Reached(xs, ys, i, cs) <==> Reached(ys, xs, i, cs)
  {
    forall j | 0 <= j < |xs| && j < |ys| ensures CompareJson(xs[j], ys[j], cs) == CompareJson(ys[j], xs[j], cs) {
      CompareSymmetric(xs[j], ys[j], cs);
    }
  }

  lemma ReachedMemberSymmetric(xs: seq<Member>, ys: seq<Member>, cs: bool)
    ensures forall i :: ReachedMember(xs, ys, i, cs) <==> ReachedMember(ys, xs, i, cs)
  {
    forall j | 0 <= j < |xs| && j < |ys|
      ensures CompareKeys(xs[j].key, ys[j].key, cs) == 0 <==> CompareKeys(ys[j].key, xs[j].key, cs) == 0
      ensures CompareJson(xs[j].value, ys[j].value, cs) == CompareJson(ys[j].value, xs[j].value, cs)
    {
      CompareKeysOrder(xs[j].key, ys[j].key, ys[j].key, cs);
      CompareSymmetric(xs[j].value, ys[j].value, cs);
    }
  }

  /** compare_json with its loops: the answer, and both operands as they are afterwards. */
  method CompareWalking(a: JSON, b: JSON, cs: bool) returns (equal: bool, a': JSON, b': JSON)
    ensures equal == CompareJson(a, b, cs)
    ensures a' == AfterCompare(a, b, cs) && b' == AfterCompare(b, a, cs)
    decreases Size(a), 1
  {
    a', b' := a, b;
    if !SameType(a, b) {
      return false, a', b';
    }
    if a.Number? {
      return a.num == b.num, a', b';
    }
    if a.String? {
      return a.str == b.str, a', b';
    }
    if a.Array? {
      var xs, ys;
      equal, xs, ys := CompareElements(a.items, b.items, cs);
      return equal, Array(xs), Array(ys);
    }
    if a.Object? {
      var xs, ys;
      equal, xs, ys := CompareMembers(a.members, b.members, cs);
      return equal, Object(xs), Object(ys);
    }
    return true, a', b';
  }

  /** The first n elements as the walk left them, the others untouched. */
  ghost predicate ElementsDone(xs: seq<JSON>, ys: seq<JSON>, n: nat, xs': seq<JSON>, cs: bool) {
    |xs'| == |xs| && forall j :: 0 <= j < |xs| ==>
      xs'[j] == if j < n && j < |ys| then AfterCompare(xs[j], ys[j], cs) else xs[j]
  }

  lemma ElementsLeft(xs: seq<JSON>, ys: seq<JSON>, n: nat, xs': seq<JSON>, cs: bool)
    requires ElementsDone(xs, ys, n, xs', cs)
    requires forall j :: 0 <= j < |xs| ==> (j < n && j < |ys| <==> Reached(xs, ys, j, cs))
    ensures Array(xs') == AfterCompare(Array(xs), Array(ys), cs)
  {
    assert xs' == AfterCompare(Array(xs), Array(ys), cs).items;
  }

  /** The element loop of compare_json. */
  method CompareElements(xs: seq<JSON>, ys: seq<JSON>, cs: bool) returns (equal: bool, xs': seq<JSON>, ys': seq<JSON>)
    ensures equal == CompareJson(Array(xs), Array(ys), cs)
    ensures Array(xs') == AfterCompare(Array(xs), Array(ys), cs)
    ensures Array(ys') == AfterCompare(Array(ys), Array(xs), cs)
    decreases Size(Array(xs)), 0
  {
    xs', ys' := xs, ys;
    var i := 0;
    ReachedSymmetric(xs, ys, cs);
    while i < |xs| && i < |ys|
      invariant 0 <= i <= |xs| && i <= |ys|
      invariant forall j :: 0 <= j < i ==> CompareJson(xs[j], ys[j], cs)
      invariant ElementsDone(xs, ys, i, xs', cs) && ElementsDone(ys, xs, i, ys', cs)
    {
      var x, y;
      equal, x, y := CompareWalking(xs[i], ys[i], cs);
      xs', ys' := xs'[i := x], ys'[i := y];
      if !equal {
        ElementsLeft(xs, ys, i + 1, xs', cs);
        ElementsLeft(ys, xs, i + 1, ys', cs);
        return;
      }
      i := i + 1;
    }
    ElementsLeft(xs, ys, i, xs', cs);
    ElementsLeft(ys, xs, i, ys', cs);
    equal := i == |xs| && i == |ys|;
  }

  /** Both member lists are sorted, then walked together. */
  method CompareMembers(ms: seq<Member>, ns: seq<Member>, cs: bool)
    returns (equal: bool, xs': seq<Member>, ys': seq<Member>)
    ensures equal == CompareJson(Object(ms), Object(ns), cs)
    ensures Object(xs') == AfterCompare(Object(ms), Object(ns), cs)
    ensures Object(ys') == AfterCompare(Object(ns), Object(ms), cs)
    decreases Size(Object(ms)), 0, 1
  {
    var xs, ys := SortMembers(ms, cs), SortMembers(ns, cs);
    SortedSizes(ms, cs);
    ReachedMemberSymmetric(xs, ys, cs);
    ghost var n;
    equal, xs', ys', n := CompareSortedMembers(xs, ys, cs, Size(Object(ms)));
    MembersLeft(ms, ns, n, xs', cs);
    MembersLeft(ns, ms, n, ys', cs);
  }

  ghost predicate MembersDone(xs: seq<Member>, ys: seq<Member>, n: nat, xs': seq<Member>, cs: bool) {
    |xs'| == |xs| && forall j :: 0 <= j < |xs| ==>
      xs'[j] == if j < n && j < |ys| then Member(xs[j].key, AfterCompare(xs[j].value, ys[j].value, cs)) else xs[j]
  }

  /** Sorted members as the walk leaves them. */
  ghost predicate LeftBehind(xs: seq<Member>, ys: seq<Member>, r: seq<Member>, cs: bool) {
    |r| == |xs| && forall i :: 0 <= i < |xs| ==>
      r[i] == if ReachedMember(xs, ys, i, cs) then Member(xs[i].key, AfterCompare(xs[i].value, ys[i].value, cs))
              else xs[i]
  }

  lemma MembersLeftBehind(ms: seq<Member>, ns: seq<Member>, cs: bool)
    ensures var r := AfterCompare(Object(ms), Object(ns), cs);
            r.Object? && LeftBehind(SortMembers(ms, cs), SortMembers(ns, cs), r.members, cs)
  {
  }

  lemma MembersLeft(ms: seq<Member>, ns: seq<Member>, n: nat, xs': seq<Member>, cs: bool)
    requires var xs, ys := SortMembers(ms, cs), SortMembers(ns, cs);
             && MembersDone(xs, ys, n, xs', cs)
             && forall j :: 0 <= j < |xs| ==> (j < n && j < |ys| <==> ReachedMember(xs, ys, j, cs))
    ensures Object(xs') == AfterCompare(Object(ms), Object(ns), cs)
  {
    MembersLeftBehind(ms, ns, cs);
    SameLeftBehind(SortMembers(ms, cs), SortMembers(ns, cs), xs', AfterCompare(Object(ms), Object(ns), cs).members, cs);
  }

  lemma SameLeftBehind(xs: seq<Member>, ys: seq<Member>, r: seq<Member>, s: seq<Member>, cs: bool)
    requires LeftBehind(xs, ys, r, cs) && LeftBehind(xs, ys, s, cs)
    ensures r == s
  {
  }

  /** Everything in front of member n compared equal. */
  predicate EqualUpTo(xs: seq<Member>, ys: seq<Member>, n: nat, cs: bool)
    requires n <= |xs| && n <= |ys|
  {
    forall j :: 0 <= j < n ==> CompareKeys(xs[j].key, ys[j].key, cs) == 0 && CompareJson(xs[j].value, ys[j].value, cs)
  }

  /** Where the loop stops: at the end of a list, at two names or behind two values that differ. */
  lemma WalkStops(xs: seq<Member>, ys: seq<Member>, i: nat, n: nat, cs: bool)
    requires i <= |xs| && i <= |ys| && EqualUpTo(xs, ys, i, cs)
    requires if i == |xs| || i == |ys| || CompareKeys(xs[i].key, ys[i].key, cs) != 0 then n == i
             else n == i + 1 && !CompareJson(xs[i].value, ys[i].value, cs)
    ensures forall j :: 0 <= j ==> (j < n && j < |xs| && j < |ys| <==> ReachedMember(xs, ys, j, cs))
    ensures MembersAgree(xs, ys, cs) <==> i == |xs| && i == |ys|
  {
  }

  /** The member loop of compare_json; it gets to n members. */
  method CompareSortedMembers(xs: seq<Member>, ys: seq<Member>, cs: bool, ghost bound: nat)
    returns (equal: bool, xs': seq<Member>, ys': seq<Member>, ghost n: nat)
    requires forall i :: 0 <= i < |xs| ==> Size(xs[i].value) < bound
    ensures equal == MembersAgree(xs, ys, cs)
    ensures MembersDone(xs, ys, n, xs', cs) && MembersDone(ys, xs, n, ys', cs)
    ensures forall j :: 0 <= j ==> (j < n && j < |xs| && j < |ys| <==> ReachedMember(xs, ys, j, cs))
    decreases bound, 0, 0
  {
    xs', ys' := xs, ys;
    var i := 0;
    while i < |xs| && i < |ys|
      invariant 0 <= i <= |xs| && i <= |ys|
      invariant EqualUpTo(xs, ys, i, cs)
      invariant MembersDone(xs, ys, i, xs', cs) && MembersDone(ys, xs, i, ys', cs)
    {
      var diff := CompareStrings(xs[i].key, ys[i].key, cs);
      if diff != 0 {
        WalkStops(xs, ys, i, i, cs);
        return false, xs', ys', i;
      }
      var x, y;
      equal, x, y := CompareWalking(xs[i].value, ys[i].value, cs);
      xs', ys' := xs'[i := Member(xs[i].key, x)], ys'[i := Member(ys[i].key, y)];
      if !equal {
        n := i + 1;
        WalkStops(xs, ys, i, n, cs);
        return;
      }
      i := i + 1;
    }
    WalkStops(xs, ys, i, i, cs);
    return i == |xs| && i == |ys|, xs', ys', i;
  }

  /** The operands are only rearranged. */
  lemma {:induction false} CompareKeeps(a: JSON, b: JSON, cs: bool)
    ensures Keeps(a, AfterCompare(a, b, cs))
    decreases Size(a)
  {
    if SameType(a, b) && a.Array? {
      var xs, r := a.items, AfterCompare(a, b, cs).items;
      forall i | 0 <= i < |xs| ensures Keeps(xs[i], r[i]) {
        if Reached(xs, b.items, i, cs) {
          CompareKeeps(xs[i], b.items[i], cs);
        }
      }
      KeepsItems(xs, r);
    } else if SameType(a, b) && a.Object? {
      var xs, ys, r := SortMembers(a.members, cs), SortMembers(b.members, cs), AfterCompare(a, b, cs).members;
      forall i | 0 <= i < |xs| ensures xs[i].key == r[i].key && Keeps(xs[i].value, r[i].value) {
        if ReachedMember(xs, ys, i, cs) {
          SortedSmaller(a.members, cs, i);
          CompareKeeps(xs[i].value, ys[i].value, cs);
        }
      }
      KeepsObject(a.members, cs, r);
    }
  }
}
