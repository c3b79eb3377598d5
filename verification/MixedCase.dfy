/**
 Where sorting, comparing and JSON Merge Patch end: names on which strcmp and the case-blind order disagree.
 */
module MixedCase {
  import opened Wrappers
  import opened CStrings
  import opened Json
  import opened Sorting
  import opened Compare
  import opened CompareSorted
  import opened MergePatch
  import opened MergeLaw
  import opened Rearranged
  import opened CompareInPlace
  import opened EitherFlag

  // ---------- sorting with the flag on ----------

  ghost function Names(ms: seq<Member>): iset<CStr> {
    iset m | m in ms :: m.key
  }

  ghost predicate StrcmpOrdered(ms: seq<Member>) {
    forall i, j :: 0 <= i < j < |ms| ==> CompareKeys(ms[i].key, ms[j].key, true) <= 0
  }

  lemma {:induction false} MergeAppends(a: seq<Member>, b: seq<Member>)
    requires b != [] ==> forall i :: 0 <= i < |a| ==> CompareKeys(a[i].key, b[0].key, false) < 0
    ensures MergeLists(a, b) == a + b
    decreases |a|
  {
    if a == [] {
      assert a + b == b;
    } else if b == [] {
      assert a + b == a;
    } else {
      MergeAppends(a[1..], b);
      assert a + b == [a[0]] + (a[1..] + b);
    }
  }

  lemma SortedHalves(ms: seq<Member>, middle: nat)
    requires StrictlySorted(ms) && middle <= |ms|
    ensures StrictlySorted(ms[..middle]) && StrictlySorted(ms[middle..])
    ensures MergeLists(ms[..middle], ms[middle..]) == ms
  {
    var a, b := ms[..middle], ms[middle..];
    if b != [] {
      assert b[0] == ms[middle];
    }
    MergeAppends(a, b);
    assert ms == a + b;
  }

  /** A list that is sorted ignoring case is left alone, under either flag. */
  lemma {:induction false} SortedStays(ms: seq<Member>, cs: bool)
    requires StrictlySorted(ms)
    ensures SortMembers(ms, cs) == ms
    decreases |ms|
  {
    if |ms| >= 2 && !Increasing(ms, cs) {
      var middle := (|ms| + 1) / 2;
      SortedHalves(ms, middle);
      SortedStays(ms[..middle], cs);
      SortedStays(ms[middle..], cs);
    }
  }

  lemma SameNames(ms: seq<Member>, ns: seq<Member>)
    requires multiset(ns) == multiset(ms)
    ensures forall m :: m in ns <==> m in ms
  {
    forall m ensures m in ns <==> m in ms {
      assert m in multiset(ns) <==> m in multiset(ms);
    }
  }

  /**
   With the flag on, every arrangement of these members comes out of the sort in strcmp order if and only
   if strcmp and the case-blind order agree on their names.
   */
  lemma SortObeysFlagIff(ms: seq<Member>)
    requires Distinct(ms, false)
    ensures (forall ns :: multiset(ns) == multiset(ms) ==> StrcmpOrdered(SortMembers(ns, true))) <==>
            OrdersAgree(Names(ms))
  {
    if OrdersAgree(Names(ms)) {
      forall ns | multiset(ns) == multiset(ms) ensures StrcmpOrdered(SortMembers(ns, true)) {
        AgreeingSort(ms, ns);
      }
    } else {
      var ns := SortMembers(ms, false);
      SortPermutes(ms, false);
      SortStrict(ms);
      SortedStays(ns, true);
      if StrcmpOrdered(ns) {
        OrderedAgree(ms, ns);
      }
      assert !StrcmpOrdered(SortMembers(ns, true));
    }
  }

  lemma AgreeingSort(ms: seq<Member>, ns: seq<Member>)
    requires Distinct(ms, false) && OrdersAgree(Names(ms)) && multiset(ns) == multiset(ms)
    ensures StrcmpOrdered(SortMembers(ns, true))
  {
    SameNames(ms, ns);
    PermutedDistinct(ms, ns, false);
    SortByEitherFlag(ns, Names(ms));
    SortStrict(ns);
    var r := SortMembers(ns, false);
    forall i, j | 0 <= i < j < |r| ensures CompareKeys(r[i].key, r[j].key, true) <= 0 {
      assert r[i] in ms && r[j] in ms;
      AgreeingOrder(Names(ms), r[i].key, r[j].key);
    }
  }

  /** A list in both orders shows that the orders agree on its names. */
  lemma OrderedAgree(ms: seq<Member>, ns: seq<Member>)
    requires StrictlySorted(ns) && StrcmpOrdered(ns) && (forall m :: m in ns <==> m in ms)
    ensures OrdersAgree(Names(ms))
  {
    forall a, b | a in Names(ms) && b in Names(ms) ensures StrCmp(a, b) < 0 <==> CompareKeys(a, b, false) < 0 {
      var x :| x in ms && x.key == a;
      var y :| y in ms && y.key == b;
      assert x in ns && y in ns;
      var i :| 0 <= i < |ns| && ns[i] == x;
      var j :| 0 <= j < |ns| && ns[j] == y;
      StrCmpZero(a, b);
      StrCmpFlip(a, b);
      CompareKeysOrder(a, b, b, false);
    }
  }

  lemma {:induction false} HeadByEitherFlag(ms: seq<Member>, names: iset<CStr>)
    requires ms != [] && OrdersAgree(names) && NamesIn(ms, names)
    ensures HeadIndex(ms, true) == HeadIndex(ms, false)
    decreases |ms|
  {
    assert Increasing(ms, true) <==> Increasing(ms, false);
    if |ms| >= 2 && !Increasing(ms, true) {
      var middle := (|ms| + 1) / 2;
      HeadByEitherFlag(ms[..middle], names);
      HeadByEitherFlag(ms[middle..], names);
    }
  }

  /** Where the orders agree, sorting with the flag on too moves the head exactly unless it leads. */
  lemma HeadStaysAgreeing(ms: seq<Member>)
    requires OrdersAgree(Names(ms))
    ensures HeadStays(ms, true) <==> HeadLeads(ms)
  {
    HeadStaysIff(ms);
    if ms != [] {
      HeadByEitherFlag(ms, Names(ms));
    }
  }

  const SMALL_A: CStr := "a"
  const BIG_B: CStr := "B"

  /** For example, they do not agree on "a" and "B". */
  lemma OrdersDisagree()
    ensures CompareKeys(SMALL_A, BIG_B, false) < 0 && StrCmp(SMALL_A, BIG_B) > 0
  {
    assert Lower(SMALL_A)[0] == 'a' && Lower(BIG_B)[0] == 'b';
  }

  // ---------- comparing with the flag on ----------

  /** The documents both comparisons are for. */
  ghost predicate Comparable(v: JSON, names: iset<CStr>) {
    DistinctKeys(v, true) && KeysIn(v, names) && Plain(v)
  }

  lemma CompareAgreeing(v: JSON, w: JSON, names: iset<CStr>)
    requires OrdersAgree(names) && Comparable(v, names) && Comparable(w, names)
    ensures CompareJson(v, w, true) <==> Canon(v, true) == Canon(w, true)
  {
    AgreeingNames(names);
    DistinctByEitherFlag(v, names);
    DistinctByEitherFlag(w, names);
    CompareByEitherFlag(v, w, names);
    ComparersAgree(v, w);
    if Canon(v, true) == Canon(w, true) {
      SameByEitherFlag(v, w, names, true);
    } else if Canon(v, false) == Canon(w, false) {
      SameByEitherFlag(v, w, names, false);
    }
  }

  /** Two names in one order ignoring case and the other for strcmp: what is sorted for one is left alone for both. */
  lemma CompareMisses(x: Member, y: Member)
    requires CompareKeys(x.key, y.key, false) < 0 && StrCmp(x.key, y.key) > 0
    ensures !CompareJson(Object([x, y]), Object([y, x]), true)
  {
    var xs, ys := [x, y], [y, x];
    assert StrictlySorted(xs);
    SortedStays(xs, true);
    StrCmpFlip(x.key, y.key);
    assert Increasing(ys, true);
    assert xs[0] == x && ys[0] == y;
    assert !MembersAgree(xs, ys, true);
  }

  /**
   Over names that differ in more than case, compare_json with the flag on decides sameness of meaning for all
   documents if and only if strcmp and the case-blind order agree on the names.
   */
  lemma CompareObeysFlagIff(names: iset<CStr>)
    requires DistinctNames(names)
    ensures (forall v, w :: Comparable(v, names) && Comparable(w, names) ==>
               (CompareJson(v, w, true) <==> Canon(v, true) == Canon(w, true))) <==>
            OrdersAgree(names)
  {
    if OrdersAgree(names) {
      forall v, w | Comparable(v, names) && Comparable(w, names)
        ensures CompareJson(v, w, true) <==> Canon(v, true) == Canon(w, true)
      {
        CompareAgreeing(v, w, names);
      }
    } else {
      var a, b :| a in names && b in names && !(StrCmp(a, b) < 0 <==> CompareKeys(a, b, false) < 0);
      StrCmpZero(a, b);
      StrCmpFlip(a, b);
      CompareKeysOrder(a, b, b, false);
      if CompareKeys(a, b, false) < 0 {
        ReorderedDiffer(a, b, names);
      } else {
        ReorderedDiffer(b, a, names);
      }
    }
  }

  lemma ReorderedDiffer(a: CStr, b: CStr, names: iset<CStr>)
    requires a in names && b in names && CompareKeys(a, b, false) < 0 && StrCmp(a, b) > 0
    ensures var v, w := Object([Member(a, True), Member(b, True)]), Object([Member(b, True), Member(a, True)]);
            && Comparable(v, names) && Comparable(w, names)
            && Canon(v, true) == Canon(w, true) && !CompareJson(v, w, true)
  {
    var x, y := Member(a, True), Member(b, True);
    StrCmpZero(a, b);
    CompareMisses(x, y);
    TwoComparable(x, y, names);
    TwoComparable(y, x, names);
    SameMembersSameMap([x, y], [y, x], true);
  }

  lemma TwoComparable(x: Member, y: Member, names: iset<CStr>)
    requires x.key in names && y.key in names && x.key != y.key && x.value == True && y.value == True
    ensures Comparable(Object([x, y]), names)
  {
    var ms := [x, y];
    assert forall i :: 0 <= i < |ms| ==> ms[i] == x || ms[i] == y;
    assert Distinct(ms, true);
  }

  // ---------- merge patches under either flag ----------

  lemma {:induction false} GenerateByEitherFlag(from: JSON, to: JSON, names: iset<CStr>)
    requires OrdersAgree(names) && KeysIn(from, names) && KeysIn(to, names)
    ensures var patch := GenerateMerge(from, to, false);
            patch == GenerateMerge(from, to, true) && (patch.Some? ==> KeysIn(patch.value, names))
    decreases Size(from), 2
  {
    if from.Object? && to.Object? {
      SortByEitherFlag(from.members, names);
      SortByEitherFlag(to.members, names);
      SortedIn(from.members, names, false);
      SortedIn(to.members, names, false);
      SortedSizes(from.members, false);
      var xs, ys := SortMembers(from.members, false), SortMembers(to.members, false);
      GenerateMembersByEitherFlag(xs, ys, Size(from), names);
    }
  }

  lemma {:induction false} GenerateMembersByEitherFlag(xs: seq<Member>, ys: seq<Member>, bound: nat, names: iset<CStr>)
    requires OrdersAgree(names) && KeysIn(Object(xs), names) && KeysIn(Object(ys), names)
    requires forall i :: 0 <= i < |xs| ==> Size(xs[i].value) < bound
    ensures GenerateMembers(xs, ys, true, bound) == GenerateMembers(xs, ys, false, bound)
    ensures KeysIn(Object(GenerateMembers(xs, ys, false, bound)), names)
    decreases bound, 1, |xs| + |ys|
  {
    if xs != [] { TailIn(xs, names); }
    if ys != [] { TailIn(ys, names); }
    if xs == [] && ys == [] {
    } else if ys == [] || (xs != [] && StrCmp(xs[0].key, ys[0].key) < 0) {
      GenerateMembersByEitherFlag(xs[1..], ys, bound, names);
      PrependIn(Member(xs[0].key, Null), GenerateMembers(xs[1..], ys, false, bound), names);
    } else if xs == [] || StrCmp(xs[0].key, ys[0].key) > 0 {
      GenerateMembersByEitherFlag(xs, ys[1..], bound, names);
      PrependIn(ys[0], GenerateMembers(xs, ys[1..], false, bound), names);
    } else {
      CommonByEitherFlag(xs[0], ys[0], bound, names);
      GenerateMembersByEitherFlag(xs[1..], ys[1..], bound, names);
      PrependCommon(CommonPatch(xs[0], ys[0], false, bound), GenerateMembers(xs[1..], ys[1..], false, bound), names);
    }
  }

  ghost predicate AtMostOne(ps: seq<Member>, names: iset<CStr>) {
    ps == [] || (|ps| == 1 && ps[0].key in names && KeysIn(ps[0].value, names))
  }

  lemma PrependCommon(common: seq<Member>, rest: seq<Member>, names: iset<CStr>)
    requires AtMostOne(common, names) && KeysIn(Object(rest), names)
    ensures KeysIn(Object(common + rest), names)
  {
    if common == [] {
      assert common + rest == rest;
    } else {
      PrependIn(common[0], rest, names);
      assert common == [common[0]];
    }
  }

  lemma CommonByEitherFlag(x: Member, y: Member, bound: nat, names: iset<CStr>)
    requires OrdersAgree(names) && KeysIn(x.value, names) && KeysIn(y.value, names) && y.key in names
    requires Size(x.value) < bound
    ensures CommonPatch(x, y, true, bound) == CommonPatch(x, y, false, bound)
    ensures AtMostOne(CommonPatch(x, y, false, bound), names)
    decreases bound, 0, 0
  {
    LeftByEitherFlag(x.value, y.value, names);
    LeftByEitherFlag(y.value, x.value, names);
    CompareKeeps(x.value, y.value, false);
    CompareKeeps(y.value, x.value, false);
    GenerateByEitherFlag(AfterCompare(x.value, y.value, false), AfterCompare(y.value, x.value, false), names);
  }

  lemma PrependIn(p: Member, rest: seq<Member>, names: iset<CStr>)
    requires p.key in names && KeysIn(p.value, names) && KeysIn(Object(rest), names)
    ensures KeysIn(Object([p] + rest), names)
  {
  }

  lemma AppendIn(ms: seq<Member>, p: Member, names: iset<CStr>)
    requires p.key in names && KeysIn(p.value, names) && KeysIn(Object(ms), names)
    ensures KeysIn(Object(ms + [p]), names)
  {
  }

  lemma {:induction false} MergeByEitherFlag(target: Option<JSON>, patch: JSON, names: iset<CStr>)
    requires DistinctNames(names) && KeysIn(patch, names) && (target.Some? ==> KeysIn(target.value, names))
    ensures Merge(target, patch, true) == Merge(target, patch, false) && KeysIn(Merge(target, patch, false), names)
    decreases patch
  {
    if patch.Object? {
      var ms := if target.Some? && target.value.Object? then target.value.members else [];
      assert KeysIn(Object(ms), names);
      MergedByEitherFlag(ms, patch.members, names);
    }
  }

  /** The object behind one member of the patch. */
  function MergeOne(ms: seq<Member>, p: Member, cs: bool): seq<Member> {
    if p.value.Null? then Detach(ms, p.key, cs)
    else Detach(ms, p.key, cs) + [Member(p.key, Merge(Lookup(ms, p.key, cs), p.value, cs))]
  }

  lemma {:induction false} MergedByEitherFlag(ms: seq<Member>, patch: seq<Member>, names: iset<CStr>)
    requires DistinctNames(names) && KeysIn(Object(ms), names) && KeysIn(Object(patch), names)
    ensures MergeMembers(ms, patch, true) == MergeMembers(ms, patch, false)
    ensures KeysIn(Object(MergeMembers(ms, patch, false)), names)
    decreases patch, 1
  {
    if patch != [] {
      TailIn(patch, names);
      MergeOneByEitherFlag(ms, patch[0], names);
      MergedByEitherFlag(MergeOne(ms, patch[0], false), patch[1..], names);
    }
  }

  lemma {:induction false} MergeOneByEitherFlag(ms: seq<Member>, p: Member, names: iset<CStr>)
    requires DistinctNames(names) && KeysIn(Object(ms), names) && p.key in names && KeysIn(p.value, names)
    ensures MergeOne(ms, p, true) == MergeOne(ms, p, false) && KeysIn(Object(MergeOne(ms, p, false)), names)
    decreases p, 0
  {
    FindByEitherFlag(ms, p.key, names);
    DetachedIn(ms, p.key, false, names);
    if !p.value.Null? {
      var found := Lookup(ms, p.key, false);
      MergeByEitherFlag(found, p.value, names);
      AppendIn(Detach(ms, p.key, false), Member(p.key, Merge(found, p.value, false)), names);
    }
  }

  /** Diff then merge works under either flag where the orders agree. */
  lemma MergeReachesByEitherFlag(from: JSON, to: JSON, names: iset<CStr>, cs: bool)
    requires OrdersAgree(names) && Pair(from, to, names, cs)
    ensures MergeReaches(from, to, cs)
  {
    AgreeingNames(names);
    if cs {
      DistinctByEitherFlag(from, names);
      DistinctByEitherFlag(to, names);
    }
    DiffThenMergeNullFree(from, to, names);
    if cs {
      GenerateByEitherFlag(from, to, names);
      if Canon(from, true) == Canon(to, true) {
        SameByEitherFlag(from, to, names, true);
      } else if Canon(from, false) == Canon(to, false) {
        SameByEitherFlag(from, to, names, false);
      }
      var patch := GenerateMerge(from, to, false);
      if patch.Some? {
        MergeByEitherFlag(Some(from), patch.value, names);
        SameByEitherFlag(Merge(Some(from), patch.value, false), to, names, false);
      }
    }
  }

  // ---------- diff then merge ----------

  /**
   generate_merge_patch walks lists sorted ignoring case with strcmp: whenever a name comes first
   ignoring case and second for strcmp, going from both members to the second takes away both.
   */
  lemma MixedCaseLosesMember(a: Member, b: Member, cs: bool)
    requires CompareKeys(a.key, b.key, false) < 0 && StrCmp(a.key, b.key) > 0 && !b.value.Null? && !b.value.Object?
    ensures var from, to := Object([a, b]), Object([b]);
            var patch := GenerateMerge(from, to, cs);
            patch == Some(Object([b, Member(a.key, Null), Member(b.key, Null)]))
            && Merge(Some(from), patch.value, cs) == Object([])
  {
    assert StrictlySorted([a, b]) && SortMembers([b], cs) == [b];
    SortedStays([a, b], cs);
    SortedSizes([a, b], cs);
    assert [a, b][0] == a && [a, b][1] == b;
    CompareKeysOrder(a.key, b.key, b.key, false);
    MixedCaseWalk(a, b, Size(Object([a, b])), cs);
    MixedCaseMerge(a, b, cs);
  }

  lemma MixedCaseWalk(a: Member, b: Member, bound: nat, cs: bool)
    requires StrCmp(a.key, b.key) > 0 && Size(a.value) < bound && Size(b.value) < bound
    ensures GenerateMembers([a, b], [b], cs, bound) == [b, Member(a.key, Null), Member(b.key, Null)]
  {
    var na, nb := Member(a.key, Null), Member(b.key, Null);
    assert [b][1..] == [] && [a, b][1..] == [b];
    assert GenerateMembers([b], [], cs, bound) == [nb] + [];
    assert GenerateMembers([a, b], [], cs, bound) == [na] + [nb];
    assert [b] + ([na] + [nb]) == [b, na, nb];
  }

  lemma MixedCaseMerge(a: Member, b: Member, cs: bool)
    requires Fold(a.key, cs) != Fold(b.key, cs) && !b.value.Null? && !b.value.Object?
    ensures MergeMembers([a, b], [b, Member(a.key, Null), Member(b.key, Null)], cs) == []
    ensures MergeMembers([b, a], [b, Member(a.key, Null), Member(b.key, Null)], cs) == []
  {
    var patch := [b, Member(a.key, Null), Member(b.key, Null)];
    assert patch[1..] == [Member(a.key, Null), Member(b.key, Null)];
    BothTaken(a, b, cs);
    assert [a, b][1..] == [b] && [a, b][..1] == [a] && [a, b][2..] == [] && [b, a][1..] == [a];
    assert FindKey([b], b.key, cs) == 0 && FindKey([a, b], b.key, cs) == 1 + FindKey([a, b][1..], b.key, cs);
    assert Detach([a, b], b.key, cs) == [a] + [];
    assert Detach([b, a], b.key, cs) == [] + [a];
    assert [a] + [] == [a] && [] + [a] == [a] && [a] + [b] == [a, b];
  }

  lemma BothTaken(a: Member, b: Member, cs: bool)
    requires Fold(a.key, cs) != Fold(b.key, cs)
    ensures MergeMembers([a, b], [Member(a.key, Null), Member(b.key, Null)], cs) == []
  {
    var na, nb := Member(a.key, Null), Member(b.key, Null);
    assert [na, nb][1..] == [nb] && [nb][1..] == [] && [a, b][1..] == [b];
    assert Detach([a, b], a.key, cs) == [] + [b];
    assert [] + [b] == [b];
    assert Detach([b], b.key, cs) == [] + [];
    assert MergeMembers([b], [nb], cs) == [];
  }

  /** The documents diff then merge is for: any `from`, and a `to` without nulls or raw items. */
  ghost predicate Pair(from: JSON, to: JSON, names: iset<CStr>, cs: bool) {
    && DistinctKeys(from, cs) && KeysIn(from, names)
    && DistinctKeys(to, cs) && KeysIn(to, names) && Plain(to) && NoNulls(to)
  }

  /**
   Over any set of names and under either flag, diff then merge reaches its target for all documents if and only
   if strcmp and the case-blind order agree on the names.
   */
  lemma MergeReachesIff(names: iset<CStr>, cs: bool)
    ensures (forall from, to :: Pair(from, to, names, cs) ==> MergeReaches(from, to, cs)) <==> OrdersAgree(names)
  {
    if OrdersAgree(names) {
      forall from, to | Pair(from, to, names, cs) ensures MergeReaches(from, to, cs) {
        MergeReachesByEitherFlag(from, to, names, cs);
      }
    } else {
      var a, b :| a in names && b in names && !(StrCmp(a, b) < 0 <==> CompareKeys(a, b, false) < 0);
      StrCmpZero(a, b);
      StrCmpFlip(a, b);
      CompareKeysOrder(a, b, b, false);
      if StrCmp(a, b) < 0 {
        DisagreeingMisses(a, b, names, cs);
      } else {
        DisagreeingMisses(b, a, names, cs);
      }
    }
  }

  lemma DisagreeingMisses(a: CStr, b: CStr, names: iset<CStr>, cs: bool)
    requires a in names && b in names && StrCmp(a, b) < 0 && CompareKeys(a, b, false) >= 0
    ensures exists from, to :: Pair(from, to, names, cs) && !MergeReaches(from, to, cs)
  {
    StrCmpFlip(a, b);
    CompareKeysOrder(a, b, b, false);
    if CompareKeys(a, b, false) > 0 {
      MergeMisses(b, a, names, cs);
    } else if cs {
      MergeBlindBelow(a, b, names);
    } else {
      MergeSeesCase(a, b, names);
    }
  }

  lemma OneMember(x: Member, names: iset<CStr>, cs: bool)
    requires x.key in names && DistinctKeys(x.value, cs) && KeysIn(x.value, names)
    requires Plain(x.value) && NoNulls(x.value) && !x.value.Null?
    ensures Pair(Object([x]), Object([x]), names, cs)
    ensures CanonMembers([x], cs) == map[Fold(x.key, cs) := Canon(x.value, cs)]
  {
    var ms := [x];
    assert ms[0] == x && ms[1..] == [];
    assert Distinct(ms, cs) && DistinctKeys(Object(ms), cs) && KeysIn(Object(ms), names) && Plain(Object(ms));
  }

  lemma TwoMembers(x: Member, y: Member, names: iset<CStr>, cs: bool)
    requires x.key in names && y.key in names && Fold(x.key, cs) != Fold(y.key, cs)
    requires x.value == True && y.value == True
    ensures Pair(Object([x, y]), Object([y]), names, cs)
    ensures DistinctKeys(Object([x, y]), cs) && KeysIn(Object([x, y]), names)
  {
    var from := [x, y];
    forall i | 0 <= i < |from|
      ensures DistinctKeys(from[i].value, cs) && KeysIn(from[i].value, names) && from[i].key in names
    {
      assert from[i] == x || from[i] == y;
    }
    assert DistinctKeys(Object(from), cs) && KeysIn(Object(from), names);
    OneMember(y, names, cs);
  }

  /** Two names in one order ignoring case and the other for strcmp. */
  lemma MergeMisses(a: CStr, b: CStr, names: iset<CStr>, cs: bool)
    requires a in names && b in names && CompareKeys(a, b, false) < 0 && StrCmp(a, b) > 0
    ensures var x, y := Member(a, True), Member(b, True);
            Pair(Object([x, y]), Object([y]), names, cs) && !MergeReaches(Object([x, y]), Object([y]), cs)
  {
    var x, y := Member(a, True), Member(b, True);
    CompareKeysOrder(a, b, b, false);
    TwoMembers(x, y, names, cs);
    MixedCaseLosesMember(x, y, cs);
    OneMember(y, names, cs);
    assert Fold(b, cs) in CanonMembers([y], cs) && CanonMembers([], cs) == map[];
  }

  /** With the flag off, a change of case alone is no change of meaning, yet it gives a patch. */
  lemma MergeSeesCase(a: CStr, b: CStr, names: iset<CStr>)
    requires a in names && b in names && Fold(a, false) == Fold(b, false) && StrCmp(a, b) != 0
    ensures var x, y := Member(a, True), Member(b, True);
            Pair(Object([x]), Object([y]), names, false) && !MergeReaches(Object([x]), Object([y]), false)
  {
    var x, y := Member(a, True), Member(b, True);
    OneMember(x, names, false);
    OneMember(y, names, false);
    assert SortMembers([x], false) == [x] && SortMembers([y], false) == [y];
    SortedSizes([x], false);
    assert GenerateMembers([x], [y], false, Size(Object([x]))) != [];
  }

  /** An object, and below it another one with these members. */
  function Below(a: CStr, ms: seq<Member>): JSON { Object([Member(a, Object(ms))]) }

  /**
   With the flag on, nested objects are still sorted ignoring case: of two members below, whose names differ in
   case only, the one to keep is taken away too.
   */
  lemma MergeBlindBelow(a: CStr, b: CStr, names: iset<CStr>)
    requires a in names && b in names && Fold(a, false) == Fold(b, false) && StrCmp(a, b) < 0
    ensures var x, y := Member(a, True), Member(b, True);
            Pair(Below(a, [x, y]), Below(a, [x]), names, true) && !MergeReaches(Below(a, [x, y]), Below(a, [x]), true)
  {
    var x, y := Member(a, True), Member(b, True);
    StrCmpZero(a, b);
    BelowPair(a, x, y, names);
    BlindBelow(a, b);
    BelowMeaning(a, [x]);
    BelowMeaning(a, []);
    assert [x][1..] == [] && Fold(a, true) in CanonMembers([x], true) && CanonMembers([], true) == map[];
    assert Canon(Below(a, [x]), true).fields[a] != Canon(Below(a, []), true).fields[a];
  }

  lemma BelowMeaning(a: CStr, ms: seq<Member>)
    ensures Canon(Below(a, ms), true) == Obj(map[a := Obj(CanonMembers(ms, true))])
  {
    var outer := [Member(a, Object(ms))];
    assert outer[1..] == [] && Fold(a, true) == a;
    assert CanonMembers(outer, true) == map[][a := Canon(Object(ms), true)];
  }

  lemma BelowPair(a: CStr, x: Member, y: Member, names: iset<CStr>)
    requires a in names && x.key in names && y.key in names && x.key != y.key && x.value == True && y.value == True
    ensures Pair(Below(a, [x, y]), Below(a, [x]), names, true)
  {
    TwoMembers(y, x, names, true);
    TwoMembers(x, y, names, true);
    var v := Object([x, y]);
    assert Plain(v) && NoNulls(v) by {
      assert forall i :: 0 <= i < 2 ==> v.members[i].value == True;
    }
    OneMember(Member(a, v), names, true);
    OneMember(Member(a, Object([x])), names, true);
  }

  lemma BlindBelow(a: CStr, b: CStr)
    requires Fold(a, false) == Fold(b, false) && StrCmp(a, b) < 0
    ensures var x, y := Member(a, True), Member(b, True);
            var patch := GenerateMerge(Below(a, [x, y]), Below(a, [x]), true);
            patch.Some? && Merge(Some(Below(a, [x, y])), patch.value, true) == Below(a, [])
  {
    var x, y := Member(a, True), Member(b, True);
    NestedPatch(a, b);
    NestedLeft(a, b);
    BelowPatch(a, [x, y], [x], [x, Member(b, Null), Member(a, Null)]);
    StrCmpZero(a, b);
    MixedCaseMerge(y, x, true);
    BelowMerge(a, [x, y], [x, Member(b, Null), Member(a, Null)]);
  }

  lemma BelowPatch(a: CStr, ms: seq<Member>, ns: seq<Member>, p: seq<Member>)
    requires AfterCompare(Object(ms), Object(ns), true) == Object(ms)
    requires AfterCompare(Object(ns), Object(ms), true) == Object(ns)
    requires GenerateMerge(Object(ms), Object(ns), false) == Some(Object(p))
             && !CompareJson(Object(ms), Object(ns), true)
    ensures GenerateMerge(Below(a, ms), Below(a, ns), true) == Some(Below(a, p))
  {
    var from, to := Below(a, ms).members, Below(a, ns).members;
    assert SortMembers(from, true) == from && SortMembers(to, true) == to;
    SortedSizes(from, true);
    StrCmpZero(a, a);
    assert from[1..] == [] && to[1..] == [];
    assert CommonPatch(from[0], to[0], true, Size(Object(from))) == [Member(a, Object(p))];
    assert GenerateMembers(from, to, true, Size(Object(from))) == [Member(a, Object(p))] + [];
    assert Below(a, ms) == Object(from) && Below(a, ns) == Object(to)
           && Below(a, p) == Object([Member(a, Object(p))] + []);
  }

  lemma BelowMerge(a: CStr, ms: seq<Member>, p: seq<Member>)
    ensures Merge(Some(Below(a, ms)), Below(a, p), true) == Below(a, MergeMembers(ms, p, true))
  {
    var from, patch := Below(a, ms).members, Below(a, p).members;
    assert Detach(from, a, true) == [] + [] && patch[1..] == [];
    assert MergeMembers(from, patch, true) == [] + [Member(a, Merge(Some(Object(ms)), Object(p), true))];
  }

  /** Comparing the two leaves them as they are. */
  lemma NestedLeft(a: CStr, b: CStr)
    requires StrCmp(a, b) < 0
    ensures var v, w := Object([Member(a, True), Member(b, True)]), Object([Member(a, True)]);
            AfterCompare(v, w, true) == v && AfterCompare(w, v, true) == w
  {
    var ms, ns := [Member(a, True), Member(b, True)], [Member(a, True)];
    assert Increasing(ms, true) && SortMembers(ns, true) == ns;
    assert AfterCompare(True, True, true) == True;
    assert AfterCompare(Object(ms), Object(ns), true).members == ms;
    assert AfterCompare(Object(ns), Object(ms), true).members == ns;
  }

  lemma NestedPatch(a: CStr, b: CStr)
    requires Fold(a, false) == Fold(b, false) && StrCmp(a, b) < 0
    ensures var x, y := Member(a, True), Member(b, True);
            && GenerateMerge(Object([x, y]), Object([x]), false) == Some(Object([x, Member(b, Null), Member(a, Null)]))
            && !CompareJson(Object([x, y]), Object([x]), true)
  {
    var x, y := Member(a, True), Member(b, True);
    var ms := [x, y];
    CompareKeysOrder(a, b, b, false);
    StrCmpFlip(a, b);
    assert CompareKeys(ms[0].key, ms[1].key, false) == 0;
    assert !Increasing(ms, false) && ms[..1] == [x] && ms[1..] == [y];
    assert MergeLists([x], [y]) == [y] + [x];
    assert SortMembers(ms, false) == [y, x] && SortMembers([x], false) == [x];
    SortedSizes(ms, false);
    MixedCaseWalk(y, x, Size(Object(ms)), false);
    SortPermutes(ms, true);
    assert |multiset(SortMembers(ms, true))| == 2;
  }
}
