/**
 Documents over names that differ in more than case: the case flag makes no difference to what they mean, and none
 to sorting and comparing them where strcmp and the case-blind order agree.
 */
module EitherFlag {
  import opened CStrings
  import opened Json
  import opened Sorting
  import opened Compare
  import opened CompareSorted
  import opened Rearranged
  import opened CompareInPlace

  ghost predicate NamesIn(ms: seq<Member>, names: iset<CStr>) {
    forall i :: 0 <= i < |ms| ==> ms[i].key in names
  }

  lemma FindByEitherFlag(ms: seq<Member>, key: CStr, names: iset<CStr>)
    requires DistinctNames(names) && key in names && NamesIn(ms, names)
    ensures FindKey(ms, key, true) == FindKey(ms, key, false)
  {
    forall i | 0 <= i < |ms|
      ensures Fold(ms[i].key, true) == Fold(key, true) <==> Fold(ms[i].key, false) == Fold(key, false)
    {
      assert ms[i].key in names;
    }
  }

  /** Over names that differ in more than case, documents that mean the same under one flag do so under the other. */
  lemma {:induction false} SameByEitherFlag(v: JSON, w: JSON, names: iset<CStr>, cs: bool)
    requires DistinctNames(names) && KeysIn(v, names) && KeysIn(w, names) && Canon(v, cs) == Canon(w, cs)
    ensures Canon(v, !cs) == Canon(w, !cs)
    decreases v, w
  {
    match v
    case Array(items) =>
      forall i | 0 <= i < |items| ensures Canon(items[i], !cs) == Canon(w.items[i], !cs) {
        assert Canon(v, cs).elems[i] == Canon(w, cs).elems[i];
        SameByEitherFlag(items[i], w.items[i], names, cs);
      }
    case Object(ms) =>
      var ns := w.members;
      forall i, j | 0 <= i < |ms| && 0 <= j < |ns| && Canon(ms[i].value, cs) == Canon(ns[j].value, cs)
        ensures Canon(ms[i].value, !cs) == Canon(ns[j].value, !cs)
      {
        SameByEitherFlag(ms[i].value, ns[j].value, names, cs);
      }
      FieldsByEitherFlag(ms, ns, names, cs, !cs);
      FieldsByEitherFlag(ns, ms, names, cs, !cs);
      assert CanonMembers(ms, !cs) == CanonMembers(ns, !cs);
    case _ =>
  }

  lemma FieldsByEitherFlag(ms: seq<Member>, ns: seq<Member>, names: iset<CStr>, cs: bool, other: bool)
    requires DistinctNames(names) && NamesIn(ms, names) && NamesIn(ns, names)
    requires CanonMembers(ms, cs) == CanonMembers(ns, cs)
    requires forall i, j :: 0 <= i < |ms| && 0 <= j < |ns| && Canon(ms[i].value, cs) == Canon(ns[j].value, cs) ==>
               Canon(ms[i].value, other) == Canon(ns[j].value, other)
    ensures forall k :: k in CanonMembers(ms, other) ==>
              k in CanonMembers(ns, other) && CanonMembers(ms, other)[k] == CanonMembers(ns, other)[k]
  {
    forall k | k in CanonMembers(ms, other)
      ensures k in CanonMembers(ns, other) && CanonMembers(ms, other)[k] == CanonMembers(ns, other)[k]
    {
      MapKeys(ms, other);
      var i :| 0 <= i < |ms| && Fold(ms[i].key, other) == k;
      var key := ms[i].key;
      FindByEitherFlag(ms, key, names);
      FindByEitherFlag(ns, key, names);
      LookupIsMap(ms, key, cs);
      LookupIsMap(ms, key, other);
      LookupIsMap(ns, key, cs);
      LookupIsMap(ns, key, other);
    }
  }

  lemma {:induction false} DistinctByEitherFlag(v: JSON, names: iset<CStr>)
    requires DistinctNames(names) && KeysIn(v, names) && DistinctKeys(v, true)
    ensures DistinctKeys(v, false)
    decreases v
  {
    match v
    case Array(items) =>
      forall i | 0 <= i < |items| ensures DistinctKeys(items[i], false) { DistinctByEitherFlag(items[i], names); }
    case Object(ms) =>
      forall i | 0 <= i < |ms| ensures DistinctKeys(ms[i].value, false) { DistinctByEitherFlag(ms[i].value, names); }
      forall i, j | 0 <= i < j < |ms| ensures Fold(ms[i].key, false) != Fold(ms[j].key, false) {
        assert ms[i].key in names && ms[j].key in names;
      }
    case _ =>
  }

  lemma {:induction false} KeysInMore(v: JSON, names: iset<CStr>, more: iset<CStr>)
    requires KeysIn(v, names) && names <= more
    ensures KeysIn(v, more)
    decreases v
  {
    match v
    case Array(items) =>
      forall i | 0 <= i < |items| ensures KeysIn(items[i], more) { KeysInMore(items[i], names, more); }
    case Object(ms) =>
      forall i | 0 <= i < |ms| ensures KeysIn(ms[i].value, more) { KeysInMore(ms[i].value, names, more); }
    case _ =>
  }

  lemma TailIn(ms: seq<Member>, names: iset<CStr>)
    requires ms != [] && KeysIn(Object(ms), names)
    ensures ms[0].key in names && KeysIn(ms[0].value, names) && KeysIn(Object(ms[1..]), names)
  {
  }

  lemma DetachedIn(ms: seq<Member>, key: CStr, cs: bool, names: iset<CStr>)
    requires KeysIn(Object(ms), names)
    ensures KeysIn(Object(Detach(ms, key, cs)), names)
  {
    var r := Detach(ms, key, cs);
    forall i | 0 <= i < |r| ensures r[i].key in names && KeysIn(r[i].value, names) {
      assert r[i] in r;
      assert r[i] in ms;
    }
  }

  /** Where the orders agree, the flag makes no difference to sorting. */
  lemma {:induction false} SortByEitherFlag(ms: seq<Member>, names: iset<CStr>)
    requires OrdersAgree(names) && NamesIn(ms, names)
    ensures SortMembers(ms, true) == SortMembers(ms, false)
    decreases |ms|
  {
    assert Increasing(ms, true) <==> Increasing(ms, false);
    if |ms| >= 2 && !Increasing(ms, true) {
      var middle := (|ms| + 1) / 2;
      SortByEitherFlag(ms[..middle], names);
      SortByEitherFlag(ms[middle..], names);
    }
  }

  /** Nor to comparing. */
  lemma {:induction false} CompareByEitherFlag(a: JSON, b: JSON, names: iset<CStr>)
    requires OrdersAgree(names) && KeysIn(a, names) && KeysIn(b, names)
    ensures CompareJson(a, b, true) == CompareJson(a, b, false)
    decreases Size(a)
  {
    if SameType(a, b) && a.Array? {
      forall i | 0 <= i < |a.items| && i < |b.items|
        ensures CompareJson(a.items[i], b.items[i], true) == CompareJson(a.items[i], b.items[i], false)
      {
        CompareByEitherFlag(a.items[i], b.items[i], names);
      }
    } else if SameType(a, b) && a.Object? {
      var xs, ys := SortMembers(a.members, false), SortMembers(b.members, false);
      SortByEitherFlag(a.members, names);
      SortByEitherFlag(b.members, names);
      SortedIn(a.members, names, false);
      SortedIn(b.members, names, false);
      forall i | 0 <= i < |xs| && i < |ys|
        ensures CompareKeys(xs[i].key, ys[i].key, true) == 0 <==> CompareKeys(xs[i].key, ys[i].key, false) == 0
        ensures CompareJson(xs[i].value, ys[i].value, true) == CompareJson(xs[i].value, ys[i].value, false)
      {
        SortedSmaller(a.members, false, i);
        AgreeingOrder(names, xs[i].key, ys[i].key);
        CompareByEitherFlag(xs[i].value, ys[i].value, names);
      }
      assert CompareJson(a, b, true) <==> MembersAgree(xs, ys, true);
      assert CompareJson(a, b, false) <==> MembersAgree(xs, ys, false);
    }
  }

  /** The flag makes no difference to comparing two values and to what that leaves. */
  ghost predicate Indifferent(v: JSON, w: JSON) {
    CompareJson(v, w, true) == CompareJson(v, w, false) && AfterCompare(v, w, true) == AfterCompare(v, w, false)
  }

  lemma ReachedByEitherFlag(xs: seq<JSON>, ys: seq<JSON>, i: nat)
    requires forall j :: 0 <= j < |xs| && j < |ys| ==> Indifferent(xs[j], ys[j])
    ensures Reached(xs, ys, i, true) <==> Reached(xs, ys, i, false)
  {
    if i < |xs| && i < |ys| {
      assert forall j :: 0 <= j < i ==> Indifferent(xs[j], ys[j]);
    }
  }

  lemma ItemsByEitherFlag(xs: seq<JSON>, ys: seq<JSON>)
    requires forall i :: 0 <= i < |xs| && i < |ys| ==> Indifferent(xs[i], ys[i])
    ensures AfterCompare(Array(xs), Array(ys), true) == AfterCompare(Array(xs), Array(ys), false)
  {
    var r, s := AfterCompare(Array(xs), Array(ys), true).items, AfterCompare(Array(xs), Array(ys), false).items;
    forall i | 0 <= i < |xs| ensures r[i] == s[i] {
      ReachedByEitherFlag(xs, ys, i);
      if i < |ys| {
        assert Indifferent(xs[i], ys[i]);
      }
    }
    assert r == s;
  }

  /** The same for two members, names included. */
  ghost predicate IndifferentMembers(x: Member, y: Member) {
    (CompareKeys(x.key, y.key, true) == 0 <==> CompareKeys(x.key, y.key, false) == 0) && Indifferent(x.value, y.value)
  }

  lemma ReachedMemberByEitherFlag(xs: seq<Member>, ys: seq<Member>, i: nat)
    requires forall j :: 0 <= j < |xs| && j < |ys| ==> IndifferentMembers(xs[j], ys[j])
    ensures ReachedMember(xs, ys, i, true) <==> ReachedMember(xs, ys, i, false)
  {
    if i < |xs| && i < |ys| {
      assert IndifferentMembers(xs[i], ys[i]);
      assert forall j :: 0 <= j < i ==> IndifferentMembers(xs[j], ys[j]);
    }
  }

  lemma LeftBehindByEitherFlag(xs: seq<Member>, ys: seq<Member>, r: seq<Member>, s: seq<Member>)
    requires forall i :: 0 <= i < |xs| && i < |ys| ==> IndifferentMembers(xs[i], ys[i])
    requires LeftBehind(xs, ys, r, true) && LeftBehind(xs, ys, s, false)
    ensures r == s
  {
    forall i | 0 <= i < |xs| ensures r[i] == s[i] {
      ReachedMemberByEitherFlag(xs, ys, i);
      if i < |ys| {
        assert IndifferentMembers(xs[i], ys[i]);
      }
    }
  }

  lemma MembersByEitherFlag(ms: seq<Member>, ns: seq<Member>)
    requires SortMembers(ms, true) == SortMembers(ms, false) && SortMembers(ns, true) == SortMembers(ns, false)
    requires var xs, ys := SortMembers(ms, false), SortMembers(ns, false);
             forall i :: 0 <= i < |xs| && i < |ys| ==> IndifferentMembers(xs[i], ys[i])
    ensures AfterCompare(Object(ms), Object(ns), true) == AfterCompare(Object(ms), Object(ns), false)
  {
    MembersLeftBehind(ms, ns, true);
    MembersLeftBehind(ms, ns, false);
    LeftBehindByEitherFlag(SortMembers(ms, false), SortMembers(ns, false),
                           AfterCompare(Object(ms), Object(ns), true).members,
                           AfterCompare(Object(ms), Object(ns), false).members);
  }

  /** Nor to what comparing leaves. */
  lemma {:induction false} LeftByEitherFlag(a: JSON, b: JSON, names: iset<CStr>)
    requires OrdersAgree(names) && KeysIn(a, names) && KeysIn(b, names)
    ensures Indifferent(a, b)
    decreases Size(a)
  {
    CompareByEitherFlag(a, b, names);
    if SameType(a, b) && a.Array? {
      forall i | 0 <= i < |a.items| && i < |b.items| ensures Indifferent(a.items[i], b.items[i]) {
        LeftByEitherFlag(a.items[i], b.items[i], names);
      }
      ItemsByEitherFlag(a.items, b.items);
    } else if SameType(a, b) && a.Object? {
      var xs, ys := SortMembers(a.members, false), SortMembers(b.members, false);
      SortByEitherFlag(a.members, names);
      SortByEitherFlag(b.members, names);
      SortedIn(a.members, names, false);
      SortedIn(b.members, names, false);
      forall i | 0 <= i < |xs| && i < |ys| ensures IndifferentMembers(xs[i], ys[i]) {
        SortedSmaller(a.members, false, i);
        AgreeingOrder(names, xs[i].key, ys[i].key);
        LeftByEitherFlag(xs[i].value, ys[i].value, names);
      }
      MembersByEitherFlag(a.members, b.members);
    }
  }
}
