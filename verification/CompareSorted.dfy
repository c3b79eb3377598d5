/**
 compare_json: sorts both objects and walks them side by side. On trees with distinct keys it
 decides the same relation as the lookups of cJSON_Compare, up to raw items, which it never
 looks into.
 */
module CompareSorted {
  import opened CStrings
  import opened Json
  import opened Sorting
  import opened Compare

  lemma SortedSmaller(ms: seq<Member>, cs: bool, i: nat)
    requires i < |SortMembers(ms, cs)|
    ensures Size(SortMembers(ms, cs)[i].value) < Size(Object(ms))
  {
    SortPermutes(ms, cs);
    var m := SortMembers(ms, cs)[i];
    assert m in multiset(SortMembers(ms, cs));
    assert m in ms;
  }

  lemma SortedSizes(ms: seq<Member>, cs: bool)
    ensures forall i :: 0 <= i < |SortMembers(ms, cs)| ==> Size(SortMembers(ms, cs)[i].value) < Size(Object(ms))
  {
    forall i | 0 <= i < |SortMembers(ms, cs)| ensures Size(SortMembers(ms, cs)[i].value) < Size(Object(ms)) {
      SortedSmaller(ms, cs, i);
    }
  }

  predicate CompareJson(a: JSON, b: JSON, cs: bool)
    decreases Size(a)
  {
    if !SameType(a, b) then false
    else match a
      case Number(n) => n == b.num
      case String(s) => s == b.str
      case Array(items) =>
        |items| == |b.items| && forall i :: 0 <= i < |items| ==> CompareJson(items[i], b.items[i], cs)
      case Object(ms) =>
        var xs, ys := SortMembers(ms, cs), SortMembers(b.members, cs);
        |xs| == |ys| &&
        forall i :: 0 <= i < |xs| ==>
          (SortedSmaller(ms, cs, i);
           CompareKeys(xs[i].key, ys[i].key, cs) == 0 && CompareJson(xs[i].value, ys[i].value, cs))
      case _ => true
  }

  /** What the walk over two sorted member lists finds out. */
  predicate MembersAgree(xs: seq<Member>, ys: seq<Member>, cs: bool) {
    |xs| == |ys| && forall i :: 0 <= i < |xs| ==>
      CompareKeys(xs[i].key, ys[i].key, cs) == 0 && CompareJson(xs[i].value, ys[i].value, cs)
  }

  /** The same meaning, but for the text of raw items. */
  ghost predicate Alike(s: Tree, t: Tree)
    decreases s
  {
    match s
    case Scalar(v) => t.Scalar? && (v == t.scalar || (v.Raw? && t.scalar.Raw?))
    case Arr(elems) => t.Arr? && |elems| == |t.elems| && forall i :: 0 <= i < |elems| ==> Alike(elems[i], t.elems[i])
    case Obj(fields) =>
      t.Obj? && fields.Keys == t.fields.Keys && forall k :: k in fields ==> Alike(fields[k], t.fields[k])
  }

  /** With distinct keys, sorting and walking decides sameness of meaning. */
  lemma {:induction false} CompareJsonMeaning(a: JSON, b: JSON)
    requires DistinctKeys(a, false) && DistinctKeys(b, false)
    ensures CompareJson(a, b, false) <==> Alike(Canon(a, false), Canon(b, false))
    decreases Size(a), 2
  {
    if SameType(a, b) {
      match a
      case Array(items) =>
        var ca, cb := Canon(a, false).elems, Canon(b, false).elems;
        if |items| == |b.items| {
          forall i | 0 <= i < |items| ensures CompareJson(items[i], b.items[i], false) <==> Alike(ca[i], cb[i]) {
            CompareJsonMeaning(items[i], b.items[i]);
          }
        }
      case Object(ms) =>
        CompareObjectsMeaning(ms, b.members);
      case _ =>
    }
  }

  lemma CompareObjectsMeaning(ms: seq<Member>, ns: seq<Member>)
    requires DistinctKeys(Object(ms), false) && DistinctKeys(Object(ns), false)
    ensures CompareJson(Object(ms), Object(ns), false) <==>
            Alike(Obj(CanonMembers(ms, false)), Obj(CanonMembers(ns, false)))
    decreases Size(Object(ms)), 1
  {
    var xs, ys := SortMembers(ms, false), SortMembers(ns, false);
    SortStrict(ms);
    SortStrict(ns);
    SortKeepsMeaning(ms, false, false);
    SortKeepsMeaning(ns, false, false);
    forall i | 0 <= i < |xs| ensures DistinctKeys(xs[i].value, false) && Size(xs[i].value) < Size(Object(ms)) {
      assert xs[i] in ms;
      SortedSmaller(ms, false, i);
    }
    forall i | 0 <= i < |ys| ensures DistinctKeys(ys[i].value, false) {
      assert ys[i] in ns;
    }
    WalkMeaning(xs, ys, Size(Object(ms)));
    assert CompareJson(Object(ms), Object(ns), false) <==> MembersAgree(xs, ys, false);
  }

  lemma WalkMeaning(xs: seq<Member>, ys: seq<Member>, bound: nat)
    requires StrictlySorted(xs) && StrictlySorted(ys) && Distinct(xs, false) && Distinct(ys, false)
    requires forall i :: 0 <= i < |xs| ==> DistinctKeys(xs[i].value, false) && Size(xs[i].value) < bound
    requires forall i :: 0 <= i < |ys| ==> DistinctKeys(ys[i].value, false)
    ensures MembersAgree(xs, ys, false) <==> Alike(Obj(CanonMembers(xs, false)), Obj(CanonMembers(ys, false)))
    decreases bound, 0
  {
    var fx, fy := CanonMembers(xs, false), CanonMembers(ys, false);
    if fx.Keys == fy.Keys {
      SameKeysAlign(xs, ys);
    }
    if |xs| == |ys| {
      forall i | 0 <= i < |xs|
        ensures CompareKeys(xs[i].key, ys[i].key, false) == 0 <==> Fold(xs[i].key, false) == Fold(ys[i].key, false)
      {
        CompareKeysOrder(xs[i].key, ys[i].key, ys[i].key, false);
      }
    }
    if |xs| == |ys| && forall i :: 0 <= i < |xs| ==> Fold(xs[i].key, false) == Fold(ys[i].key, false) {
      AlignedKeys(xs, ys);
      forall i | 0 <= i < |xs|
        ensures Fold(xs[i].key, false) in fx
        ensures CompareJson(xs[i].value, ys[i].value, false) <==>
                Alike(fx[Fold(xs[i].key, false)], fy[Fold(xs[i].key, false)])
      {
        MapValue(xs, i, false);
        MapValue(ys, i, false);
        CompareJsonMeaning(xs[i].value, ys[i].value);
      }
      AlikeByIndex(xs, fx, fy);
    }
  }

  /** Checking every key of a map is checking every member that shows in it. */
  lemma AlikeByIndex(xs: seq<Member>, fx: map<CStr, Tree>, fy: map<CStr, Tree>)
    requires fx == CanonMembers(xs, false) && fx.Keys == fy.Keys
    requires forall i :: 0 <= i < |xs| ==> Fold(xs[i].key, false) in fx
    ensures (forall k :: k in fx ==> Alike(fx[k], fy[k])) <==>
            forall i :: 0 <= i < |xs| ==> Alike(fx[Fold(xs[i].key, false)], fy[Fold(xs[i].key, false)])
  {
    MapKeys(xs, false);
    if forall i :: 0 <= i < |xs| ==> Alike(fx[Fold(xs[i].key, false)], fy[Fold(xs[i].key, false)]) {
      forall k | k in fx ensures Alike(fx[k], fy[k]) {
        var i :| 0 <= i < |xs| && Fold(xs[i].key, false) == k;
      }
    }
  }

  ghost predicate StrictlySorted(xs: seq<Member>) {
    forall i, j :: 0 <= i < j < |xs| ==> CompareKeys(xs[i].key, xs[j].key, false) < 0
  }

  lemma AlignedKeys(xs: seq<Member>, ys: seq<Member>)
    requires |xs| == |ys| && forall i :: 0 <= i < |xs| ==> Fold(xs[i].key, false) == Fold(ys[i].key, false)
    ensures CanonMembers(xs, false).Keys == CanonMembers(ys, false).Keys
  {
    MapKeys(xs, false);
    MapKeys(ys, false);
    forall k ensures k in CanonMembers(xs, false) <==> k in CanonMembers(ys, false) {
      if k in CanonMembers(xs, false) {
        var i :| 0 <= i < |xs| && Fold(xs[i].key, false) == k;
        assert Fold(ys[i].key, false) == k;
      }
      if k in CanonMembers(ys, false) {
        var i :| 0 <= i < |ys| && Fold(ys[i].key, false) == k;
        assert Fold(xs[i].key, false) == k;
      }
    }
  }

  /** Two strictly sorted lists with the same keys have them at the same places. */
  lemma SameKeysAlign(xs: seq<Member>, ys: seq<Member>)
    requires StrictlySorted(xs) && StrictlySorted(ys)
    requires CanonMembers(xs, false).Keys == CanonMembers(ys, false).Keys
    ensures |xs| == |ys| && forall i :: 0 <= i < |xs| ==> Fold(xs[i].key, false) == Fold(ys[i].key, false)
  {
    KeysAlign(xs, ys, 0);
  }

  lemma {:induction false} KeysAlign(xs: seq<Member>, ys: seq<Member>, n: nat)
    requires StrictlySorted(xs) && StrictlySorted(ys) && n <= |xs| && n <= |ys|
    requires CanonMembers(xs, false).Keys == CanonMembers(ys, false).Keys
    requires forall i :: 0 <= i < n ==> Fold(xs[i].key, false) == Fold(ys[i].key, false)
    ensures |xs| == |ys| && forall i :: 0 <= i < |xs| ==> Fold(xs[i].key, false) == Fold(ys[i].key, false)
    decreases |xs| - n
  {
    if n < |xs| {
      NextKeyNotBefore(xs, ys, n);
      if n < |ys| {
        NextKeyNotBefore(ys, xs, n);
        CompareKeysOrder(xs[n].key, ys[n].key, ys[n].key, false);
        KeysAlign(xs, ys, n + 1);
      }
    } else if n < |ys| {
      NextKeyNotBefore(ys, xs, n);
    }
  }

  /** Behind n agreeing keys, the next key of one list is not before the next of the other. */
  lemma NextKeyNotBefore(xs: seq<Member>, ys: seq<Member>, n: nat)
    requires StrictlySorted(xs) && StrictlySorted(ys) && n < |xs| && n <= |ys|
    requires CanonMembers(xs, false).Keys == CanonMembers(ys, false).Keys
    requires forall i :: 0 <= i < n ==> Fold(xs[i].key, false) == Fold(ys[i].key, false)
    ensures n < |ys| && CompareKeys(ys[n].key, xs[n].key, false) <= 0
  {
    MapKeys(xs, false);
    MapKeys(ys, false);
    assert Fold(xs[n].key, false) in CanonMembers(xs, false).Keys;
    assert Fold(xs[n].key, false) in CanonMembers(ys, false);
    var j :| 0 <= j < |ys| && Fold(ys[j].key, false) == Fold(xs[n].key, false);
    if j < n {
      CompareKeysOrder(xs[j].key, xs[n].key, xs[n].key, false);
    }
    CompareKeysOrder(ys[n].key, xs[n].key, xs[n].key, false);
    CompareKeysOrder(ys[n].key, ys[j].key, xs[n].key, false);
    CompareKeysOrder(ys[j].key, xs[n].key, xs[n].key, false);
  }

  /** The head's key is in its map and in no later one. */
  lemma HeadKey(xs: seq<Member>)
    requires xs != [] && Distinct(xs, false)
    ensures var k := Fold(xs[0].key, false);
            && k !in CanonMembers(xs[1..], false)
            && CanonMembers(xs, false) == CanonMembers(xs[1..], false)[k := Canon(xs[0].value, false)]
  {
    MapKeys(xs[1..], false);
  }

  /** A key before all keys of a sorted list is not among them. */
  lemma KeyBefore(key: CStr, ys: seq<Member>)
    requires StrictlySorted(ys) && (ys != [] ==> CompareKeys(key, ys[0].key, false) < 0)
    ensures Fold(key, false) !in CanonMembers(ys, false)
  {
    MapKeys(ys, false);
    if Fold(key, false) in CanonMembers(ys, false) {
      var i :| 0 <= i < |ys| && Fold(ys[i].key, false) == Fold(key, false);
      CompareKeysOrder(key, ys[i].key, ys[i].key, false);
      CompareKeysOrder(key, ys[0].key, ys[i].key, false);
    }
  }

  ghost predicate RawFree(t: Tree)
    decreases t
  {
    match t
    case Scalar(v) => !v.Raw?
    case Arr(elems) => forall i :: 0 <= i < |elems| ==> RawFree(elems[i])
    case Obj(fields) => forall k :: k in fields ==> RawFree(fields[k])
  }

  lemma {:induction false} PlainMeaning(v: JSON, cs: bool)
    requires Plain(v)
    ensures RawFree(Canon(v, cs))
    decreases v
  {
    match v
    case Array(items) =>
      forall i | 0 <= i < |items| ensures RawFree(Canon(items[i], cs)) { PlainMeaning(items[i], cs); }
    case Object(ms) =>
      forall k | k in CanonMembers(ms, cs) ensures RawFree(CanonMembers(ms, cs)[k]) {
        MapKeys(ms, cs);
        var i :| 0 <= i < |ms| && Fold(ms[i].key, cs) == k;
        LookupIsMap(ms, ms[i].key, cs);
        PlainMeaning(ms[FindKey(ms, ms[i].key, cs)].value, cs);
      }
    case _ =>
  }

  lemma {:induction false} AlikeIsEqual(s: Tree, t: Tree)
    requires RawFree(s)
    ensures Alike(s, t) <==> s == t
    decreases s
  {
    match s
    case Scalar(v) =>
    case Arr(elems) =>
      if t.Arr? && |elems| == |t.elems| {
        forall i | 0 <= i < |elems| ensures Alike(elems[i], t.elems[i]) <==> elems[i] == t.elems[i] {
          AlikeIsEqual(elems[i], t.elems[i]);
        }
      }
    case Obj(fields) =>
      if t.Obj? && fields.Keys == t.fields.Keys {
        forall k | k in fields ensures Alike(fields[k], t.fields[k]) <==> fields[k] == t.fields[k] {
          AlikeIsEqual(fields[k], t.fields[k]);
        }
      }
  }

  lemma {:induction false} DistinctIsRegular(v: JSON, cs: bool)
    requires Plain(v) && DistinctKeys(v, cs)
    ensures Regular(v, cs)
    decreases v
  {
    match v
    case Array(items) =>
      forall i | 0 <= i < |items| ensures Regular(items[i], cs) { DistinctIsRegular(items[i], cs); }
    case Object(ms) =>
      forall i | 0 <= i < |ms| ensures Regular(ms[i].value, cs) && AgreesWithFirst(ms, i, cs) {
        DistinctIsRegular(ms[i].value, cs);
        MapValue(ms, i, cs);
      }
    case _ =>
  }

  /**
   The two comparisons agree: on trees with distinct keys and neither raw nor invalid items,
   sorting and walking answers what cJSON_Compare answers, namely whether the meanings are equal.
   */
  lemma ComparersAgree(a: JSON, b: JSON)
    requires DistinctKeys(a, false) && DistinctKeys(b, false) && Plain(a) && Plain(b)
    ensures CompareJson(a, b, false) <==> SameItems(a, b, false)
    ensures CompareJson(a, b, false) <==> Canon(a, false) == Canon(b, false)
  {
    CompareJsonMeaning(a, b);
    PlainMeaning(a, false);
    AlikeIsEqual(Canon(a, false), Canon(b, false));
    DistinctIsRegular(a, false);
    DistinctIsRegular(b, false);
  }

  /** So on such trees it is an equivalence. */
  lemma CompareIsEquivalence(a: JSON, b: JSON, c: JSON)
    requires DistinctKeys(a, false) && DistinctKeys(b, false) && DistinctKeys(c, false)
    requires Plain(a) && Plain(b) && Plain(c)
    ensures CompareJson(a, a, false)
    ensures CompareJson(a, b, false) <==> CompareJson(b, a, false)
    ensures CompareJson(a, b, false) && CompareJson(b, c, false) ==> CompareJson(a, c, false)
  {
    ComparersAgree(a, a);
    ComparersAgree(a, b);
    ComparersAgree(b, a);
    ComparersAgree(b, c);
    ComparersAgree(a, c);
  }

  /** compare_json calls every tree equal to a copy of itself, under either flag. */
  lemma {:induction false} EqualsItsCopy(v: JSON, cs: bool)
    ensures CompareJson(v, v, cs)
    decreases Size(v)
  {
    match v
    case Array(items) =>
      forall i | 0 <= i < |items| ensures CompareJson(items[i], items[i], cs) {
        EqualsItsCopy(items[i], cs);
      }
    case Object(ms) =>
      var xs := SortMembers(ms, cs);
      forall i | 0 <= i < |xs|
        ensures CompareKeys(xs[i].key, xs[i].key, cs) == 0 && CompareJson(xs[i].value, xs[i].value, cs)
      {
        SortedSmaller(ms, cs, i);
        CompareKeysOrder(xs[i].key, xs[i].key, xs[i].key, cs);
        EqualsItsCopy(xs[i].value, cs);
      }
    case _ =>
  }

  /**
   So the two comparisons agree on a tree and its copy exactly if there is no invalid item and no repeated key
   with two meanings inside.
   */
  lemma CopiesAgreeIff(v: JSON, cs: bool)
    ensures (CompareJson(v, v, cs) <==> SameItems(v, v, cs)) <==> Regular(v, cs)
  {
    EqualsItsCopy(v, cs);
  }
}
