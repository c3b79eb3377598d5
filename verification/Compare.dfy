/**
 The two comparisons of item trees: cJSON_Compare looks every member up in the other object,
 compare_json sorts both objects and walks them side by side.
 */
module Compare {
  import opened Wrappers
  import opened CStrings
  import opened Json
  import opened Sorting

  function Size(v: JSON): nat
    decreases v
  {
    match v
    case Array(items) => 1 + SizeOfItems(items)
    case Object(members) => 1 + SizeOfMembers(members)
    case _ => 1
  }

  function SizeOfItems(items: seq<JSON>): (n: nat)
    ensures forall i :: 0 <= i < |items| ==> Size(items[i]) <= n
    decreases items
  {
    if items == [] then 0 else Size(items[0]) + SizeOfItems(items[1..])
  }

  function SizeOfMembers(ms: seq<Member>): (n: nat)
    ensures forall i :: 0 <= i < |ms| ==> Size(ms[i].value) <= n
    decreases ms
  {
    if ms == [] then 0 else Size(ms[0].value) + SizeOfMembers(ms[1..])
  }

  /** The type test both comparisons start with. */
  predicate SameType(a: JSON, b: JSON) {
    match a
    case Invalid => b.Invalid?
    case False => b.False?
    case True => b.True?
    case Null => b.Null?
    case Number(_) => b.Number?
    case String(_) => b.String?
    case Raw(_) => b.Raw?
    case Array(_) => b.Array?
    case Object(_) => b.Object?
  }

  /** No invalid item inside, and members that share a key share a meaning. */
  ghost predicate Regular(v: JSON, cs: bool)
    decreases v
  {
    match v
    case Invalid => false
    case Array(items) => forall i :: 0 <= i < |items| ==> Regular(items[i], cs)
    case Object(ms) =>
      forall i {:trigger ms[i]} :: 0 <= i < |ms| ==> Regular(ms[i].value, cs) && AgreesWithFirst(ms, i, cs)
    case _ => true
  }

  ghost predicate AgreesWithFirst(ms: seq<Member>, i: nat, cs: bool)
    requires i < |ms|
  {
    Fold(ms[i].key, cs) in CanonMembers(ms, cs) && CanonMembers(ms, cs)[Fold(ms[i].key, cs)] == Canon(ms[i].value, cs)
  }

  /** Both mean the same and neither has an invalid item or a repeated key with two meanings. */
  ghost predicate SameItems(a: JSON, b: JSON, cs: bool) {
    Canon(a, cs) == Canon(b, cs) && Regular(a, cs) && Regular(b, cs)
  }

  /** cJSON_Compare, on every pair of trees: it says yes exactly for the same items. */
  method CompareItems(a: JSON, b: JSON, cs: bool) returns (equal: bool)
    ensures equal <==> SameItems(a, b, cs)
    decreases Size(a) + Size(b), 1
  {
    if !SameType(a, b) || a.Invalid? {
      return false;
    }
    match a
    case Invalid => return false;
    case False => return true;
    case True => return true;
    case Null => return true;
    case Number(n) => return n == b.num;
    case String(s) => return s == b.str;
    case Raw(s) => return s == b.raw;
    case Array(items) => equal := CompareArrays(items, b.items, cs);
    case Object(ms) =>
      equal := CoveredBy(ms, b.members, cs, Size(a) + Size(b));
      if !equal {
        NotCovered(ms, b.members, cs);
        return;
      }
      equal := CoveredBy(b.members, ms, cs, Size(a) + Size(b));
      if !equal {
        NotCovered(b.members, ms, cs);
        return;
      }
      MutuallyCovered(ms, b.members, cs);
  }

  /**
   cJSON_Compare on two pointers, each to an item or NULL: `same` says that they are one pointer. An item is
   equal to itself, whatever it holds, unless it is invalid.
   */
  method ComparePointedItems(a: Option<JSON>, b: Option<JSON>, same: bool, cs: bool) returns (equal: bool)
    requires same ==> a == b
    ensures equal <==> a.Some? && b.Some?
                       && ((same && !a.value.Invalid?) || SameItems(a.value, b.value, cs))
  {
    if a.None? || b.None? {
      return false;
    }
    if same {
      return !a.value.Invalid?;
    }
    equal := CompareItems(a.value, b.value, cs);
  }

  method CompareArrays(xs: seq<JSON>, ys: seq<JSON>, cs: bool) returns (equal: bool)
    ensures equal <==> SameItems(Array(xs), Array(ys), cs)
    decreases Size(Array(xs)) + Size(Array(ys)), 0
  {
    ghost var cx, cy := Canon(Array(xs), cs).elems, Canon(Array(ys), cs).elems;
    var i := 0;
    while i < |xs| && i < |ys|
      invariant i <= |xs| && i <= |ys|
      invariant forall j :: 0 <= j < i ==> cx[j] == cy[j] && Regular(xs[j], cs) && Regular(ys[j], cs)
    {
      equal := CompareItems(xs[i], ys[i], cs);
      assert cx[i] == Canon(xs[i], cs) && cy[i] == Canon(ys[i], cs);
      if !equal {
        return;
      }
      i := i + 1;
    }
    assert |cx| == |xs| && |cy| == |ys|;
    return i == |xs| && i == |ys|;
  }

  /** Either of the two member loops of cJSON_Compare. */
  method CoveredBy(xs: seq<Member>, ys: seq<Member>, cs: bool, ghost size: nat) returns (covered: bool)
    requires size == Size(Object(xs)) + Size(Object(ys))
    ensures covered <==> forall i :: 0 <= i < |xs| ==> MapsTo(xs, ys, i, cs)
    decreases size, 0
  {
    var i := 0;
    while i < |xs|
      invariant 0 <= i <= |xs|
      invariant forall j :: 0 <= j < i ==> MapsTo(xs, ys, j, cs)
    {
      var j := GetObjectItem(ys, xs[i].key, cs);
      if j == |ys| {
        assert !MapsTo(xs, ys, i, cs);
        return false;
      }
      covered := CompareItems(xs[i].value, ys[j].value, cs);
      if !covered {
        assert !MapsTo(xs, ys, i, cs);
        return;
      }
      i := i + 1;
    }
    return true;
  }

  /** Member i of xs meets a member of ys with its key that compares equal. */
  ghost predicate MapsTo(xs: seq<Member>, ys: seq<Member>, i: nat, cs: bool)
    requires i < |xs|
  {
    var j := FindKey(ys, xs[i].key, cs);
    j < |ys| && Canon(xs[i].value, cs) == Canon(ys[j].value, cs) && Regular(xs[i].value, cs) && Regular(ys[j].value, cs)
  }

  lemma NotCovered(xs: seq<Member>, ys: seq<Member>, cs: bool)
    requires exists i :: 0 <= i < |xs| && !MapsTo(xs, ys, i, cs)
    ensures !SameItems(Object(xs), Object(ys), cs)
  {
    var i :| 0 <= i < |xs| && !MapsTo(xs, ys, i, cs);
    LookupIsMap(ys, xs[i].key, cs);
    MapKeys(xs, cs);
    assert Fold(xs[i].key, cs) in CanonMembers(xs, cs);
    if Regular(Object(xs), cs) {
      assert AgreesWithFirst(xs, i, cs);
    }
  }

  lemma MutuallyCovered(xs: seq<Member>, ys: seq<Member>, cs: bool)
    requires forall i :: 0 <= i < |xs| ==> MapsTo(xs, ys, i, cs)
    requires forall i :: 0 <= i < |ys| ==> MapsTo(ys, xs, i, cs)
    ensures CanonMembers(xs, cs) == CanonMembers(ys, cs) && Regular(Object(xs), cs) && Regular(Object(ys), cs)
  {
    CoveredMap(xs, ys, cs);
    CoveredMap(ys, xs, cs);
    assert CanonMembers(xs, cs) == CanonMembers(ys, cs);
    CoveredRegular(xs, ys, cs);
    CoveredRegular(ys, xs, cs);
  }

  lemma CoveredRegular(xs: seq<Member>, ys: seq<Member>, cs: bool)
    requires forall i :: 0 <= i < |xs| ==> MapsTo(xs, ys, i, cs)
    requires CanonMembers(xs, cs) == CanonMembers(ys, cs)
    ensures Regular(Object(xs), cs)
  {
    forall i | 0 <= i < |xs| ensures Regular(xs[i].value, cs) && AgreesWithFirst(xs, i, cs) {
      assert MapsTo(xs, ys, i, cs);
      LookupIsMap(ys, xs[i].key, cs);
    }
  }

  lemma CoveredMap(xs: seq<Member>, ys: seq<Member>, cs: bool)
    requires forall i :: 0 <= i < |xs| ==> MapsTo(xs, ys, i, cs)
    ensures forall k :: k in CanonMembers(xs, cs) ==>
              k in CanonMembers(ys, cs) && CanonMembers(xs, cs)[k] == CanonMembers(ys, cs)[k]
  {
    forall k | k in CanonMembers(xs, cs)
      ensures k in CanonMembers(ys, cs) && CanonMembers(xs, cs)[k] == CanonMembers(ys, cs)[k]
    {
      MapKeys(xs, cs);
      var i :| 0 <= i < |xs| && Fold(xs[i].key, cs) == k;
      var first := FindKey(xs, xs[i].key, cs);
      LookupIsMap(xs, xs[i].key, cs);
      assert MapsTo(xs, ys, first, cs);
      LookupIsMap(ys, xs[first].key, cs);
    }
  }
}
