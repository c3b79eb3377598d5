/**
 The JSON item as a value, and its meaning.

 `JSON` keeps what an item tree stores: the members of an object are a list, in list order,
 and nothing stops two of them from having the same key. `Tree` is what such an item means:
 an object is a map from (folded) keys to meanings, so order is gone and the first of two
 members with one key wins, as it does for every lookup.
 */
module Json {
  import opened Wrappers
  import opened CStrings

  datatype JSON =
    | Invalid
    | False
    | True
    | Null
    | Number(num: real)
    | String(str: CStr)
    | Raw(raw: CStr)
    | Array(items: seq<JSON>)
    | Object(members: seq<Member>)

  datatype Member = Member(key: CStr, value: JSON)

  datatype Tree = Scalar(scalar: JSON) | Arr(elems: seq<Tree>) | Obj(fields: map<CStr, Tree>)

  function Canon(v: JSON, cs: bool): Tree
    decreases v
  {
    match v
    case Array(items) => Arr(seq(|items|, i requires 0 <= i < |items| => Canon(items[i], cs)))
    case Object(members) => Obj(CanonMembers(members, cs))
    case _ => Scalar(v)
  }

  function CanonMembers(ms: seq<Member>, cs: bool): map<CStr, Tree>
    decreases ms
  {
    if ms == [] then map[]
    else CanonMembers(ms[1..], cs)[Fold(ms[0].key, cs) := Canon(ms[0].value, cs)]
  }

  /** Where get_object_item stops: the first member with this key, or the end of the list. */
  function FindKey(ms: seq<Member>, key: CStr, cs: bool): (i: nat)
    ensures i <= |ms|
    ensures i < |ms| ==> Fold(ms[i].key, cs) == Fold(key, cs)
    ensures forall j :: 0 <= j < i ==> Fold(ms[j].key, cs) != Fold(key, cs)
  {
    if ms == [] || Fold(ms[0].key, cs) == Fold(key, cs) then 0
    else 1 + FindKey(ms[1..], key, cs)
  }

  /** The search loop of get_object_item. */
  method GetObjectItem(ms: seq<Member>, key: CStr, cs: bool) returns (i: nat)
    ensures i == FindKey(ms, key, cs)
  {
    i := 0;
    while i < |ms|
      invariant i <= |ms|
      invariant forall j :: 0 <= j < i ==> Fold(ms[j].key, cs) != Fold(key, cs)
    {
      var diff := CompareStrings(key, ms[i].key, cs);
      if diff == 0 {
        return;
      }
      i := i + 1;
    }
  }

  /** A lookup in the member list is a lookup in the map. */
  lemma {:induction false} LookupIsMap(ms: seq<Member>, key: CStr, cs: bool)
    ensures Fold(key, cs) in CanonMembers(ms, cs) <==> FindKey(ms, key, cs) < |ms|
    ensures FindKey(ms, key, cs) < |ms| ==>
              CanonMembers(ms, cs)[Fold(key, cs)] == Canon(ms[FindKey(ms, key, cs)].value, cs)
  {
    if ms != [] && Fold(ms[0].key, cs) != Fold(key, cs) {
      LookupIsMap(ms[1..], key, cs);
    }
  }

  /** No two members have one key. */
  ghost predicate Distinct(ms: seq<Member>, cs: bool) {
    forall i, j :: 0 <= i < j < |ms| ==> Fold(ms[i].key, cs) != Fold(ms[j].key, cs)
  }

  /** No object anywhere in the tree repeats a key. */
  ghost predicate DistinctKeys(v: JSON, cs: bool)
    decreases v
  {
    match v
    case Array(items) => forall i :: 0 <= i < |items| ==> DistinctKeys(items[i], cs)
    case Object(members) =>
      Distinct(members, cs) && forall i :: 0 <= i < |members| ==> DistinctKeys(members[i].value, cs)
    case _ => true
  }

  /** Which keys the map of a member list has. */
  lemma {:induction false} MapKeys(ms: seq<Member>, cs: bool)
    ensures forall k :: k in CanonMembers(ms, cs) <==> exists i :: 0 <= i < |ms| && Fold(ms[i].key, cs) == k
  {
    if ms != [] {
      MapKeys(ms[1..], cs);
      forall k ensures k in CanonMembers(ms, cs) <==> exists i :: 0 <= i < |ms| && Fold(ms[i].key, cs) == k {
        if k in CanonMembers(ms[1..], cs) {
          var i :| 0 <= i < |ms[1..]| && Fold(ms[1..][i].key, cs) == k;
          assert Fold(ms[i + 1].key, cs) == k;
        }
      }
    }
  }

  /** With distinct keys every member shows in the map. */
  lemma {:induction false} MapValue(ms: seq<Member>, i: nat, cs: bool)
    requires Distinct(ms, cs) && i < |ms|
    ensures FindKey(ms, ms[i].key, cs) == i
    ensures Fold(ms[i].key, cs) in CanonMembers(ms, cs)
    ensures CanonMembers(ms, cs)[Fold(ms[i].key, cs)] == Canon(ms[i].value, cs)
  {
    LookupIsMap(ms, ms[i].key, cs);
  }

  /** Reordering members with distinct keys changes nothing in the meaning. */
  lemma SameMembersSameMap(ms: seq<Member>, ns: seq<Member>, cs: bool)
    requires Distinct(ms, cs) && Distinct(ns, cs)
    requires forall m :: m in ms <==> m in ns
    ensures CanonMembers(ms, cs) == CanonMembers(ns, cs)
  {
    SubMap(ms, ns, cs);
    SubMap(ns, ms, cs);
  }

  lemma SubMap(ms: seq<Member>, ns: seq<Member>, cs: bool)
    requires Distinct(ms, cs) && Distinct(ns, cs)
    requires forall m :: m in ms ==> m in ns
    ensures forall k :: k in CanonMembers(ms, cs) ==>
              k in CanonMembers(ns, cs) && CanonMembers(ms, cs)[k] == CanonMembers(ns, cs)[k]
  {
    forall k | k in CanonMembers(ms, cs)
      ensures k in CanonMembers(ns, cs) && CanonMembers(ms, cs)[k] == CanonMembers(ns, cs)[k]
    {
      MapKeys(ms, cs);
      var i :| 0 <= i < |ms| && Fold(ms[i].key, cs) == k;
      MapValue(ms, i, cs);
      assert ms[i] in ns;
      var j :| 0 <= j < |ns| && ns[j] == ms[i];
      MapValue(ns, j, cs);
    }
  }

  /** cJSON_DetachItemFromObject on the member list. */
  function Detach(ms: seq<Member>, key: CStr, cs: bool): (r: seq<Member>)
    ensures forall m :: m in r ==> m in ms
  {
    var i := FindKey(ms, key, cs);
    if i == |ms| then ms else ms[..i] + ms[i + 1..]
  }

  lemma DetachDistinct(ms: seq<Member>, key: CStr, cs: bool)
    requires Distinct(ms, cs)
    ensures Distinct(Detach(ms, key, cs), cs)
    ensures FindKey(Detach(ms, key, cs), key, cs) == |Detach(ms, key, cs)|
  {
    var i := FindKey(ms, key, cs);
    var r := Detach(ms, key, cs);
    if i < |ms| {
      assert forall a :: 0 <= a < |r| ==> r[a] == ms[if a < i then a else a + 1];
    }
  }

  /** Detaching keeps every member under another key. */
  lemma DetachKeeps(ms: seq<Member>, key: CStr, cs: bool, k: CStr)
    requires k in CanonMembers(ms, cs) && k != Fold(key, cs)
    ensures k in CanonMembers(Detach(ms, key, cs), cs)
  {
    var r := Detach(ms, key, cs);
    MapKeys(ms, cs);
    var j :| 0 <= j < |ms| && Fold(ms[j].key, cs) == k;
    var i := FindKey(ms, key, cs);
    var j' := if i == |ms| || j < i then j else j - 1;
    assert r[j'] == ms[j];
    MapKeys(r, cs);
  }

  /** With distinct keys, detaching removes the key from the meaning. */
  lemma DetachRemovesKey(ms: seq<Member>, key: CStr, cs: bool)
    requires Distinct(ms, cs)
    ensures CanonMembers(Detach(ms, key, cs), cs) == CanonMembers(ms, cs) - {Fold(key, cs)}
  {
    var r := Detach(ms, key, cs);
    DetachDistinct(ms, key, cs);
    SubMap(r, ms, cs);
    LookupIsMap(r, key, cs);
    forall k | k in CanonMembers(ms, cs) && k != Fold(key, cs) ensures k in CanonMembers(r, cs) {
      DetachKeeps(ms, key, cs, k);
    }
  }

  lemma AppendDistinct(ms: seq<Member>, m: Member, cs: bool)
    requires Distinct(ms, cs) && FindKey(ms, m.key, cs) == |ms|
    ensures Distinct(ms + [m], cs)
  {
    assert forall i :: 0 <= i < |ms| ==> (ms + [m])[i] == ms[i];
  }

  lemma AppendKeys(ms: seq<Member>, m: Member, cs: bool, k: CStr)
    requires k in CanonMembers(ms + [m], cs)
    ensures k in CanonMembers(ms, cs) || k == Fold(m.key, cs)
  {
    var r := ms + [m];
    MapKeys(r, cs);
    var i :| 0 <= i < |r| && Fold(r[i].key, cs) == k;
    if i < |ms| {
      assert ms[i] == r[i];
      MapKeys(ms, cs);
    }
  }

  /** Appending a member whose key is new adds it to the meaning. */
  lemma {:induction false} AppendAddsKey(ms: seq<Member>, key: CStr, v: JSON, cs: bool)
    requires Distinct(ms, cs) && FindKey(ms, key, cs) == |ms|
    ensures Distinct(ms + [Member(key, v)], cs)
    ensures CanonMembers(ms + [Member(key, v)], cs) == CanonMembers(ms, cs)[Fold(key, cs) := Canon(v, cs)]
  {
    var m := Member(key, v);
    var r := ms + [m];
    AppendDistinct(ms, m, cs);
    SubMap(ms, r, cs);
    LookupIsMap(ms, key, cs);
    assert r[|ms|] == m;
    MapValue(r, |ms|, cs);
    forall k | k in CanonMembers(r, cs) ensures k in CanonMembers(ms, cs) || k == Fold(key, cs) {
      AppendKeys(ms, m, cs, k);
    }
  }

  /** All names in the document, at every level, are among these. */
  ghost predicate KeysIn(v: JSON, names: iset<CStr>)
    decreases v
  {
    match v
    case Array(items) => forall i :: 0 <= i < |items| ==> KeysIn(items[i], names)
    case Object(ms) => forall i {:trigger ms[i]} :: 0 <= i < |ms| ==> ms[i].key in names && KeysIn(ms[i].value, names)
    case _ => true
  }

  /** No raw and no invalid item inside. */
  predicate Plain(v: JSON)
    decreases v
  {
    match v
    case Invalid => false
    case Raw(_) => false
    case Array(items) => forall i :: 0 <= i < |items| ==> Plain(items[i])
    case Object(ms) => forall i :: 0 <= i < |ms| ==> Plain(ms[i].value)
    case _ => true
  }
}
