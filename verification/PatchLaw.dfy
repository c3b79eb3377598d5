/**
 Generating patches from two documents and applying them to the first yields the second.
 */
module PatchLaw {
  import opened Wrappers
  import opened CStrings
  import opened Json
  import opened Sorting
  import opened Compare
  import opened CompareSorted
  import opened Pointer
  import opened Patch
  import opened TreePath
  import opened PatchEffect
  import opened Rearranged
  import opened DiffInPlace

  /** Documents the patch code is fit for: distinct clean keys, arrays indexable by a size_t. */
  ghost predicate Patchable(v: JSON)
    decreases v
  {
    match v
    case Array(items) => |items| < SIZE_T_RANGE && forall i :: 0 <= i < |items| ==> Patchable(items[i])
    case Object(ms) =>
      Distinct(ms, false) && forall i {:trigger ms[i]} :: 0 <= i < |ms| ==> Clean(ms[i].key) && Patchable(ms[i].value)
    case _ => true
  }

  lemma {:induction false} PatchableDistinct(v: JSON)
    requires Patchable(v)
    ensures DistinctKeys(v, false)
    decreases v
  {
    match v
    case Array(items) =>
      forall i | 0 <= i < |items| ensures DistinctKeys(items[i], false) { PatchableDistinct(items[i]); }
    case Object(ms) =>
      forall i | 0 <= i < |ms| ensures DistinctKeys(ms[i].value, false) { PatchableDistinct(ms[i].value); }
    case _ =>
  }

  /**
   The meaning the patched document ends up with: `to`, except that a raw item facing a raw
   item stays as it is, because the generator never looks into raw items.
   */
  ghost function Overlay(from: Tree, to: Tree): Tree
    decreases from
  {
    if from.Arr? && to.Arr? then
      Arr(seq(|to.elems|, i requires 0 <= i < |to.elems| =>
        if i < |from.elems| then Overlay(from.elems[i], to.elems[i]) else to.elems[i]))
    else if from.Obj? && to.Obj? then
      Obj(map k | k in to.fields :: if k in from.fields then Overlay(from.fields[k], to.fields[k]) else to.fields[k])
    else if from.Scalar? && to.Scalar? && from.scalar.Raw? && to.scalar.Raw? then from
    else to
  }

  ghost function OverlayFields(from: map<CStr, Tree>, to: map<CStr, Tree>): map<CStr, Tree> {
    map k | k in to :: if k in from then Overlay(from[k], to[k]) else to[k]
  }

  // ---------- edits on meanings ----------

  /** What a generated patch does to a meaning; None where apply_patch would fail. */
  ghost function ApplyEdit(t: Tree, e: Edit): Option<Tree> {
    var part := GetPart(t, e.at);
    if part.None? then None
    else match e
      case Remove(at, name) =>
        if HasPart(part.value, name) then Some(SetPart(t, at, WithoutPart(part.value, name))) else None
      case Add(at, name, value) =>
        if CanAdd(part.value, name) then Some(SetPart(t, at, PlusPart(part.value, name, Canon(value, false)))) else None
      case Replace(at, value) => Some(SetPart(t, at, Canon(value, false)))
  }

  ghost function ApplyEdits(t: Tree, es: seq<Edit>): Option<Tree>
    decreases |es|
  {
    if es == [] then Some(t)
    else
      var t1 := ApplyEdit(t, es[0]);
      if t1.None? then None else ApplyEdits(t1.value, es[1..])
  }

  lemma {:induction false} ApplyEditsConcat(t: Tree, a: seq<Edit>, b: seq<Edit>)
    requires ApplyEdits(t, a).Some?
    ensures ApplyEdits(t, a + b) == ApplyEdits(ApplyEdits(t, a).value, b)
    decreases |a|
  {
    if a == [] {
      assert a + b == b;
    } else {
      assert (a + b)[1..] == a[1..] + b;
      ApplyEditsConcat(ApplyEdit(t, a[0]).value, a[1..], b);
    }
  }

  /** Edits whose path a pointer can express and whose value has distinct keys. */
  ghost predicate Sound(e: Edit) {
    CleanPath(e.at) && (!e.Replace? ==> Clean(e.name)) && (!e.Remove? ==> DistinctKeys(e.value, false))
  }

  /** Applying one patch simulates its edit. */
  lemma PatchSimulatesEdit(v: JSON, e: Edit)
    requires DistinctKeys(v, false) && Sound(e) && ApplyEdit(Canon(v, false), e).Some?
    ensures var done := ApplyPatch(v, PatchFor(e), false);
            done.0 == 0 && DistinctKeys(done.1, false) && Some(Canon(done.1, false)) == ApplyEdit(Canon(v, false), e)
  {
    match e
    case Remove(at, name) => RemoveEffect(v, at, name);
    case Add(at, name, value) => AddPatchEffect(v, at, name, value);
    case Replace(at, value) => ReplaceEffect(v, at, value);
  }

  /** Applying a list of patches simulates its edits. */
  lemma {:induction false} PatchesSimulateEdits(v: JSON, es: seq<Edit>)
    requires DistinctKeys(v, false) && ApplyEdits(Canon(v, false), es).Some?
    requires forall e :: e in es ==> Sound(e)
    ensures var done := ApplyAll(v, PatchesFor(es), false);
            done.0 == 0 && DistinctKeys(done.1, false) && Some(Canon(done.1, false)) == ApplyEdits(Canon(v, false), es)
    decreases |es|
  {
    if es != [] {
      PatchSimulatesEdit(v, es[0]);
      var w := ApplyPatch(v, PatchFor(es[0]), false).1;
      PatchesSimulateEdits(w, es[1..]);
      AppliedFirst(v, PatchFor(es[0]), PatchesFor(es[1..]));
    }
  }

  lemma AppliedFirst(v: JSON, patch: JSON, rest: seq<JSON>)
    requires ApplyPatch(v, patch, false).0 == 0
    ensures ApplyAll(v, [patch] + rest, false) == ApplyAll(ApplyPatch(v, patch, false).1, rest, false)
  {
    assert ([patch] + rest)[1..] == rest;
  }

  /** Edits that turn the part at toks into x, leaving everything else alone. */
  ghost predicate Achieves(t: Tree, es: seq<Edit>, toks: seq<CStr>, x: Tree) {
    ApplyEdits(t, es) == Some(SetPart(t, toks, x))
  }

  lemma AchievesOne(t: Tree, e: Edit, x: Tree)
    requires ApplyEdit(t, e) == Some(SetPart(t, e.at, x))
    ensures Achieves(t, [e], e.at, x)
  {
    assert [e][1..] == [];
    assert ApplyEdits(SetPart(t, e.at, x), []) == Some(SetPart(t, e.at, x));
  }

  lemma AchievesNothing(t: Tree, toks: seq<CStr>)
    requires GetPart(t, toks).Some?
    ensures Achieves(t, [], toks, GetPart(t, toks).value)
  {
    SetSame(t, toks);
  }

  /** Two runs of edits on one part, one after the other. */
  lemma AchievesThen(t: Tree, a: seq<Edit>, b: seq<Edit>, toks: seq<CStr>, x: Tree, y: Tree)
    requires GetPart(t, toks).Some? && Achieves(t, a, toks, x)
    requires Achieves(SetPart(t, toks, x), b, toks, y)
    ensures Achieves(t, a + b, toks, y)
  {
    ApplyEditsConcat(t, a, b);
    SetSet(t, toks, x, y);
  }

  /** The edits for a part of a document turn it into its overlay. */
  lemma {:induction false} EditsAchieve(t: Tree, toks: seq<CStr>, from: JSON, to: JSON, junk: Memory)
    requires Patchable(from) && Patchable(to) && GetPart(t, toks) == Some(Canon(from, false))
    ensures Achieves(t, EditsFor(toks, from, to, false, junk), toks, Overlay(Canon(from, false), Canon(to, false)))
    decreases Size(from), 3
  {
    var es := EditsFor(toks, from, to, false, junk);
    if SameType(from, to) && from.Array? {
      OverlayArrays(from.items, to.items);
      ArrayEditsAchieve(t, toks, from.items, to.items, 0, [], junk);
    } else if SameType(from, to) && from.Object? {
      MemberEditsAchieve(t, toks, from.members, to.members, junk);
    } else if es == [] {
      AchievesNothing(t, toks);
    } else {
      AchievesOne(t, Replace(toks, to), Canon(to, false));
    }
  }

  // ---------- arrays ----------

  ghost function Elems(items: seq<JSON>): (r: seq<Tree>)
    ensures |r| == |items| && forall i :: 0 <= i < |items| ==> r[i] == Canon(items[i], false)
  {
    seq(|items|, i requires 0 <= i < |items| => Canon(items[i], false))
  }

  /** The overlay of two arrays from position i on. */
  ghost function OverlayFrom(from: seq<JSON>, to: seq<JSON>, i: nat): seq<Tree>
    decreases |to| - i
  {
    if i >= |to| then []
    else [if i < |from| then Overlay(Canon(from[i], false), Canon(to[i], false)) else Canon(to[i], false)] +
         OverlayFrom(from, to, i + 1)
  }

  lemma {:induction false} OverlayFromIndex(from: seq<JSON>, to: seq<JSON>, i: nat)
    requires i <= |to|
    ensures |OverlayFrom(from, to, i)| == |to| - i
    ensures forall k :: i <= k < |to| ==>
              OverlayFrom(from, to, i)[k - i] ==
              if k < |from| then Overlay(Canon(from[k], false), Canon(to[k], false)) else Canon(to[k], false)
    decreases |to| - i
  {
    if i < |to| {
      OverlayFromIndex(from, to, i + 1);
    }
  }

  lemma OverlayArrays(from: seq<JSON>, to: seq<JSON>)
    ensures Arr([] + OverlayFrom(from, to, 0)) == Overlay(Canon(Array(from), false), Canon(Array(to), false))
    ensures Canon(Array(from), false) == Arr([] + Elems(from[0..]))
  {
    OverlayFromIndex(from, to, 0);
    var r := Overlay(Canon(Array(from), false), Canon(Array(to), false));
    assert r.Arr? && |r.elems| == |to|;
    forall k | 0 <= k < |to| ensures OverlayFrom(from, to, 0)[k] == r.elems[k] {
      assert OverlayFrom(from, to, 0)[k - 0] == r.elems[k];
    }
    assert [] + OverlayFrom(from, to, 0) == r.elems;
  }

  lemma IndexPart(elems: seq<Tree>, i: nat)
    requires i < |elems| && i < SIZE_T_RANGE
    ensures Clean(Decimal(i)) && HasPart(Arr(elems), Decimal(i)) && Part(Arr(elems), Decimal(i)) == elems[i]
    ensures forall x :: WithPart(Arr(elems), Decimal(i), x) == Arr(elems[i := x])
    ensures WithoutPart(Arr(elems), Decimal(i)) == Arr(elems[..i] + elems[i + 1..])
  {
    IndexRoundTrip(i);
  }

  /** The first i elements are done; the edits from i on do the rest. */
  lemma {:induction false} ArrayEditsAchieve(t: Tree, toks: seq<CStr>, from: seq<JSON>, to: seq<JSON>, i: nat,
                                             done: seq<Tree>, junk: Memory)
    requires Patchable(Array(from)) && Patchable(Array(to))
    requires i <= |from| && i <= |to| && |done| == i
    requires GetPart(t, toks) == Some(Arr(done + Elems(from[i..])))
    ensures Achieves(t, ArrayEdits(toks, from, to, i, false, junk), toks, Arr(done + OverlayFrom(from, to, i)))
    decreases SizeOfItems(from) + 1, 2, |from| - i
  {
    if i < |from| && i < |to| {
      var x := Overlay(Canon(from[i], false), Canon(to[i], false));
      var a := EditsFor(toks + [Decimal(i)], from[i], to[i], false, junk);
      var y, z := Arr(done + [x] + Elems(from[i + 1..])), Arr(done + OverlayFrom(from, to, i));
      ElementDone(from, to, i, done);
      assert done + [x] + OverlayFrom(from, to, i + 1) == done + OverlayFrom(from, to, i);
      Deeper(t, toks, Decimal(i), x);
      EditsAchieve(t, toks + [Decimal(i)], from[i], to[i], junk);
      assert Achieves(t, a, toks, y);
      GetSet(t, toks, y);
      ArrayEditsAchieve(SetPart(t, toks, y), toks, from, to, i + 1, done + [x], junk);
      AchievesThen(t, a, ArrayEdits(toks, from, to, i + 1, false, junk), toks, y, z);
    } else {
      RestEditsAchieve(t, toks, from, to, i, done, junk);
    }
  }

  lemma ElementDone(from: seq<JSON>, to: seq<JSON>, i: nat, done: seq<Tree>)
    requires i < |from| && i < |to| && |done| == i < SIZE_T_RANGE
    ensures var elems, x := done + Elems(from[i..]), Overlay(Canon(from[i], false), Canon(to[i], false));
            && HasPart(Arr(elems), Decimal(i)) && Part(Arr(elems), Decimal(i)) == Canon(from[i], false)
            && WithPart(Arr(elems), Decimal(i), x) == Arr(done + [x] + Elems(from[i + 1..]))
  {
    var elems, x := done + Elems(from[i..]), Overlay(Canon(from[i], false), Canon(to[i], false));
    var head, rest := Canon(from[i], false), Elems(from[i + 1..]);
    assert Elems(from[i..]) == [head] + rest;
    assert elems == done + [head] + rest;
    IndexPart(elems, i);
    assert elems[i := x] == done + [x] + rest;
  }

  lemma RestEditsAchieve(t: Tree, toks: seq<CStr>, from: seq<JSON>, to: seq<JSON>, i: nat, done: seq<Tree>,
                         junk: Memory)
    requires Patchable(Array(from)) && Patchable(Array(to))
    requires i <= |from| && i <= |to| && (i == |from| || i == |to|) && |done| == i
    requires GetPart(t, toks) == Some(Arr(done + Elems(from[i..])))
    ensures Achieves(t, ArrayEdits(toks, from, to, i, false, junk), toks, Arr(done + OverlayFrom(from, to, i)))
  {
    IndexRoundTrip(i);
    CleanEncoding(Decimal(i), junk);
    CleanEncoding(LAST_INDEX, junk);
    var a, b := Removals(toks, Decimal(i), |from| - i), Additions(toks, LAST_INDEX, to[i..]);
    RemovalsAchieve(t, toks, done, Elems(from[i..]));
    GetSet(t, toks, Arr(done));
    AdditionsAchieve(SetPart(t, toks, Arr(done)), toks, done, to[i..]);
    RestOverlay(from, to, i);
    AchievesThen(t, a, b, toks, Arr(done), Arr(done + OverlayFrom(from, to, i)));
  }

  lemma RestOverlay(from: seq<JSON>, to: seq<JSON>, i: nat)
    requires i <= |from| && i <= |to| && (i == |from| || i == |to|)
    ensures Elems(to[i..]) == OverlayFrom(from, to, i)
  {
    OverlayFromIndex(from, to, i);
    forall j | 0 <= j < |to| - i ensures Elems(to[i..])[j] == OverlayFrom(from, to, i)[j] {
      assert to[i..][j] == to[i + j];
      assert OverlayFrom(from, to, i)[(i + j) - i] == Canon(to[i + j], false);
    }
  }

  lemma {:induction false} RemovalsAchieve(t: Tree, toks: seq<CStr>, done: seq<Tree>, rest: seq<Tree>)
    requires |done| < SIZE_T_RANGE && GetPart(t, toks) == Some(Arr(done + rest))
    ensures Achieves(t, Removals(toks, Decimal(|done|), |rest|), toks, Arr(done))
    decreases |rest|
  {
    var i := |done|;
    if rest == [] {
      assert done + rest == done;
      AchievesNothing(t, toks);
    } else {
      var elems, x := done + rest, Arr(done + rest[1..]);
      IndexPart(elems, i);
      assert elems[..i] + elems[i + 1..] == done + rest[1..];
      AchievesOne(t, Remove(toks, Decimal(i)), x);
      GetSet(t, toks, x);
      RemovalsAchieve(SetPart(t, toks, x), toks, done, rest[1..]);
      AchievesThen(t, [Remove(toks, Decimal(i))], Removals(toks, Decimal(i), |rest| - 1), toks, x, Arr(done));
    }
  }

  lemma {:induction false} AdditionsAchieve(t: Tree, toks: seq<CStr>, done: seq<Tree>, to: seq<JSON>)
    requires GetPart(t, toks) == Some(Arr(done))
    ensures Achieves(t, Additions(toks, LAST_INDEX, to), toks, Arr(done + Elems(to)))
    decreases |to|
  {
    if to == [] {
      assert done + Elems(to) == done;
      AchievesNothing(t, toks);
    } else {
      var e, x := Add(toks, LAST_INDEX, to[0]), Canon(to[0], false);
      AchievesOne(t, e, Arr(done + [x]));
      GetSet(t, toks, Arr(done + [x]));
      AdditionsAchieve(SetPart(t, toks, Arr(done + [x])), toks, done + [x], to[1..]);
      assert Elems(to) == [x] + Elems(to[1..]);
      Regroup(done, [x], Elems(to[1..]));
      AchievesThen(t, [e], Additions(toks, LAST_INDEX, to[1..]), toks, Arr(done + [x]), Arr(done + Elems(to)));
    }
  }

  // ---------- objects ----------

  lemma MemberEditsAchieve(t: Tree, toks: seq<CStr>, from: seq<Member>, to: seq<Member>, junk: Memory)
    requires Patchable(Object(from)) && Patchable(Object(to))
    requires GetPart(t, toks) == Some(Canon(Object(from), false))
    ensures Achieves(t, EditsFor(toks, Object(from), Object(to), false, junk), toks,
                     Overlay(Canon(Object(from), false), Canon(Object(to), false)))
    decreases Size(Object(from)), 2, 0
  {
    var xs, ys := SortMembers(from, false), SortMembers(to, false);
    SortStrict(from);
    SortStrict(to);
    SortKeepsMeaning(from, false, false);
    SortKeepsMeaning(to, false, false);
    SortedSizes(from, false);
    forall i | 0 <= i < |xs| ensures Clean(xs[i].key) && Patchable(xs[i].value) { assert xs[i] in from; }
    forall i | 0 <= i < |ys| ensures Clean(ys[i].key) && Patchable(ys[i].value) { assert ys[i] in to; }
    var fx, fy := CanonMembers(xs, false), CanonMembers(ys, false);
    ObjectEditsAchieve(t, toks, xs, ys, fx, Size(Object(from)), junk);
    assert (fx - fx.Keys) + OverlayFields(fx, fy) == OverlayFields(fx, fy);
    assert Obj(OverlayFields(fx, fy)) == Overlay(Obj(fx), Obj(fy));
  }

  ghost predicate Walkable(xs: seq<Member>) {
    && StrictlySorted(xs) && Distinct(xs, false)
    && forall i {:trigger xs[i]} :: 0 <= i < |xs| ==> Clean(xs[i].key) && Patchable(xs[i].value)
  }

  /** What the object has after the walk: everything not in xs, and the overlay of xs and ys. */
  ghost function Walked(m: map<CStr, Tree>, xs: seq<Member>, ys: seq<Member>): map<CStr, Tree> {
    (m - CanonMembers(xs, false).Keys) + OverlayFields(CanonMembers(xs, false), CanonMembers(ys, false))
  }

  ghost predicate Holds(m: map<CStr, Tree>, part: map<CStr, Tree>) {
    forall k :: k in part ==> k in m && m[k] == part[k]
  }

  lemma {:induction false} ObjectEditsAchieve(t: Tree, toks: seq<CStr>, xs: seq<Member>, ys: seq<Member>,
                                              m: map<CStr, Tree>, bound: nat, junk: Memory)
    requires Walkable(xs) && Walkable(ys)
    requires forall i :: 0 <= i < |xs| ==> Size(xs[i].value) < bound
    requires GetPart(t, toks) == Some(Obj(m)) && Holds(m, CanonMembers(xs, false))
    ensures Achieves(t, ObjectEdits(toks, xs, ys, false, junk, bound), toks, Obj(Walked(m, xs, ys)))
    decreases bound, 1, |xs| + |ys|
  {
    var y := Obj(Walked(m, xs, ys));
    if xs == [] && ys == [] {
      assert Walked(m, xs, ys) == m;
      AchievesNothing(t, toks);
    } else if ys == [] || (xs != [] && CompareKeys(xs[0].key, ys[0].key, false) < 0) {
      var e, m1 := Remove(toks, xs[0].key), m - {Fold(xs[0].key, false)};
      OnlyInFirst(xs, ys, m);
      CleanEncoding(xs[0].key, junk);
      AchievesOne(t, e, Obj(m1));
      GetSet(t, toks, Obj(m1));
      ObjectEditsAchieve(SetPart(t, toks, Obj(m1)), toks, xs[1..], ys, m1, bound, junk);
      AchievesThen(t, [e], ObjectEdits(toks, xs[1..], ys, false, junk, bound), toks, Obj(m1), y);
    } else if xs == [] || CompareKeys(xs[0].key, ys[0].key, false) > 0 {
      var e, m1 := Add(toks, ys[0].key, ys[0].value), m[Fold(ys[0].key, false) := Canon(ys[0].value, false)];
      OnlyInSecond(xs, ys, m);
      CleanEncoding(ys[0].key, junk);
      AchievesOne(t, e, Obj(m1));
      GetSet(t, toks, Obj(m1));
      ObjectEditsAchieve(SetPart(t, toks, Obj(m1)), toks, xs, ys[1..], m1, bound, junk);
      AchievesThen(t, [e], ObjectEdits(toks, xs, ys[1..], false, junk, bound), toks, Obj(m1), y);
    } else {
      var x := Overlay(Canon(xs[0].value, false), Canon(ys[0].value, false));
      var m1 := m[Fold(xs[0].key, false) := x];
      var a := EditsFor(toks + [xs[0].key], xs[0].value, ys[0].value, false, junk);
      CommonMember(xs, ys, m);
      CleanEncoding(xs[0].key, junk);
      Deeper(t, toks, xs[0].key, x);
      EditsAchieve(t, toks + [xs[0].key], xs[0].value, ys[0].value, junk);
      assert Achieves(t, a, toks, Obj(m1));
      GetSet(t, toks, Obj(m1));
      ObjectEditsAchieve(SetPart(t, toks, Obj(m1)), toks, xs[1..], ys[1..], m1, bound, junk);
      AchievesThen(t, a, ObjectEdits(toks, xs[1..], ys[1..], false, junk, bound), toks, Obj(m1), y);
    }
  }

  lemma TailWalkable(xs: seq<Member>)
    requires xs != [] && Walkable(xs)
    ensures Walkable(xs[1..])
  {
  }

  lemma OnlyInFirst(xs: seq<Member>, ys: seq<Member>, m: map<CStr, Tree>)
    requires Walkable(xs) && Walkable(ys) && xs != [] && (ys != [] ==> CompareKeys(xs[0].key, ys[0].key, false) < 0)
    requires Holds(m, CanonMembers(xs, false))
    ensures HasPart(Obj(m), xs[0].key)
    ensures var m1 := m - {Fold(xs[0].key, false)};
            Walkable(xs[1..]) && Holds(m1, CanonMembers(xs[1..], false)) && Walked(m1, xs[1..], ys) == Walked(m, xs, ys)
  {
    var k, m1 := Fold(xs[0].key, false), m - {Fold(xs[0].key, false)};
    HeadKey(xs);
    TailWalkable(xs);
    KeyBefore(xs[0].key, ys);
    assert k in CanonMembers(xs, false);
    WalkedWithoutFirst(m, k, CanonMembers(xs[1..], false), Canon(xs[0].value, false), CanonMembers(ys, false));
  }

  lemma WalkedWithoutFirst(m: map<CStr, Tree>, k: CStr, f: map<CStr, Tree>, x: Tree, g: map<CStr, Tree>)
    requires k !in g
    ensures ((m - {k}) - f.Keys) + OverlayFields(f, g) == (m - f[k := x].Keys) + OverlayFields(f[k := x], g)
  {
    assert OverlayFields(f, g) == OverlayFields(f[k := x], g);
    assert (m - {k}) - f.Keys == m - f[k := x].Keys;
  }

  lemma OnlyInSecond(xs: seq<Member>, ys: seq<Member>, m: map<CStr, Tree>)
    requires Walkable(xs) && Walkable(ys) && ys != [] && (xs != [] ==> CompareKeys(xs[0].key, ys[0].key, false) > 0)
    requires Holds(m, CanonMembers(xs, false))
    ensures var m1 := m[Fold(ys[0].key, false) := Canon(ys[0].value, false)];
            Walkable(ys[1..]) && Holds(m1, CanonMembers(xs, false)) && Walked(m1, xs, ys[1..]) == Walked(m, xs, ys)
  {
    HeadKey(ys);
    TailWalkable(ys);
    if xs != [] {
      CompareKeysOrder(xs[0].key, ys[0].key, ys[0].key, false);
    }
    KeyBefore(ys[0].key, xs);
    WalkedWithSecond(m, Fold(ys[0].key, false), CanonMembers(xs, false), Canon(ys[0].value, false),
                     CanonMembers(ys[1..], false));
  }

  lemma WalkedWithSecond(m: map<CStr, Tree>, k: CStr, f: map<CStr, Tree>, x: Tree, g: map<CStr, Tree>)
    requires k !in f && k !in g
    ensures (m[k := x] - f.Keys) + OverlayFields(f, g) == (m - f.Keys) + OverlayFields(f, g[k := x])
  {
    assert OverlayFields(f, g[k := x]) == OverlayFields(f, g)[k := x];
  }

  lemma CommonMember(xs: seq<Member>, ys: seq<Member>, m: map<CStr, Tree>)
    requires Walkable(xs) && Walkable(ys) && xs != [] && ys != []
    requires CompareKeys(xs[0].key, ys[0].key, false) == 0 && Holds(m, CanonMembers(xs, false))
    ensures var k, x := Fold(xs[0].key, false), Overlay(Canon(xs[0].value, false), Canon(ys[0].value, false));
            var m1 := m[k := x];
            && HasPart(Obj(m), xs[0].key) && Part(Obj(m), xs[0].key) == Canon(xs[0].value, false)
            && WithPart(Obj(m), xs[0].key, x) == Obj(m1)
            && Walkable(xs[1..]) && Walkable(ys[1..])
            && Holds(m1, CanonMembers(xs[1..], false)) && Walked(m1, xs[1..], ys[1..]) == Walked(m, xs, ys)
  {
    var k := Fold(xs[0].key, false);
    CompareKeysOrder(xs[0].key, ys[0].key, ys[0].key, false);
    HeadKey(xs);
    HeadKey(ys);
    TailWalkable(xs);
    TailWalkable(ys);
    assert k in CanonMembers(xs, false);
    WalkedWithBoth(m, k, CanonMembers(xs[1..], false), Canon(xs[0].value, false), CanonMembers(ys[1..], false),
                   Canon(ys[0].value, false));
  }

  lemma WalkedWithBoth(m: map<CStr, Tree>, k: CStr, f: map<CStr, Tree>, x: Tree, g: map<CStr, Tree>, y: Tree)
    requires k !in f && k !in g
    ensures (m[k := Overlay(x, y)] - f.Keys) + OverlayFields(f, g) ==
            (m - f[k := x].Keys) + OverlayFields(f[k := x], g[k := y])
  {
    assert OverlayFields(f[k := x], g[k := y]) == OverlayFields(f, g)[k := Overlay(x, y)];
  }

  // ---------- every edit is sound ----------

  lemma {:induction false} EditsSound(toks: seq<CStr>, from: JSON, to: JSON, junk: Memory)
    requires CleanPath(toks) && Patchable(from) && Patchable(to)
    ensures forall e :: e in EditsFor(toks, from, to, false, junk) ==> Sound(e)
    decreases Size(from), 3
  {
    PatchableDistinct(to);
    if SameType(from, to) && from.Array? {
      ArrayEditsSound(toks, from.items, to.items, 0, junk);
    } else if SameType(from, to) && from.Object? {
      var xs, ys := SortMembers(from.members, false), SortMembers(to.members, false);
      SortStrict(from.members);
      SortStrict(to.members);
      SortedSizes(from.members, false);
      forall i | 0 <= i < |xs| ensures Clean(xs[i].key) && Patchable(xs[i].value) { assert xs[i] in from.members; }
      forall i | 0 <= i < |ys| ensures Clean(ys[i].key) && Patchable(ys[i].value) { assert ys[i] in to.members; }
      ObjectEditsSound(toks, xs, ys, Size(from), junk);
    }
  }

  lemma {:induction false} ArrayEditsSound(toks: seq<CStr>, from: seq<JSON>, to: seq<JSON>, i: nat, junk: Memory)
    requires CleanPath(toks) && Patchable(Array(from)) && Patchable(Array(to)) && i <= |from| && i <= |to|
    ensures forall e :: e in ArrayEdits(toks, from, to, i, false, junk) ==> Sound(e)
    decreases SizeOfItems(from) + 1, 2, |from| - i
  {
    IndexRoundTrip(i);
    if i < |from| && i < |to| {
      EditsSound(toks + [Decimal(i)], from[i], to[i], junk);
      ArrayEditsSound(toks, from, to, i + 1, junk);
    } else {
      CleanEncoding(Decimal(i), junk);
      CleanEncoding(LAST_INDEX, junk);
      RemovalsSound(toks, Decimal(i), |from| - i);
      AdditionsSound(toks, to[i..]);
    }
  }

  lemma {:induction false} RemovalsSound(toks: seq<CStr>, name: CStr, count: nat)
    requires CleanPath(toks) && Clean(name)
    ensures forall e :: e in Removals(toks, name, count) ==> Sound(e)
  {
    if count > 0 {
      RemovalsSound(toks, name, count - 1);
    }
  }

  lemma {:induction false} AdditionsSound(toks: seq<CStr>, to: seq<JSON>)
    requires CleanPath(toks) && forall i :: 0 <= i < |to| ==> Patchable(to[i])
    ensures forall e :: e in Additions(toks, LAST_INDEX, to) ==> Sound(e)
    decreases |to|
  {
    if to != [] {
      PatchableDistinct(to[0]);
      AdditionsSound(toks, to[1..]);
    }
  }

  lemma {:induction false} ObjectEditsSound(toks: seq<CStr>, xs: seq<Member>, ys: seq<Member>, bound: nat, junk: Memory)
    requires CleanPath(toks) && forall i :: 0 <= i < |xs| ==> Size(xs[i].value) < bound
    requires forall i {:trigger xs[i]} :: 0 <= i < |xs| ==> Clean(xs[i].key) && Patchable(xs[i].value)
    requires forall i {:trigger ys[i]} :: 0 <= i < |ys| ==> Clean(ys[i].key) && Patchable(ys[i].value)
    ensures forall e :: e in ObjectEdits(toks, xs, ys, false, junk, bound) ==> Sound(e)
    decreases bound, 1, |xs| + |ys|
  {
    if xs != [] { CleanEncoding(xs[0].key, junk); }
    if ys != [] { CleanEncoding(ys[0].key, junk); PatchableDistinct(ys[0].value); }
    if xs == [] && ys == [] {
    } else if ys == [] || (xs != [] && CompareKeys(xs[0].key, ys[0].key, false) < 0) {
      ObjectEditsSound(toks, xs[1..], ys, bound, junk);
    } else if xs == [] || CompareKeys(xs[0].key, ys[0].key, false) > 0 {
      ObjectEditsSound(toks, xs, ys[1..], bound, junk);
    } else {
      EditsSound(toks + [xs[0].key], xs[0].value, ys[0].value, junk);
      ObjectEditsSound(toks, xs[1..], ys[1..], bound, junk);
    }
  }

  // ---------- the law ----------

  /** Raw items that face each other are equal. */
  ghost predicate RawsAgree(from: Tree, to: Tree)
    decreases from
  {
    if from.Arr? && to.Arr? then
      forall i :: 0 <= i < |from.elems| && i < |to.elems| ==> RawsAgree(from.elems[i], to.elems[i])
    else if from.Obj? && to.Obj? then
      forall k :: k in from.fields && k in to.fields ==> RawsAgree(from.fields[k], to.fields[k])
    else
      from.Scalar? && to.Scalar? && from.scalar.Raw? && to.scalar.Raw? ==> from == to
  }

  lemma {:induction false} OverlayIsTarget(from: Tree, to: Tree)
    ensures Overlay(from, to) == to <==> RawsAgree(from, to)
    decreases from
  {
    if from.Arr? && to.Arr? {
      var r := Overlay(from, to).elems;
      forall i | 0 <= i < |from.elems| && i < |to.elems|
        ensures r[i] == to.elems[i] <==> RawsAgree(from.elems[i], to.elems[i])
      {
        OverlayIsTarget(from.elems[i], to.elems[i]);
      }
      if RawsAgree(from, to) {
        assert r == to.elems;
      } else {
        var i :| 0 <= i < |from.elems| && i < |to.elems| && !RawsAgree(from.elems[i], to.elems[i]);
        assert r[i] != to.elems[i];
      }
    } else if from.Obj? && to.Obj? {
      var r := Overlay(from, to).fields;
      forall k | k in from.fields && k in to.fields
        ensures r[k] == to.fields[k] <==> RawsAgree(from.fields[k], to.fields[k])
      {
        OverlayIsTarget(from.fields[k], to.fields[k]);
      }
      if RawsAgree(from, to) {
        assert r == to.fields;
      } else {
        var k :| k in from.fields && k in to.fields && !RawsAgree(from.fields[k], to.fields[k]);
        assert r[k] != to.fields[k];
      }
    }
  }

  /**
   Diff then patch: applying the generated patches to `from`, or to any document that means the same, succeeds,
   keeps keys distinct, and gives a document that means what `to` means exactly when no raw item faces a different
   one.
   */
  lemma DiffThenPatch(doc: JSON, from: JSON, to: JSON, junk: Memory)
    requires DistinctKeys(doc, false) && Canon(doc, false) == Canon(from, false) && Patchable(from) && Patchable(to)
    ensures var (status, r) := ApplyAll(doc, PatchesFor(EditsFor([], from, to, false, junk)), false);
            && status == 0 && DistinctKeys(r, false)
            && Canon(r, false) == Overlay(Canon(from, false), Canon(to, false))
            && (Canon(r, false) == Canon(to, false) <==> RawsAgree(Canon(from, false), Canon(to, false)))
  {
    EditsAchieve(Canon(from, false), [], from, to, junk);
    EditsSound([], from, to, junk);
    PatchesSimulateEdits(doc, EditsFor([], from, to, false, junk));
    OverlayIsTarget(Canon(from, false), Canon(to, false));
  }

  /**
   The same for duplicates of what the generator leaves: it rearranges both documents, and the patches still lead
   from the one to the other.
   */
  lemma DiffThenPatchLeft(from: JSON, to: JSON, junk: Memory)
    requires Patchable(from) && Patchable(to)
    ensures var doc, target := AfterDiff(from, to, false), AfterDiff(to, from, false);
            var (status, r) := ApplyAll(doc, PatchesFor(EditsFor([], from, to, false, junk)), false);
            && status == 0 && DistinctKeys(r, false) && DistinctKeys(target, false)
            && (Canon(r, false) == Canon(target, false) <==> RawsAgree(Canon(doc, false), Canon(target, false)))
  {
    PatchableDistinct(from);
    PatchableDistinct(to);
    DiffKeeps(from, to, false);
    DiffKeeps(to, from, false);
    DiffThenPatch(AfterDiff(from, to, false), from, to, junk);
  }

  lemma {:induction false} RawFreeAgree(from: Tree, to: Tree)
    requires RawFree(to)
    ensures RawsAgree(from, to)
    decreases from
  {
    if from.Arr? && to.Arr? {
      forall i | 0 <= i < |from.elems| && i < |to.elems| ensures RawsAgree(from.elems[i], to.elems[i]) {
        RawFreeAgree(from.elems[i], to.elems[i]);
      }
    } else if from.Obj? && to.Obj? {
      forall k | k in from.fields && k in to.fields ensures RawsAgree(from.fields[k], to.fields[k]) {
        RawFreeAgree(from.fields[k], to.fields[k]);
      }
    }
  }

  /** Without raw items in `to`, the patched document compares equal to `to`. */
  lemma DiffThenPatchComparesEqual(doc: JSON, from: JSON, to: JSON, junk: Memory)
    requires DistinctKeys(doc, false) && Canon(doc, false) == Canon(from, false) && Patchable(from) && Patchable(to)
    requires Plain(to)
    ensures var (status, r) := ApplyAll(doc, PatchesFor(EditsFor([], from, to, false, junk)), false);
            status == 0 && Canon(r, false) == Canon(to, false) && CompareJson(r, to, false)
  {
    DiffThenPatch(doc, from, to, junk);
    PlainMeaning(to, false);
    RawFreeAgree(Canon(from, false), Canon(to, false));
    var r := ApplyAll(doc, PatchesFor(EditsFor([], from, to, false, junk)), false).1;
    PatchableDistinct(to);
    CompareJsonMeaning(r, to);
    AlikeIsEqual(Canon(r, false), Canon(to, false));
  }
}
