/**
 Where case-sensitive diff then patch ends: keys with '~' or '/', and names on which strcmp and the case-blind
 order disagree.
 */
module PatchCase {
  import opened Wrappers
  import opened CStrings
  import opened Json
  import opened Sorting
  import opened Compare
  import opened CompareSorted
  import opened Pointer
  import opened Patch
  import opened TreePath
  import opened PatchEffect
  import opened PatchLaw
  import opened Limits
  import opened Rearranged
  import opened EitherFlag
  import MixedCase

  // ---------- the edits ----------

  /** Where the orders agree, the flag makes no difference to the generated patches. */
  lemma {:induction false} EditsByEitherFlag(at: seq<CStr>, from: JSON, to: JSON, junk: Memory, names: iset<CStr>)
    requires OrdersAgree(names) && KeysIn(from, names) && KeysIn(to, names)
    ensures EditsFor(at, from, to, true, junk) == EditsFor(at, from, to, false, junk)
    decreases Size(from), 3
  {
    if SameType(from, to) && from.Array? {
      ArrayEditsByEitherFlag(at, from.items, to.items, 0, junk, names);
    } else if SameType(from, to) && from.Object? {
      SortByEitherFlag(from.members, names);
      SortByEitherFlag(to.members, names);
      SortedIn(from.members, names, false);
      SortedIn(to.members, names, false);
      SortedSizes(from.members, false);
      var xs, ys := SortMembers(from.members, false), SortMembers(to.members, false);
      ObjectEditsByEitherFlag(at, xs, ys, Size(from), junk, names);
    }
  }

  lemma {:induction false} ArrayEditsByEitherFlag(at: seq<CStr>, from: seq<JSON>, to: seq<JSON>, i: nat, junk: Memory,
                                                  names: iset<CStr>)
    requires OrdersAgree(names) && KeysIn(Array(from), names) && KeysIn(Array(to), names) && i <= |from| && i <= |to|
    ensures ArrayEdits(at, from, to, i, true, junk) == ArrayEdits(at, from, to, i, false, junk)
    decreases SizeOfItems(from) + 1, 2, |from| - i
  {
    if i < |from| && i < |to| {
      EditsByEitherFlag(at + [Decimal(i)], from[i], to[i], junk, names);
      ArrayEditsByEitherFlag(at, from, to, i + 1, junk, names);
    }
  }

  lemma {:induction false} ObjectEditsByEitherFlag(at: seq<CStr>, xs: seq<Member>, ys: seq<Member>, bound: nat,
                                                   junk: Memory, names: iset<CStr>)
    requires OrdersAgree(names) && KeysIn(Object(xs), names) && KeysIn(Object(ys), names)
    requires forall i :: 0 <= i < |xs| ==> Size(xs[i].value) < bound
    ensures ObjectEdits(at, xs, ys, true, junk, bound) == ObjectEdits(at, xs, ys, false, junk, bound)
    decreases bound, 1, |xs| + |ys|
  {
    if xs != [] && ys != [] {
      AgreeingOrder(names, xs[0].key, ys[0].key);
    }
    if xs == [] && ys == [] {
    } else if ys == [] || (xs != [] && CompareKeys(xs[0].key, ys[0].key, false) < 0) {
      ObjectEditsByEitherFlag(at, xs[1..], ys, bound, junk, names);
    } else if xs == [] || CompareKeys(xs[0].key, ys[0].key, false) > 0 {
      ObjectEditsByEitherFlag(at, xs, ys[1..], bound, junk, names);
    } else {
      EditsByEitherFlag(at + [EncodeToken(xs[0].key, junk)], xs[0].value, ys[0].value, junk, names);
      ObjectEditsByEitherFlag(at, xs[1..], ys[1..], bound, junk, names);
    }
  }

  // ---------- what the edits name ----------

  /** The tokens for array elements. */
  predicate Numeric(s: CStr) {
    forall i :: 0 <= i < |s| ==> '0' <= s[i] <= '9' || s[i] == '-'
  }

  ghost predicate Names(toks: seq<CStr>, names: iset<CStr>) {
    forall i :: 0 <= i < |toks| ==> toks[i] in names
  }

  /** Clean names of which no two differ in case only, the tokens for array elements among them. */
  ghost predicate Tokens(names: iset<CStr>) {
    CleanNames(names) && DistinctNames(names) && forall s :: Numeric(s) ==> s in names
  }

  ghost function WithNumeric(names: iset<CStr>): iset<CStr> {
    iset s: CStr | s in names || Numeric(s)
  }

  /** Numbers have no case. */
  lemma NumericFold(a: CStr, b: CStr)
    requires Numeric(a) && Fold(a, false) == Fold(b, false)
    ensures a == b
  {
    forall i | 0 <= i < |a| ensures a[i] == b[i] {
      assert Fold(a, false)[i] == Fold(b, false)[i];
    }
  }

  lemma NumericAdded(names: iset<CStr>)
    requires CleanNames(names) && DistinctNames(names)
    ensures Tokens(WithNumeric(names))
  {
    var more := WithNumeric(names);
    forall a, b | a in more && b in more && Fold(a, false) == Fold(b, false) ensures a == b {
      if Numeric(a) {
        NumericFold(a, b);
      } else if Numeric(b) {
        NumericFold(b, a);
      }
    }
  }

  ghost predicate Within(e: Edit, names: iset<CStr>) {
    Names(e.at, names) && (!e.Replace? ==> e.name in names) && (!e.Remove? ==> KeysIn(e.value, names))
  }

  lemma {:induction false} EditsWithin(at: seq<CStr>, from: JSON, to: JSON, junk: Memory, names: iset<CStr>)
    requires Tokens(names) && Names(at, names) && KeysIn(from, names) && KeysIn(to, names)
    ensures forall e :: e in EditsFor(at, from, to, false, junk) ==> Within(e, names)
    decreases Size(from), 3
  {
    if SameType(from, to) && from.Array? {
      ArrayEditsWithin(at, from.items, to.items, 0, junk, names);
    } else if SameType(from, to) && from.Object? {
      SortedIn(from.members, names, false);
      SortedIn(to.members, names, false);
      SortedSizes(from.members, false);
      var xs, ys := SortMembers(from.members, false), SortMembers(to.members, false);
      ObjectEditsWithin(at, xs, ys, Size(from), junk, names);
    }
  }

  lemma {:induction false} ArrayEditsWithin(at: seq<CStr>, from: seq<JSON>, to: seq<JSON>, i: nat, junk: Memory,
                                            names: iset<CStr>)
    requires Tokens(names) && Names(at, names) && KeysIn(Array(from), names) && KeysIn(Array(to), names)
    requires i <= |from| && i <= |to|
    ensures forall e :: e in ArrayEdits(at, from, to, i, false, junk) ==> Within(e, names)
    decreases SizeOfItems(from) + 1, 2, |from| - i
  {
    assert Numeric(Decimal(i)) && Numeric(LAST_INDEX);
    if i < |from| && i < |to| {
      EditsWithin(at + [Decimal(i)], from[i], to[i], junk, names);
      ArrayEditsWithin(at, from, to, i + 1, junk, names);
    } else {
      RestEditsWithin(at, from, to, i, junk, names);
    }
  }

  lemma RestEditsWithin(at: seq<CStr>, from: seq<JSON>, to: seq<JSON>, i: nat, junk: Memory, names: iset<CStr>)
    requires Names(at, names) && Clean(Decimal(i)) && Decimal(i) in names && LAST_INDEX in names
    requires KeysIn(Array(to), names) && i <= |from| && i <= |to| && (i == |from| || i == |to|)
    ensures forall e :: e in ArrayEdits(at, from, to, i, false, junk) ==> Within(e, names)
  {
    CleanEncoding(Decimal(i), junk);
    CleanEncoding(LAST_INDEX, junk);
    RemovalsWithin(at, Decimal(i), |from| - i, names);
    assert KeysIn(Array(to[i..]), names);
    AdditionsWithin(at, to[i..], names);
    BothWithin(Removals(at, Decimal(i), |from| - i), Additions(at, LAST_INDEX, to[i..]), names);
  }

  lemma BothWithin(a: seq<Edit>, b: seq<Edit>, names: iset<CStr>)
    requires (forall e :: e in a ==> Within(e, names)) && forall e :: e in b ==> Within(e, names)
    ensures forall e :: e in a + b ==> Within(e, names)
  {
  }

  lemma {:induction false} RemovalsWithin(at: seq<CStr>, name: CStr, count: nat, names: iset<CStr>)
    requires Names(at, names) && name in names
    ensures forall e :: e in Removals(at, name, count) ==> Within(e, names)
  {
    if count > 0 {
      RemovalsWithin(at, name, count - 1, names);
    }
  }

  lemma {:induction false} AdditionsWithin(at: seq<CStr>, to: seq<JSON>, names: iset<CStr>)
    requires Names(at, names) && LAST_INDEX in names && KeysIn(Array(to), names)
    ensures forall e :: e in Additions(at, LAST_INDEX, to) ==> Within(e, names)
    decreases |to|
  {
    if to != [] {
      AdditionsWithin(at, to[1..], names);
    }
  }

  lemma {:induction false} ObjectEditsWithin(at: seq<CStr>, xs: seq<Member>, ys: seq<Member>, bound: nat, junk: Memory,
                                             names: iset<CStr>)
    requires Tokens(names) && Names(at, names) && KeysIn(Object(xs), names) && KeysIn(Object(ys), names)
    requires forall i :: 0 <= i < |xs| ==> Size(xs[i].value) < bound
    ensures forall e :: e in ObjectEdits(at, xs, ys, false, junk, bound) ==> Within(e, names)
    decreases bound, 1, |xs| + |ys|
  {
    if xs != [] { CleanEncoding(xs[0].key, junk); }
    if ys != [] { CleanEncoding(ys[0].key, junk); }
    if xs == [] && ys == [] {
    } else if ys == [] || (xs != [] && CompareKeys(xs[0].key, ys[0].key, false) < 0) {
      ObjectEditsWithin(at, xs[1..], ys, bound, junk, names);
    } else if xs == [] || CompareKeys(xs[0].key, ys[0].key, false) > 0 {
      ObjectEditsWithin(at, xs, ys[1..], bound, junk, names);
    } else {
      EditsWithin(at + [xs[0].key], xs[0].value, ys[0].value, junk, names);
      ObjectEditsWithin(at, xs[1..], ys[1..], bound, junk, names);
    }
  }

  // ---------- applying them ----------

  lemma StepByEitherFlag(v: JSON, tok: CStr, names: iset<CStr>)
    requires DistinctNames(names) && tok in names && KeysIn(v, names)
    ensures StepToken(v, tok, true) == StepToken(v, tok, false)
  {
    if v.Object? {
      FindByEitherFlag(v.members, tok, names);
    }
  }

  /** Following a path makes no difference between the flags and leaves documents over the names. */
  lemma {:induction false} PathByEitherFlag(v: JSON, toks: seq<CStr>, w: JSON, names: iset<CStr>)
    requires DistinctNames(names) && Names(toks, names) && KeysIn(v, names) && KeysIn(w, names)
    ensures GetByTokens(v, toks, true) == GetByTokens(v, toks, false)
    ensures GetByTokens(v, toks, false).Some? ==> KeysIn(GetByTokens(v, toks, false).value, names)
    ensures SetByTokens(v, toks, true, w) == SetByTokens(v, toks, false, w)
            && KeysIn(SetByTokens(v, toks, false, w), names)
    decreases |toks|
  {
    if toks != [] {
      StepByEitherFlag(v, toks[0], names);
      var i := StepToken(v, toks[0], false);
      if i.Some? {
        PathByEitherFlag(ChildOf(v, i.value), toks[1..], w, names);
        WithChildIn(v, i.value, SetByTokens(ChildOf(v, i.value), toks[1..], false, w), names);
      }
    }
  }

  lemma WithChildIn(v: JSON, i: nat, w: JSON, names: iset<CStr>)
    requires HasChild(v, i) && KeysIn(v, names) && KeysIn(w, names)
    ensures KeysIn(WithChild(v, i, w), names)
  {
  }

  lemma CutIn(parent: JSON, name: CStr, names: iset<CStr>)
    requires KeysIn(parent, names)
    ensures var cut := DetachFrom(parent, name); cut.Some? ==> KeysIn(cut.value.1, names)
  {
    if parent.Object? {
      DetachedIn(parent.members, name, false, names);
    }
  }

  lemma AddedByEitherFlag(parent: JSON, name: CStr, w: JSON, names: iset<CStr>)
    requires DistinctNames(names) && name in names && KeysIn(parent, names) && KeysIn(w, names)
    ensures AddTo(parent, name, true, w) == AddTo(parent, name, false, w)
    ensures KeysIn(AddTo(parent, name, false, w).1, names)
  {
    if parent.Object? {
      FindByEitherFlag(parent.members, name, names);
      DetachedIn(parent.members, name, false, names);
    }
  }

  lemma PointerByEitherFlag(v: JSON, at: seq<CStr>, w: JSON, names: iset<CStr>)
    requires Tokens(names) && Names(at, names) && KeysIn(v, names) && KeysIn(w, names)
    ensures GetItem(v, PathOf(at), true) == GetItem(v, PathOf(at), false)
    ensures GetItem(v, PathOf(at), false).Some? ==> KeysIn(GetItem(v, PathOf(at), false).value, names)
    ensures SetItem(v, PathOf(at), true, w) == SetItem(v, PathOf(at), false, w)
    ensures KeysIn(SetItem(v, PathOf(at), false, w), names)
  {
    PathByEitherFlag(v, at, w, names);
    FollowCleanPath(v, at, true, w);
    FollowCleanPath(v, at, false, w);
  }

  lemma DetachByEitherFlag(v: JSON, at: seq<CStr>, tok: CStr, names: iset<CStr>)
    requires Tokens(names) && Names(at, names) && tok in names && KeysIn(v, names)
    ensures var path := PathOf(at) + "/" + tok;
            && DetachPath(v, path, true) == DetachPath(v, path, false)
            && (DetachPath(v, path, false).Some? ==> KeysIn(DetachPath(v, path, false).value.1, names))
  {
    SplitPath(at, tok);
    DecodeClean(tok);
    PointerByEitherFlag(v, at, Null, names);
    var parent := GetItem(v, PathOf(at), false);
    if parent.Some? {
      var cut := DetachFrom(parent.value, tok);
      CutIn(parent.value, tok, names);
      if cut.Some? {
        PointerByEitherFlag(v, at, cut.value.1, names);
      }
    }
  }

  lemma AddAtPath(v: JSON, at: seq<CStr>, tok: CStr, w: JSON, cs: bool)
    requires Clean(tok)
    ensures var parent, done := GetItem(v, PathOf(at), cs), AddAt(v, PathOf(at) + "/" + tok, cs, w);
            if parent.None? then done.0 == 9 && done.1 == v
            else
              var added := AddTo(parent.value, tok, cs, w);
              done.0 == added.0 && done.1 == if added.0 != 0 then v else SetItem(v, PathOf(at), cs, added.1)
  {
    SplitPath(at, tok);
    DecodeClean(tok);
  }

  lemma AddByEitherFlag(v: JSON, at: seq<CStr>, tok: CStr, w: JSON, names: iset<CStr>)
    requires Tokens(names) && Names(at, names) && tok in names && KeysIn(v, names) && KeysIn(w, names)
    ensures var path := PathOf(at) + "/" + tok;
            AddAt(v, path, true, w) == AddAt(v, path, false, w) && KeysIn(AddAt(v, path, false, w).1, names)
  {
    AddAtPath(v, at, tok, w, true);
    AddAtPath(v, at, tok, w, false);
    PointerByEitherFlag(v, at, Null, names);
    var parent := GetItem(v, PathOf(at), false);
    if parent.Some? {
      AddedByEitherFlag(parent.value, tok, w, names);
      PointerByEitherFlag(v, at, AddTo(parent.value, tok, false, w).1, names);
    }
  }

  lemma PatchByEitherFlag(v: JSON, e: Edit, names: iset<CStr>)
    requires Tokens(names) && KeysIn(v, names) && Within(e, names)
    ensures ApplyPatch(v, PatchFor(e), true) == ApplyPatch(v, PatchFor(e), false)
    ensures KeysIn(ApplyPatch(v, PatchFor(e), false).1, names)
  {
    match e
    case Remove(at, name) =>
      ApplyRemove(v, PathOf(at) + "/" + name, true);
      ApplyRemove(v, PathOf(at) + "/" + name, false);
      DetachByEitherFlag(v, at, name, names);
    case Add(at, name, value) =>
      ApplyAdd(v, PathOf(at) + "/" + name, value, true);
      ApplyAdd(v, PathOf(at) + "/" + name, value, false);
      AddByEitherFlag(v, at, name, value, names);
    case Replace(at, value) =>
      ReplaceByEitherFlag(v, at, value, names);
  }

  lemma ReplaceByEitherFlag(v: JSON, at: seq<CStr>, w: JSON, names: iset<CStr>)
    requires Tokens(names) && Names(at, names) && KeysIn(v, names) && KeysIn(w, names)
    ensures var patch := Compose(REPLACE_OP, PathOf(at), Some(w));
            ApplyPatch(v, patch, true) == ApplyPatch(v, patch, false) && KeysIn(ApplyPatch(v, patch, false).1, names)
  {
    ApplyReplace(v, PathOf(at), w, true);
    ApplyReplace(v, PathOf(at), w, false);
    if at != [] {
      var n := |at| - 1;
      var front, tok := at[..n], at[n];
      assert at == front + [tok];
      PathOfSnoc(front, tok);
      DetachByEitherFlag(v, front, tok, names);
      var cut := DetachPath(v, PathOf(at), false);
      if cut.Some? {
        AddByEitherFlag(cut.value.1, front, tok, w, names);
      }
    }
  }

  lemma {:induction false} PatchesByEitherFlag(v: JSON, es: seq<Edit>, names: iset<CStr>)
    requires Tokens(names) && KeysIn(v, names) && forall e :: e in es ==> Within(e, names)
    ensures ApplyAll(v, PatchesFor(es), true) == ApplyAll(v, PatchesFor(es), false)
    ensures KeysIn(ApplyAll(v, PatchesFor(es), false).1, names)
    decreases |es|
  {
    if es != [] {
      PatchByEitherFlag(v, es[0], names);
      assert PatchesFor(es)[1..] == PatchesFor(es[1..]);
      PatchesByEitherFlag(ApplyPatch(v, PatchFor(es[0]), false).1, es[1..], names);
    }
  }

  // ---------- the law and where it ends ----------

  /** Case-sensitive diff then patch works over clean names on which the orders agree. */
  lemma CaseSensitiveReaches(doc: JSON, from: JSON, to: JSON, names: iset<CStr>, junk: Memory)
    requires CleanNames(names) && OrdersAgree(names) && PatchInput(doc, from, to, names, true)
    ensures PatchReaches(doc, from, to, true, junk)
  {
    AgreeingNames(names);
    DistinctByEitherFlag(doc, names);
    DistinctByEitherFlag(from, names);
    DistinctByEitherFlag(to, names);
    SameByEitherFlag(doc, from, names, true);
    FitIsPatchable(from, names);
    FitIsPatchable(to, names);
    DiffThenPatchComparesEqual(doc, from, to, junk);
    EditsByEitherFlag([], from, to, junk, names);
    var more := WithNumeric(names);
    NumericAdded(names);
    KeysInMore(doc, names, more);
    KeysInMore(from, names, more);
    KeysInMore(to, names, more);
    EditsWithin([], from, to, junk, more);
    PatchesByEitherFlag(doc, EditsFor([], from, to, false, junk), more);
    var r := ApplyAll(doc, PatchesFor(EditsFor([], from, to, false, junk)), false).1;
    SameByEitherFlag(r, to, more, false);
  }

  function Flags(keys: seq<CStr>): seq<Member> {
    seq(|keys|, i requires 0 <= i < |keys| => Member(keys[i], True))
  }

  lemma FlagsFit(keys: seq<CStr>, names: iset<CStr>)
    requires Names(keys, names) && forall i, j :: 0 <= i < j < |keys| ==> keys[i] != keys[j]
    ensures Fit(Object(Flags(keys)), names, true) && Plain(Object(Flags(keys)))
  {
    var ms := Flags(keys);
    assert forall i :: 0 <= i < |ms| ==> ms[i] == Member(keys[i], True);
  }

  lemma DisagreeingWalk(x: Member, y: Member, junk: Memory, bound: nat)
    requires Clean(x.key) && Clean(y.key) && StrCmp(x.key, y.key) > 0 && Size(x.value) < bound && Size(y.value) < bound
    ensures ObjectEdits([], [x, y], [y], true, junk, bound) ==
            [Add([], y.key, y.value), Remove([], x.key), Remove([], y.key)]
  {
    CleanEncoding(x.key, junk);
    CleanEncoding(y.key, junk);
    var a, b := Remove([], x.key), Remove([], y.key);
    assert [y][1..] == [] && [x, y][1..] == [y];
    assert ObjectEdits([], [y], [], true, junk, bound) == [b] + [];
    assert ObjectEdits([], [x, y], [], true, junk, bound) == [a] + [b];
    assert ObjectEdits([], [x, y], [y], true, junk, bound) == [Add([], y.key, y.value)] + ([a] + [b]);
  }

  lemma TwoSorted(x: Member, y: Member)
    requires CompareKeys(x.key, y.key, false) < 0
    ensures SortMembers([x, y], true) == [x, y] && SortMembers([y], true) == [y]
    ensures Size(x.value) < Size(Object([x, y])) && Size(y.value) < Size(Object([x, y]))
  {
    var xs := [x, y];
    assert xs[0] == x && xs[1] == y;
    assert StrictlySorted(xs);
    MixedCase.SortedStays(xs, true);
  }

  /** A name that comes first ignoring case and second for strcmp: going from both members to the second. */
  lemma MixedCaseEdits(a: CStr, b: CStr, junk: Memory)
    requires Clean(a) && Clean(b) && CompareKeys(a, b, false) < 0 && StrCmp(a, b) > 0
    ensures EditsFor([], Object(Flags([a, b])), Object(Flags([b])), true, junk) == Lost(a, b)
  {
    var x, y := Member(a, True), Member(b, True);
    assert Flags([a, b]) == [x, y] && Flags([b]) == [y];
    TwoSorted(x, y);
    DisagreeingWalk(x, y, junk, Size(Object([x, y])));
  }

  function Lost(a: CStr, b: CStr): seq<Edit> { [Add([], b, True), Remove([], a), Remove([], b)] }

  /** They are two changes too many: nothing is left. */
  lemma MixedCaseEmpties(a: CStr, b: CStr)
    requires Fold(a, false) != Fold(b, false)
    ensures ApplyEdits(Canon(Object(Flags([a, b])), false), Lost(a, b)) == Some(Obj(map[]))
  {
    var ms := Flags([a, b]);
    var k, l, t := Fold(a, false), Fold(b, false), Scalar(True);
    assert ms == [Member(a, True), Member(b, True)] && ms[1..] == [Member(b, True)] && ms[1..][1..] == [];
    assert CanonMembers(ms[1..], false) == map[l := t];
    assert map[l := t][k := t] == map[k := t, l := t];
    var e0, e1, e2 := Add([], b, True), Remove([], a), Remove([], b);
    assert [e0, e1, e2][1..] == [e1, e2] && [e1, e2][1..] == [e2] && [e2][1..] == [];
    assert map[k := t, l := t][l := t] == map[k := t, l := t];
    assert map[k := t, l := t] - {k} == map[l := t];
    assert map[l := t] - {l} == map[];
    assert ApplyEdits(Obj(map[l := t]), [e2]) == Some(Obj(map[]));
    assert ApplyEdits(Obj(map[k := t, l := t]), [e1, e2]) == Some(Obj(map[]));
  }

  lemma LostSound(a: CStr, b: CStr, names: iset<CStr>)
    requires Clean(a) && Clean(b) && a in names && b in names
    ensures forall e :: e in Lost(a, b) ==> Sound(e) && Within(e, names)
  {
  }

  /** So for every two such names both members are lost. */
  lemma MixedCaseUnpatched(a: CStr, b: CStr, junk: Memory)
    requires Clean(a) && Clean(b) && CompareKeys(a, b, false) < 0 && StrCmp(a, b) > 0
    ensures var from, to := Object(Flags([a, b])), Object(Flags([b]));
            var done := ApplyAll(from, PatchesFor(EditsFor([], from, to, true, junk)), true);
            done.0 == 0 && done.1 == Object([])
  {
    MixedCaseEdits(a, b, junk);
    LostMembers(a, b);
  }

  lemma LostMembers(a: CStr, b: CStr)
    requires Clean(a) && Clean(b) && CompareKeys(a, b, false) < 0
    ensures var done := ApplyAll(Object(Flags([a, b])), PatchesFor(Lost(a, b)), true);
            done.0 == 0 && done.1 == Object([])
  {
    CompareKeysOrder(a, b, b, false);
    MixedCaseEmpties(a, b);
    var names := WithNumeric(iset{a, b});
    NumericAdded(iset{a, b});
    LostSound(a, b, names);
    FlagsFit([a, b], names);
    LostApplied(Object(Flags([a, b])), Lost(a, b), names);
  }

  lemma LostApplied(v: JSON, es: seq<Edit>, names: iset<CStr>)
    requires Tokens(names) && Fit(v, names, true) && ApplyEdits(Canon(v, false), es) == Some(Obj(map[]))
    requires forall e :: e in es ==> Sound(e) && Within(e, names)
    ensures var done := ApplyAll(v, PatchesFor(es), true); done.0 == 0 && done.1 == Object([])
  {
    DistinctByEitherFlag(v, names);
    PatchesByEitherFlag(v, es, names);
    PatchesSimulateEdits(v, es);
    EmptyMeaning(ApplyAll(v, PatchesFor(es), false).1);
  }

  lemma EmptyMeaning(v: JSON)
    requires Canon(v, false) == Obj(map[])
    ensures v == Object([])
  {
    MapKeys(v.members, false);
    assert |v.members| > 0 ==> Fold(v.members[0].key, false) in CanonMembers(v.members, false);
  }

  lemma CaseOnlyEdits(a: CStr, b: CStr, junk: Memory)
    requires Clean(b) && StrCmp(a, b) < 0
    ensures EditsFor([], Object(Flags([a, b])), Object(Flags([a])), true, junk) == [Remove([], b)]
  {
    var x, y, e := Member(a, True), Member(b, True), Remove([], b);
    assert Flags([a, b]) == [x, y] && Flags([a]) == [x];
    assert Increasing([x, y], true) && SortMembers([x], true) == [x];
    SortedSizes([x, y], true);
    CompareKeysOrder(a, a, a, true);
    CleanEncoding(b, junk);
    var bound := Size(Object([x, y]));
    assert [x][1..] == [] && [x, y][1..] == [y] && [y][1..] == [];
    assert ObjectEdits([], [y], [], true, junk, bound) == [e] + [];
    assert ObjectEdits([], [x, y], [x], true, junk, bound) == [] + [e];
  }

  lemma CaseOnlyCut(a: CStr, b: CStr)
    requires Clean(b) && Fold(a, false) == Fold(b, false)
    ensures var cut := DetachPath(Object(Flags([a, b])), PathOf([]) + "/" + b, true);
            cut.Some? && cut.value.1 == Object(Flags([b]))
  {
    var ms := Flags([a, b]);
    SplitPath([], b);
    DecodeClean(b);
    assert FindKey(ms, b, false) == 0 && ms[..0] + ms[1..] == Flags([b]);
  }

  /** Names that differ in case only: taking the second away takes the first, because removal ignores case. */
  lemma CaseOnlyUnpatched(a: CStr, b: CStr, junk: Memory)
    requires Clean(b) && Fold(a, false) == Fold(b, false) && StrCmp(a, b) < 0
    ensures var from, to := Object(Flags([a, b])), Object(Flags([a]));
            var done := ApplyAll(from, PatchesFor(EditsFor([], from, to, true, junk)), true);
            done.0 == 0 && done.1 == Object(Flags([b]))
  {
    var e := Remove([], b);
    CaseOnlyEdits(a, b, junk);
    CaseOnlyCut(a, b);
    assert [e][1..] == [] && PatchesFor([e]) == [PatchFor(e)] + [];
    ApplyRemove(Object(Flags([a, b])), PathOf([]) + "/" + b, true);
  }

  /**
   Over any set of names, case-sensitive diff then patch reaches its target, for all documents over them and
   whatever fresh memory holds, if and only if no name has '~' or '/' in it and strcmp and the case-blind order
   agree on the names.
   */
  lemma CaseSensitiveReachesIff(names: iset<CStr>)
    ensures (forall doc, from, to, junk :: PatchInput(doc, from, to, names, true) ==>
               PatchReaches(doc, from, to, true, junk)) <==>
            CleanNames(names) && OrdersAgree(names)
  {
    if !CleanNames(names) {
      var key :| key in names && !Clean(key);
      UncleanKeyMisses(key, true);
      HoldingIsInput(key, names, true);
      var from, to := Holding(key, []), Holding(key, [True]);
      assert !PatchReaches(from, from, to, true, Filled(FILL));
    } else if OrdersAgree(names) {
      forall doc, from, to, junk | PatchInput(doc, from, to, names, true)
        ensures PatchReaches(doc, from, to, true, junk)
      {
        CaseSensitiveReaches(doc, from, to, names, junk);
      }
    } else {
      var a, b :| a in names && b in names && !(StrCmp(a, b) < 0 <==> CompareKeys(a, b, false) < 0);
      StrCmpZero(a, b);
      StrCmpFlip(a, b);
      CompareKeysOrder(a, b, b, false);
      if StrCmp(a, b) < 0 {
        DisagreeingMisses(a, b, names);
      } else {
        DisagreeingMisses(b, a, names);
      }
    }
  }

  lemma DisagreeingMisses(a: CStr, b: CStr, names: iset<CStr>)
    requires a in names && b in names && CleanNames(names) && StrCmp(a, b) < 0 && CompareKeys(a, b, false) >= 0
    ensures exists from, to ::
              PatchInput(from, from, to, names, true) && !PatchReaches(from, from, to, true, Filled(FILL))
  {
    StrCmpFlip(a, b);
    CompareKeysOrder(a, b, b, false);
    if CompareKeys(a, b, false) == 0 {
      CaseOnlyMisses(a, b, names);
    } else {
      MixedCaseMisses(b, a, names);
    }
  }

  lemma FlagsInput(from: seq<CStr>, to: seq<CStr>, names: iset<CStr>)
    requires Names(from, names) && Names(to, names)
    requires (forall i, j :: 0 <= i < j < |from| ==> from[i] != from[j]) && |to| == 1
    ensures PatchInput(Object(Flags(from)), Object(Flags(from)), Object(Flags(to)), names, true)
  {
    FlagsFit(from, names);
    FlagsFit(to, names);
  }

  lemma CaseOnlyMisses(a: CStr, b: CStr, names: iset<CStr>)
    requires a in names && b in names && CleanNames(names) && StrCmp(a, b) < 0 && Fold(a, false) == Fold(b, false)
    ensures var from, to := Object(Flags([a, b])), Object(Flags([a]));
            PatchInput(from, from, to, names, true) && !PatchReaches(from, from, to, true, Filled(FILL))
  {
    StrCmpZero(a, b);
    FlagsInput([a, b], [a], names);
    FlagMeaning(a, b);
    CaseOnlyUnpatched(a, b, Filled(FILL));
  }

  lemma MixedCaseMisses(a: CStr, b: CStr, names: iset<CStr>)
    requires a in names && b in names && CleanNames(names) && CompareKeys(a, b, false) < 0 && StrCmp(a, b) > 0
    ensures var from, to := Object(Flags([a, b])), Object(Flags([b]));
            PatchInput(from, from, to, names, true) && !PatchReaches(from, from, to, true, Filled(FILL))
  {
    StrCmpZero(a, b);
    FlagsInput([a, b], [b], names);
    FlagMeaning(b, a);
    MixedCaseUnpatched(a, b, Filled(FILL));
  }

  lemma FlagMeaning(a: CStr, b: CStr)
    requires a != b
    ensures a in CanonMembers(Flags([a]), true) && a !in CanonMembers(Flags([b]), true) && a !in CanonMembers([], true)
  {
    assert Flags([a]) == [Member(a, True)] && Flags([b]) == [Member(b, True)];
    assert [Member(a, True)][1..] == [] && [Member(b, True)][1..] == [];
  }
}
