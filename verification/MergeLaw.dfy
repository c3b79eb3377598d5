/**
 Generating a merge patch from two documents and merging it into the first yields the second,
 exactly where merge patches can express the change.
 */
module MergeLaw {
  import opened Wrappers
  import opened CStrings
  import opened Json
  import opened Sorting
  import opened Compare
  import opened CompareSorted
  import opened Rearranged
  import opened CompareInPlace
  import opened MergePatch

  // ---------- on meanings ----------

  /** The keys that need an entry in the merge patch. */
  ghost predicate Differs(from: map<CStr, Tree>, to: map<CStr, Tree>, k: CStr) {
    (k in from || k in to) && !(k in from && k in to && Alike(from[k], to[k]))
  }

  /** The merge patch from one meaning to another; None when there is nothing to do. */
  ghost function DiffTree(from: Tree, to: Tree): Option<Tree>
    decreases from
  {
    if !from.Obj? || !to.Obj? then Some(to)
    else
      var d := map k | k in from.fields.Keys + to.fields.Keys && Differs(from.fields, to.fields, k) ::
        if k !in to.fields then NOTHING
        else if k !in from.fields then to.fields[k]
        else
          var nested := DiffTree(from.fields[k], to.fields[k]);
          if nested.Some? then nested.value else NOTHING;
      if d == map[] then None else Some(Obj(d))
  }

  ghost function FieldDiff(from: map<CStr, Tree>, to: map<CStr, Tree>): map<CStr, Tree> {
    map k | k in from.Keys + to.Keys && Differs(from, to, k) ::
      if k !in to then NOTHING
      else if k !in from then to[k]
      else
        var nested := DiffTree(from[k], to[k]);
        if nested.Some? then nested.value else NOTHING
  }

  /** There is nothing to do exactly for two objects that are alike. */
  lemma NothingToDo(from: Tree, to: Tree)
    ensures DiffTree(from, to).None? <==> from.Obj? && to.Obj? && Alike(from, to)
  {
    if from.Obj? && to.Obj? {
      var d := FieldDiff(from.fields, to.fields);
      if d == map[] {
        forall k ensures k in from.fields <==> k in to.fields {
          assert k !in d;
        }
        forall k | k in from.fields ensures Alike(from.fields[k], to.fields[k]) {
          assert k !in d;
        }
      }
    }
  }

  /** No member reachable through objects alone is null. */
  ghost predicate NullFree(t: Tree)
    decreases t
  {
    t.Obj? ==> forall k :: k in t.fields ==> t.fields[k] != NOTHING && NullFree(t.fields[k])
  }

  /**
   The changes a merge patch can express: no new or changed member is null, and raw items that
   are taken for equal are equal.
   */
  ghost predicate Expressible(from: Tree, to: Tree)
    decreases from
  {
    if !to.Obj? then true
    else if !from.Obj? then NullFree(to)
    else forall k :: k in to.fields ==>
      if k !in from.fields then to.fields[k] != NOTHING && NullFree(to.fields[k])
      else if Alike(from.fields[k], to.fields[k]) then from.fields[k] == to.fields[k]
      else to.fields[k] != NOTHING && Expressible(from.fields[k], to.fields[k])
  }

  lemma {:induction false} MergeIntoNothing(target: Option<Tree>, patch: Tree)
    requires target.Some? ==> !target.value.Obj?
    ensures MergeTree(target, patch) == patch <==> NullFree(patch)
    decreases patch
  {
    if patch.Obj? {
      var r := MergeTree(target, patch).fields;
      forall k | k in patch.fields && patch.fields[k] != NOTHING
        ensures k in r && (r[k] == patch.fields[k] <==> NullFree(patch.fields[k]))
      {
        MergeIntoNothing(None, patch.fields[k]);
      }
      if NullFree(patch) {
        assert r == patch.fields;
      } else {
        var k :| k in patch.fields && !(patch.fields[k] != NOTHING && NullFree(patch.fields[k]));
        assert !(k in r && r[k] == patch.fields[k]);
      }
    }
  }

  /** Merging what was generated gives the second meaning exactly where it is expressible. */
  lemma {:induction false} DiffThenMergeTrees(from: Tree, to: Tree)
    requires DiffTree(from, to).Some?
    ensures MergeTree(Some(from), DiffTree(from, to).value) == to <==> Expressible(from, to)
    decreases from
  {
    if !to.Obj? {
    } else if !from.Obj? {
      MergeIntoNothing(Some(from), to);
    } else {
      var f, t, d := from.fields, to.fields, FieldDiff(from.fields, to.fields);
      var r := MergeFields(f, d);
      forall k ensures MergedRight(r, t, k) <==> (k in t ==> FieldExpressible(f, t, k)) {
        if k in f && k in t && DiffTree(f[k], t[k]).Some? {
          DiffThenMergeTrees(f[k], t[k]);
        }
        MergedField(f, t, k);
      }
      if Expressible(from, to) {
        forall k ensures MergedRight(r, t, k) {
          assert k in t ==> FieldExpressible(f, t, k);
        }
        assert r == t;
      } else {
        var k :| k in t && !FieldExpressible(f, t, k);
        assert !MergedRight(r, t, k);
      }
    }
  }

  ghost predicate MergedRight(r: map<CStr, Tree>, t: map<CStr, Tree>, k: CStr) {
    (k in r <==> k in t) && (k in t && k in r ==> r[k] == t[k])
  }

  ghost predicate FieldExpressible(f: map<CStr, Tree>, t: map<CStr, Tree>, k: CStr)
    requires k in t
  {
    if k !in f then t[k] != NOTHING && NullFree(t[k])
    else if Alike(f[k], t[k]) then f[k] == t[k]
    else t[k] != NOTHING && Expressible(f[k], t[k])
  }

  lemma MergedField(f: map<CStr, Tree>, t: map<CStr, Tree>, k: CStr)
    requires k in f && k in t && DiffTree(f[k], t[k]).Some? ==>
               (MergeTree(Some(f[k]), DiffTree(f[k], t[k]).value) == t[k] <==> Expressible(f[k], t[k]))
    ensures MergedRight(MergeFields(f, FieldDiff(f, t)), t, k) <==> (k in t ==> FieldExpressible(f, t, k))
  {
    var d := FieldDiff(f, t);
    if k in t && k !in f {
      assert d[k] == t[k];
      MergeIntoNothing(None, t[k]);
    } else if k in t && k in f && !Alike(f[k], t[k]) {
      NothingToDo(f[k], t[k]);
      assert d[k] == DiffTree(f[k], t[k]).value;
      if t[k] == NOTHING {
        assert d[k] == NOTHING;
      } else {
        DiffIsNotNothing(f[k], t[k]);
      }
    }
  }

  lemma DiffIsNotNothing(from: Tree, to: Tree)
    requires DiffTree(from, to).Some? && to != NOTHING
    ensures DiffTree(from, to).value != NOTHING
  {
  }

  // ---------- on documents ----------

  ghost predicate Mergeable(v: JSON, names: iset<CStr>) {
    DistinctKeys(v, false) && KeysIn(v, names)
  }

  /** Sorted members of a mergeable object. */
  ghost predicate SortedFields(xs: seq<Member>, names: iset<CStr>) {
    && StrictlySorted(xs) && Distinct(xs, false)
    && forall i {:trigger xs[i]} :: 0 <= i < |xs| ==> xs[i].key in names && Mergeable(xs[i].value, names)
  }

  lemma SortFields(ms: seq<Member>, names: iset<CStr>)
    requires Mergeable(Object(ms), names)
    ensures SortedFields(SortMembers(ms, false), names)
            && CanonMembers(SortMembers(ms, false), false) == CanonMembers(ms, false)
  {
    var xs := SortMembers(ms, false);
    SortStrict(ms);
    SortKeepsMeaning(ms, false, false);
    forall i | 0 <= i < |xs| ensures xs[i].key in names && Mergeable(xs[i].value, names) { assert xs[i] in ms; }
  }

  lemma TailSorted(xs: seq<Member>, names: iset<CStr>)
    requires xs != [] && SortedFields(xs, names)
    ensures SortedFields(xs[1..], names)
  {
  }

  lemma DiffFirst(f: map<CStr, Tree>, k: CStr, x: Tree, g: map<CStr, Tree>)
    requires k !in f && k !in g
    ensures FieldDiff(f[k := x], g) == FieldDiff(f, g)[k := NOTHING] && k !in FieldDiff(f, g)
  {
    forall j | j != k ensures Differs(f[k := x], g, j) <==> Differs(f, g, j) {
    }
    assert Differs(f[k := x], g, k);
  }

  lemma DiffSecond(f: map<CStr, Tree>, k: CStr, y: Tree, g: map<CStr, Tree>)
    requires k !in f && k !in g
    ensures FieldDiff(f, g[k := y]) == FieldDiff(f, g)[k := y] && k !in FieldDiff(f, g)
  {
    assert Differs(f, g[k := y], k);
  }

  lemma DiffBoth(f: map<CStr, Tree>, k: CStr, x: Tree, g: map<CStr, Tree>, y: Tree)
    requires k !in f && k !in g
    ensures k !in FieldDiff(f, g)
    ensures Alike(x, y) ==> FieldDiff(f[k := x], g[k := y]) == FieldDiff(f, g)
    ensures !Alike(x, y) ==>
              DiffTree(x, y).Some? && FieldDiff(f[k := x], g[k := y]) == FieldDiff(f, g)[k := DiffTree(x, y).value]
  {
    NothingToDo(x, y);
    if Alike(x, y) {
      DiffBothAlike(f, k, x, g, y);
    } else {
      DiffBothDiffer(f, k, x, g, y);
    }
  }

  lemma DiffBothAlike(f: map<CStr, Tree>, k: CStr, x: Tree, g: map<CStr, Tree>, y: Tree)
    requires k !in f && k !in g && Alike(x, y)
    ensures FieldDiff(f[k := x], g[k := y]) == FieldDiff(f, g)
  {
    var f', g' := f[k := x], g[k := y];
    assert forall j :: Differs(f', g', j) <==> Differs(f, g, j);
  }

  lemma DiffBothDiffer(f: map<CStr, Tree>, k: CStr, x: Tree, g: map<CStr, Tree>, y: Tree)
    requires k !in f && k !in g && !Alike(x, y) && DiffTree(x, y).Some?
    ensures FieldDiff(f[k := x], g[k := y]) == FieldDiff(f, g)[k := DiffTree(x, y).value]
  {
    var f', g' := f[k := x], g[k := y];
    assert Differs(f', g', k);
    assert forall j :: j != k ==> (Differs(f', g', j) <==> Differs(f, g, j));
  }

  ghost predicate SameMeaning(patch: Option<JSON>, d: Option<Tree>) {
    (patch.None? <==> d.None?)
    && (patch.Some? && d.Some? ==> Canon(patch.value, false) == d.value && DistinctKeys(patch.value, false))
  }

  /** generate_merge_patch computes the difference of the meanings. */
  lemma {:induction false} GenerateMeaning(from: JSON, to: JSON, names: iset<CStr>)
    requires OrdersAgree(names) && Mergeable(from, names) && Mergeable(to, names)
    ensures SameMeaning(GenerateMerge(from, to, false), DiffTree(Canon(from, false), Canon(to, false)))
    decreases Size(from), 2
  {
    if from.Object? && to.Object? {
      var xs, ys := SortMembers(from.members, false), SortMembers(to.members, false);
      SortFields(from.members, names);
      SortFields(to.members, names);
      SortedSizes(from.members, false);
      GenerateMembersMeaning(xs, ys, Size(from), names);
      var fx, fy := CanonMembers(from.members, false), CanonMembers(to.members, false);
      assert DiffTree(Obj(fx), Obj(fy)) == if FieldDiff(fx, fy) == map[] then None else Some(Obj(FieldDiff(fx, fy)));
      var patch := GenerateMembers(xs, ys, false, Size(from));
      MapKeys(patch, false);
      if patch != [] {
        assert Fold(patch[0].key, false) in CanonMembers(patch, false);
      }
    }
  }

  lemma PrependDiff(p: Member, rest: seq<Member>)
    requires DistinctKeys(Object(rest), false) && DistinctKeys(p.value, false)
    requires Fold(p.key, false) !in CanonMembers(rest, false)
    ensures DistinctKeys(Object([p] + rest), false)
    ensures CanonMembers([p] + rest, false) == CanonMembers(rest, false)[Fold(p.key, false) := Canon(p.value, false)]
  {
    var r := [p] + rest;
    assert r[1..] == rest;
    MapKeys(rest, false);
    forall i, j | 0 <= i < j < |r| ensures Fold(r[i].key, false) != Fold(r[j].key, false) {
      assert r[j] == rest[j - 1];
      assert Fold(rest[j - 1].key, false) in CanonMembers(rest, false);
    }
  }

  lemma {:induction false} GenerateMembersMeaning(xs: seq<Member>, ys: seq<Member>, bound: nat, names: iset<CStr>)
    requires OrdersAgree(names) && SortedFields(xs, names) && SortedFields(ys, names)
    requires forall i :: 0 <= i < |xs| ==> Size(xs[i].value) < bound
    ensures var patch := GenerateMembers(xs, ys, false, bound);
            && DistinctKeys(Object(patch), false)
            && CanonMembers(patch, false) == FieldDiff(CanonMembers(xs, false), CanonMembers(ys, false))
    decreases bound, 1, |xs| + |ys|
  {
    if xs != [] && ys != [] {
      AgreeingOrder(names, xs[0].key, ys[0].key);
    }
    if xs == [] && ys == [] {
      assert FieldDiff(map[], map[]) == map[];
    } else if ys == [] || (xs != [] && StrCmp(xs[0].key, ys[0].key) < 0) {
      TailSorted(xs, names);
      HeadKey(xs);
      KeyBefore(xs[0].key, ys);
      GenerateMembersMeaning(xs[1..], ys, bound, names);
      DiffFirst(CanonMembers(xs[1..], false), Fold(xs[0].key, false), Canon(xs[0].value, false),
                CanonMembers(ys, false));
      PrependDiff(Member(xs[0].key, Null), GenerateMembers(xs[1..], ys, false, bound));
    } else if xs == [] || StrCmp(xs[0].key, ys[0].key) > 0 {
      TailSorted(ys, names);
      HeadKey(ys);
      if xs != [] {
        CompareKeysOrder(xs[0].key, ys[0].key, ys[0].key, false);
      }
      KeyBefore(ys[0].key, xs);
      GenerateMembersMeaning(xs, ys[1..], bound, names);
      DiffSecond(CanonMembers(xs, false), Fold(ys[0].key, false), Canon(ys[0].value, false),
                 CanonMembers(ys[1..], false));
      PrependDiff(ys[0], GenerateMembers(xs, ys[1..], false, bound));
    } else {
      CommonField(xs, ys, bound, names);
    }
  }

  lemma CommonField(xs: seq<Member>, ys: seq<Member>, bound: nat, names: iset<CStr>)
    requires OrdersAgree(names) && SortedFields(xs, names) && SortedFields(ys, names) && xs != [] && ys != []
             && StrCmp(xs[0].key, ys[0].key) == 0
    requires forall i :: 0 <= i < |xs| ==> Size(xs[i].value) < bound
    ensures var patch := GenerateMembers(xs, ys, false, bound);
            && DistinctKeys(Object(patch), false)
            && CanonMembers(patch, false) == FieldDiff(CanonMembers(xs, false), CanonMembers(ys, false))
    decreases bound, 1, |xs| + |ys|, 0
  {
    StrCmpZero(xs[0].key, ys[0].key);
    TailSorted(xs, names);
    TailSorted(ys, names);
    HeadKey(xs);
    HeadKey(ys);
    GenerateMembersMeaning(xs[1..], ys[1..], bound, names);
    var k, x, y := Fold(xs[0].key, false), Canon(xs[0].value, false), Canon(ys[0].value, false);
    CompareJsonMeaning(xs[0].value, ys[0].value);
    DiffBoth(CanonMembers(xs[1..], false), k, x, CanonMembers(ys[1..], false), y);
    CompareKeeps(xs[0].value, ys[0].value, false);
    CompareKeeps(ys[0].value, xs[0].value, false);
    GenerateMeaning(AfterCompare(xs[0].value, ys[0].value, false), AfterCompare(ys[0].value, xs[0].value, false),
                    names);
    var rest := GenerateMembers(xs[1..], ys[1..], false, bound);
    var common := CommonPatch(xs[0], ys[0], false, bound);
    assert GenerateMembers(xs, ys, false, bound) == common + rest;
    if Alike(x, y) {
      assert common + rest == rest;
    } else {
      PrependDiff(common[0], rest);
    }
  }

  /**
   Merge diff then merge: there is no patch exactly for two objects that compare equal;
   otherwise merging the patch into `from`, or into any document that means the same, gives what `to`
   means exactly if the change is expressible. strcmp and the case-blind order agree on the keys.
   */
  lemma DiffThenMerge(doc: JSON, from: JSON, to: JSON, names: iset<CStr>)
    requires DistinctKeys(doc, false) && Canon(doc, false) == Canon(from, false)
    requires OrdersAgree(names) && Mergeable(from, names) && Mergeable(to, names)
    ensures var patch := GenerateMerge(from, to, false);
            && (patch.None? <==> from.Object? && to.Object? && CompareJson(from, to, false))
            && (patch.Some? ==>
                  (Canon(Merge(Some(doc), patch.value, false), false) == Canon(to, false) <==>
                   Expressible(Canon(from, false), Canon(to, false))))
  {
    GenerateMeaning(from, to, names);
    NothingToDo(Canon(from, false), Canon(to, false));
    CompareJsonMeaning(from, to);
    var patch := GenerateMerge(from, to, false);
    if patch.Some? {
      MergeMeaning(Some(doc), patch.value, false);
      DiffThenMergeTrees(Canon(from, false), Canon(to, false));
    }
  }

  lemma {:induction false} NullFreeIsExpressible(from: Tree, to: Tree)
    requires NullFree(to) && RawFree(to)
    ensures Expressible(from, to)
    decreases from
  {
    if from.Obj? && to.Obj? {
      forall k | k in to.fields && k in from.fields
        ensures if Alike(from.fields[k], to.fields[k]) then from.fields[k] == to.fields[k]
                else Expressible(from.fields[k], to.fields[k])
      {
        if Alike(from.fields[k], to.fields[k]) {
          AlikeSymmetric(from.fields[k], to.fields[k]);
          AlikeIsEqual(to.fields[k], from.fields[k]);
        } else {
          NullFreeIsExpressible(from.fields[k], to.fields[k]);
        }
      }
    }
  }

  lemma {:induction false} AlikeSymmetric(s: Tree, t: Tree)
    requires Alike(s, t)
    ensures Alike(t, s)
    decreases s
  {
    match s
    case Scalar(_) =>
    case Arr(elems) =>
      forall i | 0 <= i < |elems| ensures Alike(t.elems[i], elems[i]) { AlikeSymmetric(elems[i], t.elems[i]); }
    case Obj(fields) =>
      forall k | k in t.fields ensures Alike(t.fields[k], fields[k]) { AlikeSymmetric(fields[k], t.fields[k]); }
  }

  /** What diff then merge should do: no patch for equal objects, otherwise a patch that leads to `to`. */
  ghost predicate MergeReaches(from: JSON, to: JSON, cs: bool) {
    var patch := GenerateMerge(from, to, cs);
    && (patch.None? <==> from.Object? && to.Object? && Canon(from, cs) == Canon(to, cs))
    && (patch.Some? ==> Canon(Merge(Some(from), patch.value, cs), cs) == Canon(to, cs))
  }

  /** No member reachable through objects alone is null. */
  predicate NoNulls(v: JSON)
    decreases v
  {
    v.Object? ==> forall i {:trigger v.members[i]} :: 0 <= i < |v.members| ==>
      !v.members[i].value.Null? && NoNulls(v.members[i].value)
  }

  lemma {:induction false} NoNullsMeaning(v: JSON, cs: bool)
    requires NoNulls(v)
    ensures NullFree(Canon(v, cs))
    decreases v
  {
    if v.Object? {
      var ms, fields := v.members, CanonMembers(v.members, cs);
      forall k | k in fields ensures fields[k] != NOTHING && NullFree(fields[k]) {
        MapKeys(ms, cs);
        var i :| 0 <= i < |ms| && Fold(ms[i].key, cs) == k;
        LookupIsMap(ms, ms[i].key, cs);
        NoNullsMeaning(ms[FindKey(ms, ms[i].key, cs)].value, cs);
      }
    }
  }

  /** Without null members and raw items in `to`, the law holds outright. */
  lemma DiffThenMergeNullFree(from: JSON, to: JSON, names: iset<CStr>)
    requires OrdersAgree(names) && Mergeable(from, names) && Mergeable(to, names) && Plain(to) && NoNulls(to)
    ensures MergeReaches(from, to, false)
  {
    NoNullsMeaning(to, false);
    DiffThenMerge(from, from, to, names);
    PlainMeaning(to, false);
    NullFreeIsExpressible(Canon(from, false), Canon(to, false));
    CompareJsonMeaning(from, to);
    if CompareJson(from, to, false) {
      AlikeSymmetric(Canon(from, false), Canon(to, false));
      AlikeIsEqual(Canon(to, false), Canon(from, false));
    } else if Canon(from, false) == Canon(to, false) {
      AlikeIsEqual(Canon(to, false), Canon(from, false));
    }
  }
}
