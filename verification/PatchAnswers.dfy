/**
 What the patch code answers: no patches exactly for equal documents, the status of every operation, where a list of
 patches stops, and the member names and operation names of sections 4.1 to 4.6 of RFC 6902.
 */
module PatchAnswers {
  import opened Wrappers
  import opened CStrings
  import opened Json
  import opened Sorting
  import opened Compare
  import opened CompareSorted
  import opened Pointer
  import opened Patch
  import opened TreePath
  import opened PatchEffect
  import opened MoveCopyTest

  // ---------- no patches ----------

  /** The generator has nothing to do exactly where compare_json says yes, for all documents and under either flag. */
  lemma {:induction false} NoEditsIff(at: seq<CStr>, from: JSON, to: JSON, cs: bool, junk: Memory)
    ensures EditsFor(at, from, to, cs, junk) == [] <==> CompareJson(from, to, cs)
    decreases Size(from), 1
  {
    if SameType(from, to) && from.Array? {
      NoArrayEditsIff(at, from.items, to.items, 0, cs, junk);
      if CompareJson(from, to, cs) {
        assert forall j :: 0 <= j < |from.items| ==> CompareJson(from.items[j], to.items[j], cs);
      }
    } else if SameType(from, to) && from.Object? {
      var xs, ys := SortMembers(from.members, cs), SortMembers(to.members, cs);
      SortedSizes(from.members, cs);
      NoObjectEditsIff(at, xs, ys, cs, junk, Size(from));
      assert CompareJson(from, to, cs) <==> MembersAgree(xs, ys, cs);
    }
  }

  lemma {:induction false} NoArrayEditsIff(at: seq<CStr>, from: seq<JSON>, to: seq<JSON>, i: nat, cs: bool,
                                           junk: Memory)
    requires i <= |from| && i <= |to|
    ensures ArrayEdits(at, from, to, i, cs, junk) == [] <==>
            |from| == |to| && forall j :: i <= j < |from| ==> CompareJson(from[j], to[j], cs)
    decreases SizeOfItems(from) + 1, 0, |from| - i
  {
    if i < |from| && i < |to| {
      NoEditsIff(at + [Decimal(i)], from[i], to[i], cs, junk);
      NoArrayEditsIff(at, from, to, i + 1, cs, junk);
    }
  }

  lemma {:induction false} NoObjectEditsIff(at: seq<CStr>, xs: seq<Member>, ys: seq<Member>, cs: bool, junk: Memory,
                                            bound: nat)
    requires forall i :: 0 <= i < |xs| ==> Size(xs[i].value) < bound
    ensures ObjectEdits(at, xs, ys, cs, junk, bound) == [] <==> MembersAgree(xs, ys, cs)
    decreases bound, 0, |xs| + |ys|
  {
    if xs != [] && ys != [] {
      NoEditsIff(at + [EncodeToken(xs[0].key, junk)], xs[0].value, ys[0].value, cs, junk);
      NoObjectEditsIff(at, xs[1..], ys[1..], cs, junk, bound);
      AgreeFirst(xs, ys, cs);
    }
  }

  lemma AgreeFirst(xs: seq<Member>, ys: seq<Member>, cs: bool)
    requires xs != [] && ys != []
    ensures MembersAgree(xs, ys, cs) <==>
            && CompareKeys(xs[0].key, ys[0].key, cs) == 0 && CompareJson(xs[0].value, ys[0].value, cs)
            && MembersAgree(xs[1..], ys[1..], cs)
  {
    if MembersAgree(xs[1..], ys[1..], cs) && |xs| == |ys| {
      forall i | 1 <= i < |xs|
        ensures CompareKeys(xs[i].key, ys[i].key, cs) == 0 && CompareJson(xs[i].value, ys[i].value, cs)
      {
        assert xs[i] == xs[1..][i - 1] && ys[i] == ys[1..][i - 1];
      }
    }
  }

  // ---------- names ----------

  /** The operation of a patch is told by its first member named "op", whatever else is in it. */
  lemma OperationNames(patch: JSON, cs: bool)
    ensures var op, done := Field(patch, "op", cs), DecodeOperation(patch, cs);
            && (done == ADD <==> op == Some(String("add"))) && (done == REMOVE <==> op == Some(String("remove")))
            && (done == REPLACE <==> op == Some(String("replace"))) && (done == MOVE <==> op == Some(String("move")))
            && (done == COPY <==> op == Some(String("copy"))) && (done == TEST <==> op == Some(String("test")))
  {
    assert "add"[0] == 'a' && "remove"[0] == 'r' && "replace"[0] == 'r' && "remove"[2] == 'm' && "replace"[2] == 'p';
    assert "move"[0] == 'm' && "copy"[0] == 'c' && "test"[0] == 't';
  }

  /** A generated patch, written out. */
  lemma GeneratedMembers(e: Edit)
    ensures PatchFor(e) == Object(
              match e
              case Remove(at, name) =>
                [Member("op", String("remove")), Member("path", String(PathOf(at) + "/" + name))]
              case Add(at, name, value) =>
                [Member("op", String("add")), Member("path", String(PathOf(at) + "/" + name)), Member("value", value)]
              case Replace(at, value) =>
                [Member("op", String("replace")), Member("path", String(PathOf(at))), Member("value", value)])
  {
  }

  // ---------- statuses ----------

  /** Whether a path leads to a part that is there. */
  ghost predicate Leads(t: Tree, toks: seq<CStr>, tok: CStr) {
    GetPart(t, toks).Some? && HasPart(GetPart(t, toks).value, tok)
  }

  /** Where nothing is there, nothing is cut out. */
  lemma DetachMisses(v: JSON, toks: seq<CStr>, tok: CStr)
    requires DistinctKeys(v, false) && CleanPath(toks) && Clean(tok) && !Leads(Canon(v, false), toks, tok)
    ensures DetachPath(v, PathOf(toks) + "/" + tok, false).None?
  {
    PathMeaning(v, toks, Null);
    SplitPath(toks, tok);
    DecodeClean(tok);
    FollowCleanPath(v, toks, false, Null);
    var parent := GetByTokens(v, toks, false);
    if parent.Some? {
      StepMeaning(parent.value, tok);
    }
  }

  /** The status of putting a value in at a path whose parent is this part. */
  ghost function AddStatus(parent: Option<Tree>, tok: CStr): int {
    if parent.None? || parent.value.Scalar? then 9
    else if CanAdd(parent.value, tok) then 0
    else if DecodeIndex(tok).None? then 11
    else 10
  }

  /**
   Putting a value in: 9 without a parent or below something that is no container, 11 for a name that is no index,
   10 for an index behind the end; the document is left alone then.
   */
  lemma AddAnswers(v: JSON, toks: seq<CStr>, tok: CStr, w: JSON)
    requires DistinctKeys(v, false) && DistinctKeys(w, false) && CleanPath(toks) && Clean(tok)
    ensures var c, done := Canon(v, false), AddAt(v, PathOf(toks) + "/" + tok, false, w);
            var parent := GetPart(c, toks);
            && done.0 == AddStatus(parent, tok) && (done.0 != 0 ==> done.1 == v)
            && (done.0 == 0 ==>
                  && DistinctKeys(done.1, false)
                  && Canon(done.1, false) == SetPart(c, toks, PlusPart(parent.value, tok, Canon(w, false))))
  {
    var c := Canon(v, false);
    PathMeaning(v, toks, Null);
    if AddStatus(GetPart(c, toks), tok) == 0 {
      AddEffect(v, toks, tok, w);
    } else {
      AddRefused(v, toks, tok, w);
    }
  }

  lemma AddRefused(v: JSON, toks: seq<CStr>, tok: CStr, w: JSON)
    requires DistinctKeys(v, false) && CleanPath(toks) && Clean(tok)
    requires AddStatus(GetPart(Canon(v, false), toks), tok) != 0
    ensures AddAt(v, PathOf(toks) + "/" + tok, false, w) == (AddStatus(GetPart(Canon(v, false), toks), tok), v)
  {
    PathMeaning(v, toks, Null);
    SplitPath(toks, tok);
    DecodeClean(tok);
    FollowCleanPath(v, toks, false, Null);
  }

  /** In an array the name "-" means behind the end. */
  lemma DashAppends(items: seq<JSON>, cs: bool, w: JSON)
    ensures AddTo(Array(items), "-", cs, w) == (0, Array(items + [w])) && DecodeIndex("-") == None
  {
  }

  /** "remove": the part is taken out, or 13 where there is none. */
  lemma RemoveAnswers(v: JSON, patch: JSON, toks: seq<CStr>, tok: CStr)
    requires DistinctKeys(v, false) && CleanPath(toks) && Clean(tok) && IsPatch(patch, REMOVE, PathOf(toks) + "/" + tok)
    ensures var c, done := Canon(v, false), ApplyPatch(v, patch, false);
            if Leads(c, toks, tok) then
              && done.0 == 0 && DistinctKeys(done.1, false)
              && Canon(done.1, false) == SetPart(c, toks, WithoutPart(GetPart(c, toks).value, tok))
            else done == (13, v)
  {
    if Leads(Canon(v, false), toks, tok) {
      DetachEffect(v, toks, tok);
    } else {
      DetachMisses(v, toks, tok);
    }
  }

  /** "add": 7 without a value, and otherwise what putting it in answers. */
  lemma AddPatchAnswers(v: JSON, patch: JSON, toks: seq<CStr>, tok: CStr)
    requires DistinctKeys(v, false) && CleanPath(toks) && Clean(tok) && IsPatch(patch, ADD, PathOf(toks) + "/" + tok)
    requires Field(patch, "value", false).Some? ==> DistinctKeys(Field(patch, "value", false).value, false)
    ensures var c, value, done := Canon(v, false), Field(patch, "value", false), ApplyPatch(v, patch, false);
            && done.0 == (if value.None? then 7 else AddStatus(GetPart(c, toks), tok)) && (done.0 != 0 ==> done.1 == v)
            && (done.0 == 0 ==>
                  && DistinctKeys(done.1, false)
                  && Canon(done.1, false) ==
                     SetPart(c, toks, PlusPart(GetPart(c, toks).value, tok, Canon(value.value, false))))
  {
    var value := Field(patch, "value", false);
    if value.Some? {
      AddAnswers(v, toks, tok, value.value);
    }
  }

  /** "replace": 13 where there is no part; without a value 7, but the part is gone; otherwise the part is the value. */
  lemma ReplaceAnswers(v: JSON, patch: JSON, toks: seq<CStr>, tok: CStr)
    requires DistinctKeys(v, false) && CleanPath(toks) && Clean(tok)
    requires IsPatch(patch, REPLACE, PathOf(toks) + "/" + tok)
    requires Field(patch, "value", false).Some? ==> DistinctKeys(Field(patch, "value", false).value, false)
    ensures var c, value, done := Canon(v, false), Field(patch, "value", false), ApplyPatch(v, patch, false);
            if !Leads(c, toks, tok) then done == (13, v)
            else if value.None? then
              done.0 == 7 && Canon(done.1, false) == SetPart(c, toks, WithoutPart(GetPart(c, toks).value, tok))
            else
              && done.0 == 0 && DistinctKeys(done.1, false)
              && Canon(done.1, false) ==
                 SetPart(c, toks, WithPart(GetPart(c, toks).value, tok, Canon(value.value, false)))
  {
    var c, value := Canon(v, false), Field(patch, "value", false);
    if !Leads(c, toks, tok) {
      DetachMisses(v, toks, tok);
    } else {
      DetachEffect(v, toks, tok);
      var t, cut := GetPart(c, toks).value, DetachPath(v, PathOf(toks) + "/" + tok, false).value.1;
      GetSet(c, toks, WithoutPart(t, tok));
      if value.Some? {
        PutBack(t, tok, Canon(value.value, false));
        AddEffect(cut, toks, tok, value.value);
        SetSet(c, toks, WithoutPart(t, tok), WithPart(t, tok, Canon(value.value, false)));
      }
    }
  }

  /**
   Patches that are none: no path, or one that is no string, is 2; no operation, or an unknown one, is 3; and nothing
   else gives these statuses.
   */
  lemma MalformedAnswers(v: JSON, patch: JSON, cs: bool)
    ensures var path, done := Field(patch, "path", cs), ApplyPatch(v, patch, cs);
            && (path.None? || !path.value.String? <==> done.0 == 2)
            && (path.Some? && path.value.String? && DecodeOperation(patch, cs) == INVALID <==> done.0 == 3)
            && (done.0 == 2 || done.0 == 3 ==> done.1 == v)
  {
  }

  /** The root: "add" and "replace" put the value in its place or return 7, "remove" leaves an invalid item. */
  lemma RootAnswers(v: JSON, patch: JSON, cs: bool)
    requires Field(patch, "path", cs) == Some(String(""))
    ensures var op, value, done := DecodeOperation(patch, cs), Field(patch, "value", cs), ApplyPatch(v, patch, cs);
            && (op == REMOVE ==> done == (0, Invalid))
            && (op == ADD || op == REPLACE ==> done == if value.None? then (7, v) else (0, value.value))
  {
  }

  /** "move" and "copy" without a source: 4 if it is not given, 5 if nothing is there. */
  lemma SourceAnswers(v: JSON, patch: JSON, toks: seq<CStr>, tok: CStr, path: CStr)
    requires DistinctKeys(v, false) && CleanPath(toks) && Clean(tok)
    requires IsPatch(patch, MOVE, path) || IsPatch(patch, COPY, path)
    ensures Field(patch, "from", false).None? ==> ApplyPatch(v, patch, false) == (4, v)
    ensures Field(patch, "from", false) == Some(String(PathOf(toks) + "/" + tok))
            && !Leads(Canon(v, false), toks, tok) ==>
              ApplyPatch(v, patch, false) == (5, v)
  {
    if !Leads(Canon(v, false), toks, tok) && Field(patch, "from", false) == Some(String(PathOf(toks) + "/" + tok)) {
      if DecodeOperation(patch, false) == MOVE {
        DetachMisses(v, toks, tok);
        NothingMoved(v, patch, PathOf(toks) + "/" + tok);
      } else {
        NothingFound(v, toks, tok);
        ApplyCopy(v, patch, path, PathOf(toks) + "/" + tok);
      }
    }
  }

  lemma NothingMoved(v: JSON, patch: JSON, source: CStr)
    requires HasPath(patch, false) && DecodeOperation(patch, false) == MOVE
    requires Field(patch, "from", false) == Some(String(source)) && DetachPath(v, source, false).None?
    ensures ApplyPatch(v, patch, false) == (5, v)
  {
  }

  lemma NothingFound(v: JSON, toks: seq<CStr>, tok: CStr)
    requires DistinctKeys(v, false) && CleanPath(toks) && Clean(tok) && !Leads(Canon(v, false), toks, tok)
    ensures GetItem(v, PathOf(toks) + "/" + tok, false).None?
  {
    var all := toks + [tok];
    PathOfSnoc(toks, tok);
    FollowCleanPath(v, all, false, Null);
    PathMeaning(v, all, Null);
    if GetPart(Canon(v, false), all).Some? {
      ParentHasPart(Canon(v, false), toks, tok);
    }
  }

  // ---------- where a list of patches stops ----------

  /**
   A list of patches in two halves: if the first half fails, that is the end, with the status and the document it
   left; otherwise the second half goes on from there.
   */
  lemma {:induction false} AppliedInHalves(v: JSON, a: seq<JSON>, b: seq<JSON>, cs: bool)
    ensures var done := ApplyAll(v, a, cs);
            ApplyAll(v, a + b, cs) == if done.0 != 0 then done else ApplyAll(done.1, b, cs)
    decreases |a|
  {
    if a == [] {
      assert a + b == b;
    } else {
      assert (a + b)[1..] == a[1..] + b;
      AppliedInHalves(ApplyPatch(v, a[0], cs).1, a[1..], b, cs);
    }
  }

  /** A single patch in a list answers for itself. */
  lemma OneApplied(v: JSON, patch: JSON, cs: bool)
    ensures ApplyAll(v, [patch], cs) == ApplyPatch(v, patch, cs)
  {
    assert [patch][1..] == [];
  }
}
