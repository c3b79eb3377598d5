/**
 What one generated patch does to the meaning of a document.
 */
module PatchEffect {
  import opened Wrappers
  import opened CStrings
  import opened Json
  import opened Pointer
  import opened Patch
  import opened TreePath

  /** What apply_patch reads back from a composed patch, under either flag. */
  lemma ComposedFields(op: CStr, path: CStr, value: Option<JSON>, cs: bool)
    ensures var patch := Compose(op, path, value);
            && Field(patch, OP_NAME, cs) == Some(String(op))
            && Field(patch, PATH_NAME, cs) == Some(String(path))
            && Field(patch, VALUE_NAME, cs) == value
  {
    var ms := Compose(op, path, value).members;
    assert Fold(OP_NAME, cs)[0] == 'o' && Fold(PATH_NAME, cs)[0] == 'p' && Fold(VALUE_NAME, cs)[0] == 'v';
    assert ms[0] == Member(OP_NAME, String(op)) && ms[1] == Member(PATH_NAME, String(path));
    assert FindKey(ms, OP_NAME, cs) == 0;
    assert FindKey(ms, PATH_NAME, cs) == 1;
    if value.Some? {
      assert ms[2] == Member(VALUE_NAME, value.value);
      assert FindKey(ms, VALUE_NAME, cs) == 2;
    } else {
      assert FindKey(ms, VALUE_NAME, cs) == 2 == |ms|;
    }
  }

  lemma SplitPath(toks: seq<CStr>, tok: CStr)
    requires Clean(tok)
    ensures var path, n := PathOf(toks) + "/" + tok, |PathOf(toks)|;
            LastSlash(path) == Some(n) && path[..n] == PathOf(toks) && path[n + 1..] == tok
  {
    var path, n := PathOf(toks) + "/" + tok, |PathOf(toks)|;
    assert path[n] == '/';
    assert forall i :: n < i < |path| ==> path[i] == tok[i - n - 1];
  }

  function WithoutPart(t: Tree, tok: CStr): Tree
    requires HasPart(t, tok)
  {
    if t.Arr? then var i := DecodeIndex(tok).value; Arr(t.elems[..i] + t.elems[i + 1..])
    else Obj(t.fields - {Fold(tok, false)})
  }

  predicate CanAdd(t: Tree, tok: CStr) {
    t.Obj? || (t.Arr? && (tok == LAST_INDEX || (DecodeIndex(tok).Some? && DecodeIndex(tok).value <= |t.elems|)))
  }

  function PlusPart(t: Tree, tok: CStr, x: Tree): Tree
    requires CanAdd(t, tok)
  {
    if t.Arr? then
      if tok == LAST_INDEX then Arr(t.elems + [x])
      else var i := DecodeIndex(tok).value; Arr(t.elems[..i] + [x] + t.elems[i..])
    else Obj(t.fields[Fold(tok, false) := x])
  }

  lemma ArraySlices(items: seq<JSON>, i: nat)
    requires i <= |items|
    ensures Canon(Array(items[..i]), false).elems == Canon(Array(items), false).elems[..i]
    ensures Canon(Array(items[i..]), false).elems == Canon(Array(items), false).elems[i..]
  {
  }

  lemma ArrayConcat(a: seq<JSON>, b: seq<JSON>)
    ensures Canon(Array(a + b), false).elems == Canon(Array(a), false).elems + Canon(Array(b), false).elems
  {
  }

  lemma MembersDistinct(ms: seq<Member>, ns: seq<Member>, extra: seq<Member>)
    requires DistinctKeys(Object(ms), false)
    requires forall m :: m in ns ==> m in ms || m in extra
    requires forall m :: m in extra ==> DistinctKeys(m.value, false)
    requires Distinct(ns, false)
    ensures DistinctKeys(Object(ns), false)
  {
    forall i | 0 <= i < |ns| ensures DistinctKeys(ns[i].value, false) {
      assert ns[i] in ns;
    }
  }

  lemma DetachFromMeaning(parent: JSON, tok: CStr)
    requires DistinctKeys(parent, false) && HasPart(Canon(parent, false), tok)
    ensures var cut := DetachFrom(parent, tok);
            && cut.Some? && DistinctKeys(cut.value.1, false)
               && Canon(cut.value.1, false) == WithoutPart(Canon(parent, false), tok)
            && DistinctKeys(cut.value.0, false) && Canon(cut.value.0, false) == Part(Canon(parent, false), tok)
  {
    StepMeaning(parent, tok);
    if parent.Array? {
      var i := DecodeIndex(tok).value;
      ArraySlices(parent.items, i);
      ArraySlices(parent.items, i + 1);
      ArrayConcat(parent.items[..i], parent.items[i + 1..]);
    } else {
      DetachRemovesKey(parent.members, tok, false);
      DetachDistinct(parent.members, tok, false);
      MembersDistinct(parent.members, Detach(parent.members, tok, false), []);
    }
  }

  lemma AddToMeaning(parent: JSON, tok: CStr, w: JSON)
    requires DistinctKeys(parent, false) && DistinctKeys(w, false) && CanAdd(Canon(parent, false), tok)
    ensures var (status, newParent) := AddTo(parent, tok, false, w);
            && status == 0 && DistinctKeys(newParent, false)
            && Canon(newParent, false) == PlusPart(Canon(parent, false), tok, Canon(w, false))
  {
    if parent.Array? {
      InsertMeaning(parent.items, if tok == LAST_INDEX then |parent.items| else DecodeIndex(tok).value, w);
      if tok == LAST_INDEX {
        var n := |parent.items|;
        assert parent.items[..n] + [w] + parent.items[n..] == parent.items + [w];
        assert Canon(parent, false).elems[..n] + [Canon(w, false)] + Canon(parent, false).elems[n..]
            == Canon(parent, false).elems + [Canon(w, false)];
      }
    } else {
      SetMemberMeaning(parent.members, tok, w);
    }
  }

  lemma InsertMeaning(items: seq<JSON>, i: nat, w: JSON)
    requires i <= |items|
    ensures var elems := Canon(Array(items), false).elems;
            Canon(Array(items[..i] + [w] + items[i..]), false) == Arr(elems[..i] + [Canon(w, false)] + elems[i..])
  {
    ArraySlices(items, i);
    ArrayConcat(items[..i] + [w], items[i..]);
    ArrayConcat(items[..i], [w]);
    assert Canon(Array([w]), false).elems == [Canon(w, false)];
  }

  lemma SetMemberMeaning(ms: seq<Member>, tok: CStr, w: JSON)
    requires DistinctKeys(Object(ms), false) && DistinctKeys(w, false)
    ensures var r := Detach(ms, tok, false) + [Member(tok, w)];
            DistinctKeys(Object(r), false)
            && CanonMembers(r, false) == CanonMembers(ms, false)[Fold(tok, false) := Canon(w, false)]
  {
    var rest, k := Detach(ms, tok, false), Fold(tok, false);
    DetachRemovesKey(ms, tok, false);
    DetachDistinct(ms, tok, false);
    AppendAddsKey(rest, tok, w, false);
    MembersDistinct(ms, rest + [Member(tok, w)], [Member(tok, w)]);
    assert (CanonMembers(ms, false) - {k})[k := Canon(w, false)] == CanonMembers(ms, false)[k := Canon(w, false)];
  }

  /** Detaching at a clean path takes the part out of the meaning. */
  lemma DetachEffect(v: JSON, toks: seq<CStr>, tok: CStr)
    requires DistinctKeys(v, false) && CleanPath(toks) && Clean(tok)
    requires GetPart(Canon(v, false), toks).Some? && HasPart(GetPart(Canon(v, false), toks).value, tok)
    ensures var cut := DetachPath(v, PathOf(toks) + "/" + tok, false);
            && cut.Some? && DistinctKeys(cut.value.1, false)
            && Canon(cut.value.1, false) ==
               SetPart(Canon(v, false), toks, WithoutPart(GetPart(Canon(v, false), toks).value, tok))
            && DistinctKeys(cut.value.0, false)
               && Canon(cut.value.0, false) == Part(GetPart(Canon(v, false), toks).value, tok)
  {
    PathMeaning(v, toks, Null);
    var parent := GetByTokens(v, toks, false).value;
    DetachFromMeaning(parent, tok);
    var newParent := DetachFrom(parent, tok).value.1;
    PathMeaning(v, toks, newParent);
    SplitPath(toks, tok);
    DecodeClean(tok);
    FollowCleanPath(v, toks, false, newParent);
  }

  /** Adding at a clean path puts the part into the meaning. */
  lemma AddEffect(v: JSON, toks: seq<CStr>, tok: CStr, w: JSON)
    requires DistinctKeys(v, false) && DistinctKeys(w, false) && CleanPath(toks) && Clean(tok)
    requires GetPart(Canon(v, false), toks).Some? && CanAdd(GetPart(Canon(v, false), toks).value, tok)
    ensures var added := AddAt(v, PathOf(toks) + "/" + tok, false, w);
            && added.0 == 0 && DistinctKeys(added.1, false)
            && Canon(added.1, false) ==
               SetPart(Canon(v, false), toks, PlusPart(GetPart(Canon(v, false), toks).value, tok, Canon(w, false)))
  {
    PathMeaning(v, toks, Null);
    var parent := GetByTokens(v, toks, false).value;
    AddToMeaning(parent, tok, w);
    var newParent := AddTo(parent, tok, false, w).1;
    PathMeaning(v, toks, newParent);
    SplitPath(toks, tok);
    DecodeClean(tok);
    FollowCleanPath(v, toks, false, newParent);
  }

  lemma ApplyRemove(v: JSON, path: CStr, cs: bool)
    requires path != []
    ensures ApplyPatch(v, Compose(REMOVE_OP, path, None), cs) ==
            var cut := DetachPath(v, path, cs); if cut.None? then (13, v) else (0, cut.value.1)
  {
    ComposedFields(REMOVE_OP, path, None, cs);
  }

  lemma ApplyAdd(v: JSON, path: CStr, w: JSON, cs: bool)
    requires path != []
    ensures ApplyPatch(v, Compose(ADD_OP, path, Some(w)), cs) == AddAt(v, path, cs, w)
  {
    ComposedFields(ADD_OP, path, Some(w), cs);
  }

  lemma ApplyReplace(v: JSON, path: CStr, w: JSON, cs: bool)
    ensures ApplyPatch(v, Compose(REPLACE_OP, path, Some(w)), cs) ==
            if path == [] then (0, w)
            else var cut := DetachPath(v, path, cs); if cut.None? then (13, v) else AddAt(cut.value.1, path, cs, w)
  {
    ComposedFields(REPLACE_OP, path, Some(w), cs);
  }

  /** A generated "remove". */
  lemma RemoveEffect(v: JSON, toks: seq<CStr>, tok: CStr)
    requires DistinctKeys(v, false) && CleanPath(toks) && Clean(tok)
    requires GetPart(Canon(v, false), toks).Some? && HasPart(GetPart(Canon(v, false), toks).value, tok)
    ensures var done := ApplyPatch(v, Compose(REMOVE_OP, PathOf(toks) + "/" + tok, None), false);
            && done.0 == 0 && DistinctKeys(done.1, false)
            && Canon(done.1, false) ==
               SetPart(Canon(v, false), toks, WithoutPart(GetPart(Canon(v, false), toks).value, tok))
  {
    ApplyRemove(v, PathOf(toks) + "/" + tok, false);
    DetachEffect(v, toks, tok);
  }

  /** A generated "add". */
  lemma AddPatchEffect(v: JSON, toks: seq<CStr>, tok: CStr, w: JSON)
    requires DistinctKeys(v, false) && DistinctKeys(w, false) && CleanPath(toks) && Clean(tok)
    requires GetPart(Canon(v, false), toks).Some? && CanAdd(GetPart(Canon(v, false), toks).value, tok)
    ensures var done := ApplyPatch(v, Compose(ADD_OP, PathOf(toks) + "/" + tok, Some(w)), false);
            && done.0 == 0 && DistinctKeys(done.1, false)
            && Canon(done.1, false) ==
               SetPart(Canon(v, false), toks, PlusPart(GetPart(Canon(v, false), toks).value, tok, Canon(w, false)))
  {
    ApplyAdd(v, PathOf(toks) + "/" + tok, w, false);
    AddEffect(v, toks, tok, w);
  }

  /** A generated "replace", at the root or below it. */
  lemma ReplaceEffect(v: JSON, toks: seq<CStr>, w: JSON)
    requires DistinctKeys(v, false) && DistinctKeys(w, false) && CleanPath(toks)
    requires GetPart(Canon(v, false), toks).Some?
    ensures var done := ApplyPatch(v, Compose(REPLACE_OP, PathOf(toks), Some(w)), false);
            && done.0 == 0 && DistinctKeys(done.1, false)
            && Canon(done.1, false) == SetPart(Canon(v, false), toks, Canon(w, false))
  {
    ApplyReplace(v, PathOf(toks), w, false);
    if toks != [] {
      var n := |toks| - 1;
      var front, tok := toks[..n], toks[n];
      assert toks == front + [tok];
      PathOfSnoc(front, tok);
      var c := Canon(v, false);
      ParentHasPart(c, front, tok);
      var t := GetPart(c, front).value;
      DetachEffect(v, front, tok);
      var v1 := DetachPath(v, PathOf(toks), false).value.1;
      GetSet(c, front, WithoutPart(t, tok));
      PutBack(t, tok, Canon(w, false));
      AddEffect(v1, front, tok, w);
      SetSet(c, front, WithoutPart(t, tok), WithPart(t, tok, Canon(w, false)));
      Deeper(c, front, tok, Canon(w, false));
    }
  }

  lemma {:induction false} ParentHasPart(t: Tree, front: seq<CStr>, tok: CStr)
    requires GetPart(t, front + [tok]).Some?
    ensures GetPart(t, front).Some? && HasPart(GetPart(t, front).value, tok)
    decreases |front|
  {
    var toks := front + [tok];
    if front != [] {
      assert toks[0] == front[0] && toks[1..] == front[1..] + [tok];
      ParentHasPart(Part(t, front[0]), front[1..], tok);
    }
  }

  /** Taking a part out and adding one under its name is changing it. */
  lemma PutBack(t: Tree, tok: CStr, x: Tree)
    requires HasPart(t, tok)
    ensures CanAdd(WithoutPart(t, tok), tok) && PlusPart(WithoutPart(t, tok), tok, x) == WithPart(t, tok, x)
  {
    if t.Arr? {
      assert DecodeIndex(LAST_INDEX) == None;
      var i := DecodeIndex(tok).value;
      var rest := t.elems[..i] + t.elems[i + 1..];
      assert rest[..i] + [x] + rest[i..] == t.elems[i := x];
    } else {
      assert (t.fields - {Fold(tok, false)})[Fold(tok, false) := x] == t.fields[Fold(tok, false) := x];
    }
  }
}
