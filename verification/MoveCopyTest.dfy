/**
 What the patch operations that are never generated do to a document: TEST, COPY and MOVE, in patches
 with any members in any order.
 */
module MoveCopyTest {
  import opened Wrappers
  import opened CStrings
  import opened Json
  import opened CompareSorted
  import opened Rearranged
  import opened CompareInPlace
  import opened Pointer
  import opened Patch
  import opened TreePath
  import opened PatchEffect

  /** A patch for an operation at a path, whatever else is in it. */
  ghost predicate IsPatch(patch: JSON, op: Operation, path: CStr) {
    Field(patch, PATH_NAME, false) == Some(String(path)) && DecodeOperation(patch, false) == op
  }

  /**
   TEST rearranges members but changes no meaning, and succeeds exactly if the part is there and means what the
   value means, up to raw items.
   */
  lemma TestEffect(v: JSON, patch: JSON, toks: seq<CStr>)
    requires DistinctKeys(v, false) && CleanPath(toks) && IsPatch(patch, TEST, PathOf(toks))
    requires Field(patch, VALUE_NAME, false).Some? ==> DistinctKeys(Field(patch, VALUE_NAME, false).value, false)
    ensures var (status, r) := ApplyPatch(v, patch, false);
            var part, value := GetPart(Canon(v, false), toks), Field(patch, VALUE_NAME, false);
            && DistinctKeys(r, false) && Canon(r, false) == Canon(v, false) && (status == 0 || status == 1)
            && (status == 0 <==> part.Some? && value.Some? && Alike(part.value, Canon(value.value, false)))
  {
    PathMeaning(v, toks, Null);
    FollowCleanPath(v, toks, false, Null);
    var item, value := GetItem(v, PathOf(toks), false), Field(patch, VALUE_NAME, false);
    if item.Some? && value.Some? {
      CompareJsonMeaning(item.value, value.value);
      CompareKeeps(item.value, value.value, false);
      var left := AfterCompare(item.value, value.value, false);
      PathMeaning(v, toks, left);
      FollowCleanPath(v, toks, false, left);
      SetSame(Canon(v, false), toks);
    }
  }

  lemma ApplyCopy(v: JSON, patch: JSON, path: CStr, from: CStr)
    requires IsPatch(patch, COPY, path) && Field(patch, FROM_NAME, false) == Some(String(from))
    ensures var item := GetItem(v, from, false);
            ApplyPatch(v, patch, false) == if item.None? then (5, v) else AddAt(v, path, false, item.value)
  {
  }

  /** COPY puts the part found at `source` in at the path, or returns 5 if there is none. */
  lemma CopyEffect(v: JSON, patch: JSON, source: seq<CStr>, toks: seq<CStr>, tok: CStr)
    requires DistinctKeys(v, false) && CleanPath(source) && CleanPath(toks) && Clean(tok)
    requires IsPatch(patch, COPY, PathOf(toks) + "/" + tok)
             && Field(patch, FROM_NAME, false) == Some(String(PathOf(source)))
    ensures var c, done := Canon(v, false), ApplyPatch(v, patch, false);
            var part, parent := GetPart(c, source), GetPart(c, toks);
            && (part.None? ==> done == (5, v))
            && (part.Some? && parent.Some? && CanAdd(parent.value, tok) ==>
                  done.0 == 0 && DistinctKeys(done.1, false)
                  && Canon(done.1, false) == SetPart(c, toks, PlusPart(parent.value, tok, part.value)))
  {
    var c := Canon(v, false);
    PathMeaning(v, source, Null);
    FollowCleanPath(v, source, false, Null);
    ApplyCopy(v, patch, PathOf(toks) + "/" + tok, PathOf(source));
    var part, parent := GetPart(c, source), GetPart(c, toks);
    if part.Some? && parent.Some? && CanAdd(parent.value, tok) {
      AddEffect(v, toks, tok, GetByTokens(v, source, false).value);
    }
  }

  lemma ApplyMove(v: JSON, patch: JSON, path: CStr, from: CStr)
    requires IsPatch(patch, MOVE, path) && Field(patch, FROM_NAME, false) == Some(String(from))
    ensures var cut := DetachPath(v, from, false);
            ApplyPatch(v, patch, false) == if cut.None? then (5, v) else AddAt(cut.value.1, path, false, cut.value.0)
  {
  }

  /** MOVE takes the part out first, and puts it in at the path in what is left. */
  lemma MoveEffect(v: JSON, patch: JSON, source: seq<CStr>, name: CStr, toks: seq<CStr>, tok: CStr)
    requires DistinctKeys(v, false) && CleanPath(source) && Clean(name) && CleanPath(toks) && Clean(tok)
    requires IsPatch(patch, MOVE, PathOf(toks) + "/" + tok)
             && Field(patch, FROM_NAME, false) == Some(String(PathOf(source) + "/" + name))
    requires GetPart(Canon(v, false), source).Some? && HasPart(GetPart(Canon(v, false), source).value, name)
    ensures var c := Canon(v, false);
            var holder := GetPart(c, source).value;
            var left := SetPart(c, source, WithoutPart(holder, name));
            var parent, done := GetPart(left, toks), ApplyPatch(v, patch, false);
            parent.Some? && CanAdd(parent.value, tok) ==>
              && done.0 == 0 && DistinctKeys(done.1, false)
              && Canon(done.1, false) == SetPart(left, toks, PlusPart(parent.value, tok, Part(holder, name)))
  {
    var from := PathOf(source) + "/" + name;
    ApplyMove(v, patch, PathOf(toks) + "/" + tok, from);
    DetachEffect(v, source, name);
    var cut := DetachPath(v, from, false).value;
    var parent := GetPart(Canon(cut.1, false), toks);
    if parent.Some? && CanAdd(parent.value, tok) {
      AddEffect(cut.1, toks, tok, cut.0);
    }
  }
}
