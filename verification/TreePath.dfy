/**
 Addressing inside meanings: reading and replacing the part of a `Tree` that a path selects,
 and how that mirrors reading and replacing items.
 */
module TreePath {
  import opened Wrappers
  import opened CStrings
  import opened Json
  import opened Pointer

  predicate HasPart(t: Tree, tok: CStr) {
    match t
    case Scalar(_) => false
    case Arr(elems) => DecodeIndex(tok).Some? && DecodeIndex(tok).value < |elems|
    case Obj(fields) => Fold(tok, false) in fields
  }

  function Part(t: Tree, tok: CStr): (p: Tree)
    requires HasPart(t, tok)
    ensures p < t
  {
    if t.Arr? then t.elems[DecodeIndex(tok).value] else t.fields[Fold(tok, false)]
  }

  function WithPart(t: Tree, tok: CStr, x: Tree): Tree
    requires HasPart(t, tok)
  {
    if t.Arr? then Arr(t.elems[DecodeIndex(tok).value := x]) else Obj(t.fields[Fold(tok, false) := x])
  }

  function GetPart(t: Tree, toks: seq<CStr>): Option<Tree>
    decreases |toks|
  {
    if toks == [] then Some(t)
    else if !HasPart(t, toks[0]) then None
    else GetPart(Part(t, toks[0]), toks[1..])
  }

  function SetPart(t: Tree, toks: seq<CStr>, x: Tree): Tree
    decreases |toks|
  {
    if toks == [] then x
    else if !HasPart(t, toks[0]) then t
    else WithPart(t, toks[0], SetPart(Part(t, toks[0]), toks[1..], x))
  }

  lemma {:induction false} GetSet(t: Tree, toks: seq<CStr>, x: Tree)
    requires GetPart(t, toks).Some?
    ensures GetPart(SetPart(t, toks, x), toks) == Some(x)
    decreases |toks|
  {
    if toks != [] {
      GetSet(Part(t, toks[0]), toks[1..], x);
    }
  }

  lemma {:induction false} SetSet(t: Tree, toks: seq<CStr>, x: Tree, y: Tree)
    requires GetPart(t, toks).Some?
    ensures SetPart(SetPart(t, toks, x), toks, y) == SetPart(t, toks, y)
    decreases |toks|
  {
    if toks != [] {
      SetSet(Part(t, toks[0]), toks[1..], x, y);
    }
  }

  lemma {:induction false} SetSame(t: Tree, toks: seq<CStr>)
    requires GetPart(t, toks).Some?
    ensures SetPart(t, toks, GetPart(t, toks).value) == t
    decreases |toks|
  {
    if toks != [] {
      SetSame(Part(t, toks[0]), toks[1..]);
    }
  }

  /** Going one step further down. */
  lemma {:induction false} Deeper(t: Tree, toks: seq<CStr>, tok: CStr, x: Tree)
    requires GetPart(t, toks).Some? && HasPart(GetPart(t, toks).value, tok)
    ensures GetPart(t, toks + [tok]) == Some(Part(GetPart(t, toks).value, tok))
    ensures SetPart(t, toks + [tok], x) == SetPart(t, toks, WithPart(GetPart(t, toks).value, tok, x))
    decreases |toks|
  {
    if toks == [] {
      assert toks + [tok] == [tok] && [tok][1..] == [];
    } else {
      assert (toks + [tok])[1..] == toks[1..] + [tok] && (toks + [tok])[0] == toks[0];
      Deeper(Part(t, toks[0]), toks[1..], tok, x);
    }
  }

  /** One step in an item is one step in its meaning. */
  lemma StepMeaning(v: JSON, tok: CStr)
    ensures StepToken(v, tok, false).Some? <==> HasPart(Canon(v, false), tok)
    ensures StepToken(v, tok, false).Some? ==>
              Part(Canon(v, false), tok) == Canon(ChildOf(v, StepToken(v, tok, false).value), false)
  {
    match v
    case Object(ms) => LookupIsMap(ms, tok, false);
    case _ =>
  }

  lemma {:induction false} UpdateFirst(ms: seq<Member>, i: nat, w: JSON)
    requires i < |ms| && FindKey(ms, ms[i].key, false) == i
    ensures CanonMembers(ms[i := Member(ms[i].key, w)], false) ==
            CanonMembers(ms, false)[Fold(ms[i].key, false) := Canon(w, false)]
  {
    var r := ms[i := Member(ms[i].key, w)];
    if i == 0 {
      assert r[1..] == ms[1..];
    } else {
      assert r[1..] == ms[1..][i - 1 := Member(ms[i].key, w)];
      assert ms[1..][i - 1] == ms[i];
      UpdateFirst(ms[1..], i - 1, w);
      assert r[0] == ms[0];
    }
  }

  lemma UpdateMeaning(v: JSON, tok: CStr, w: JSON)
    requires StepToken(v, tok, false).Some?
    ensures HasPart(Canon(v, false), tok)
    ensures Canon(WithChild(v, StepToken(v, tok, false).value, w), false) ==
            WithPart(Canon(v, false), tok, Canon(w, false))
  {
    StepMeaning(v, tok);
    var i := StepToken(v, tok, false).value;
    match v
    case Array(items) =>
      assert Canon(Array(items[i := w]), false).elems == Canon(v, false).elems[i := Canon(w, false)];
    case Object(ms) =>
      assert FindKey(ms, ms[i].key, false) == i;
      UpdateFirst(ms, i, w);
    case _ =>
  }

  lemma UpdateKeepsDistinct(v: JSON, i: nat, w: JSON)
    requires HasChild(v, i) && DistinctKeys(v, false) && DistinctKeys(w, false)
    ensures DistinctKeys(WithChild(v, i, w), false)
  {
  }

  /** Following a path in an item, and replacing what it selects, mirrors the same in its meaning. */
  lemma {:induction false} PathMeaning(v: JSON, toks: seq<CStr>, w: JSON)
    requires DistinctKeys(v, false)
    ensures GetByTokens(v, toks, false).Some? <==> GetPart(Canon(v, false), toks).Some?
    ensures var item := GetByTokens(v, toks, false);
            item.Some? ==>
              GetPart(Canon(v, false), toks) == Some(Canon(item.value, false)) && DistinctKeys(item.value, false)
    ensures GetByTokens(v, toks, false).Some? && DistinctKeys(w, false) ==>
              && Canon(SetByTokens(v, toks, false, w), false) == SetPart(Canon(v, false), toks, Canon(w, false))
              && DistinctKeys(SetByTokens(v, toks, false, w), false)
    decreases |toks|
  {
    if toks != [] {
      StepMeaning(v, toks[0]);
      var i := StepToken(v, toks[0], false);
      if i.Some? {
        var child := ChildOf(v, i.value);
        PathMeaning(child, toks[1..], w);
        if GetByTokens(v, toks, false).Some? && DistinctKeys(w, false) {
          var newChild := SetByTokens(child, toks[1..], false, w);
          UpdateMeaning(v, toks[0], newChild);
          UpdateKeepsDistinct(v, i.value, newChild);
        }
      }
    }
  }
}
