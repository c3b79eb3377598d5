/**
 Reading pointers by section 4 of RFC 6901: which names a token with "~0" and "~1" in it means, which tokens are array
 indices, and what number they are.
 */
module PointerTokens {
  import opened Wrappers
  import opened CStrings
  import opened Json
  import opened Pointer

  // ---------- tokens as names ----------

  /** The bytes of a pointer up to the next slash. */
  function FirstToken(p: CStr): CStr {
    if p == [] || p[0] == '/' then [] else [p[0]] + FirstToken(p[1..])
  }

  /** The name a token stands for: "~1" is a slash, "~0" a tilde, and a tilde means nothing else. */
  function Unescape(tok: CStr): Option<CStr> {
    if tok == [] then Some([])
    else if tok[0] != '~' then
      var rest := Unescape(tok[1..]);
      if rest.None? then None else Some([tok[0]] + rest.value)
    else if |tok| < 2 || (tok[1] != '0' && tok[1] != '1') then None
    else
      var rest := Unescape(tok[2..]);
      if rest.None? then None else Some([if tok[1] == '0' then '~' else '/'] + rest.value)
  }

  lemma FoldCons(c: cchar, s: CStr, cs: bool)
    ensures Fold([c] + s, cs) == [FoldChar(c, cs)] + Fold(s, cs)
  {
    assert ([c] + s)[1..] == s;
  }

  lemma SameFolds(a: cchar, s: CStr, b: cchar, t: CStr, cs: bool)
    ensures Fold([a] + s, cs) == Fold([b] + t, cs) <==> FoldChar(a, cs) == FoldChar(b, cs) && Fold(s, cs) == Fold(t, cs)
  {
    FoldCons(a, s, cs);
    FoldCons(b, t, cs);
    var x, y := [FoldChar(a, cs)] + Fold(s, cs), [FoldChar(b, cs)] + Fold(t, cs);
    assert x[0] == FoldChar(a, cs) && x[1..] == Fold(s, cs) && y[0] == FoldChar(b, cs) && y[1..] == Fold(t, cs);
  }

  /** What a token that starts with this name's first byte leaves to match. */
  ghost predicate Matches(name: CStr, tok: CStr, cs: bool) {
    Unescape(tok).Some? && Fold(name, cs) == Fold(Unescape(tok).value, cs)
  }

  lemma MatchesStep(name: CStr, tok: CStr, cs: bool)
    requires name != [] && tok != []
    ensures tok[0] != '~' ==>
              (Matches(name, tok, cs) <==>
               FoldChar(name[0], cs) == FoldChar(tok[0], cs) && Matches(name[1..], tok[1..], cs))
    ensures tok[0] == '~' ==>
              (Matches(name, tok, cs) <==>
               && |tok| > 1 && ((tok[1] == '0' && name[0] == '~') || (tok[1] == '1' && name[0] == '/'))
               && Matches(name[1..], tok[2..], cs))
  {
    assert name == [name[0]] + name[1..];
    var n := if tok[0] == '~' then 2 else 1;
    if |tok| >= n && Unescape(tok[n..]).Some? {
      var first := if tok[0] != '~' then tok[0] else if tok[1] == '0' then '~' else '/';
      SameFolds(name[0], name[1..], first, Unescape(tok[n..]).value, cs);
    }
  }

  lemma TokenSteps(p: CStr)
    requires p != [] && p[0] != '/'
    ensures FirstToken(p) != [] && FirstToken(p)[0] == p[0] && FirstToken(p)[1..] == FirstToken(p[1..])
    ensures |FirstToken(p)| > 1 <==> |p| > 1 && p[1] != '/'
    ensures |FirstToken(p)| > 1 ==> FirstToken(p)[1] == p[1] && FirstToken(p)[2..] == FirstToken(p[2..])
  {
    if |p| > 1 && p[1] != '/' {
      assert FirstToken(p[1..])[1..] == FirstToken(p[2..]) by { assert p[1..][1..] == p[2..]; }
    }
  }

  /** compare_pointers says yes for exactly the names that are, folded, what the first token stands for. */
  lemma {:induction false} TokenMatchesIff(name: CStr, p: CStr, cs: bool)
    ensures ComparePointer(name, p, cs) <==>
            Unescape(FirstToken(p)).Some? && Fold(name, cs) == Fold(Unescape(FirstToken(p)).value, cs)
    decreases |name|
  {
    if name != [] && p != [] && p[0] != '/' {
      TokenSteps(p);
      MatchesStep(name, FirstToken(p), cs);
      if p[0] == '~' && |p| > 1 && p[1] != '/' {
        TokenMatchesIff(name[1..], p[2..], cs);
      } else if p[0] != '~' {
        TokenMatchesIff(name[1..], p[1..], cs);
      }
    } else if p != [] && p[0] != '/' {
      UnescapeSome(FirstToken(p));
    }
  }

  lemma UnescapeSome(tok: CStr)
    requires tok != []
    ensures Unescape(tok).Some? ==> Unescape(tok).value != []
  {
  }

  // ---------- whole pointers ----------

  /** A name as a standard writer escapes it. */
  function EscapeName(name: CStr): CStr {
    if name == [] then [] else EscapeByte(name[0]) + EscapeName(name[1..])
  }

  function EscapeByte(c: cchar): (s: CStr)
    ensures |s| == 1 || |s| == 2
  {
    if c == '~' then ['~', '0'] else if c == '/' then ['~', '1'] else [c]
  }

  lemma EscapeUndone(name: CStr, rest: CStr)
    requires TokenEnd(rest)
    ensures FirstToken(EscapeName(name) + rest) == EscapeName(name) && SkipToken(EscapeName(name) + rest) == rest
    ensures Unescape(EscapeName(name)) == Some(name)
  {
    NoSlash(name);
    TokenSplits(EscapeName(name), rest);
    Unescaped(name);
  }

  lemma {:induction false} TokenSplits(tok: CStr, rest: CStr)
    requires TokenEnd(rest) && forall i :: 0 <= i < |tok| ==> tok[i] != '/'
    ensures FirstToken(tok + rest) == tok && SkipToken(tok + rest) == rest
    decreases |tok|
  {
    if tok == [] {
      assert tok + rest == rest;
    } else {
      assert (tok + rest)[0] == tok[0] && (tok + rest)[1..] == tok[1..] + rest;
      TokenSplits(tok[1..], rest);
    }
  }

  lemma {:induction false} Unescaped(name: CStr)
    ensures Unescape(EscapeName(name)) == Some(name)
  {
    if name != [] {
      Unescaped(name[1..]);
      UnescapeFirst(name[0], EscapeName(name[1..]));
      assert [name[0]] + name[1..] == name;
    }
  }

  lemma UnescapeFirst(c: cchar, tok: CStr)
    requires Unescape(tok).Some?
    ensures Unescape(EscapeByte(c) + tok) == Some([c] + Unescape(tok).value)
  {
    var one := EscapeByte(c);
    assert (one + tok)[|one|..] == tok;
  }

  function PointerTo(names: seq<CStr>): CStr {
    if names == [] then [] else "/" + EscapeName(names[0]) + PointerTo(names[1..])
  }

  /** Down the tree by names: members by their name, elements by the index their token spells. */
  function GetByNames(v: JSON, names: seq<CStr>, cs: bool): Option<JSON>
    decreases |names|
  {
    if names == [] then Some(v)
    else
      var i := NameStep(v, names[0], cs);
      if i.None? then None else GetByNames(ChildOf(v, i.value), names[1..], cs)
  }

  function NameStep(v: JSON, name: CStr, cs: bool): (r: Option<nat>)
    ensures r.Some? ==> HasChild(v, r.value)
  {
    match v
    case Array(items) =>
      var i := DecodeIndex(EscapeName(name));
      if i.Some? && i.value < |items| then i else None
    case Object(ms) => if FindKey(ms, name, cs) < |ms| then Some(FindKey(ms, name, cs)) else None
    case _ => None
  }

  lemma {:induction false} FindByToken(ms: seq<Member>, name: CStr, rest: CStr, cs: bool)
    requires TokenEnd(rest)
    ensures FindPointer(ms, EscapeName(name) + rest, cs) == FindKey(ms, name, cs)
  {
    if ms != [] {
      TokenMatchesIff(ms[0].key, EscapeName(name) + rest, cs);
      EscapeUndone(name, rest);
      FindByToken(ms[1..], name, rest, cs);
    }
  }

  lemma StepByName(v: JSON, name: CStr, rest: CStr, cs: bool)
    requires TokenEnd(rest)
    ensures Step(v, EscapeName(name) + rest, cs) == NameStep(v, name, cs)
  {
    match v
    case Array(items) =>
      NoSlash(name);
      IndexOfToken(EscapeName(name), rest);
    case Object(ms) => FindByToken(ms, name, rest, cs);
    case _ =>
  }

  /** The walk along a pointer that a standard writer wrote reaches what the names lead to, whatever is in the names. */
  lemma {:induction false} FollowsStandardPointer(v: JSON, names: seq<CStr>, cs: bool)
    ensures GetItem(v, PointerTo(names), cs) == GetByNames(v, names, cs)
    decreases |names|
  {
    if names != [] {
      var tok, rest := EscapeName(names[0]), PointerTo(names[1..]);
      var p := PointerTo(names);
      assert p[0] == '/' && p[1..] == tok + rest;
      assert TokenEnd(rest);
      EscapeUndone(names[0], rest);
      StepByName(v, names[0], rest, cs);
      var i := NameStep(v, names[0], cs);
      if i.Some? {
        FollowsStandardPointer(ChildOf(v, i.value), names[1..], cs);
      }
    }
  }

  lemma {:induction false} NoSlash(name: CStr)
    ensures forall i :: 0 <= i < |EscapeName(name)| ==> EscapeName(name)[i] != '/'
  {
    if name != [] {
      NoSlash(name[1..]);
    }
  }

  // ---------- tokens as indices ----------

  /**
   Which tokens decode_array_index_from_pointer refuses: a zero with more behind it, a first character above '9', and
   any character below '0'. Letters behind a digit pass.
   */
  lemma IndexRefusedIff(tok: CStr)
    requires forall i :: 0 <= i < |tok| ==> tok[i] != '/'
    ensures DecodeIndex(tok).None? <==>
            (|tok| > 1 && tok[0] == '0') || (tok != [] && tok[0] > '9') || exists i :: 0 <= i < |tok| && tok[i] < '0'
  {
    var e := IndexEnd(tok, 0);
    IndexEndStops(tok, 0);
    if tok != [] && tok[0] <= '9' && (forall i :: 0 <= i < |tok| ==> tok[i] >= '0') {
      assert e == |tok|;
    }
    if e < |tok| && tok[0] <= '9' {
      assert tok[e] < '0';
    }
  }

  lemma {:induction false} IndexEndStops(p: CStr, i: nat)
    requires i <= |p|
    ensures IndexEnd(p, i) < |p| ==> p[0] > '9' || p[IndexEnd(p, i)] < '0'
    decreases |p| - i
  {
    if i < |p| && p[i] >= '0' && p[0] <= '9' {
      IndexEndStops(p, i + 1);
    }
  }

  /** Digits without a leading zero are read as their number, modulo the 2^32 values of a size_t. */
  lemma IndexOfDigits(tok: CStr)
    requires tok != [] && (forall i :: 0 <= i < |tok| ==> '0' <= tok[i] <= '9') && (tok[0] == '0' ==> |tok| == 1)
    ensures DigitsValue(tok) >= 0 && DecodeIndex(tok) == Some(DigitsValue(tok) % 0x1_0000_0000)
  {
    IndexEndOfDigits(tok, 0);
    assert tok[..|tok|] == tok;
    DigitsModulo(tok);
    DigitsAreDecimal(tok);
  }

  lemma {:induction false} DigitsModulo(s: CStr)
    requires forall i :: 0 <= i < |s| ==> '0' <= s[i] <= '9'
    ensures IndexValue(s) == DigitsValue(s) % 0x1_0000_0000
    decreases |s|
  {
    if s != [] {
      var front, digit := s[..|s| - 1], s[|s| - 1] as int - '0' as int;
      DigitsModulo(front);
      var x, m := DigitsValue(front), 0x1_0000_0000;
      assert x == x / m * m + x % m;
      assert 10 * x + digit == 10 * (x / m) * m + (10 * (x % m) + digit);
      ModuloAdds(10 * (x / m), 10 * (x % m) + digit);
    }
  }

  lemma ModuloAdds(q: int, r: int)
    ensures (q * 0x1_0000_0000 + r) % 0x1_0000_0000 == r % 0x1_0000_0000
  {
  }

  // ---------- decoding in place ----------

  /** Behind an escape the reading position is ahead: ordinary bytes stay where they are, and the end moves forward. */
  lemma {:induction false} DecodeBehind(buf: seq<char>, d: nat, i: nat)
    requires Terminated(buf) && d <= i < |buf| && forall k :: i <= k < |buf| ==> buf[k] != '~'
    ensures DecodeFrom(buf, d, i) == buf[d + (|buf| - 1 - i) := '\0']
    decreases |buf| - i
  {
    assert Ends(buf, i) <==> i == |buf| - 1;
    if buf[i] != '\0' {
      DecodeBehind(buf, d + 1, i + 1);
    }
  }

  lemma {:induction false} DecodeUpTo(buf: seq<char>, i: nat, j: nat)
    requires Terminated(buf) && i <= j < |buf| && forall k :: i <= k < j ==> buf[k] != '~'
    ensures DecodeFrom(buf, i, i) == DecodeFrom(buf, j, j)
    decreases j - i
  {
    assert Ends(buf, i) <==> i == |buf| - 1;
    if i < j {
      DecodeUpTo(buf, i + 1, j);
    }
  }

  /**
   What decoding a token with one escape in it leaves: the second byte of the escape stays, as it is or as a slash, and
   the last byte is cut off.
   */
  lemma DecodeOneEscape(a: CStr, digit: cchar, b: CStr)
    requires Clean(a) && Clean(b) && (digit == '0' || digit == '1')
    ensures var behind: CStr := [if digit == '0' then '0' else '/'] + b;
            DecodeToken(a + ['~', digit] + b) == a + (['~'] + behind[..|b|])
  {
    var mark: cchar := if digit == '0' then '0' else '/';
    var tok, next := a + ['~', digit] + b, a + ['~', mark] + b;
    BufferEnds(next);
    DecodeFirst(a, digit, b, mark);
    forall k | |a| + 2 <= k < |next| + 1 ensures (next + ['\0'])[k] != '~' {
      assert k < |next| ==> next[k] == b[k - |a| - 2];
    }
    DecodeBehind(next + ['\0'], |a| + 1, |a| + 2);
    CutAt(next, |a| + 1 + |b|);
    assert next == a + (['~'] + ([mark] + b));
    assert next[..|a| + 1 + |b|] == a + (['~'] + ([mark] + b)[..|b|]);
  }

  lemma DecodeFirst(a: CStr, digit: cchar, b: CStr, mark: cchar)
    requires Clean(a) && ((digit == '0' && mark == '0') || (digit == '1' && mark == '/'))
    ensures DecodeFrom(a + ['~', digit] + b + ['\0'], 0, 0) ==
            DecodeFrom(a + ['~', mark] + b + ['\0'], |a| + 1, |a| + 2)
  {
    var n, tok := |a|, a + ['~', digit] + b;
    var buf := tok + ['\0'];
    BufferEnds(tok);
    assert forall k :: 0 <= k < n ==> buf[k] == a[k];
    DecodeUpTo(buf, 0, n);
    assert buf[n] == '~' && buf[n + 1] == digit;
    var next := a + ['~', mark] + b + ['\0'];
    if digit == '0' {
      assert buf[n := '~'] == next;
    } else {
      assert buf[n + 1 := '/'] == next;
    }
  }

  lemma BufferEnds(s: CStr)
    ensures Terminated(s + ['\0'])
  {
    var buf := s + ['\0'];
    forall i | 0 <= i < |buf| ensures Ends(buf, i) <==> i == |buf| - 1 {
      if i < |s| { assert buf[i] == s[i] && s[i] != '\0'; }
    }
  }

  lemma CutAt(s: CStr, n: nat)
    requires n < |s|
    ensures CStringOf((s + ['\0'])[n := '\0']) == s[..n]
  {
    var buf := (s + ['\0'])[n := '\0'];
    assert buf == s[..n] + ['\0'] + buf[n + 1..];
    CStringOfTerminated(s[..n], buf[n + 1..]);
    CStringOfPlain(s[..n]);
  }

  /**
   So with one escape a token decodes right exactly if it is "~0" with nothing but zeros behind it; with "~1" never.
   */
  lemma DecodesRightIff(a: CStr, digit: cchar, b: CStr)
    requires Clean(a) && Clean(b) && (digit == '0' || digit == '1')
    ensures Some(DecodeToken(a + ['~', digit] + b)) == Unescape(a + ['~', digit] + b) <==>
            digit == '0' && forall k :: 0 <= k < |b| ==> b[k] == '0'
  {
    var mark: cchar, right: cchar := if digit == '0' then '0' else '/', if digit == '0' then '~' else '/';
    var tok := a + ['~', digit] + b;
    DecodeOneEscape(a, digit, b);
    UnescapeOne(a, digit, b);
    RightBy(a, ([mark] + b)[..|b|], right, b, DecodeToken(tok), Unescape(tok));
    ZerosShift(b);
  }

  lemma RightBy(a: CStr, shifted: CStr, right: cchar, b: CStr, decoded: CStr, wanted: Option<CStr>)
    requires decoded == a + (['~'] + shifted) && wanted == Some(a + [right] + b)
    ensures Some(decoded) == wanted <==> right == '~' && shifted == b
  {
    SameBehind(a, ['~'] + shifted, [right] + b);
    SameBehindByte('~', shifted, right, b);
    assert a + [right] + b == a + ([right] + b);
  }

  lemma SameBehind(a: CStr, x: CStr, y: CStr)
    ensures a + x == a + y <==> x == y
  {
    assert (a + x)[|a|..] == x && (a + y)[|a|..] == y;
  }

  lemma SameBehindByte(c: cchar, x: CStr, d: cchar, y: CStr)
    ensures [c] + x == [d] + y <==> c == d && x == y
  {
    assert ([c] + x)[0] == c && ([c] + x)[1..] == x && ([d] + y)[0] == d && ([d] + y)[1..] == y;
  }

  lemma {:induction false} ZerosShift(b: CStr)
    ensures (['0'] + b)[..|b|] == b <==> forall k :: 0 <= k < |b| ==> b[k] == '0'
  {
    if (['0'] + b)[..|b|] == b {
      var k := 0;
      while k < |b|
        invariant 0 <= k <= |b| && forall j :: 0 <= j < k ==> b[j] == '0'
      {
        assert b[k] == (['0'] + b)[..|b|][k] == (['0'] + b)[k];
        k := k + 1;
      }
    }
  }

  lemma UnescapeOne(a: CStr, digit: cchar, b: CStr)
    requires Clean(a) && Clean(b) && (digit == '0' || digit == '1')
    ensures Unescape(a + ['~', digit] + b) == Some(a + [if digit == '0' then '~' else '/'] + b)
  {
    var one: CStr := [if digit == '0' then '~' else '/'];
    UnescapeBehind(b, []);
    assert b + [] == b;
    assert (['~', digit] + b)[2..] == b;
    UnescapeBehind(a, ['~', digit] + b);
    assert a + (['~', digit] + b) == a + ['~', digit] + b;
    assert a + (one + b) == a + one + b;
  }

  lemma {:induction false} UnescapeBehind(a: CStr, tok: CStr)
    requires Clean(a) && Unescape(tok).Some?
    ensures Unescape(a + tok).Some? && Unescape(a + tok).value == a + Unescape(tok).value
    decreases |a|
  {
    if a == [] {
      assert a + tok == tok;
    } else {
      assert (a + tok)[0] == a[0] && (a + tok)[1..] == a[1..] + tok;
      UnescapeBehind(a[1..], tok);
      assert [a[0]] + (a[1..] + Unescape(tok).value) == a + Unescape(tok).value;
    }
  }
}
