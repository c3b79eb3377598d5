/**
 Minifying any text: a text is blanks, comments, string literals and other characters, and exactly the last two are
 left.
 */
module Comments {
  import opened Wrappers
  import opened CStrings
  import opened Parsing
  import opened Tokens
  import opened Minify

  /** A character of a string literal, alone or behind a backslash. */
  datatype Unit = Bare(c: cchar) | Escaped(c: cchar)

  /** Stub is a slash, a star and a slash: the code takes it for a whole comment, its star both opening and closing. */
  datatype Part =
    | Blank(blank: cchar)
    | Line(body: CStr)
    | Block(body: CStr)
    | Stub
    | Literal(units: seq<Unit>)
    | Other(c: cchar)

  const SLASHES: CStr := "//"
  const OPENING: CStr := "/*"
  const CLOSING: CStr := "*/"
  const STUB: CStr := "/*/"
  const QUOTE: CStr := "\""

  function UnitsText(us: seq<Unit>): CStr {
    if us == [] then [] else (if us[0].Bare? then [us[0].c] else ['\\', us[0].c]) + UnitsText(us[1..])
  }

  function PartText(p: Part): CStr {
    match p
    case Blank(b) => [b]
    case Line(body) => SLASHES + body
    case Block(body) => OPENING + body + CLOSING
    case Stub => STUB
    case Literal(us) => QUOTE + UnitsText(us) + QUOTE
    case Other(c) => [c]
  }

  predicate UnitsOk(us: seq<Unit>) {
    forall i :: 0 <= i < |us| ==> us[i].Bare? ==> us[i].c != '\"' && us[i].c != '\\'
  }

  /** "*" and "/" in a row nowhere from position i on. */
  predicate Unclosed(s: CStr, i: nat) {
    forall k :: i <= k < |s| - 1 ==> !(s[k] == '*' && s[k + 1] == '/')
  }

  /**
   What a part may look like: a line comment ends in front of the line end, a block comment with its first star and
   slash in a row, which may share a star with its opening.
   */
  predicate PartOk(p: Part) {
    match p
    case Blank(b) => b == ' ' || b == '\t' || b == '\r' || b == '\n'
    case Line(body) => forall i :: 0 <= i < |body| ==> body[i] != '\n'
    case Block(body) => Unclosed(OPENING + body, 0)
    case Stub => true
    case Literal(us) => UnitsOk(us)
    case Other(c) => c != ' ' && c != '\t' && c != '\r' && c != '\n' && c != '\"'
  }

  /** What may stand behind it: a line comment reaches to the end of the line, and a lone slash opens no comment. */
  predicate MayFollow(p: Part, next: char) {
    (p.Line? ==> next == '\n' || next == '\0') && (p == Other('/') ==> next != '/' && next != '*')
  }

  function Text(ps: seq<Part>): CStr {
    if ps == [] then [] else PartText(ps[0]) + Text(ps[1..])
  }

  predicate PartsOk(ps: seq<Part>, tail: CStr) {
    ps == [] || (PartOk(ps[0]) && MayFollow(ps[0], CharAt(Text(ps[1..]) + tail, 0)) && PartsOk(ps[1..], tail))
  }

  /** What should be left. */
  function Kept(ps: seq<Part>): CStr {
    if ps == [] then [] else PartKept(ps[0]) + Kept(ps[1..])
  }

  function PartKept(p: Part): CStr {
    if p.Literal? || p.Other? then PartText(p) else []
  }

  /** A block comment or a string literal that does not end. */
  predicate Unended(tail: CStr) {
    || (|tail| >= 2 && tail[..2] == OPENING && Unclosed(tail, 0))
    || (tail != [] && tail[0] == '\"' && UnendedLiteral(tail[1..]))
  }

  /** No quote but behind a backslash; the text may end behind a backslash. */
  predicate UnendedLiteral(s: CStr) {
    if s == [] then true
    else if s[0] == '\\' then |s| == 1 || UnendedLiteral(s[2..])
    else s[0] != '\"' && UnendedLiteral(s[1..])
  }

  // ---------- one part ----------

  lemma {:induction false} LineReaches(c: seq<char>, i: nat, body: CStr, end: nat)
    requires Terminated(c) && LooksAt(c, i, body) && i + |body| == end < |c| && (c[end] == '\n' || c[end] == '\0')
    requires forall k :: 0 <= k < |body| ==> body[k] != '\n'
    ensures LineEnd(c, i) == end
    decreases |body|
  {
    if body != [] {
      LooksByte(c, i, body, 0);
      assert body == [body[0]] + body[1..];
      LooksSplit(c, i, [body[0]], body[1..]);
      LineReaches(c, i + 1, body[1..], end);
    }
  }

  lemma {:induction false} CommentCloses(c: seq<char>, i: nat, s: CStr, end: nat)
    requires Terminated(c) && LooksAt(c, i, s + CLOSING) && i + |s| == end && end + 2 < |c| && Unclosed(s, 0)
    ensures CommentEnd(c, i) == Some(end)
    decreases |s|
  {
    var all := s + CLOSING;
    LooksByte(c, i, all, 0);
    LooksByte(c, i, all, 1);
    AtEnd(c, i);
    if s == [] {
      assert all == CLOSING;
    } else {
      assert all[0] == s[0] && all[1] == if |s| > 1 then s[1] else '*';
      assert all == [s[0]] + (s[1..] + CLOSING);
      LooksSplit(c, i, [s[0]], s[1..] + CLOSING);
      assert Unclosed(s[1..], 0) by {
        forall k | 0 <= k < |s[1..]| - 1 ensures !(s[1..][k] == '*' && s[1..][k + 1] == '/') {
          assert s[1..][k] == s[k + 1] && s[1..][k + 1] == s[k + 2];
        }
      }
      CommentCloses(c, i + 1, s[1..], end);
    }
  }

  lemma {:induction false} UnitsScan(c: seq<char>, i: nat, us: seq<Unit>, end: nat)
    requires UnitsOk(us) && LooksAt(c, i, UnitsText(us)) && i + |UnitsText(us)| == end < |c| && c[end] == '\"'
    ensures ScanEnd(c, i) == Some(end)
    decreases |us|
  {
    if us != [] {
      var first, rest := if us[0].Bare? then [us[0].c] else ['\\', us[0].c], UnitsText(us[1..]);
      assert UnitsText(us) == first + rest;
      LooksByte(c, i, UnitsText(us), 0);
      LooksSplit(c, i, first, rest);
      UnitsScan(c, i + |first|, us[1..], end);
    }
  }

  /** A part leaves what it should, and reading goes on behind it. */
  lemma PartLeaves(c: seq<char>, i: nat, p: Part, next: nat)
    requires Terminated(c) && PartOk(p) && LooksAt(c, i, PartText(p)) && next == i + |PartText(p)| < |c|
    requires MayFollow(p, c[next])
    ensures Minified(c, i) == Put(PartKept(p), Minified(c, next))
  {
    AtEnd(c, i);
    PutNothing(Minified(c, next));
    LooksByte(c, i, PartText(p), 0);
    match p
    case Blank(b) =>
    case Line(body) => LineLeaves(c, i, body, SLASHES + body, next);
    case Block(body) => BlockLeaves(c, i, OPENING + body, next);
    case Stub =>
      LooksByte(c, i, STUB, 1);
      LooksByte(c, i, STUB, 2);
      AtEnd(c, i + 1);
      assert CommentEnd(c, i + 1) == Some(i + 1);
    case Literal(us) => LiteralLeaves(c, i, us, PartText(p), next);
    case Other(ch) =>
  }

  lemma LineLeaves(c: seq<char>, i: nat, body: CStr, text: CStr, next: nat)
    requires Terminated(c) && text == SLASHES + body && forall k :: 0 <= k < |body| ==> body[k] != '\n'
    requires LooksAt(c, i, text) && next == i + |text| < |c| && (c[next] == '\n' || c[next] == '\0')
    ensures Minified(c, i) == Minified(c, next)
  {
    LooksByte(c, i, text, 0);
    LooksByte(c, i, text, 1);
    LineReaches(c, i, text, next);
  }

  lemma BlockLeaves(c: seq<char>, i: nat, open: CStr, next: nat)
    requires Terminated(c) && |open| >= 2 && open[0] == '/' && open[1] == '*' && Unclosed(open, 0)
    requires LooksAt(c, i, open + CLOSING) && next == i + |open| + 2 < |c|
    ensures Minified(c, i) == Minified(c, next)
  {
    LooksByte(c, i, open + CLOSING, 0);
    LooksByte(c, i, open + CLOSING, 1);
    CommentCloses(c, i, open, next - 2);
  }

  lemma LiteralLeaves(c: seq<char>, i: nat, us: seq<Unit>, text: CStr, next: nat)
    requires Terminated(c) && UnitsOk(us) && text == QUOTE + UnitsText(us) + QUOTE
    requires LooksAt(c, i, text) && next == i + |text| < |c|
    ensures Minified(c, i) == Put(text, Minified(c, next))
  {
    QuotesScan(c, i, us, text, UnitsText(us), next);
    LooksSlice(c, i, text, next);
    QuotedLeaves(c, i, next);
  }

  lemma QuotesScan(c: seq<char>, i: nat, us: seq<Unit>, text: CStr, inner: CStr, next: nat)
    requires UnitsOk(us) && inner == UnitsText(us) && text == QUOTE + inner + QUOTE
    requires LooksAt(c, i, text) && next == i + |text| < |c|
    ensures c[i] == '\"' && ScanEnd(c, i + 1) == Some(next - 1)
  {
    LooksByte(c, i, text, 0);
    LooksByte(c, i, text, |text| - 1);
    assert text == QUOTE + (inner + QUOTE);
    LooksSplit(c, i, QUOTE, inner + QUOTE);
    LooksSplit(c, i + 1, inner, QUOTE);
    UnitsScan(c, i + 1, us, next - 1);
  }

  lemma LooksSlice(c: seq<char>, i: nat, s: CStr, next: nat)
    requires LooksAt(c, i, s) && next == i + |s| <= |c|
    ensures c[i..next] == s
  {
    forall k | 0 <= k < |s| ensures c[i..next][k] == s[k] { LooksByte(c, i, s, k); }
  }

  lemma QuotedLeaves(c: seq<char>, i: nat, next: nat)
    requires Terminated(c) && i + 1 < next < |c| && c[i] == '\"' && ScanEnd(c, i + 1) == Some(next - 1)
    ensures Minified(c, i) == Put(c[i..next], Minified(c, next))
  {
    AtEnd(c, i);
  }

  // ---------- whole texts ----------

  lemma {:induction false} NeverCloses(c: seq<char>, i: nat, s: CStr)
    requires Terminated(c) && LooksAt(c, i, s) && i + |s| == |c| - 1 && Unclosed(s, 0)
    ensures CommentEnd(c, i).None?
    decreases |s|
  {
    AtEnd(c, i);
    if s != [] {
      LooksByte(c, i, s, 0);
      if |s| > 1 {
        LooksByte(c, i, s, 1);
      } else {
        AtEnd(c, i + 1);
      }
      assert s == [s[0]] + s[1..];
      LooksSplit(c, i, [s[0]], s[1..]);
      assert Unclosed(s[1..], 0) by {
        forall k | 0 <= k < |s[1..]| - 1 ensures !(s[1..][k] == '*' && s[1..][k + 1] == '/') {
          assert s[1..][k] == s[k + 1] && s[1..][k + 1] == s[k + 2];
        }
      }
      NeverCloses(c, i + 1, s[1..]);
    }
  }

  lemma {:induction false} NeverQuotes(c: seq<char>, i: nat, s: CStr)
    requires Terminated(c) && LooksAt(c, i, s) && i + |s| == |c| - 1 && UnendedLiteral(s)
    ensures ScanEnd(c, i).None?
    decreases |s|
  {
    AtEnd(c, i);
    if s == [] {
      assert ScanEnd(c, i + 1).None?;
    } else {
      LooksByte(c, i, s, 0);
      var n := if s[0] == '\\' && |s| > 1 then 2 else 1;
      assert s == s[..n] + s[n..];
      LooksSplit(c, i, s[..n], s[n..]);
      if s[0] == '\\' && |s| == 1 {
        assert ScanEnd(c, i + 2).None?;
      } else {
        NeverQuotes(c, i + n, s[n..]);
      }
    }
  }

  lemma TailFails(c: seq<char>, i: nat, tail: CStr)
    requires Terminated(c) && LooksAt(c, i, tail) && i + |tail| == |c| - 1 && Unended(tail)
    ensures Minified(c, i).None?
  {
    AtEnd(c, i);
    LooksByte(c, i, tail, 0);
    if tail[0] == '\"' {
      assert tail == QUOTE + tail[1..];
      LooksSplit(c, i, QUOTE, tail[1..]);
      NeverQuotes(c, i + 1, tail[1..]);
    } else {
      assert tail[0] == OPENING[0] && tail[1] == OPENING[1];
      LooksByte(c, i, tail, 1);
      NeverCloses(c, i, tail);
    }
  }

  /** The text kept, or none where the code runs over the terminator. */
  ghost predicate Leaves(r: Option<seq<char>>, kept: seq<char>, ends: bool) {
    if ends then r.Some? && r.value == kept else r.None?
  }

  lemma LeavesFirst(r: Option<seq<char>>, out: seq<char>, rest: Option<seq<char>>, kept: seq<char>, ends: bool)
    requires r == Put(out, rest) && Leaves(rest, kept, ends)
    ensures Leaves(r, out + kept, ends)
  {
  }

  lemma PartsSplit(c: seq<char>, i: nat, ps: seq<Part>, tail: CStr) returns (next: nat)
    requires Terminated(c) && PartsOk(ps, tail) && ps != []
    requires LooksAt(c, i, Text(ps) + tail) && i + |Text(ps) + tail| == |c| - 1
    ensures next == i + |PartText(ps[0])| < |c| && LooksAt(c, i, PartText(ps[0])) && MayFollow(ps[0], c[next])
    ensures LooksAt(c, next, Text(ps[1..]) + tail) && next + |Text(ps[1..]) + tail| == |c| - 1
  {
    var first, rest := PartText(ps[0]), Text(ps[1..]) + tail;
    next := i + |first|;
    assert Text(ps) + tail == first + rest;
    LooksSplit(c, i, first, rest);
    AtEnd(c, next);
    if rest != [] {
      LooksByte(c, next, rest, 0);
    }
  }

  lemma {:induction false} PartsLeave(c: seq<char>, i: nat, ps: seq<Part>, tail: CStr)
    requires Terminated(c) && PartsOk(ps, tail) && (tail == [] || Unended(tail))
    requires LooksAt(c, i, Text(ps) + tail) && i + |Text(ps) + tail| == |c| - 1
    ensures Leaves(Minified(c, i), Kept(ps), tail == [])
    decreases |ps|
  {
    if ps == [] {
      AtEnd(c, i);
      assert Text(ps) + tail == tail;
      if tail != [] {
        TailFails(c, i, tail);
      }
    } else {
      var next := PartsSplit(c, i, ps, tail);
      PartLeaves(c, i, ps[0], next);
      PartsLeave(c, next, ps[1..], tail);
      LeavesFirst(Minified(c, i), PartKept(ps[0]), Minified(c, next), Kept(ps[1..]), tail == []);
    }
  }

  /**
   Minifying a text made of parts leaves its literals and other characters, byte for byte, and nothing else; with an
   unended comment or literal behind them the code runs over the terminator.
   */
  lemma MinifiesParts(ps: seq<Part>, tail: CStr)
    requires PartsOk(ps, tail) && (tail == [] || Unended(tail))
    ensures Terminated(Text(ps) + tail + ['\0'])
    ensures Minified(Text(ps) + tail + ['\0'], 0) == if tail == [] then Some(Kept(ps)) else None
  {
    var text := Text(ps) + tail;
    var c := text + ['\0'];
    forall i | 0 <= i < |text| ensures SameByte(c, 0, text, i) { assert c[i] == text[i]; }
    forall i | 0 <= i < |c| ensures Ends(c, i) <==> i == |c| - 1 {
      if i < |text| { assert c[i] == text[i] && text[i] != '\0'; }
    }
    PartsLeave(c, 0, ps, tail);
  }

  // ---------- every text is made of parts ----------

  /** Where a line ends, and where a star and a slash follow each other first. */
  function LineLength(s: CStr): (n: nat)
    ensures n <= |s| && (n < |s| ==> s[n] == '\n') && forall k :: 0 <= k < n ==> s[k] != '\n'
  {
    if s == [] || s[0] == '\n' then 0 else 1 + LineLength(s[1..])
  }

  function FirstClosing(s: CStr, i: nat): (r: Option<nat>)
    requires i <= |s|
    ensures r.None? ==> Unclosed(s, i)
    ensures r.Some? ==> i <= r.value < |s| - 1 && s[r.value] == '*' && s[r.value + 1] == '/'
    ensures r.Some? ==> forall k :: i <= k < r.value ==> !(s[k] == '*' && s[k + 1] == '/')
    decreases |s| - i
  {
    if i + 1 >= |s| then None
    else if s[i] == '*' && s[i + 1] == '/' then Some(i)
    else FirstClosing(s, i + 1)
  }

  /** The characters up to a closing quote. */
  lemma {:induction false} SplitLiteral(s: CStr) returns (us: seq<Unit>, n: nat)
    ensures UnitsOk(us) && n == |UnitsText(us)| <= |s| && s[..n] == UnitsText(us)
    ensures (n < |s| && s[n] == '\"') || UnendedLiteral(s)
    decreases |s|
  {
    us, n := [], 0;
    if s != [] && s[0] != '\"' && !(s[0] == '\\' && |s| == 1) {
      var first := if s[0] == '\\' then Escaped(s[1]) else Bare(s[0]);
      var k := if s[0] == '\\' then 2 else 1;
      var more, m := SplitLiteral(s[k..]);
      us, n := [first] + more, k + m;
      assert us[1..] == more && s[..n] == s[..k] + s[k..][..m];
    }
  }

  /** The part a text starts with, unless it starts with something that does not end. */
  lemma FirstPart(text: CStr) returns (p: Part, rest: CStr)
    requires text != [] && !Unended(text)
    ensures PartOk(p) && text == PartText(p) + rest && MayFollow(p, CharAt(rest, 0)) && |rest| < |text|
  {
    p, rest := Other(text[0]), text[1..];
    if text[0] == ' ' || text[0] == '\t' || text[0] == '\r' || text[0] == '\n' {
      p := Blank(text[0]);
    } else if text[0] == '\"' {
      var us, n := SplitLiteral(text[1..]);
      p, rest := Literal(us), text[n + 2..];
      assert text == [text[0]] + text[1..][..n] + [text[n + 1]] + rest;
    } else if text[0] == '/' && |text| > 1 && text[1] == '/' {
      var n := LineLength(text[2..]);
      p, rest := Line(text[2..][..n]), text[2..][n..];
      assert text == text[..2] + text[2..];
    } else if text[0] == '/' && |text| > 1 && text[1] == '*' {
      assert text[..2] == OPENING;
      p, rest := FirstBlock(text);
    }
  }

  lemma FirstBlock(text: CStr) returns (p: Part, rest: CStr)
    requires |text| >= 2 && text[..2] == OPENING && !Unended(text)
    ensures PartOk(p) && text == PartText(p) + rest && MayFollow(p, CharAt(rest, 0)) && |rest| < |text|
  {
    var k := FirstClosing(text, 0).value;
    assert text[0] == '/' && text[1] == '*';
    rest := text[k + 2..];
    assert text == text[..k] + CLOSING + rest;
    if k == 1 {
      p := Stub;
      assert text[..3] == STUB && text == text[..3] + rest;
    } else {
      p := Block(text[2..k]);
      assert OPENING + text[2..k] == text[..k];
    }
  }

  /** So every text without NUL is parts and, at most, an unended rest: the law above is about every text. */
  lemma {:induction false} EveryTextIsParts(text: CStr) returns (ps: seq<Part>, tail: CStr)
    ensures text == Text(ps) + tail && PartsOk(ps, tail) && (tail == [] || Unended(tail))
    decreases |text|
  {
    ps, tail := [], text;
    if text != [] && !Unended(text) {
      var p, rest := FirstPart(text);
      var more: seq<Part>;
      more, tail := EveryTextIsParts(rest);
      PartsCons(p, more, tail);
      ps := [p] + more;
    }
  }

  lemma PartsCons(p: Part, more: seq<Part>, tail: CStr)
    requires PartOk(p) && MayFollow(p, CharAt(Text(more) + tail, 0)) && PartsOk(more, tail)
    ensures PartsOk([p] + more, tail) && Text([p] + more) + tail == PartText(p) + (Text(more) + tail)
  {
    assert ([p] + more)[1..] == more;
  }
}
