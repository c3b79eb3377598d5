/**
 Strings with escapes: what parse_string makes of them, against the definitions of UTF-16 escapes in section 7 of
 RFC 8259 and of UTF-8 in section 3 of RFC 3629.
 */
module Unicode {
  import opened Wrappers
  import opened CStrings
  import opened Json
  import opened Parsing
  import opened Tokens
  import Text

  // ---------- UTF-16 escapes ----------

  predicate Surrogate(cp: nat) { 0xD800 <= cp <= 0xDFFF }

  /** The code points a text can hold. */
  predicate Scalar(cp: nat) { cp <= 0x10FFFF && !Surrogate(cp) }

  /** A hexadecimal digit in either case. */
  predicate IsHexDigit(c: char, n: nat)
    requires n < 16
  {
    c == "0123456789abcdef"[n] || c == "0123456789ABCDEF"[n]
  }

  /** The six characters that write one 16-bit unit. */
  predicate WritesUnit(s: CStr, unit: nat) {
    && |s| == 6 && s[0] == '\\' && s[1] == 'u' && unit < 0x10000
    && IsHexDigit(s[2], unit / 0x1000) && IsHexDigit(s[3], unit / 0x100 % 0x10)
    && IsHexDigit(s[4], unit / 0x10 % 0x10) && IsHexDigit(s[5], unit % 0x10)
  }

  /** The escape that writes a code point: one unit, or from U+10000 on a high and a low surrogate. */
  predicate WritesCodePoint(s: CStr, cp: nat) {
    if cp < 0x10000 then WritesUnit(s, cp)
    else
      && |s| == 12 && cp <= 0x10FFFF
      && WritesUnit(s[..6], 0xD800 + (cp - 0x10000) / 0x400) && WritesUnit(s[6..], 0xDC00 + (cp - 0x10000) % 0x400)
  }

  // ---------- UTF-8 ----------

  predicate Continues(b: char) { 0x80 <= b as int <= 0xBF }

  /** Decoding the bytes of one character; None for anything that is not well-formed UTF-8. */
  function FromUtf8(s: seq<char>): Option<nat> {
    if |s| == 1 && s[0] as int <= 0x7F then Some(s[0] as int)
    else if |s| == 2 && 0xC0 <= s[0] as int <= 0xDF && Continues(s[1]) then
      AtLeast(0x80, (s[0] as int - 0xC0) * 64 + (s[1] as int - 0x80))
    else if |s| == 3 && 0xE0 <= s[0] as int <= 0xEF && Continues(s[1]) && Continues(s[2]) then
      AtLeast(0x800, ((s[0] as int - 0xE0) * 64 + (s[1] as int - 0x80)) * 64 + (s[2] as int - 0x80))
    else if |s| == 4 && 0xF0 <= s[0] as int <= 0xF7 && Continues(s[1]) && Continues(s[2]) && Continues(s[3]) then
      AtLeast(0x10000, (((s[0] as int - 0xF0) * 64 + (s[1] as int - 0x80)) * 64 + (s[2] as int - 0x80)) * 64
                       + (s[3] as int - 0x80))
    else None
  }

  /** Code points have one form only, the shortest. */
  function AtLeast(least: nat, cp: nat): Option<nat> { if least <= cp && Scalar(cp) then Some(cp) else None }

  // ---------- what the parser makes of an escape ----------

  lemma HexDigitReads(c: char, n: nat)
    requires n < 16 && IsHexDigit(c, n)
    ensures HexValue(c) == Some(n) && c != '\"' && c != '\\'
  {
  }

  lemma UnitReads(c: seq<char>, i: nat, s: CStr, unit: nat)
    requires LooksAt(c, i, s) && WritesUnit(s, unit)
    ensures i + 6 <= |c| && c[i] == '\\' && c[i + 1] == 'u' && ParseHex4(c, i + 2) == unit
    ensures forall j :: i + 2 <= j < i + 6 ==> c[j] != '\"' && c[j] != '\\'
  {
    forall j | 0 <= j < 6 ensures i + j < |c| && c[i + j] == s[j] { LooksByte(c, i, s, j); }
    HexDigitReads(s[2], unit / 0x1000);
    HexDigitReads(s[3], unit / 0x100 % 0x10);
    HexDigitReads(s[4], unit / 0x10 % 0x10);
    HexDigitReads(s[5], unit % 0x10);
    HexSum(unit);
    assert c[i + 2] == s[2] && c[i + 3] == s[3] && c[i + 4] == s[4] && c[i + 5] == s[5];
  }

  lemma HexSum(unit: nat)
    ensures 0x1000 * (unit / 0x1000) + 0x100 * (unit / 0x100 % 0x10) + 0x10 * (unit / 0x10 % 0x10) + unit % 0x10 == unit
  {
    assert unit / 0x100 == unit / 0x1000 * 0x10 + unit / 0x100 % 0x10;
    assert unit / 0x10 == unit / 0x100 * 0x10 + unit / 0x10 % 0x10;
  }

  /** The bytes written for a code point decode to it. */
  lemma Utf8Decodes(cp: nat)
    requires Scalar(cp)
    ensures FromUtf8(Utf8(cp)) == Some(cp)
  {
    Sextets(cp);
    Sextets(cp / 0x40);
    Sextets(cp / 0x1000);
    assert cp / 0x40 / 0x40 == cp / 0x1000 && cp / 0x1000 / 0x40 == cp / 0x40000;
    if 0x10000 <= cp {
      FourBytes(cp, cp / 0x40000, cp / 0x1000 % 0x40, cp / 0x40 % 0x40, cp % 0x40);
    }
  }

  lemma FourBytes(cp: nat, a: nat, b: nat, d: nat, e: nat)
    requires Scalar(cp) && 0x10000 <= cp && a < 8 && b < 0x40 && d < 0x40 && e < 0x40
    requires cp == ((a * 64 + b) * 64 + d) * 64 + e
    ensures FromUtf8([(0xF0 + a) as char, (0x80 + b) as char, (0x80 + d) as char, (0x80 + e) as char]) == Some(cp)
  {
  }

  lemma Sextets(n: nat)
    ensures n == n / 0x40 * 0x40 + n % 0x40
  {
  }

  lemma PairSum(cp: nat)
    requires 0x10000 <= cp <= 0x10FFFF
    ensures var high, low := 0xD800 + (cp - 0x10000) / 0x400, 0xDC00 + (cp - 0x10000) % 0x400;
            && 0xD800 <= high <= 0xDBFF && 0xDC00 <= low <= 0xDFFF
            && 0x10000 + (high % 0x400 * 0x400 + low % 0x400) == cp
  {
    var x := cp - 0x10000;
    assert x == x / 0x400 * 0x400 + x % 0x400;
    assert 0xD800 % 0x400 == 0 && 0xDC00 % 0x400 == 0;
  }

  lemma PairReads(c: seq<char>, i: nat, end: nat, high: nat, low: nat)
    requires i + 12 <= end < |c| && c[i + 6] == '\\' && c[i + 7] == 'u'
    requires ParseHex4(c, i + 2) == high && ParseHex4(c, i + 8) == low
    requires 0xD800 <= high <= 0xDBFF && 0xDC00 <= low <= 0xDFFF
    ensures Utf16(c, i, end) == Some((0x10000 + (high % 0x400 * 0x400 + low % 0x400), 12))
  {
  }

  lemma LiteralReads(c: seq<char>, i: nat, end: nat, s: CStr, cp: nat)
    requires LooksAt(c, i, s) && i + |s| <= end < |c| && WritesCodePoint(s, cp) && Scalar(cp)
    ensures c[i] == '\\' && c[i + 1] == 'u' && Utf16(c, i, end) == Some((cp, |s|))
  {
    if cp < 0x10000 {
      UnitReads(c, i, s, cp);
    } else {
      var high, low := 0xD800 + (cp - 0x10000) / 0x400, 0xDC00 + (cp - 0x10000) % 0x400;
      assert s == s[..6] + s[6..];
      LooksSplit(c, i, s[..6], s[6..]);
      UnitReads(c, i, s[..6], high);
      UnitReads(c, i + 6, s[6..], low);
      PairSum(cp);
      PairReads(c, i, end, high, low);
    }
  }

  /** The escape of a code point is read as bytes that decode to it. */
  lemma EscapeReads(c: seq<char>, i: nat, end: nat, s: CStr, cp: nat) returns (bytes: seq<char>)
    requires LooksAt(c, i, s) && i + |s| <= end < |c| && WritesCodePoint(s, cp) && Scalar(cp)
    ensures DecodeOne(c, i, end) == Some((bytes, |s|)) && FromUtf8(bytes) == Some(cp)
  {
    bytes := Utf8(cp);
    Utf8Decodes(cp);
    LiteralReads(c, i, end, s, cp);
  }

  // ---------- whole strings ----------

  /** What a string is written with: plain bytes, two-character escapes, code points, and \u without four hex digits. */
  datatype Piece = Plain(byte: cchar) | Short(letter: cchar) | Code(text: CStr, cp: nat) | Garbled(text: CStr)

  /** The two-character escapes of RFC 8259. */
  function ShortValue(letter: char): Option<nat> {
    match letter
    case '\"' => Some(0x22)
    case '\\' => Some(0x5C)
    case '/' => Some(0x2F)
    case 'b' => Some(0x08)
    case 'f' => Some(0x0C)
    case 'n' => Some(0x0A)
    case 'r' => Some(0x0D)
    case 't' => Some(0x09)
    case _ => None
  }

  predicate IsHex(c: char) { exists n {:trigger HexAt(c, n)} :: 0 <= n < 16 && HexAt(c, n) }

  predicate HexAt(c: char, n: nat)
    requires n < 16
  {
    IsHexDigit(c, n)
  }

  ghost predicate WellFormed(p: Piece) {
    match p
    case Plain(b) => b != '\"' && b != '\\'
    case Short(letter) => ShortValue(letter).Some?
    case Code(text, cp) => Scalar(cp) && WritesCodePoint(text, cp)
    case Garbled(text) =>
      && |text| == 6 && text[0] == '\\' && text[1] == 'u' && (exists i :: 2 <= i < 6 && !IsHex(text[i]))
      && forall i :: 2 <= i < 6 ==> text[i] != '\"' && text[i] != '\\'
  }

  function Spelling(p: Piece): CStr {
    match p
    case Plain(b) => [b]
    case Short(letter) => ['\\', letter]
    case Code(text, _) => text
    case Garbled(text) => text
  }

  /** The bytes a piece should give: those of its code point; a garbled escape is taken for the code point 0. */
  ghost predicate Means(p: Piece, bytes: seq<char>) {
    match p
    case Plain(b) => bytes == [b]
    case Short(letter) => ShortValue(letter).Some? && FromUtf8(bytes) == ShortValue(letter)
    case Code(_, cp) => FromUtf8(bytes) == Some(cp)
    case Garbled(_) => bytes == ['\0']
  }

  function Spellings(ps: seq<Piece>): CStr {
    if ps == [] then [] else Spelling(ps[0]) + Spellings(ps[1..])
  }

  ghost predicate AllWellFormed(ps: seq<Piece>) {
    ps == [] || (WellFormed(ps[0]) && AllWellFormed(ps[1..]))
  }

  ghost predicate AllMean(ps: seq<Piece>, parts: seq<seq<char>>) {
    if ps == [] then parts == []
    else parts != [] && Means(ps[0], parts[0]) && AllMean(ps[1..], parts[1..])
  }

  function Flat(parts: seq<seq<char>>): seq<char> {
    if parts == [] then [] else parts[0] + Flat(parts[1..])
  }

  lemma HexExactly(c: char)
    ensures HexValue(c).Some? <==> IsHex(c)
  {
    if HexValue(c).Some? {
      assert HexAt(c, HexValue(c).value);
    }
    if IsHex(c) {
      var n :| 0 <= n < 16 && HexAt(c, n);
      HexDigitReads(c, n);
    }
  }

  lemma GarbledReads(c: seq<char>, i: nat, end: nat, s: CStr)
    requires LooksAt(c, i, s) && i + |s| <= end < |c| && WellFormed(Garbled(s))
    ensures DecodeOne(c, i, end) == Some((['\0'], 6))
  {
    forall j | 0 <= j < 6 ensures i + j < |c| && c[i + j] == s[j] { LooksByte(c, i, s, j); }
    var j :| 2 <= j < 6 && !IsHex(s[j]);
    HexExactly(s[j]);
    assert c[i + j] == s[j];
    assert ParseHex4(c, i + 2) == 0;
  }

  /** One piece in the decoding loop. */
  lemma PieceReads(c: seq<char>, i: nat, end: nat, p: Piece) returns (bytes: seq<char>)
    requires WellFormed(p) && LooksAt(c, i, Spelling(p)) && i + |Spelling(p)| <= end < |c|
    ensures DecodeOne(c, i, end) == Some((bytes, |Spelling(p)|)) && Means(p, bytes)
  {
    match p
    case Plain(b) =>
      LooksByte(c, i, [b], 0);
      bytes := [b];
    case Short(letter) =>
      LooksByte(c, i, ['\\', letter], 0);
      LooksByte(c, i, ['\\', letter], 1);
      bytes := [SimpleEscape(letter).value];
    case Code(text, cp) => bytes := EscapeReads(c, i, end, text, cp);
    case Garbled(text) =>
      GarbledReads(c, i, end, text);
      bytes := ['\0'];
  }

  /** One piece in the scanning loop. */
  lemma PieceScans(c: seq<char>, i: nat, p: Piece)
    requires WellFormed(p) && LooksAt(c, i, Spelling(p))
    ensures ScanEnd(c, i) == ScanEnd(c, i + |Spelling(p)|)
  {
    match p
    case Plain(b) => LooksByte(c, i, [b], 0);
    case Short(letter) =>
      LooksByte(c, i, ['\\', letter], 0);
      LooksByte(c, i, ['\\', letter], 1);
    case Code(text, cp) => CodeScans(c, i, text, cp);
    case Garbled(text) => GarbledScans(c, i, text);
  }

  lemma GarbledScans(c: seq<char>, i: nat, s: CStr)
    requires LooksAt(c, i, s) && WellFormed(Garbled(s))
    ensures ScanEnd(c, i) == ScanEnd(c, i + 6)
  {
    forall j | 0 <= j < 6 ensures i + j < |c| && c[i + j] == s[j] { LooksByte(c, i, s, j); }
    assert c[i + 0] == '\\' && c[i + 2] == s[2] && c[i + 3] == s[3] && c[i + 4] == s[4] && c[i + 5] == s[5];
    ScanPlain(c, i + 2, 4);
  }

  lemma UnitScans(c: seq<char>, i: nat, s: CStr, unit: nat)
    requires LooksAt(c, i, s) && WritesUnit(s, unit)
    ensures ScanEnd(c, i) == ScanEnd(c, i + 6)
  {
    UnitReads(c, i, s, unit);
    ScanPlain(c, i + 2, 4);
  }

  lemma CodeScans(c: seq<char>, i: nat, s: CStr, cp: nat)
    requires LooksAt(c, i, s) && WritesCodePoint(s, cp)
    ensures ScanEnd(c, i) == ScanEnd(c, i + |s|)
  {
    if cp < 0x10000 {
      UnitScans(c, i, s, cp);
    } else {
      assert s == s[..6] + s[6..];
      LooksSplit(c, i, s[..6], s[6..]);
      UnitScans(c, i, s[..6], 0xD800 + (cp - 0x10000) / 0x400);
      UnitScans(c, i + 6, s[6..], 0xDC00 + (cp - 0x10000) % 0x400);
    }
  }

  lemma {:induction false} PiecesScan(c: seq<char>, i: nat, last: nat, ps: seq<Piece>)
    requires AllWellFormed(ps) && LooksAt(c, i, Spellings(ps)) && last == i + |Spellings(ps)|
    ensures ScanEnd(c, i) == ScanEnd(c, last)
    decreases |ps|
  {
    if ps != [] {
      var first, rest := Spelling(ps[0]), Spellings(ps[1..]);
      LooksTwo(c, i, Spellings(ps), first, rest);
      PieceScans(c, i, ps[0]);
      PiecesScan(c, i + |first|, last, ps[1..]);
    }
  }

  lemma LooksTwo(c: seq<char>, i: nat, s: CStr, a: CStr, b: CStr)
    requires s == a + b && LooksAt(c, i, s)
    ensures LooksAt(c, i, a) && LooksAt(c, i + |a|, b)
  {
    LooksSplit(c, i, a, b);
  }

  /** A result of decoding with some bytes in front. */
  ghost predicate Joined(r: Option<seq<char>>, front: seq<char>, rest: Option<seq<char>>) {
    (r.Some? <==> rest.Some?) && (r.Some? ==> r.value == front + rest.value)
  }

  lemma JoinTwo(r: Option<seq<char>>, a: seq<char>, middle: Option<seq<char>>, b: seq<char>, rest: Option<seq<char>>)
    requires Joined(r, a, middle) && Joined(middle, b, rest)
    ensures Joined(r, a + b, rest)
  {
  }

  lemma JoinNothing(r: Option<seq<char>>)
    ensures Joined(r, [], r)
  {
    if r.Some? {
      assert [] + r.value == r.value;
    }
  }

  /** Decoding pieces, up to wherever they end. */
  lemma {:induction false} PiecesDecode(c: seq<char>, i: nat, last: nat, end: nat, ps: seq<Piece>)
    returns (parts: seq<seq<char>>)
    requires AllWellFormed(ps) && LooksAt(c, i, Spellings(ps)) && last == i + |Spellings(ps)| <= end < |c|
    ensures AllMean(ps, parts) && Joined(Decode(c, i, end), Flat(parts), Decode(c, last, end))
    decreases |ps|
  {
    parts := [];
    JoinNothing(Decode(c, i, end));
    if ps != [] {
      var first, rest := Spelling(ps[0]), Spellings(ps[1..]);
      LooksTwo(c, i, Spellings(ps), first, rest);
      var next := i + |first|;
      var bytes := PieceReads(c, i, end, ps[0]);
      var more := PiecesDecode(c, next, last, end, ps[1..]);
      parts := [bytes] + more;
      MeanFirst(ps, bytes, more);
      DecodeFirst(c, i, end, bytes, next);
      JoinTwo(Decode(c, i, end), bytes, Decode(c, next, end), Flat(more), Decode(c, last, end));
    }
  }

  lemma MeanFirst(ps: seq<Piece>, bytes: seq<char>, more: seq<seq<char>>)
    requires ps != [] && Means(ps[0], bytes) && AllMean(ps[1..], more)
    ensures AllMean(ps, [bytes] + more) && Flat([bytes] + more) == bytes + Flat(more)
  {
    assert ([bytes] + more)[1..] == more;
  }

  lemma DecodeFirst(c: seq<char>, i: nat, end: nat, bytes: seq<char>, next: nat)
    requires i < end < |c| && i <= next && DecodeOne(c, i, end) == Some((bytes, next - i))
    ensures Joined(Decode(c, i, end), bytes, Decode(c, next, end))
  {
    var one := DecodeOne(c, i, end);
    assert i + one.value.1 == next;
    assert Decode(c, i, end).Some? <==> Decode(c, next, end).Some?;
  }

  /** A string literal is read as the bytes of its pieces, cut at the first NUL among them. */
  lemma StringReadsPieces(c: seq<char>, o: nat, ps: seq<Piece>) returns (parts: seq<seq<char>>)
    requires Terminated(c) && o < |c| && AllWellFormed(ps) && LooksAt(c, o, Text.QUOTE + Spellings(ps) + Text.QUOTE)
    ensures AllMean(ps, parts)
    ensures ParseString(c, o) == Some((CStringOf(Flat(parts)), o + 2 + |Spellings(ps)|))
  {
    var end := LiteralScans(c, o, ps, Spellings(ps));
    parts := LiteralDecodes(c, o + 1, end, ps);
    ParseStringVia(c, o, end, Flat(parts));
  }

  lemma LiteralScans(c: seq<char>, o: nat, ps: seq<Piece>, s: CStr) returns (end: nat)
    requires o < |c| && AllWellFormed(ps) && s == Spellings(ps) && LooksAt(c, o, Text.QUOTE + s + Text.QUOTE)
    ensures end == o + 1 + |s| < |c| && c[o] == '\"' && LooksAt(c, o + 1, s) && ScanEnd(c, o + 1) == Some(end)
  {
    end := LiteralHere(c, o, s);
    PiecesScan(c, o + 1, end, ps);
  }

  lemma LiteralDecodes(c: seq<char>, i: nat, end: nat, ps: seq<Piece>) returns (parts: seq<seq<char>>)
    requires AllWellFormed(ps) && LooksAt(c, i, Spellings(ps)) && end == i + |Spellings(ps)| < |c|
    ensures AllMean(ps, parts) && Decode(c, i, end).Some? && Decode(c, i, end).value == Flat(parts)
  {
    parts := PiecesDecode(c, i, end, end, ps);
    JoinedEnd(Decode(c, i, end), Flat(parts), Decode(c, end, end));
  }

  lemma LiteralHere(c: seq<char>, o: nat, s: CStr) returns (end: nat)
    requires o < |c| && LooksAt(c, o, Text.QUOTE + s + Text.QUOTE)
    ensures end == o + 1 + |s| < |c| && c[o] == '\"' && LooksAt(c, o + 1, s) && ScanEnd(c, end) == Some(end)
  {
    end := o + 1 + |s|;
    Quoted(c, o, s);
    LooksSplit(c, o + 1, s, Text.QUOTE);
    LooksByte(c, end, Text.QUOTE, 0);
  }

  lemma JoinedEnd(r: Option<seq<char>>, front: seq<char>, rest: Option<seq<char>>)
    requires Joined(r, front, rest) && rest == Some([])
    ensures r == Some(front)
  {
    assert front + [] == front;
  }

  lemma ParseStringVia(c: seq<char>, o: nat, end: nat, s: seq<char>)
    requires Terminated(c) && o < end < |c| && c[o] == '\"' && ScanEnd(c, o + 1) == Some(end)
    requires Decode(c, o + 1, end).Some? && Decode(c, o + 1, end).value == s
    ensures ParseString(c, o) == Some((CStringOf(s), end + 1))
  {
  }

  /** A text that is one string literal. */
  function Literal(ps: seq<Piece>): CStr { Text.QUOTE + Spellings(ps) + Text.QUOTE }

  lemma LiteralLooks(s: CStr)
    ensures Terminated(s + ['\0']) && LooksAt(s + ['\0'], 0, s)
  {
    var c := s + ['\0'];
    forall i | 0 <= i < |s| ensures SameByte(c, 0, s, i) {
      assert c[i] == s[i];
    }
    forall i | 0 <= i < |c| ensures Ends(c, i) <==> i == |c| - 1 {
      if i < |s| {
        assert c[i] == s[i] && s[i] != '\0';
      }
    }
  }

  /** Such a text is parsed to its end, as the string its pieces mean. */
  lemma TextReadsPieces(ps: seq<Piece>) returns (parts: seq<seq<char>>)
    requires AllWellFormed(ps)
    ensures AllMean(ps, parts) && ParseText(Literal(ps), true) == Some(String(CStringOf(Flat(parts))))
  {
    var c := Literal(ps) + ['\0'];
    LiteralLooks(Literal(ps));
    parts := StringReadsPieces(c, 0, ps);
    assert c[0] == '\"';
    QuotedValue(c, 0);
    assert SkipSpace(c, |Literal(ps)|) == |Literal(ps)|;
  }

  lemma QuotedValue(c: seq<char>, o: nat)
    requires Terminated(c) && o < |c| && c[o] == '\"'
    ensures SkipSpace(c, o) == o
    ensures var s := ParseString(c, o);
            ParseValue(c, o, 0) == if s.None? then None else Some((String(s.value.0), s.value.1))
  {
    if LooksAt(c, o, Text.NULL_TEXT) { LooksByte(c, o, Text.NULL_TEXT, 0); }
    if LooksAt(c, o, Text.FALSE_TEXT) { LooksByte(c, o, Text.FALSE_TEXT, 0); }
    if LooksAt(c, o, Text.TRUE_TEXT) { LooksByte(c, o, Text.TRUE_TEXT, 0); }
  }

  /**
   So for every code point a text can hold, but for U+0000: its escape, with one unit or a surrogate pair and digits of
   either case, is parsed to the bytes that are its UTF-8.
   */
  lemma CodePointReads(s: CStr, cp: nat) returns (bytes: CStr)
    requires Scalar(cp) && cp != 0 && WritesCodePoint(s, cp)
    ensures ParseText(Text.QUOTE + s + Text.QUOTE, true) == Some(String(bytes)) && FromUtf8(bytes) == Some(cp)
  {
    var ps := [Code(s, cp)];
    OnePiece(ps[0]);
    var parts := TextReadsPieces(ps);
    var b := parts[0];
    assert parts[1..] == [] && Flat(parts) == b + [] == b;
    NoNul(b, cp);
    bytes := b;
    CStringOfPlain(bytes);
  }

  lemma OnePiece(p: Piece)
    requires WellFormed(p)
    ensures AllWellFormed([p]) && Spellings([p]) == Spelling(p)
  {
    assert [p][1..] == [] && Spelling(p) + [] == Spelling(p);
  }

  lemma NoNul(b: seq<char>, cp: nat)
    requires FromUtf8(b) == Some(cp) && cp != 0
    ensures forall i :: 0 <= i < |b| ==> b[i] != '\0'
  {
  }

  // ---------- escapes that are refused ----------

  /** A unit stands here in \u form. */
  ghost predicate UnitAt(c: seq<char>, i: nat, unit: nat) {
    exists s :: WritesUnit(s, unit) && LooksAt(c, i, s)
  }

  ghost predicate HighAt(c: seq<char>, i: nat) { exists unit :: 0xD800 <= unit <= 0xDBFF && UnitAt(c, i, unit) }
  ghost predicate LowAt(c: seq<char>, i: nat) { exists unit :: 0xDC00 <= unit <= 0xDFFF && UnitAt(c, i, unit) }

  /** A backslash with a letter that means nothing, a low surrogate, or a high one without a low one behind it. */
  ghost predicate Refused(c: seq<char>, i: nat) {
    && i + 1 < |c| && c[i] == '\\'
    && ((c[i + 1] != 'u' && ShortValue(c[i + 1]).None?) || LowAt(c, i) || (HighAt(c, i) && !LowAt(c, i + 6)))
  }

  lemma UnitAtReads(c: seq<char>, i: nat, unit: nat)
    requires UnitAt(c, i, unit)
    ensures i + 6 <= |c| && c[i] == '\\' && c[i + 1] == 'u' && ParseHex4(c, i + 2) == unit
  {
    var s :| WritesUnit(s, unit) && LooksAt(c, i, s);
    UnitReads(c, i, s, unit);
  }

  /** Four digits that read as a unit write it. */
  lemma UnitWritten(c: seq<char>, i: nat, unit: nat)
    requires Terminated(c) && i + 6 < |c| && c[i] == '\\' && c[i + 1] == 'u' && ParseHex4(c, i + 2) == unit && unit != 0
    ensures UnitAt(c, i, unit)
  {
    forall j | i <= j < i + 6 ensures c[j] != '\0' { assert Ends(c, j) <==> j == |c| - 1; }
    var s: CStr := [c[i], c[i + 1], c[i + 2], c[i + 3], c[i + 4], c[i + 5]];
    DigitsWrite(s, HexValue(s[2]), HexValue(s[3]), HexValue(s[4]), HexValue(s[5]), unit);
    SixLook(c, i, s);
  }

  lemma SixLook(c: seq<char>, i: nat, s: CStr)
    requires i + 6 <= |c| && |s| == 6 && c[i..i + 6] == s
    ensures LooksAt(c, i, s)
  {
    forall j | 0 <= j < 6 ensures SameByte(c, i, s, j) { assert c[i..i + 6][j] == c[i + j]; }
  }

  lemma DigitsWrite(s: CStr, a: Option<nat>, b: Option<nat>, d: Option<nat>, e: Option<nat>, unit: nat)
    requires |s| == 6 && s[0] == '\\' && s[1] == 'u' && a.Some? && b.Some? && d.Some? && e.Some?
    requires HexValue(s[2]) == a && HexValue(s[3]) == b && HexValue(s[4]) == d && HexValue(s[5]) == e
    requires unit == 0x1000 * a.value + 0x100 * b.value + 0x10 * d.value + e.value
    ensures WritesUnit(s, unit)
  {
    HexParts(a.value, b.value, d.value, e.value);
    DigitWrites(s[2], a.value);
    DigitWrites(s[3], b.value);
    DigitWrites(s[4], d.value);
    DigitWrites(s[5], e.value);
  }

  lemma DigitWrites(c: char, n: nat)
    requires HexValue(c) == Some(n)
    ensures n < 16 && IsHexDigit(c, n)
  {
  }

  lemma HexParts(a: nat, b: nat, d: nat, e: nat)
    requires a < 16 && b < 16 && d < 16 && e < 16
    ensures var unit := 0x1000 * a + 0x100 * b + 0x10 * d + e;
            && unit / 0x1000 == a && unit / 0x100 % 0x10 == b && unit / 0x10 % 0x10 == d && unit % 0x10 == e
            && unit < 0x10000
  {
    var unit := 0x1000 * a + 0x100 * b + 0x10 * d + e;
    assert unit / 0x100 == 0x10 * a + b && unit / 0x10 == 0x100 * a + 0x10 * b + d;
  }

  lemma RefusedFails(c: seq<char>, i: nat, end: nat)
    requires Terminated(c) && i + 1 < end < |c| && Refused(c, i)
    ensures DecodeOne(c, i, end).None?
  {
    if LowAt(c, i) {
      var unit :| 0xDC00 <= unit <= 0xDFFF && UnitAt(c, i, unit);
      UnitAtReads(c, i, unit);
    } else if HighAt(c, i) {
      var unit :| 0xD800 <= unit <= 0xDBFF && UnitAt(c, i, unit);
      UnitAtReads(c, i, unit);
      if i + 12 <= end && c[i + 6] == '\\' && c[i + 7] == 'u' {
        NoLow(c, i + 6, end);
      }
    }
  }

  lemma NoLow(c: seq<char>, i: nat, end: nat)
    requires Terminated(c) && end < |c| && !LowAt(c, i) && i + 6 <= end && c[i] == '\\' && c[i + 1] == 'u'
    ensures !(0xDC00 <= ParseHex4(c, i + 2) <= 0xDFFF)
  {
    var unit := ParseHex4(c, i + 2);
    if 0xDC00 <= unit <= 0xDFFF {
      UnitWritten(c, i, unit);
      assert LowAt(c, i);
    }
  }

  /** A string with such an escape behind well-formed pieces is refused, whatever follows. */
  lemma RefusedEscape(c: seq<char>, o: nat, ps: seq<Piece>)
    requires Terminated(c) && o < |c| && AllWellFormed(ps) && LooksAt(c, o, Text.QUOTE + Spellings(ps))
    requires Refused(c, o + 1 + |Spellings(ps)|)
    ensures ParseString(c, o).None?
  {
    var at := o + 1 + |Spellings(ps)|;
    LooksSplit(c, o, Text.QUOTE, Spellings(ps));
    LooksByte(c, o, Text.QUOTE, 0);
    PiecesScan(c, o + 1, at, ps);
    var end := ScanEnd(c, at);
    if end.Some? {
      RefusedFails(c, at, end.value);
      var parts := PiecesDecode(c, o + 1, at, end.value, ps);
      assert Decode(c, at, end.value).None?;
    }
  }
}
