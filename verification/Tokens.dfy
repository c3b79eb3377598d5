/**
 Strings, numbers and white space: what the parser reads where the printer wrote.
 */
module Tokens {
  import opened Wrappers
  import opened CStrings
  import opened Json
  import opened Text
  import opened Parsing

  lemma {:induction false} LooksSplit(c: seq<char>, o: nat, a: CStr, b: CStr)
    requires LooksAt(c, o, a + b)
    ensures LooksAt(c, o, a) && LooksAt(c, o + |a|, b)
  {
    forall i | 0 <= i < |a| ensures SameByte(c, o, a, i) {
      assert SameByte(c, o, a + b, i);
    }
    var p := o + |a|;
    forall i | 0 <= i < |b| ensures SameByte(c, p, b, i) {
      assert SameByte(c, o, a + b, |a| + i);
    }
  }

  lemma {:induction false} LooksByte(c: seq<char>, o: nat, a: CStr, i: nat)
    requires LooksAt(c, o, a) && i < |a|
    ensures o + i < |c| && c[o + i] == a[i]
  {
    assert SameByte(c, o, a, i);
  }

  /** The terminator is still ahead of any text without NUL. */
  lemma {:induction false} LooksEnds(c: seq<char>, o: nat, a: CStr)
    requires Terminated(c) && o < |c| && LooksAt(c, o, a)
    ensures o + |a| < |c|
  {
    if a != [] {
      LooksInside(c, o, a);
    }
  }

  // ---------- white space ----------

  lemma {:induction false} SkipNothing(c: seq<char>, o: nat)
    requires o < |c| && c[o] > ' '
    ensures SkipSpace(c, o) == o
  {
  }

  lemma {:induction false} SkipOne(c: seq<char>, o: nat)
    requires o + 1 < |c| && c[o] <= ' '
    ensures SkipSpace(c, o) == SkipSpace(c, o + 1)
  {
  }

  lemma {:induction false} SkipBlank(c: seq<char>, o: nat, w: CStr)
    requires LooksAt(c, o, w) && o + |w| < |c| && forall i :: 0 <= i < |w| ==> w[i] <= ' '
    ensures SkipSpace(c, o) == SkipSpace(c, o + |w|)
    decreases |w|
  {
    if w != [] {
      LooksByte(c, o, w, 0);
      SkipOne(c, o);
      assert w == [w[0]] + w[1..];
      LooksSplit(c, o, [w[0]], w[1..]);
      SkipBlank(c, o + 1, w[1..]);
    }
  }

  lemma {:induction false} RunStops(c: seq<char>, o: nat)
    requires o <= |c|
    ensures SkipRun(c, o) < |c| ==> c[SkipRun(c, o)] > ' '
    decreases |c| - o
  {
    if o < |c| && c[o] <= ' ' {
      RunStops(c, o + 1);
    }
  }

  /** Skipping white space twice is skipping it once. */
  lemma {:induction false} SkipTwice(c: seq<char>, o: nat)
    requires Terminated(c) && o < |c|
    ensures SkipSpace(c, SkipSpace(c, o)) == SkipSpace(c, o)
  {
    RunStops(c, o);
  }

  // ---------- numbers ----------

  /** At the end of the text of a number no further character of the number alphabet follows. */
  lemma {:induction false} PrefixIsText(c: seq<char>, o: nat, text: CStr, limit: nat)
    requires LooksAt(c, o, text) && |text| <= limit && o + |text| < |c| && !IsNumeric(c[o + |text|])
    requires forall i :: 0 <= i < |text| ==> IsNumeric(text[i])
    ensures NumericPrefix(c, o, limit) == text
    decreases |text|
  {
    if text != [] {
      LooksByte(c, o, text, 0);
      assert text == [text[0]] + text[1..];
      LooksSplit(c, o, [text[0]], text[1..]);
      PrefixIsText(c, o + 1, text[1..], limit - 1);
    }
  }

  lemma {:induction false} AllDigits(s: seq<char>, i: nat)
    requires i <= |s| && forall j :: i <= j < |s| ==> IsDigit(s[j])
    ensures DigitRun(s, i) == |s|
    decreases |s| - i
  {
    if i < |s| {
      AllDigits(s, i + 1);
    }
  }

  function Power(k: nat): nat {
    if k == 0 then 1 else 10 * Power(k - 1)
  }

  lemma {:induction false} DecimalLength(n: nat, k: nat)
    requires k > 0 && n < Power(k)
    ensures |Decimal(n)| <= k
  {
    if n >= 10 {
      DecimalLength(n / 10, k - 1);
    }
  }

  /** strtod on an optional sign and digits. */
  lemma {:induction false} StrtodDigits(s: CStr, start: nat)
    requires start < |s| && start == (if s[0] == '-' then 1 else 0) && s[0] != '+' && DigitRun(s, start) == |s|
    ensures Strtod(s) ==
            Some((if start == 1 then -(DigitsValue(s[start..]) as real) else DigitsValue(s[start..]) as real, |s|))
  {
    var x := DigitsValue(s[start..]) as real;
    assert s[start..|s|] == s[start..] && s[start..] + [] == s[start..];
    ScaleZero(if start == 1 then -x else x);
  }

  lemma {:induction false} ScaleZero(x: real)
    ensures Scale(x, 0) == x
  {
    assert Pow10(0) == 1.0;
  }

  /** strtod reads a printed integer back, all of it. */
  lemma {:induction false} StrtodReads(x: real)
    requires x == x.Floor as real
    ensures Strtod(IntegerText(x)) == Some((x, |IntegerText(x)|))
  {
    var s := IntegerText(x);
    var n: nat := if x.Floor < 0 then -x.Floor else x.Floor;
    var start := if x.Floor < 0 then 1 else 0;
    var digits := Decimal(n);
    assert s[start..] == digits;
    forall j | start <= j < |s| ensures IsDigit(s[j]) {
      assert s[j] == digits[j - start];
    }
    AllDigits(s, start);
    DecimalValue(n);
    StrtodDigits(s, start);
  }

  /** A text of the number alphabet that strtod takes back to the number, all of it. */
  ghost predicate ReadsBack(x: real, text: CStr) {
    0 < |text| <= 63 && (text[0] == '-' || IsDigit(text[0])) && (forall i :: 0 <= i < |text| ==> IsNumeric(text[i]))
    && Strtod(text) == Some((x, |text|))
  }

  /** Such a text is read where it stands when no further character of the alphabet follows. */
  lemma {:induction false} NumberReads(c: seq<char>, o: nat, x: real, text: CStr)
    requires Terminated(c) && ReadsBack(x, text) && LooksAt(c, o, text)
    requires o + |text| < |c| && !IsNumeric(c[o + |text|])
    ensures ParseNumber(c, o) == Some((Number(x), o + |text|))
  {
    PrefixIsText(c, o, text, 63);
  }

  /** The decimal text of an integer of up to 15 digits is such a text. */
  lemma {:induction false} IntegerReadsBack(x: real)
    requires IntegralNumber(x)
    ensures ReadsBack(x, IntegerText(x)) && |IntegerText(x)| <= 16
  {
    assert Power(5) == 100_000;
    assert Power(10) == 10_000_000_000;
    assert Power(15) == 1_000_000_000_000_000;
    DecimalLength(if x.Floor < 0 then -x.Floor else x.Floor, 15);
    StrtodReads(x);
  }

  // ---------- strings ----------

  lemma {:induction false} ScanPlain(c: seq<char>, o: nat, n: nat)
    requires o + n <= |c| && forall i :: o <= i < o + n ==> c[i] != '\"' && c[i] != '\\'
    ensures ScanEnd(c, o) == ScanEnd(c, o + n)
    decreases n
  {
    if n > 0 {
      ScanPlain(c, o + 1, n - 1);
    }
  }

  /** The scanning loop steps over one written character. */
  lemma {:induction false} ScanOne(c: seq<char>, o: nat, ch: cchar)
    requires LooksAt(c, o, EscapeChar(ch))
    ensures ScanEnd(c, o) == ScanEnd(c, o + |EscapeChar(ch)|)
  {
    var e := EscapeChar(ch);
    forall i | o <= i < o + |e| ensures c[i] == e[i - o] {
      LooksByte(c, o, e, i - o);
    }
    if |e| > 2 {
      ScanPlain(c, o + 2, 4);
    }
  }

  /** A first piece, the rest of a string and what follows the string. */
  lemma {:induction false} LooksPieces(c: seq<char>, o: nat, a: CStr, b: CStr, q: CStr)
    requires LooksAt(c, o, a + b + q)
    ensures LooksAt(c, o, a) && LooksAt(c, o + |a|, b + q) && LooksAt(c, o + |a|, b) && LooksAt(c, o + |a| + |b|, q)
  {
    Regroup(a, b, q);
    LooksSplit(c, o, a, b + q);
    LooksSplit(c, o + |a|, b, q);
  }

  lemma {:induction false} ScanReads(c: seq<char>, o: nat, s: CStr)
    requires LooksAt(c, o, Escape(s) + QUOTE)
    ensures ScanEnd(c, o) == Some(o + |Escape(s)|)
    decreases s
  {
    if s == [] {
      assert Escape(s) + QUOTE == QUOTE;
      LooksByte(c, o, QUOTE, 0);
    } else {
      LooksPieces(c, o, EscapeChar(s[0]), Escape(s[1..]), QUOTE);
      ScanOne(c, o, s[0]);
      ScanReads(c, o + |EscapeChar(s[0])|, s[1..]);
    }
  }

  lemma {:induction false} HexReads(n: nat)
    requires n < 16
    ensures HexValue(HexDigit(n)) == Some(n)
  {
  }

  lemma {:induction false} ShortReads(c: seq<char>, o: nat, end: nat, ch: cchar)
    requires o + 2 <= end < |c| && ShortEscape(ch).Some? && c[o] == '\\' && c[o + 1] == ShortEscape(ch).value
    ensures DecodeOne(c, o, end) == Some(([ch], 2))
  {
    assert SimpleEscape(c[o + 1]) == Some(ch);
  }

  lemma {:induction false} ControlReads(c: seq<char>, o: nat, end: nat, ch: cchar)
    requires o + 6 <= end < |c| && ch < ' ' && c[o] == '\\' && c[o + 1] == 'u' && c[o + 2] == '0' && c[o + 3] == '0'
    requires c[o + 4] == HexDigit(ch as int / 16) && c[o + 5] == HexDigit(ch as int % 16)
    ensures DecodeOne(c, o, end) == Some(([ch], 6))
  {
    HexReads(ch as int / 16);
    HexReads(ch as int % 16);
    assert ParseHex4(c, o + 2) == ch as int;
  }

  /** The decoding loop undoes the escape of one character. */
  lemma {:induction false} DecodeOneReads(c: seq<char>, o: nat, end: nat, ch: cchar)
    requires LooksAt(c, o, EscapeChar(ch)) && o + |EscapeChar(ch)| <= end < |c|
    ensures DecodeOne(c, o, end) == Some(([ch], |EscapeChar(ch)|))
  {
    var e := EscapeChar(ch);
    forall i | 0 <= i < |e| ensures c[o + i] == e[i] {
      LooksByte(c, o, e, i);
    }
    assert c[o] == e[0];
    if ShortEscape(ch).Some? {
      assert c[o + 1] == e[1];
      ShortReads(c, o, end, ch);
    } else if ch < ' ' {
      assert c[o + 1] == e[1] && c[o + 2] == e[2] && c[o + 3] == e[3] && c[o + 4] == e[4] && c[o + 5] == e[5];
      ControlReads(c, o, end, ch);
    }
  }

  lemma {:induction false} DecodeStep(c: seq<char>, o: nat, end: nat, ch: char, n: nat, rest: seq<char>)
    requires o < end < |c| && DecodeOne(c, o, end) == Some(([ch], n)) && Decode(c, o + n, end) == Some(rest)
    ensures Decode(c, o, end) == Some([ch] + rest)
  {
  }

  lemma {:induction false} DecodeReads(c: seq<char>, o: nat, end: nat, s: CStr)
    requires LooksAt(c, o, Escape(s)) && o + |Escape(s)| == end < |c|
    ensures Decode(c, o, end) == Some(s)
    decreases s
  {
    if s != [] {
      var n := |EscapeChar(s[0])|;
      LooksSplit(c, o, EscapeChar(s[0]), Escape(s[1..]));
      DecodeOneReads(c, o, end, s[0]);
      DecodeReads(c, o + n, end, s[1..]);
      DecodeStep(c, o, end, s[0], n, s[1..]);
      assert [s[0]] + s[1..] == s;
    }
  }

  lemma {:induction false} Quoted(c: seq<char>, o: nat, e: CStr)
    requires o < |c| && LooksAt(c, o, QUOTE + e + QUOTE)
    ensures c[o] == '\"' && LooksAt(c, o + 1, e + QUOTE) && LooksAt(c, o + 1, e) && o + 1 + |e| < |c|
  {
    LooksPieces(c, o, QUOTE, e, QUOTE);
    LooksByte(c, o, QUOTE, 0);
  }

  lemma {:induction false} ParseStringFrom(c: seq<char>, o: nat, end: nat, s: CStr)
    requires Terminated(c) && o < |c| && c[o] == '\"' && end < |c|
    requires ScanEnd(c, o + 1) == Some(end) && Decode(c, o + 1, end) == Some(s)
    ensures ParseString(c, o) == Some((s, end + 1))
  {
    CStringOfPlain(s);
  }

  lemma {:induction false} ScanQuoted(c: seq<char>, o: nat, s: CStr)
    requires o < |c| && LooksAt(c, o, Quote(s))
    ensures c[o] == '\"' && ScanEnd(c, o + 1) == Some(o + 1 + |Escape(s)|)
  {
    Quoted(c, o, Escape(s));
    ScanReads(c, o + 1, s);
  }

  lemma {:induction false} DecodeQuoted(c: seq<char>, o: nat, s: CStr)
    requires o < |c| && LooksAt(c, o, Quote(s))
    ensures o + 1 + |Escape(s)| < |c| && Decode(c, o + 1, o + 1 + |Escape(s)|) == Some(s)
  {
    Quoted(c, o, Escape(s));
    DecodeReads(c, o + 1, o + 1 + |Escape(s)|, s);
  }

  lemma {:induction false} StringReads(c: seq<char>, o: nat, s: CStr)
    requires Terminated(c) && o < |c| && LooksAt(c, o, Quote(s))
    ensures ParseString(c, o) == Some((s, o + |Quote(s)|))
  {
    ScanQuoted(c, o, s);
    DecodeQuoted(c, o, s);
    ParseStringFrom(c, o, o + 1 + |Escape(s)|, s);
  }
}
