/**
 What the parser accepts and builds, as functions of the buffer, the offset and the depth.
 */
module Parsing {
  import opened Wrappers
  import opened CStrings
  import opened Json
  import Text

  const NESTING_LIMIT := 1000

  // ---------- white space ----------

  function SkipRun(c: seq<char>, o: nat): (r: nat)
    requires o <= |c|
    ensures o <= r <= |c|
    decreases |c| - o
  {
    if o < |c| && c[o] <= ' ' then SkipRun(c, o + 1) else o
  }

  /** buffer_skip_whitespace: the NUL counts as white space, but the offset steps back onto it. */
  function SkipSpace(c: seq<char>, o: nat): (r: nat)
    requires o < |c|
    ensures o <= r < |c|
  {
    if SkipRun(c, o) == |c| then |c| - 1 else SkipRun(c, o)
  }

  // ---------- numbers ----------

  predicate IsDigit(c: char) { '0' <= c <= '9' }

  predicate IsNumeric(c: char) {
    IsDigit(c) || c == '+' || c == '-' || c == 'e' || c == 'E' || c == '.'
  }

  /** What parse_number copies for strtod: characters of the number alphabet, up to a limit. */
  function NumericPrefix(c: seq<char>, o: nat, limit: nat): (text: CStr)
    requires o <= |c|
    ensures |text| <= limit && o + |text| <= |c|
    decreases |c| - o
  {
    if limit == 0 || o == |c| || !IsNumeric(c[o]) then [] else [c[o]] + NumericPrefix(c, o + 1, limit - 1)
  }

  /** The copy stops in front of the terminator. */
  lemma {:induction false} NumberInside(c: seq<char>, o: nat, limit: nat)
    requires Terminated(c) && o < |c|
    ensures o + |NumericPrefix(c, o, limit)| < |c|
    decreases |c| - o
  {
    if NumericPrefix(c, o, limit) != [] {
      NumberInside(c, o + 1, limit - 1);
    }
  }

  function DigitRun(s: seq<char>, i: nat): (e: nat)
    requires i <= |s|
    ensures i <= e <= |s|
    ensures forall j :: i <= j < e ==> IsDigit(s[j])
    decreases |s| - i
  {
    if i < |s| && IsDigit(s[i]) then DigitRun(s, i + 1) else i
  }

  function Pow10(n: nat): real {
    if n == 0 then 1.0 else 10.0 * Pow10(n - 1)
  }

  function Scale(x: real, e: int): real {
    if e >= 0 then x * Pow10(e) else (PowPositive(-e); x / Pow10(-e))
  }

  lemma {:induction false} PowPositive(n: nat)
    ensures Pow10(n) > 0.0
  {
    if n > 0 {
      PowPositive(n - 1);
    }
  }

  /** strtod on the copied characters, without rounding: the value and how many were used. */
  function Strtod(s: CStr): (r: Option<(real, nat)>)
    ensures r.Some? ==> 0 < r.value.1 <= |s|
  {
    var start := if s != [] && (s[0] == '-' || s[0] == '+') then 1 else 0;
    var whole := DigitRun(s, start);
    var dot := whole < |s| && s[whole] == '.';
    var frac := if dot then DigitRun(s, whole + 1) else whole;
    var fraction := if dot then s[whole + 1..frac] else [];
    var digits := s[start..whole] + fraction;
    if digits == [] then None
    else
      var x := DigitsValue(digits) as real;
      var value := if s[0] == '-' then -x else x;
      var (e, end) := Exponent(s, frac);
      Some((Scale(value, e - |fraction|), end))
  }

  /** An exponent at position i, if there is one: its value and its end. */
  function Exponent(s: CStr, i: nat): (r: (int, nat))
    requires i <= |s|
    ensures i <= r.1 <= |s|
  {
    if i < |s| && (s[i] == 'e' || s[i] == 'E') then
      var signed := i + 1 < |s| && (s[i + 1] == '-' || s[i + 1] == '+');
      var start := if signed then i + 2 else i + 1;
      var end := DigitRun(s, start);
      if end == start then (0, i)
      else (if signed && s[i + 1] == '-' then -DigitsValue(s[start..end]) else DigitsValue(s[start..end]), end)
    else (0, i)
  }

  function ParseNumber(c: seq<char>, o: nat): (r: Option<(JSON, nat)>)
    requires Terminated(c) && o < |c|
    ensures r.Some? ==> o < r.value.1 < |c|
  {
    NumberInside(c, o, 63);
    var number := Strtod(NumericPrefix(c, o, 63));
    if number.None? then None else Some((Number(number.value.0), o + number.value.1))
  }

  // ---------- strings ----------

  /** The scanning loop of parse_string: where the closing quote is. */
  function ScanEnd(c: seq<char>, i: nat): (r: Option<nat>)
    requires i <= |c|
    ensures r.Some? ==> i <= r.value < |c| && c[r.value] == '\"'
    decreases |c| - i
  {
    if i == |c| then None
    else if c[i] == '\"' then Some(i)
    else if c[i] == '\\' then if i + 1 >= |c| then None else ScanEnd(c, i + 2)
    else ScanEnd(c, i + 1)
  }

  function HexValue(c: char): (r: Option<nat>)
    ensures r.Some? ==> r.value < 16
    ensures c == '\\' || c == '\0' || c == '\"' ==> r.None?
  {
    if '0' <= c <= '9' then Some(c as int - '0' as int)
    else if 'A' <= c <= 'F' then Some(10 + (c as int - 'A' as int))
    else if 'a' <= c <= 'f' then Some(10 + (c as int - 'a' as int))
    else None
  }

  /** parse_hex4: four hexadecimal digits, or 0 if one of them is not. */
  function ParseHex4(c: seq<char>, i: nat): (h: nat)
    requires i + 4 <= |c|
    ensures h < 0x10000
    ensures h != 0 ==> forall j :: i <= j < i + 4 ==> HexValue(c[j]).Some?
  {
    var a, b, d, e := HexValue(c[i]), HexValue(c[i + 1]), HexValue(c[i + 2]), HexValue(c[i + 3]);
    if a.None? || b.None? || d.None? || e.None? then 0
    else 0x1000 * a.value + 0x100 * b.value + 0x10 * d.value + e.value
  }

  /** The UTF-8 bytes of a code point. */
  function Utf8(cp: nat): (bytes: seq<char>)
    requires cp <= 0x10FFFF
    ensures 1 <= |bytes| <= 4 && (cp < 0x10000 ==> |bytes| <= 3)
  {
    if cp < 0x80 then [cp as char]
    else if cp < 0x800 then [(0xC0 + cp / 0x40) as char, (0x80 + cp % 0x40) as char]
    else if cp < 0x10000 then [(0xE0 + cp / 0x1000) as char, (0x80 + cp / 0x40 % 0x40) as char,
                               (0x80 + cp % 0x40) as char]
    else [(0xF0 + cp / 0x40000) as char, (0x80 + cp / 0x1000 % 0x40) as char, (0x80 + cp / 0x40 % 0x40) as char,
          (0x80 + cp % 0x40) as char]
  }

  /** The code point of a \u literal at i in a string that ends at end, and its length; None is failure. */
  function Utf16(c: seq<char>, i: nat, end: nat): (r: Option<(nat, nat)>)
    requires i <= end <= |c|
    ensures r.Some? ==> r.value.0 <= 0x10FFFF && (r.value.1 == 6 || r.value.1 == 12) && i + r.value.1 <= end
    ensures r.Some? && r.value.1 == 6 ==> r.value.0 == ParseHex4(c, i + 2)
    ensures r.Some? && r.value.1 == 12 ==> ParseHex4(c, i + 2) != 0 && ParseHex4(c, i + 8) != 0 && c[i + 7] == 'u'
  {
    if end - i < 6 then None
    else
      var first := ParseHex4(c, i + 2);
      if 0xDC00 <= first <= 0xDFFF then None
      else if 0xD800 <= first <= 0xDBFF then
        if end - (i + 6) < 6 then None
        else if c[i + 6] != '\\' || c[i + 7] != 'u' then None
        else
          var second := ParseHex4(c, i + 8);
          if second < 0xDC00 || second > 0xDFFF then None
          else Some((0x10000 + (first % 0x400 * 0x400 + second % 0x400), 12))
      else Some((first, 6))
  }

  /** What the decoding loop makes of a simple escape. */
  function SimpleEscape(e: char): Option<char> {
    if e == 'b' then Some(8 as char)
    else if e == 'f' then Some(12 as char)
    else if e == 'n' then Some('\n')
    else if e == 'r' then Some('\r')
    else if e == 't' then Some('\t')
    else if e == '\"' || e == '\\' || e == '/' then Some(e)
    else None
  }

  /** What the decoding loop writes for the character or escape at i, and how much it reads for it. */
  function DecodeOne(c: seq<char>, i: nat, end: nat): (r: Option<(seq<char>, nat)>)
    requires i < end < |c|
    ensures r.Some? ==> 0 < r.value.1 && i + r.value.1 <= end + 1
  {
    if c[i] != '\\' then Some(([c[i]], 1))
    else if c[i + 1] == 'u' then
      var literal := Utf16(c, i, end);
      if literal.None? then None else Some((Utf8(literal.value.0), literal.value.1))
    else
      var e := SimpleEscape(c[i + 1]);
      if e.None? then None else Some(([e.value], 2))
  }

  /** The decoding loop of parse_string; it may step over the end by one. */
  function Decode(c: seq<char>, i: nat, end: nat): Option<seq<char>>
    requires end < |c|
    decreases end - i
  {
    if i >= end then Some([])
    else
      var one := DecodeOne(c, i, end);
      if one.None? then None
      else
        var rest := Decode(c, i + one.value.1, end);
        if rest.None? then None else Some(one.value.0 + rest.value)
  }

  function ParseString(c: seq<char>, o: nat): (r: Option<(CStr, nat)>)
    requires Terminated(c) && o < |c|
    ensures r.Some? ==> o < r.value.1 < |c|
  {
    if c[o] != '\"' then None
    else
      var end := ScanEnd(c, o + 1);
      if end.None? then None
      else
        var s := Decode(c, o + 1, end.value);
        if s.None? then None else Some((CStringOf(s.value), end.value + 1))
  }

  // ---------- values ----------

  /** `strncmp` finds this word at o. */
  predicate LooksAt(c: seq<char>, o: nat, word: CStr) {
    o + |word| <= |c| && forall i {:trigger SameByte(c, o, word, i)} :: 0 <= i < |word| ==> SameByte(c, o, word, i)
  }

  predicate SameByte(c: seq<char>, o: nat, word: CStr, i: nat)
    requires i < |word| && o + i < |c|
  {
    c[o + i] == word[i]
  }

  lemma LooksInside(c: seq<char>, o: nat, word: CStr)
    requires Terminated(c) && word != []
    ensures LooksAt(c, o, word) ==> o + |word| < |c|
  {
    if LooksAt(c, o, word) {
      assert SameByte(c, o, word, |word| - 1);
      assert !Ends(c, o + |word| - 1);
    }
  }

  function ParseValue(c: seq<char>, o: nat, depth: nat): (r: Option<(JSON, nat)>)
    requires Terminated(c) && o < |c| && depth <= NESTING_LIMIT
    ensures r.Some? ==> o < r.value.1 < |c|
    decreases |c| - o, 3
  {
    LooksInside(c, o, Text.NULL_TEXT); LooksInside(c, o, Text.FALSE_TEXT); LooksInside(c, o, Text.TRUE_TEXT);
    if LooksAt(c, o, Text.NULL_TEXT) then Some((Null, o + 4))
    else if LooksAt(c, o, Text.FALSE_TEXT) then Some((False, o + 5))
    else if LooksAt(c, o, Text.TRUE_TEXT) then Some((True, o + 4))
    else ParseByFirst(c, o, depth)
  }

  /** The branches of parse_value that its first character decides. */
  function ParseByFirst(c: seq<char>, o: nat, depth: nat): (r: Option<(JSON, nat)>)
    requires Terminated(c) && o < |c| && depth <= NESTING_LIMIT
    ensures r.Some? ==> o < r.value.1 < |c|
    decreases |c| - o, 2
  {
    if c[o] == '\"' then
      var s := ParseString(c, o);
      if s.None? then None else Some((String(s.value.0), s.value.1))
    else if c[o] == '-' || IsDigit(c[o]) then ParseNumber(c, o)
    else if c[o] == '[' then ParseArray(c, o, depth)
    else if c[o] == '{' then ParseObject(c, o, depth)
    else None
  }

  function ParseArray(c: seq<char>, o: nat, depth: nat): (r: Option<(JSON, nat)>)
    requires Terminated(c) && o < |c| && c[o] == '[' && depth <= NESTING_LIMIT
    ensures r.Some? ==> o < r.value.1 < |c|
    decreases |c| - o, 1
  {
    if depth >= NESTING_LIMIT then None
    else
      var p := SkipSpace(c, o + 1);
      if c[p] == ']' then Some((Array([]), p + 1))
      else
        var items := ParseItems(c, p, depth + 1);
        if items.None? then None else Some((Array(items.value.0), items.value.1))
  }

  function ParseObject(c: seq<char>, o: nat, depth: nat): (r: Option<(JSON, nat)>)
    requires Terminated(c) && o < |c| && c[o] == '{' && depth <= NESTING_LIMIT
    ensures r.Some? ==> o < r.value.1 < |c|
    decreases |c| - o, 1
  {
    if depth >= NESTING_LIMIT then None
    else
      var p := SkipSpace(c, o + 1);
      if c[p] == '}' then Some((Object([]), p + 1))
      else
        var ms := ParseMembers(c, p, depth + 1);
        if ms.None? then None else Some((Object(ms.value.0), ms.value.1))
  }

  /** White space and a value. */
  function ParseElement(c: seq<char>, o: nat, depth: nat): (r: Option<(JSON, nat)>)
    requires Terminated(c) && o < |c| && depth <= NESTING_LIMIT
    ensures r.Some? ==> o < r.value.1 < |c|
    decreases |c| - o, 4
  {
    ParseValue(c, SkipSpace(c, o), depth)
  }

  /** The element loop of parse_array from an offset in front of an element on, through the ']'. */
  function ParseItems(c: seq<char>, o: nat, depth: nat): (r: Option<(seq<JSON>, nat)>)
    requires Terminated(c) && o < |c| && depth <= NESTING_LIMIT
    ensures r.Some? ==> o < r.value.1 < |c|
    decreases |c| - o, 5
  {
    var v := ParseElement(c, o, depth);
    if v.None? then None
    else
      var p := SkipSpace(c, v.value.1);
      if c[p] == ',' then
        var rest := ParseItems(c, p + 1, depth);
        if rest.None? then None else Some(([v.value.0] + rest.value.0, rest.value.1))
      else if c[p] == ']' then Some(([v.value.0], p + 1))
      else None
  }

  /** A quoted name, a colon and a value. */
  function ParseNamed(c: seq<char>, o: nat, depth: nat): (r: Option<(Member, nat)>)
    requires Terminated(c) && o < |c| && depth <= NESTING_LIMIT
    ensures r.Some? ==> o < r.value.1 < |c|
    decreases |c| - o, 5
  {
    var name := ParseString(c, o);
    if name.None? then None
    else
      var p := SkipSpace(c, name.value.1);
      if c[p] != ':' then None
      else
        var v := ParseElement(c, p + 1, depth);
        if v.None? then None else Some((Member(name.value.0, v.value.0), v.value.1))
  }

  /** A member, which must start with a quote. */
  function ParseQuoted(c: seq<char>, o: nat, depth: nat): (r: Option<(Member, nat)>)
    requires Terminated(c) && o < |c| && depth <= NESTING_LIMIT
    ensures r.Some? ==> o < r.value.1 < |c|
    decreases |c| - o, 6
  {
    if c[o] == '\"' then ParseNamed(c, o, depth) else None
  }

  /** White space and a member. */
  function ParseMember(c: seq<char>, o: nat, depth: nat): (r: Option<(Member, nat)>)
    requires Terminated(c) && o < |c| && depth <= NESTING_LIMIT
    ensures r.Some? ==> o < r.value.1 < |c|
    decreases |c| - o, 7
  {
    ParseQuoted(c, SkipSpace(c, o), depth)
  }

  /** The member loop of parse_object, through the '}'. */
  function ParseMembers(c: seq<char>, o: nat, depth: nat): (r: Option<(seq<Member>, nat)>)
    requires Terminated(c) && o < |c| && depth <= NESTING_LIMIT
    ensures r.Some? ==> o < r.value.1 < |c|
    decreases |c| - o, 8
  {
    var m := ParseMember(c, o, depth);
    if m.None? then None
    else
      var p := SkipSpace(c, m.value.1);
      if c[p] == ',' then
        var rest := ParseMembers(c, p + 1, depth);
        if rest.None? then None else Some(([m.value.0] + rest.value.0, rest.value.1))
      else if c[p] == '}' then Some(([m.value.0], p + 1))
      else None
  }

  /** skip_utf8_bom */
  function AfterBom(c: seq<char>): (o: nat)
    requires |c| > 0
    ensures o < |c|
  {
    if |c| > 4 && c[0] == 0xEF as char && c[1] == 0xBB as char && c[2] == 0xBF as char then 3 else 0
  }

  /** cJSON_ParseWithOpts on a C string; None is the NULL it returns. */
  function ParseText(text: CStr, requireEnd: bool): Option<JSON> {
    var c := text + ['\0'];
    assert Terminated(c);
    var v := ParseValue(c, SkipSpace(c, AfterBom(c)), 0);
    if v.None? then None
    else if requireEnd && c[SkipSpace(c, v.value.1)] != '\0' then None
    else Some(v.value.0)
  }
}
