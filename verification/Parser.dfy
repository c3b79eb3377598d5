/**
 The parser on its buffer: offset and depth move, strings are decoded into memory whose size
 the scanning loop computed.
 */
module Parser {
  import opened Wrappers
  import opened CStrings
  import opened Json
  import Text
  import opened Parsing

  // ---------- the two passes of parse_string ----------

  /** How many escapes the scanning loop skips between position i and the closing quote. */
  ghost function Escapes(c: seq<char>, i: nat, end: nat): nat
    requires end <= |c|
    decreases end - i
  {
    if i >= end then 0 else if c[i] == '\\' then 1 + Escapes(c, i + 2, end) else Escapes(c, i + 1, end)
  }

  /**
   The memory still unclaimed when the decoding loop stands at i. The scanning loop counted a
   byte less for every escape it saw; `aligned` says whether it saw an item start at i, or
   whether i is the second byte of one of its escapes.
   */
  ghost function Budget(c: seq<char>, i: nat, end: nat, aligned: bool): int
    requires end <= |c|
  {
    end - i - Escapes(c, if aligned then i else i + 1, end)
  }

  /** The scanning loop, started at i, stops exactly at end. */
  ghost predicate Scans(c: seq<char>, i: nat, end: nat)
    requires end < |c|
  {
    i <= end && ScanEnd(c, i) == Some(end)
  }

  lemma ScanStep(c: seq<char>, i: nat, end: nat)
    requires end < |c| && Scans(c, i, end) && i < end
    ensures c[i] != '\"'
    ensures if c[i] == '\\' then Scans(c, i + 2, end) else Scans(c, i + 1, end)
  {
  }

  /** Where the decoding loop may stand relative to the scanning loop. */
  ghost predicate Standing(c: seq<char>, i: nat, end: nat, aligned: bool)
    requires end < |c|
  {
    if aligned then Scans(c, i, end) else Scans(c, i + 1, end)
  }

  /** One byte further, wherever that is for the scanning loop. */
  lemma OneByte(c: seq<char>, i: nat, end: nat, aligned: bool) returns (aligned': bool)
    requires end < |c| && Standing(c, i, end, aligned) && i < end
    ensures Standing(c, i + 1, end, aligned')
    ensures Budget(c, i, end, aligned) - 1 <= Budget(c, i + 1, end, aligned') <= Budget(c, i, end, aligned)
    ensures Budget(c, i + 1, end, aligned') == Budget(c, i, end, aligned) ==> aligned && c[i] == '\\' && !aligned'
  {
    if aligned {
      ScanStep(c, i, end);
      aligned' := c[i] != '\\';
    } else {
      aligned' := true;
    }
  }

  lemma {:induction false} BudgetNonNegative(c: seq<char>, i: nat, end: nat)
    requires end < |c| && Scans(c, i, end)
    ensures Escapes(c, i, end) <= end - i
    decreases end - i
  {
    if i < end {
      ScanStep(c, i, end);
      BudgetNonNegative(c, if c[i] == '\\' then i + 2 else i + 1, end);
    }
  }

  /** Two bytes that start with a backslash claim one byte and free at least one. */
  lemma TwoBytes(c: seq<char>, i: nat, end: nat, aligned: bool) returns (aligned': bool)
    requires end < |c| && Standing(c, i, end, aligned) && i < end && c[i] == '\\'
    ensures i + 2 <= end ==>
              Standing(c, i + 2, end, aligned') && Budget(c, i + 2, end, aligned') + 1 <= Budget(c, i, end, aligned)
    ensures i + 2 > end ==> 1 <= Budget(c, i, end, aligned)
  {
    var a1 := OneByte(c, i, end, aligned);
    aligned' := a1;
    if i + 2 <= end {
      aligned' := OneByte(c, i + 1, end, a1);
    } else if aligned {
      ScanStep(c, i, end);
    }
  }

  /** Bytes that are no backslashes free one byte of memory each. */
  lemma {:induction false} PlainBytes(c: seq<char>, i: nat, n: nat, end: nat, aligned: bool) returns (aligned': bool)
    requires end < |c| && Standing(c, i, end, aligned) && i + n <= end
    requires forall j :: i <= j < i + n ==> c[j] != '\\'
    ensures Standing(c, i + n, end, aligned') && Budget(c, i + n, end, aligned') == Budget(c, i, end, aligned) - n
    decreases n
  {
    aligned' := aligned;
    if n > 0 {
      aligned' := OneByte(c, i, end, aligned);
      aligned' := PlainBytes(c, i + 1, n - 1, end, aligned');
    }
  }

  /** Any bytes at all free some memory or none. */
  lemma {:induction false} AnyBytes(c: seq<char>, i: nat, n: nat, end: nat, aligned: bool) returns (aligned': bool)
    requires end < |c| && Standing(c, i, end, aligned) && i + n <= end
    ensures Standing(c, i + n, end, aligned') && Budget(c, i + n, end, aligned') <= Budget(c, i, end, aligned)
    decreases n
  {
    aligned' := aligned;
    if n > 0 {
      aligned' := OneByte(c, i, end, aligned);
      aligned' := AnyBytes(c, i + 1, n - 1, end, aligned');
    }
  }

  /** The six bytes of a \u escape free as many bytes as its UTF-8 form takes, malformed or not. */
  lemma SixBytes(c: seq<char>, i: nat, end: nat, aligned: bool) returns (aligned': bool)
    requires end < |c| && Standing(c, i, end, aligned) && i + 6 <= end && c[i] == '\\' && c[i + 1] == 'u'
    ensures Standing(c, i + 6, end, aligned')
    ensures Budget(c, i + 6, end, aligned') + (if ParseHex4(c, i + 2) == 0 then 1 else 5) <= Budget(c, i, end, aligned)
  {
    if ParseHex4(c, i + 2) == 0 {
      aligned' := TwoBytes(c, i, end, aligned);
      aligned' := AnyBytes(c, i + 2, 4, end, aligned');
    } else {
      aligned' := OneByte(c, i, end, aligned);
      assert forall j :: i + 2 <= j < i + 6 ==> HexValue(c[j]).Some?;
      aligned' := PlainBytes(c, i + 1, 5, end, aligned');
    }
  }

  /** A whole \u literal, one escape or a surrogate pair. */
  lemma LiteralBytes(c: seq<char>, i: nat, end: nat, aligned: bool) returns (aligned': bool)
    requires end < |c| && Standing(c, i, end, aligned) && i < end && c[i] == '\\' && c[i + 1] == 'u'
    requires Utf16(c, i, end).Some?
    ensures var (cp, n) := Utf16(c, i, end).value;
            Standing(c, i + n, end, aligned')
            && Budget(c, i + n, end, aligned') + |Utf8(cp)| <= Budget(c, i, end, aligned)
  {
    var (cp, n) := Utf16(c, i, end).value;
    aligned' := SixBytes(c, i, end, aligned);
    if n == 12 {
      aligned' := SixBytes(c, i + 6, end, aligned');
    } else if ParseHex4(c, i + 2) == 0 {
      assert cp == 0;
    }
  }

  /** What the decoding loop writes next, out of the memory that is left. */
  lemma ItemBytes(c: seq<char>, i: nat, end: nat, aligned: bool) returns (aligned': bool)
    requires end < |c| && Standing(c, i, end, aligned) && i < end && DecodeOne(c, i, end).Some?
    ensures var (bytes, n) := DecodeOne(c, i, end).value;
            if i + n <= end then
              Standing(c, i + n, end, aligned')
              && Budget(c, i + n, end, aligned') + |bytes| <= Budget(c, i, end, aligned)
            else |bytes| <= Budget(c, i, end, aligned)
  {
    if c[i] != '\\' {
      aligned' := OneByte(c, i, end, aligned);
    } else if c[i + 1] == 'u' {
      aligned' := LiteralBytes(c, i, end, aligned);
    } else {
      aligned' := TwoBytes(c, i, end, aligned);
    }
  }

  /** Whatever the decoding loop writes next fits into the memory that is left. */
  lemma OneItem(c: seq<char>, i: nat, end: nat, aligned: bool) returns (aligned': bool)
    requires end < |c| && Standing(c, i, end, aligned) && i < end && DecodeOne(c, i, end).Some?
    ensures var (bytes, n) := DecodeOne(c, i, end).value;
            |bytes| <= Budget(c, i, end, aligned)
            && (i + n <= end ==>
                  Standing(c, i + n, end, aligned')
                  && Budget(c, i + n, end, aligned') + |bytes| <= Budget(c, i, end, aligned))
  {
    aligned' := ItemBytes(c, i, end, aligned);
    var n := DecodeOne(c, i, end).value.1;
    if i + n <= end {
      BudgetLeft(c, i + n, end, aligned');
    }
  }

  lemma BudgetLeft(c: seq<char>, i: nat, end: nat, aligned: bool)
    requires end < |c| && i <= end && Standing(c, i, end, aligned)
    ensures Budget(c, i, end, aligned) >= 0
  {
    BudgetNonNegative(c, if aligned then i else i + 1, end);
  }

  /**
   The two-pass bound, for every input: what the decoding loop writes is never longer than the bytes up to
   the closing quote less one for every escape the scanning loop counted.
   */
  lemma {:induction false} DecodedFits(c: seq<char>, i: nat, end: nat, aligned: bool)
    requires end < |c| && i <= end && Standing(c, i, end, aligned)
    ensures Decode(c, i, end).Some? ==> |Decode(c, i, end).value| <= Budget(c, i, end, aligned)
    decreases end - i
  {
    BudgetLeft(c, i, end, aligned);
    if i < end && DecodeOne(c, i, end).Some? {
      var aligned' := OneItem(c, i, end, aligned);
      var n := DecodeOne(c, i, end).value.1;
      if i + n <= end {
        DecodedFits(c, i + n, end, aligned');
      }
    }
  }

  /** codepoint after k shifts by six bits. */
  function Shifted(cp: nat, k: nat): nat {
    if k == 0 then cp else if k == 1 then cp / 0x40 else if k == 2 then cp / 0x1000 else cp / 0x40000
  }

  class ParseBuffer {
    const content: seq<char>
    var offset: nat
    var depth: nat

    ghost predicate Valid()
      reads this
    {
      Terminated(content) && offset < |content| && depth <= NESTING_LIMIT
    }

    constructor (text: CStr)
      ensures Valid() && content == text + ['\0'] && offset == 0 && depth == 0
    {
      content, offset, depth := text + ['\0'], 0, 0;
    }

    /** buffer_skip_whitespace */
    method SkipWhitespace()
      requires Valid()
      modifies this`offset
      ensures Valid() && offset == SkipSpace(content, old(offset))
    {
      while offset < |content| && content[offset] <= ' '
        invariant old(offset) <= offset <= |content| && SkipRun(content, offset) == SkipRun(content, old(offset))
        decreases |content| - offset
      {
        offset := offset + 1;
      }
      if offset == |content| {
        offset := offset - 1;
      }
    }

    /** The encoding part of utf16_literal_to_utf8: the bytes from the last to the first. */
    method EncodeUtf8(codepoint: nat, output: array<char>, at: nat) returns (length: nat)
      requires codepoint <= 0x10FFFF && at + |Utf8(codepoint)| <= output.Length
      modifies output
      ensures length == |Utf8(codepoint)|
      ensures output[..at + length] == old(output[..at]) + Utf8(codepoint)
    {
      ghost var before := output[..at];
      var mark := 0;
      if codepoint < 0x80 {
        length := 1;
      } else if codepoint < 0x800 {
        length, mark := 2, 0xC0;
      } else if codepoint < 0x10000 {
        length, mark := 3, 0xE0;
      } else {
        length, mark := 4, 0xF0;
      }
      var cp := codepoint;
      var position := length - 1;
      while position > 0
        invariant 0 <= position <= length - 1
        invariant cp == Shifted(codepoint, length - 1 - position)
        invariant output[..at] == before
        invariant forall j :: position < j < length ==> output[at + j] == Utf8(codepoint)[j]
      {
        output[at + position] := (0x80 + cp % 0x40) as char;
        cp := cp / 0x40;
        position := position - 1;
      }
      output[at] := (mark + cp) as char;
    }

    /** The scanning loop of parse_string: where the string ends and how many escapes it has. */
    method ScanString(start: nat) returns (ok: bool, end: nat, skipped: nat)
      requires Valid() && start <= |content|
      ensures ok <==> ScanEnd(content, start).Some?
      ensures ok ==> end == ScanEnd(content, start).value && skipped == Escapes(content, start, end)
    {
      end, skipped := start, 0;
      ghost var goal := ScanEnd(content, start);
      while end < |content| && content[end] != '\"'
        invariant start <= end <= |content| && ScanEnd(content, end) == goal
        invariant goal.Some? ==> skipped + Escapes(content, end, goal.value) == Escapes(content, start, goal.value)
        decreases |content| - end
      {
        if content[end] == '\\' {
          if end + 1 >= |content| {
            return false, end, skipped;
          }
          skipped := skipped + 1;
          end := end + 1;
        }
        end := end + 1;
      }
      ok := end < |content|;
    }

    /** One round of the decoding loop of parse_string: what it writes at `at` and how far it reads. */
    method DecodeItem(i: nat, end: nat, output: array<char>, at: nat) returns (sequence: nat, written: nat)
      requires Valid() && i < end < |content|
      requires at < output.Length
      requires DecodeOne(content, i, end).Some? ==> at + |DecodeOne(content, i, end).value.0| <= output.Length
      modifies output
      ensures sequence == 0 <==> DecodeOne(content, i, end).None?
      ensures sequence > 0 ==>
                written == |DecodeOne(content, i, end).value.0| && sequence == DecodeOne(content, i, end).value.1
      ensures sequence > 0 ==> output[..at + written] == old(output[..at]) + DecodeOne(content, i, end).value.0
    {
      ghost var before := output[..at];
      var c := content[i];
      sequence, written := 1, 1;
      if c == '\\' {
        sequence := 2;
        match content[i + 1]
        case 'b' => c := 8 as char;
        case 'f' => c := 12 as char;
        case 'n' => c := '\n';
        case 'r' => c := '\r';
        case 't' => c := '\t';
        case 'u' =>
          var literal := Utf16(content, i, end);
          if literal.None? {
            return 0, 0;
          }
          written := EncodeUtf8(literal.value.0, output, at);
          return literal.value.1, written;
        case e =>
          if e != '\"' && e != '\\' && e != '/' {
            return 0, 0;
          }
          c := e;
      }
      output[at] := c;
      assert output[..at + 1] == before + [c];
    }

    /** The decoding loop of parse_string, into memory with a byte to spare for the terminator. */
    method DecodeString(start: nat, end: nat, output: array<char>) returns (ok: bool, p: nat, w: nat)
      requires Valid() && end < |content| && Scans(content, start, end)
      requires Budget(content, start, end, true) < output.Length
      modifies output
      ensures ok <==> Decode(content, start, end).Some?
      ensures ok ==> w < output.Length && output[..w] == Decode(content, start, end).value
      ensures start <= p <= end + 1
    {
      p, w := start, 0;
      ghost var aligned := true;
      ContinueStart(content, start, end);
      ghost var done: seq<char> := [];
      BudgetNonNegative(content, start, end);
      while p < end
        invariant start <= p <= end + 1 && w < output.Length
        invariant p <= end ==>
                    Standing(content, p, end, aligned) && w + Budget(content, p, end, aligned) < output.Length
        invariant Continues(content, start, p, end, done) && output[..w] == done
        decreases end - p
      {
        if DecodeOne(content, p, end).Some? {
          aligned := OneItem(content, p, end, aligned);
        }
        var sequence, written := DecodeItem(p, end, output, w);
        if sequence == 0 {
          return false, p, w;
        }
        done := ContinueStep(content, start, p, end, done);
        p, w := p + sequence, w + written;
      }
      ok := true;
    }

    /** parse_string: the memory for the decoded string is what the scanning loop computed. */
    method ParseStringItem() returns (ok: bool, s: CStr)
      requires Valid()
      modifies this`offset
      ensures ok <==> ParseString(content, old(offset)).Some?
      ensures ok ==> Valid() && (s, offset) == ParseString(content, old(offset)).value
      ensures offset <= |content|
    {
      var start := offset + 1;
      if content[offset] != '\"' {
        offset := start;
        return false, [];
      }
      var end, skipped;
      ok, end, skipped := ScanString(start);
      if !ok {
        offset := start;
        return false, [];
      }
      BudgetNonNegative(content, start, end);
      var allocation := end - offset - skipped;
      var output := new char[allocation + 1];
      var p, w;
      ok, p, w := DecodeString(start, end, output);
      if !ok {
        offset := p;
        return false, [];
      }
      output[w] := '\0';
      ghost var tail := output[w + 1..];
      assert output[..] == output[..w] + ['\0'] + tail;
      CStringOfTerminated(output[..w], tail);
      s := CStringOf(output[..]);
      offset := end + 1;
    }

    /** The copying loop of parse_number, into its buffer of 64 bytes. */
    method CopyNumber() returns (text: array<char>)
      requires Valid()
      ensures fresh(text) && text.Length == 64
      ensures CStringOf(text[..]) == NumericPrefix(content, offset, 63)
    {
      ghost var whole := NumericPrefix(content, offset, 63);
      text := new char[64];
      var i := 0;
      while i < 63 && offset + i < |content| && IsNumeric(content[offset + i])
        invariant 0 <= i <= 63 && offset + i <= |content|
        invariant text[..i] + NumericPrefix(content, offset + i, 63 - i) == whole
      {
        ghost var done := text[..i];
        text[i] := content[offset + i];
        assert text[..i + 1] == done + [content[offset + i]];
        Regroup(done, [content[offset + i]], NumericPrefix(content, offset + i + 1, 62 - i));
        i := i + 1;
      }
      text[i] := '\0';
      ghost var tail := text[i + 1..];
      assert text[..] == text[..i] + ['\0'] + tail;
      CStringOfTerminated(text[..i], tail);
      assert text[..i] == whole;
      CStringOfPlain(whole);
    }

    /** parse_number */
    method ParseNumberItem() returns (ok: bool, v: JSON)
      requires Valid()
      modifies this`offset
      ensures ok <==> ParseNumber(content, old(offset)).Some?
      ensures ok ==> Valid() && (v, offset) == ParseNumber(content, old(offset)).value
      ensures !ok ==> offset == old(offset)
    {
      var text := CopyNumber();
      var number := Strtod(CStringOf(text[..]));
      if number.None? {
        return false, Invalid;
      }
      offset := offset + number.value.1;
      return true, Number(number.value.0);
    }

    /** parse_value */
    method ParseItem() returns (ok: bool, v: JSON)
      requires Valid()
      modifies this
      ensures ok <==> ParseValue(content, old(offset), old(depth)).Some?
      ensures ok ==> Valid() && (v, offset) == ParseValue(content, old(offset), old(depth)).value && depth == old(depth)
      ensures offset <= |content| && depth <= NESTING_LIMIT
      decreases |content| - offset, 2
    {
      LooksInside(content, offset, Text.NULL_TEXT);
      LooksInside(content, offset, Text.FALSE_TEXT);
      LooksInside(content, offset, Text.TRUE_TEXT);
      if LooksAt(content, offset, Text.NULL_TEXT) {
        offset := offset + 4;
        return true, Null;
      }
      if LooksAt(content, offset, Text.FALSE_TEXT) {
        offset := offset + 5;
        return true, False;
      }
      if LooksAt(content, offset, Text.TRUE_TEXT) {
        offset := offset + 4;
        return true, True;
      }
      match content[offset]
      case '\"' =>
        var s;
        ok, s := ParseStringItem();
        v := String(s);
      case '[' => ok, v := ParseArrayItem();
      case '{' => ok, v := ParseObjectItem();
      case c =>
        if c == '-' || IsDigit(c) {
          ok, v := ParseNumberItem();
        } else {
          ok, v := false, Invalid;
        }
    }

    /** parse_array */
    method ParseArrayItem() returns (ok: bool, v: JSON)
      requires Valid() && content[offset] == '['
      modifies this
      ensures ok <==> ParseArray(content, old(offset), old(depth)).Some?
      ensures ok ==> Valid() && (v, offset) == ParseArray(content, old(offset), old(depth)).value && depth == old(depth)
      ensures offset <= |content| && depth <= NESTING_LIMIT
      decreases |content| - offset, 1
    {
      if depth >= NESTING_LIMIT {
        return false, Invalid;
      }
      depth := depth + 1;
      offset := offset + 1;
      SkipWhitespace();
      var items: seq<JSON> := [];
      if content[offset] != ']' {
        ok, items := ParseElements(ParseItems(content, offset, depth));
        if !ok {
          return false, Invalid;
        }
      }
      depth := depth - 1;
      offset := offset + 1;
      return true, Array(items);
    }

    /** White space and a value. */
    method ParseNext() returns (ok: bool, v: JSON)
      requires Valid()
      modifies this
      ensures ok <==> ParseElement(content, old(offset), old(depth)).Some?
      ensures ok ==>
                Valid() && (v, offset) == ParseElement(content, old(offset), old(depth)).value && depth == old(depth)
      ensures offset <= |content| && depth <= NESTING_LIMIT
      decreases |content| - offset, 3
    {
      SkipWhitespace();
      ok, v := ParseItem();
    }

    /** One round of the loop, up to what follows the element. */
    method NextElement(ghost goal: Option<(seq<JSON>, nat)>, ghost done: seq<JSON>) returns (ok: bool, item: JSON)
      requires Valid() && ItemsContinue(goal, content, offset, depth, done)
      modifies this
      ensures !ok ==> goal.None? && offset <= |content| && depth <= NESTING_LIMIT
      ensures ok ==> Valid() && old(offset) < offset && depth == old(depth)
      ensures ok && content[offset] == ',' ==>
                offset + 1 < |content| && ItemsContinue(goal, content, offset + 1, depth, done + [item])
      ensures ok && content[offset] != ',' ==>
                goal == if content[offset] == ']' then Some((done + [item], offset + 1)) else None
      decreases |content| - offset, 4
    {
      ghost var from := offset;
      ok, item := ParseNext();
      if ok {
        ItemsStep(goal, content, from, depth, done, item, offset);
        SkipWhitespace();
      }
    }

    /** The loop of parse_array, up to the closing bracket. */
    method ParseElements(ghost goal: Option<(seq<JSON>, nat)>) returns (ok: bool, items: seq<JSON>)
      requires Valid() && goal == ParseItems(content, offset, depth)
      modifies this
      ensures ok <==> goal.Some?
      ensures ok ==> Valid() && (items, offset + 1) == goal.value && depth == old(depth)
      ensures ok ==> offset + 1 < |content|
      ensures offset <= |content| && depth <= NESTING_LIMIT
      decreases |content| - offset, 5
    {
      assert goal.Some? ==> [] + goal.value.0 == goal.value.0;
      items := [];
      while true
        invariant Valid() && old(offset) <= offset && depth == old(depth)
        invariant ItemsContinue(goal, content, offset, depth, items)
        decreases |content| - offset
      {
        var item;
        ok, item := NextElement(goal, items);
        if !ok {
          return false, [];
        }
        items := items + [item];
        if content[offset] != ',' {
          return content[offset] == ']', items;
        }
        offset := offset + 1;
      }
    }

    /** parse_object */
    method ParseObjectItem() returns (ok: bool, v: JSON)
      requires Valid() && content[offset] == '{'
      modifies this
      ensures ok <==> ParseObject(content, old(offset), old(depth)).Some?
      ensures ok ==>
                Valid() && (v, offset) == ParseObject(content, old(offset), old(depth)).value && depth == old(depth)
      ensures offset <= |content| && depth <= NESTING_LIMIT
      decreases |content| - offset, 1
    {
      if depth >= NESTING_LIMIT {
        return false, Invalid;
      }
      depth := depth + 1;
      offset := offset + 1;
      SkipWhitespace();
      var members: seq<Member> := [];
      if content[offset] != '}' {
        ok, members := ParseFields(ParseMembers(content, offset, depth));
        if !ok {
          return false, Invalid;
        }
      }
      depth := depth - 1;
      offset := offset + 1;
      return true, Object(members);
    }

    /** A name, a colon and a value. */
    method ParseNamedItem() returns (ok: bool, m: Member)
      requires Valid()
      modifies this
      ensures ok <==> ParseQuoted(content, old(offset), old(depth)).Some?
      ensures ok ==>
                Valid() && (m, offset) == ParseQuoted(content, old(offset), old(depth)).value && depth == old(depth)
      ensures offset <= |content| && depth <= NESTING_LIMIT
      decreases |content| - offset, 4
    {
      var key, value;
      ok, key := ParseStringItem();
      if !ok {
        return false, Member([], Invalid);
      }
      SkipWhitespace();
      if content[offset] != ':' {
        return false, Member([], Invalid);
      }
      offset := offset + 1;
      ok, value := ParseNext();
      m := Member(key, value);
    }

    /** White space and a member. */
    method ParseField() returns (ok: bool, m: Member)
      requires Valid()
      modifies this
      ensures ok <==> ParseMember(content, old(offset), old(depth)).Some?
      ensures ok ==>
                Valid() && (m, offset) == ParseMember(content, old(offset), old(depth)).value && depth == old(depth)
      ensures offset <= |content| && depth <= NESTING_LIMIT
      decreases |content| - offset, 5
    {
      SkipWhitespace();
      ok, m := ParseNamedItem();
    }

    /** One round of the loop, up to what follows the member. */
    method NextField(ghost goal: Option<(seq<Member>, nat)>, ghost done: seq<Member>) returns (ok: bool, m: Member)
      requires Valid() && MembersContinue(goal, content, offset, depth, done)
      modifies this
      ensures !ok ==> goal.None? && offset <= |content| && depth <= NESTING_LIMIT
      ensures ok ==> Valid() && old(offset) < offset && depth == old(depth)
      ensures ok && content[offset] == ',' ==>
                offset + 1 < |content| && MembersContinue(goal, content, offset + 1, depth, done + [m])
      ensures ok && content[offset] != ',' ==>
                goal == if content[offset] == '}' then Some((done + [m], offset + 1)) else None
      decreases |content| - offset, 6
    {
      ghost var from := offset;
      ok, m := ParseField();
      if ok {
        MembersStep(goal, content, from, depth, done, m, offset);
        SkipWhitespace();
      }
    }

    /** The loop of parse_object, up to the closing brace. */
    method ParseFields(ghost goal: Option<(seq<Member>, nat)>) returns (ok: bool, members: seq<Member>)
      requires Valid() && goal == ParseMembers(content, offset, depth)
      modifies this
      ensures ok <==> goal.Some?
      ensures ok ==> Valid() && (members, offset + 1) == goal.value && depth == old(depth)
      ensures ok ==> offset + 1 < |content|
      ensures offset <= |content| && depth <= NESTING_LIMIT
      decreases |content| - offset, 7
    {
      assert goal.Some? ==> [] + goal.value.0 == goal.value.0;
      members := [];
      while true
        invariant Valid() && old(offset) <= offset && depth == old(depth)
        invariant MembersContinue(goal, content, offset, depth, members)
        decreases |content| - offset
      {
        var m;
        ok, m := NextField(goal, members);
        if !ok {
          return false, [];
        }
        members := members + [m];
        if content[offset] != ',' {
          return content[offset] == '}', members;
        }
        offset := offset + 1;
      }
    }
  }

  /** cJSON_ParseWithOpts, with the position *return_parse_end gets. */
  method ParseWithOpts(text: CStr, requireEnd: bool) returns (r: Option<JSON>, parseEnd: nat)
    ensures r == ParseText(text, requireEnd)
    ensures parseEnd <= |text|
  {
    var buffer := new ParseBuffer(text);
    buffer.offset := AfterBom(buffer.content);
    buffer.SkipWhitespace();
    var ok, v := buffer.ParseItem();
    if ok && requireEnd {
      buffer.SkipWhitespace();
      ok := buffer.content[buffer.offset] == '\0';
    }
    r := if ok then Some(v) else None;
    parseEnd := if buffer.offset < |buffer.content| then buffer.offset else |buffer.content| - 1;
  }

  /** The elements that make up the goal are `done` and then those from p on. */
  ghost predicate ItemsContinue(goal: Option<(seq<JSON>, nat)>, c: seq<char>, p: nat, depth: nat, done: seq<JSON>)
    requires Terminated(c) && p < |c| && depth <= NESTING_LIMIT
  {
    goal == match ParseItems(c, p, depth) case None => None case Some((rest, e)) => Some((done + rest, e))
  }

  /** What a round of the loop makes of them, given what it found. */
  lemma ItemsStep(goal: Option<(seq<JSON>, nat)>, c: seq<char>, p: nat, depth: nat, done: seq<JSON>, v: JSON, e: nat)
    requires Terminated(c) && p < |c| && depth <= NESTING_LIMIT
    requires ItemsContinue(goal, c, p, depth, done)
    requires ParseElement(c, p, depth) == Some((v, e))
    ensures var q := SkipSpace(c, e);
            if c[q] == ',' then q + 1 < |c| && ItemsContinue(goal, c, q + 1, depth, done + [v])
            else goal == if c[q] == ']' then Some((done + [v], q + 1)) else None
  {
    var q := SkipSpace(c, e);
    if c[q] == ',' {
      var rest := ParseItems(c, q + 1, depth);
      if rest.Some? {
        assert done + ([v] + rest.value.0) == done + [v] + rest.value.0;
      }
    }
  }

  /** The members that make up the goal are `done` and then those from p on. */
  ghost predicate MembersContinue(goal: Option<(seq<Member>, nat)>, c: seq<char>, p: nat, depth: nat, done: seq<Member>)
    requires Terminated(c) && p < |c| && depth <= NESTING_LIMIT
  {
    goal == match ParseMembers(c, p, depth) case None => None case Some((rest, e)) => Some((done + rest, e))
  }

  /** What a round of the loop makes of them, given what it found. */
  lemma MembersStep(goal: Option<(seq<Member>, nat)>, c: seq<char>, p: nat, depth: nat, done: seq<Member>, m: Member,
                    e: nat)
    requires Terminated(c) && p < |c| && depth <= NESTING_LIMIT
    requires MembersContinue(goal, c, p, depth, done)
    requires ParseMember(c, p, depth) == Some((m, e))
    ensures var q := SkipSpace(c, e);
            if c[q] == ',' then q + 1 < |c| && MembersContinue(goal, c, q + 1, depth, done + [m])
            else goal == if c[q] == '}' then Some((done + [m], q + 1)) else None
  {
    var q := SkipSpace(c, e);
    if c[q] == ',' {
      var rest := ParseMembers(c, q + 1, depth);
      if rest.Some? {
        assert done + ([m] + rest.value.0) == done + [m] + rest.value.0;
      }
    }
  }

  /** The string from start decodes to `done` and then whatever the part from p decodes to. */
  ghost predicate Continues(c: seq<char>, start: nat, p: nat, end: nat, done: seq<char>)
    requires end < |c|
  {
    Decode(c, start, end) == match Decode(c, p, end) case None => None case Some(rest) => Some(done + rest)
  }

  lemma ContinueStart(c: seq<char>, start: nat, end: nat)
    requires end < |c|
    ensures Continues(c, start, start, end, [])
  {
    var rest := Decode(c, start, end);
    if rest.Some? {
      assert [] + rest.value == rest.value;
    }
  }

  lemma ContinueStep(c: seq<char>, start: nat, p: nat, end: nat, done: seq<char>) returns (done': seq<char>)
    requires p < end < |c| && Continues(c, start, p, end, done) && DecodeOne(c, p, end).Some?
    ensures var (bytes, n) := DecodeOne(c, p, end).value;
            done' == done + bytes && Continues(c, start, p + n, end, done')
  {
    var (bytes, n) := DecodeOne(c, p, end).value;
    done' := done + bytes;
    var rest := Decode(c, p + n, end);
    if rest.Some? {
      assert done + (bytes + rest.value) == done + bytes + rest.value;
    }
  }
}
