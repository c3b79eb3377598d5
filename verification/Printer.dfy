/**
 The printer: text written into a buffer that grows on demand or is given by the caller.
 */
module Printer {
  import opened Wrappers
  import opened CStrings
  import opened Json
  import opened Text

  const INT_MAX := 0x7FFF_FFFF

  class PrintBuffer {
    var buffer: array<char>
    var offset: nat
    var depth: nat
    const noalloc: bool
    const format: Style

    /** The largest size the buffer may reach. */
    ghost function Cap(): int
      reads this
    {
      if noalloc then buffer.Length else INT_MAX
    }

    ghost predicate Valid()
      reads this
    {
      buffer.Length <= INT_MAX && (offset < buffer.Length || offset == 0)
    }

    /** The buffer starts with this text, and a NUL behind it. */
    ghost predicate Printed(text: seq<char>)
      reads this, buffer
    {
      |text| < buffer.Length && buffer[..|text|] == text && buffer[|text|] == '\0'
    }

    constructor (buffer: array<char>, noalloc: bool, format: Style)
      requires buffer.Length <= INT_MAX
      ensures Valid() && this.buffer == buffer && offset == 0 && depth == 0
      ensures this.noalloc == noalloc && this.format == format
    {
      this.buffer, offset, depth := buffer, 0, 0;
      this.noalloc, this.format := noalloc, format;
    }

    /** ensure: room for `needed` more bytes and one to spare, or failure. */
    method Ensure(needed: nat) returns (ok: bool)
      requires Valid()
      modifies this`buffer
      ensures Valid() && Cap() == old(Cap())
      ensures ok <==> offset + needed + 1 <= Cap()
      ensures ok ==> offset + needed + 1 <= buffer.Length
      ensures buffer == old(buffer) || (!noalloc && fresh(buffer))
      ensures ok ==> offset <= old(buffer).Length && buffer[..offset] == old(buffer[..offset])
    {
      if buffer.Length > 0 && offset >= buffer.Length {
        return false;
      }
      if needed > INT_MAX {
        return false;
      }
      var total := needed + offset + 1;
      if total <= buffer.Length {
        return true;
      }
      if noalloc {
        return false;
      }
      var newSize;
      if total > INT_MAX / 2 {
        if total <= INT_MAX {
          newSize := INT_MAX;
        } else {
          return false;
        }
      } else {
        newSize := total * 2;
      }
      var old' := buffer;
      var grown := new char[newSize](i requires 0 <= i reads old' => if i < old'.Length then old'[i] else '\0');
      buffer := grown;
      return true;
    }

    /** Copying bytes to the output pointer. */
    method Copy(at: nat, s: CStr)
      requires at + |s| <= buffer.Length
      modifies buffer
      ensures buffer[..at + |s|] == old(buffer[..at]) + s
      ensures buffer[at + |s|..] == old(buffer[at + |s|..])
    {
      ghost var before := buffer[..at];
      ghost var after := buffer[at + |s|..];
      for i := 0 to |s|
        invariant buffer[..at + i] == before + s[..i]
        invariant buffer[at + |s|..] == after
      {
        buffer[at + i] := s[i];
      }
      assert s[..|s|] == s;
    }

    /** strcpy: bytes and terminator. */
    method CopyString(at: nat, s: CStr)
      requires at + |s| < buffer.Length
      modifies buffer
      ensures buffer[..at + |s|] == old(buffer[..at]) + s && buffer[at + |s|] == '\0'
    {
      Copy(at, s);
      buffer[at + |s|] := '\0';
    }

    /** update_offset: move behind the text that was just written. */
    method UpdateOffset(ghost end: nat)
      requires offset <= end < buffer.Length && buffer[end] == '\0'
      requires forall i :: offset <= i < end ==> buffer[i] != '\0'
      modifies this`offset
      ensures offset == end
    {
      var length := 0;
      while buffer[offset + length] != '\0'
        invariant offset + length <= end
        decreases end - length
      {
        length := length + 1;
      }
      offset := offset + length;
    }

    /** The literals and raw items. */
    method PrintLiteral(s: CStr) returns (ok: bool)
      requires Valid()
      modifies this`buffer, buffer
      ensures Valid() && Cap() == old(Cap()) && (buffer == old(buffer) || (!noalloc && fresh(buffer)))
      ensures ok <==> offset + |s| + 2 <= Cap()
      ensures ok ==> Printed(old(buffer[..offset]) + s)
    {
      ok := Ensure(|s| + 1);
      if ok {
        CopyString(offset, s);
      }
    }

    /** print_number; it moves the offset itself. */
    method PrintNumber(x: real) returns (ok: bool)
      requires Valid()
      modifies this`buffer, this`offset, buffer
      ensures Cap() == old(Cap()) && (buffer == old(buffer) || (!noalloc && fresh(buffer)))
      ensures ok <==> |format.number(x)| <= NUMBER_ROOM && old(offset) + |format.number(x)| + 2 <= Cap()
      ensures ok ==>
                Valid() && offset == old(offset) + |format.number(x)|
                && Printed(old(buffer[..offset]) + format.number(x))
    {
      var number := format.number(x);
      if |number| > NUMBER_ROOM {
        return false;
      }
      ok := Ensure(|number| + 1);
      if ok {
        CopyString(offset, number);
        offset := offset + |number|;
      }
    }

    /** The first pass of print_string_ptr: how many bytes escaping adds. */
    static method CountEscapes(s: CStr) returns (extra: nat)
      ensures |s| + extra == |Escape(s)|
    {
      extra := 0;
      var i := 0;
      assert s[0..] == s;
      while i < |s|
        invariant i <= |s| && i + extra + |Escape(s[i..])| == |Escape(s)|
      {
        EscapeStep(s, i);
        if s[i] == '\"' || s[i] == '\\' || s[i] == BACKSPACE || s[i] == FORM_FEED
           || s[i] == '\n' || s[i] == '\r' || s[i] == '\t'
        {
          extra := extra + 1;
        } else if s[i] < ' ' {
          extra := extra + 5;
        }
        i := i + 1;
      }
    }

    /** One byte of the second pass; the sprintf of a \u escape writes a terminator too. */
    method WriteEscaped(at: nat, c: cchar)
      requires at + |EscapeChar(c)| < buffer.Length
      modifies buffer
      ensures buffer[..at + |EscapeChar(c)|] == old(buffer[..at]) + EscapeChar(c)
    {
      if c > 31 as char && c != '\"' && c != '\\' {
        buffer[at] := c;
      } else {
        buffer[at] := '\\';
        if c == '\\' {
          buffer[at + 1] := '\\';
        } else if c == '\"' {
          buffer[at + 1] := '\"';
        } else if c == BACKSPACE {
          buffer[at + 1] := 'b';
        } else if c == FORM_FEED {
          buffer[at + 1] := 'f';
        } else if c == '\n' {
          buffer[at + 1] := 'n';
        } else if c == '\r' {
          buffer[at + 1] := 'r';
        } else if c == '\t' {
          buffer[at + 1] := 't';
        } else {
          CopyString(at + 1, EscapeChar(c)[1..]);
        }
      }
    }

    /** print_string_ptr */
    method PrintString(s: CStr) returns (ok: bool)
      requires Valid()
      modifies this`buffer, buffer
      ensures Valid() && Cap() == old(Cap()) && (buffer == old(buffer) || (!noalloc && fresh(buffer)))
      ensures ok <==> offset + |Quote(s)| + 2 <= Cap()
      ensures ok ==> Printed(old(buffer[..offset]) + Quote(s))
    {
      var extra := CountEscapes(s);
      var length := |s| + extra;
      ok := Ensure(length + 3);
      if ok {
        FillString(s, extra);
      }
    }

    method FillString(s: CStr, extra: nat)
      requires |s| + extra == |Escape(s)| && offset + |Escape(s)| + 2 < buffer.Length
      modifies buffer
      ensures Printed(old(buffer[..offset]) + Quote(s))
    {
      ghost var base := buffer[..offset];
      buffer[offset] := '\"';
      assert buffer[..offset + 1] == base + QUOTE;
      var at := offset + 1;
      if extra == 0 {
        EscapeLength(s);
        Copy(at, s);
        at := at + |s|;
      } else {
        var i := 0;
        assert s[0..] == s;
        ghost var done: CStr := [];
        while i < |s|
          invariant i <= |s| && at == offset + 1 + |done| && done + Escape(s[i..]) == Escape(s)
          invariant buffer[..at] == base + QUOTE + done
        {
          EscapeStep(s, i);
          assert |done| + |EscapeChar(s[i])| <= |Escape(s)|;
          WriteEscaped(at, s[i]);
          Regroup(base + QUOTE, done, EscapeChar(s[i]));
          Regroup(done, EscapeChar(s[i]), Escape(s[i + 1..]));
          done := done + EscapeChar(s[i]);
          at := at + |EscapeChar(s[i])|;
          i := i + 1;
        }
        assert done == Escape(s);
      }
      assert buffer[..at] == base + QUOTE + Escape(s);
      buffer[at] := '\"';
      buffer[at + 1] := '\0';
      assert buffer[..at + 1] == base + QUOTE + Escape(s) + QUOTE;
      Regroup(base, QUOTE, Escape(s));
      Regroup(base, QUOTE + Escape(s), QUOTE);
    }

    /** Reserve, write and move on. */
    method Append(s: CStr, needed: nat) returns (ok: bool)
      requires Valid() && |s| <= needed
      modifies this`buffer, this`offset, buffer
      ensures Cap() == old(Cap()) && (buffer == old(buffer) || (!noalloc && fresh(buffer)))
      ensures ok <==> old(offset) + needed + 1 <= Cap()
      ensures ok ==> Valid() && Appended(old(buffer[..offset]), s)
    {
      ok := Ensure(needed);
      if ok {
        Copy(offset, s);
        offset := offset + |s|;
      }
    }

    /** What is in front of the offset. */
    ghost predicate Appended(base: seq<char>, s: seq<char>)
      reads this, buffer
    {
      offset == |base| + |s| && offset <= buffer.Length && buffer[..offset] == base + s
    }

    /** print_value followed by update_offset. */
    method PrintAndAdvance(v: JSON) returns (ok: bool)
      requires Valid()
      modifies this, buffer
      ensures Cap() == old(Cap()) && (buffer == old(buffer) || (!noalloc && fresh(buffer)))
      ensures ok <==> Printable(v, format) && old(offset) + |Print(v, format, old(depth))| + 2 <= Cap()
      ensures ok ==> Valid() && depth == old(depth) && Appended(old(buffer[..offset]), Print(v, format, depth))
      decreases v, 1
    {
      ghost var base := buffer[..offset];
      ghost var text := Print(v, format, depth);
      ok := PrintValue(v);
      if ok {
        assert forall i :: |base| <= i < |base| + |text| ==> buffer[i] == (base + text)[i] == text[i - |base|];
        UpdateOffset(|base| + |text|);
      }
    }

    /** print_value: it succeeds exactly if no item is invalid and the text and two more bytes fit. */
    method PrintValue(v: JSON) returns (ok: bool)
      requires Valid()
      modifies this, buffer
      ensures Cap() == old(Cap()) && (buffer == old(buffer) || (!noalloc && fresh(buffer)))
      ensures ok <==> Printable(v, format) && old(offset) + |Print(v, format, old(depth))| + 2 <= Cap()
      ensures ok ==> Valid() && depth == old(depth) && Printed(old(buffer[..offset]) + Print(v, format, depth))
      ensures ok ==> old(offset) <= offset <= old(offset) + |Print(v, format, depth)|
      decreases v, 0
    {
      match v
      case Invalid => ok := false;
      case False => ok := PrintLiteral(FALSE_TEXT);
      case True => ok := PrintLiteral(TRUE_TEXT);
      case Null => ok := PrintLiteral(NULL_TEXT);
      case Number(x) => ok := PrintNumber(x);
      case String(s) => ok := PrintString(s);
      case Raw(s) => ok := PrintLiteral(s);
      case Array(items) => ok := PrintArray(items);
      case Object(ms) => ok := PrintObject(ms);
    }

    /** print_array */
    method PrintArray(items: seq<JSON>) returns (ok: bool)
      requires Valid()
      modifies this, buffer
      ensures Cap() == old(Cap()) && (buffer == old(buffer) || (!noalloc && fresh(buffer)))
      ensures ok <==>
              Printable(Array(items), format) && old(offset) + |Print(Array(items), format, old(depth))| + 2 <= Cap()
      ensures ok ==>
                Valid() && depth == old(depth) && Printed(old(buffer[..offset]) + Print(Array(items), format, depth))
      ensures ok ==> old(offset) <= offset <= old(offset) + |Print(Array(items), format, depth)|
      decreases items
    {
      ghost var base, inner := buffer[..offset], ['['] + PrintItems(items, format, depth + 1);
      ok := PrintOpened(items);
      if !ok {
        return;
      }
      Regroup(base, inner, [']']);
      ok := PrintLiteral([']']);
      depth := depth - 1;
    }

    /** The opening bracket and the elements. */
    method PrintOpened(items: seq<JSON>) returns (ok: bool)
      requires Valid()
      modifies this, buffer
      ensures Cap() == old(Cap()) && (buffer == old(buffer) || (!noalloc && fresh(buffer)))
      ensures !ok ==>
                !Printable(Array(items), format)
                || old(offset) + 1 + |PrintItems(items, format, old(depth) + 1)| + 2 > Cap()
      ensures ok ==> Printable(Array(items), format) && Valid() && depth == old(depth) + 1
      ensures ok ==> Appended(old(buffer[..offset]), ['['] + PrintItems(items, format, depth))
      decreases items, 2
    {
      ghost var base := buffer[..offset];
      ok := Append(['['], 1);
      if !ok {
        return;
      }
      depth := depth + 1;
      Regroup(base, ['['], PrintItems(items, format, depth));
      ok := PrintElements(items);
    }

    /** The element loop of print_array. */
    method PrintElements(items: seq<JSON>) returns (ok: bool)
      requires Valid()
      modifies this, buffer
      ensures Cap() == old(Cap()) && (buffer == old(buffer) || (!noalloc && fresh(buffer)))
      ensures !ok ==>
                !Printable(Array(items), format) || old(offset) + |PrintItems(items, format, old(depth))| + 2 > Cap()
      ensures ok ==> Printable(Array(items), format)
      ensures ok ==> Valid() && depth == old(depth) && Appended(old(buffer[..offset]), PrintItems(items, format, depth))
      decreases items, 0
    {
      ghost var base, d := buffer[..offset], depth;
      ghost var done: CStr := [];
      var i := 0;
      assert items[0..] == items;
      while i < |items|
        invariant 0 <= i <= |items| && depth == d && Valid()
        invariant Cap() == old(Cap()) && (buffer == old(buffer) || (!noalloc && fresh(buffer)))
        invariant done + PrintItems(items[i..], format, d) == PrintItems(items, format, d)
        invariant forall j :: 0 <= j < i ==> Printable(items[j], format)
        invariant Appended(base, done)
      {
        ItemsStep(items, i, format, d);
        ghost var text := PrintItem(items[i], format, d, i + 1 == |items|);
        ok := PrintElement(items[i], i + 1 == |items|);
        if !ok {
          return;
        }
        Regroup(base, done, text);
        Regroup(done, text, PrintItems(items[i + 1..], format, d));
        done := done + text;
        i := i + 1;
      }
      return true;
    }

    /** The body of the element loop: value and comma. */
    method PrintElement(v: JSON, last: bool) returns (ok: bool)
      requires Valid()
      modifies this, buffer
      ensures Cap() == old(Cap()) && (buffer == old(buffer) || (!noalloc && fresh(buffer)))
      ensures !ok ==> !Printable(v, format) || old(offset) + |PrintItem(v, format, old(depth), last)| + 2 > Cap()
      ensures ok ==> Printable(v, format)
      ensures ok ==>
                Valid() && depth == old(depth) && Appended(old(buffer[..offset]), PrintItem(v, format, depth, last))
      decreases v, 2
    {
      ghost var base, text := buffer[..offset], Print(v, format, depth);
      ok := PrintAndAdvance(v);
      if ok && !last {
        ok := Append(Comma(format), |Comma(format)| + 1);
      }
      Regroup(base, text, Separator(format, last));
    }

    /** print_object */
    method PrintObject(ms: seq<Member>) returns (ok: bool)
      requires Valid()
      modifies this, buffer
      ensures Cap() == old(Cap()) && (buffer == old(buffer) || (!noalloc && fresh(buffer)))
      ensures ok <==>
              Printable(Object(ms), format) && old(offset) + |Print(Object(ms), format, old(depth))| + 2 <= Cap()
      ensures ok ==> Valid() && depth == old(depth) && Printed(old(buffer[..offset]) + Print(Object(ms), format, depth))
      ensures ok ==> old(offset) <= offset <= old(offset) + |Print(Object(ms), format, depth)|
      decreases ms
    {
      ghost var base, inner := buffer[..offset], Open(format) + PrintMembers(ms, format, depth + 1);
      ok := PrintOpenedObject(ms);
      if !ok {
        return;
      }
      depth := depth - 1;
      Regroup(base, inner, Close(format, depth));
      ok := PrintLiteral(Close(format, depth));
    }

    /** The opening brace and the members. */
    method PrintOpenedObject(ms: seq<Member>) returns (ok: bool)
      requires Valid()
      modifies this, buffer
      ensures Cap() == old(Cap()) && (buffer == old(buffer) || (!noalloc && fresh(buffer)))
      ensures !ok ==>
                !Printable(Object(ms), format)
                || old(offset) + |Open(format)| + |PrintMembers(ms, format, old(depth) + 1)| + 2 > Cap()
      ensures ok ==> Printable(Object(ms), format) && Valid() && depth == old(depth) + 1
      ensures ok ==> Appended(old(buffer[..offset]), Open(format) + PrintMembers(ms, format, depth))
      decreases ms, 2
    {
      ghost var base := buffer[..offset];
      ok := Append(Open(format), |Open(format)| + 1);
      if !ok {
        return;
      }
      depth := depth + 1;
      Regroup(base, Open(format), PrintMembers(ms, format, depth));
      ok := PrintEachMember(ms);
    }

    /** The member loop of print_object. */
    method PrintEachMember(ms: seq<Member>) returns (ok: bool)
      requires Valid()
      modifies this, buffer
      ensures Cap() == old(Cap()) && (buffer == old(buffer) || (!noalloc && fresh(buffer)))
      ensures !ok ==> !Printable(Object(ms), format) || old(offset) + |PrintMembers(ms, format, old(depth))| + 2 > Cap()
      ensures ok ==> Printable(Object(ms), format)
      ensures ok ==> Valid() && depth == old(depth) && Appended(old(buffer[..offset]), PrintMembers(ms, format, depth))
      decreases ms, 0
    {
      ghost var base, d := buffer[..offset], depth;
      ghost var done: CStr := [];
      var i := 0;
      assert ms[0..] == ms;
      while i < |ms|
        invariant 0 <= i <= |ms| && depth == d && Valid()
        invariant Cap() == old(Cap()) && (buffer == old(buffer) || (!noalloc && fresh(buffer)))
        invariant done + PrintMembers(ms[i..], format, d) == PrintMembers(ms, format, d)
        invariant forall j :: 0 <= j < i ==> Printable(ms[j].value, format)
        invariant Appended(base, done)
      {
        MembersStep(ms, i, format, d);
        ghost var text := PrintMember(ms[i], format, d, i + 1 == |ms|);
        ok := PrintOneMember(ms[i], i + 1 == |ms|);
        if !ok {
          return;
        }
        Regroup(base, done, text);
        Regroup(done, text, PrintMembers(ms[i + 1..], format, d));
        done := done + text;
        i := i + 1;
      }
      return true;
    }

    /** The body of the member loop: indentation, key, colon, value, comma and line end. */
    method PrintOneMember(m: Member, last: bool) returns (ok: bool)
      requires Valid()
      modifies this, buffer
      ensures Cap() == old(Cap()) && (buffer == old(buffer) || (!noalloc && fresh(buffer)))
      ensures !ok ==>
                !Printable(m.value, format) || old(offset) + |PrintMember(m, format, old(depth), last)| + 2 > Cap()
      ensures ok ==> Printable(m.value, format)
      ensures ok ==>
                Valid() && depth == old(depth) && Appended(old(buffer[..offset]), PrintMember(m, format, depth, last))
      decreases m
    {
      ghost var base, start := buffer[..offset], MemberStart(m.key, format, depth);
      ghost var value := Print(m.value, format, depth);
      MemberTextStarts(m, format, depth);
      ok := PrintMemberStart(m.key);
      if !ok {
        return;
      }
      ok := PrintAndAdvance(m.value);
      if !ok {
        return;
      }
      Regroup(base, start, value);
      var end := MemberEnd(format, last);
      ok := Append(end, |end| + 1);
      Regroup(base, start + value, end);
    }

    /** Indentation, key and colon. */
    method PrintMemberStart(key: CStr) returns (ok: bool)
      requires Valid()
      modifies this`buffer, this`offset, buffer
      ensures Cap() == old(Cap()) && (buffer == old(buffer) || (!noalloc && fresh(buffer)))
      ensures !ok ==> old(offset) + |MemberStart(key, format, depth)| + 2 > Cap()
      ensures ok ==> Valid() && Appended(old(buffer[..offset]), MemberStart(key, format, depth))
    {
      ghost var base, indent, quoted := buffer[..offset], Indent(format, depth), Quote(key);
      Regroup(indent, quoted, Colon(format));
      if format.formatted {
        ok := Append(Tabs(depth), depth);
        if !ok {
          return;
        }
      }
      assert Appended(base, indent);
      ok := PrintName(key);
      if !ok {
        return;
      }
      Regroup(base, indent, quoted);
      ok := Append(Colon(format), |Colon(format)|);
      Regroup(base, indent + quoted, Colon(format));
    }

    /** print_string_ptr followed by update_offset. */
    method PrintName(key: CStr) returns (ok: bool)
      requires Valid()
      modifies this`buffer, this`offset, buffer
      ensures Cap() == old(Cap()) && (buffer == old(buffer) || (!noalloc && fresh(buffer)))
      ensures ok <==> old(offset) + |Quote(key)| + 2 <= Cap()
      ensures ok ==> Valid() && Appended(old(buffer[..offset]), Quote(key))
    {
      ghost var base, text := buffer[..offset], Quote(key);
      ok := PrintString(key);
      if ok {
        assert forall i :: |base| <= i < |base| + |text| ==> buffer[i] == (base + text)[i] == text[i - |base|];
        UpdateOffset(|base| + |text|);
      }
    }
  }

  /** cJSON_Print and cJSON_PrintUnformatted: the text, if its size with two spare bytes is an int. */
  method PrintToText(v: JSON, format: Style) returns (text: Option<CStr>)
    ensures text.Some? <==> Printable(v, format) && |Print(v, format, 0)| + 2 <= INT_MAX
    ensures text.Some? ==> text.value == Print(v, format, 0)
  {
    var memory := new char[256];
    var p := new PrintBuffer(memory, false, format);
    assert p.buffer[..0] == [];
    var ok := p.PrintAndAdvance(v);
    if !ok {
      return None;
    }
    ghost var base: seq<char> := [];
    assert base + Print(v, format, 0) == Print(v, format, 0);
    assert p.buffer[..p.offset] == Print(v, format, 0);
    text := Some(p.buffer[..p.offset]);
  }

  /**
   cJSON_PrintPreallocated: it succeeds exactly if the buffer has two bytes more than the text,
   which is less than the five spare bytes its header asks for.
   */
  method PrintPreallocated(v: JSON, memory: array<char>, format: Style) returns (ok: bool)
    requires memory.Length <= INT_MAX
    modifies memory
    ensures ok <==> Printable(v, format) && |Print(v, format, 0)| + 2 <= memory.Length
    ensures ok ==> memory[..|Print(v, format, 0)|] == Print(v, format, 0) && memory[|Print(v, format, 0)|] == '\0'
  {
    var p := new PrintBuffer(memory, true, format);
    assert p.buffer[..0] == [];
    ok := p.PrintValue(v);
    ghost var base: seq<char> := [];
    assert base + Print(v, format, 0) == Print(v, format, 0);
  }
}
