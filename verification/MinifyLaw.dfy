/**
 Minifying links the two printers: what is left of the formatted text is the compact text.
 */
module MinifyLaw {
  import opened Wrappers
  import opened CStrings
  import opened Json
  import opened Text
  import opened Parsing
  import opened Tokens
  import opened Minify

  /** Numbers are written in the number alphabet. */
  ghost predicate NumericTexts(v: JSON, fmt: Style)
    decreases v
  {
    match v
    case Number(x) => forall i :: 0 <= i < |fmt.number(x)| ==> IsNumeric(fmt.number(x)[i])
    case Array(items) => forall i :: 0 <= i < |items| ==> NumericTexts(items[i], fmt)
    case Object(ms) => forall i :: 0 <= i < |ms| ==> NumericTexts(ms[i].value, fmt)
    case _ => true
  }

  /** The text at o leaves `out`, and minifying goes on right behind it. */
  ghost predicate Shrinks(c: seq<char>, o: nat, text: CStr, out: CStr) {
    Terminated(c) && o + |text| < |c| && Minified(c, o) == Put(out, Minified(c, o + |text|))
  }

  lemma {:induction false} ShrinkTwo(c: seq<char>, o: nat, a: CStr, b: CStr, x: CStr, y: CStr)
    requires Shrinks(c, o, a, x) && Shrinks(c, o + |a|, b, y)
    ensures Shrinks(c, o, a + b, x + y)
  {
    var end := o + |a| + |b|;
    assert o + |a + b| == end;
    var rest := Minified(c, end);
    if rest.Some? {
      Regroup(x, y, rest.value);
    }
  }

  lemma {:induction false} ShrinkThree(c: seq<char>, o: nat, a: CStr, b: CStr, e: CStr, x: CStr, y: CStr, z: CStr)
    requires Shrinks(c, o, a, x) && Shrinks(c, o + |a|, b, y) && Shrinks(c, o + |a + b|, e, z)
    ensures Shrinks(c, o, a + b + e, x + y + z)
  {
    ShrinkTwo(c, o, a, b, x, y);
    ShrinkTwo(c, o, a + b, e, x + y, z);
  }

  lemma {:induction false} ShrinkNothing(c: seq<char>, o: nat)
    requires Terminated(c) && o < |c|
    ensures Shrinks(c, o, [], [])
  {
    PutNothing(Minified(c, o));
  }

  lemma {:induction false} ShrinkBlank(c: seq<char>, o: nat, w: CStr)
    requires Terminated(c) && o < |c| && LooksAt(c, o, w) && forall i :: 0 <= i < |w| ==> IsBlank(w[i])
    ensures Shrinks(c, o, w, [])
    decreases |w|
  {
    if w == [] {
      ShrinkNothing(c, o);
    } else {
      LooksByte(c, o, w, 0);
      assert w == [w[0]] + w[1..];
      LooksSplit(c, o, [w[0]], w[1..]);
      AtEnd(c, o);
      ShrinkBlank(c, o + 1, w[1..]);
    }
  }

  /** Characters that are kept as they are. */
  predicate IsKept(c: char) { c != '\0' && !IsBlank(c) && c != '/' && c != '\"' }

  lemma {:induction false} ShrinkKept(c: seq<char>, o: nat, w: CStr)
    requires Terminated(c) && o < |c| && LooksAt(c, o, w) && forall i :: 0 <= i < |w| ==> IsKept(w[i])
    ensures Shrinks(c, o, w, w)
    decreases |w|
  {
    if w == [] {
      ShrinkNothing(c, o);
    } else {
      LooksByte(c, o, w, 0);
      assert w == [w[0]] + w[1..];
      LooksSplit(c, o, [w[0]], w[1..]);
      AtEnd(c, o);
      assert Shrinks(c, o, [w[0]], [w[0]]);
      ShrinkKept(c, o + 1, w[1..]);
      ShrinkTwo(c, o, [w[0]], w[1..], [w[0]], w[1..]);
    }
  }

  lemma {:induction false} ShrinkLiteral(c: seq<char>, o: nat, s: CStr)
    requires Terminated(c) && o < |c| && LooksAt(c, o, Quote(s))
    ensures Shrinks(c, o, Quote(s), Quote(s))
  {
    LooksInside(c, o, Quote(s));
    ScanQuoted(c, o, s);
    ShrinkFrom(c, o, Quote(s));
  }

  lemma {:induction false} ShrinkFrom(c: seq<char>, o: nat, text: CStr)
    requires Terminated(c) && o + |text| < |c| && |text| >= 2 && LooksAt(c, o, text)
    requires c[o] == '\"' && ScanEnd(c, o + 1) == Some(o + |text| - 1)
    ensures Shrinks(c, o, text, text)
  {
    AtEnd(c, o);
    forall i | 0 <= i < |text| ensures c[o..o + |text|][i] == text[i] {
      LooksByte(c, o, text, i);
    }
    assert c[o..o + |text|] == text;
  }

  /** A piece of text with its own length: the length in front of a terminator. */
  lemma {:induction false} Room(c: seq<char>, o: nat, a: CStr, b: CStr)
    requires Terminated(c) && o < |c| && LooksAt(c, o, a + b)
    ensures LooksAt(c, o, a) && LooksAt(c, o + |a|, b) && o + |a| < |c|
  {
    LooksSplit(c, o, a, b);
    LooksEnds(c, o, a);
  }

  // ---------- the pieces of the printer ----------

  lemma {:induction false} ShrinkComma(c: seq<char>, o: nat, fmt: Style)
    requires Terminated(c) && o < |c| && LooksAt(c, o, Comma(fmt))
    ensures Shrinks(c, o, Comma(fmt), Comma(Compact(fmt)))
  {
    ShrinkMark(c, o, ',', if fmt.formatted then [' '] else [], Comma(fmt));
  }

  lemma {:induction false} ShrinkColon(c: seq<char>, o: nat, fmt: Style)
    requires Terminated(c) && o < |c| && LooksAt(c, o, Colon(fmt))
    ensures Shrinks(c, o, Colon(fmt), Colon(Compact(fmt)))
  {
    ShrinkMark(c, o, ':', if fmt.formatted then ['\t'] else [], Colon(fmt));
  }

  lemma {:induction false} ShrinkOpen(c: seq<char>, o: nat, fmt: Style)
    requires Terminated(c) && o < |c| && LooksAt(c, o, Open(fmt))
    ensures Shrinks(c, o, Open(fmt), Open(Compact(fmt)))
  {
    ShrinkMark(c, o, '{', if fmt.formatted then ['\n'] else [], Open(fmt));
  }

  /** A mark that is kept and white space behind it. */
  lemma {:induction false} ShrinkMark(c: seq<char>, o: nat, mark: cchar, w: CStr, text: CStr)
    requires Terminated(c) && o < |c| && text == [mark] + w && LooksAt(c, o, text)
    requires IsKept(mark) && forall i :: 0 <= i < |w| ==> IsBlank(w[i])
    ensures Shrinks(c, o, text, [mark])
  {
    Room(c, o, [mark], w);
    ShrinkKept(c, o, [mark]);
    ShrinkBlank(c, o + 1, w);
    ShrinkTwo(c, o, [mark], w, [mark], []);
    assert [mark] + [] == [mark];
  }

  lemma {:induction false} ShrinkIndented(c: seq<char>, o: nat, fmt: Style, d: nat, text: CStr, out: CStr)
    requires Terminated(c) && o < |c| && LooksAt(c, o, Indent(fmt, d)) && Shrinks(c, o + |Indent(fmt, d)|, text, out)
    ensures Shrinks(c, o, Indent(fmt, d) + text, out)
  {
    ShrinkBlank(c, o, Indent(fmt, d));
    ShrinkTwo(c, o, Indent(fmt, d), text, [], out);
    assert [] + out == out;
  }

  lemma {:induction false} ShrinkClose(c: seq<char>, o: nat, fmt: Style, d: nat)
    requires Terminated(c) && o < |c| && LooksAt(c, o, Close(fmt, d))
    ensures Shrinks(c, o, Close(fmt, d), Close(Compact(fmt), d))
  {
    Room(c, o, Indent(fmt, d), ['}']);
    ShrinkKept(c, o + |Indent(fmt, d)|, ['}']);
    ShrinkIndented(c, o, fmt, d, ['}'], ['}']);
    assert Close(Compact(fmt), d) == ['}'];
  }

  lemma {:induction false} ShrinkSeparator(c: seq<char>, o: nat, fmt: Style, last: bool)
    requires Terminated(c) && o < |c| && LooksAt(c, o, Separator(fmt, last))
    ensures Shrinks(c, o, Separator(fmt, last), Separator(Compact(fmt), last))
  {
    if last {
      ShrinkNothing(c, o);
    } else {
      ShrinkComma(c, o, fmt);
    }
  }

  lemma {:induction false} ShrinkMemberEnd(c: seq<char>, o: nat, fmt: Style, last: bool)
    requires Terminated(c) && o < |c| && LooksAt(c, o, MemberEnd(fmt, last))
    ensures Shrinks(c, o, MemberEnd(fmt, last), MemberEnd(Compact(fmt), last))
  {
    var w: CStr := if fmt.formatted then ['\n'] else [];
    if last {
      assert MemberEnd(fmt, last) == w && MemberEnd(Compact(fmt), last) == [];
      ShrinkBlank(c, o, w);
    } else {
      assert MemberEnd(Compact(fmt), last) == [','];
      ShrinkMark(c, o, ',', w, MemberEnd(fmt, last));
    }
  }

  lemma {:induction false} ShrinkName(c: seq<char>, o: nat, key: CStr, fmt: Style)
    requires Terminated(c) && o < |c| && LooksAt(c, o, NameText(key, fmt))
    ensures Shrinks(c, o, NameText(key, fmt), NameText(key, Compact(fmt)))
  {
    Room(c, o, Quote(key), Colon(fmt));
    ShrinkLiteral(c, o, key);
    ShrinkColon(c, o + |Quote(key)|, fmt);
    ShrinkTwo(c, o, Quote(key), Colon(fmt), Quote(key), Colon(Compact(fmt)));
  }

  // ---------- the printer ----------

  lemma {:induction false} ShrinkValue(c: seq<char>, o: nat, v: JSON, fmt: Style, d: nat)
    requires Terminated(c) && o < |c| && Plain(v) && NumericTexts(v, fmt) && LooksAt(c, o, Print(v, fmt, d))
    ensures Shrinks(c, o, Print(v, fmt, d), Print(v, Compact(fmt), d))
    decreases v, 0
  {
    match v {
      case Number(x) => ShrinkKept(c, o, fmt.number(x));
      case String(s) => ShrinkLiteral(c, o, s);
      case Array(items) => ShrinkArray(c, o, items, fmt, d + 1);
      case Object(ms) => ShrinkObject(c, o, ms, fmt, d);
      case _ => ShrinkKept(c, o, Print(v, fmt, d));
    }
  }

  lemma {:induction false} ShrinkArray(c: seq<char>, o: nat, items: seq<JSON>, fmt: Style, d: nat)
    requires Terminated(c) && o < |c|
             && (forall i :: 0 <= i < |items| ==> Plain(items[i]) && NumericTexts(items[i], fmt))
    requires LooksAt(c, o, ['['] + PrintItems(items, fmt, d) + [']'])
    ensures Shrinks(c, o, ['['] + PrintItems(items, fmt, d) + [']'], ['['] + PrintItems(items, Compact(fmt), d) + [']'])
    decreases items, 1
  {
    var inner, inner' := PrintItems(items, fmt, d), PrintItems(items, Compact(fmt), d);
    var open, close: CStr := ['['], [']'];
    Room(c, o, open + inner, close);
    Room(c, o, open, inner);
    ShrinkKept(c, o, open);
    ShrinkItems(c, o + |open|, items, fmt, d);
    ShrinkKept(c, o + |open + inner|, close);
    ShrinkThree(c, o, open, inner, close, open, inner', close);
  }

  lemma {:induction false} ShrinkItems(c: seq<char>, o: nat, items: seq<JSON>, fmt: Style, d: nat)
    requires Terminated(c) && o < |c|
             && (forall i :: 0 <= i < |items| ==> Plain(items[i]) && NumericTexts(items[i], fmt))
             && LooksAt(c, o, PrintItems(items, fmt, d))
    ensures Shrinks(c, o, PrintItems(items, fmt, d), PrintItems(items, Compact(fmt), d))
    decreases items, 0
  {
    if items == [] {
      ShrinkNothing(c, o);
    } else {
      var last := |items| == 1;
      var first, rest := PrintItem(items[0], fmt, d, last), PrintItems(items[1..], fmt, d);
      Room(c, o, first, rest);
      ShrinkItem(c, o, items[0], fmt, d, last);
      ShrinkItems(c, o + |first|, items[1..], fmt, d);
      ShrinkTwo(c, o, first, rest, PrintItem(items[0], Compact(fmt), d, last), PrintItems(items[1..], Compact(fmt), d));
    }
  }

  lemma {:induction false} ShrinkItem(c: seq<char>, o: nat, v: JSON, fmt: Style, d: nat, last: bool)
    requires Terminated(c) && o < |c| && Plain(v) && NumericTexts(v, fmt) && LooksAt(c, o, PrintItem(v, fmt, d, last))
    ensures Shrinks(c, o, PrintItem(v, fmt, d, last), PrintItem(v, Compact(fmt), d, last))
    decreases v, 1
  {
    var text := Print(v, fmt, d);
    Room(c, o, text, Separator(fmt, last));
    ShrinkValue(c, o, v, fmt, d);
    ShrinkSeparator(c, o + |text|, fmt, last);
    ShrinkTwo(c, o, text, Separator(fmt, last), Print(v, Compact(fmt), d), Separator(Compact(fmt), last));
  }

  lemma {:induction false} ShrinkObject(c: seq<char>, o: nat, ms: seq<Member>, fmt: Style, d: nat)
    requires Terminated(c) && o < |c|
             && (forall i :: 0 <= i < |ms| ==> Plain(ms[i].value) && NumericTexts(ms[i].value, fmt))
    requires LooksAt(c, o, Open(fmt) + PrintMembers(ms, fmt, d + 1) + Close(fmt, d))
    ensures Shrinks(c, o, Open(fmt) + PrintMembers(ms, fmt, d + 1) + Close(fmt, d),
                    Open(Compact(fmt)) + PrintMembers(ms, Compact(fmt), d + 1) + Close(Compact(fmt), d))
    decreases ms, 1
  {
    var open, inner, close := Open(fmt), PrintMembers(ms, fmt, d + 1), Close(fmt, d);
    var inner' := PrintMembers(ms, Compact(fmt), d + 1);
    Room(c, o, open + inner, close);
    Room(c, o, open, inner);
    ShrinkOpen(c, o, fmt);
    ShrinkMembers(c, o + |open|, ms, fmt, d + 1);
    ShrinkClose(c, o + |open + inner|, fmt, d);
    ShrinkThree(c, o, open, inner, close, Open(Compact(fmt)), inner', Close(Compact(fmt), d));
  }

  lemma {:induction false} ShrinkMembers(c: seq<char>, o: nat, ms: seq<Member>, fmt: Style, d: nat)
    requires Terminated(c) && o < |c|
             && (forall i :: 0 <= i < |ms| ==> Plain(ms[i].value) && NumericTexts(ms[i].value, fmt))
             && LooksAt(c, o, PrintMembers(ms, fmt, d))
    ensures Shrinks(c, o, PrintMembers(ms, fmt, d), PrintMembers(ms, Compact(fmt), d))
    decreases ms, 0
  {
    if ms == [] {
      ShrinkNothing(c, o);
    } else {
      var last := |ms| == 1;
      var first, rest := PrintMember(ms[0], fmt, d, last), PrintMembers(ms[1..], fmt, d);
      Room(c, o, first, rest);
      ShrinkMember(c, o, ms[0], fmt, d, last);
      ShrinkMembers(c, o + |first|, ms[1..], fmt, d);
      ShrinkTwo(c, o, first, rest, PrintMember(ms[0], Compact(fmt), d, last), PrintMembers(ms[1..], Compact(fmt), d));
    }
  }

  lemma {:induction false} ShrinkMember(c: seq<char>, o: nat, m: Member, fmt: Style, d: nat, last: bool)
    requires Terminated(c) && o < |c| && Plain(m.value) && NumericTexts(m.value, fmt)
             && LooksAt(c, o, PrintMember(m, fmt, d, last))
    ensures Shrinks(c, o, PrintMember(m, fmt, d, last), PrintMember(m, Compact(fmt), d, last))
    decreases m, 2
  {
    var text := MemberText(m, fmt, d);
    Room(c, o, text, MemberEnd(fmt, last));
    ShrinkMemberText(c, o, m, fmt, d);
    ShrinkMemberEnd(c, o + |text|, fmt, last);
    ShrinkTwo(c, o, text, MemberEnd(fmt, last), MemberText(m, Compact(fmt), d), MemberEnd(Compact(fmt), last));
  }

  lemma {:induction false} ShrinkMemberText(c: seq<char>, o: nat, m: Member, fmt: Style, d: nat)
    requires Terminated(c) && o < |c| && Plain(m.value) && NumericTexts(m.value, fmt)
             && LooksAt(c, o, MemberText(m, fmt, d))
    ensures Shrinks(c, o, MemberText(m, fmt, d), MemberText(m, Compact(fmt), d))
    decreases m, 1
  {
    Room(c, o, Indent(fmt, d), NamedText(m, fmt, d));
    ShrinkNamed(c, o + |Indent(fmt, d)|, m, fmt, d);
    ShrinkIndented(c, o, fmt, d, NamedText(m, fmt, d), NamedText(m, Compact(fmt), d));
    assert [] + NamedText(m, Compact(fmt), d) == NamedText(m, Compact(fmt), d);
  }

  lemma {:induction false} ShrinkNamed(c: seq<char>, o: nat, m: Member, fmt: Style, d: nat)
    requires Terminated(c) && o < |c| && Plain(m.value) && NumericTexts(m.value, fmt)
             && LooksAt(c, o, NamedText(m, fmt, d))
    ensures Shrinks(c, o, NamedText(m, fmt, d), NamedText(m, Compact(fmt), d))
    decreases m, 0
  {
    var name, text := NameText(m.key, fmt), Print(m.value, fmt, d);
    Room(c, o, name, text);
    ShrinkName(c, o, m.key, fmt);
    ShrinkValue(c, o + |name|, m.value, fmt, d);
    ShrinkTwo(c, o, name, text, NameText(m.key, Compact(fmt)), Print(m.value, Compact(fmt), d));
  }

  /** Minifying the formatted text, or the compact text, gives the compact text byte for byte. */
  lemma MinifyPrinted(v: JSON, fmt: Style)
    requires Plain(v) && NumericTexts(v, fmt)
    ensures Terminated(Print(v, fmt, 0) + ['\0'])
            && Minified(Print(v, fmt, 0) + ['\0'], 0) == Some(Print(v, Compact(fmt), 0))
  {
    var text := Print(v, fmt, 0);
    var c := text + ['\0'];
    assert Terminated(c);
    assert LooksAt(c, 0, text);
    ShrinkValue(c, 0, v, fmt, 0);
    assert Minified(c, |text|) == Some([]);
    assert Print(v, Compact(fmt), 0) + [] == Print(v, Compact(fmt), 0);
  }
}
