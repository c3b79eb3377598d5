/**
 The formatted text is the compact text laid out: a reader that knows nothing of items, only brackets, commas, colons
 and string literals, puts in the line ends, tabs and blanks.
 */
module Layout {
  import opened Wrappers
  import opened CStrings
  import opened Json
  import opened Text
  import MinifyLaw

  // ---------- laying out a text ----------

  /** The length of the string literal a text starts with, the closing quote included. */
  function LiteralLength(s: CStr): (n: nat)
    requires s != [] && s[0] == '\"'
    ensures 0 < n <= |s|
  {
    1 + QuoteAfter(s[1..])
  }

  function QuoteAfter(s: CStr): (n: nat)
    ensures n <= |s|
  {
    if s == [] then 0
    else if s[0] == '\"' then 1
    else if s[0] == '\\' && |s| > 1 then 2 + QuoteAfter(s[2..])
    else 1 + QuoteAfter(s[1..])
  }

  /** The brackets that are open, true for a brace. */
  type Stack = seq<bool>

  function Pop(st: Stack): Stack { if st == [] then [] else st[..|st| - 1] }

  function Inside(st: Stack): bool { st != [] && st[|st| - 1] }

  /**
   Laying out: an opening brace ends its line, and the next one starts with a tab for every open bracket; a comma does
   the same inside braces and is followed by a blank inside brackets; a closing brace stands on its own line, one tab
   less; a colon is followed by a tab. An empty object is two lines.
   */
  function Lay(s: CStr, st: Stack): CStr
    decreases |s|
  {
    if s == [] then []
    else if s[0] == '\"' then s[..LiteralLength(s)] + Lay(s[LiteralLength(s)..], st)
    else if s[0] == '{' && |s| > 1 && s[1] == '}' then "{\n" + Tabs(|st|) + "}" + Lay(s[2..], st)
    else if s[0] == '{' then "{\n" + Tabs(|st| + 1) + Lay(s[1..], st + [true])
    else if s[0] == '}' then "\n" + Tabs(|Pop(st)|) + "}" + Lay(s[1..], Pop(st))
    else if s[0] == '[' then "[" + Lay(s[1..], st + [false])
    else if s[0] == ']' then "]" + Lay(s[1..], Pop(st))
    else if s[0] == ',' then (if Inside(st) then ",\n" + Tabs(|st|) else ", ") + Lay(s[1..], st)
    else if s[0] == ':' then ":\t" + Lay(s[1..], st)
    else [s[0]] + Lay(s[1..], st)
  }

  /** A piece of text in front of another one. */
  ghost predicate LaysBefore(s: CStr, st: Stack, out: CStr, after: Stack, rest: CStr) {
    Lay(s + rest, st) == out + Lay(rest, after)
  }

  /** A piece of text, whatever follows it. */
  ghost predicate Lays(s: CStr, st: Stack, out: CStr, after: Stack) {
    forall rest: CStr :: LaysBefore(s, st, out, after, rest)
  }

  lemma LaysTwo(a: CStr, b: CStr, st: Stack, x: CStr, middle: Stack, y: CStr, after: Stack)
    requires Lays(a, st, x, middle) && Lays(b, middle, y, after)
    ensures Lays(a + b, st, x + y, after)
  {
    forall rest: CStr ensures LaysBefore(a + b, st, x + y, after, rest) {
      assert LaysBefore(a, st, x, middle, b + rest) && LaysBefore(b, middle, y, after, rest);
      Regroup(a, b, rest);
      Regroup(x, y, Lay(rest, after));
    }
  }

  lemma LaysNothing(st: Stack)
    ensures Lays([], st, [], st)
  {
    forall rest: CStr ensures LaysBefore([], st, [], st, rest) {
      assert [] + rest == rest && [] + Lay(rest, st) == Lay(rest, st);
    }
  }

  /** Characters that are no brackets, commas, colons or quotes stay. */
  predicate IsWord(c: cchar) {
    c != '\"' && c != '{' && c != '}' && c != '[' && c != ']' && c != ',' && c != ':'
  }

  lemma LaysLetter(c: cchar, st: Stack)
    requires IsWord(c)
    ensures Lays([c], st, [c], st)
  {
    forall rest: CStr ensures LaysBefore([c], st, [c], st, rest) {
      assert ([c] + rest)[1..] == rest;
    }
  }

  lemma {:induction false} LaysWord(s: CStr, st: Stack)
    requires forall i :: 0 <= i < |s| ==> IsWord(s[i])
    ensures Lays(s, st, s, st)
    decreases |s|
  {
    if s == [] {
      LaysNothing(st);
    } else {
      LaysWord(s[1..], st);
      LaysLetter(s[0], st);
      LaysTwo([s[0]], s[1..], st, [s[0]], st, s[1..], st);
      assert [s[0]] + s[1..] == s;
    }
  }

  lemma {:induction false} QuoteBehind(s: CStr, rest: CStr)
    ensures QuoteAfter(Escape(s) + QUOTE + rest) == |Escape(s)| + 1
    decreases |s|
  {
    var text := Escape(s) + QUOTE + rest;
    if s == [] {
      assert text == QUOTE + rest;
    } else {
      var one, more := EscapeChar(s[0]), Escape(s[1..]) + QUOTE + rest;
      QuoteBehind(s[1..], rest);
      assert text == one + more;
      OneBehind(s[0], more);
    }
  }

  lemma OneBehind(c: cchar, more: CStr)
    ensures QuoteAfter(EscapeChar(c) + more) == |EscapeChar(c)| + QuoteAfter(more)
  {
    var one := EscapeChar(c);
    var text := one + more;
    if |one| == 1 {
      assert text[1..] == more;
    } else {
      assert text[0] == '\\' && text[2..] == one[2..] + more;
      if |one| > 2 {
        PlainBehind(one[2..], more);
      } else {
        assert one[2..] + more == more;
      }
    }
  }

  lemma {:induction false} PlainBehind(s: CStr, more: CStr)
    requires forall i :: 0 <= i < |s| ==> s[i] != '\"' && s[i] != '\\'
    ensures QuoteAfter(s + more) == |s| + QuoteAfter(more)
    decreases |s|
  {
    if s == [] {
      assert s + more == more;
    } else {
      assert (s + more)[1..] == s[1..] + more;
      PlainBehind(s[1..], more);
    }
  }

  lemma LaysLiteral(s: CStr, st: Stack)
    ensures Lays(Quote(s), st, Quote(s), st)
  {
    forall rest: CStr ensures LaysBefore(Quote(s), st, Quote(s), st, rest) {
      var text := Quote(s) + rest;
      QuoteBehind(s, rest);
      assert text[1..] == Escape(s) + QUOTE + rest;
      assert LiteralLength(text) == |Quote(s)|;
      assert text[..|Quote(s)|] == Quote(s) && text[|Quote(s)|..] == rest;
    }
  }

  /** One character that means something. */
  lemma LaysMark(c: cchar, st: Stack)
    requires c == '[' || c == ']' || c == ',' || c == ':' || c == '}'
    ensures c == '[' ==> Lays(['['], st, ['['], st + [false])
    ensures c == ']' ==> Lays([']'], st, [']'], Pop(st))
    ensures c == ',' ==> Lays([','], st, if Inside(st) then [',', '\n'] + Tabs(|st|) else [',', ' '], st)
    ensures c == ':' ==> Lays([':'], st, [':', '\t'], st)
    ensures c == '}' ==> Lays(['}'], st, ['\n'] + Tabs(|Pop(st)|) + ['}'], Pop(st))
  {
    forall rest: CStr
      ensures c == '[' ==> LaysBefore(['['], st, ['['], st + [false], rest)
      ensures c == ']' ==> LaysBefore([']'], st, [']'], Pop(st), rest)
      ensures c == ',' ==> LaysBefore([','], st, if Inside(st) then [',', '\n'] + Tabs(|st|) else [',', ' '], st, rest)
      ensures c == ':' ==> LaysBefore([':'], st, [':', '\t'], st, rest)
      ensures c == '}' ==> LaysBefore(['}'], st, ['\n'] + Tabs(|Pop(st)|) + ['}'], Pop(st), rest)
    {
      assert ([c] + rest)[1..] == rest && ([c] + rest)[0] == c;
    }
  }

  lemma LaysEmpty(st: Stack)
    ensures Lays(['{', '}'], st, ['{', '\n'] + Tabs(|st|) + ['}'], st)
  {
    forall rest: CStr ensures LaysBefore(['{', '}'], st, ['{', '\n'] + Tabs(|st|) + ['}'], st, rest) {
      var text := ['{', '}'] + rest;
      assert text[2..] == rest && text[0] == '{' && text[1] == '}';
    }
  }

  /** An opening brace in front of something that is no closing one. */
  lemma LaysOpening(s: CStr, st: Stack, out: CStr, after: Stack)
    requires Lays(s, st + [true], out, after) && s != [] && s[0] != '}'
    ensures Lays(['{'] + s, st, ['{', '\n'] + Tabs(|st| + 1) + out, after)
  {
    var braced, laid := ['{'] + s, ['{', '\n'] + Tabs(|st| + 1) + out;
    forall rest: CStr ensures LaysBefore(braced, st, laid, after, rest) {
      var text := braced + rest;
      assert text[1..] == s + rest && text[0] == '{' && text[1] == s[0];
      assert LaysBefore(s, st + [true], out, after, rest);
    }
  }

  // ---------- the printed text ----------

  /**
   Whatever the depth the compact text is printed at, laying it out inside open brackets prints it formatted there.
   */
  lemma {:induction false} LaysPrinted(v: JSON, fmt: Style, e: nat, st: Stack)
    requires fmt.formatted && Plain(v) && MinifyLaw.NumericTexts(v, fmt)
    ensures Lays(Print(v, Compact(fmt), e), st, Print(v, fmt, |st|), st)
    decreases v, 0
  {
    match v
    case False => LaysWord(FALSE_TEXT, st);
    case True => LaysWord(TRUE_TEXT, st);
    case Null => LaysWord(NULL_TEXT, st);
    case Number(x) => LaysWord(fmt.number(x), st);
    case String(s) => LaysLiteral(s, st);
    case Array(items) => LaysArray(items, fmt, e, st);
    case Object(ms) => LaysObject(ms, fmt, e, st);
  }

  lemma {:induction false} LaysArray(items: seq<JSON>, fmt: Style, e: nat, st: Stack)
    requires fmt.formatted && Plain(Array(items)) && MinifyLaw.NumericTexts(Array(items), fmt)
    ensures Lays(Print(Array(items), Compact(fmt), e), st, Print(Array(items), fmt, |st|), st)
    decreases items, 2
  {
    var inner := st + [false];
    var body, out := PrintItems(items, Compact(fmt), e + 1), PrintItems(items, fmt, |st| + 1);
    LaysMark('[', st);
    LaysItems(items, fmt, e + 1, inner);
    LaysMark(']', inner);
    assert Pop(inner) == st;
    LaysTwo(['['], body, st, ['['], inner, out, inner);
    LaysTwo(['['] + body, [']'], st, ['['] + out, inner, [']'], st);
  }

  lemma {:induction false} LaysItems(items: seq<JSON>, fmt: Style, e: nat, st: Stack)
    requires fmt.formatted && !Inside(st)
    requires forall i :: 0 <= i < |items| ==> Plain(items[i]) && MinifyLaw.NumericTexts(items[i], fmt)
    ensures Lays(PrintItems(items, Compact(fmt), e), st, PrintItems(items, fmt, |st|), st)
    decreases items, 1
  {
    if items == [] {
      LaysNothing(st);
    } else {
      var last, cmp := |items| == 1, Compact(fmt);
      LaysPrinted(items[0], fmt, e, st);
      if last {
        LaysNothing(st);
      } else {
        LaysMark(',', st);
      }
      LaysTwo(Print(items[0], cmp, e), Separator(cmp, last), st, Print(items[0], fmt, |st|), st,
              Separator(fmt, last), st);
      LaysItems(items[1..], fmt, e, st);
      LaysTwo(PrintItem(items[0], cmp, e, last), PrintItems(items[1..], cmp, e), st,
              PrintItem(items[0], fmt, |st|, last), st, PrintItems(items[1..], fmt, |st|), st);
    }
  }

  lemma {:induction false} LaysObject(ms: seq<Member>, fmt: Style, e: nat, st: Stack)
    requires fmt.formatted && Plain(Object(ms)) && MinifyLaw.NumericTexts(Object(ms), fmt)
    ensures Lays(Print(Object(ms), Compact(fmt), e), st, Print(Object(ms), fmt, |st|), st)
    decreases ms, 2
  {
    if ms == [] {
      LaysEmpty(st);
      assert Print(Object(ms), Compact(fmt), e) == ['{', '}'];
      assert Print(Object(ms), fmt, |st|) == ['{', '\n'] + Tabs(|st|) + ['}'];
    } else {
      var out := LaysMembers(ms, fmt, e + 1, st + [true]);
      assert Pop(st + [true]) == st;
      LaysBraces(ms, fmt, e, st, out);
    }
  }

  lemma LaysBraces(ms: seq<Member>, fmt: Style, e: nat, st: Stack, out: CStr)
    requires fmt.formatted && ms != []
    requires Lays(PrintMembers(ms, Compact(fmt), e + 1) + ['}'], st + [true], out, st)
    requires Tabs(|st| + 1) + out == PrintMembers(ms, fmt, |st| + 1) + Tabs(|st|) + ['}']
    ensures Lays(Print(Object(ms), Compact(fmt), e), st, Print(Object(ms), fmt, |st|), st)
  {
    var cmp, d := Compact(fmt), |st|;
    var body, members := PrintMembers(ms, cmp, e + 1) + ['}'], PrintMembers(ms, fmt, d + 1);
    MembersStart(ms, cmp, e + 1);
    LaysOpening(body, st, out, st);
    CompactBraces(PrintMembers(ms, cmp, e + 1));
    FormattedBraces(members, Tabs(d), Tabs(d + 1), out);
    assert Print(Object(ms), fmt, d) == ['{', '\n'] + members + (Tabs(d) + ['}']);
    assert Print(Object(ms), cmp, e) == ['{'] + PrintMembers(ms, cmp, e + 1) + ([] + ['}']);
  }

  lemma CompactBraces(members: CStr)
    ensures ['{'] + members + ([] + ['}']) == ['{'] + (members + ['}'])
  {
  }

  lemma FormattedBraces(members: CStr, tabs: CStr, more: CStr, out: CStr)
    requires more + out == members + tabs + ['}']
    ensures ['{', '\n'] + members + (tabs + ['}']) == ['{', '\n'] + more + out
  {
    assert ['{', '\n'] + more + out == ['{', '\n'] + (more + out);
  }

  lemma FormattedMember(m: Member, fmt: Style, d: nat, last: bool)
    requires fmt.formatted
    ensures PrintMember(m, fmt, d, last) == Tabs(d) + NamedText(m, fmt, d) + if last then ['\n'] else [',', '\n']
  {
    assert [] + ['\n'] == ['\n'];
  }

  lemma CompactMember(m: Member, cmp: Style, e: nat, last: bool)
    requires !cmp.formatted
    ensures PrintMember(m, cmp, e, last) == NamedText(m, cmp, e) + if last then [] else [',']
  {
    assert [] + NamedText(m, cmp, e) == NamedText(m, cmp, e);
    assert (if last then [] else [',']) + [] == if last then [] else [','];
  }

  lemma MembersStart(ms: seq<Member>, cmp: Style, e: nat)
    requires ms != [] && !cmp.formatted
    ensures PrintMembers(ms, cmp, e) != [] && PrintMembers(ms, cmp, e)[0] == '\"'
  {
    var named := NamedText(ms[0], cmp, e);
    CompactMember(ms[0], cmp, e, |ms| == 1);
    assert named[0] == Quote(ms[0].key)[0] == '\"';
    assert PrintMembers(ms, cmp, e)[0] == named[0];
  }

  lemma {:induction false} LaysNamed(m: Member, fmt: Style, e: nat, st: Stack)
    requires fmt.formatted && Plain(m.value) && MinifyLaw.NumericTexts(m.value, fmt)
    ensures Lays(NamedText(m, Compact(fmt), e), st, NamedText(m, fmt, |st|), st)
    decreases m, 1
  {
    var cmp := Compact(fmt);
    LaysLiteral(m.key, st);
    LaysMark(':', st);
    LaysTwo(Quote(m.key), [':'], st, Quote(m.key), st, [':', '\t'], st);
    LaysPrinted(m.value, fmt, e, st);
    LaysTwo(NameText(m.key, cmp), Print(m.value, cmp, e), st, NameText(m.key, fmt), st, Print(m.value, fmt, |st|), st);
  }

  /** The members of an object up to its closing brace; the tabs of the first line are in front already. */
  lemma {:induction false} LaysMembers(ms: seq<Member>, fmt: Style, e: nat, st: Stack) returns (out: CStr)
    requires fmt.formatted && Inside(st) && ms != []
    requires forall i :: 0 <= i < |ms| ==> Plain(ms[i].value) && MinifyLaw.NumericTexts(ms[i].value, fmt)
    ensures Lays(PrintMembers(ms, Compact(fmt), e) + ['}'], st, out, Pop(st))
    ensures Tabs(|st|) + out == PrintMembers(ms, fmt, |st|) + Tabs(|st| - 1) + ['}']
    decreases ms, 1
  {
    LaysNamed(ms[0], fmt, e, st);
    if |ms| == 1 {
      out := LaysLast(ms, fmt, e, st);
    } else {
      var more := LaysMembers(ms[1..], fmt, e, st);
      out := LaysMore(ms, fmt, e, st, more);
    }
  }

  lemma LaysLast(ms: seq<Member>, fmt: Style, e: nat, st: Stack) returns (out: CStr)
    requires fmt.formatted && Inside(st) && |ms| == 1
    requires Lays(NamedText(ms[0], Compact(fmt), e), st, NamedText(ms[0], fmt, |st|), st)
    ensures Lays(PrintMembers(ms, Compact(fmt), e) + ['}'], st, out, Pop(st))
    ensures Tabs(|st|) + out == PrintMembers(ms, fmt, |st|) + Tabs(|st| - 1) + ['}']
  {
    var cmp, d := Compact(fmt), |st|;
    var first, named, end := NamedText(ms[0], cmp, e), NamedText(ms[0], fmt, d), ['\n'] + Tabs(d - 1) + ['}'];
    FormattedMember(ms[0], fmt, d, true);
    CompactMember(ms[0], cmp, e, true);
    LaysMark('}', st);
    LaysTwo(first, ['}'], st, named, st, end, Pop(st));
    out := named + end;
    assert ms[1..] == [];
    LastLine(Tabs(d), named, Tabs(d - 1));
    assert PrintMembers(ms, cmp, e) == first + [] + [] == first;
    assert PrintMembers(ms, fmt, d) == Tabs(d) + named + ['\n'] + [];
  }

  lemma LaysMore(ms: seq<Member>, fmt: Style, e: nat, st: Stack, more: CStr) returns (out: CStr)
    requires fmt.formatted && Inside(st) && |ms| > 1
    requires Lays(NamedText(ms[0], Compact(fmt), e), st, NamedText(ms[0], fmt, |st|), st)
    requires Lays(PrintMembers(ms[1..], Compact(fmt), e) + ['}'], st, more, Pop(st))
    requires Tabs(|st|) + more == PrintMembers(ms[1..], fmt, |st|) + Tabs(|st| - 1) + ['}']
    ensures Lays(PrintMembers(ms, Compact(fmt), e) + ['}'], st, out, Pop(st))
    ensures Tabs(|st|) + out == PrintMembers(ms, fmt, |st|) + Tabs(|st| - 1) + ['}']
  {
    var cmp, d := Compact(fmt), |st|;
    var first, named := NamedText(ms[0], cmp, e), NamedText(ms[0], fmt, d);
    var rest, line := PrintMembers(ms[1..], cmp, e), [',', '\n'] + Tabs(d);
    FormattedMember(ms[0], fmt, d, false);
    CompactMember(ms[0], cmp, e, false);
    LaysMark(',', st);
    LaysTwo(first, [','], st, named, st, line, st);
    LaysTwo(first + [','], rest + ['}'], st, named + line, st, more, Pop(st));
    out := named + line + more;
    Regroup(first + [','], rest, ['}']);
    NextLine(Tabs(d), named, more, PrintMembers(ms[1..], fmt, d), Tabs(d - 1));
  }

  lemma LastLine(tabs: CStr, named: CStr, less: CStr)
    ensures tabs + (named + (['\n'] + less + ['}'])) == tabs + named + ['\n'] + [] + less + ['}']
  {
  }

  lemma NextLine(tabs: CStr, named: CStr, more: CStr, rest: CStr, less: CStr)
    requires tabs + more == rest + less + ['}']
    ensures tabs + (named + ([',', '\n'] + tabs) + more) == (tabs + named + [',', '\n'] + rest) + less + ['}']
  {
    var front := tabs + named + [',', '\n'];
    assert tabs + (named + ([',', '\n'] + tabs) + more) == front + (tabs + more);
    assert front + (rest + less + ['}']) == front + rest + less + ['}'];
  }

  /** The formatted text of a tree without raw items is its compact text, laid out. */
  lemma FormattedIsLaidOut(v: JSON, fmt: Style)
    requires fmt.formatted && Plain(v) && MinifyLaw.NumericTexts(v, fmt)
    ensures Print(v, fmt, 0) == Lay(Print(v, Compact(fmt), 0), [])
  {
    LaysPrinted(v, fmt, 0, []);
    assert LaysBefore(Print(v, Compact(fmt), 0), [], Print(v, fmt, 0), [], []);
    assert Print(v, Compact(fmt), 0) + [] == Print(v, Compact(fmt), 0) && Print(v, fmt, 0) + [] == Print(v, fmt, 0);
  }
}
