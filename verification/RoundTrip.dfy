/**
 Parsing what was printed, compact or formatted: the same tree comes back, unless it is nested
 deeper than the parser goes.
 */
module RoundTrip {
  import opened Wrappers
  import opened CStrings
  import opened Json
  import opened Text
  import opened Parsing
  import opened Tokens

  /** How many arrays and objects lie around the innermost item, itself included. */
  function Nest(v: JSON): nat
    decreases v
  {
    match v
    case Array(items) => 1 + NestItems(items)
    case Object(ms) => 1 + NestMembers(ms)
    case _ => 0
  }

  function NestItems(items: seq<JSON>): nat
    decreases items
  {
    if items == [] then 0 else Max(Nest(items[0]), NestItems(items[1..]))
  }

  function NestMembers(ms: seq<Member>): nat
    decreases ms
  {
    if ms == [] then 0 else Max(Nest(ms[0].value), NestMembers(ms[1..]))
  }

  function Max(a: nat, b: nat): nat { if a >= b then a else b }

  /** The result is x and its end, if the nesting is within the limit, and nothing otherwise. */
  ghost predicate Is<T(!new)>(r: Option<(T, nat)>, x: T, nest: nat, end: nat) {
    if nest <= NESTING_LIMIT then r.Some? && r.value.0 == x && r.value.1 == end else r.None?
  }

  /** Characters that start a printed value. */
  predicate Starts(c: char) {
    ' ' < c <= '{' && c != ']' && c != ','
  }

  /** Items whose numbers are printed so that strtod undoes it. */
  ghost predicate Readable(v: JSON, fmt: Style)
    decreases v
  {
    match v
    case Number(x) => ReadsBack(x, fmt.number(x))
    case Array(items) => forall i :: 0 <= i < |items| ==> Readable(items[i], fmt)
    case Object(ms) => forall i :: 0 <= i < |ms| ==> Readable(ms[i].value, fmt)
    case _ => true
  }

  lemma {:induction false} PrintStarts(v: JSON, fmt: Style, d: nat)
    requires Plain(v) && Readable(v, fmt)
    ensures Print(v, fmt, d) != [] && Starts(Print(v, fmt, d)[0])
  {
  }

  // ---------- which branch parse_value takes ----------

  lemma {:induction false} NotAt(c: seq<char>, o: nat, word: CStr)
    requires o < |c| && word != [] && c[o] != word[0]
    ensures !LooksAt(c, o, word)
  {
    if LooksAt(c, o, word) {
      LooksByte(c, o, word, 0);
    }
  }

  lemma {:induction false} NoWord(c: seq<char>, o: nat)
    requires o < |c| && c[o] != 'n' && c[o] != 'f' && c[o] != 't'
    ensures !LooksAt(c, o, NULL_TEXT) && !LooksAt(c, o, FALSE_TEXT) && !LooksAt(c, o, TRUE_TEXT)
  {
    NotAt(c, o, NULL_TEXT);
    NotAt(c, o, FALSE_TEXT);
    NotAt(c, o, TRUE_TEXT);
  }

  lemma {:induction false} WordValue(c: seq<char>, o: nat, depth: nat, v: JSON)
    requires Terminated(c) && o < |c| && depth <= NESTING_LIMIT
    requires (v == Null && LooksAt(c, o, NULL_TEXT)) || (v == False && LooksAt(c, o, FALSE_TEXT))
             || (v == True && LooksAt(c, o, TRUE_TEXT))
    ensures ParseValue(c, o, depth) == Some((v, o + if v == False then 5 else 4))
  {
    if v == False {
      LooksByte(c, o, FALSE_TEXT, 0);
      NotAt(c, o, NULL_TEXT);
    }
    if v == True {
      LooksByte(c, o, TRUE_TEXT, 0);
      NotAt(c, o, NULL_TEXT);
      NotAt(c, o, FALSE_TEXT);
    }
  }

  lemma {:induction false} StringValue(c: seq<char>, o: nat, depth: nat, s: CStr, end: nat)
    requires Terminated(c) && o < |c| && depth <= NESTING_LIMIT && c[o] == '\"'
    requires ParseString(c, o) == Some((s, end))
    ensures ParseValue(c, o, depth) == Some((String(s), end))
  {
    NoWord(c, o);
  }

  lemma {:induction false} NumberValue(c: seq<char>, o: nat, depth: nat)
    requires Terminated(c) && o < |c| && depth <= NESTING_LIMIT && (c[o] == '-' || IsDigit(c[o]))
    ensures ParseValue(c, o, depth) == ParseNumber(c, o)
  {
    NoWord(c, o);
  }

  lemma {:induction false} ArrayValue(c: seq<char>, o: nat, depth: nat)
    requires Terminated(c) && o < |c| && depth <= NESTING_LIMIT && c[o] == '['
    ensures ParseValue(c, o, depth) == ParseArray(c, o, depth)
  {
    NoWord(c, o);
  }

  lemma {:induction false} ObjectValue(c: seq<char>, o: nat, depth: nat)
    requires Terminated(c) && o < |c| && depth <= NESTING_LIMIT && c[o] == '{'
    ensures ParseValue(c, o, depth) == ParseObject(c, o, depth)
  {
    NoWord(c, o);
  }

  // ---------- one step of the parser ----------

  lemma {:induction false} ElementHere(c: seq<char>, o: nat, depth: nat)
    requires Terminated(c) && o < |c| && depth <= NESTING_LIMIT && c[o] > ' '
    ensures ParseElement(c, o, depth) == ParseValue(c, o, depth)
  {
    SkipNothing(c, o);
  }

  lemma {:induction false} ElementPastBlank(c: seq<char>, o: nat, depth: nat)
    requires Terminated(c) && o + 1 < |c| && c[o] <= ' ' && depth <= NESTING_LIMIT
    ensures ParseElement(c, o, depth) == ParseElement(c, o + 1, depth)
  {
    SkipOne(c, o);
  }

  lemma {:induction false} ArrayElement(c: seq<char>, o: nat, depth: nat)
    requires Terminated(c) && o < |c| && depth <= NESTING_LIMIT && c[o] == '['
    ensures ParseElement(c, o, depth) == ParseArray(c, o, depth)
  {
    ArrayValue(c, o, depth);
    ElementHere(c, o, depth);
  }

  lemma {:induction false} ObjectElement(c: seq<char>, o: nat, depth: nat)
    requires Terminated(c) && o < |c| && depth <= NESTING_LIMIT && c[o] == '{'
    ensures ParseElement(c, o, depth) == ParseObject(c, o, depth)
  {
    ObjectValue(c, o, depth);
    ElementHere(c, o, depth);
  }

  lemma {:induction false} StringElement(c: seq<char>, o: nat, depth: nat, s: CStr, end: nat)
    requires Terminated(c) && o < |c| && depth <= NESTING_LIMIT && c[o] == '\"' && ParseString(c, o) == Some((s, end))
    ensures ParseElement(c, o, depth) == Some((String(s), end))
  {
    StringValue(c, o, depth, s, end);
    ElementHere(c, o, depth);
  }

  lemma {:induction false} ItemsPastBlank(c: seq<char>, o: nat, depth: nat)
    requires Terminated(c) && o + 1 < |c| && c[o] <= ' ' && depth <= NESTING_LIMIT
    ensures ParseItems(c, o, depth) == ParseItems(c, o + 1, depth)
  {
    ElementPastBlank(c, o, depth);
  }

  /** White space in front of the members is of no importance. */
  lemma {:induction false} MembersPastBlank(c: seq<char>, o: nat, p: nat, depth: nat)
    requires Terminated(c) && o < |c| && p < |c| && SkipSpace(c, o) == SkipSpace(c, p) && depth <= NESTING_LIMIT
    ensures ParseMembers(c, o, depth) == ParseMembers(c, p, depth)
  {
    assert ParseMember(c, o, depth) == ParseMember(c, p, depth);
  }

  /** The last element and the closing bracket, or a failed element. */
  lemma {:induction false} LastItem(c: seq<char>, o: nat, depth: nat, v: JSON, nest: nat, e: nat)
    requires Terminated(c) && o < |c| && depth <= NESTING_LIMIT
    requires Is(ParseElement(c, o, depth), v, nest, e) && e < |c| && c[e] == ']'
    ensures Is(ParseItems(c, o, depth), [v], nest, e + 1)
  {
    SkipNothing(c, e);
  }

  /** An element, a comma and the rest. */
  lemma {:induction false} NextItem(c: seq<char>, o: nat, depth: nat, v: JSON, nest: nat, e: nat, rest: seq<JSON>,
                                    nests: nat, end: nat)
    requires Terminated(c) && o < |c| && depth <= NESTING_LIMIT
    requires Is(ParseElement(c, o, depth), v, nest, e) && e + 1 < |c| && c[e] == ','
    requires Is(ParseItems(c, e + 1, depth), rest, nests, end)
    ensures Is(ParseItems(c, o, depth), [v] + rest, Max(nest, nests), end)
  {
    SkipNothing(c, e);
  }

  /** The same with the comma and the blank the printer writes. */
  lemma {:induction false} NextItemPast(c: seq<char>, o: nat, depth: nat, v: JSON, nest: nat, e: nat, fmt: Style,
                                        next: nat, rest: seq<JSON>, nests: nat, end: nat)
    requires Terminated(c) && o < |c| && depth <= NESTING_LIMIT && LooksAt(c, e, Separator(fmt, false))
             && next == e + |Separator(fmt, false)| < |c|
    requires Is(ParseElement(c, o, depth), v, nest, e) && Is(ParseItems(c, next, depth), rest, nests, end)
    ensures Is(ParseItems(c, o, depth), [v] + rest, Max(nest, nests), end)
  {
    LooksByte(c, e, Separator(fmt, false), 0);
    if fmt.formatted {
      LooksByte(c, e, Separator(fmt, false), 1);
      ItemsPastBlank(c, e + 1, depth);
    }
    NextItem(c, o, depth, v, nest, e, rest, nests, end);
  }

  lemma {:induction false} LastMember(c: seq<char>, o: nat, depth: nat, m: Member, nest: nat, e: nat, q: nat)
    requires Terminated(c) && o < |c| && depth <= NESTING_LIMIT
    requires Is(ParseMember(c, o, depth), m, nest, e) && e < |c| && q == SkipSpace(c, e) && c[q] == '}'
    ensures Is(ParseMembers(c, o, depth), [m], nest, q + 1)
  {
  }

  lemma {:induction false} NextMember(c: seq<char>, o: nat, depth: nat, m: Member, nest: nat, e: nat, rest: seq<Member>,
                                      nests: nat, end: nat)
    requires Terminated(c) && o < |c| && depth <= NESTING_LIMIT
    requires Is(ParseMember(c, o, depth), m, nest, e) && e + 1 < |c| && c[e] == ','
    requires Is(ParseMembers(c, e + 1, depth), rest, nests, end)
    ensures Is(ParseMembers(c, o, depth), [m] + rest, Max(nest, nests), end)
  {
    SkipNothing(c, e);
  }

  lemma {:induction false} ArrayFrom(c: seq<char>, o: nat, depth: nat, items: seq<JSON>, nests: nat, end: nat)
    requires Terminated(c) && o + 1 < |c| && depth <= NESTING_LIMIT && c[o] == '[' && Starts(c[o + 1])
    requires depth < NESTING_LIMIT ==> Is(ParseItems(c, o + 1, depth + 1), items, depth + 1 + nests, end)
    ensures Is(ParseArray(c, o, depth), Array(items), depth + (1 + nests), end)
  {
    SkipNothing(c, o + 1);
  }

  lemma {:induction false} EmptyArray(c: seq<char>, o: nat, depth: nat)
    requires Terminated(c) && o + 1 < |c| && depth <= NESTING_LIMIT && c[o] == '[' && c[o + 1] == ']'
    ensures Is(ParseArray(c, o, depth), Array([]), depth + 1, o + 2)
  {
    SkipNothing(c, o + 1);
  }

  /** From behind the brace on only white space may come in front of the first name. */
  lemma {:induction false} ObjectFrom(c: seq<char>, o: nat, p: nat, depth: nat, ms: seq<Member>, nests: nat, end: nat)
    requires Terminated(c) && o + 1 < |c| && depth <= NESTING_LIMIT && c[o] == '{'
    requires p < |c| && SkipSpace(c, o + 1) == SkipSpace(c, p) && c[SkipSpace(c, p)] == '\"'
    requires depth < NESTING_LIMIT ==> Is(ParseMembers(c, p, depth + 1), ms, depth + 1 + nests, end)
    ensures Is(ParseObject(c, o, depth), Object(ms), depth + (1 + nests), end)
  {
    if depth < NESTING_LIMIT {
      SkipTwice(c, p);
      MembersPastBlank(c, SkipSpace(c, p), p, depth + 1);
    }
  }

  lemma {:induction false} EmptyObject(c: seq<char>, o: nat, depth: nat)
    requires Terminated(c) && o + 1 < |c| && depth <= NESTING_LIMIT && c[o] == '{' && c[SkipSpace(c, o + 1)] == '}'
    ensures Is(ParseObject(c, o, depth), Object([]), depth + 1, SkipSpace(c, o + 1) + 1)
  {
  }

  lemma {:induction false} QuotedFrom(c: seq<char>, o: nat, depth: nat, key: CStr, colon: nat, v: JSON, nest: nat,
                                      end: nat)
    requires Terminated(c) && o < |c| && depth <= NESTING_LIMIT && c[o] == '\"'
    requires ParseString(c, o) == Some((key, colon)) && colon + 1 < |c| && c[colon] == ':'
    requires Is(ParseElement(c, colon + 1, depth), v, nest, end)
    ensures Is(ParseQuoted(c, o, depth), Member(key, v), nest, end)
  {
    SkipNothing(c, colon);
  }

  // ---------- the text in pieces ----------

  lemma {:induction false} ItemsText(items: seq<JSON>, fmt: Style, d: nat, close: CStr)
    requires items != []
    ensures PrintItems(items, fmt, d) + close
         == PrintItem(items[0], fmt, d, |items| == 1) + (PrintItems(items[1..], fmt, d) + close)
    ensures |PrintItems(items, fmt, d)| ==
            |PrintItem(items[0], fmt, d, |items| == 1)| + |PrintItems(items[1..], fmt, d)|
  {
    Regroup(PrintItem(items[0], fmt, d, |items| == 1), PrintItems(items[1..], fmt, d), close);
  }

  lemma {:induction false} MembersText(ms: seq<Member>, fmt: Style, d: nat, close: CStr)
    requires ms != []
    ensures PrintMembers(ms, fmt, d) + close
         == PrintMember(ms[0], fmt, d, |ms| == 1) + (PrintMembers(ms[1..], fmt, d) + close)
    ensures |PrintMembers(ms, fmt, d)| == |PrintMember(ms[0], fmt, d, |ms| == 1)| + |PrintMembers(ms[1..], fmt, d)|
  {
    Regroup(PrintMember(ms[0], fmt, d, |ms| == 1), PrintMembers(ms[1..], fmt, d), close);
  }

  lemma {:induction false} ItemStarts(v: JSON, fmt: Style, d: nat, last: bool)
    requires Plain(v) && Readable(v, fmt)
    ensures PrintItem(v, fmt, d, last) != [] && Starts(PrintItem(v, fmt, d, last)[0])
  {
    PrintStarts(v, fmt, d);
  }

  // ---------- the round trip ----------

  /** What is printed at o is parsed at o, when no character of the number alphabet follows. */
  ghost predicate Printed(c: seq<char>, o: nat, v: JSON, fmt: Style, d: nat) {
    Terminated(c) && o < |c| && Plain(v) && Readable(v, fmt) && LooksAt(c, o, Print(v, fmt, d))
    && o + |Print(v, fmt, d)| < |c| && !IsNumeric(c[o + |Print(v, fmt, d)|])
  }

  lemma {:induction false} ReadsValue(c: seq<char>, o: nat, v: JSON, fmt: Style, d: nat, pd: nat)
    requires Printed(c, o, v, fmt, d) && pd <= NESTING_LIMIT
    ensures Is(ParseElement(c, o, pd), v, pd + Nest(v), o + |Print(v, fmt, d)|)
    decreases v, 0
  {
    match v {
      case Number(_) => ReadsNumber(c, o, v, fmt, d, pd);
      case String(_) => ReadsString(c, o, v, fmt, d, pd);
      case Array(_) => ReadsArray(c, o, v, fmt, d, pd);
      case Object(_) => ReadsObject(c, o, v, fmt, d, pd);
      case _ => ReadsWord(c, o, v, fmt, d, pd);
    }
  }

  lemma {:induction false} ReadsWord(c: seq<char>, o: nat, v: JSON, fmt: Style, d: nat, pd: nat)
    requires Printed(c, o, v, fmt, d) && pd <= NESTING_LIMIT && (v.Null? || v.False? || v.True?)
    ensures Is(ParseElement(c, o, pd), v, pd + Nest(v), o + |Print(v, fmt, d)|)
  {
    PrintStarts(v, fmt, d);
    LooksByte(c, o, Print(v, fmt, d), 0);
    WordValue(c, o, pd, v);
    ElementHere(c, o, pd);
  }

  lemma {:induction false} ReadsNumber(c: seq<char>, o: nat, v: JSON, fmt: Style, d: nat, pd: nat)
    requires Printed(c, o, v, fmt, d) && pd <= NESTING_LIMIT && v.Number?
    ensures Is(ParseElement(c, o, pd), v, pd + Nest(v), o + |Print(v, fmt, d)|)
  {
    LooksByte(c, o, fmt.number(v.num), 0);
    NumberReads(c, o, v.num, fmt.number(v.num));
    NumberValue(c, o, pd);
    ElementHere(c, o, pd);
  }

  lemma {:induction false} ReadsString(c: seq<char>, o: nat, v: JSON, fmt: Style, d: nat, pd: nat)
    requires Printed(c, o, v, fmt, d) && pd <= NESTING_LIMIT && v.String?
    ensures Is(ParseElement(c, o, pd), v, pd + Nest(v), o + |Print(v, fmt, d)|)
  {
    LooksByte(c, o, Quote(v.str), 0);
    StringReads(c, o, v.str);
    StringElement(c, o, pd, v.str, o + |Print(v, fmt, d)|);
  }

  lemma {:induction false} ReadsArray(c: seq<char>, o: nat, v: JSON, fmt: Style, d: nat, pd: nat)
    requires Printed(c, o, v, fmt, d) && pd <= NESTING_LIMIT && v.Array?
    ensures Is(ParseElement(c, o, pd), v, pd + Nest(v), o + |Print(v, fmt, d)|)
    decreases v.items, 2
  {
    ReadsArrayText(c, o, v.items, fmt, d + 1, pd);
    ArrayLength(v.items, fmt, d);
    ArrayElement(c, o, pd);
  }

  lemma {:induction false} ArrayLength(items: seq<JSON>, fmt: Style, d: nat)
    ensures |Print(Array(items), fmt, d)| == |PrintItems(items, fmt, d + 1)| + 2
  {
  }

  lemma {:induction false} ReadsArrayText(c: seq<char>, o: nat, items: seq<JSON>, fmt: Style, d: nat, pd: nat)
    requires Terminated(c) && o < |c| && pd <= NESTING_LIMIT && LooksAt(c, o, ['['] + PrintItems(items, fmt, d) + [']'])
    requires forall i :: 0 <= i < |items| ==> Plain(items[i]) && Readable(items[i], fmt)
    ensures c[o] == '['
    ensures Is(ParseArray(c, o, pd), Array(items), pd + (1 + NestItems(items)), o + (|PrintItems(items, fmt, d)| + 2))
    decreases items, 1
  {
    Brackets(c, o, PrintItems(items, fmt, d));
    if items == [] {
      EmptyArray(c, o, pd);
    } else {
      ItemsStart(items, fmt, d);
      if pd < NESTING_LIMIT {
        ReadsItems(c, o + 1, items, fmt, d, pd + 1);
      }
      ArrayFrom(c, o, pd, items, NestItems(items), o + (|PrintItems(items, fmt, d)| + 2));
    }
  }

  lemma {:induction false} Brackets(c: seq<char>, o: nat, inner: CStr)
    requires o < |c| && LooksAt(c, o, ['['] + inner + [']'])
    ensures c[o] == '[' && o + 1 < |c| && LooksAt(c, o + 1, inner + [']'])
    ensures c[o + 1] == if inner == [] then ']' else inner[0]
  {
    LooksPieces(c, o, ['['], inner, [']']);
    LooksByte(c, o, ['['], 0);
    LooksByte(c, o + 1, inner + [']'], 0);
  }

  lemma {:induction false} ItemsStart(items: seq<JSON>, fmt: Style, d: nat)
    requires items != [] && Plain(items[0]) && Readable(items[0], fmt)
    ensures PrintItems(items, fmt, d) != [] && Starts(PrintItems(items, fmt, d)[0])
  {
    ItemStarts(items[0], fmt, d, |items| == 1);
  }

  /** One element with its separator and whatever follows: where its value ends. */
  lemma {:induction false} ReadsItem(c: seq<char>, o: nat, v: JSON, fmt: Style, d: nat, pd: nat, last: bool, tail: CStr)
    returns (e: nat)
    requires Terminated(c) && o < |c| && pd <= NESTING_LIMIT && Plain(v) && Readable(v, fmt)
    requires LooksAt(c, o, PrintItem(v, fmt, d, last) + tail) && (last ==> tail != [] && !IsNumeric(tail[0]))
    ensures e + |Separator(fmt, last)| == o + |PrintItem(v, fmt, d, last)|
    ensures LooksAt(c, e, Separator(fmt, last)) && LooksAt(c, e + |Separator(fmt, last)|, tail)
    ensures Is(ParseElement(c, o, pd), v, pd + Nest(v), e)
    decreases v, 1
  {
    var text, sep := Print(v, fmt, d), Separator(fmt, last);
    e := o + |text|;
    LooksPieces(c, o, text, sep, tail);
    LooksByte(c, e, sep + tail, 0);
    ReadsValue(c, o, v, fmt, d, pd);
  }

  lemma {:induction false} ReadsLastItem(c: seq<char>, o: nat, v: JSON, fmt: Style, d: nat, pd: nat)
    requires Terminated(c) && o < |c| && pd <= NESTING_LIMIT && Plain(v) && Readable(v, fmt)
    requires LooksAt(c, o, PrintItem(v, fmt, d, true) + [']'])
    ensures Is(ParseItems(c, o, pd), [v], pd + Nest(v), o + |PrintItem(v, fmt, d, true)| + 1)
    decreases v, 2
  {
    var e := ReadsItem(c, o, v, fmt, d, pd, true, [']']);
    LooksByte(c, e, [']'], 0);
    LastItem(c, o, pd, v, pd + Nest(v), e);
  }

  lemma {:induction false} ReadsNextItem(c: seq<char>, o: nat, v: JSON, fmt: Style, d: nat, pd: nat, tail: CStr,
                                         rest: seq<JSON>, nests: nat, end: nat)
    requires Terminated(c) && o < |c| && pd <= NESTING_LIMIT && Plain(v) && Readable(v, fmt)
    requires LooksAt(c, o, PrintItem(v, fmt, d, false) + tail)
    requires o + |PrintItem(v, fmt, d, false)| < |c|
             && Is(ParseItems(c, o + |PrintItem(v, fmt, d, false)|, pd), rest, nests, end)
    ensures Is(ParseItems(c, o, pd), [v] + rest, Max(pd + Nest(v), nests), end)
    decreases v, 2
  {
    var e := ReadsItem(c, o, v, fmt, d, pd, false, tail);
    NextItemPast(c, o, pd, v, pd + Nest(v), e, fmt, o + |PrintItem(v, fmt, d, false)|, rest, nests, end);
  }

  lemma {:induction false} ReadsItems(c: seq<char>, o: nat, items: seq<JSON>, fmt: Style, d: nat, pd: nat)
    requires Terminated(c) && o < |c| && pd <= NESTING_LIMIT && items != []
    requires forall i :: 0 <= i < |items| ==> Plain(items[i]) && Readable(items[i], fmt)
    requires LooksAt(c, o, PrintItems(items, fmt, d) + [']'])
    ensures Is(ParseItems(c, o, pd), items, pd + NestItems(items), o + |PrintItems(items, fmt, d)| + 1)
    decreases items, 0, 1
  {
    ItemsText(items, fmt, d, [']']);
    if |items| == 1 {
      ReadsOneItem(c, o, items, fmt, d, pd);
    } else {
      var next := o + |PrintItem(items[0], fmt, d, false)|;
      SplitItems(c, o, PrintItem(items[0], fmt, d, false), PrintItems(items[1..], fmt, d) + [']']);
      ReadsItems(c, next, items[1..], fmt, d, pd);
      ReadsNextItem(c, o, items[0], fmt, d, pd, PrintItems(items[1..], fmt, d) + [']'],
                    items[1..], pd + NestItems(items[1..]), next + |PrintItems(items[1..], fmt, d)| + 1);
      ItemsTogether(items, fmt, d, pd);
    }
  }

  lemma {:induction false} SplitItems(c: seq<char>, o: nat, first: CStr, tail: CStr)
    requires LooksAt(c, o, first + tail) && tail != []
    ensures o + |first| < |c| && LooksAt(c, o + |first|, tail)
  {
    LooksSplit(c, o, first, tail);
    LooksByte(c, o + |first|, tail, 0);
  }

  /** The first element and the rest are the elements, their nesting and their length. */
  lemma {:induction false} ItemsTogether(items: seq<JSON>, fmt: Style, d: nat, pd: nat)
    requires items != []
    ensures items == [items[0]] + items[1..]
    ensures pd + NestItems(items) == Max(pd + Nest(items[0]), pd + NestItems(items[1..]))
    ensures |PrintItems(items, fmt, d)| ==
            |PrintItem(items[0], fmt, d, |items| == 1)| + |PrintItems(items[1..], fmt, d)|
  {
  }

  lemma {:induction false} MembersTogether(ms: seq<Member>, fmt: Style, d: nat, pd: nat)
    requires ms != []
    ensures ms == [ms[0]] + ms[1..]
    ensures pd + NestMembers(ms) == Max(pd + Nest(ms[0].value), pd + NestMembers(ms[1..]))
    ensures |PrintMembers(ms, fmt, d)| == |PrintMember(ms[0], fmt, d, |ms| == 1)| + |PrintMembers(ms[1..], fmt, d)|
  {
  }

  lemma {:induction false} ReadsOneItem(c: seq<char>, o: nat, items: seq<JSON>, fmt: Style, d: nat, pd: nat)
    requires Terminated(c) && o < |c| && pd <= NESTING_LIMIT && |items| == 1 && Plain(items[0])
             && Readable(items[0], fmt)
    requires LooksAt(c, o, PrintItem(items[0], fmt, d, true) + (PrintItems(items[1..], fmt, d) + [']']))
    ensures Is(ParseItems(c, o, pd), items, pd + NestItems(items), o + |PrintItems(items, fmt, d)| + 1)
    decreases items, 0, 0
  {
    assert PrintItems(items[1..], fmt, d) + [']'] == [']'];
    ReadsLastItem(c, o, items[0], fmt, d, pd);
    ItemsTogether(items, fmt, d, pd);
    assert items == [items[0]];
  }

  /** The name of a member and where its colon is. */
  lemma {:induction false} ReadsName(c: seq<char>, o: nat, key: CStr, fmt: Style) returns (colon: nat)
    requires Terminated(c) && o < |c| && LooksAt(c, o, NameText(key, fmt))
    ensures c[o] == '\"' && colon + |Colon(fmt)| == o + |NameText(key, fmt)|
    ensures ParseString(c, o) == Some((key, colon)) && LooksAt(c, colon, Colon(fmt))
  {
    colon := o + |Quote(key)|;
    LooksSplit(c, o, Quote(key), Colon(fmt));
    LooksByte(c, o, Quote(key), 0);
    StringReads(c, o, key);
  }

  lemma {:induction false} ReadsNameAnd(c: seq<char>, o: nat, key: CStr, fmt: Style, colon: nat, pd: nat, v: JSON,
                                        nest: nat, end: nat)
    requires Terminated(c) && o < |c| && pd <= NESTING_LIMIT && LooksAt(c, o, NameText(key, fmt))
    requires colon + |Colon(fmt)| == o + |NameText(key, fmt)| && colon + 1 < |c|
             && Is(ParseElement(c, colon + 1, pd), v, nest, end)
    ensures c[o] == '\"' && Is(ParseQuoted(c, o, pd), Member(key, v), nest, end)
  {
    var at := ReadsName(c, o, key, fmt);
    assert at == colon;
    LooksByte(c, colon, Colon(fmt), 0);
    QuotedFrom(c, o, pd, key, colon, v, nest, end);
  }

  lemma {:induction false} ReadsNamed(c: seq<char>, o: nat, m: Member, fmt: Style, d: nat, pd: nat)
    requires Terminated(c) && o < |c| && pd <= NESTING_LIMIT && Plain(m.value) && Readable(m.value, fmt)
    requires LooksAt(c, o, NamedText(m, fmt, d)) && o + |NamedText(m, fmt, d)| < |c|
             && !IsNumeric(c[o + |NamedText(m, fmt, d)|])
    ensures c[o] == '\"' && Is(ParseQuoted(c, o, pd), m, pd + Nest(m.value), o + |NamedText(m, fmt, d)|)
    decreases m, 0
  {
    var name, text := NameText(m.key, fmt), Print(m.value, fmt, d);
    var at, end := o + |name|, o + |NamedText(m, fmt, d)|;
    var colon := at - |Colon(fmt)|;
    LooksSplit(c, o, name, text);
    LooksSplit(c, o, Quote(m.key), Colon(fmt));
    assert at + |text| == end;
    ReadsNamedValue(c, colon, at, m.value, fmt, d, pd, end);
    ReadsNameAnd(c, o, m.key, fmt, colon, pd, m.value, pd + Nest(m.value), end);
  }

  lemma {:induction false} ReadsNamedValue(c: seq<char>, colon: nat, at: nat, v: JSON, fmt: Style, d: nat, pd: nat,
                                           end: nat)
    requires Printed(c, at, v, fmt, d) && pd <= NESTING_LIMIT
    requires LooksAt(c, colon, Colon(fmt)) && at == colon + |Colon(fmt)| && end == at + |Print(v, fmt, d)|
    ensures colon + 1 < |c| && c[colon] == ':'
    ensures Is(ParseElement(c, colon + 1, pd), v, pd + Nest(v), end)
    decreases v, 1
  {
    LooksByte(c, colon, Colon(fmt), 0);
    ReadsValue(c, at, v, fmt, d, pd);
    if fmt.formatted {
      LooksByte(c, colon, Colon(fmt), 1);
      ElementPastBlank(c, colon + 1, pd);
    }
  }

  lemma {:induction false} MemberAt(c: seq<char>, o: nat, q: nat, depth: nat)
    requires Terminated(c) && o < |c| && depth <= NESTING_LIMIT && SkipSpace(c, o) == q
    ensures ParseMember(c, o, depth) == ParseQuoted(c, q, depth)
  {
  }

  lemma {:induction false} ReadsMemberText(c: seq<char>, o: nat, m: Member, fmt: Style, d: nat, pd: nat)
    requires Terminated(c) && o < |c| && pd <= NESTING_LIMIT && Plain(m.value) && Readable(m.value, fmt)
    requires LooksAt(c, o, MemberText(m, fmt, d)) && o + |MemberText(m, fmt, d)| < |c|
             && !IsNumeric(c[o + |MemberText(m, fmt, d)|])
    ensures Is(ParseMember(c, o, pd), m, pd + Nest(m.value), o + |MemberText(m, fmt, d)|)
    ensures c[SkipSpace(c, o)] == '\"'
    decreases m, 1
  {
    var indent := Indent(fmt, d);
    var q := o + |indent|;
    LooksSplit(c, o, indent, NamedText(m, fmt, d));
    assert q + |NamedText(m, fmt, d)| == o + |MemberText(m, fmt, d)|;
    ReadsNamed(c, q, m, fmt, d, pd);
    SkipBlank(c, o, indent);
    SkipNothing(c, q);
    MemberAt(c, o, q, pd);
  }

  /** One member with its separator and whatever follows: where its value ends. */
  lemma {:induction false} ReadsMember(c: seq<char>, o: nat, m: Member, fmt: Style, d: nat, pd: nat, last: bool,
                                       tail: CStr)
    returns (e: nat)
    requires Terminated(c) && o < |c| && pd <= NESTING_LIMIT && Plain(m.value) && Readable(m.value, fmt)
    requires LooksAt(c, o, PrintMember(m, fmt, d, last) + tail) && (last ==> tail != [] && !IsNumeric(tail[0]))
    ensures e + |MemberEnd(fmt, last)| == o + |PrintMember(m, fmt, d, last)|
    ensures LooksAt(c, e, MemberEnd(fmt, last)) && LooksAt(c, e + |MemberEnd(fmt, last)|, tail)
    ensures Is(ParseMember(c, o, pd), m, pd + Nest(m.value), e)
    ensures c[SkipSpace(c, o)] == '\"'
    decreases m, 2
  {
    var text, end := MemberText(m, fmt, d), MemberEnd(fmt, last);
    e := o + |text|;
    LooksPieces(c, o, text, end, tail);
    LooksByte(c, e, end + tail, 0);
    ReadsMemberText(c, o, m, fmt, d, pd);
  }

  /** The closing brace behind its indentation. */
  lemma {:induction false} ReadsClose(c: seq<char>, o: nat, fmt: Style, d: nat)
    requires LooksAt(c, o, Close(fmt, d))
    ensures o < |c| && SkipSpace(c, o) == o + |Close(fmt, d)| - 1 && c[SkipSpace(c, o)] == '}'
  {
    LooksSplit(c, o, Indent(fmt, d), ['}']);
    LooksByte(c, o + |Indent(fmt, d)|, ['}'], 0);
    SkipBlank(c, o, Indent(fmt, d));
    SkipNothing(c, o + |Indent(fmt, d)|);
  }

  /** Behind the last member: a line break if formatted, then the closing brace. */
  lemma {:induction false} MembersStop(c: seq<char>, e: nat, fmt: Style, d: nat)
    requires LooksAt(c, e, MemberEnd(fmt, true)) && LooksAt(c, e + |MemberEnd(fmt, true)|, Close(fmt, d))
    ensures e < |c| && SkipSpace(c, e) == e + |MemberEnd(fmt, true)| + |Close(fmt, d)| - 1 && c[SkipSpace(c, e)] == '}'
  {
    ReadsClose(c, e + |MemberEnd(fmt, true)|, fmt, d);
    if fmt.formatted {
      LooksByte(c, e, MemberEnd(fmt, true), 0);
      SkipOne(c, e);
    }
  }

  lemma {:induction false} CloseStarts(fmt: Style, d: nat)
    ensures Close(fmt, d) != [] && !IsNumeric(Close(fmt, d)[0])
  {
  }

  lemma {:induction false} ReadsLastMember(c: seq<char>, o: nat, m: Member, fmt: Style, d: nat, outer: nat, pd: nat)
    requires Terminated(c) && o < |c| && pd <= NESTING_LIMIT && Plain(m.value) && Readable(m.value, fmt)
    requires LooksAt(c, o, PrintMember(m, fmt, d, true) + Close(fmt, outer))
    ensures Is(ParseMembers(c, o, pd), [m], pd + Nest(m.value),
               o + |PrintMember(m, fmt, d, true)| + |Close(fmt, outer)|)
    ensures c[SkipSpace(c, o)] == '\"'
    decreases m, 3
  {
    CloseStarts(fmt, outer);
    var e := ReadsMember(c, o, m, fmt, d, pd, true, Close(fmt, outer));
    MembersStop(c, e, fmt, outer);
    LastMember(c, o, pd, m, pd + Nest(m.value), e, o + |PrintMember(m, fmt, d, true)| + |Close(fmt, outer)| - 1);
  }

  lemma {:induction false} ReadsNextMember(c: seq<char>, o: nat, m: Member, fmt: Style, d: nat, pd: nat, tail: CStr,
                                           rest: seq<Member>, nests: nat, end: nat)
    requires Terminated(c) && o < |c| && pd <= NESTING_LIMIT && Plain(m.value) && Readable(m.value, fmt)
    requires LooksAt(c, o, PrintMember(m, fmt, d, false) + tail)
    requires o + |PrintMember(m, fmt, d, false)| < |c|
             && Is(ParseMembers(c, o + |PrintMember(m, fmt, d, false)|, pd), rest, nests, end)
    ensures Is(ParseMembers(c, o, pd), [m] + rest, Max(pd + Nest(m.value), nests), end)
    ensures c[SkipSpace(c, o)] == '\"'
    decreases m, 3
  {
    var e := ReadsMember(c, o, m, fmt, d, pd, false, tail);
    assert e + |MemberEnd(fmt, false)| == o + |PrintMember(m, fmt, d, false)|;
    LooksByte(c, e, MemberEnd(fmt, false), 0);
    if fmt.formatted {
      LooksByte(c, e, MemberEnd(fmt, false), 1);
      SkipOne(c, e + 1);
      MembersPastBlank(c, e + 1, e + 2, pd);
    }
    NextMember(c, o, pd, m, pd + Nest(m.value), e, rest, nests, end);
  }

  lemma {:induction false} ReadsMembers(c: seq<char>, o: nat, ms: seq<Member>, fmt: Style, d: nat, outer: nat, pd: nat)
    requires Terminated(c) && o < |c| && pd <= NESTING_LIMIT && ms != []
    requires forall i :: 0 <= i < |ms| ==> Plain(ms[i].value) && Readable(ms[i].value, fmt)
    requires LooksAt(c, o, PrintMembers(ms, fmt, d) + Close(fmt, outer))
    ensures Is(ParseMembers(c, o, pd), ms, pd + NestMembers(ms), o + |PrintMembers(ms, fmt, d)| + |Close(fmt, outer)|)
    ensures c[SkipSpace(c, o)] == '\"'
    decreases ms, 0, 1
  {
    MembersText(ms, fmt, d, Close(fmt, outer));
    if |ms| == 1 {
      ReadsOneMember(c, o, ms, fmt, d, outer, pd);
    } else {
      var next := o + |PrintMember(ms[0], fmt, d, false)|;
      CloseStarts(fmt, outer);
      SplitItems(c, o, PrintMember(ms[0], fmt, d, false), PrintMembers(ms[1..], fmt, d) + Close(fmt, outer));
      ReadsMembers(c, next, ms[1..], fmt, d, outer, pd);
      ReadsNextMember(c, o, ms[0], fmt, d, pd, PrintMembers(ms[1..], fmt, d) + Close(fmt, outer),
                      ms[1..], pd + NestMembers(ms[1..]), next + |PrintMembers(ms[1..], fmt, d)| + |Close(fmt, outer)|);
      MembersTogether(ms, fmt, d, pd);
    }
  }

  lemma {:induction false} ReadsOneMember(c: seq<char>, o: nat, ms: seq<Member>, fmt: Style, d: nat, outer: nat,
                                          pd: nat)
    requires Terminated(c) && o < |c| && pd <= NESTING_LIMIT && |ms| == 1 && Plain(ms[0].value)
             && Readable(ms[0].value, fmt)
    requires LooksAt(c, o, PrintMember(ms[0], fmt, d, true) + (PrintMembers(ms[1..], fmt, d) + Close(fmt, outer)))
    ensures Is(ParseMembers(c, o, pd), ms, pd + NestMembers(ms), o + |PrintMembers(ms, fmt, d)| + |Close(fmt, outer)|)
    ensures c[SkipSpace(c, o)] == '\"'
    decreases ms, 0, 0
  {
    assert PrintMembers(ms[1..], fmt, d) + Close(fmt, outer) == Close(fmt, outer);
    ReadsLastMember(c, o, ms[0], fmt, d, outer, pd);
    MembersTogether(ms, fmt, d, pd);
    assert ms == [ms[0]];
  }

  /** The brace, a line break if formatted, and the members behind it. */
  lemma {:induction false} Braces(c: seq<char>, o: nat, inner: CStr, fmt: Style, d: nat)
    requires o < |c| && LooksAt(c, o, Open(fmt) + inner + Close(fmt, d))
    ensures var p := o + |Open(fmt)|;
            c[o] == '{' && p < |c| && LooksAt(c, p, inner + Close(fmt, d)) && SkipSpace(c, o + 1) == SkipSpace(c, p)
  {
    LooksPieces(c, o, Open(fmt), inner, Close(fmt, d));
    LooksByte(c, o, Open(fmt), 0);
    CloseStarts(fmt, d);
    LooksByte(c, o + |Open(fmt)|, inner + Close(fmt, d), 0);
    if fmt.formatted {
      LooksByte(c, o, Open(fmt), 1);
      SkipOne(c, o + 1);
    }
  }

  lemma {:induction false} ReadsObject(c: seq<char>, o: nat, v: JSON, fmt: Style, d: nat, pd: nat)
    requires Printed(c, o, v, fmt, d) && pd <= NESTING_LIMIT && v.Object?
    ensures Is(ParseElement(c, o, pd), v, pd + Nest(v), o + |Print(v, fmt, d)|)
    decreases v.members, 2
  {
    ReadsObjectText(c, o, v.members, fmt, d, pd);
    ObjectLength(v.members, fmt, d);
    ObjectElement(c, o, pd);
  }

  lemma {:induction false} ReadsObjectText(c: seq<char>, o: nat, ms: seq<Member>, fmt: Style, d: nat, pd: nat)
    requires Terminated(c) && o < |c| && pd <= NESTING_LIMIT
             && LooksAt(c, o, Open(fmt) + PrintMembers(ms, fmt, d + 1) + Close(fmt, d))
    requires forall i :: 0 <= i < |ms| ==> Plain(ms[i].value) && Readable(ms[i].value, fmt)
    ensures c[o] == '{'
    ensures Is(ParseObject(c, o, pd), Object(ms), pd + (1 + NestMembers(ms)),
               o + |Open(fmt)| + |PrintMembers(ms, fmt, d + 1)| + |Close(fmt, d)|)
    decreases ms, 1
  {
    if ms == [] {
      ReadsEmptyObject(c, o, fmt, d, pd);
    } else {
      Braces(c, o, PrintMembers(ms, fmt, d + 1), fmt, d);
      var p := o + |Open(fmt)|;
      ReadsMembers(c, p, ms, fmt, d + 1, d, if pd < NESTING_LIMIT then pd + 1 else pd);
      ObjectFrom(c, o, p, pd, ms, NestMembers(ms), p + |PrintMembers(ms, fmt, d + 1)| + |Close(fmt, d)|);
    }
  }

  lemma {:induction false} ObjectLength(ms: seq<Member>, fmt: Style, d: nat)
    ensures |Print(Object(ms), fmt, d)| == |Open(fmt)| + |PrintMembers(ms, fmt, d + 1)| + |Close(fmt, d)|
  {
  }

  lemma {:induction false} ReadsEmptyObject(c: seq<char>, o: nat, fmt: Style, d: nat, pd: nat)
    requires Terminated(c) && o < |c| && pd <= NESTING_LIMIT && LooksAt(c, o, Open(fmt) + [] + Close(fmt, d))
    ensures c[o] == '{' && Is(ParseObject(c, o, pd), Object([]), pd + 1, o + |Open(fmt)| + |Close(fmt, d)|)
  {
    Braces(c, o, [], fmt, d);
    assert [] + Close(fmt, d) == Close(fmt, d);
    ReadsClose(c, o + |Open(fmt)|, fmt, d);
    EmptyObject(c, o, pd);
  }

  /**
   Parse undoes print: the printed text of a tree without raw items parses, to the end, to the same
   tree with the same member order exactly when the tree is nested at most 1000 deep.
   */
  lemma {:induction false} ParsePrinted(v: JSON, fmt: Style, requireEnd: bool)
    requires Plain(v) && Readable(v, fmt)
    ensures ParseText(Print(v, fmt, 0), requireEnd) == if Nest(v) <= NESTING_LIMIT then Some(v) else None
  {
    var text := Print(v, fmt, 0);
    var c := text + ['\0'];
    assert Terminated(c);
    assert LooksAt(c, 0, text);
    PrintStarts(v, fmt, 0);
    assert c[0] == text[0];
    SkipNothing(c, 0);
    ReadsValue(c, 0, v, fmt, 0, 0);
    assert SkipRun(c, |text|) == |c|;
  }

  /** A style that prints integers of up to 15 digits in plain decimal, as "%1.15g" does. */
  ghost predicate PrintsIntegers(fmt: Style) {
    forall x: real :: IntegralNumber(x) ==> fmt.number(x) == IntegerText(x)
  }

  lemma {:induction false} IntegralIsReadable(v: JSON, fmt: Style)
    requires PrintsIntegers(fmt) && Integral(v)
    ensures Readable(v, fmt)
    decreases v
  {
    match v
    case Number(x) => IntegerReadsBack(x);
    case Array(items) =>
      forall i | 0 <= i < |items| ensures Readable(items[i], fmt) {
        IntegralIsReadable(items[i], fmt);
      }
    case Object(ms) =>
      forall i | 0 <= i < |ms| ensures Readable(ms[i].value, fmt) {
        IntegralIsReadable(ms[i].value, fmt);
      }
    case _ =>
  }

  /** So for every tree of integers, strings, literals, arrays and objects parse undoes print. */
  lemma ParsePrintedIntegers(v: JSON, fmt: Style, requireEnd: bool)
    requires Plain(v) && Integral(v) && PrintsIntegers(fmt)
    ensures ParseText(Print(v, fmt, 0), requireEnd) == if Nest(v) <= NESTING_LIMIT then Some(v) else None
  {
    IntegralIsReadable(v, fmt);
    ParsePrinted(v, fmt, requireEnd);
  }
}
