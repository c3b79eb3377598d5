/**
 The text of a JSON item, compact and formatted (RFC 8259; strings as in its section 7).
 */
module Text {
  import opened Wrappers
  import opened CStrings
  import opened Json

  const BACKSPACE: cchar := 8 as char
  const FORM_FEED: cchar := 12 as char
  const QUOTE: CStr := ['\"']

  /** Formatted or not, and the text of numbers: what sprintf makes of them, with '.' for the decimal point. */
  datatype Style = Style(formatted: bool, number: real -> CStr)

  /** The longest number text that print_number has room for. */
  const NUMBER_ROOM := 25

  function Compact(fmt: Style): Style { fmt.(formatted := false) }

  /** Numbers that "%1.15g" prints as plain decimal integers. */
  const DECIMAL_RANGE: int := 1_000_000_000_000_000

  predicate IntegralNumber(x: real) {
    x == x.Floor as real && -DECIMAL_RANGE < x.Floor < DECIMAL_RANGE
  }

  function IntegerText(x: real): (s: CStr)
    ensures s != []
  {
    if x.Floor < 0 then "-" + Decimal(-x.Floor) else Decimal(x.Floor)
  }

  function HexDigit(n: nat): cchar
    requires n < 16
  {
    if n < 10 then ('0' as int + n) as char else ('a' as int + (n - 10)) as char
  }

  /** The letter behind the backslash of a two-character escape, if the byte has one. */
  function ShortEscape(c: cchar): Option<cchar> {
    if c == '\"' || c == '\\' then Some(c)
    else if c == BACKSPACE then Some('b')
    else if c == FORM_FEED then Some('f')
    else if c == '\n' then Some('n')
    else if c == '\r' then Some('r')
    else if c == '\t' then Some('t')
    else None
  }

  /** How one byte of a string is written. */
  function EscapeChar(c: cchar): (s: CStr)
    ensures s != []
  {
    if ShortEscape(c).Some? then ['\\', ShortEscape(c).value]
    else if c < ' ' then ['\\', 'u', '0', '0', HexDigit(c as int / 16), HexDigit(c as int % 16)]
    else [c]
  }

  function Escape(s: CStr): CStr {
    if s == [] then [] else EscapeChar(s[0]) + Escape(s[1..])
  }

  function Quote(s: CStr): CStr {
    QUOTE + Escape(s) + QUOTE
  }

  function Tabs(n: nat): (s: CStr)
    ensures |s| == n && forall i :: 0 <= i < n ==> s[i] == '\t'
  {
    seq(n, i => '\t')
  }

  const NULL_TEXT: CStr := "null"
  const TRUE_TEXT: CStr := "true"
  const FALSE_TEXT: CStr := "false"

  function Comma(fmt: Style): CStr { if fmt.formatted then [',', ' '] else [','] }
  function Colon(fmt: Style): CStr { if fmt.formatted then [':', '\t'] else [':'] }
  function Open(fmt: Style): CStr { if fmt.formatted then ['{', '\n'] else ['{'] }
  function Indent(fmt: Style, depth: nat): CStr { if fmt.formatted then Tabs(depth) else [] }
  function Close(fmt: Style, depth: nat): CStr { Indent(fmt, depth) + ['}'] }
  function NameText(key: CStr, fmt: Style): CStr { Quote(key) + Colon(fmt) }
  function MemberStart(key: CStr, fmt: Style, depth: nat): CStr { Indent(fmt, depth) + NameText(key, fmt) }
  function Separator(fmt: Style, last: bool): CStr { if last then [] else Comma(fmt) }
  function MemberEnd(fmt: Style, last: bool): CStr {
    (if last then [] else [',']) + if fmt.formatted then ['\n'] else []
  }

  /** What print_value writes at a nesting depth. */
  function Print(v: JSON, fmt: Style, depth: nat): CStr
    decreases v, 0
  {
    match v
    case Invalid => []
    case False => FALSE_TEXT
    case True => TRUE_TEXT
    case Null => NULL_TEXT
    case Number(x) => fmt.number(x)
    case String(s) => Quote(s)
    case Raw(s) => s
    case Array(items) => ['['] + PrintItems(items, fmt, depth + 1) + [']']
    case Object(ms) => Open(fmt) + PrintMembers(ms, fmt, depth + 1) + Close(fmt, depth)
  }

  function PrintItems(items: seq<JSON>, fmt: Style, depth: nat): CStr
    decreases items
  {
    if items == [] then []
    else PrintItem(items[0], fmt, depth, |items| == 1) + PrintItems(items[1..], fmt, depth)
  }

  function PrintItem(v: JSON, fmt: Style, depth: nat, last: bool): CStr
    decreases v, 1
  {
    Print(v, fmt, depth) + Separator(fmt, last)
  }

  function NamedText(m: Member, fmt: Style, depth: nat): CStr
    decreases m, 0
  {
    NameText(m.key, fmt) + Print(m.value, fmt, depth)
  }

  function MemberText(m: Member, fmt: Style, depth: nat): CStr
    decreases m, 1
  {
    Indent(fmt, depth) + NamedText(m, fmt, depth)
  }

  function PrintMember(m: Member, fmt: Style, depth: nat, last: bool): CStr
    decreases m, 2
  {
    MemberText(m, fmt, depth) + MemberEnd(fmt, last)
  }

  function PrintMembers(ms: seq<Member>, fmt: Style, depth: nat): CStr
    decreases ms
  {
    if ms == [] then [] else PrintMember(ms[0], fmt, depth, |ms| == 1) + PrintMembers(ms[1..], fmt, depth)
  }

  /** Items that print_value accepts at all: none is invalid, and no number is too long for its buffer. */
  predicate Printable(v: JSON, fmt: Style)
    decreases v
  {
    match v
    case Invalid => false
    case Number(x) => |fmt.number(x)| <= NUMBER_ROOM
    case Array(items) => forall i :: 0 <= i < |items| ==> Printable(items[i], fmt)
    case Object(ms) => forall i :: 0 <= i < |ms| ==> Printable(ms[i].value, fmt)
    case _ => true
  }

  /** Items whose numbers are integers of at most 15 digits. */
  predicate Integral(v: JSON)
    decreases v
  {
    match v
    case Number(x) => IntegralNumber(x)
    case Array(items) => forall i :: 0 <= i < |items| ==> Integral(items[i])
    case Object(ms) => forall i :: 0 <= i < |ms| ==> Integral(ms[i].value)
    case _ => true
  }

  lemma {:induction false} EscapeLength(s: CStr)
    ensures |Escape(s)| >= |s|
    ensures |Escape(s)| == |s| ==> Escape(s) == s
  {
    if s != [] {
      EscapeLength(s[1..]);
      assert s == [s[0]] + s[1..];
    }
  }

  lemma EscapeStep(s: CStr, i: nat)
    requires i < |s|
    ensures Escape(s[i..]) == EscapeChar(s[i]) + Escape(s[i + 1..])
  {
    assert s[i..][1..] == s[i + 1..];
  }

  lemma MemberTextStarts(m: Member, fmt: Style, depth: nat)
    ensures MemberText(m, fmt, depth) == MemberStart(m.key, fmt, depth) + Print(m.value, fmt, depth)
  {
    Regroup(Indent(fmt, depth), NameText(m.key, fmt), Print(m.value, fmt, depth));
  }

  /** One step of printing the items from position i on. */
  lemma ItemsStep(items: seq<JSON>, i: nat, fmt: Style, depth: nat)
    requires i < |items|
    ensures PrintItems(items[i..], fmt, depth) ==
            PrintItem(items[i], fmt, depth, i + 1 == |items|) + PrintItems(items[i + 1..], fmt, depth)
  {
    assert items[i..][1..] == items[i + 1..];
  }

  /** One step of printing the members from position i on. */
  lemma MembersStep(ms: seq<Member>, i: nat, fmt: Style, depth: nat)
    requires i < |ms|
    ensures PrintMembers(ms[i..], fmt, depth) ==
            PrintMember(ms[i], fmt, depth, i + 1 == |ms|) + PrintMembers(ms[i + 1..], fmt, depth)
  {
    assert ms[i..][1..] == ms[i + 1..];
  }
}
