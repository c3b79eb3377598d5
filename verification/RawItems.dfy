/**
 Raw items in the printed text, and which bytes of a string are escaped.
 */
module RawItems {
  import opened Wrappers
  import opened CStrings
  import opened Json
  import opened Text
  import opened RoundTrip

  /** Every raw item replaced by the tree its text stands for. */
  function Expand(v: JSON, f: CStr -> JSON): JSON
    decreases v
  {
    match v
    case Raw(s) => f(s)
    case Array(items) => Array(seq(|items|, i requires 0 <= i < |items| => Expand(items[i], f)))
    case Object(ms) =>
      Object(seq(|ms|, i requires 0 <= i < |ms| => Member(ms[i].key, Expand(ms[i].value, f))))
    case _ => v
  }

  /** The raw items hold the compact text of those trees. */
  ghost predicate StandsFor(v: JSON, f: CStr -> JSON, cmp: Style)
    decreases v
  {
    match v
    case Raw(s) => Print(f(s), cmp, 0) == s
    case Array(items) => forall i :: 0 <= i < |items| ==> StandsFor(items[i], f, cmp)
    case Object(ms) => forall i :: 0 <= i < |ms| ==> StandsFor(ms[i].value, f, cmp)
    case _ => true
  }

  /** The compact text does not depend on the depth. */
  lemma {:induction false} CompactAnywhere(v: JSON, cmp: Style, d: nat, e: nat)
    requires !cmp.formatted
    ensures Print(v, cmp, d) == Print(v, cmp, e)
    decreases v, 0
  {
    match v
    case Array(items) => CompactItems(items, cmp, d + 1, e + 1);
    case Object(ms) => CompactMembers(ms, cmp, d + 1, e + 1);
    case _ =>
  }

  lemma {:induction false} CompactItems(items: seq<JSON>, cmp: Style, d: nat, e: nat)
    requires !cmp.formatted
    ensures PrintItems(items, cmp, d) == PrintItems(items, cmp, e)
    decreases items
  {
    if items != [] {
      CompactAnywhere(items[0], cmp, d, e);
      CompactItems(items[1..], cmp, d, e);
    }
  }

  lemma {:induction false} CompactMembers(ms: seq<Member>, cmp: Style, d: nat, e: nat)
    requires !cmp.formatted
    ensures PrintMembers(ms, cmp, d) == PrintMembers(ms, cmp, e)
    decreases ms
  {
    if ms != [] {
      CompactAnywhere(ms[0].value, cmp, d, e);
      SameMember(ms[0], ms[0], cmp, d, e, |ms| == 1);
      CompactMembers(ms[1..], cmp, d, e);
    }
  }

  lemma SameMember(x: Member, y: Member, cmp: Style, d: nat, e: nat, last: bool)
    requires !cmp.formatted && x.key == y.key && Print(x.value, cmp, d) == Print(y.value, cmp, e)
    ensures PrintMember(x, cmp, d, last) == PrintMember(y, cmp, e, last)
  {
    assert NamedText(x, cmp, d) == NamedText(y, cmp, e);
    assert MemberText(x, cmp, d) == MemberText(y, cmp, e);
  }

  /** A raw item is printed as it is, so the text is that of the tree it stands in. */
  lemma {:induction false} RawPrints(v: JSON, f: CStr -> JSON, cmp: Style, d: nat)
    requires !cmp.formatted && StandsFor(v, f, cmp)
    ensures Print(v, cmp, d) == Print(Expand(v, f), cmp, d)
    decreases v, 0
  {
    match v
    case Raw(s) => CompactAnywhere(f(s), cmp, 0, d);
    case Array(items) => RawItemsPrint(items, Expand(v, f).items, f, cmp, d + 1);
    case Object(ms) => RawMembersPrint(ms, Expand(v, f).members, f, cmp, d + 1);
    case _ =>
  }

  lemma {:induction false} RawItemsPrint(xs: seq<JSON>, ys: seq<JSON>, f: CStr -> JSON, cmp: Style, d: nat)
    requires !cmp.formatted && |xs| == |ys|
    requires forall i :: 0 <= i < |xs| ==> StandsFor(xs[i], f, cmp) && ys[i] == Expand(xs[i], f)
    ensures PrintItems(xs, cmp, d) == PrintItems(ys, cmp, d)
    decreases xs
  {
    if xs != [] {
      RawPrints(xs[0], f, cmp, d);
      RawItemsPrint(xs[1..], ys[1..], f, cmp, d);
    }
  }

  lemma {:induction false} RawMembersPrint(xs: seq<Member>, ys: seq<Member>, f: CStr -> JSON, cmp: Style, d: nat)
    requires !cmp.formatted && |xs| == |ys|
    requires forall i :: 0 <= i < |xs| ==>
               StandsFor(xs[i].value, f, cmp) && ys[i] == Member(xs[i].key, Expand(xs[i].value, f))
    ensures PrintMembers(xs, cmp, d) == PrintMembers(ys, cmp, d)
    decreases xs
  {
    if xs != [] {
      RawPrints(xs[0].value, f, cmp, d);
      SameMember(xs[0], ys[0], cmp, d, d, |xs| == 1);
      RawMembersPrint(xs[1..], ys[1..], f, cmp, d);
    }
  }

  /** So parsing the printed text gives the tree with every raw item replaced by what it stands for. */
  lemma ParseRaw(v: JSON, f: CStr -> JSON, cmp: Style, requireEnd: bool)
    requires !cmp.formatted && StandsFor(v, f, cmp) && Plain(Expand(v, f)) && Readable(Expand(v, f), cmp)
    ensures Parsing.ParseText(Print(v, cmp, 0), requireEnd) ==
            if Nest(Expand(v, f)) <= 1000 then Some(Expand(v, f)) else None
  {
    RawPrints(v, f, cmp, 0);
    ParsePrinted(Expand(v, f), cmp, requireEnd);
  }

  // ---------- strings ----------

  /**
   Which bytes are escaped and with how many: quote, backslash and the five control characters that have a letter with
   two, the other control characters with six, digits in small letters; every other byte stands for itself.
   */
  lemma EscapeSizes(c: cchar)
    ensures var s := EscapeChar(c);
            && (|s| == 1 <==> c as int >= 0x20 && c as int != 0x22 && c as int != 0x5C) && (|s| == 1 ==> s == [c])
            && (|s| == 2 <==> c as int in {0x08, 0x09, 0x0A, 0x0C, 0x0D, 0x22, 0x5C})
            && (|s| == 1 || |s| == 2 || |s| == 6)
            && forall i :: 0 <= i < |s| && |s| == 6 ==> !('A' <= s[i] <= 'Z')
  {
  }
}
