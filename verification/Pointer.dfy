/**
 JSON Pointers as cJSON_Utils reads and writes them (section 4 of RFC 6901).
 */
module Pointer {
  import opened Wrappers
  import opened CStrings
  import opened Json

  /** Keys the escaping code handles: no '/' and no '~'. */
  predicate Clean(s: CStr) {
    forall i :: 0 <= i < |s| ==> s[i] != '/' && s[i] != '~'
  }

  /** What may follow a token inside a pointer. */
  predicate TokenEnd(rest: CStr) {
    rest == [] || rest[0] == '/'
  }

  /** compare_pointers: does this name spell the first token of the pointer? */
  function ComparePointer(name: CStr, p: CStr, cs: bool): bool {
    if name != [] && p != [] && p[0] != '/' then
      if p[0] == '~' then
        && ((CharAt(p, 1) == '0' && name[0] == '~') || (CharAt(p, 1) == '1' && name[0] == '/'))
        && ComparePointer(name[1..], p[2..], cs)
      else
        FoldChar(name[0], cs) == FoldChar(p[0], cs) && ComparePointer(name[1..], p[1..], cs)
    else
      (p != [] && p[0] != '/') == (name != [])
  }

  method ComparePointers(name: CStr, pointer: CStr, cs: bool) returns (same: bool)
    ensures same == ComparePointer(name, pointer, cs)
  {
    var n, p := 0, 0;
    assert name[0..] == name && pointer[0..] == pointer;
    while CharAt(name, n) != '\0' && CharAt(pointer, p) != '\0' && CharAt(pointer, p) != '/'
      invariant n <= |name| && p <= |pointer|
      invariant ComparePointer(name, pointer, cs) == ComparePointer(name[n..], pointer[p..], cs)
      decreases |name| - n
    {
      assert name[n..][1..] == name[n + 1..] && pointer[p..][1..] == pointer[p + 1..];
      if CharAt(pointer, p) == '~' {
        var c := CharAt(pointer, p + 1);
        if (c != '0' || name[n] != '~') && (c != '1' || name[n] != '/') {
          return false;
        }
        assert pointer[p..][2..] == pointer[p + 2..];
        p := p + 1;
      } else if FoldChar(name[n], cs) != FoldChar(pointer[p], cs) {
        return false;
      }
      n, p := n + 1, p + 1;
    }
    same := (CharAt(pointer, p) != '\0' && CharAt(pointer, p) != '/') == (CharAt(name, n) != '\0');
  }

  /** What memory holds before it is written: a byte for every position behind the start of a token. */
  type Memory = nat -> char

  /**
   encode_string_as_pointer. For '/' the first of the two bytes is never written, so it keeps what the
   buffer held there; for '~' the second byte is always '1'.
   */
  function EncodeBytes(s: CStr, mem: Memory, k: nat): seq<char> {
    if s == [] then []
    else EncodeChar(s[0], mem(k)) + EncodeBytes(s[1..], mem, k + |EncodeChar(s[0], mem(k))|)
  }

  function EncodeChar(c: cchar, held: char): seq<char> {
    if c == '/' then [held, '1'] else if c == '~' then ['~', '1'] else [c]
  }

  /** A fresh buffer behind sprintf("%s/", path): the terminator stands where the token will start. */
  function BehindPath(junk: Memory): Memory {
    (i: nat) => if i == 0 then '\0' else junk(i)
  }

  /** The token that readers of the path see: the encoded bytes up to the first NUL. */
  function EncodeToken(s: CStr, junk: Memory): CStr {
    CStringOf(EncodeBytes(s, BehindPath(junk), 0))
  }

  /** encode_string_as_pointer writing over whatever the buffer holds. */
  method EncodeStringAsPointer(dest: array<char>, start: nat, source: CStr, ghost mem: Memory)
    requires start + |EncodeBytes(source, mem, 0)| < dest.Length
    requires forall i :: start <= i < dest.Length ==> dest[i] == mem(i - start)
    modifies dest
    ensures forall i :: 0 <= i < start ==> dest[i] == old(dest[i])
    ensures dest[start..start + |EncodeBytes(source, mem, 0)|] == EncodeBytes(source, mem, 0)
    ensures dest[start + |EncodeBytes(source, mem, 0)|] == '\0'
  {
    var s, d := 0, start;
    ghost var done: seq<char>, all := [], EncodeBytes(source, mem, 0);
    assert source[0..] == source;
    while s < |source|
      invariant s <= |source| && d == start + |done|
      invariant done + EncodeBytes(source[s..], mem, |done|) == all
      invariant forall i :: 0 <= i < start ==> dest[i] == old(dest[i])
      invariant forall i :: d <= i < dest.Length ==> dest[i] == mem(i - start)
      invariant forall i :: 0 <= i < |done| ==> dest[start + i] == done[i]
    {
      ghost var one := EncodeStep(source, mem, s, done, all);
      d := EncodeOne(dest, d, source[s]);
      done, s := done + one, s + 1;
    }
    assert done == all;
    dest[d] := '\0';
  }

  /** One round of the encoding loop. */
  method EncodeOne(dest: array<char>, d: nat, c: cchar) returns (d': nat)
    requires d < dest.Length && d + |EncodeChar(c, dest[d])| <= dest.Length
    modifies dest
    ensures d' == d + |EncodeChar(c, old(dest[d]))|
    ensures forall i :: d <= i < d' ==> dest[i] == EncodeChar(c, old(dest[d]))[i - d]
    ensures forall i :: 0 <= i < dest.Length && !(d <= i < d') ==> dest[i] == old(dest[i])
  {
    d' := d + 1;
    if c == '/' {
      dest[d + 1] := '1';
      d' := d + 2;
    } else if c == '~' {
      dest[d] := '~';
      dest[d + 1] := '1';
      d' := d + 2;
    } else {
      dest[d] := c;
    }
  }

  /** One character of the encoding. */
  lemma EncodeStep(source: CStr, mem: Memory, s: nat, done: seq<char>, all: seq<char>) returns (one: seq<char>)
    requires s < |source| && done + EncodeBytes(source[s..], mem, |done|) == all
    ensures one == EncodeChar(source[s], mem(|done|)) && |done| + |one| <= |all|
    ensures done + one + EncodeBytes(source[s + 1..], mem, |done + one|) == all
  {
    one := EncodeChar(source[s], mem(|done|));
    assert source[s..][1..] == source[s + 1..];
    Regroup(done, one, EncodeBytes(source[s + 1..], mem, |done + one|));
  }

  lemma {:induction false} CleanBytes(s: CStr, mem: Memory, k: nat)
    requires Clean(s)
    ensures EncodeBytes(s, mem, k) == s
    decreases s
  {
    if s != [] {
      CleanBytes(s[1..], mem, k + 1);
    }
  }

  lemma CleanEncoding(s: CStr, junk: Memory)
    requires Clean(s)
    ensures EncodeToken(s, junk) == s
  {
    CleanBytes(s, BehindPath(junk), 0);
    CStringOfPlain(s);
  }

  /** The encoding over memory filled with one byte. */
  function EncodeOver(s: CStr, fill: cchar): CStr {
    if s == [] then [] else EncodeChar(s[0], fill) + EncodeOver(s[1..], fill)
  }

  function Filled(fill: cchar): Memory { (i: nat) => fill }

  lemma {:induction false} BytesOver(s: CStr, mem: Memory, k: nat, fill: cchar)
    requires forall i :: k <= i ==> mem(i) == fill
    ensures EncodeBytes(s, mem, k) == EncodeOver(s, fill)
    decreases s
  {
    if s != [] {
      BytesOver(s[1..], mem, k + |EncodeChar(s[0], mem(k))|, fill);
    }
  }

  /** A key that starts with '/' leaves an empty token; any other is encoded over what memory holds. */
  lemma TokenOver(s: CStr, fill: cchar)
    ensures EncodeToken(s, Filled(fill)) == if s != [] && s[0] == '/' then [] else EncodeOver(s, fill)
  {
    var mem := BehindPath(Filled(fill));
    if s != [] {
      BytesOver(s[1..], mem, |EncodeChar(s[0], mem(0))|, fill);
    }
    CStringOfPlain(EncodeOver(s, fill));
  }

  /** A clean token in a pointer is matched by exactly the names that are that key. */
  lemma {:induction false} CleanTokenMatches(name: CStr, tok: CStr, rest: CStr, cs: bool)
    requires Clean(tok) && TokenEnd(rest)
    ensures ComparePointer(name, tok + rest, cs) <==> Fold(name, cs) == Fold(tok, cs)
  {
    var p := tok + rest;
    if tok == [] {
      assert p == rest;
    } else if name != [] {
      assert p[1..] == tok[1..] + rest;
      CleanTokenMatches(name[1..], tok[1..], rest, cs);
      assert Fold(name, cs) == [FoldChar(name[0], cs)] + Fold(name[1..], cs);
      assert Fold(tok, cs) == [FoldChar(tok[0], cs)] + Fold(tok[1..], cs);
    } else {
      assert p[0] == tok[0];
    }
  }

  /**
   Escaping a key into a pointer and matching it again works, whatever the buffer held before,
   exactly for the keys without '/' and '~'.
   */
  lemma EscapingWorksIffClean(key: CStr, cs: bool)
    ensures (forall junk: Memory :: ComparePointer(key, EncodeToken(key, junk), cs)) <==> Clean(key)
  {
    if Clean(key) {
      forall junk: Memory ensures ComparePointer(key, EncodeToken(key, junk), cs) {
        CleanEncoding(key, junk);
        CleanTokenMatches(key, key, [], cs);
        assert key + [] == key;
      }
    } else {
      EscapingFails(key, cs);
    }
  }

  /** Memory that holds no '~' shows it. */
  lemma EscapingFails(key: CStr, cs: bool)
    requires !Clean(key)
    ensures !ComparePointer(key, EncodeToken(key, Filled('x')), cs)
  {
    TokenOver(key, 'x');
    if key[0] != '/' {
      EscapingBroken(key, cs);
    }
  }

  lemma {:induction false} EscapingBroken(key: CStr, cs: bool)
    requires !Clean(key)
    ensures !ComparePointer(key, EncodeOver(key, 'x'), cs)
  {
    var p := EncodeOver(key, 'x');
    if key[0] != '/' && key[0] != '~' {
      assert p[1..] == EncodeOver(key[1..], 'x');
      EscapingBroken(key[1..], cs);
    }
  }

  // ---------- decoding in place ----------

  /**
   decode_pointer_inplace from read position i and write position d on. Ordinary bytes are
   skipped over, not copied, and an escaped '/' goes one position too far.
   */
  function DecodeFrom(buf: seq<char>, d: nat, i: nat): (r: seq<char>)
    requires d <= i < |buf| && buf[|buf| - 1] == '\0'
    ensures |r| == |buf|
    decreases |buf| - i
  {
    if buf[i] == '\0' then buf[d := '\0']
    else if buf[i] == '~' then
      if buf[i + 1] == '0' then DecodeFrom(buf[d := '~'], d + 1, i + 2)
      else if buf[i + 1] == '1' then DecodeFrom(buf[d + 1 := '/'], d + 1, i + 2)
      else buf
    else DecodeFrom(buf, d + 1, i + 1)
  }

  method DecodePointerInPlace(buf: array<char>)
    requires buf.Length > 0 && buf[buf.Length - 1] == '\0'
    modifies buf
    ensures buf[..] == DecodeFrom(old(buf[..]), 0, 0)
  {
    var d, i := 0, 0;
    while buf[i] != '\0'
      invariant 0 <= d <= i < buf.Length && buf[buf.Length - 1] == '\0'
      invariant DecodeFrom(buf[..], d, i) == DecodeFrom(old(buf[..]), 0, 0)
      decreases buf.Length - i
    {
      ghost var b := buf[..];
      if buf[i] == '~' {
        if buf[i + 1] == '0' {
          buf[d] := '~';
          assert buf[..] == b[d := '~'];
        } else if buf[i + 1] == '1' {
          buf[d + 1] := '/';
          assert buf[..] == b[d + 1 := '/'];
        } else {
          return;
        }
        i := i + 1;
      }
      d, i := d + 1, i + 1;
    }
    ghost var b := buf[..];
    buf[d] := '\0';
    assert buf[..] == b[d := '\0'];
  }

  /** The name a patch operation uses for the last token of its path. */
  function DecodeToken(s: CStr): CStr {
    CStringOf(DecodeFrom(s + ['\0'], 0, 0))
  }

  lemma {:induction false} DecodeSkips(buf: seq<char>, i: nat)
    requires i < |buf| && buf[|buf| - 1] == '\0'
    requires forall j :: 0 <= j < |buf| ==> buf[j] != '~' && (buf[j] == '\0' ==> j == |buf| - 1)
    ensures DecodeFrom(buf, i, i) == buf
    decreases |buf| - i
  {
    if buf[i] != '\0' {
      DecodeSkips(buf, i + 1);
    }
  }

  lemma DecodeClean(s: CStr)
    requires Clean(s)
    ensures DecodeToken(s) == s
  {
    DecodeSkips(s + ['\0'], 0);
    CStringOfTerminated(s, []);
    CStringOfPlain(s);
    assert s + ['\0'] + [] == s + ['\0'];
  }

  /** An escaped '/' does not come out as '/'. */
  lemma DecodeEscapedSlash()
    ensures DecodeToken("~1") == "~"
  {
    var buf := ['~', '1', '\0'];
    assert "~1" + ['\0'] == buf;
    assert buf[1 := '/'] == ['~', '/', '\0'];
    assert DecodeFrom(['~', '/', '\0'], 1, 2) == ['~', '\0', '\0'];
    CStringOfTerminated("~", ['\0']);
    CStringOfPlain("~");
    assert "~" + ['\0'] + ['\0'] == ['~', '\0', '\0'];
  }

  // ---------- array indices ----------

  const SIZE_T_RANGE := 0x1_0000_0000

  /** Where the digit loop stops; it tests the first character for <= '9', not the current one. */
  function IndexEnd(p: CStr, i: nat): (e: nat)
    requires i <= |p|
    ensures i <= e <= |p|
    ensures forall j :: i <= j < e ==> p[j] >= '0'
    decreases |p| - i
  {
    if i < |p| && p[i] >= '0' && p[0] <= '9' then IndexEnd(p, i + 1) else i
  }

  /** The accumulated index, wrapping as a 32-bit size_t. */
  function IndexValue(s: CStr): int {
    if s == [] then 0
    else (10 * IndexValue(s[..|s| - 1]) + (s[|s| - 1] as int - '0' as int)) % SIZE_T_RANGE
  }

  /** decode_array_index_from_pointer */
  function DecodeIndex(p: CStr): (r: Option<nat>)
  {
    if CharAt(p, 0) == '0' && CharAt(p, 1) != '\0' && CharAt(p, 1) != '/' then None
    else
      var e := IndexEnd(p, 0);
      if e < |p| && p[e] != '/' then None
      else IndexRange(p[..e]); Some(IndexValue(p[..e]))
  }

  lemma IndexRange(s: CStr)
    ensures 0 <= IndexValue(s)
  {
  }

  method DecodeArrayIndex(p: CStr) returns (r: Option<nat>)
    ensures r == DecodeIndex(p)
  {
    if CharAt(p, 0) == '0' && CharAt(p, 1) != '\0' && CharAt(p, 1) != '/' {
      return None;
    }
    var i, index := 0, 0;
    while CharAt(p, i) >= '0' && CharAt(p, 0) <= '9'
      invariant i <= |p| && IndexEnd(p, 0) == IndexEnd(p, i)
      invariant index == IndexValue(p[..i]) >= 0
      decreases |p| - i
    {
      assert p[..i + 1][..i] == p[..i];
      index := (10 * index + (p[i] as int - '0' as int)) % SIZE_T_RANGE;
      i := i + 1;
    }
    if CharAt(p, i) != '\0' && CharAt(p, i) != '/' {
      return None;
    }
    return Some(index);
  }

  lemma {:induction false} IndexEndOfToken(tok: CStr, rest: CStr, i: nat)
    requires TokenEnd(rest) && i <= |tok| && (tok == [] ==> rest == [] || rest[0] == '/')
    ensures IndexEnd(tok + rest, i) == IndexEnd(tok, i)
    decreases |tok| - i
  {
    var p := tok + rest;
    if i < |tok| {
      assert p[i] == tok[i] && p[0] == tok[0];
      if tok[i] >= '0' && tok[0] <= '9' {
        IndexEndOfToken(tok, rest, i + 1);
      }
    } else if i < |p| {
      assert p[i] == rest[0] == '/';
    }
  }

  /** Only the token counts, not what follows it. */
  lemma IndexOfToken(tok: CStr, rest: CStr)
    requires (forall i :: 0 <= i < |tok| ==> tok[i] != '/') && TokenEnd(rest)
    ensures DecodeIndex(tok + rest) == DecodeIndex(tok)
  {
    var p := tok + rest;
    IndexEndOfToken(tok, rest, 0);
    var e := IndexEnd(tok, 0);
    assert p[..e] == tok[..e];
    if e < |tok| {
      assert p[e] == tok[e];
    } else if e < |p| {
      assert p[e] == rest[0];
    }
    if |tok| >= 2 {
      assert p[0] == tok[0] && p[1] == tok[1];
    } else if |tok| == 1 {
      assert p[0] == tok[0] && (rest != [] ==> p[1] == '/');
    } else {
      assert p == rest;
    }
  }

  lemma {:induction false} IndexEndOfDigits(s: CStr, i: nat)
    requires i <= |s| && forall j :: 0 <= j < |s| ==> '0' <= s[j] <= '9'
    ensures IndexEnd(s, i) == |s|
    decreases |s| - i
  {
    if i < |s| {
      IndexEndOfDigits(s, i + 1);
    }
  }

  lemma {:induction false} IndexValueOfDigits(n: nat)
    requires n < SIZE_T_RANGE
    ensures IndexValue(Decimal(n)) == n
  {
    if n < 10 {
      assert Decimal(n)[..0] == [];
    } else {
      IndexValueOfDigits(n / 10);
      assert Decimal(n)[..|Decimal(n)| - 1] == Decimal(n / 10);
    }
  }

  /** The index that sprintf wrote is the index that is read back. */
  lemma IndexRoundTrip(n: nat)
    requires n < SIZE_T_RANGE
    ensures Clean(Decimal(n)) && DecodeIndex(Decimal(n)) == Some(n)
  {
    var s := Decimal(n);
    IndexEndOfDigits(s, 0);
    IndexValueOfDigits(n);
    assert s[..|s|] == s;
  }

  /** A decimal number without leading zeros that a size_t can hold. */
  predicate Canonical(tok: CStr) {
    tok != [] && (forall i :: 0 <= i < |tok| ==> '0' <= tok[i] <= '9') && (tok[0] == '0' ==> |tok| == 1)
    && DigitsValue(tok) < SIZE_T_RANGE
  }

  lemma {:induction false} DigitsAreDecimal(s: CStr)
    requires s != [] && (forall i :: 0 <= i < |s| ==> '0' <= s[i] <= '9') && (s[0] == '0' ==> |s| == 1)
    ensures DigitsValue(s) >= 0 && Decimal(DigitsValue(s)) == s
    ensures s[0] != '0' ==> DigitsValue(s) > 0
  {
    var front, last := s[..|s| - 1], s[|s| - 1];
    assert s == front + [last];
    if |s| > 1 {
      DigitsAreDecimal(front);
      var v := DigitsValue(front);
      assert DigitsValue(s) / 10 == v && DigitsValue(s) % 10 == last as int - '0' as int;
    } else {
      assert DigitsValue(front) == 0;
    }
  }

  lemma IndexBelow(s: CStr)
    ensures IndexValue(s) < SIZE_T_RANGE
  {
  }

  /**
   The loop stops neither at letters nor at overflow, and an empty token reads as 0: an index is what its
   token says if and only if the token is a canonical decimal below 2^32.
   */
  lemma IndexRightIff(tok: CStr)
    ensures DecodeIndex(tok).Some? && tok == Decimal(DecodeIndex(tok).value) <==> Canonical(tok)
  {
    if Canonical(tok) {
      DigitsAreDecimal(tok);
      IndexRoundTrip(DigitsValue(tok));
    } else if DecodeIndex(tok).Some? {
      var n := DecodeIndex(tok).value;
      IndexBelow(tok[..IndexEnd(tok, 0)]);
      if tok == Decimal(n) {
        DecimalValue(n);
      }
    }
  }

  /** Behind a digit a letter counts, here as 49, and nothing at all counts as 0. */
  lemma WrongIndices()
    ensures DecodeIndex("1a") == Some(59) && DecodeIndex("") == Some(0)
  {
    var p: CStr := "1a";
    assert IndexEnd(p, 2) == 2 && IndexEnd(p, 1) == 2;
    assert p[..2][..1] == ['1'] && ['1'][..0] == [];
    assert IndexValue(['1']) == 1;
  }

  // ---------- following a pointer ----------

  function SkipToken(p: CStr): (r: CStr)
    ensures |r| <= |p|
    ensures TokenEnd(r)
  {
    if p == [] || p[0] == '/' then p else SkipToken(p[1..])
  }

  /** The member loop of get_item_from_pointer. */
  function FindPointer(ms: seq<Member>, p: CStr, cs: bool): (i: nat)
    ensures i <= |ms|
    ensures i < |ms| ==> ComparePointer(ms[i].key, p, cs)
    ensures forall j :: 0 <= j < i ==> !ComparePointer(ms[j].key, p, cs)
  {
    if ms == [] || ComparePointer(ms[0].key, p, cs) then 0 else 1 + FindPointer(ms[1..], p, cs)
  }

  predicate HasChild(v: JSON, i: nat) {
    (v.Array? && i < |v.items|) || (v.Object? && i < |v.members|)
  }

  function ChildOf(v: JSON, i: nat): (c: JSON)
    requires HasChild(v, i)
    ensures c < v
  {
    if v.Array? then v.items[i] else v.members[i].value
  }

  function WithChild(v: JSON, i: nat, w: JSON): JSON
    requires HasChild(v, i)
  {
    if v.Array? then Array(v.items[i := w]) else Object(v.members[i := Member(v.members[i].key, w)])
  }

  /** Which child the pointer selects, p standing behind a '/'. */
  function Step(v: JSON, p: CStr, cs: bool): (r: Option<nat>)
    ensures r.Some? ==> HasChild(v, r.value)
  {
    match v
    case Array(items) =>
      var i := DecodeIndex(p);
      if i.Some? && i.value < |items| then i else None
    case Object(ms) =>
      var i := FindPointer(ms, p, cs);
      if i < |ms| then Some(i) else None
    case _ => None
  }

  /** get_item_from_pointer; a pointer that does not start with '/' selects the item itself. */
  function GetItem(v: JSON, p: CStr, cs: bool): Option<JSON>
    decreases |p|
  {
    if p == [] || p[0] != '/' then Some(v)
    else
      var i := Step(v, p[1..], cs);
      if i.None? then None else GetItem(ChildOf(v, i.value), SkipToken(p[1..]), cs)
  }

  /** The tree after the item the pointer selects was changed to w. */
  function SetItem(v: JSON, p: CStr, cs: bool, w: JSON): JSON
    decreases |p|
  {
    if p == [] || p[0] != '/' then w
    else
      var i := Step(v, p[1..], cs);
      if i.None? then v else WithChild(v, i.value, SetItem(ChildOf(v, i.value), SkipToken(p[1..]), cs, w))
  }

  /** get_item_from_pointer with its loops. */
  method GetItemFromPointer(root: JSON, pointer: CStr, cs: bool) returns (r: Option<JSON>)
    ensures r == GetItem(root, pointer, cs)
  {
    var current, p := root, pointer;
    while p != [] && p[0] == '/'
      invariant GetItem(root, pointer, cs) == GetItem(current, p, cs)
      decreases |p|
    {
      p := p[1..];
      if current.Array? {
        var i := DecodeArrayIndex(p);
        if i.None? || i.value >= |current.items| {
          return None;
        }
        current := current.items[i.value];
      } else if current.Object? {
        var i := 0;
        var found := false;
        while i < |current.members| && !found
          invariant i <= |current.members|
          invariant forall j :: 0 <= j < i ==> !ComparePointer(current.members[j].key, p, cs)
          invariant found ==> i < |current.members| && ComparePointer(current.members[i].key, p, cs)
          decreases |current.members| - i, !found
        {
          found := ComparePointers(current.members[i].key, p, cs);
          if !found {
            i := i + 1;
          }
        }
        assert i == FindPointer(current.members, p, cs);
        if !found {
          return None;
        }
        current := current.members[i].value;
      } else {
        return None;
      }
      ghost var q := p;
      while p != [] && p[0] != '/'
        invariant SkipToken(q) == SkipToken(p) && |p| <= |q|
        decreases |p|
      {
        p := p[1..];
      }
    }
    return Some(current);
  }

  // ---------- clean pointers, token by token ----------

  function PathOf(toks: seq<CStr>): CStr {
    if toks == [] then [] else "/" + toks[0] + PathOf(toks[1..])
  }

  predicate CleanPath(toks: seq<CStr>) {
    forall i :: 0 <= i < |toks| ==> Clean(toks[i])
  }

  lemma {:induction false} PathOfSnoc(toks: seq<CStr>, t: CStr)
    ensures PathOf(toks + [t]) == PathOf(toks) + "/" + t
  {
    if toks == [] {
      assert toks + [t] == [t] && [t][1..] == [];
    } else {
      PathOfSnoc(toks[1..], t);
      assert (toks + [t])[1..] == toks[1..] + [t];
      assert PathOf(toks + [t]) == "/" + toks[0] + (PathOf(toks[1..]) + "/" + t);
    }
  }

  function StepToken(v: JSON, t: CStr, cs: bool): (r: Option<nat>)
    ensures r.Some? ==> HasChild(v, r.value)
  {
    match v
    case Array(items) =>
      var i := DecodeIndex(t);
      if i.Some? && i.value < |items| then i else None
    case Object(ms) =>
      var i := FindKey(ms, t, cs);
      if i < |ms| then Some(i) else None
    case _ => None
  }

  lemma {:induction false} FindPointerIsFindKey(ms: seq<Member>, t: CStr, rest: CStr, cs: bool)
    requires Clean(t) && TokenEnd(rest)
    ensures FindPointer(ms, t + rest, cs) == FindKey(ms, t, cs)
  {
    if ms != [] {
      CleanTokenMatches(ms[0].key, t, rest, cs);
      FindPointerIsFindKey(ms[1..], t, rest, cs);
    }
  }

  lemma StepIsStepToken(v: JSON, t: CStr, rest: CStr, cs: bool)
    requires Clean(t) && TokenEnd(rest)
    ensures Step(v, t + rest, cs) == StepToken(v, t, cs)
  {
    match v
    case Array(items) => IndexOfToken(t, rest);
    case Object(ms) => FindPointerIsFindKey(ms, t, rest, cs);
    case _ =>
  }

  lemma {:induction false} SkipCleanToken(t: CStr, rest: CStr)
    requires Clean(t) && TokenEnd(rest)
    ensures SkipToken(t + rest) == rest
  {
    if t == [] {
      assert t + rest == rest;
    } else {
      assert (t + rest)[1..] == t[1..] + rest;
      SkipCleanToken(t[1..], rest);
    }
  }

  function GetByTokens(v: JSON, toks: seq<CStr>, cs: bool): Option<JSON>
    decreases |toks|
  {
    if toks == [] then Some(v)
    else
      var i := StepToken(v, toks[0], cs);
      if i.None? then None else GetByTokens(ChildOf(v, i.value), toks[1..], cs)
  }

  function SetByTokens(v: JSON, toks: seq<CStr>, cs: bool, w: JSON): JSON
    decreases |toks|
  {
    if toks == [] then w
    else
      var i := StepToken(v, toks[0], cs);
      if i.None? then v else WithChild(v, i.value, SetByTokens(ChildOf(v, i.value), toks[1..], cs, w))
  }

  lemma {:induction false} FollowCleanPath(v: JSON, toks: seq<CStr>, cs: bool, w: JSON)
    requires CleanPath(toks)
    ensures GetItem(v, PathOf(toks), cs) == GetByTokens(v, toks, cs)
    ensures SetItem(v, PathOf(toks), cs, w) == SetByTokens(v, toks, cs, w)
    decreases |toks|
  {
    if toks != [] {
      var rest := PathOf(toks[1..]);
      var p := PathOf(toks);
      assert p[1..] == toks[0] + rest;
      assert TokenEnd(rest);
      StepIsStepToken(v, toks[0], rest, cs);
      SkipCleanToken(toks[0], rest);
      var i := StepToken(v, toks[0], cs);
      if i.Some? {
        FollowCleanPath(ChildOf(v, i.value), toks[1..], cs, w);
      }
    }
  }
}
