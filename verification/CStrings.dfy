/**
 C strings as the JSON code sees them: a `char` stands for one byte, a `CStr` for the
 bytes in front of the terminating NUL.
 */
module CStrings {

  type cchar = c: char | c != '\0' witness 'a'

  type CStr = seq<cchar>

  /** `tolower` of the "C" locale. */
  function ToLower(c: char): (r: char)
    ensures r == '\0' <==> c == '\0'
  {
    if 'A' <= c <= 'Z' then (c as int + 32) as char else c
  }

  function Lower(s: CStr): (r: CStr)
    ensures |r| == |s|
    ensures forall i :: 0 <= i < |s| ==> r[i] == ToLower(s[i])
  {
    seq(|s|, i requires 0 <= i < |s| => ToLower(s[i]))
  }

  /** The part of a key that counts as its identity: all of it, or all of it but the case. */
  function Fold(s: CStr, cs: bool): (r: CStr)
    ensures |r| == |s|
    ensures forall i :: 0 <= i < |s| ==> r[i] == FoldChar(s[i], cs)
  {
    if cs then s else Lower(s)
  }

  function FoldChar(c: char, cs: bool): char {
    if cs then c else ToLower(c)
  }

  /** The byte at position i, where the terminator is readable too. */
  function CharAt(s: CStr, i: nat): char {
    if i < |s| then s[i] else '\0'
  }

  /** `strcmp`: the difference of the first bytes that differ. */
  function StrCmp(a: CStr, b: CStr): int {
    if a == [] || b == [] || a[0] != b[0] then CharAt(a, 0) as int - CharAt(b, 0) as int
    else StrCmp(a[1..], b[1..])
  }

  /** compare_strings on two names that are both present. */
  function CompareKeys(a: CStr, b: CStr, cs: bool): int {
    StrCmp(Fold(a, cs), Fold(b, cs))
  }

  lemma {:induction false} StrCmpZero(a: CStr, b: CStr)
    ensures StrCmp(a, b) == 0 <==> a == b
  {
    if a != [] && b != [] && a[0] == b[0] {
      StrCmpZero(a[1..], b[1..]);
      assert a == [a[0]] + a[1..] && b == [b[0]] + b[1..];
    }
  }

  lemma {:induction false} StrCmpFlip(a: CStr, b: CStr)
    ensures StrCmp(a, b) == -StrCmp(b, a)
  {
    if a != [] && b != [] && a[0] == b[0] {
      StrCmpFlip(a[1..], b[1..]);
    }
  }

  lemma {:induction false} StrCmpTransitive(a: CStr, b: CStr, c: CStr)
    requires StrCmp(a, b) < 0 && StrCmp(b, c) <= 0
    ensures StrCmp(a, c) < 0
  {
    if a != [] && b != [] && c != [] && a[0] == b[0] == c[0] {
      StrCmpTransitive(a[1..], b[1..], c[1..]);
    }
  }

  /** Comparing keys is a total order on their folded forms. */
  lemma CompareKeysOrder(a: CStr, b: CStr, c: CStr, cs: bool)
    ensures CompareKeys(a, b, cs) == 0 <==> Fold(a, cs) == Fold(b, cs)
    ensures CompareKeys(a, b, cs) == -CompareKeys(b, a, cs)
    ensures CompareKeys(a, b, cs) < 0 && CompareKeys(b, c, cs) <= 0 ==> CompareKeys(a, c, cs) < 0
  {
    StrCmpZero(Fold(a, cs), Fold(b, cs));
    StrCmpFlip(Fold(a, cs), Fold(b, cs));
    if CompareKeys(a, b, cs) < 0 && CompareKeys(b, c, cs) <= 0 {
      StrCmpTransitive(Fold(a, cs), Fold(b, cs), Fold(c, cs));
    }
  }

  /** Names on which strcmp and the case-blind order agree. */
  ghost predicate OrdersAgree(names: iset<CStr>) {
    forall a, b :: a in names && b in names ==> (StrCmp(a, b) < 0 <==> CompareKeys(a, b, false) < 0)
  }

  /** Names without capitals are such names. */
  lemma LowerNamesAgree(names: iset<CStr>)
    requires forall a :: a in names ==> Lower(a) == a
    ensures OrdersAgree(names)
  {
  }

  lemma AgreeingOrder(names: iset<CStr>, a: CStr, b: CStr)
    requires OrdersAgree(names) && a in names && b in names
    ensures StrCmp(a, b) < 0 <==> CompareKeys(a, b, false) < 0
    ensures StrCmp(a, b) > 0 <==> CompareKeys(a, b, false) > 0
  {
    StrCmpFlip(a, b);
    CompareKeysOrder(a, b, b, false);
    assert StrCmp(b, a) < 0 <==> CompareKeys(b, a, false) < 0;
  }

  /** Names of which no two differ in case only. */
  ghost predicate DistinctNames(names: iset<CStr>) {
    forall a, b :: a in names && b in names && Fold(a, false) == Fold(b, false) ==> a == b
  }

  lemma AgreeingNames(names: iset<CStr>)
    requires OrdersAgree(names)
    ensures DistinctNames(names)
  {
    forall a, b | a in names && b in names && Fold(a, false) == Fold(b, false) ensures a == b {
      AgreeingOrder(names, a, b);
      CompareKeysOrder(a, b, b, false);
      StrCmpZero(a, b);
    }
  }

  /** Dropping the first bytes of two strings that agree on them keeps their comparison. */
  lemma {:induction false} StrCmpSkip(a: CStr, b: CStr, i: nat)
    requires i <= |a| && i <= |b| && a[..i] == b[..i]
    ensures StrCmp(a, b) == StrCmp(a[i..], b[i..])
  {
    if i == 0 {
      assert a[0..] == a && b[0..] == b;
    } else {
      assert a[0] == a[..i][0] == b[..i][0] == b[0];
      assert a[1..][..i - 1] == a[..i][1..] && b[1..][..i - 1] == b[..i][1..];
      StrCmpSkip(a[1..], b[1..], i - 1);
      assert a[1..][i - 1..] == a[i..] && b[1..][i - 1..] == b[i..];
    }
  }

  /** Two names that first differ at position i, the end of one of them included, compare as those bytes do. */
  lemma FirstDifference(a: CStr, b: CStr, i: nat, cs: bool)
    requires i <= |a| && i <= |b| && (forall j :: 0 <= j < i ==> FoldChar(a[j], cs) == FoldChar(b[j], cs))
    requires FoldChar(CharAt(a, i), cs) != FoldChar(CharAt(b, i), cs)
    ensures CompareKeys(a, b, cs) == FoldChar(CharAt(a, i), cs) as int - FoldChar(CharAt(b, i), cs) as int
  {
    var x, y := Fold(a, cs), Fold(b, cs);
    assert x[..i] == y[..i];
    StrCmpSkip(x, y, i);
    assert CharAt(x[i..], 0) == FoldChar(CharAt(a, i), cs) && CharAt(y[i..], 0) == FoldChar(CharAt(b, i), cs);
  }

  /** Ignoring case, two bytes count as one exactly if they are equal or a capital letter and its small one. */
  lemma SameLetters(a: char, b: char)
    ensures FoldChar(a, true) == FoldChar(b, true) <==> a == b
    ensures FoldChar(a, false) == FoldChar(b, false) <==> a == b || BothCases(a, b) || BothCases(b, a)
  {
  }

  /** The n-th capital and the n-th small letter of the 26 in ASCII. */
  predicate BothCases(capital: char, small: char) {
    65 <= capital as int < 65 + 26 && small as int == 97 + (capital as int - 65)
  }

  /** The comparing loop of compare_strings and case_insensitive_strcmp. */
  method CompareStrings(a: CStr, b: CStr, cs: bool) returns (diff: int)
    ensures diff == CompareKeys(a, b, cs)
    ensures diff == 0 <==> Fold(a, cs) == Fold(b, cs)
  {
    ghost var fa, fb := Fold(a, cs), Fold(b, cs);
    var i := 0;
    while FoldChar(CharAt(a, i), cs) == FoldChar(CharAt(b, i), cs)
      invariant i <= |a| && i <= |b|
      invariant fa[..i] == fb[..i]
      decreases |a| - i
    {
      if CharAt(a, i) == '\0' {
        assert fa == fa[..i] && fb == fb[..i];
        StrCmpZero(fa, fb);
        return 0;
      }
      i := i + 1;
    }
    diff := FoldChar(CharAt(a, i), cs) as int - FoldChar(CharAt(b, i), cs) as int;
    StrCmpSkip(fa, fb, i);
    assert CharAt(fa[i..], 0) == FoldChar(CharAt(a, i), cs);
    assert CharAt(fb[i..], 0) == FoldChar(CharAt(b, i), cs);
    StrCmpZero(fa, fb);
  }

  function Decimal(n: nat): (s: CStr)
    ensures s != []
    ensures forall i :: 0 <= i < |s| ==> '0' <= s[i] <= '9'
    ensures s[0] == '0' ==> n == 0 && |s| == 1
  {
    if n < 10 then [('0' as int + n) as char] else Decimal(n / 10) + [('0' as int + n % 10) as char]
  }

  /** The number a run of digits stands for. */
  function DigitsValue(s: CStr): int {
    if s == [] then 0 else 10 * DigitsValue(s[..|s| - 1]) + (s[|s| - 1] as int - '0' as int)
  }

  lemma {:induction false} DecimalValue(n: nat)
    ensures DigitsValue(Decimal(n)) == n
  {
    if n < 10 {
      assert Decimal(n)[..0] == [];
    } else {
      DecimalValue(n / 10);
      assert Decimal(n)[..|Decimal(n)| - 1] == Decimal(n / 10);
    }
  }

  /** The bytes in front of the first NUL. */
  function CStringOf(buf: seq<char>): CStr {
    if buf == [] || buf[0] == '\0' then [] else [buf[0]] + CStringOf(buf[1..])
  }

  lemma {:induction false} CStringOfTerminated(s: seq<char>, tail: seq<char>)
    ensures CStringOf(s + ['\0'] + tail) == CStringOf(s)
  {
    if s != [] {
      assert (s + ['\0'] + tail)[1..] == s[1..] + ['\0'] + tail;
      CStringOfTerminated(s[1..], tail);
    }
  }

  lemma {:induction false} CStringOfPlain(s: CStr)
    ensures CStringOf(s) == s
  {
    if s != [] {
      CStringOfPlain(s[1..]);
    }
  }

  lemma {:induction false} CStringOfPrefix(p: CStr, rest: seq<char>)
    ensures CStringOf(p + rest) == p + CStringOf(rest)
  {
    if p == [] {
      assert p + rest == rest;
    } else {
      assert (p + rest)[1..] == p[1..] + rest;
      CStringOfPrefix(p[1..], rest);
    }
  }

  /** A C string in memory: one NUL, at the end. */
  predicate Terminated(c: seq<char>) {
    |c| > 0 && c[|c| - 1] == '\0' && forall i {:trigger Ends(c, i)} :: 0 <= i < |c| ==> (Ends(c, i) <==> i == |c| - 1)
  }

  predicate Ends(c: seq<char>, i: nat)
    requires i < |c|
  {
    c[i] == '\0'
  }
}
