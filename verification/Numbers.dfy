/**
 The numbers of section 6 of RFC 8259: what a sign, digits, a fraction and an exponent are read as.
 */
module Numbers {
  import opened Wrappers
  import opened CStrings
  import opened Json
  import opened Parsing
  import opened Tokens

  /** The parts of a number text; the fraction is the digits behind the point. */
  datatype Parts = Parts(negative: bool, whole: CStr, fraction: Option<CStr>, exponent: Option<Power>)

  datatype Power = Power(letter: cchar, sign: Option<cchar>, digits: CStr)

  predicate AllDigitBytes(s: CStr) { forall i :: 0 <= i < |s| ==> '0' <= s[i] <= '9' }

  predicate PowerOk(p: Power) {
    && (p.letter == 'e' || p.letter == 'E') && p.digits != [] && AllDigitBytes(p.digits)
    && (p.sign.Some? ==> p.sign.value == '+' || p.sign.value == '-')
  }

  predicate PartsOk(n: Parts) {
    && n.whole != [] && AllDigitBytes(n.whole) && (n.fraction.Some? ==> AllDigitBytes(n.fraction.value))
    && (n.exponent.Some? ==> PowerOk(n.exponent.value))
  }

  function PowerText(p: Power): CStr {
    [p.letter] + (if p.sign.Some? then [p.sign.value] else []) + p.digits
  }

  function FractionText(n: Parts): CStr { if n.fraction.Some? then ['.'] + n.fraction.value else [] }

  function ExponentText(n: Parts): CStr { if n.exponent.Some? then PowerText(n.exponent.value) else [] }

  function SignText(n: Parts): CStr { if n.negative then ['-'] else [] }

  function Text(n: Parts): CStr { SignText(n) + n.whole + FractionText(n) + ExponentText(n) }

  // ---------- the number ----------

  function Ten(n: nat): (r: real)
    ensures r > 0.0
  {
    if n == 0 then 1.0 else 10.0 * Ten(n - 1)
  }

  function FractionDigits(n: Parts): CStr { if n.fraction.Some? then n.fraction.value else [] }

  /** All digits in a row, with the sign. */
  function Mantissa(n: Parts): int {
    var m := DigitsValue(n.whole + FractionDigits(n));
    if n.negative then -m else m
  }

  /** The exponent that is written. */
  function Exponent10(n: Parts): int {
    if n.exponent.None? then 0
    else if n.exponent.value.sign == Some('-') then 0 - DigitsValue(n.exponent.value.digits)
    else DigitsValue(n.exponent.value.digits)
  }

  /** How often the exponent multiplies by ten, and how often it and the fraction divide. */
  function Up(n: Parts): nat { if Exponent10(n) >= 0 then Exponent10(n) else 0 }

  function Down(n: Parts): nat { |FractionDigits(n)| + if Exponent10(n) < 0 then -Exponent10(n) else 0 }

  ghost predicate Balances(x: real, down: nat, m: int, up: nat) { x * Ten(down) == m as real * Ten(up) }

  /**
   The number a text spells: all its digits in a row, divided by ten for every digit behind the point, and multiplied
   or divided by ten as often as the exponent says.
   */
  ghost predicate IsNumber(x: real, n: Parts) { Balances(x, Down(n), Mantissa(n), Up(n)) }

  // ---------- digits ----------

  lemma {:induction false} RunOver(p: CStr, digits: CStr, rest: CStr, i: nat)
    requires |p| <= i <= |p| + |digits| && AllDigitBytes(digits) && (rest == [] || !IsDigit(rest[0]))
    ensures DigitRun(p + digits + rest, i) == |p| + |digits|
    decreases |p| + |digits| - i
  {
    var s := p + digits + rest;
    if i < |p| + |digits| {
      assert s[i] == digits[i - |p|];
      RunOver(p, digits, rest, i + 1);
    } else if rest != [] {
      assert s[i] == rest[0];
    }
  }

  lemma {:induction false} DigitsNatural(s: CStr)
    requires AllDigitBytes(s)
    ensures DigitsValue(s) >= 0
    decreases |s|
  {
    if s != [] {
      DigitsNatural(s[..|s| - 1]);
    }
  }

  /** Digits in front of other digits count ten times as much for each of those: the places of the digits. */
  lemma {:induction false} DigitsJoined(a: CStr, b: CStr)
    ensures DigitsValue(a + b) == DigitsValue(a) * Tokens.Power(|b|) + DigitsValue(b)
    decreases |b|
  {
    if b == [] {
      assert a + b == a;
    } else {
      var front, last := b[..|b| - 1], b[|b| - 1] as int - '0' as int;
      assert (a + b)[..|a + b| - 1] == a + front && (a + b)[|a + b| - 1] == b[|b| - 1];
      DigitsJoined(a, front);
      assert DigitsValue(a + b) == 10 * DigitsValue(a + front) + last;
      TimesTen(DigitsValue(a), Tokens.Power(|front|));
    }
  }

  lemma TimesTen(x: int, p: int)
    ensures 10 * (x * p) == x * (10 * p)
  {
  }

  // ---------- powers of ten ----------

  lemma {:induction false} SamePowers(n: nat)
    ensures Pow10(n) == Ten(n)
  {
    if n > 0 {
      SamePowers(n - 1);
    }
  }

  lemma {:induction false} TenSum(a: nat, b: nat)
    ensures Ten(a + b) == Ten(a) * Ten(b)
    decreases a
  {
    if a > 0 {
      TenSum(a - 1, b);
      Reassociate(10.0, Ten(a - 1), Ten(b));
    }
  }

  lemma Reassociate(x: real, y: real, z: real)
    ensures x * (y * z) == x * y * z
  {
  }

  /** What scaling by a power of ten means, up or down. */
  lemma ScaleAbove(x: real, m: nat)
    ensures Scale(x, m) == x * Ten(m)
  {
    SamePowers(m);
  }

  lemma ScaleBelow(x: real, m: nat)
    requires m > 0
    ensures Scale(x, 0 - m) * Ten(m) == x
  {
    SamePowers(m);
  }

  lemma TenRatio(a: nat, b: nat) returns (k: real)
    requires a <= b
    ensures k == Ten(b - a) && Ten(b) == Ten(a) * k
  {
    k := Ten(b - a);
    TenSum(a, b - a);
  }

  lemma ScaledUp(x: real, s: real, d: real, k: real, u: real)
    requires s == x * k && u == d * k
    ensures s * d == x * u
  {
  }

  lemma ScaledDown(x: real, s: real, u: real, k: real, d: real)
    requires s * k == x && d == u * k
    ensures s * d == x * u
  {
  }

  lemma BalanceUp(m: int, up: nat, down: nat)
    requires up >= down
    ensures Balances(Scale(m as real, up - down), down, m, up)
  {
    var x, s, u, d := m as real, Scale(m as real, up - down), Ten(up), Ten(down);
    ScaleAbove(x, up - down);
    var k := TenRatio(down, up);
    ScaledUp(x, s, d, k, u);
  }

  lemma BalanceDown(m: int, up: nat, down: nat)
    requires up < down
    ensures Balances(Scale(m as real, up - down), down, m, up)
  {
    var x, s, u, d := m as real, Scale(m as real, up - down), Ten(up), Ten(down);
    ScaleBelow(x, down - up);
    var k := TenRatio(up, down);
    ScaledDown(x, s, u, k, d);
  }

  /** Scaling by the difference of two powers. */
  lemma ScaleBalances(m: int, up: nat, down: nat)
    ensures Balances(Scale(m as real, up - down), down, m, up)
  {
    if up >= down {
      BalanceUp(m, up, down);
    } else {
      BalanceDown(m, up, down);
    }
  }

  // ---------- reading ----------

  /** The exponent at the end of a text. */
  lemma ExponentReads(front: CStr, p: Power)
    requires PowerOk(p)
    ensures var s := front + PowerText(p);
            Exponent(s, |front|) ==
            (if p.sign == Some('-') then -DigitsValue(p.digits) else DigitsValue(p.digits), |s|)
  {
    var s, sign := front + PowerText(p), if p.sign.Some? then [p.sign.value] else [];
    var head := front + [p.letter] + sign;
    assert s == head + p.digits + [];
    RunOver(head, p.digits, [], |head|);
    assert s[|front|] == p.letter && s[|head|] == p.digits[0] && s[|head|..|s|] == p.digits;
    if p.sign.Some? {
      assert s[|front| + 1] == p.sign.value;
      ExponentSigned(s, |front|, p.digits);
    } else {
      ExponentUnsigned(s, |front|, p.digits);
    }
  }

  lemma ExponentSigned(s: CStr, i: nat, digits: CStr)
    requires i + 2 < |s| && (s[i] == 'e' || s[i] == 'E') && (s[i + 1] == '-' || s[i + 1] == '+') && digits != []
    requires s[i + 2..|s|] == digits && DigitRun(s, i + 2) == |s|
    ensures Exponent(s, i) == (if s[i + 1] == '-' then -DigitsValue(digits) else DigitsValue(digits), |s|)
  {
  }

  lemma ExponentUnsigned(s: CStr, i: nat, digits: CStr)
    requires i + 1 < |s| && (s[i] == 'e' || s[i] == 'E') && IsDigit(s[i + 1]) && digits != []
    requires s[i + 1..|s|] == digits && DigitRun(s, i + 1) == |s|
    ensures Exponent(s, i) == (DigitsValue(digits), |s|)
  {
  }

  /** Where strtod finds the sign and the digits in front of the point, whatever stands behind them. */
  lemma WholeFound(s: CStr, sign: CStr, whole: CStr, rest: CStr)
    requires (sign == [] || sign == ['-']) && whole != [] && AllDigitBytes(whole) && (rest == [] || !IsDigit(rest[0]))
    requires s == sign + whole + rest
    ensures |sign| < |s| && (s[0] == '-' <==> sign != []) && s[0] != '+' && DigitRun(s, |sign|) == |sign| + |whole|
    ensures s[|sign|..|sign| + |whole|] == whole
  {
    RunOver(sign, whole, rest, |sign|);
    assert s[|sign|] == whole[0];
  }

  /** And the digits behind it. */
  lemma FractionFound(s: CStr, p: nat, digits: CStr, tail: CStr)
    requires p <= |s| && s[p..] == ['.'] + digits + tail && AllDigitBytes(digits) && (tail == [] || !IsDigit(tail[0]))
    ensures p < |s| && s[p] == '.' && DigitRun(s, p + 1) == p + 1 + |digits| <= |s|
    ensures s[p + 1..p + 1 + |digits|] == digits
  {
    var head := s[..p] + ['.'];
    assert s[p] == s[p..][0];
    assert s == s[..p] + s[p..];
    assert s == head + digits + tail;
    RunOver(head, digits, tail, |head|);
  }

  /** What strtod finds in a text: where the digits end, all of them in a row, and the exponent behind them. */
  ghost predicate Finds(s: CStr, frac: nat, digits: CStr, fraction: nat, e: int, end: nat) {
    var start := if s != [] && (s[0] == '-' || s[0] == '+') then 1 else 0;
    var whole := DigitRun(s, start);
    && digits != [] && frac <= |s| && Exponent(s, frac) == (e, end)
    && if whole < |s| && s[whole] == '.' then
         && frac == DigitRun(s, whole + 1) && fraction == frac - (whole + 1)
         && digits == s[start..whole] + s[whole + 1..frac]
       else frac == whole && fraction == 0 && digits == s[start..whole]
  }

  lemma StrtodFrom(s: CStr, frac: nat, digits: CStr, fraction: nat, e: int, end: nat, m: int, k: int)
    requires Finds(s, frac, digits, fraction, e, end) && k == e - fraction
    requires s != [] && m == if s[0] == '-' then -DigitsValue(digits) else DigitsValue(digits)
    ensures Strtod(s) == Some((Scale(m as real, k), end))
  {
    var start := if s[0] == '-' || s[0] == '+' then 1 else 0;
    var whole := DigitRun(s, start);
    assert s[start..whole] + [] == s[start..whole];
  }

  /** The exponent and the end. */
  lemma EndFound(n: Parts)
    requires PartsOk(n)
    ensures Exponent(Text(n), |SignText(n)| + |n.whole| + |FractionText(n)|) == (Exponent10(n), |Text(n)|)
  {
    var front := SignText(n) + n.whole + FractionText(n);
    if n.exponent.Some? {
      ExponentReads(front, n.exponent.value);
    } else {
      assert Text(n) == front;
    }
  }

  lemma FindsFraction(s: CStr, sign: CStr, whole: CStr, digits: CStr, tail: CStr, e: int, end: nat)
    requires sign == [] || sign == ['-']
    requires whole != [] && AllDigitBytes(whole) && AllDigitBytes(digits) && (tail == [] || !IsDigit(tail[0]))
    requires s == sign + whole + (['.'] + digits) + tail && Exponent(s, |sign| + |whole| + 1 + |digits|) == (e, end)
    ensures Finds(s, |sign| + |whole| + 1 + |digits|, whole + digits, |digits|, e, end) && (s[0] == '-' <==> sign != [])
  {
    FourPieces(s, sign, whole, digits, tail);
    WholeFound(s, sign, whole, ['.'] + digits + tail);
    FindsPoint(s, |sign|, |sign| + |whole|, whole, digits, tail, e, end);
  }

  lemma FindsPoint(s: CStr, start: nat, p: nat, whole: CStr, digits: CStr, tail: CStr, e: int, end: nat)
    requires s != [] && start == (if s[0] == '-' || s[0] == '+' then 1 else 0) && start <= p <= |s|
    requires DigitRun(s, start) == p && s[start..p] == whole && whole != []
    requires s[p..] == ['.'] + digits + tail && AllDigitBytes(digits) && (tail == [] || !IsDigit(tail[0]))
    requires Exponent(s, p + 1 + |digits|) == (e, end)
    ensures Finds(s, p + 1 + |digits|, whole + digits, |digits|, e, end)
  {
    FractionFound(s, p, digits, tail);
    FindsBy(s, start, p, whole, digits, e, end);
  }

  lemma FourPieces(s: CStr, sign: CStr, whole: CStr, digits: CStr, tail: CStr)
    requires s == sign + whole + (['.'] + digits) + tail
    ensures s == sign + whole + (['.'] + digits + tail) && s[|sign| + |whole|..] == ['.'] + digits + tail
  {
  }

  lemma FindsBy(s: CStr, start: nat, p: nat, whole: CStr, digits: CStr, e: int, end: nat)
    requires s != [] && start == (if s[0] == '-' || s[0] == '+' then 1 else 0) && start <= p < |s| && s[p] == '.'
    requires DigitRun(s, start) == p && s[start..p] == whole && whole != []
    requires DigitRun(s, p + 1) == p + 1 + |digits| <= |s| && s[p + 1..p + 1 + |digits|] == digits
    requires Exponent(s, p + 1 + |digits|) == (e, end)
    ensures Finds(s, p + 1 + |digits|, whole + digits, |digits|, e, end)
  {
  }

  lemma FindsWhole(s: CStr, sign: CStr, whole: CStr, tail: CStr, e: int, end: nat)
    requires (sign == [] || sign == ['-']) && (tail == [] || (!IsDigit(tail[0]) && tail[0] != '.'))
    requires whole != [] && AllDigitBytes(whole) && s == sign + whole + tail
    requires Exponent(s, |sign| + |whole|) == (e, end)
    ensures Finds(s, |sign| + |whole|, whole, 0, e, end) && (s[0] == '-' <==> sign != [])
  {
    WholeFound(s, sign, whole, tail);
    assert tail != [] ==> s[|sign| + |whole|] == tail[0];
  }

  lemma PartsFound(n: Parts)
    requires PartsOk(n)
    ensures Finds(Text(n), |SignText(n)| + |n.whole| + |FractionText(n)|, n.whole + FractionDigits(n),
                  |FractionDigits(n)|, Exponent10(n), |Text(n)|)
    ensures Text(n)[0] == '-' <==> n.negative
  {
    EndFound(n);
    if n.fraction.Some? {
      FindsFraction(Text(n), SignText(n), n.whole, n.fraction.value, ExponentText(n), Exponent10(n), |Text(n)|);
    } else {
      assert n.whole + [] == n.whole && SignText(n) + n.whole + [] == SignText(n) + n.whole;
      FindsWhole(Text(n), SignText(n), n.whole, ExponentText(n), Exponent10(n), |Text(n)|);
    }
  }

  lemma StrtodOfParts(n: Parts, s: CStr, m: int, k: int)
    requires PartsOk(n) && s == Text(n) && m == Mantissa(n) && k == Exponent10(n) - |FractionDigits(n)|
    ensures Strtod(s) == Some((Scale(m as real, k), |s|))
  {
    PartsFound(n);
    StrtodFrom(s, |SignText(n)| + |n.whole| + |FractionText(n)|, n.whole + FractionDigits(n), |FractionDigits(n)|,
               Exponent10(n), |s|, m, k);
  }

  /** strtod reads every such text to its end, as the number it spells. */
  lemma NumberTextReads(n: Parts, s: CStr) returns (x: real)
    requires PartsOk(n) && s == Text(n)
    ensures Strtod(s) == Some((x, |s|)) && IsNumber(x, n)
  {
    var m, k := Mantissa(n), Up(n) - Down(n);
    StrtodOfParts(n, s, m, k);
    x := Scale(m as real, k);
    ScaledIsNumber(x, n);
  }

  lemma ScaledIsNumber(x: real, n: Parts)
    requires x == Scale(Mantissa(n) as real, Up(n) - Down(n))
    ensures IsNumber(x, n)
  {
    ScaleBalances(Mantissa(n), Up(n), Down(n));
  }

  /** So such a text, not longer than the 63 characters copied, is parsed as that number where no more of it follows. */
  lemma NumberParses(c: seq<char>, o: nat, n: Parts)
    requires Terminated(c) && PartsOk(n) && |Text(n)| <= 63 && LooksAt(c, o, Text(n))
    requires o + |Text(n)| < |c| && !IsNumeric(c[o + |Text(n)|])
    ensures var r := ParseNumber(c, o);
            r.Some? && r.value.1 == o + |Text(n)| && r.value.0.Number? && IsNumber(r.value.0.num, n)
  {
    var x := NumberTextReads(n, Text(n));
    forall i | 0 <= i < |Text(n)| ensures IsNumeric(Text(n)[i]) {
      PartsNumeric(n);
    }
    PrefixIsText(c, o, Text(n), 63);
  }

  lemma PartsNumeric(n: Parts)
    requires PartsOk(n)
    ensures forall i :: 0 <= i < |Text(n)| ==> IsNumeric(Text(n)[i])
  {
    var a, b := SignText(n) + n.whole, FractionText(n);
    assert forall i :: 0 <= i < |a| ==> IsNumeric(a[i]);
    assert forall i :: 0 <= i < |b| ==> IsNumeric(b[i]);
    if n.exponent.Some? {
      var p := n.exponent.value;
      var head := [p.letter] + (if p.sign.Some? then [p.sign.value] else []);
      assert forall i :: 0 <= i < |head| ==> IsNumeric(head[i]);
    }
  }
}
