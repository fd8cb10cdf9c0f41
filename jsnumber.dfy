/** JavaScript's string-to-number conversions, `parseFloat` and `Number`, on
    exact decimal values, and the truncation `ToIntegerOrInfinity` applies. */
module JsNumber {
  import opened JsString

  /** A JavaScript number as the scraper meets it: NaN, a finite value, or an
      infinity. Finite values are exact; IEEE-754 rounding and negative zero
      are not modelled. */
  datatype Num = NaN | Finite(value: real) | Infinity(negative: bool)

  /** `x >= t` on JavaScript numbers: false for NaN, by sign for infinities. */
  predicate AtLeast(x: Num, t: real) {
    match x
    case NaN => false
    case Finite(v) => v >= t
    case Infinity(neg) => !neg
  }

  function DigitValue(c: char): (d: nat)
    requires IsDigit(c)
    ensures d < 10
  {
    c as int - '0' as int
  }

  function Pow10(n: nat): (p: nat)
    ensures p >= 1
  {
    if n == 0 then 1 else 10 * Pow10(n - 1)
  }

  /** The value of a string of decimal digits, most significant first. */
  function DigitsValue(ds: string): (v: nat)
    requires AllDigits(ds)
    ensures v < Pow10(|ds|)
  {
    if ds == [] then 0 else 10 * DigitsValue(ds[..|ds| - 1]) + DigitValue(ds[|ds| - 1])
  }

  /** The value of the digits after a decimal point: `0.d1d2...` is
      `(d1 + 0.d2...) / 10`. */
  function Fraction(fd: string): (f: real)
    requires AllDigits(fd)
    ensures 0.0 <= f < 1.0
  {
    if fd == [] then 0.0 else (DigitValue(fd[0]) as real + Fraction(fd[1..])) / 10.0
  }

  /** `v` times ten to the power `e`. */
  function Scale(v: real, e: int): real
    decreases if e >= 0 then e else -e
  {
    if e == 0 then v else if e > 0 then Scale(v, e - 1) * 10.0 else Scale(v, e + 1) / 10.0
  }

  function Negate(x: Num, neg: bool): Num {
    if !neg then x
    else match x
      case NaN => NaN
      case Finite(v) => Finite(-v)
      case Infinity(n) => Infinity(!n)
  }

  /** Where the optional exponent part (`e`/`E`, optional sign, digits) that
      starts at `m` ends, with its value; `m` itself and 0 when there is none. */
  function ExponentAt(s: string, m: nat): (r: (nat, int))
    requires m <= |s|
    ensures m <= r.0 <= |s|
    ensures r.0 == m ==> r.1 == 0
  {
    if m < |s| && (s[m] == 'e' || s[m] == 'E') then
      var k := if m + 1 < |s| && (s[m + 1] == '+' || s[m + 1] == '-') then m + 2 else m + 1;
      var d := RunEnd(s, k, IsDigit);
      DigitRun(s, k);
      if d == k then (m, 0)
      else
        var v: int := DigitsValue(s[k..d]);
        (d, if s[k - 1] == '-' then -v else v)
    else (m, 0)
  }

  /** The longest prefix of `s` that is a StrDecimalLiteral of ECMAScript
      (optional sign, then `Infinity` or digits with an optional fraction and
      exponent), with its value and length; None when no prefix is one. */
  function DecimalPrefix(s: string): (r: Option<(Num, nat)>)
    ensures r.Some? ==> 0 < r.value.1 <= |s|
    ensures r.Some? ==> r.value.0 != NaN
    ensures r.None? <==> !StartsNumeric(s)
  {
    var j := if |s| > 0 && (s[0] == '+' || s[0] == '-') then 1 else 0;
    var neg := j == 1 && s[0] == '-';
    if StartsWithAt(s, j, "Infinity") then
      Some((Negate(Infinity(false), neg), j + 8))
    else
      var ie := RunEnd(s, j, IsDigit);
      var hasDot := ie < |s| && s[ie] == '.';
      var fe := if hasDot then RunEnd(s, ie + 1, IsDigit) else ie;
      var fracStart := if hasDot then ie + 1 else ie;
      DigitRun(s, j);
      DigitRun(s, fracStart);
      if ie == j && fe == fracStart then None
      else
        var ip := DigitsValue(s[j..ie]) as real;
        var fd := s[fracStart..fe];
        var mant := ip + Fraction(fd);
        var (end, e) := ExponentAt(s, fe);
        Some((Negate(Finite(Scale(mant, e)), neg), end))
  }

  /** `s` begins with a StrDecimalLiteral: an optional sign followed by
      `Infinity`, a digit, or a full stop and a digit. */
  predicate StartsNumeric(s: string) {
    var j := if |s| > 0 && (s[0] == '+' || s[0] == '-') then 1 else 0;
    StartsWithAt(s, j, "Infinity")
    || (j < |s| && IsDigit(s[j]))
    || (j + 1 < |s| && s[j] == '.' && IsDigit(s[j + 1]))
  }

  /** `parseFloat`: skip leading white space, read the longest decimal literal,
      NaN when there is none. */
  function ParseFloat(s: string): (r: Num)
    ensures r == NaN <==> !StartsNumeric(TrimStart(s))
  {
    match DecimalPrefix(TrimStart(s))
    case None => NaN
    case Some((v, _)) => v
  }

  // ---------------------------------------------------------------------------
  // Number(string)

  /** The value of `c` as a digit in base `b` (2, 8, 10 or 16). */
  function DigitIn(c: char, b: nat): (r: Option<nat>)
    ensures r.Some? ==> r.value < b
  {
    var v :=
      if '0' <= c <= '9' then c as int - '0' as int
      else if 'a' <= c <= 'f' then c as int - 'a' as int + 10
      else if 'A' <= c <= 'F' then c as int - 'A' as int + 10
      else 16;
    if v < b then Some(v) else None
  }

  predicate AllDigitsIn(s: string, b: nat) {
    forall k :: 0 <= k < |s| ==> DigitIn(s[k], b).Some?
  }

  function BaseValue(s: string, b: nat): (v: nat)
    requires AllDigitsIn(s, b)
  {
    if s == [] then 0 else b * BaseValue(s[..|s| - 1], b) + DigitIn(s[|s| - 1], b).value
  }

  /** The radix a `0x`, `0o` or `0b` prefix announces, 0 for none. */
  function RadixOf(c: char): (b: nat)
    ensures b in {0, 2, 8, 16}
  {
    if c == 'x' || c == 'X' then 16
    else if c == 'o' || c == 'O' then 8
    else if c == 'b' || c == 'B' then 2
    else 0
  }

  /** `Number(s)` on a string: trimmed, the empty string is 0, otherwise the
      whole text must be one numeric literal (decimal, or unsigned `0x`/`0o`/
      `0b`), else NaN. */
  function StringToNumber(s: string): (r: Num)
    ensures Trim(s) == [] ==> r == Finite(0.0)
    ensures Trim(s) != [] && !StartsNumeric(Trim(s)) && !(Trim(s)[0] == '0') ==> r == NaN
  {
    var t := Trim(s);
    if t == [] then Finite(0.0)
    else if |t| >= 3 && t[0] == '0' && RadixOf(t[1]) != 0 then
      var b := RadixOf(t[1]);
      if AllDigitsIn(t[2..], b) then Finite(BaseValue(t[2..], b) as real) else NaN
    else match DecimalPrefix(t)
      case Some((v, n)) => if n == |t| then v else NaN
      case None => NaN
  }

  /** Truncation toward zero, as `ToIntegerOrInfinity` does to a finite value. */
  function Trunc(x: real): (n: int)
    ensures x >= 0.0 ==> n as real <= x < n as real + 1.0
    ensures x < 0.0 ==> n as real - 1.0 < x <= n as real
  {
    if x >= 0.0 then x.Floor else -((-x).Floor)
  }

  // ---------------------------------------------------------------------------
  // properties

  /** A literal made only of digits and full stops never reads as negative
      and never as an infinity. */
  lemma ParseFloatDigitsAndDots(s: string)
    requires forall k :: 0 <= k < |s| ==> IsDigitOrDot(s[k])
    ensures ParseFloat(s) == NaN || (ParseFloat(s).Finite? && ParseFloat(s).value >= 0.0)
  {
    if s != [] {
      TrimStartNoop(s);
      assert !StartsWithAt(s, 0, "Infinity") by {
        if StartsWithAt(s, 0, "Infinity") { StartsWithAtHead(s, 0, "Infinity"); }
      }
      var ie := RunEnd(s, 0, IsDigit);
      var hasDot := ie < |s| && s[ie] == '.';
      var fe := if hasDot then RunEnd(s, ie + 1, IsDigit) else ie;
      var (end, e) := ExponentAt(s, fe);
      assert fe < |s| ==> s[fe] != 'e' && s[fe] != 'E';
      assert e == 0;
    }
  }

  /** How DecimalPrefix reads an unsigned literal with a fraction and no
      exponent, given where its digit runs end. */
  lemma DecimalPrefixFraction(s: string, ie: nat, fe: nat)
    requires 0 < ie < fe <= |s| && IsDigit(s[0]) && s[ie] == '.'
    requires RunEnd(s, 0, IsDigit) == ie && RunEnd(s, ie + 1, IsDigit) == fe
    requires fe == |s| || (s[fe] != 'e' && s[fe] != 'E')
    ensures AllDigits(s[0..ie]) && AllDigits(s[ie + 1..fe])
    ensures DecimalPrefix(s) == Some((Finite(DigitsValue(s[0..ie]) as real
      + Fraction(s[ie + 1..fe])), fe))
  {
    assert AllDigits(s[0..ie]) && AllDigits(s[ie + 1..fe]) by {
      DigitRun(s, 0);
      DigitRun(s, ie + 1);
    }
    assert !StartsWithAt(s, 0, "Infinity") by {
      if StartsWithAt(s, 0, "Infinity") { StartsWithAtHead(s, 0, "Infinity"); }
    }
    assert ExponentAt(s, fe) == (fe, 0);
  }

  /** Where the digit runs of `a.b` followed by a non-digit end. */
  lemma DecimalRuns(a: string, b: string, rest: string)
    requires |a| > 0 && AllDigits(a) && |b| > 0 && AllDigits(b)
    requires rest == [] || (!IsDigit(rest[0]) && rest[0] != 'e' && rest[0] != 'E')
    ensures var s := a + "." + b + rest;
      && IsDigit(s[0]) && s[|a|] == '.'
      && RunEnd(s, 0, IsDigit) == |a|
      && RunEnd(s, |a| + 1, IsDigit) == |a| + 1 + |b|
      && (|a| + 1 + |b| == |s| || (s[|a| + 1 + |b|] != 'e' && s[|a| + 1 + |b|] != 'E'))
      && s[0..|a|] == a && s[|a| + 1..|a| + 1 + |b|] == b
  {
    var s := a + "." + b + rest;
    var ie, fe := |a|, |a| + 1 + |b|;
    assert s[0] == a[0];
    forall k | 0 <= k < ie ensures IsDigit(s[k]) { assert s[k] == a[k]; }
    assert s[ie] == '.';
    RunEndIs(s, 0, IsDigit, ie);
    forall k | ie + 1 <= k < fe ensures IsDigit(s[k]) { assert s[k] == b[k - ie - 1]; }
    assert fe < |s| ==> s[fe] == rest[0];
    RunEndIs(s, ie + 1, IsDigit, fe);
    assert s[0..ie] == a;
    assert s[ie + 1..fe] == b;
  }

  /** `parseFloat` of digits, a full stop and digits, followed by anything
      that is neither a digit nor an exponent marker, is the decimal they spell. */
  lemma ParseFloatDecimal(a: string, b: string, rest: string)
    requires |a| > 0 && AllDigits(a) && |b| > 0 && AllDigits(b)
    requires rest == [] || (!IsDigit(rest[0]) && rest[0] != 'e' && rest[0] != 'E')
    ensures ParseFloat(a + "." + b + rest) == Finite(DigitsValue(a) as real + Fraction(b))
  {
    var s := a + "." + b + rest;
    DecimalRuns(a, b, rest);
    TrimStartNoop(s);
    DecimalPrefixFraction(s, |a|, |a| + 1 + |b|);
  }

  /** A string of digits is read whole, as the integer it spells. */
  lemma DecimalPrefixInteger(ds: string)
    requires |ds| > 0 && AllDigits(ds)
    ensures DecimalPrefix(ds) == Some((Finite(DigitsValue(ds) as real), |ds|))
  {
    assert !StartsWithAt(ds, 0, "Infinity") by {
      if StartsWithAt(ds, 0, "Infinity") { StartsWithAtHead(ds, 0, "Infinity"); }
    }
    RunEndIs(ds, 0, IsDigit, |ds|);
    assert ds[0..|ds|] == ds;
  }

  /** `Number` of a string of digits is the integer they spell. */
  lemma StringToNumberDigits(ds: string)
    requires |ds| > 0 && AllDigits(ds)
    ensures StringToNumber(ds) == Finite(DigitsValue(ds) as real)
  {
    TrimNoop(ds);
    assert |ds| >= 3 ==> RadixOf(ds[1]) == 0;
    DecimalPrefixInteger(ds);
  }
}
