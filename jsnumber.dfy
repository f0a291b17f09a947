/**
 * JavaScript numbers as the spreadsheet uses them: exact reals for the finite values, plus the
 * two infinities and NaN with the IEEE 754 rules for them; `String(n)` and `parseFloat`.
 */
module JsNumber {
  import opened Wrappers
  import opened Text

  datatype Num = Finite(r: real) | Infinity(negative: bool) | NaN

  predicate IsNaN(n: Num) { n.NaN? }

  function Neg(a: Num): Num {
    match a
    case Finite(x) => Finite(-x)
    case Infinity(neg) => Infinity(!neg)
    case NaN => NaN
  }

  function Add(a: Num, b: Num): (r: Num)
    ensures r.NaN? <==> a.NaN? || b.NaN? || (a.Infinity? && b.Infinity? && a.negative != b.negative)
    ensures a.Finite? && b.Finite? ==> r == Finite(a.r + b.r)
  {
    match (a, b)
    case (NaN, _) => NaN
    case (_, NaN) => NaN
    case (Infinity(x), Infinity(y)) => if x == y then a else NaN
    case (Infinity(_), Finite(_)) => a
    case (Finite(_), Infinity(_)) => b
    case (Finite(x), Finite(y)) => Finite(x + y)
  }

  function Sub(a: Num, b: Num): Num {
    Add(a, Neg(b))
  }

  function Mul(a: Num, b: Num): Num {
    match (a, b)
    case (NaN, _) => NaN
    case (_, NaN) => NaN
    case (Infinity(x), Infinity(y)) => Infinity(x != y)
    case (Infinity(x), Finite(y)) => if y == 0.0 then NaN else Infinity(x != (y < 0.0))
    case (Finite(x), Infinity(y)) => if x == 0.0 then NaN else Infinity(y != (x < 0.0))
    case (Finite(x), Finite(y)) => Finite(x * y)
  }

  /** Division; a finite non-zero value over zero is an infinity and 0/0 is NaN (signed zero is not modelled). */
  function Div(a: Num, b: Num): Num {
    match (a, b)
    case (NaN, _) => NaN
    case (_, NaN) => NaN
    case (Infinity(_), Infinity(_)) => NaN
    case (Infinity(x), Finite(y)) => Infinity(x != (y < 0.0))
    case (Finite(_), Infinity(_)) => Finite(0.0)
    case (Finite(x), Finite(y)) =>
      if y == 0.0 then (if x == 0.0 then NaN else Infinity(x < 0.0)) else Finite(x / y)
  }

  /** Digits of a fraction in [0, 1), at most `k` of them, stopping when the rest is zero. */
  function FractionDigits(f: real, k: nat): (s: string)
    requires 0.0 <= f < 1.0
    ensures |s| <= k && AllDigits(s)
    decreases k
  {
    if k == 0 || f == 0.0 then ""
    else
      var t := f * 10.0;
      var d := t.Floor;
      [DigitChar(d)] + FractionDigits(t - d as real, k - 1)
  }

  predicate Whole(x: real) {
    x == x.Floor as real
  }

  /** `x` has at most `k` decimals: `x * 10^k` is a whole number. */
  predicate Decimals(x: real, k: nat)
    decreases k
  {
    if k == 0 then Whole(x) else Decimals(x * 10.0, k - 1)
  }

  /** Taking a whole number away keeps the count of decimals. */
  lemma {:induction false} LessWhole(y: real, n: int, k: nat)
    requires Decimals(y, k)
    ensures Decimals(y - n as real, k)
    decreases k
  {
    if k == 0 {
      assert (y - n as real).Floor == y.Floor - n;
    } else {
      LessWhole(y * 10.0, 10 * n, k - 1);
      assert (y - n as real) * 10.0 == y * 10.0 - (10 * n) as real;
    }
  }

  /** A whole number has at most `k` decimals for every `k`. */
  lemma {:induction false} WholeDecimals(x: real, k: nat)
    requires Whole(x)
    ensures Decimals(x, k)
    decreases k
  {
    if k > 0 {
      assert (x * 10.0).Floor == x.Floor * 10;
      WholeDecimals(x * 10.0, k - 1);
    }
  }

  /** The digits of a fraction with at most `k` decimals read back as the fraction. */
  lemma {:induction false} FractionDigitsValue(f: real, k: nat)
    requires 0.0 <= f < 1.0 && Decimals(f, k)
    ensures var s := FractionDigits(f, k);
      FractionValue(s) == f && (f != 0.0 ==> s != [])
    decreases k
  {
    if k != 0 && f != 0.0 {
      var t := f * 10.0;
      var d := t.Floor;
      var g := t - d as real;
      assert 0 <= d < 10;
      LessWhole(t, d, k - 1);
      FractionDigitsValue(g, k - 1);
      var rest := FractionDigits(g, k - 1);
      var s := FractionDigits(f, k);
      assert s == [DigitChar(d)] + rest;
      assert s[1..] == rest;
    }
  }

  /** `String(n)`: integral values print exactly; a fraction prints up to 20 digits. */
  function Show(n: Num): string {
    match n
    case NaN => "NaN"
    case Infinity(neg) => if neg then "-Infinity" else "Infinity"
    case Finite(x) => if x < 0.0 then "-" + Magnitude(-x) else Magnitude(x)
  }

  /** A non-negative number: its whole part, then its fraction when it has one. */
  function Magnitude(a: real): string
    requires a >= 0.0
  {
    NatToString(a.Floor) + FractionText(a - a.Floor as real)
  }

  /** Nothing for a zero fraction, otherwise a point and at most 20 fraction digits. */
  function FractionText(f: real): string
    requires 0.0 <= f < 1.0
  {
    if f == 0.0 then "" else "." + FractionDigits(f, 20)
  }

  /** Length of the run of decimal digits at the front of `s`. */
  function DigitRun(s: string): (n: nat)
    ensures n <= |s| && AllDigits(s[..n])
    ensures n < |s| ==> !IsDigit(s[n])
    decreases |s|
  {
    if s != [] && IsDigit(s[0]) then
      var n := 1 + DigitRun(s[1..]);
      assert s[..n] == [s[0]] + s[1..][..n - 1];
      n
    else 0
  }

  function Pow10(e: nat): (p: nat)
    ensures p >= 1
  {
    if e == 0 then 1 else 10 * Pow10(e - 1)
  }

  /** The value of the digits after a decimal point: the first digit counts tenths, the next hundredths, and so on. */
  function FractionValue(ds: string): (v: real)
    requires AllDigits(ds)
    ensures 0.0 <= v < 1.0
    decreases |ds|
  {
    if ds == [] then 0.0 else (DigitValue(ds[0]) as real + FractionValue(ds[1..])) / 10.0
  }

  /** The factor `10^e` for an integer exponent. */
  function Scale(e: int): (r: real)
    ensures r > 0.0
  {
    if e >= 0 then Pow10(e) as real else 1.0 / Pow10(-e) as real
  }

  /** The exponent part `e[+-]digits` at the front of `s`, if it is there. */
  function Exponent(s: string): int {
    if |s| >= 2 && (s[0] == 'e' || s[0] == 'E') then
      var signed := s[1] == '+' || s[1] == '-';
      var ds := if signed then s[2..] else s[1..];
      var n := DigitRun(ds);
      if n == 0 then 0
      else if s[1] == '-' then -(DigitsValue(ds[..n]) as int)
      else DigitsValue(ds[..n])
    else 0
  }

  /** The value of the longest unsigned decimal numeral at the front of `u`, or None when there is none. */
  function Numeral(u: string): Option<real> {
    var ip := DigitRun(u);
    var after := u[ip..];
    var dot := after != [] && after[0] == '.';
    var fp := if dot then DigitRun(after[1..]) else 0;
    if ip == 0 && fp == 0 then None
    else
      var whole := DigitsValue(u[..ip]) as real;
      var frac := if dot then FractionValue(after[1..][..fp]) else 0.0;
      var rest := if dot then after[1..][fp..] else after;
      Some((whole + frac) * Scale(Exponent(rest)))
  }

  /** `parseFloat` once leading white space is gone: an optional sign, then `Infinity` or a numeral. */
  function SignedNumeral(t: string): (r: Option<Num>)
    ensures r != Some(NaN)
  {
    var neg := t != [] && t[0] == '-';
    var u := if t != [] && (t[0] == '+' || t[0] == '-') then t[1..] else t;
    if StartsWith(u, "Infinity") then Some(Infinity(neg))
    else
      match Numeral(u)
      case None => None
      case Some(v) => Some(Finite(if neg then -v else v))
  }

  /**
   * `parseFloat(s)`: after leading white space, an optional sign and then either `Infinity` or the
   * longest decimal numeral (digits, an optional fraction, an optional exponent) at the front;
   * None stands for NaN, i.e. no numeral at the front at all.
   */
  function ParseFloat(s: string): (r: Option<Num>)
    ensures r != Some(NaN)
  {
    SignedNumeral(s[SpacePrefix(s)..])
  }

  lemma {:induction false} DigitRunOfDigits(s: string)
    requires AllDigits(s)
    ensures DigitRun(s) == |s|
    decreases |s|
  {
    if s != [] {
      DigitRunOfDigits(s[1..]);
    }
  }

  lemma NumeralOfNat(i: nat)
    ensures Numeral(NatToString(i)) == Some(i as real)
  {
    var u := NatToString(i);
    DigitRunOfDigits(u);
    assert u[..|u|] == u;
    DigitsValueOfNatToString(i);
    assert u[|u|..] == [];
    assert Exponent([]) == 0;
  }

  lemma ShowInteger(n: int)
    ensures Show(Finite(n as real)) == (if n < 0 then "-" else "") + NatToString(if n < 0 then -n else n)
  {
    var m: nat := if n < 0 then -n else n;
    var a := m as real;
    assert a.Floor == m;
    assert Magnitude(a) == NatToString(m) + "";
    if n >= 0 {
      assert "" + NatToString(m) == NatToString(m) + "";
    }
  }

  lemma SignedNumeralOfNat(neg: bool, i: nat)
    ensures SignedNumeral((if neg then "-" else "") + NatToString(i)) == Some(Finite(if neg then -(i as real) else i as real))
  {
    var digits := NatToString(i);
    var t := (if neg then "-" else "") + digits;
    var u := if t != [] && (t[0] == '+' || t[0] == '-') then t[1..] else t;
    assert u == digits by {
      if !neg { assert t[0] == digits[0]; }
    }
    assert !StartsWith(u, "Infinity") by {
      assert u[0] != 'I';
      assert "Infinity"[0] == 'I';
    }
    NumeralOfNat(i);
  }

  /** Reading back the text of a whole number gives the number. */
  lemma ParseFloatShowsInteger(n: int)
    ensures ParseFloat(Show(Finite(n as real))) == Some(Finite(n as real))
  {
    ShowInteger(n);
    var m := if n < 0 then -n else n;
    var s := Show(Finite(n as real));
    assert !IsSpace(s[0]) by {
      if n >= 0 { assert s[0] == NatToString(m)[0]; }
    }
    assert SpacePrefix(s) == 0;
    assert s[0..] == s;
    SignedNumeralOfNat(n < 0, m);
  }
}
