/**
 * JavaScript numbers as the program uses them, on exact values: a finite value, `NaN` or an
 * infinity, with `+`, `-`, division by an integer credit total, `toFixed` and `parseFloat`.
 */
module JsNumber {
  import opened Wrappers
  import opened Text

  datatype Num = Finite(value: real) | NaN | PosInfinity | NegInfinity

  function Negate(a: Num): Num
  {
    match a
    case Finite(x) => Finite(-x)
    case NaN => NaN
    case PosInfinity => NegInfinity
    case NegInfinity => PosInfinity
  }

  /** `a + b`: `NaN` absorbs, opposite infinities give `NaN`, an infinity absorbs a finite value. */
  function Add(a: Num, b: Num): (r: Num)
    ensures a.Finite? && b.Finite? ==> r == Finite(a.value + b.value)
    ensures a.NaN? || b.NaN? ==> r.NaN?
  {
    match (a, b)
    case (Finite(x), Finite(y)) => Finite(x + y)
    case (NaN, _) => NaN
    case (_, NaN) => NaN
    case (PosInfinity, NegInfinity) => NaN
    case (NegInfinity, PosInfinity) => NaN
    case (PosInfinity, _) => PosInfinity
    case (NegInfinity, _) => NegInfinity
    case (Finite(_), _) => b
  }

  /** `a - b` */
  function Sub(a: Num, b: Num): Num
  {
    Add(a, Negate(b))
  }

  /** `a / c` for an integer divisor `c` (a credit total, so a zero divisor is `+0`). */
  function DivByInt(a: Num, c: int): (r: Num)
    ensures c != 0 && a.Finite? ==> r == Finite(a.value / c as real)
    ensures c == 0 && a == Finite(0.0) ==> r.NaN?
    ensures c == 0 && a.Finite? && a.value > 0.0 ==> r.PosInfinity?
  {
    if c == 0 then
      match a
      case Finite(x) => if x > 0.0 then PosInfinity else if x < 0.0 then NegInfinity else NaN
      case _ => a
    else
      match a
      case Finite(x) => Finite(x / c as real)
      case NaN => NaN
      case PosInfinity => if c > 0 then PosInfinity else NegInfinity
      case NegInfinity => if c > 0 then NegInfinity else PosInfinity
  }

  /** `a * c` for an integer factor `c`: an infinity times 0 is `NaN`, times a negative factor it flips sign. */
  function MulByInt(a: Num, c: int): (r: Num)
    ensures a.Finite? <==> r.Finite?
    ensures a.Finite? ==> r.value == a.value * c as real
    ensures a.NaN? || (!a.Finite? && c == 0) ==> r.NaN?
    ensures c > 0 ==> r.Finite? || r == a
  {
    match a
    case Finite(x) => Finite(x * c as real)
    case NaN => NaN
    case _ => if c == 0 then NaN else if c > 0 then a else Negate(a)
  }

  /** `a >= bound` (false for `NaN`). */
  predicate AtLeast(a: Num, bound: real)
  {
    match a
    case Finite(x) => x >= bound
    case PosInfinity => true
    case _ => false
  }

  function Pow10(d: nat): (p: nat)
    ensures p >= 1
  {
    if d == 0 then 1 else 10 * Pow10(d - 1)
  }

  /** The integer `toFixed` picks for a non-negative `x`: nearest to `x * 10^d`, the larger one on a tie. */
  function HalfUp(x: real, d: nat): (n: nat)
    requires x >= 0.0
    ensures n as real - 0.5 <= x * Pow10(d) as real < n as real + 0.5
  {
    (x * Pow10(d) as real + 0.5).Floor
  }

  /**
   * `Number(x.toFixed(d))`: `x` rounded to `d` decimals; `toFixed` rounds the magnitude,
   * so halves go away from zero.
   */
  function Round(x: real, d: nat): (r: real)
    ensures x >= 0.0 ==> r >= 0.0
    ensures x <= 0.0 ==> r <= 0.0
  {
    if x < 0.0 then -(HalfUp(-x, d) as real / Pow10(d) as real)
    else HalfUp(x, d) as real / Pow10(d) as real
  }

  /** The rounded value is within half a unit of the last decimal place of the exact value. */
  lemma RoundIsNearest(x: real, d: nat)
    ensures var p := Pow10(d) as real;
            x * p - 0.5 <= Round(x, d) * p <= x * p + 0.5
  {
    var p := Pow10(d) as real;
    if x < 0.0 {
      var n := HalfUp(-x, d) as real;
      assert Round(x, d) * p == -n;
      assert -x * p == -(x * p);
    } else {
      var n := HalfUp(x, d) as real;
      assert Round(x, d) * p == n;
    }
  }

  /** `HalfUp` leaves a scaled value that is already a whole number unchanged. */
  lemma HalfUpOfWhole(x: real, k: nat, d: nat)
    requires x >= 0.0 && x * Pow10(d) as real == k as real
    ensures HalfUp(x, d) == k
  {
  }

  lemma ScaleDiv(k: real, p: real)
    requires p > 0.0
    ensures (k / p) * p == k && (-k / p) * p == -k && -k / p == -(k / p)
  {
  }

  /** A value that already has at most `d` decimals is left unchanged. */
  lemma RoundOfMultiple(k: int, d: nat)
    ensures Round(k as real / Pow10(d) as real, d) == k as real / Pow10(d) as real
  {
    var p := Pow10(d) as real;
    var x := k as real / p;
    ScaleDiv(k as real, p);
    if k < 0 {
      ScaleDiv(-k as real, p);
      HalfUpOfWhole(-x, -k, d);
    } else {
      HalfUpOfWhole(x, k, d);
    }
  }

  /** Integers are unchanged by rounding. */
  lemma RoundOfInteger(k: int, d: nat)
    ensures Round(k as real, d) == k as real
  {
    var p := Pow10(d);
    RoundOfMultiple(k * p, d);
    assert (k * p) as real / p as real == k as real;
  }

  /** Rounding twice is rounding once. */
  lemma RoundIdempotent(x: real, d: nat)
    ensures Round(Round(x, d), d) == Round(x, d)
  {
    if x < 0.0 {
      var k: int := -(HalfUp(-x, d) as int);
      ScaleDiv(HalfUp(-x, d) as real, Pow10(d) as real);
      assert Round(x, d) == k as real / Pow10(d) as real;
      RoundOfMultiple(k, d);
    } else {
      RoundOfMultiple(HalfUp(x, d), d);
    }
  }

  lemma ScaleMonotone(x: real, y: real, p: real)
    requires x <= y && p >= 0.0
    ensures x * p <= y * p
  {
    assert (y - x) * p >= 0.0;
  }

  lemma HalfUpMonotone(x: real, y: real, d: nat)
    requires 0.0 <= x <= y
    ensures HalfUp(x, d) <= HalfUp(y, d)
  {
    ScaleMonotone(x, y, Pow10(d) as real);
  }

  lemma DivMonotone(m: real, n: real, p: real)
    requires m <= n && p > 0.0
    ensures m / p <= n / p
  {
    ScaleMonotone(m, n, 1.0 / p);
  }

  /** Rounding never reverses the order of two values. */
  lemma RoundMonotone(x: real, y: real, d: nat)
    requires x <= y
    ensures Round(x, d) <= Round(y, d)
  {
    var p := Pow10(d) as real;
    if 0.0 <= x {
      HalfUpMonotone(x, y, d);
      DivMonotone(HalfUp(x, d) as real, HalfUp(y, d) as real, p);
    } else if y < 0.0 {
      HalfUpMonotone(-y, -x, d);
      DivMonotone(HalfUp(-y, d) as real, HalfUp(-x, d) as real, p);
    } else {
      DivMonotone(0.0, HalfUp(-x, d) as real, p);
      DivMonotone(0.0, HalfUp(y, d) as real, p);
    }
  }

  /** A value between two integers rounds to a value between them. */
  lemma RoundBetween(x: real, lo: int, hi: int, d: nat)
    requires lo as real <= x <= hi as real
    ensures lo as real <= Round(x, d) <= hi as real
  {
    RoundMonotone(lo as real, x, d);
    RoundMonotone(x, hi as real, d);
    RoundOfInteger(lo, d);
    RoundOfInteger(hi, d);
  }

  function Zeros(k: nat): (z: string)
    ensures |z| == k && forall i :: 0 <= i < k ==> z[i] == '0'
  {
    seq(k, _ => '0')
  }

  /** `m` with zeros in front, up to `width` characters. */
  function PadDigits(m: string, width: nat): (r: string)
    ensures |r| >= width && |r| >= |m|
  {
    if |m| < width then Zeros(width - |m|) + m else m
  }

  /** The layout `toFixed` gives the integer `n`: its numeral, zero-padded, with `d` digits after a point. */
  function FixedNumeral(n: nat, d: nat): (r: string)
    ensures forall i :: 0 <= i < |r| ==> IsDecimalDigit(r[i]) || r[i] == '.'
    ensures r != [] && IsDecimalDigit(r[0])
  {
    var m := NatToString(n);
    if d == 0 then m
    else
      var padded := PadDigits(m, d + 1);
      padded[..|padded| - d] + "." + padded[|padded| - d..]
  }

  /** `x.toFixed(d)` for a finite `x` (of magnitude below 10^21). */
  function ToFixed(x: real, d: nat): string
  {
    (if x < 0.0 then "-" else "") + FixedNumeral(Magnitude(x, d), d)
  }

  /** `a.toFixed(d)` for any number. */
  function NumToFixed(a: Num, d: nat): string
  {
    match a
    case Finite(x) => ToFixed(x, d)
    case NaN => "NaN"
    case PosInfinity => "Infinity"
    case NegInfinity => "-Infinity"
  }

  /** The value of the digits `a`, a point, then the digits `b`. */
  function DecimalValue(a: string, b: string): real
  {
    DigitsValue(a, 10) as real + DigitsValue(b, 10) as real / Pow10(|b|) as real
  }

  /** The longest prefix of `u` of the form digits [ "." digits ] holding at least one digit, read as a value. */
  function UnsignedPrefix(u: string): Option<real>
  {
    var k := DigitRun(u, 10);
    var f := if k < |u| && u[k] == '.' then DigitRun(u[k + 1..], 10) else 0;
    if k == 0 && f == 0 then None
    else Some(DecimalValue(u[..k], if f == 0 then "" else u[k + 1..k + 1 + f]))
  }

  /** `u` begins with the word `Infinity`. */
  predicate StartsWithInfinity(u: string)
  {
    |u| >= 8 && u[0] == 'I' && u[1] == 'n' && u[2] == 'f' && u[3] == 'i'
    && u[4] == 'n' && u[5] == 'i' && u[6] == 't' && u[7] == 'y'
  }

  /**
   * `parseFloat(s)`: leading white space, an optional sign, then `Infinity` or the longest prefix
   * of the form digits [ "." digits ] holding at least one digit; otherwise `NaN`.
   */
  function ParseFloat(s: string): Num
  {
    ParseSigned(TrimStart(s))
  }

  /** An optional sign, then the unsigned number; a minus sign negates it. */
  function ParseSigned(t: string): Num
  {
    if t != [] && t[0] == '-' then Negate(ParseUnsigned(t[1..]))
    else if t != [] && t[0] == '+' then ParseUnsigned(t[1..])
    else ParseUnsigned(t)
  }

  /** `Infinity`, or the unsigned prefix read as a value, or `NaN`. */
  function ParseUnsigned(u: string): Num
  {
    if StartsWithInfinity(u) then PosInfinity
    else
      match UnsignedPrefix(u)
      case None => NaN
      case Some(m) => Finite(m)
  }

  /** `parseFloat` of an optional minus sign followed by a text that starts with a digit. */
  lemma ParseFloatSigned(negative: bool, u: string)
    requires u != [] && IsDecimalDigit(u[0])
    ensures UnsignedPrefix(u).Some?
    ensures var m := UnsignedPrefix(u).value;
            ParseFloat((if negative then "-" else "") + u) == Finite(if negative then -m else m)
  {
    TrimSigned(negative, u);
    ParseUnsignedOfDigits(u);
    if negative {
      DropSign(u);
    } else {
      NoSign(u);
    }
  }

  /** A text that starts with a digit reads as its unsigned prefix. */
  lemma ParseUnsignedOfDigits(u: string)
    requires u != [] && IsDecimalDigit(u[0])
    ensures UnsignedPrefix(u).Some? && ParseUnsigned(u) == Finite(UnsignedPrefix(u).value)
  {
    NotInfinity(u);
  }

  /** A sign or a digit in front means there is no white space to skip. */
  lemma TrimSigned(negative: bool, u: string)
    requires u != [] && IsDecimalDigit(u[0])
    ensures var s := (if negative then "-" else "") + u;
            TrimStart(s) == s && s[0] == (if negative then '-' else u[0])
  {
  }

  /** A text that starts with a digit is not `Infinity` and has a digit run. */
  lemma NotInfinity(u: string)
    requires u != [] && IsDecimalDigit(u[0])
    ensures !StartsWithInfinity(u) && DigitRun(u, 10) > 0
  {
  }

  lemma DropSign(u: string)
    ensures ("-" + u)[1..] == u
  {
  }

  lemma NoSign(u: string)
    ensures "" + u == u
  {
  }

  /** Digits, a point and digits read as their decimal value. */
  lemma UnsignedPrefixOfPointNumeral(a: string, b: string)
    requires |a| >= 1 && forall i :: 0 <= i < |a| ==> IsDecimalDigit(a[i])
    requires |b| >= 1 && forall i :: 0 <= i < |b| ==> IsDecimalDigit(b[i])
    ensures UnsignedPrefix(a + "." + b) == Some(DecimalValue(a, b))
  {
    var u := a + "." + b;
    assert DigitRun(u, 10) == |a| by {
      assert forall i :: 0 <= i < |a| ==> u[i] == a[i];
      assert !IsDigitOf(u[|a|], 10);
    }
    assert u[|a| + 1..] == b;
    assert DigitRun(b, 10) == |b|;
    assert u[..|a|] == a;
    assert u[|a| + 1..|a| + 1 + |b|] == b;
  }

  /** Digits alone read as their value. */
  lemma UnsignedPrefixOfWholeNumeral(a: string)
    requires |a| >= 1 && forall i :: 0 <= i < |a| ==> IsDecimalDigit(a[i])
    ensures UnsignedPrefix(a) == Some(DigitsValue(a, 10) as real)
  {
    assert DigitRun(a, 10) == |a|;
    assert a[..|a|] == a;
  }

  lemma {:induction false} DigitsValueAppend(a: string, b: string)
    ensures DigitsValue(a + b, 10) == DigitsValue(a, 10) * Pow10(|b|) + DigitsValue(b, 10)
  {
    if b == [] {
      assert a + b == a;
    } else {
      var b' := b[..|b| - 1];
      DigitsValueAppend(a, b');
      assert (a + b)[..|a + b| - 1] == a + b';
      ShiftDigit(DigitsValue(a, 10), Pow10(|b'|), DigitsValue(b', 10), DigitValue(b[|b| - 1]));
    }
  }

  lemma ShiftDigit(va: int, pb: int, vb: int, c: int)
    ensures (va * pb + vb) * 10 + c == va * (pb * 10) + (vb * 10 + c)
  {
  }

  lemma {:induction false} DigitsValueOfZeros(k: nat)
    ensures DigitsValue(Zeros(k), 10) == 0
  {
    if k > 0 {
      assert Zeros(k)[..k - 1] == Zeros(k - 1);
      DigitsValueOfZeros(k - 1);
    }
  }

  /** Padding a numeral with zeros keeps it a numeral of the same value. */
  lemma PadDigitsValue(m: string, width: nat)
    requires forall i :: 0 <= i < |m| ==> IsDecimalDigit(m[i])
    ensures forall i :: 0 <= i < |PadDigits(m, width)| ==> IsDecimalDigit(PadDigits(m, width)[i])
    ensures DigitsValue(PadDigits(m, width), 10) == DigitsValue(m, 10)
  {
    if |m| < width {
      DigitsValueAppend(Zeros(width - |m|), m);
      DigitsValueOfZeros(width - |m|);
    }
  }

  /** The numeral `toFixed` lays out for `n` reads back as `n / 10^d`. */
  lemma FixedNumeralValue(n: nat, d: nat)
    ensures UnsignedPrefix(FixedNumeral(n, d)) == Some(n as real / Pow10(d) as real)
  {
    if d == 0 {
      WholeNumeralValue(n);
    } else {
      PointNumeralValue(n, d);
    }
  }

  lemma WholeNumeralValue(n: nat)
    ensures UnsignedPrefix(FixedNumeral(n, 0)) == Some(n as real / Pow10(0) as real)
  {
    DigitsValueOfNatToString(n);
    UnsignedPrefixOfWholeNumeral(NatToString(n));
    FixedNumeralWhole(n);
    UnscaledValue(n);
  }

  lemma UnscaledValue(n: nat)
    ensures n as real / Pow10(0) as real == n as real
  {
  }

  /** Without decimals, the numeral is the plain digits of `n`. */
  lemma FixedNumeralWhole(n: nat)
    ensures FixedNumeral(n, 0) == NatToString(n)
  {
  }

  lemma PointNumeralValue(n: nat, d: nat)
    requires d > 0
    ensures UnsignedPrefix(FixedNumeral(n, d)) == Some(n as real / Pow10(d) as real)
  {
    var m := NatToString(n);
    var padded := PadDigits(m, d + 1);
    var a := padded[..|padded| - d];
    var b := padded[|padded| - d..];
    PointNumeralParts(n, d, a, b);
    FixedNumeralSplit(n, d);
  }

  /** With decimals, the numeral is the padded digits with a point before the last `d` of them. */
  lemma FixedNumeralSplit(n: nat, d: nat)
    requires d > 0
    ensures var padded := PadDigits(NatToString(n), d + 1);
            FixedNumeral(n, d) == padded[..|padded| - d] + "." + padded[|padded| - d..]
  {
  }

  lemma PointNumeralParts(n: nat, d: nat, a: string, b: string)
    requires d > 0
    requires var padded := PadDigits(NatToString(n), d + 1);
             a == padded[..|padded| - d] && b == padded[|padded| - d..]
    ensures UnsignedPrefix(a + "." + b) == Some(n as real / Pow10(d) as real)
  {
    PaddedPartsDigits(n, d, a, b);
    PaddedPartsValue(n, d, a, b);
    UnsignedPrefixOfPointNumeral(a, b);
  }

  /** Both sides of the point are non-empty runs of digits, `d` of them after it. */
  lemma PaddedPartsDigits(n: nat, d: nat, a: string, b: string)
    requires d > 0
    requires var padded := PadDigits(NatToString(n), d + 1);
             a == padded[..|padded| - d] && b == padded[|padded| - d..]
    ensures |a| >= 1 && forall i :: 0 <= i < |a| ==> IsDecimalDigit(a[i])
    ensures |b| == d && forall i :: 0 <= i < |b| ==> IsDecimalDigit(b[i])
  {
    var padded := PadDigits(NatToString(n), d + 1);
    PadDigitsValue(NatToString(n), d + 1);
    PrefixDigits(padded, |padded| - d);
    SuffixDigits(padded, |padded| - d);
  }

  lemma PrefixDigits(s: string, k: nat)
    requires k <= |s| && forall i :: 0 <= i < |s| ==> IsDecimalDigit(s[i])
    ensures forall i :: 0 <= i < k ==> IsDecimalDigit(s[..k][i])
  {
  }

  lemma SuffixDigits(s: string, k: nat)
    requires k <= |s| && forall i :: 0 <= i < |s| ==> IsDecimalDigit(s[i])
    ensures forall i :: 0 <= i < |s| - k ==> IsDecimalDigit(s[k..][i])
  {
    assert forall i :: 0 <= i < |s| - k ==> s[k..][i] == s[k + i];
  }

  /** Read with a point before the last `d` digits, the padded numeral of `n` is `n / 10^d`. */
  lemma PaddedPartsValue(n: nat, d: nat, a: string, b: string)
    requires d > 0
    requires var padded := PadDigits(NatToString(n), d + 1);
             a == padded[..|padded| - d] && b == padded[|padded| - d..]
    ensures DecimalValue(a, b) == n as real / Pow10(d) as real
  {
    var m := NatToString(n);
    var padded := PadDigits(m, d + 1);
    PadDigitsValue(m, d + 1);
    DigitsValueOfNatToString(n);
    TakeDropJoin(padded, |padded| - d);
    DigitsValueAppend(a, b);
    DecimalValueOfSplit(DigitsValue(a, 10), DigitsValue(b, 10), Pow10(d), n);
  }

  lemma TakeDropJoin(s: string, k: nat)
    requires k <= |s|
    ensures s[..k] + s[k..] == s
  {
  }

  lemma DecimalValueOfSplit(va: nat, vb: nat, p: nat, n: nat)
    requires p >= 1 && n == va * p + vb
    ensures va as real + vb as real / p as real == n as real / p as real
  {
    assert n as real == va as real * p as real + vb as real;
  }

  /** `parseFloat` of an optional minus sign and a text whose unsigned prefix reads as `n / 10^d`. */
  lemma ParseFloatSignedValue(negative: bool, u: string, n: nat, d: nat)
    requires u != [] && IsDecimalDigit(u[0]) && UnsignedPrefix(u) == Some(n as real / Pow10(d) as real)
    ensures ParseFloat((if negative then "-" else "") + u)
            == Finite(if negative then -(n as real / Pow10(d) as real) else n as real / Pow10(d) as real)
  {
    ParseFloatSigned(negative, u);
  }

  /** The magnitude `toFixed` rounds `x` to, scaled by `10^d`. */
  function Magnitude(x: real, d: nat): nat
  {
    if x < 0.0 then HalfUp(-x, d) else HalfUp(x, d)
  }

  lemma RoundByMagnitude(x: real, d: nat)
    ensures Round(x, d) == if x < 0.0 then -(Magnitude(x, d) as real / Pow10(d) as real)
                           else Magnitude(x, d) as real / Pow10(d) as real
  {
  }

  /** `parseFloat` reads back the signed numeral `toFixed` lays out for `n`. */
  lemma ParseSignedFixedNumeral(negative: bool, n: nat, d: nat)
    ensures ParseFloat((if negative then "-" else "") + FixedNumeral(n, d))
            == Finite(if negative then -(n as real / Pow10(d) as real) else n as real / Pow10(d) as real)
  {
    FixedNumeralValue(n, d);
    ParseFloatSignedValue(negative, FixedNumeral(n, d), n, d);
  }

  /** `parseFloat(x.toFixed(d))` is `x` rounded to `d` decimals: formatting then parsing loses nothing more. */
  lemma ParseToFixed(x: real, d: nat)
    ensures ParseFloat(ToFixed(x, d)) == Finite(Round(x, d))
  {
    ParseSignedFixedNumeral(x < 0.0, Magnitude(x, d), d);
    RoundByMagnitude(x, d);
  }

  /**
   * `parseFloat(a.toFixed(d))`: a finite value comes back rounded, and `NaN` and the infinities print
   * as words that read back as themselves.
   */
  lemma ParseNumToFixed(a: Num, d: nat)
    ensures a.Finite? ==> ParseFloat(NumToFixed(a, d)) == Finite(Round(a.value, d))
    ensures !a.Finite? ==> ParseFloat(NumToFixed(a, d)) == a
  {
    match a
    case Finite(x) =>
      ParseToFixed(x, d);
    case NaN =>
      assert DigitRun("NaN", 10) == 0;
    case PosInfinity =>
      assert StartsWithInfinity("Infinity");
    case NegInfinity =>
      assert "-Infinity"[1..] == "Infinity";
      assert StartsWithInfinity("Infinity");
  }

  /**
   * `Number(a.toFixed(d))`: the number printed with `d` decimals and read back. A finite value comes back
   * rounded; `NaN` and the infinities come back unchanged. (`Number` and `parseFloat` agree on every
   * text `toFixed` prints.)
   */
  function RoundNum(a: Num, d: nat): (r: Num)
    ensures a.Finite? <==> r.Finite?
    ensures !a.Finite? ==> r == a
  {
    match a
    case Finite(x) => Finite(Round(x, d))
    case _ => a
  }

  /** `RoundNum` is exactly the printed number read back. */
  lemma RoundNumReadsBack(a: Num, d: nat)
    ensures RoundNum(a, d) == ParseFloat(NumToFixed(a, d))
  {
    ParseNumToFixed(a, d);
  }

  /** A number already read back from `d` decimals prints and reads back as itself. */
  lemma RoundNumIdempotent(a: Num, d: nat)
    ensures RoundNum(RoundNum(a, d), d) == RoundNum(a, d)
  {
    if a.Finite? {
      RoundIdempotent(a.value, d);
    }
  }

  /** Formatting a non-negative value already rounded to `d` decimals prints the same text as the exact value. */
  lemma ToFixedOfRound(x: real, d: nat)
    requires x >= 0.0
    ensures ToFixed(Round(x, d), d) == ToFixed(x, d)
  {
    var n := HalfUp(x, d);
    RoundOfMultiple(n, d);
    var p := Pow10(d) as real;
    assert Round(x, d) * p == n as real;
    assert HalfUp(Round(x, d), d) == n;
  }

  /** Every text `toFixed` yields is free of line breaks and commas. */
  lemma NumToFixedHasNoBreak(a: Num, d: nat)
    ensures '\n' !in NumToFixed(a, d) && ',' !in NumToFixed(a, d)
  {
    if a.Finite? {
      FixedNumeralHasNoBreak(Magnitude(a.value, d), d);
    }
  }

  lemma FixedNumeralHasNoBreak(n: nat, d: nat)
    ensures '\n' !in FixedNumeral(n, d) && ',' !in FixedNumeral(n, d)
  {
  }

  /** Zero prints as `0.00` with two decimals and as `0.0000` with four. */
  lemma ToFixedOfZero()
    ensures ToFixed(0.0, 2) == "0.00" && ToFixed(0.0, 4) == "0.0000"
  {
    ToFixedOfZeroAt(2);
    assert Zeros(2) == "00";
    ToFixedOfZeroAt(4);
    assert Zeros(4) == "0000";
  }

  /** Zero prints as `0.` followed by `d` zeros. */
  lemma ToFixedOfZeroAt(d: nat)
    requires d > 0
    ensures ToFixed(0.0, d) == "0." + Zeros(d)
  {
    assert Magnitude(0.0, d) == 0;
    assert NatToString(0) == "0";
    var padded := PadDigits("0", d + 1);
    assert padded == Zeros(d) + "0";
    assert padded[..|padded| - d] == "0";
    assert padded[|padded| - d..] == Zeros(d);
    FixedNumeralSplit(0, d);
  }
}
