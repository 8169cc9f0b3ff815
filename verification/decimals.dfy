/**
 * Digit runs and exact decimals: the text matched by the groups `\d+` and
 * `-?\d+\.\d+`, and the numbers `int()` and `float()` read from that text.
 * A decimal's value is kept as an exact rational; the rounding that Python's
 * `float()` applies is not modelled.
 */
module Decimals {

  /** `\d` in a pattern compiled without the UNICODE flag: the ASCII digits only. */
  predicate IsDigit(c: char) {
    '0' <= c <= '9'
  }

  predicate AllDigits(s: string) {
    forall i :: 0 <= i < |s| ==> IsDigit(s[i])
  }

  /** A non-empty run of ASCII digits, the text matched by `\d+`. */
  type Digits = s: string | |s| > 0 && AllDigits(s) witness "0"

  function DigitValue(c: char): (v: nat)
    requires IsDigit(c)
    ensures v < 10
  {
    c as int - '0' as int
  }

  function Pow10(k: nat): (p: nat)
    ensures p >= 1
  {
    if k == 0 then 1 else 10 * Pow10(k - 1)
  }

  /** The number a run of digits denotes in base ten (what `int()` returns for it). */
  function NumberValue(s: string): (n: nat)
    requires AllDigits(s)
    ensures n < Pow10(|s|)
    decreases |s|
  {
    if |s| == 0 then 0
    else
      var prefix := s[..|s| - 1];
      assert AllDigits(prefix);
      10 * NumberValue(prefix) + DigitValue(s[|s| - 1])
  }

  /** A decimal as written on the wire: optional minus sign, integer digits, a point, fraction digits. */
  datatype Decimal = Decimal(negative: bool, whole: Digits, fraction: Digits)

  /** The text of a decimal, the exact form `-?\d+\.\d+` accepts. */
  function Text(d: Decimal): (t: string)
  {
    (if d.negative then "-" else "") + d.whole + "." + d.fraction
  }

  function Abs(x: real): real {
    if x < 0.0 then -x else x
  }

  /**
   * The value of digits written after a decimal point: the first digit counts
   * tenths, the next hundredths, and so on. Always a proper fraction.
   */
  function FractionValue(s: string): (f: real)
    requires AllDigits(s)
    ensures 0.0 <= f < 1.0
  {
    if |s| == 0 then 0.0
    else
      assert AllDigits(s[1..]);
      (DigitValue(s[0]) as real + FractionValue(s[1..])) / 10.0
  }

  /**
   * The exact value of a decimal (what `float()` approximates). The integer
   * digits give the integer part of the magnitude, the fraction digits the rest.
   */
  function Value(d: Decimal): (v: real)
    ensures d.negative ==> v <= 0.0
    ensures !d.negative ==> v >= 0.0
    ensures NumberValue(d.whole) as real <= Abs(v) < NumberValue(d.whole) as real + 1.0
  {
    var magnitude := NumberValue(d.whole) as real + FractionValue(d.fraction);
    if d.negative then -magnitude else magnitude
  }

  lemma ShiftLeft(x: int, p: int, y: int, c: int)
    ensures 10 * (x * p + y) + c == x * (10 * p) + (10 * y + c)
  {
  }

  /** Digits written after others shift them left: reading `a + b` is reading `a`, scaled, plus reading `b`. */
  lemma {:induction false} NumberValueConcat(a: string, b: string)
    requires AllDigits(a) && AllDigits(b)
    ensures AllDigits(a + b)
    ensures NumberValue(a + b) == NumberValue(a) * Pow10(|b|) + NumberValue(b)
    decreases |b|
  {
    assert AllDigits(a + b) by {
      forall i | 0 <= i < |a + b| ensures IsDigit((a + b)[i]) {
        if i < |a| { assert (a + b)[i] == a[i]; } else { assert (a + b)[i] == b[i - |a|]; }
      }
    }
    if |b| == 0 {
      assert a + b == a;
    } else {
      var front := b[..|b| - 1];
      var last := b[|b| - 1];
      assert AllDigits(front);
      NumberValueConcat(a, front);
      assert (a + b)[..|a + b| - 1] == a + front;
      assert (a + b)[|a + b| - 1] == last;
      assert NumberValue(a + b) == 10 * NumberValue(a + front) + DigitValue(last);
      assert NumberValue(b) == 10 * NumberValue(front) + DigitValue(last);
      ShiftLeft(NumberValue(a), Pow10(|front|), NumberValue(front), DigitValue(last));
    }
  }

  /** Prefixing a digit to a fraction of `p`ths: arithmetic on plain numbers. */
  lemma Shift(d: nat, n: nat, p: nat, m: nat)
    requires p >= 1 && m == d * p + n
    ensures (d as real + n as real / p as real) / 10.0 == m as real / (10 * p) as real
  {
    assert m as real == d as real * p as real + n as real;
  }

  /** A whole number plus a fraction of `p`ths, as one number of `p`ths. */
  lemma Merge(w: nat, n: nat, p: nat, m: nat)
    requires p >= 1 && m == w * p + n
    ensures w as real + n as real / p as real == m as real / p as real
  {
    assert m as real == w as real * p as real + n as real;
  }

  /**
   * The digit-by-digit fraction is the fraction digits read as a whole number
   * and divided by ten to the number of digits.
   */
  lemma {:induction false} FractionValueScaled(s: string)
    requires AllDigits(s)
    ensures FractionValue(s) == NumberValue(s) as real / Pow10(|s|) as real
    decreases |s|
  {
    if |s| > 0 {
      var t := s[1..];
      assert AllDigits(t);
      FractionValueScaled(t);
      assert s == [s[0]] + t;
      assert NumberValue([s[0]]) == DigitValue(s[0]) by {
        assert [s[0]][..0] == "";
      }
      NumberValueConcat([s[0]], t);
      Shift(DigitValue(s[0]), NumberValue(t), Pow10(|t|), NumberValue(s));
    }
  }

  /**
   * The value of a decimal is its mantissa over a power of ten: all its digits
   * read as one whole number with the point dropped, divided by ten to the
   * number of fraction digits, with the sign.
   */
  lemma ValueScaled(d: Decimal)
    ensures AllDigits(d.whole + d.fraction)
    ensures var q := NumberValue(d.whole + d.fraction) as real / Pow10(|d.fraction|) as real;
            Value(d) == if d.negative then -q else q
  {
    NumberValueConcat(d.whole, d.fraction);
    FractionValueScaled(d.fraction);
    Merge(NumberValue(d.whole), NumberValue(d.fraction), Pow10(|d.fraction|), NumberValue(d.whole + d.fraction));
  }

  /** A zero written after the last fraction digit adds nothing. */
  lemma {:induction false} FractionTrailingZero(s: string)
    requires AllDigits(s)
    ensures AllDigits(s + "0")
    ensures FractionValue(s + "0") == FractionValue(s)
    decreases |s|
  {
    NumberValueConcat(s, "0");
    if |s| == 0 {
      assert s + "0" == "0";
      assert FractionValue("0") == (0.0 + FractionValue("")) / 10.0 by {
        assert "0"[1..] == "";
      }
    } else {
      var t := s[1..];
      assert AllDigits(t);
      FractionTrailingZero(t);
      assert (s + "0")[0] == s[0];
      assert (s + "0")[1..] == t + "0";
    }
  }

  /**
   * `float()` ignores trailing zeros in the fraction: `0.30` and `0.3` read the
   * same number.
   */
  lemma ValueTrailingZero(d: Decimal)
    ensures AllDigits(d.fraction + "0")
    ensures Value(d.(fraction := d.fraction + "0")) == Value(d)
  {
    FractionTrailingZero(d.fraction);
  }

  /** The first fraction digit counts tenths: it alone fixes the fraction to within a tenth. */
  lemma FirstFractionDigit(s: string)
    requires AllDigits(s) && |s| > 0
    ensures DigitValue(s[0]) as real / 10.0 <= FractionValue(s) < (DigitValue(s[0]) + 1) as real / 10.0
  {
    assert AllDigits(s[1..]);
  }
}
