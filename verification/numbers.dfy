/**
 * Python's `float()` on decimal strings and Python's floor-based `%` on
 * floats, with floats modelled as exact reals.
 */
module Numbers {
  import opened Base

  predicate IsDigit(c: char)
  {
    '0' <= c <= '9'
  }

  /** Every character of `s` is a digit (stated recursively, from the end). */
  predicate AllDigits(s: string)
  {
    |s| == 0 || (AllDigits(s[..|s| - 1]) && IsDigit(s[|s| - 1]))
  }

  lemma {:induction false} AllDigitsAt(s: string, k: nat)
    requires AllDigits(s) && k < |s|
    ensures IsDigit(s[k])
  {
    if k < |s| - 1 {
      AllDigitsAt(s[..|s| - 1], k);
    }
  }

  lemma {:induction false} AllDigitsIntro(s: string)
    requires forall k :: 0 <= k < |s| ==> IsDigit(s[k])
    ensures AllDigits(s)
  {
    if |s| > 0 {
      var p := s[..|s| - 1];
      assert forall k :: 0 <= k < |p| ==> IsDigit(p[k]) by {
        forall k | 0 <= k < |p| ensures IsDigit(p[k]) { assert p[k] == s[k]; }
      }
      AllDigitsIntro(p);
    }
  }

  /** The natural number a run of decimal digits denotes. */
  function DigitsValue(s: string): nat
    requires AllDigits(s)
  {
    if s == [] then 0
    else DigitsValue(s[..|s| - 1]) * 10 + (s[|s| - 1] as int - '0' as int)
  }

  function Pow10(n: nat): (p: nat)
    ensures p >= 1
  {
    if n == 0 then 1 else 10 * Pow10(n - 1)
  }

  /**
   * An unsigned decimal: digits, optionally followed by '.' and more digits,
   * with at least one digit somewhere (so "7", "7." and ".5", but not ".").
   */
  function ParseUnsigned(s: string): Option<real>
  {
    if '.' in s then
      var i := IndexOf(s, '.');
      var whole, frac := s[..i], s[i + 1..];
      if AllDigits(whole) && AllDigits(frac) && |whole| + |frac| > 0 then
        Some(DigitsValue(whole) as real + DigitsValue(frac) as real / Pow10(|frac|) as real)
      else None
    else if AllDigits(s) && |s| > 0 then Some(DigitsValue(s) as real)
    else None
  }

  /**
   * Python `float(s)` restricted to plain decimal notation with an optional
   * sign; `None` stands for the `ValueError` Python raises.
   */
  function ParseFloat(s: string): Option<real>
  {
    if |s| > 0 && s[0] == '-' then
      match ParseUnsigned(s[1..])
      case Some(v) => Some(-v)
      case None => None
    else if |s| > 0 && s[0] == '+' then ParseUnsigned(s[1..])
    else ParseUnsigned(s)
  }

  /** Only digits and the decimal point occur in an unsigned decimal. */
  lemma UnsignedAlphabet(u: string, j: nat)
    requires ParseUnsigned(u).Some? && j < |u|
    ensures IsDigit(u[j]) || u[j] == '.'
  {
    if '.' in u {
      var i := IndexOf(u, '.');
      if j < i {
        AllDigitsAt(u[..i], j);
        assert u[j] == u[..i][j];
      } else if j > i {
        AllDigitsAt(u[i + 1..], j - i - 1);
        assert u[j] == u[i + 1..][j - i - 1];
      }
    } else {
      AllDigitsAt(u, j);
    }
  }

  /** Only digits, signs and the decimal point can occur in a string `float()` accepts. */
  lemma ParseFloatAlphabet(s: string, k: nat)
    requires ParseFloat(s).Some? && k < |s|
    ensures IsDigit(s[k]) || s[k] == '.' || (k == 0 && (s[k] == '-' || s[k] == '+'))
  {
    if |s| > 0 && (s[0] == '-' || s[0] == '+') {
      if k > 0 {
        UnsignedAlphabet(s[1..], k - 1);
      }
    } else {
      UnsignedAlphabet(s, k);
    }
  }

  /** A string that ends in a character other than a digit or '.' is not a number. */
  lemma ParseFloatRejectsLetterSuffix(s: string)
    requires |s| > 0 && !IsDigit(s[|s| - 1]) && s[|s| - 1] != '.'
    ensures ParseFloat(s) == None
  {
    if ParseFloat(s).Some? {
      ParseFloatAlphabet(s, |s| - 1);
    }
  }

  /** Integer part of a real: the greatest integer not above `x` (Python `math.floor`). */
  function Floor(x: real): (f: int)
    ensures f as real <= x < f as real + 1.0
  {
    x.Floor
  }

  /** Python `x % y` on floats: the remainder takes the sign of the divisor. */
  function PyMod(x: real, y: real): real
    requires y != 0.0
  {
    x - y * Floor(x / y) as real
  }

  /** Dividing a Python remainder by its divisor gives a fraction in [0, 1). */
  lemma PyModFraction(x: real, y: real)
    requires y != 0.0
    ensures 0.0 <= PyMod(x, y) / y < 1.0
  {
    var q := x / y;
    var f := Floor(q) as real;
    assert x == q * y;
    assert PyMod(x, y) == (q - f) * y;
    assert PyMod(x, y) / y == q - f;
  }

  /** `%` is periodic in whole multiples of the divisor. */
  lemma {:induction false} PyModPeriodic(x: real, y: real, n: int)
    requires y != 0.0
    ensures PyMod(x + n as real * y, y) == PyMod(x, y)
  {
    var q := x / y;
    var x' := x + n as real * y;
    assert x' / y == q + n as real;
    assert Floor(q + n as real) == Floor(q) + n;
    calc {
      PyMod(x', y);
      x' - y * (Floor(q) + n) as real;
      x + n as real * y - y * Floor(q) as real - y * n as real;
      PyMod(x, y);
    }
  }

  lemma ParseFloatFraction()
    ensures ParseFloat("34.56") == Some(34.56)
  {
    assert IndexOf("34.56", '.') == 2;
    assert "34.56"[..2] == "34" && "34.56"[3..] == "56";
    assert DigitsValue("34") == 34 by { assert "34"[..1] == "3"; assert "3"[..0] == ""; }
    assert DigitsValue("56") == 56 by { assert "56"[..1] == "5"; assert "5"[..0] == ""; }
  }

  lemma ParseFloatWhole()
    ensures ParseFloat("12") == Some(12.0)
  {
    assert DigitsValue("12") == 12 by { assert "12"[..1] == "1"; assert "1"[..0] == ""; }
  }

  lemma ParseFloatNegative()
    ensures ParseFloat("-0.5") == Some(-0.5)
  {
    assert "-0.5"[1..] == "0.5";
    assert IndexOf("0.5", '.') == 1;
    assert "0.5"[..1] == "0" && "0.5"[2..] == "5";
    assert DigitsValue("0") == 0 by { assert "0"[..0] == ""; }
    assert DigitsValue("5") == 5 by { assert "5"[..0] == ""; }
  }

  lemma ParseFloatZero()
    ensures ParseFloat("0.0") == Some(0.0)
  {
    assert IndexOf("0.0", '.') == 1;
    assert "0.0"[..1] == "0" && "0.0"[2..] == "0";
    assert DigitsValue("0") == 0 by { assert "0"[..0] == ""; }
  }

  lemma ParseFloatRejects()
    ensures ParseFloat(".") == None && ParseFloat("") == None && ParseFloat("1.2.3") == None
  {
    assert IndexOf("1.2.3", '.') == 1;
    assert "1.2.3"[2..] == "2.3";
    assert !AllDigits("2.3") by {
      if AllDigits("2.3") { AllDigitsAt("2.3", 1); }
    }
  }
}
