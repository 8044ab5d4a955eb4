/**
 * Interpolation of attribute values between an animation's `from` and `to`
 * (svg_snapshot.py). A value such as "translate(10 20)" is cut into text and
 * numbers by the pattern `([-+]?\d*\.?\d+|[-+]?\d+)`; numbers at the same
 * place are interpolated linearly and printed with three decimals, the text
 * between them must agree.
 *
 * Printing a float with `"{:.3f}"` is not modelled: it is the parameter
 * `fmt` of every function that prints.
 */
module Interpolate {
  import opened Base
  import opened Numbers

  /** Linear interpolation: `v1 + pos * (v2 - v1)`. */
  function Lerp(v1: real, v2: real, pos: real): real
  {
    v1 + pos * (v2 - v1)
  }

  lemma MulNonNegative(a: real, b: real)
    requires a >= 0.0 && b >= 0.0
    ensures a * b >= 0.0
  {
  }

  /** Interpolation starts at the first value, ends at the second and stays between them. */
  lemma LerpBetween(v1: real, v2: real, pos: real)
    ensures Lerp(v1, v2, 0.0) == v1 && Lerp(v1, v2, 1.0) == v2
    ensures 0.0 <= pos <= 1.0 ==> Min(v1, v2) <= Lerp(v1, v2, pos) <= Max(v1, v2)
  {
    if 0.0 <= pos <= 1.0 {
      var d := v2 - v1;
      if d >= 0.0 {
        MulNonNegative(pos, d);
        MulNonNegative(1.0 - pos, d);
      } else {
        MulNonNegative(pos, -d);
        MulNonNegative(1.0 - pos, -d);
      }
    }
  }

  // ---------------------------------------------------------------------
  // The number pattern, as a leftmost scan
  // ---------------------------------------------------------------------

  /** The length of the run of digits that starts at `i`. */
  function DigitRun(s: string, i: nat): (n: nat)
    requires i <= |s|
    ensures i + n <= |s|
    ensures i + n == |s| || !IsDigit(s[i + n])
    decreases |s| - i
  {
    if i < |s| && IsDigit(s[i]) then 1 + DigitRun(s, i + 1) else 0
  }

  /**
   * The length of the match of the number pattern at `i`, 0 when there is
   * none: an optional sign, a run of digits, then '.' and digits when a digit
   * follows the point. A match holds at least one digit; the second
   * alternative of the pattern matches nothing the first does not.
   */
  function MatchAt(s: string, i: nat): (m: nat)
    requires i <= |s|
    ensures i + m <= |s|
  {
    var sign := SignLen(s, i);
    var d := DigitRun(s, i + sign);
    var j := i + sign + d;
    if j < |s| && s[j] == '.' && DigitRun(s, j + 1) > 0 then sign + d + 1 + DigitRun(s, j + 1)
    else if d > 0 then sign + d
    else 0
  }

  /**
   * `re.split` with one capturing group, as a leftmost scan: the text since
   * `start` has been skipped, `pos` is where the next match is tried. A
   * match ends the text piece, becomes a piece of its own, and the scan goes
   * on after it.
   */
  function SplitScan(s: string, start: nat, pos: nat): (parts: seq<string>)
    requires start <= pos <= |s|
    decreases |s| - pos
  {
    if pos == |s| then [s[start..]]
    else if MatchAt(s, pos) == 0 then SplitScan(s, start, pos + 1)
    else
      var e := pos + MatchAt(s, pos);
      [s[start..pos], s[pos..e]] + SplitScan(s, e, e)
  }

  /** `NUMBER_SPLITTER.split(s)`: text at even places, numbers at odd places. */
  function Tokens(s: string): (parts: seq<string>)
  {
    SplitScan(s, 0, 0)
  }

  function Concat(parts: seq<string>): string
  {
    if parts == [] then "" else parts[0] + Concat(parts[1..])
  }

  /** No character of `s` is a digit (stated recursively). */
  predicate DigitFree(s: string)
  {
    |s| == 0 || (!IsDigit(s[0]) && DigitFree(s[1..]))
  }

  lemma {:induction false} DigitFreeAt(s: string, k: nat)
    requires DigitFree(s) && k < |s|
    ensures !IsDigit(s[k])
  {
    if k > 0 {
      DigitFreeAt(s[1..], k - 1);
    }
  }

  lemma {:induction false} DigitRunAt(s: string, i: nat, k: nat)
    requires i <= |s| && k < DigitRun(s, i)
    ensures IsDigit(s[i + k])
    decreases k
  {
    if k > 0 {
      DigitRunAt(s, i + 1, k - 1);
    }
  }

  /** A digit run is made of digits. */
  lemma DigitRunAll(s: string, i: nat)
    requires i <= |s|
    ensures AllDigits(s[i..i + DigitRun(s, i)])
    decreases |s| - i
  {
    var n := DigitRun(s, i);
    var t := s[i..i + n];
    forall k | 0 <= k < n ensures IsDigit(t[k]) {
      DigitRunAt(s, i, k);
    }
    AllDigitsIntro(t);
  }

  lemma UnsignedWhole(u: string)
    requires |u| > 0 && AllDigits(u)
    ensures ParseUnsigned(u).Some?
  {
    forall k | 0 <= k < |u| ensures u[k] != '.' { AllDigitsAt(u, k); }
  }

  lemma UnsignedFraction(w: string, f: string)
    requires AllDigits(w) && AllDigits(f) && |f| > 0
    ensures ParseUnsigned(w + "." + f).Some?
  {
    var u := w + "." + f;
    forall k | 0 <= k < |w| ensures w[k] != '.' { AllDigitsAt(w, k); }
    assert u[..|w|] == w && u[|w|] == '.';
    var x := IndexOf(u, '.');
    assert u[..x] == w && u[x + 1..] == f;
  }

  /** A sign, if any, followed by an unsigned decimal is a number for `float()`. */
  lemma SignedRun(s: string, i: nat, sign: nat, e: nat)
    requires sign <= 1 && i + sign < e <= |s|
    requires sign == 1 <==> s[i] == '-' || s[i] == '+'
    requires ParseUnsigned(s[i + sign..e]).Some?
    ensures ParseFloat(s[i..e]).Some?
  {
    var tok := s[i..e];
    assert tok[0] == s[i];
    if sign == 1 {
      assert tok[1..] == s[i + 1..e];
    } else {
      assert tok == s[i + sign..e];
    }
  }

  /** Digits, a point and more digits form an unsigned decimal. */
  lemma FractionRun(s: string, k: nat, j: nat, e: nat)
    requires k <= j < |s| && s[j] == '.' && DigitRun(s, j + 1) > 0
    requires j == k + DigitRun(s, k) && e == j + 1 + DigitRun(s, j + 1)
    ensures ParseUnsigned(s[k..e]).Some?
  {
    var w, f := s[k..j], s[j + 1..e];
    DigitRunAll(s, k);
    DigitRunAll(s, j + 1);
    assert s[k..e] == w + "." + f;
    UnsignedFraction(w, f);
  }

  /** A non-empty run of digits is an unsigned decimal. */
  lemma WholeRun(s: string, k: nat, j: nat)
    requires k < j <= |s| && j == k + DigitRun(s, k)
    ensures ParseUnsigned(s[k..j]).Some?
  {
    DigitRunAll(s, k);
    UnsignedWhole(s[k..j]);
  }

  /** The sign of a match, if it has one. */
  function SignLen(s: string, i: nat): (n: nat)
    requires i <= |s|
    ensures n <= 1 && i + n <= |s|
    ensures n == 1 <==> i < |s| && (s[i] == '-' || s[i] == '+')
  {
    if i < |s| && (s[i] == '-' || s[i] == '+') then 1 else 0
  }

  /** Whether the match at `i` has a fractional part. */
  predicate HasFraction(s: string, i: nat)
    requires i <= |s|
  {
    var j := i + SignLen(s, i) + DigitRun(s, i + SignLen(s, i));
    j < |s| && s[j] == '.' && DigitRun(s, j + 1) > 0
  }

  lemma FractionMatch(s: string, i: nat)
    requires i <= |s| && HasFraction(s, i)
    ensures SignLen(s, i) < MatchAt(s, i)
    ensures ParseUnsigned(s[i + SignLen(s, i)..i + MatchAt(s, i)]).Some?
  {
    var sign := SignLen(s, i);
    FractionRun(s, i + sign, i + sign + DigitRun(s, i + sign), i + MatchAt(s, i));
  }

  lemma WholeMatch(s: string, i: nat)
    requires i <= |s| && !HasFraction(s, i) && MatchAt(s, i) > 0
    ensures SignLen(s, i) < MatchAt(s, i)
    ensures ParseUnsigned(s[i + SignLen(s, i)..i + MatchAt(s, i)]).Some?
  {
    var sign := SignLen(s, i);
    WholeRun(s, i + sign, i + sign + DigitRun(s, i + sign));
  }

  /** What follows the sign of a match is an unsigned decimal. */
  lemma MatchUnsigned(s: string, i: nat)
    requires i <= |s| && MatchAt(s, i) > 0
    ensures SignLen(s, i) < MatchAt(s, i)
    ensures ParseUnsigned(s[i + SignLen(s, i)..i + MatchAt(s, i)]).Some?
  {
    if HasFraction(s, i) {
      FractionMatch(s, i);
    } else {
      WholeMatch(s, i);
    }
  }

  /** A match of the number pattern is a number for `float()`. */
  lemma MatchParses(s: string, i: nat)
    requires i <= |s| && MatchAt(s, i) > 0
    ensures ParseFloat(s[i..i + MatchAt(s, i)]).Some?
  {
    MatchUnsigned(s, i);
    SignedRun(s, i, SignLen(s, i), i + MatchAt(s, i));
  }

  /** A string `float()` accepts holds a digit. */
  lemma ParsedHasDigit(t: string)
    requires ParseFloat(t).Some?
    ensures !DigitFree(t)
  {
    var u := if |t| > 0 && (t[0] == '-' || t[0] == '+') then t[1..] else t;
    var off := |t| - |u|;
    assert ParseUnsigned(u).Some?;
    var j: nat;
    if '.' in u {
      var i := IndexOf(u, '.');
      if i > 0 {
        AllDigitsAt(u[..i], 0);
        j := off;
      } else {
        AllDigitsAt(u[i + 1..], 0);
        j := off + i + 1;
      }
    } else {
      AllDigitsAt(u, 0);
      j := off;
    }
    assert IsDigit(t[j]);
    if DigitFree(t) {
      DigitFreeAt(t, j);
    }
  }

  /** A digit always starts a match. */
  lemma DigitStartsMatch(s: string, i: nat)
    requires i < |s| && IsDigit(s[i])
    ensures MatchAt(s, i) > 0
  {
    assert SignLen(s, i) == 0;
  }

  // ---------------------------------------------------------------------
  // What the split promises
  // ---------------------------------------------------------------------

  lemma ConcatCons(a: string, b: string, rest: seq<string>)
    ensures Concat([a, b] + rest) == a + b + Concat(rest)
  {
    assert ([a, b] + rest)[1..] == [b] + rest;
    assert ([b] + rest)[1..] == rest;
  }

  lemma SliceJoin(s: string, a: nat, b: nat, c: nat)
    requires a <= b <= c <= |s|
    ensures s[a..b] + s[b..c] + s[c..] == s[a..]
  {
    assert s[a..b] + s[b..c] == s[a..c];
    assert s[a..c] + s[c..] == s[a..];
  }

  /** A match at `pos` ends the text piece and is a piece of its own. */
  lemma ScanMatch(s: string, start: nat, pos: nat, e: nat)
    requires start <= pos < e <= |s| && e == pos + MatchAt(s, pos)
    ensures SplitScan(s, start, pos) == [s[start..pos], s[pos..e]] + SplitScan(s, e, e)
  {
  }

  /** One match step of the split: the text, the match, then the rest. */
  lemma ScanConcatMatch(s: string, start: nat, pos: nat, e: nat)
    requires start <= pos < e <= |s| && e == pos + MatchAt(s, pos)
    requires Concat(SplitScan(s, e, e)) == s[e..]
    ensures Concat(SplitScan(s, start, pos)) == s[start..]
  {
    ScanMatch(s, start, pos, e);
    ConcatCons(s[start..pos], s[pos..e], SplitScan(s, e, e));
    SliceJoin(s, start, pos, e);
  }

  /** Joining the pieces of the split gives back the string. */
  lemma {:induction false} ScanConcat(s: string, start: nat, pos: nat)
    requires start <= pos <= |s|
    ensures Concat(SplitScan(s, start, pos)) == s[start..]
    decreases |s| - pos
  {
    if pos == |s| {
      assert Concat([s[start..]]) == s[start..] + Concat([]);
    } else if MatchAt(s, pos) == 0 {
      ScanConcat(s, start, pos + 1);
    } else {
      var e := pos + MatchAt(s, pos);
      ScanConcat(s, e, e);
      ScanConcatMatch(s, start, pos, e);
    }
  }

  /** Pieces at even places hold no digit (stated two pieces at a time). */
  predicate TextsAtEven(parts: seq<string>)
  {
    |parts| == 0 || (DigitFree(parts[0]) && (|parts| == 1 || TextsAtEven(parts[2..])))
  }

  /** Pieces at odd places are numbers (stated two pieces at a time). */
  predicate NumbersAtOdd(parts: seq<string>)
  {
    |parts| <= 1 || (ParseFloat(parts[1]).Some? && NumbersAtOdd(parts[2..]))
  }

  lemma {:induction false} TextsAtEvenAt(parts: seq<string>, k: nat)
    requires TextsAtEven(parts) && k < |parts| && k % 2 == 0
    ensures DigitFree(parts[k])
  {
    if k >= 2 {
      TextsAtEvenAt(parts[2..], k - 2);
    }
  }

  lemma {:induction false} NumbersAtOddAt(parts: seq<string>, k: nat)
    requires NumbersAtOdd(parts) && k < |parts| && k % 2 == 1
    ensures ParseFloat(parts[k]).Some?
  {
    if k >= 2 {
      NumbersAtOddAt(parts[2..], k - 2);
    }
  }

  lemma {:induction false} DigitFreeIntro(s: string)
    requires forall k :: 0 <= k < |s| ==> !IsDigit(s[k])
    ensures DigitFree(s)
  {
    if |s| > 0 {
      var t := s[1..];
      assert forall k :: 0 <= k < |t| ==> !IsDigit(t[k]) by {
        forall k | 0 <= k < |t| ensures !IsDigit(t[k]) { assert t[k] == s[k + 1]; }
      }
      DigitFreeIntro(t);
    }
  }

  /** Text without digits stays so when a character other than a digit is added. */
  lemma DigitFreeSnoc(s: string, start: nat, pos: nat)
    requires start <= pos < |s| && DigitFree(s[start..pos]) && !IsDigit(s[pos])
    ensures DigitFree(s[start..pos + 1])
  {
    var t := s[start..pos + 1];
    forall k | 0 <= k < |t| ensures !IsDigit(t[k]) {
      if k < pos - start {
        DigitFreeAt(s[start..pos], k);
        assert t[k] == s[start..pos][k];
      }
    }
    DigitFreeIntro(t);
  }

  lemma TextsCons(a: string, b: string, rest: seq<string>)
    requires DigitFree(a) && TextsAtEven(rest)
    ensures TextsAtEven([a, b] + rest)
  {
    assert ([a, b] + rest)[0] == a && ([a, b] + rest)[2..] == rest;
  }

  /** The text pieces of the split hold no digit. */
  lemma {:induction false} ScanText(s: string, start: nat, pos: nat)
    requires start <= pos <= |s| && DigitFree(s[start..pos])
    ensures TextsAtEven(SplitScan(s, start, pos))
    decreases |s| - pos
  {
    if pos == |s| {
      assert s[start..] == s[start..pos];
    } else if MatchAt(s, pos) == 0 {
      if IsDigit(s[pos]) { DigitStartsMatch(s, pos); }
      DigitFreeSnoc(s, start, pos);
      ScanText(s, start, pos + 1);
    } else {
      var e := pos + MatchAt(s, pos);
      assert s[e..e] == "";
      ScanText(s, e, e);
      ScanMatch(s, start, pos, e);
      TextsCons(s[start..pos], s[pos..e], SplitScan(s, e, e));
    }
  }

  lemma NumbersCons(a: string, b: string, rest: seq<string>)
    requires ParseFloat(b).Some? && NumbersAtOdd(rest)
    ensures NumbersAtOdd([a, b] + rest)
  {
    assert ([a, b] + rest)[1] == b && ([a, b] + rest)[2..] == rest;
  }

  /** The number pieces of the split are numbers for `float()`. */
  lemma {:induction false} ScanNumbers(s: string, start: nat, pos: nat)
    requires start <= pos <= |s|
    ensures NumbersAtOdd(SplitScan(s, start, pos))
    decreases |s| - pos
  {
    if pos < |s| {
      if MatchAt(s, pos) == 0 {
        ScanNumbers(s, start, pos + 1);
      } else {
        var e := pos + MatchAt(s, pos);
        ScanNumbers(s, e, e);
        ScanMatch(s, start, pos, e);
        MatchParses(s, pos);
        NumbersCons(s[start..pos], s[pos..e], SplitScan(s, e, e));
      }
    }
  }

  /**
   * The split of `s`: its pieces join to `s`, pieces at even places are text
   * without digits (so never numbers), pieces at odd places are numbers.
   */
  lemma TokensShape(s: string)
    ensures Concat(Tokens(s)) == s
    ensures forall k :: 0 <= k < |Tokens(s)| && k % 2 == 0 ==> DigitFree(Tokens(s)[k]) && ParseFloat(Tokens(s)[k]).None?
    ensures forall k :: 0 <= k < |Tokens(s)| && k % 2 == 1 ==> ParseFloat(Tokens(s)[k]).Some?
  {
    var parts := Tokens(s);
    ScanConcat(s, 0, 0);
    assert s[0..0] == "";
    ScanText(s, 0, 0);
    ScanNumbers(s, 0, 0);
    forall k | 0 <= k < |parts| && k % 2 == 0 ensures DigitFree(parts[k]) && ParseFloat(parts[k]).None? {
      TextsAtEvenAt(parts, k);
      if ParseFloat(parts[k]).Some? { ParsedHasDigit(parts[k]); }
    }
    forall k | 0 <= k < |parts| && k % 2 == 1 ensures ParseFloat(parts[k]).Some? {
      NumbersAtOddAt(parts, k);
    }
  }

  // ---------------------------------------------------------------------
  // Interpolating tokens and values
  // ---------------------------------------------------------------------

  /**
   * `interpolate_value_token`: two numbers are interpolated and printed; two
   * pieces that are not both numbers pass through when they are identical and
   * are an error otherwise.
   */
  function InterpolateValueToken(s1: string, s2: string, pos: real, fmt: real -> string): (r: Result<string>)
    ensures r.Err? ==> r.error == IncompatibleValues(s1, s2)
  {
    var v1, v2 := ParseFloat(s1), ParseFloat(s2);
    if v1.Some? && v2.Some? then Ok(fmt(Lerp(v1.value, v2.value, pos)))
    else if s1 == s2 then Ok(s1)
    else Err(IncompatibleValues(s1, s2))
  }

  /** Two pieces can be interpolated: both are numbers, or they are the same text. */
  predicate Compatible(t1: string, t2: string)
  {
    (ParseFloat(t1).Some? && ParseFloat(t2).Some?) || t1 == t2
  }

  /** Interpolating the pieces pairwise and joining the results; the first failure is the result. */
  function InterpolateTokens(p1: seq<string>, p2: seq<string>, pos: real, fmt: real -> string): Result<string>
    requires |p1| == |p2|
  {
    if p1 == [] then Ok("")
    else
      var head :- InterpolateValueToken(p1[0], p2[0], pos, fmt);
      var tail :- InterpolateTokens(p1[1..], p2[1..], pos, fmt);
      Ok(head + tail)
  }

  /** `interpolate_values`: the value `pos` of the way from `s1` to `s2`. */
  function InterpolateValues(s1: string, s2: string, pos: real, fmt: real -> string): Result<string>
  {
    var p1, p2 := Tokens(s1), Tokens(s2);
    if |p1| != |p2| then Err(IncompatibleValues(s1, s2))
    else InterpolateTokens(p1, p2, pos, fmt)
  }

  /** A value with every number printed by `fmt` and all other text kept. */
  function ReprintTokens(parts: seq<string>, fmt: real -> string): string
  {
    if parts == [] then ""
    else
      var head := match ParseFloat(parts[0]) case Some(v) => fmt(v) case None => parts[0];
      head + ReprintTokens(parts[1..], fmt)
  }

  function Reprint(s: string, fmt: real -> string): string
  {
    ReprintTokens(Tokens(s), fmt)
  }

  /** Pieces interpolate exactly when every pair of them is compatible, wherever `pos` is. */
  lemma {:induction false} InterpolateTokensOk(p1: seq<string>, p2: seq<string>, pos: real, fmt: real -> string)
    requires |p1| == |p2|
    ensures InterpolateTokens(p1, p2, pos, fmt).Ok?
      <==> forall k :: 0 <= k < |p1| ==> Compatible(p1[k], p2[k])
  {
    if p1 != [] {
      InterpolateTokensOk(p1[1..], p2[1..], pos, fmt);
      if forall k :: 0 <= k < |p1| - 1 ==> Compatible(p1[1..][k], p2[1..][k]) {
        assert forall k :: 1 <= k < |p1| ==> Compatible(p1[k], p2[k]) by {
          forall k | 1 <= k < |p1| ensures Compatible(p1[k], p2[k]) {
            assert p1[1..][k - 1] == p1[k] && p2[1..][k - 1] == p2[k];
          }
        }
      } else {
        var k :| 0 <= k < |p1| - 1 && !Compatible(p1[1..][k], p2[1..][k]);
        assert p1[1..][k] == p1[k + 1] && p2[1..][k] == p2[k + 1];
      }
    }
  }

  /** At position 0 the interpolation is the first value, reprinted. */
  lemma {:induction false} InterpolateTokensStart(p1: seq<string>, p2: seq<string>, fmt: real -> string)
    requires |p1| == |p2| && InterpolateTokens(p1, p2, 0.0, fmt).Ok?
    ensures InterpolateTokens(p1, p2, 0.0, fmt).value == ReprintTokens(p1, fmt)
  {
    if p1 != [] {
      InterpolateTokensStart(p1[1..], p2[1..], fmt);
      var v1, v2 := ParseFloat(p1[0]), ParseFloat(p2[0]);
      if v1.Some? && v2.Some? {
        LerpBetween(v1.value, v2.value, 0.0);
      }
    }
  }

  /** At position 1 the interpolation is the second value, reprinted. */
  lemma {:induction false} InterpolateTokensEnd(p1: seq<string>, p2: seq<string>, fmt: real -> string)
    requires |p1| == |p2| && InterpolateTokens(p1, p2, 1.0, fmt).Ok?
    ensures InterpolateTokens(p1, p2, 1.0, fmt).value == ReprintTokens(p2, fmt)
  {
    if p1 != [] {
      InterpolateTokensEnd(p1[1..], p2[1..], fmt);
      var v1, v2 := ParseFloat(p1[0]), ParseFloat(p2[0]);
      if v1.Some? && v2.Some? {
        LerpBetween(v1.value, v2.value, 1.0);
      }
    }
  }

  /** Interpolating a value with itself only reprints its numbers. */
  lemma {:induction false} InterpolateTokensSelf(p: seq<string>, pos: real, fmt: real -> string)
    ensures InterpolateTokens(p, p, pos, fmt) == Ok(ReprintTokens(p, fmt))
  {
    if p != [] {
      InterpolateTokensSelf(p[1..], pos, fmt);
      var v := ParseFloat(p[0]);
      if v.Some? {
        assert Lerp(v.value, v.value, pos) == v.value;
      }
    }
  }

  /**
   * Two values interpolate exactly when they split into as many pieces and
   * their text pieces agree; the numbers never stand in the way.
   */
  lemma InterpolateValuesOk(s1: string, s2: string, pos: real, fmt: real -> string)
    ensures InterpolateValues(s1, s2, pos, fmt).Ok? <==>
      (|Tokens(s1)| == |Tokens(s2)| &&
       forall k :: 0 <= k < |Tokens(s1)| && k % 2 == 0 ==> Tokens(s1)[k] == Tokens(s2)[k])
  {
    var p1, p2 := Tokens(s1), Tokens(s2);
    if |p1| == |p2| {
      TokensShape(s1);
      TokensShape(s2);
      InterpolateTokensOk(p1, p2, pos, fmt);
      forall k | 0 <= k < |p1|
        ensures Compatible(p1[k], p2[k]) <==> (k % 2 == 0 ==> p1[k] == p2[k])
      {
      }
    }
  }

  /** A failed interpolation names the two values. */
  lemma InterpolateValuesError(s1: string, s2: string, pos: real, fmt: real -> string)
    requires InterpolateValues(s1, s2, pos, fmt).Err?
    ensures InterpolateValues(s1, s2, pos, fmt).error.IncompatibleValues?
  {
    var p1, p2 := Tokens(s1), Tokens(s2);
    if |p1| == |p2| {
      InterpolateTokensError(p1, p2, pos, fmt);
    }
  }

  lemma {:induction false} InterpolateTokensError(p1: seq<string>, p2: seq<string>, pos: real, fmt: real -> string)
    requires |p1| == |p2| && InterpolateTokens(p1, p2, pos, fmt).Err?
    ensures InterpolateTokens(p1, p2, pos, fmt).error.IncompatibleValues?
  {
    if InterpolateValueToken(p1[0], p2[0], pos, fmt).Ok? {
      InterpolateTokensError(p1[1..], p2[1..], pos, fmt);
    }
  }

  /** The animation starts from the `from` value and ends at the `to` value. */
  lemma InterpolateValuesEndpoints(s1: string, s2: string, fmt: real -> string)
    ensures InterpolateValues(s1, s2, 0.0, fmt).Ok? ==> InterpolateValues(s1, s2, 0.0, fmt).value == Reprint(s1, fmt)
    ensures InterpolateValues(s1, s2, 1.0, fmt).Ok? ==> InterpolateValues(s1, s2, 1.0, fmt).value == Reprint(s2, fmt)
  {
    var p1, p2 := Tokens(s1), Tokens(s2);
    if |p1| == |p2| {
      if InterpolateTokens(p1, p2, 0.0, fmt).Ok? { InterpolateTokensStart(p1, p2, fmt); }
      if InterpolateTokens(p1, p2, 1.0, fmt).Ok? { InterpolateTokensEnd(p1, p2, fmt); }
    }
  }

  /** A value interpolated with itself is itself, reprinted, at every position. */
  lemma InterpolateValuesSelf(s: string, pos: real, fmt: real -> string)
    ensures InterpolateValues(s, s, pos, fmt) == Ok(Reprint(s, fmt))
  {
    InterpolateTokensSelf(Tokens(s), pos, fmt);
  }

  // ---------------------------------------------------------------------
  // Lists of numbers
  // ---------------------------------------------------------------------

  /** The pairwise interpolation of two lists, as long as the shorter one (`zip`). */
  function LerpLists(ns1: seq<real>, ns2: seq<real>, pos: real): (r: seq<real>)
    ensures |r| == if |ns1| <= |ns2| then |ns1| else |ns2|
  {
    if ns1 == [] || ns2 == [] then []
    else [Lerp(ns1[0], ns2[0], pos)] + LerpLists(ns1[1..], ns2[1..], pos)
  }

  /** `interpolate_num_lists`: the loop that builds the interpolated list. */
  method InterpolateNumLists(ns1: seq<real>, ns2: seq<real>, pos: real) returns (result: seq<real>)
    ensures result == LerpLists(ns1, ns2, pos)
  {
    result := [];
    var i := 0;
    while i < |ns1| && i < |ns2|
      invariant 0 <= i <= |ns1| && i <= |ns2|
      invariant result + LerpLists(ns1[i..], ns2[i..], pos) == LerpLists(ns1, ns2, pos)
    {
      assert ns1[i..][1..] == ns1[i + 1..] && ns2[i..][1..] == ns2[i + 1..];
      result := result + [Lerp(ns1[i], ns2[i], pos)];
      i := i + 1;
    }
  }

  /** Every element of the interpolated list is the interpolation of the elements at its place. */
  lemma {:induction false} LerpListsAt(ns1: seq<real>, ns2: seq<real>, pos: real, k: nat)
    requires k < |ns1| && k < |ns2|
    ensures LerpLists(ns1, ns2, pos)[k] == Lerp(ns1[k], ns2[k], pos)
  {
    if k > 0 {
      LerpListsAt(ns1[1..], ns2[1..], pos, k - 1);
    }
  }

  /** At position 0 the list is the first list, at position 1 the second, cut to the shorter length. */
  lemma LerpListsEndpoints(ns1: seq<real>, ns2: seq<real>)
    ensures var n := |LerpLists(ns1, ns2, 0.0)|;
      LerpLists(ns1, ns2, 0.0) == ns1[..n] && LerpLists(ns1, ns2, 1.0) == ns2[..n]
  {
    var n := |LerpLists(ns1, ns2, 0.0)|;
    forall k | 0 <= k < n
      ensures LerpLists(ns1, ns2, 0.0)[k] == ns1[k] && LerpLists(ns1, ns2, 1.0)[k] == ns2[k]
    {
      LerpListsAt(ns1, ns2, 0.0, k);
      LerpListsAt(ns1, ns2, 1.0, k);
    }
  }
}
