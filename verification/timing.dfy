/**
 * `get_time_position` (svg_snapshot.py): how far into its current repetition
 * an animation element is at time `t`, as a fraction of its simple duration;
 * -1 when the animation does not apply at `t`, and 1.0 after the end of an
 * animation that freezes.
 *
 * An element is read through its attribute dictionary. `repeatCount` is read
 * with `float()`; clock values with `parse_time`, as written or corrected
 * (`Clock.ReadClock`). Every operation here takes that choice as its
 * `asWritten` argument, so the code as written and the corrected evaluator
 * are stated side by side.
 */
module Timing {
  import opened Base
  import opened Numbers
  import opened Clock

  type Attrs = map<string, string>

  /** `elem.attrib[key]`: a missing attribute raises `KeyError`. */
  function Attr(attrs: Attrs, key: string): (r: Result<string>)
    ensures r.Ok? <==> key in attrs
    ensures r.Ok? ==> r.value == attrs[key]
    ensures r.Err? ==> r.error == KeyError(key)
  {
    if key in attrs then Ok(attrs[key]) else Err(KeyError(key))
  }

  /** `elem.attrib.get(key, default)`. */
  function AttrOr(attrs: Attrs, key: string, default: string): (v: string)
    ensures key in attrs ==> v == attrs[key]
    ensures key !in attrs ==> v == default
  {
    if key in attrs then attrs[key] else default
  }

  /**
   * `parse_time(elem.attrib[key])`, with `parse_time` as written or corrected:
   * a missing attribute, or a value that is not a clock value.
   */
  function ClockAttr(attrs: Attrs, key: string, asWritten: bool): (r: Result<real>)
    ensures r.Ok? <==> key in attrs && ReadClock(attrs[key], asWritten).Some?
    ensures r.Ok? ==> r.value == ReadClock(attrs[key], asWritten).value
    ensures key !in attrs ==> r == Err(KeyError(key))
    ensures key in attrs && ReadClock(attrs[key], asWritten).None? ==> r == Err(ValueError(attrs[key]))
  {
    var text :- Attr(attrs, key);
    match ReadClock(text, asWritten)
    case Some(v) => Ok(v)
    case None => Err(ValueError(text))
  }

  /** A clock attribute reads the same both ways when its value cannot end in the millisecond suffix. */
  lemma ClockAttrAgrees(attrs: Attrs, key: string)
    requires key in attrs ==> Unambiguous(attrs[key])
    ensures ClockAttr(attrs, key, true) == ClockAttr(attrs, key, false)
  {
    if key in attrs {
      ParseClockAgrees(attrs[key]);
    }
  }

  /** `float(elem.attrib[key])` for an attribute known to be present. */
  function FloatAttr(attrs: Attrs, key: string): (r: Result<real>)
    requires key in attrs
    ensures r.Ok? <==> ParseFloat(attrs[key]).Some?
    ensures r.Ok? ==> r.value == ParseFloat(attrs[key]).value
    ensures r.Err? ==> r.error == ValueError(attrs[key])
  {
    match ParseFloat(attrs[key])
    case Some(v) => Ok(v)
    case None => Err(ValueError(attrs[key]))
  }

  predicate Freezes(attrs: Attrs)
  {
    AttrOr(attrs, "fill", "") == "freeze"
  }

  /** What a finished animation contributes: its end when frozen, nothing otherwise. */
  function Finished(attrs: Attrs): real
  {
    if Freezes(attrs) then 1.0 else -1.0
  }

  /** A repetition attribute that limits the animation (present and not "indefinite"). */
  predicate Limits(attrs: Attrs, key: string)
  {
    key in attrs && attrs[key] != "indefinite"
  }

  /**
   * How far into the current repetition the animation is, once `begin` and
   * `dur` are known, with the frozen value after a `repeatDur` given by
   * `frozen` (the two readings of that value differ only there).
   */
  function PositionWith(attrs: Attrs, begin: real, dur: real, t: real, frozen: real, asWritten: bool): (r: Result<real>)
    requires dur != 0.0
  {
    var elapsed := t - begin;
    var cycles := Floor(elapsed / dur) + 1;
    if "repeatCount" !in attrs && "repeatDur" !in attrs && elapsed > dur then
      Ok(Finished(attrs))
    else
      var countOver :-
        if Limits(attrs, "repeatCount") then
          var count :- FloatAttr(attrs, "repeatCount");
          Ok(cycles as real > count)
        else Ok(false);
      if countOver then Ok(Finished(attrs))
      else
        var durOver :-
          if Limits(attrs, "repeatDur") then
            var repeatDur :- ClockAttr(attrs, "repeatDur", asWritten);
            Ok(elapsed >= repeatDur)
          else Ok(false);
        if durOver then Ok(if Freezes(attrs) then frozen else -1.0)
        else Ok(PyMod(elapsed, dur) / dur)
  }

  /**
   * The value `get_time_position` freezes at after `repeatDur`, as written:
   * the start time is subtracted from a duration.
   */
  function FrozenAsWritten(attrs: Attrs, begin: real, dur: real): real
    requires dur != 0.0
  {
    match ClockAttr(attrs, "repeatDur", true)
    case Ok(rd) => PyMod(rd - begin, dur) / dur
    case Err(_) => 0.0
  }

  /**
   * Where an animation stands when it stops `rd` seconds after its start:
   * the fraction of the repetition then under way, or the end of the
   * repetition that has just finished when it stops exactly at one.
   */
  function StoppedAt(rd: real, dur: real): real
    requires dur != 0.0
  {
    if rd > 0.0 && PyMod(rd, dur) == 0.0 then 1.0 else PyMod(rd, dur) / dur
  }

  /** The corrected frozen value: where the animation stood when `repeatDur` ran out. */
  function FrozenAtEnd(attrs: Attrs, dur: real): real
    requires dur != 0.0
  {
    match ClockAttr(attrs, "repeatDur", false)
    case Ok(rd) => StoppedAt(rd, dur)
    case Err(_) => 0.0
  }

  function Frozen(attrs: Attrs, begin: real, dur: real, asWritten: bool): real
    requires dur != 0.0
  {
    if asWritten then FrozenAsWritten(attrs, begin, dur) else FrozenAtEnd(attrs, dur)
  }

  /**
   * `get_time_position`, as written (`asWritten`) or with both of its
   * defects corrected: the clock values, read first, then the start, the
   * division and the repetition rules.
   */
  function TimePositionFrom(attrs: Attrs, t: real, asWritten: bool): (r: Result<real>)
  {
    var begin :- ClockAttr(attrs, "begin", asWritten);
    var dur :- ClockAttr(attrs, "dur", asWritten);
    if t < begin then Ok(-1.0)
    else if dur == 0.0 then Err(ZeroDivisionError)
    else PositionWith(attrs, begin, dur, t, Frozen(attrs, begin, dur, asWritten), asWritten)
  }

  /** `get_time_position` as written. */
  function TimePositionAsWritten(attrs: Attrs, t: real): Result<real>
  {
    TimePositionFrom(attrs, t, true)
  }

  /** `get_time_position` corrected: millisecond clock values, and the frozen value after `repeatDur`. */
  function TimePosition(attrs: Attrs, t: real): Result<real>
  {
    TimePositionFrom(attrs, t, false)
  }

  // ---------------------------------------------------------------------
  // What the position promises
  // ---------------------------------------------------------------------

  /** A position is "not active", a fraction of a repetition, or the frozen end. */
  predicate IsPosition(x: real)
  {
    x == -1.0 || (0.0 <= x < 1.0) || x == 1.0
  }

  lemma PositionWithRange(attrs: Attrs, begin: real, dur: real, t: real, frozen: real, asWritten: bool)
    requires dur != 0.0 && IsPosition(frozen)
    ensures PositionWith(attrs, begin, dur, t, frozen, asWritten).Ok? ==>
      IsPosition(PositionWith(attrs, begin, dur, t, frozen, asWritten).value)
    ensures PositionWith(attrs, begin, dur, t, frozen, asWritten).Err? ==>
      PositionWith(attrs, begin, dur, t, frozen, asWritten).error in
        {ValueError(AttrOr(attrs, "repeatCount", "")), ValueError(AttrOr(attrs, "repeatDur", ""))}
  {
    PyModFraction(t - begin, dur);
  }

  lemma FrozenRange(attrs: Attrs, begin: real, dur: real, asWritten: bool)
    requires dur != 0.0
    ensures IsPosition(Frozen(attrs, begin, dur, asWritten))
  {
    match ClockAttr(attrs, "repeatDur", asWritten)
    case Ok(rd) =>
      PyModFraction(rd - begin, dur);
      PyModFraction(rd, dur);
    case Err(_) =>
  }

  /**
   * Every result is a position; the only failures are a missing `begin` or
   * `dur`, a value that does not parse, and a zero duration.
   */
  lemma TimePositionRange(attrs: Attrs, t: real, asWritten: bool)
    ensures TimePositionFrom(attrs, t, asWritten).Ok? ==> IsPosition(TimePositionFrom(attrs, t, asWritten).value)
    ensures TimePositionFrom(attrs, t, asWritten).Err? ==>
      TimePositionFrom(attrs, t, asWritten).error.KeyError? ||
      TimePositionFrom(attrs, t, asWritten).error.ValueError? ||
      TimePositionFrom(attrs, t, asWritten).error == ZeroDivisionError
  {
    var b := ClockAttr(attrs, "begin", asWritten);
    var d := ClockAttr(attrs, "dur", asWritten);
    if b.Ok? && d.Ok? && t >= b.value && d.value != 0.0 {
      FrozenRange(attrs, b.value, d.value, asWritten);
      PositionWithRange(attrs, b.value, d.value, t, Frozen(attrs, b.value, d.value, asWritten), asWritten);
    }
  }

  /** `begin` is read first, then `dur`: a missing one is a `KeyError` naming it. */
  lemma MissingClock(attrs: Attrs, t: real, asWritten: bool)
    ensures "begin" !in attrs ==> TimePositionFrom(attrs, t, asWritten) == Err(KeyError("begin"))
    ensures "begin" in attrs && ReadClock(attrs["begin"], asWritten).Some? && "dur" !in attrs ==>
      TimePositionFrom(attrs, t, asWritten) == Err(KeyError("dur"))
  {
  }

  /**
   * As written, a millisecond `begin` or `dur` is a `ValueError`: no element
   * that times itself in milliseconds can be evaluated.
   */
  lemma MillisecondsAsWritten(attrs: Attrs, t: real)
    ensures "begin" in attrs && !Unambiguous(attrs["begin"]) ==>
      TimePositionAsWritten(attrs, t) == Err(ValueError(attrs["begin"]))
    ensures ClockAttr(attrs, "begin", true).Ok? && "dur" in attrs && !Unambiguous(attrs["dur"]) ==>
      TimePositionAsWritten(attrs, t) == Err(ValueError(attrs["dur"]))
  {
    if "begin" in attrs && !Unambiguous(attrs["begin"]) {
      MillisecondsRejected(attrs["begin"]);
    }
    if "dur" in attrs && !Unambiguous(attrs["dur"]) {
      MillisecondsRejected(attrs["dur"]);
    }
  }

  /** Before its start an animation does not apply; from its start on, a zero duration is a division by zero. */
  lemma BeforeBegin(attrs: Attrs, t: real, begin: real, dur: real, asWritten: bool)
    requires ClockAttr(attrs, "begin", asWritten) == Ok(begin) && ClockAttr(attrs, "dur", asWritten) == Ok(dur)
    ensures t < begin ==> TimePositionFrom(attrs, t, asWritten) == Ok(-1.0)
    ensures t >= begin && dur == 0.0 ==> TimePositionFrom(attrs, t, asWritten) == Err(ZeroDivisionError)
  {
  }

  /** Once `begin` and `dur` are read, the rest depends on the repetition rules only. */
  lemma TimePositionParsed(attrs: Attrs, t: real, begin: real, dur: real, asWritten: bool)
    requires ClockAttr(attrs, "begin", asWritten) == Ok(begin) && ClockAttr(attrs, "dur", asWritten) == Ok(dur)
    requires t >= begin && dur != 0.0
    ensures TimePositionFrom(attrs, t, asWritten) == PositionWith(attrs, begin, dur, t, Frozen(attrs, begin, dur, asWritten), asWritten)
  {
  }

  /** Which clock attributes the two readings of `parse_time` read alike. */
  predicate ClocksUnambiguous(attrs: Attrs)
  {
    ("begin" in attrs ==> Unambiguous(attrs["begin"])) &&
    ("dur" in attrs ==> Unambiguous(attrs["dur"])) &&
    ("repeatDur" in attrs ==> Unambiguous(attrs["repeatDur"]))
  }

  lemma PositionWithAgrees(attrs: Attrs, begin: real, dur: real, t: real, f: real, g: real)
    requires dur != 0.0 && ClockAttr(attrs, "repeatDur", true) == ClockAttr(attrs, "repeatDur", false)
    ensures PositionWith(attrs, begin, dur, t, f, true) != PositionWith(attrs, begin, dur, t, g, false) ==>
      Freezes(attrs) && Limits(attrs, "repeatDur") && ClockAttr(attrs, "repeatDur", false).Ok? &&
      t - begin >= ClockAttr(attrs, "repeatDur", false).value
  {
  }

  /**
   * The code as written and the corrected reading agree on every element
   * without a millisecond clock value, except once a frozen animation has
   * run out its `repeatDur`.
   */
  lemma ReadingsAgree(attrs: Attrs, t: real)
    requires ClocksUnambiguous(attrs)
    ensures TimePositionAsWritten(attrs, t) != TimePosition(attrs, t) ==>
      Freezes(attrs) && Limits(attrs, "repeatDur") &&
      ClockAttr(attrs, "begin", false).Ok? && ClockAttr(attrs, "repeatDur", false).Ok? &&
      t - ClockAttr(attrs, "begin", false).value >= ClockAttr(attrs, "repeatDur", false).value
  {
    ClockAttrAgrees(attrs, "begin");
    ClockAttrAgrees(attrs, "dur");
    ClockAttrAgrees(attrs, "repeatDur");
    var b := ClockAttr(attrs, "begin", false);
    var d := ClockAttr(attrs, "dur", false);
    if b.Ok? && d.Ok? && t >= b.value && d.value != 0.0 {
      TimePositionParsed(attrs, t, b.value, d.value, true);
      TimePositionParsed(attrs, t, b.value, d.value, false);
      PositionWithAgrees(attrs, b.value, d.value, t, Frozen(attrs, b.value, d.value, true), Frozen(attrs, b.value, d.value, false));
    }
  }

  /** A remainder of a value already below the divisor is the value itself. */
  lemma PyModSmall(x: real, y: real)
    requires 0.0 <= x < y
    ensures PyMod(x, y) == x
  {
    assert 0.0 <= x / y < 1.0;
    assert Floor(x / y) == 0;
  }

  /** A value divided by itself leaves nothing over. */
  lemma PyModSelf(y: real)
    requires y > 0.0
    ensures PyMod(y, y) == 0.0
  {
    assert y / y == 1.0;
    assert Floor(y / y) == 1;
  }

  /**
   * Without repetition: the fraction of the duration elapsed so far, through
   * the end of the duration itself (where the position is 0 again, since the
   * end test is strict), then the end.
   */
  lemma SinglePlay(attrs: Attrs, t: real, begin: real, dur: real, asWritten: bool)
    requires ClockAttr(attrs, "begin", asWritten) == Ok(begin) && ClockAttr(attrs, "dur", asWritten) == Ok(dur)
    requires "repeatCount" !in attrs && "repeatDur" !in attrs && dur > 0.0
    ensures begin <= t < begin + dur ==> TimePositionFrom(attrs, t, asWritten) == Ok((t - begin) / dur)
    ensures t == begin + dur ==> TimePositionFrom(attrs, t, asWritten) == Ok(0.0)
    ensures t > begin + dur ==> TimePositionFrom(attrs, t, asWritten) == Ok(if Freezes(attrs) then 1.0 else -1.0)
  {
    if t >= begin {
      TimePositionParsed(attrs, t, begin, dur, asWritten);
      if t < begin + dur {
        PyModSmall(t - begin, dur);
      } else if t == begin + dur {
        assert t - begin == dur;
        PyModSelf(dur);
      }
    }
  }

  lemma MulPositive(a: real, b: real)
    requires a > 0.0 && b > 0.0
    ensures a * b > 0.0
  {
  }

  /** Comparing a quotient with `n` is comparing the dividend with `n` divisors. */
  lemma QuotientAtLeast(e: real, dur: real, n: real)
    requires dur > 0.0
    ensures e / dur >= n <==> e >= n * dur
  {
    var q := e / dur;
    assert e - n * dur == (q - n) * dur;
    if q > n {
      MulPositive(q - n, dur);
    } else if q < n {
      MulPositive(n - q, dur);
      assert n * dur - e == (n - q) * dur;
    }
  }

  /**
   * The repetition under way after `e` seconds is numbered past a count `c`
   * exactly when the whole part of `c` durations have elapsed.
   */
  lemma CyclesPast(e: real, dur: real, c: real)
    requires dur > 0.0
    ensures (Floor(e / dur) + 1) as real > c <==> e >= Floor(c) as real * dur
  {
    var n := Floor(c);
    QuotientAtLeast(e, dur, n as real);
    var q := e / dur;
    var f := Floor(q);
    assert f as real <= q < f as real + 1.0;
    assert n as real <= c < n as real + 1.0;
    assert (f + 1) as real == f as real + 1.0;
    if f + 1 > n {
      assert f as real >= n as real;
    } else {
      assert f as real + 1.0 <= n as real;
    }
  }

  /**
   * With `repeatCount` a number `c`, read with `float()`, the animation runs
   * for the whole part of `c` durations: the fraction of a repetition left
   * over by a fractional count is never played.
   */
  lemma RepeatCountRuns(attrs: Attrs, t: real, begin: real, dur: real, c: real, asWritten: bool)
    requires ClockAttr(attrs, "begin", asWritten) == Ok(begin) && ClockAttr(attrs, "dur", asWritten) == Ok(dur)
    requires Limits(attrs, "repeatCount") && ParseFloat(attrs["repeatCount"]) == Some(c)
    requires !Limits(attrs, "repeatDur") && dur > 0.0 && t >= begin
    ensures t - begin < Floor(c) as real * dur ==> TimePositionFrom(attrs, t, asWritten) == Ok(PyMod(t - begin, dur) / dur)
    ensures t - begin >= Floor(c) as real * dur ==> TimePositionFrom(attrs, t, asWritten) == Ok(if Freezes(attrs) then 1.0 else -1.0)
  {
    TimePositionParsed(attrs, t, begin, dur, asWritten);
    CyclesPast(t - begin, dur, c);
  }

  /**
   * With `repeatDur` a clock value `rd` and no limit on the count, the
   * animation repeats until `rd` seconds have elapsed; then, frozen, it
   * stays at `(rd - begin) % dur / dur` as written, or where it stood when
   * it stopped once corrected.
   */
  lemma RepeatDurRuns(attrs: Attrs, t: real, begin: real, dur: real, rd: real, asWritten: bool)
    requires ClockAttr(attrs, "begin", asWritten) == Ok(begin) && ClockAttr(attrs, "dur", asWritten) == Ok(dur)
    requires Limits(attrs, "repeatDur") && ClockAttr(attrs, "repeatDur", asWritten) == Ok(rd)
    requires !Limits(attrs, "repeatCount") && dur != 0.0 && t >= begin
    ensures t - begin < rd ==> TimePositionFrom(attrs, t, asWritten) == Ok(PyMod(t - begin, dur) / dur)
    ensures t - begin >= rd && asWritten ==>
      TimePositionFrom(attrs, t, asWritten) == Ok(if Freezes(attrs) then PyMod(rd - begin, dur) / dur else -1.0)
    ensures t - begin >= rd && !asWritten ==>
      TimePositionFrom(attrs, t, asWritten) == Ok(if Freezes(attrs) then StoppedAt(rd, dur) else -1.0)
  {
    TimePositionParsed(attrs, t, begin, dur, asWritten);
  }

  /** An animation that repeats indefinitely is periodic in its duration. */
  lemma IndefinitePeriodic(attrs: Attrs, t: real, begin: real, dur: real, k: nat, asWritten: bool)
    requires ClockAttr(attrs, "begin", asWritten) == Ok(begin) && ClockAttr(attrs, "dur", asWritten) == Ok(dur)
    requires "repeatCount" in attrs && attrs["repeatCount"] == "indefinite" && !Limits(attrs, "repeatDur")
    requires dur > 0.0 && t >= begin
    ensures TimePositionFrom(attrs, t + k as real * dur, asWritten) == TimePositionFrom(attrs, t, asWritten)
    ensures TimePositionFrom(attrs, t, asWritten) == Ok(PyMod(t - begin, dur) / dur)
  {
    var t' := t + k as real * dur;
    assert t' >= begin by { MulNonNegativeReal(k as real, dur); }
    TimePositionParsed(attrs, t, begin, dur, asWritten);
    TimePositionParsed(attrs, t', begin, dur, asWritten);
    assert t' - begin == (t - begin) + k as real * dur;
    PyModPeriodic(t - begin, dur, k);
  }

  lemma MulNonNegativeReal(a: real, b: real)
    requires a >= 0.0 && b >= 0.0
    ensures a * b >= 0.0
  {
  }

  /**
   * Frozen after `repeatDur` (corrected): the value is where the animation
   * stood at time `begin + repeatDur`, when it stopped, or the end of a
   * repetition when it stopped exactly at one.
   */
  lemma FrozenAtRepeatEnd(attrs: Attrs, t: real, begin: real, dur: real, rd: real)
    requires ClockAttr(attrs, "begin", false) == Ok(begin) && ClockAttr(attrs, "dur", false) == Ok(dur)
    requires !Limits(attrs, "repeatCount") && Limits(attrs, "repeatDur") && ClockAttr(attrs, "repeatDur", false) == Ok(rd)
    requires Freezes(attrs) && dur != 0.0 && t >= begin && t - begin >= rd
    ensures PyMod(rd, dur) != 0.0 ==> TimePosition(attrs, t) == Ok(PyMod((begin + rd) - begin, dur) / dur)
    ensures rd > 0.0 && PyMod(rd, dur) == 0.0 ==> TimePosition(attrs, t) == Ok(1.0)
  {
    RepeatDurRuns(attrs, t, begin, dur, rd, false);
    assert (begin + rd) - begin == rd;
  }

  // ---------------------------------------------------------------------
  // Examples
  // ---------------------------------------------------------------------

  lemma ClockTwoSeconds(asWritten: bool)
    ensures ReadClock("2s", asWritten) == Some(2.0)
  {
    assert ParseFloat("2") == Some(2.0) by {
      assert DigitsValue("2") == 2 by { assert "2"[..0] == ""; }
    }
    SecondsSuffix("2", 2.0);
    assert "2" + "s" == "2s";
  }

  lemma ClockZeroSeconds(asWritten: bool)
    ensures ReadClock("0s", asWritten) == Some(0.0)
  {
    assert ParseFloat("0") == Some(0.0) by {
      assert DigitsValue("0") == 0 by { assert "0"[..0] == ""; }
    }
    SecondsSuffix("0", 0.0);
    assert "0" + "s" == "0s";
  }

  lemma ClockTwentySeconds(asWritten: bool)
    ensures ReadClock("20s", asWritten) == Some(20.0)
  {
    assert ParseFloat("20") == Some(20.0) by {
      assert DigitsValue("20") == 20 by { assert "20"[..1] == "2" && "2"[..0] == ""; }
    }
    SecondsSuffix("20", 20.0);
    assert "20" + "s" == "20s";
  }

  lemma ClockTenSeconds(asWritten: bool)
    ensures ReadClock("10s", asWritten) == Some(10.0)
  {
    assert ParseFloat("10") == Some(10.0) by {
      assert DigitsValue("10") == 10 by { assert "10"[..1] == "1" && "1"[..0] == ""; }
    }
    SecondsSuffix("10", 10.0);
    assert "10" + "s" == "10s";
  }

  lemma ClockFifteenSeconds(asWritten: bool)
    ensures ReadClock("15s", asWritten) == Some(15.0)
  {
    assert ParseFloat("15") == Some(15.0) by {
      assert DigitsValue("15") == 15 by { assert "15"[..1] == "1" && "1"[..0] == ""; }
    }
    SecondsSuffix("15", 15.0);
    assert "15" + "s" == "15s";
  }

  /**
   * The example of the documentation of `get_time_position`: begun at 2s and
   * lasting 10s, the animation is half-way at 7s, and, repeated
   * indefinitely, half-way into its second repetition at 17s.
   */
  lemma DocumentedExample(asWritten: bool)
    ensures TimePositionFrom(map["begin" := "2s", "dur" := "10s"], 7.0, asWritten) == Ok(0.5)
    ensures TimePositionFrom(map["begin" := "2s", "dur" := "10s", "repeatCount" := "indefinite"], 17.0, asWritten) == Ok(0.5)
  {
    var once := map["begin" := "2s", "dur" := "10s"];
    var forever := map["begin" := "2s", "dur" := "10s", "repeatCount" := "indefinite"];
    assert TimePositionFrom(once, 7.0, asWritten) == Ok(0.5) by {
      DocumentedClocks(once, asWritten);
      SinglePlay(once, 7.0, 2.0, 10.0, asWritten);
    }
    assert TimePositionFrom(forever, 17.0, asWritten) == Ok(0.5) by {
      DocumentedClocks(forever, asWritten);
      IndefinitePeriodic(forever, 7.0, 2.0, 10.0, 1, asWritten);
      PyModSmall(5.0, 10.0);
    }
  }

  /** The clock values of the documented example. */
  lemma DocumentedClocks(attrs: Attrs, asWritten: bool)
    requires "begin" in attrs && attrs["begin"] == "2s" && "dur" in attrs && attrs["dur"] == "10s"
    ensures ClockAttr(attrs, "begin", asWritten) == Ok(2.0) && ClockAttr(attrs, "dur", asWritten) == Ok(10.0)
  {
    assert ClockAttr(attrs, "begin", asWritten) == Ok(2.0) by {
      ClockTwoSeconds(asWritten);
      ClockOf(attrs, "begin", 2.0, asWritten);
    }
    assert ClockAttr(attrs, "dur", asWritten) == Ok(10.0) by {
      ClockTenSeconds(asWritten);
      ClockOf(attrs, "dur", 10.0, asWritten);
    }
  }

  /** An attribute holding a clock value reads as that value. */
  lemma ClockOf(attrs: Attrs, key: string, v: real, asWritten: bool)
    requires key in attrs && ReadClock(attrs[key], asWritten) == Some(v)
    ensures ClockAttr(attrs, key, asWritten) == Ok(v)
  {
  }

  /** The clock values of the element of the next two examples. */
  lemma FrozenExampleClocks(attrs: Attrs, asWritten: bool)
    requires attrs == map["begin" := "2s", "dur" := "10s", "repeatDur" := "15s", "fill" := "freeze"]
    ensures ClockAttr(attrs, "begin", asWritten) == Ok(2.0) && ClockAttr(attrs, "dur", asWritten) == Ok(10.0)
    ensures ClockAttr(attrs, "repeatDur", asWritten) == Ok(15.0)
    ensures Freezes(attrs) && !Limits(attrs, "repeatCount") && Limits(attrs, "repeatDur")
  {
    assert ClockAttr(attrs, "begin", asWritten) == Ok(2.0) by {
      ClockTwoSeconds(asWritten);
      ClockOf(attrs, "begin", 2.0, asWritten);
    }
    assert ClockAttr(attrs, "dur", asWritten) == Ok(10.0) by {
      ClockTenSeconds(asWritten);
      ClockOf(attrs, "dur", 10.0, asWritten);
    }
    assert ClockAttr(attrs, "repeatDur", asWritten) == Ok(15.0) by {
      ClockFifteenSeconds(asWritten);
      ClockOf(attrs, "repeatDur", 15.0, asWritten);
    }
  }

  /**
   * Frozen after `repeatDur`, as written: begun at 2s, lasting 10s, repeated
   * for 15s, the animation freezes at 0.3.
   */
  lemma FrozenRepeatDurAsWritten()
    ensures TimePositionAsWritten(map["begin" := "2s", "dur" := "10s", "repeatDur" := "15s", "fill" := "freeze"], 20.0) == Ok(0.3)
  {
    var attrs := map["begin" := "2s", "dur" := "10s", "repeatDur" := "15s", "fill" := "freeze"];
    FrozenExampleClocks(attrs, true);
    RepeatDurRuns(attrs, 20.0, 2.0, 10.0, 15.0, true);
    assert PyMod(15.0 - 2.0, 10.0) == 3.0 by {
      assert 15.0 - 2.0 == 13.0;
      assert Floor(13.0 / 10.0) == 1;
    }
    assert TimePositionAsWritten(attrs, 20.0) == TimePositionFrom(attrs, 20.0, true);
  }

  /**
   * The same element, corrected: it stands half-way through its second
   * repetition when it stops, and stays there.
   */
  lemma FrozenRepeatDurCorrected()
    ensures TimePosition(map["begin" := "2s", "dur" := "10s", "repeatDur" := "15s", "fill" := "freeze"], 20.0) == Ok(0.5)
  {
    var attrs := map["begin" := "2s", "dur" := "10s", "repeatDur" := "15s", "fill" := "freeze"];
    FrozenExampleClocks(attrs, false);
    RepeatDurRuns(attrs, 20.0, 2.0, 10.0, 15.0, false);
    assert PyMod(15.0, 10.0) == 5.0 by {
      assert Floor(15.0 / 10.0) == 1;
    }
    assert StoppedAt(15.0, 10.0) == 0.5;
    assert TimePosition(attrs, 20.0) == TimePositionFrom(attrs, 20.0, false);
  }

  /** An element begun at 0 whose `repeatDur` ends a whole repetition, read after it stops. */
  lemma StopsAtBoundary(attrs: Attrs, t: real, dur: real, rd: real, asWritten: bool)
    requires ClockAttr(attrs, "begin", asWritten) == Ok(0.0) && ClockAttr(attrs, "dur", asWritten) == Ok(dur)
    requires Limits(attrs, "repeatDur") && ClockAttr(attrs, "repeatDur", asWritten) == Ok(rd)
    requires !Limits(attrs, "repeatCount") && Freezes(attrs)
    requires dur != 0.0 && rd > 0.0 && PyMod(rd, dur) == 0.0 && t >= rd
    ensures TimePositionFrom(attrs, t, asWritten) == Ok(if asWritten then 0.0 else 1.0)
  {
    RepeatDurRuns(attrs, t, 0.0, dur, rd, asWritten);
    if asWritten {
      assert rd - 0.0 == rd;
      assert PyMod(rd - 0.0, dur) / dur == 0.0 / dur == 0.0;
    } else {
      assert StoppedAt(rd, dur) == 1.0;
    }
  }

  lemma BoundaryClocks(attrs: Attrs, asWritten: bool)
    requires attrs == map["begin" := "0s", "dur" := "10s", "repeatDur" := "20s", "fill" := "freeze"]
    ensures ClockAttr(attrs, "begin", asWritten) == Ok(0.0) && ClockAttr(attrs, "dur", asWritten) == Ok(10.0)
    ensures ClockAttr(attrs, "repeatDur", asWritten) == Ok(20.0)
    ensures Freezes(attrs) && !Limits(attrs, "repeatCount") && Limits(attrs, "repeatDur")
  {
    assert ClockAttr(attrs, "begin", asWritten) == Ok(0.0) by {
      ClockZeroSeconds(asWritten);
      ClockOf(attrs, "begin", 0.0, asWritten);
    }
    assert ClockAttr(attrs, "dur", asWritten) == Ok(10.0) by {
      ClockTenSeconds(asWritten);
      ClockOf(attrs, "dur", 10.0, asWritten);
    }
    assert ClockAttr(attrs, "repeatDur", asWritten) == Ok(20.0) by {
      ClockTwentySeconds(asWritten);
      ClockOf(attrs, "repeatDur", 20.0, asWritten);
    }
  }

  /**
   * A repetition that ends exactly when `repeatDur` runs out: as written the
   * animation freezes at its start (0.0), corrected at its end (1.0), the
   * value the documentation gives for a frozen animation.
   */
  lemma FrozenAtBoundary(asWritten: bool)
    ensures TimePositionFrom(map["begin" := "0s", "dur" := "10s", "repeatDur" := "20s", "fill" := "freeze"], 25.0, asWritten)
      == Ok(if asWritten then 0.0 else 1.0)
  {
    var attrs := map["begin" := "0s", "dur" := "10s", "repeatDur" := "20s", "fill" := "freeze"];
    BoundaryClocks(attrs, asWritten);
    assert PyMod(20.0, 10.0) == 0.0 by {
      assert Floor(20.0 / 10.0) == 2;
    }
    StopsAtBoundary(attrs, 25.0, 10.0, 20.0, asWritten);
  }
}
