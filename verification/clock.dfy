/**
 * SMIL clock values ("12:34.56", "2s", "1.5min", "1h", "250ms", "3.2"),
 * as `parse_time` reads them in util.py and svg_snapshot.py.
 *
 * `ParseTime` is the function as written: because the suffix "s" is checked
 * before "ms", a millisecond value never reaches its own branch and is
 * rejected. `ParseClock` tests "ms" first. `ReadClock` chooses between them;
 * the two agree on every string that does not end in "ms".
 */
module Clock {
  import opened Base
  import opened Numbers

  /** The colon form: seconds, then minutes, then hours, counted from the end. */
  function ColonTime(parts: seq<string>): Option<real>
    requires |parts| >= 2
  {
    var n := |parts|;
    var secs :- ParseFloat(parts[n - 1]);
    var mins :- ParseFloat(parts[n - 2]);
    if n >= 3 then
      var hours :- ParseFloat(parts[n - 3]);
      Some(secs + mins * 60.0 + hours * 3600.0)
    else
      Some(secs + mins * 60.0)
  }

  /** A number followed by a unit suffix of `k` characters, scaled by `factor`. */
  function Scaled(ts: string, k: nat, factor: real): Option<real>
    requires k <= |ts|
  {
    var v :- ParseFloat(ts[..|ts| - k]);
    Some(v * factor)
  }

  /** `parse_time` as written; `None` is the `ValueError` raised by `float()`. */
  function ParseTime(ts: string): Option<real>
  {
    if ':' in ts then ColonTime(SplitOn(ts, ':'))
    else if EndsWith(ts, "s") then Scaled(ts, 1, 1.0)
    else if EndsWith(ts, "ms") then Scaled(ts, 2, 0.001)
    else if EndsWith(ts, "min") then Scaled(ts, 3, 60.0)
    else if EndsWith(ts, "h") then Scaled(ts, 1, 3600.0)
    else ParseFloat(ts)
  }

  /** `parse_time` with the millisecond suffix checked before the seconds suffix. */
  function ParseClock(ts: string): Option<real>
  {
    if ':' in ts then ColonTime(SplitOn(ts, ':'))
    else if EndsWith(ts, "ms") then Scaled(ts, 2, 0.001)
    else if EndsWith(ts, "s") then Scaled(ts, 1, 1.0)
    else if EndsWith(ts, "min") then Scaled(ts, 3, 60.0)
    else if EndsWith(ts, "h") then Scaled(ts, 1, 3600.0)
    else ParseFloat(ts)
  }

  /** `parse_time` as written (`asWritten`) or with the millisecond suffix corrected. */
  function ReadClock(ts: string, asWritten: bool): Option<real>
  {
    if asWritten then ParseTime(ts) else ParseClock(ts)
  }

  /** A clock value the two readings cannot disagree on. */
  predicate Unambiguous(ts: string)
  {
    ':' in ts || !EndsWith(ts, "ms")
  }

  /** As written, every millisecond value without a colon is rejected. */
  lemma MillisecondsRejected(ts: string)
    requires ':' !in ts && EndsWith(ts, "ms")
    ensures ParseTime(ts) == None
  {
    var stem := ts[..|ts| - 1];
    assert stem[|stem| - 1] == 'm' by { assert ts[|ts| - 2..][0] == 'm'; }
    ParseFloatRejectsLetterSuffix(stem);
  }

  /** The input that shows it: "500ms" is rejected as written and read as half a second once corrected. */
  lemma MillisecondsExample()
    ensures ParseTime("500ms") == None
    ensures ParseClock("500ms") == Some(0.5)
  {
    MillisecondsRejected("500ms");
    assert "500ms"[..3] == "500";
    assert DigitsValue("500") == 500 by {
      assert "500"[..2] == "50" && "50"[..1] == "5" && "5"[..0] == "";
    }
  }

  /** Away from the millisecond suffix the corrected reading is the original one. */
  lemma ParseClockAgrees(ts: string)
    requires Unambiguous(ts)
    ensures ParseClock(ts) == ParseTime(ts)
    ensures ReadClock(ts, true) == ReadClock(ts, false)
  {
  }

  /** A number that parses ends in a digit or '.', so no unit suffix can be mistaken for another. */
  lemma NumberEnd(stem: string)
    requires ParseFloat(stem).Some?
    ensures |stem| > 0 && (IsDigit(stem[|stem| - 1]) || stem[|stem| - 1] == '.')
  {
    assert |stem| > 0;
    ParseFloatAlphabet(stem, |stem| - 1);
  }

  /** A parsing number followed by a suffix other than "ms" takes the branch of that suffix. */
  lemma SuffixBranch(stem: string, suffix: string)
    requires ':' !in stem && ParseFloat(stem).Some?
    requires suffix in ["s", "min", "h"]
    ensures ':' !in stem + suffix && !EndsWith(stem + suffix, "ms")
    ensures (stem + suffix)[..|stem|] == stem
  {
    NumberEnd(stem);
    var t := stem + suffix;
    assert t[|t| - 2] != 'm' by {
      if |suffix| == 1 {
        assert t[|t| - 2] == stem[|stem| - 1];
      } else {
        assert t[|t| - 2] == 'i';
      }
    }
    assert t[|t| - 2..][0] == t[|t| - 2];
  }

  lemma SecondsSuffix(stem: string, v: real)
    requires ':' !in stem && ParseFloat(stem) == Some(v)
    ensures ParseClock(stem + "s") == Some(v) && ParseTime(stem + "s") == Some(v)
  {
    SuffixBranch(stem, "s");
  }

  lemma MillisecondsSuffix(stem: string, v: real)
    requires ':' !in stem && ParseFloat(stem) == Some(v)
    ensures ParseClock(stem + "ms") == Some(v * 0.001)
  {
    var t := stem + "ms";
    assert ':' !in t && t[..|t| - 2] == stem;
  }

  lemma MinutesSuffix(stem: string, v: real)
    requires ':' !in stem && ParseFloat(stem) == Some(v)
    ensures ParseClock(stem + "min") == Some(v * 60.0) && ParseTime(stem + "min") == Some(v * 60.0)
  {
    SuffixBranch(stem, "min");
    var t := stem + "min";
    assert !EndsWith(t, "s") by { assert t[|t| - 1] == 'n'; }
  }

  lemma HoursSuffix(stem: string, v: real)
    requires ':' !in stem && ParseFloat(stem) == Some(v)
    ensures ParseClock(stem + "h") == Some(v * 3600.0) && ParseTime(stem + "h") == Some(v * 3600.0)
  {
    SuffixBranch(stem, "h");
    var t := stem + "h";
    assert !EndsWith(t, "s") && !EndsWith(t, "min") by { assert t[|t| - 1] == 'h'; }
  }

  /** A bare number is read as seconds. */
  lemma BareSeconds(stem: string, v: real)
    requires ':' !in stem && ParseFloat(stem) == Some(v)
    ensures ParseClock(stem) == Some(v) && ParseTime(stem) == Some(v)
  {
    NumberEnd(stem);
    var c := stem[|stem| - 1];
    assert !EndsWith(stem, "ms") && !EndsWith(stem, "s") && !EndsWith(stem, "min") && !EndsWith(stem, "h") by {
      assert EndsWith(stem, "s") || EndsWith(stem, "min") || EndsWith(stem, "h") || EndsWith(stem, "ms")
        ==> c == 's' || c == 'n' || c == 'h';
    }
  }

  /** A clock value with a colon is read field by field from the end. */
  lemma ColonBranch(ts: string)
    requires ':' in ts
    ensures ParseClock(ts) == ColonTime(SplitOn(ts, ':'))
  {
  }

  /** Splitting "a:rest", where `a` has no colon, puts `a` in front of the fields of `rest`. */
  lemma SplitFront(a: string, rest: string)
    requires ':' !in a
    ensures ':' in a + ":" + rest
    ensures SplitOn(a + ":" + rest, ':') == [a] + SplitOn(rest, ':')
  {
    var t := a + ":" + rest;
    assert t == a + [':'] + rest && t[|a|] == ':';
    SplitOnCons(a, ':', rest);
  }

  /** Only the last three fields count. */
  lemma ColonTimeSuffix(p: seq<string>, q: seq<string>)
    requires |q| >= 3 && |p| >= 2 && p[1..] == q
    ensures ColonTime(p) == ColonTime(q)
  {
    assert p[|p| - 1] == q[|q| - 1] && p[|p| - 2] == q[|q| - 2] && p[|p| - 3] == q[|q| - 3];
  }

  /** Once the fields are known, a colon value is their weighted sum, as written and corrected alike. */
  lemma ColonFields(t: string, fields: seq<string>, v: Option<real>)
    requires ':' in t && SplitOn(t, ':') == fields && |fields| >= 2 && ColonTime(fields) == v
    ensures ParseClock(t) == v && ParseTime(t) == v
  {
  }

  lemma ColonTimeTwo(m: string, s: string, mv: real, sv: real)
    requires ParseFloat(m) == Some(mv) && ParseFloat(s) == Some(sv)
    ensures ColonTime([m, s]) == Some(mv * 60.0 + sv)
  {
  }

  lemma ColonTimeThree(h: string, m: string, s: string, hv: real, mv: real, sv: real)
    requires ParseFloat(h) == Some(hv) && ParseFloat(m) == Some(mv) && ParseFloat(s) == Some(sv)
    ensures ColonTime([h, m, s]) == Some(hv * 3600.0 + mv * 60.0 + sv)
  {
  }

  /** The fields of "m:s". */
  lemma TwoFields(m: string, s: string)
    requires ':' !in m && ':' !in s
    ensures ':' in m + ":" + s && SplitOn(m + ":" + s, ':') == [m, s]
  {
    SplitFront(m, s);
  }

  /** The fields of "h:m:s". */
  lemma ThreeFields(h: string, m: string, s: string)
    requires ':' !in h && ':' !in m && ':' !in s
    ensures ':' in h + ":" + (m + ":" + s) && SplitOn(h + ":" + (m + ":" + s), ':') == [h, m, s]
  {
    SplitFront(m, s);
    SplitFront(h, m + ":" + s);
  }

  /** "m:s" is minutes and seconds added up. */
  lemma MinutesSeconds(m: string, s: string, mv: real, sv: real)
    requires ':' !in m && ':' !in s
    requires ParseFloat(m) == Some(mv) && ParseFloat(s) == Some(sv)
    ensures ParseClock(m + ":" + s) == Some(mv * 60.0 + sv) && ParseTime(m + ":" + s) == Some(mv * 60.0 + sv)
  {
    TwoFields(m, s);
    ColonTimeTwo(m, s, mv, sv);
    ColonFields(m + ":" + s, [m, s], Some(mv * 60.0 + sv));
  }

  /** "h:m:s" is hours, minutes and seconds added up. */
  lemma HoursMinutesSeconds(h: string, m: string, s: string, hv: real, mv: real, sv: real)
    requires ':' !in h && ':' !in m && ':' !in s
    requires ParseFloat(h) == Some(hv) && ParseFloat(m) == Some(mv) && ParseFloat(s) == Some(sv)
    ensures ParseClock(h + ":" + (m + ":" + s)) == Some(hv * 3600.0 + mv * 60.0 + sv)
    ensures ParseTime(h + ":" + (m + ":" + s)) == Some(hv * 3600.0 + mv * 60.0 + sv)
  {
    ThreeFields(h, m, s);
    ColonTimeThree(h, m, s, hv, mv, sv);
    ColonFields(h + ":" + (m + ":" + s), [h, m, s], Some(hv * 3600.0 + mv * 60.0 + sv));
  }

  /** Fields before the last three are read by nothing. */
  lemma LeadingFieldsIgnored(junk: string, ts: string)
    requires ':' !in junk && |SplitOn(ts, ':')| >= 3
    ensures ParseClock(junk + ":" + ts) == ParseClock(ts) && ParseTime(junk + ":" + ts) == ParseTime(ts)
  {
    SplitFront(junk, ts);
    ColonBranch(junk + ":" + ts);
    ColonBranch(ts);
    ColonTimeSuffix(SplitOn(junk + ":" + ts, ':'), SplitOn(ts, ':'));
  }

  /** The first example the documentation of `parse_time` gives: "12:34.56" is 754.56 seconds. */
  lemma DocumentedColonExample()
    ensures ParseTime("12:34.56") == Some(754.56)
  {
    ParseFloatFraction();
    ParseFloatWhole();
    assert "12" + ":" + "34.56" == "12:34.56";
    TwoFields("12", "34.56");
    ColonTimeTwo("12", "34.56", 12.0, 34.56);
    ColonFields("12:34.56", ["12", "34.56"], Some(754.56));
  }

  /** The second example: "2s" is two seconds. */
  lemma DocumentedSecondsExample()
    ensures ParseTime("2s") == Some(2.0)
  {
    assert ParseFloat("2") == Some(2.0) by {
      assert DigitsValue("2") == 2 by { assert "2"[..0] == ""; }
    }
    SecondsSuffix("2", 2.0);
    assert "2" + "s" == "2s";
  }
}
