/**
 * The `par` loop of `main` in adjust_timing.py (`get_times` holds the same
 * loop, but over an undefined name): every `text` reference of a `par` gets a `Timespan` holding its
 * target id, the `src` of the `par`'s last audio (or "" when it has none),
 * and the earliest `clipBegin` and latest `clipEnd` of the `par`'s audios
 * (infinite when it has none). Unlike `add_timestamps`, nothing is carried
 * from one `par` to the next.
 */
module Timespans {
  import opened Base
  import opened Clock
  import opened Timing
  import opened Smil

  /** A float that may be `-np.inf` or `np.inf`. */
  datatype Ext = NegInf | Fin(v: real) | PosInf

  /** `min(x, a)`: `x` unless `a` is smaller. */
  function ExtMin(x: real, a: Ext): (m: Ext)
    ensures m.Fin? && m.v <= x
    ensures a.Fin? ==> m.v <= a.v && (m.v == x || m == a)
    ensures !a.Fin? ==> m == Fin(x)
  {
    if a.Fin? && a.v < x then a else Fin(x)
  }

  /** `max(x, a)`: `x` unless `a` is larger. */
  function ExtMax(x: real, a: Ext): (m: Ext)
    ensures m.Fin? && m.v >= x
    ensures a.Fin? ==> m.v >= a.v && (m.v == x || m == a)
    ensures !a.Fin? ==> m == Fin(x)
  {
    if a.Fin? && a.v > x then a else Fin(x)
  }

  datatype Timespan = Timespan(targetId: string, clipSrc: string, begin: Ext, end: Ext)

  /** What the audio loop of one `par` leaves behind: `clip_src`, `begin` and `end`. */
  datatype Span = Span(src: string, begin: Ext, end: Ext)

  /** The audio loop of one `par`: each audio is read, then folded into `clip_src`, `begin` and `end`. */
  function Summary(audios: seq<Attrs>): Result<Span>
  {
    var clips :- ReadAll(audios);
    Ok(Fold(clips))
  }

  /** The timespans of one `par`'s texts. */
  function TextSpans(texts: seq<Attrs>, s: Span): Result<seq<Timespan>>
    decreases |texts|
  {
    if texts == [] then Ok([])
    else
      var prev :- TextSpans(texts[..|texts| - 1], s);
      var id :- ReadTarget(Last(texts));
      Ok(prev + [Timespan(id, s.src, s.begin, s.end)])
  }

  /** The result of the loop: the timespans of all `par`s, in document order. */
  function Spans(pars: seq<Par>): Result<seq<Timespan>>
    decreases |pars|
  {
    if pars == [] then Ok([])
    else
      var prev :- Spans(pars[..|pars| - 1]);
      var s :- Summary(Last(pars).audios);
      var spans :- TextSpans(Last(pars).texts, s);
      Ok(prev + spans)
  }

  /** A `par`'s audio loop finishes exactly when every audio reads; without audio the span is (+inf, -inf) with source "". */
  lemma SummaryReads(audios: seq<Attrs>)
    ensures Summary(audios).Ok? <==> forall k :: 0 <= k < |audios| ==> ReadAudio(audios[k]).Ok?
    ensures audios == [] ==> Summary(audios) == Ok(Span("", PosInf, NegInf))
    ensures audios != [] && Summary(audios).Ok? ==>
      Summary(audios).value.src == ReadAudio(Last(audios)).value.src
  {
    TraverseOk(audios, ReadAudio);
    if audios != [] && Summary(audios).Ok? {
      TraverseAt(audios, ReadAudio, |audios| - 1);
    }
  }

  /** The audio loop over clips already read. */
  function Fold(clips: seq<AudioClip>): Span
    decreases |clips|
  {
    if clips == [] then Span("", PosInf, NegInf)
    else
      var s := Fold(clips[..|clips| - 1]);
      Span(Last(clips).src, ExtMin(Last(clips).clipBegin, s.begin), ExtMax(Last(clips).clipEnd, s.end))
  }

  /** The span of a `par` with audio runs from the earliest `clipBegin` to the latest `clipEnd`, both attained. */
  lemma {:induction false} FoldBounds(clips: seq<AudioClip>)
    ensures clips != [] ==>
      var s := Fold(clips);
      s.begin.Fin? && s.end.Fin? &&
      (forall k :: 0 <= k < |clips| ==> s.begin.v <= clips[k].clipBegin && s.end.v >= clips[k].clipEnd) &&
      (exists k :: 0 <= k < |clips| && s.begin.v == clips[k].clipBegin) &&
      (exists k :: 0 <= k < |clips| && s.end.v == clips[k].clipEnd)
    decreases |clips|
  {
    if clips != [] {
      var n := |clips| - 1;
      var init := clips[..n];
      FoldBounds(init);
      var p := Fold(init);
      var c := clips[n];
      var s := Fold(clips);
      assert s == Span(c.src, ExtMin(c.clipBegin, p.begin), ExtMax(c.clipEnd, p.end));
      forall k | 0 <= k < |clips|
        ensures s.begin.v <= clips[k].clipBegin && s.end.v >= clips[k].clipEnd
      {
        if k < n {
          assert clips[k] == init[k];
        }
      }
      if n > 0 {
        var i :| 0 <= i < n && p.begin.v == init[i].clipBegin;
        var j :| 0 <= j < n && p.end.v == init[j].clipEnd;
        assert s.begin.v == clips[n].clipBegin || s.begin.v == clips[i].clipBegin;
        assert s.end.v == clips[n].clipEnd || s.end.v == clips[j].clipEnd;
      }
    }
  }

  /**
   * A `par` with audio spans from the earliest `clipBegin` of its audios to
   * the latest `clipEnd`, each bound attained by one of them.
   */
  lemma SummaryBounds(audios: seq<Attrs>)
    requires audios != [] && Summary(audios).Ok?
    ensures forall k :: 0 <= k < |audios| ==> ReadAudio(audios[k]).Ok?
    ensures var s := Summary(audios).value;
      s.begin.Fin? && s.end.Fin? &&
      (forall k :: 0 <= k < |audios| ==>
         s.begin.v <= ReadAudio(audios[k]).value.clipBegin && s.end.v >= ReadAudio(audios[k]).value.clipEnd) &&
      (exists k :: 0 <= k < |audios| && s.begin.v == ReadAudio(audios[k]).value.clipBegin) &&
      (exists k :: 0 <= k < |audios| && s.end.v == ReadAudio(audios[k]).value.clipEnd)
  {
    var clips := ReadAll(audios).value;
    TraverseOk(audios, ReadAudio);
    forall k | 0 <= k < |audios| ensures |clips| == |audios| && ReadAudio(audios[k]) == Ok(clips[k]) {
      TraverseAt(audios, ReadAudio, k);
    }
    TraverseAt(audios, ReadAudio, 0);
    FoldBounds(clips);
  }

  /**
   * The texts of a `par` give timespans exactly when each has a `src`; then
   * there is one per text, in order, each for the fragment of its reference
   * and carrying the `par`'s span.
   */
  lemma {:induction false} TextSpansAll(texts: seq<Attrs>, s: Span)
    ensures TextSpans(texts, s).Ok? <==> forall k :: 0 <= k < |texts| ==> "src" in texts[k]
    ensures TextSpans(texts, s).Ok? ==>
      var r := TextSpans(texts, s).value;
      |r| == |texts| &&
      forall k :: 0 <= k < |texts| ==> r[k] == Timespan(Fragment(texts[k]["src"]), s.src, s.begin, s.end)
    decreases |texts|
  {
    if texts != [] {
      var init := texts[..|texts| - 1];
      TextSpansAll(init, s);
      assert forall k :: 0 <= k < |init| ==> init[k] == texts[k];
    }
  }

  /** A `par` contributes exactly as if it were alone: nothing carries over from the `par`s before it. */
  lemma {:induction false} SpansAppend(pars: seq<Par>, p: Par)
    requires Spans(pars).Ok? && Spans([p]).Ok?
    ensures Spans(pars + [p]) == Ok(Spans(pars).value + Spans([p]).value)
  {
    assert (pars + [p])[..|pars|] == pars && Last(pars + [p]) == p;
    assert [p][..0] == [] && Last([p]) == p;
    var s := Summary(p.audios);
    assert s.Ok?;
    var spans := TextSpans(p.texts, s.value);
    assert spans.Ok?;
    assert [] + spans.value == spans.value;
    assert Spans([p]) == Ok(spans.value);
  }

  /** The `par` loop of `main`. */
  method GetTimes(pars: seq<Par>) returns (r: Result<seq<Timespan>>)
    ensures r == Spans(pars)
  {
    var results: seq<Timespan> := [];
    var i := 0;
    while i < |pars|
      invariant 0 <= i <= |pars|
      invariant Spans(pars[..i]) == Ok(results)
    {
      assert pars[..i + 1][..i] == pars[..i];
      var s := ParSpan(pars[i].audios);
      if s.Err? {
        SpansStop(pars, i + 1);
        return Err(s.error);
      }
      var spans := ParTimespans(pars[i].texts, s.value);
      if spans.Err? {
        SpansStop(pars, i + 1);
        return Err(spans.error);
      }
      results := results + spans.value;
      i := i + 1;
    }
    assert pars[..i] == pars;
    return Ok(results);
  }

  /** The audio loop of one `par`. */
  method ParSpan(audios: seq<Attrs>) returns (r: Result<Span>)
    ensures r == Summary(audios)
  {
    var begin := PosInf;
    var end := NegInf;
    var src := "";
    ghost var clips: seq<AudioClip> := [];
    var i := 0;
    while i < |audios|
      invariant 0 <= i <= |audios| && ReadAll(audios[..i]) == Ok(clips)
      invariant Fold(clips) == Span(src, begin, end)
    {
      var a := ReadAudio(audios[i]);
      TraverseStep(audios, ReadAudio, i);
      if a.Err? {
        TraverseStop(audios, ReadAudio, i + 1);
        return Err(a.error);
      }
      src := a.value.src;
      begin := ExtMin(a.value.clipBegin, begin);
      end := ExtMax(a.value.clipEnd, end);
      assert (clips + [a.value])[..|clips|] == clips;
      clips := clips + [a.value];
      i := i + 1;
    }
    assert audios[..i] == audios;
    return Ok(Span(src, begin, end));
  }

  /** The text loop of one `par`. */
  method ParTimespans(texts: seq<Attrs>, s: Span) returns (r: Result<seq<Timespan>>)
    ensures r == TextSpans(texts, s)
  {
    var results: seq<Timespan> := [];
    var i := 0;
    while i < |texts|
      invariant 0 <= i <= |texts|
      invariant TextSpans(texts[..i], s) == Ok(results)
    {
      assert texts[..i + 1][..i] == texts[..i];
      var id := ReadTarget(texts[i]);
      if id.Err? {
        TextSpansStop(texts, s, i + 1);
        return Err(id.error);
      }
      results := results + [Timespan(id.value, s.src, s.begin, s.end)];
      i := i + 1;
    }
    assert texts[..i] == texts;
    return Ok(results);
  }

  /** Once a text of a `par` fails, the later texts are never read: the loop ends with that error. */
  lemma {:induction false} TextSpansStop(texts: seq<Attrs>, s: Span, i: nat)
    requires i <= |texts| && TextSpans(texts[..i], s).Err?
    ensures TextSpans(texts, s) == TextSpans(texts[..i], s)
    decreases |texts| - i
  {
    if i < |texts| {
      assert texts[..i + 1][..i] == texts[..i];
      TextSpansStop(texts, s, i + 1);
    } else {
      assert texts[..i] == texts;
    }
  }

  /** Once a `par` raises, the later `par`s are never read: the result is that error. */
  lemma {:induction false} SpansStop(pars: seq<Par>, i: nat)
    requires i <= |pars| && Spans(pars[..i]).Err?
    ensures Spans(pars) == Spans(pars[..i])
    decreases |pars| - i
  {
    if i < |pars| {
      assert pars[..i + 1][..i] == pars[..i];
      SpansStop(pars, i + 1);
    } else {
      assert pars[..i] == pars;
    }
  }
}
