/**
 * The animation schedule of one token (`Token.asSVG`, tei_to_svg.py): before
 * its cue the token slides in from the right and fades from the text colour
 * to the highlight colour, during its cue it stays highlighted, and after
 * its cue it fades back. The schedule is a list of animation records; each
 * record renders to a `set` or `animate` element that the snapshot evaluator
 * of the module Snapshot reads. The `text` element itself, its font and its
 * y coordinate are not part of the schedule.
 */
module Schedule {
  import opened Base
  import opened Numbers
  import opened Clock
  import opened Timing
  import opened Snapshot

  /** The three configuration entries the schedule reads; a missing entry is `None`. */
  datatype Config = Config(width: Option<real>, textColor: Option<string>, highlightColor: Option<string>)

  /** What an animation moves from or to: a coordinate, written with three decimals, or a colour as configured. */
  datatype Value = Coord(v: real) | Colour(name: string)

  /** When an animation begins: the literal "0.0s", or a number of seconds written with three decimals. */
  datatype Start = AtZero | At(seconds: real)

  datatype Anim = Anim(tag: string, attributeName: string, attributeType: string,
                       from: Option<Value>, to: Value, begin: Start, dur: real)

  /** How long before its cue a token starts to slide in and to fade in. */
  const Lead: real := 1.2
  /** How long a token takes to fade back after its cue. */
  const FadeBack: real := 0.2

  function StartOf(a: Anim): real
  {
    match a.begin
    case AtZero => 0.0
    case At(s) => s
  }

  function EndOf(a: Anim): real
  {
    StartOf(a) + a.dur
  }

  /**
   * The eight animations of a token at `x` cued at [`b`, `e`], in the order
   * the source appends them; the missing configuration entry that is read
   * first raises `KeyError`.
   */
  function TokenSchedule(x: real, b: real, e: real, c: Config): (r: Result<seq<Anim>>)
    ensures r.Ok? <==> c.width.Some? && c.textColor.Some? && c.highlightColor.Some?
    ensures c.width.None? ==> r == Err(KeyError("width"))
    ensures c.width.Some? && c.textColor.None? ==> r == Err(KeyError("text-color"))
    ensures c.width.Some? && c.textColor.Some? && c.highlightColor.None? ==> r == Err(KeyError("highlight-color"))
    ensures r.Ok? ==> |r.value| == 8
  {
    if c.width.None? then Err(KeyError("width"))
    else if c.textColor.None? then Err(KeyError("text-color"))
    else if c.highlightColor.None? then Err(KeyError("highlight-color"))
    else
      var preBegin := b - Lead;
      var preDur := b - preBegin;
      var preX := x + c.width.value;
      var text := Colour(c.textColor.value);
      var highlight := Colour(c.highlightColor.value);
      Ok([Anim("set", "x", "XML", None, Coord(preX), AtZero, preBegin),
          Anim("animate", "x", "XML", Some(Coord(preX)), Coord(x), At(preBegin), preDur),
          Anim("animate", "fill", "CSS", Some(text), highlight, At(preBegin), preDur),
          Anim("animate", "stroke", "CSS", Some(text), highlight, At(preBegin), preDur),
          Anim("set", "fill", "CSS", None, highlight, At(b), e - b),
          Anim("set", "stroke", "CSS", None, highlight, At(b), e - b),
          Anim("animate", "fill", "CSS", Some(highlight), text, At(e), FadeBack),
          Anim("animate", "stroke", "CSS", Some(highlight), text, At(e), FadeBack)])
  }

  function ValueText(v: Value, fmt: real -> string): string
  {
    match v
    case Coord(n) => fmt(n)
    case Colour(s) => s
  }

  function StartText(s: Start, fmt: real -> string): string
  {
    match s
    case AtZero => "0.0s"
    case At(n) => fmt(n) + "s"
  }

  /** The element the source builds for an animation record; `fmt` is the three-decimal formatting. */
  function Render(a: Anim, fmt: real -> string): (el: Element)
    ensures el.tag == a.tag && el.children == []
    ensures "from" in el.attrib <==> a.from.Some?
    ensures "fill" !in el.attrib && "repeatCount" !in el.attrib && "repeatDur" !in el.attrib
  {
    var attrs := map["attributeName" := a.attributeName, "attributeType" := a.attributeType,
                     "to" := ValueText(a.to, fmt), "begin" := StartText(a.begin, fmt),
                     "dur" := fmt(a.dur) + "s"];
    Element(a.tag, if a.from.Some? then attrs["from" := ValueText(a.from.value, fmt)] else attrs, [])
  }

  /**
   * The windows of the schedule follow one another without gap or overlap:
   * the token waits off screen until `b - 1.2`, slides and fades in over
   * exactly 1.2 seconds ending at its cue's begin, stays highlighted until
   * the cue's end, and fades back over 0.2 seconds.
   */
  lemma ScheduleWindows(x: real, b: real, e: real, c: Config)
    requires TokenSchedule(x, b, e, c).Ok?
    ensures var r := TokenSchedule(x, b, e, c).value;
      StartOf(r[0]) == 0.0 && EndOf(r[0]) == StartOf(r[1]) &&
      (forall k :: 1 <= k < 4 ==> StartOf(r[k]) == b - Lead && r[k].dur == Lead && EndOf(r[k]) == b) &&
      (forall k :: 4 <= k < 6 ==> StartOf(r[k]) == b && EndOf(r[k]) == e) &&
      (forall k :: 6 <= k < 8 ==> StartOf(r[k]) == e && EndOf(r[k]) == e + FadeBack)
  {
  }

  /**
   * What the animations change: `x` goes from `x` plus the configured width
   * back to `x`; fill and stroke go from the text colour to the highlight
   * colour before the cue, are the highlight colour during it, and go back to
   * the text colour after it.
   */
  lemma ScheduleValues(x: real, b: real, e: real, c: Config)
    requires TokenSchedule(x, b, e, c).Ok?
    ensures var r := TokenSchedule(x, b, e, c).value;
      var w := c.width.value;
      var text := Colour(c.textColor.value);
      var highlight := Colour(c.highlightColor.value);
      r[0].attributeName == r[1].attributeName == "x" &&
      r[0].to == Coord(x + w) && r[1].from == Some(Coord(x + w)) && r[1].to == Coord(x) &&
      (forall k :: 2 <= k < 8 ==>
         r[k].attributeType == "CSS" && r[k].attributeName == (if k % 2 == 0 then "fill" else "stroke")) &&
      (forall k :: 2 <= k < 4 ==> r[k].from == Some(text) && r[k].to == highlight) &&
      (forall k :: 4 <= k < 6 ==> r[k].tag == "set" && r[k].to == highlight) &&
      (forall k :: 6 <= k < 8 ==> r[k].from == Some(highlight) && r[k].to == text)
  {
  }

  /** `fmt` writes `v` as a number that reads back as `v`. */
  predicate ExactAt(fmt: real -> string, v: real)
  {
    ':' !in fmt(v) && ParseFloat(fmt(v)) == Some(v)
  }

  /** The rendered `begin` and `dur` read back as the record's window when `fmt` is exact on them. */
  lemma RenderedClocks(a: Anim, fmt: real -> string, asWritten: bool)
    requires ExactAt(fmt, a.dur) && (a.begin.At? ==> ExactAt(fmt, a.begin.seconds))
    ensures ClockAttr(Render(a, fmt).attrib, "begin", asWritten) == Ok(StartOf(a))
    ensures ClockAttr(Render(a, fmt).attrib, "dur", asWritten) == Ok(a.dur)
  {
    var attrs := Render(a, fmt).attrib;
    SecondsSuffix(fmt(a.dur), a.dur);
    match a.begin
    case AtZero =>
      ParseFloatZero();
      assert "0.0s" == "0.0" + "s";
      SecondsSuffix("0.0", 0.0);
    case At(s) =>
      SecondsSuffix(fmt(s), s);
  }

  /**
   * Read by the snapshot evaluator, every animation of the schedule is an
   * animation element, runs once over its window, and, since none sets
   * `fill="freeze"`, is inactive once its window is over.
   */
  lemma ScheduleTiming(x: real, b: real, e: real, c: Config, fmt: real -> string, k: nat, t: real, asWritten: bool)
    requires TokenSchedule(x, b, e, c).Ok? && k < 8
    requires var a := TokenSchedule(x, b, e, c).value[k];
      ExactAt(fmt, a.dur) && (a.begin.At? ==> ExactAt(fmt, a.begin.seconds)) && a.dur > 0.0
    ensures var a := TokenSchedule(x, b, e, c).value[k];
      KindOf(Render(a, fmt).tag) != Plain && RunsOnce(a, fmt, t, asWritten)
  {
    var a := TokenSchedule(x, b, e, c).value[k];
    assert KindOf(Render(a, fmt).tag) != Plain by {
      ScheduleTags(x, b, e, c, k);
      AnimatedKinds();
    }
    AnimTiming(a, fmt, t, asWritten);
  }

  lemma ScheduleTags(x: real, b: real, e: real, c: Config, k: nat)
    requires TokenSchedule(x, b, e, c).Ok? && k < 8
    ensures TokenSchedule(x, b, e, c).value[k].tag in {"set", "animate"}
  {
  }

  lemma AnimatedKinds()
    ensures KindOf("set") == Set && KindOf("animate") == Animate
  {
  }

  /**
   * The rendered record, read at `t`: the fraction of its window elapsed
   * while it lasts, 0 at the very end of the window (the end test is
   * strict), and inactive after it.
   */
  predicate RunsOnce(a: Anim, fmt: real -> string, t: real, asWritten: bool)
    requires a.dur != 0.0
  {
    var el := Render(a, fmt);
    (StartOf(a) <= t < EndOf(a) ==> TimePositionFrom(el.attrib, t, asWritten) == Ok((t - StartOf(a)) / a.dur)) &&
    (t == EndOf(a) ==> TimePositionFrom(el.attrib, t, asWritten) == Ok(0.0)) &&
    (t > EndOf(a) ==> TimePositionFrom(el.attrib, t, asWritten) == Ok(-1.0))
  }

  /** One rendered record runs once over its window. */
  lemma AnimTiming(a: Anim, fmt: real -> string, t: real, asWritten: bool)
    requires ExactAt(fmt, a.dur) && (a.begin.At? ==> ExactAt(fmt, a.begin.seconds)) && a.dur > 0.0
    ensures RunsOnce(a, fmt, t, asWritten)
  {
    var el := Render(a, fmt);
    RenderedClocks(a, fmt, asWritten);
    SinglePlay(el.attrib, t, StartOf(a), a.dur, asWritten);
  }
}
