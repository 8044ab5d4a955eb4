# ReadAlong-Video core, modelled in Dafny

ReadAlong-Video turns a ReadAlong (a TEI text aligned to an audio file by a
SMIL file) into an animated SVG slideshow, and renders that slideshow to
video frame by frame. This project models the logic at the heart of that
pipeline and proves what it promises:

- **SMIL clock values** (`parse_time`, svg_snapshot.py and util.py):
  `[[H:]M:]S`, and the `s`, `ms`, `min` and `h` suffixes (module `Clock`,
  over the decimal parser of module `Numbers`).
- **The snapshot evaluator** (svg_snapshot.py): how far into its
  repetitions an animation element is at time `t` (`Timing`), the
  interpolation of attribute values between `from` and `to`
  (`Interpolate`), and `get_svg_frame`/`get_snapshot`, which freeze an
  animated SVG tree at time `t` (`Snapshot`).
- **The slideshow model** (tei_to_svg.py): the component tree as a class
  whose methods update its fields in place (`Components.Component`:
  `setPos`, `addTimestamp`, `Line.getWidth`, `Line.layout`), its value
  (`Layout.Node`) and the value-level layout of sentences and slides
  (`Layout`); cue stamping (`Stamping`); the animation schedule of one
  token (`Schedule`); and `add_timestamps`, which reads the SMIL `par`
  elements and stamps their cues on the slideshow (`Smil`, `Cues`).
- **The timing tools** (adjust_timing.py): the per-`par` time spans
  (`Timespans`), the frame bounds of `get_clip`, and
  `get_high_amp_range`, the cumulative amplitude scan (`Amplitude`).

Python exceptions are the `Err` side of `Base.Result` (`KeyError`,
`ValueError`, `ZeroDivisionError`, `AssertionError`, `IndexError`,
`NameError`, and the generic `Exception` raised by the interpolator, called
`IncompatibleValues` here). Floats are reals. The font metrics
(`stringWidth`) are a parameter `measure`, and the three-decimal formatting
`"{:.3f}"` is a parameter `fmt`.

Where the code behaves differently from its documentation, the model
follows the code:

- The `ms` branch of `parse_time` is unreachable as written.
- The frozen value after a finite `repeatDur` treats `repeatDur` as a time
  on the clock.
- `add_timestamps` stamps every text with the clip of the last `audio` read
  so far. That clip is carried over into `par`s that have no audio, and the
  ancestors of a stamped component are extended to the cue's begin only.
- `Sentence.getHeight` adds `line-height - 1` units per gap between lines,
  while `Sentence.layout` stacks the lines with no gap and
  `getSpacingHeight` adds `(line-height - 1) * 64`.

The two discrepancies for which the intended behaviour is evident are under
"Findings". Both readings are modelled side by side:

- `Clock.ParseTime` is `parse_time` as written, `Clock.ParseClock` the
  corrected parser, and `Clock.ReadClock(ts, asWritten)` picks one. They
  agree on every input except a colon-free value ending in "ms".
- The time position (`Timing.TimePositionFrom`) and the snapshot evaluator
  (`Snapshot`) take the flag `asWritten`. With `asWritten` true they read
  clock values with `ParseTime` and freeze after `repeatDur` at
  `((repeat_dur - begin) % dur) / dur`, as the code does
  (`Timing.TimePositionAsWritten`). With it false they use `ParseClock` and
  freeze where the animation stopped, which is 1.0 when `repeatDur` ends a
  whole repetition (`Timing.TimePosition`). Lemmas about the evaluator hold
  for both values of the flag.
- `add_timestamps` and the `par` loop of adjust_timing.py (`Smil`, `Cues`,
  `Timespans`) call util.py's `parse_time`, and the model reads their clock
  values with `ParseTime`, as written only.

`adjust_timing.py` line 97 reads `assert(len(percentages) = 0)`, which is a
syntax error. The model reads it as `==`. The error case of
`Amplitude.HighAmpRange` also carries the shorter partial result that the
scan reached.

## Model

| member | source | states |
|---|---|---|
| Numbers.Floor | adjust_timing.py:30-31 | `math.floor`: the greatest integer not above `x` |
| Numbers.ParseFloatAlphabet | svg_snapshot.py:69 | a string accepted as a number holds only digits and '.', with an optional sign in front |
| Numbers.ParseFloatRejectsLetterSuffix | svg_snapshot.py:60-69 | a string ending in a letter (such as an unstripped unit) is not a number |
| Numbers.ParseFloatRejects | svg_snapshot.py:69 | ".", "" and "1.2.3" are rejected |
| Numbers.ParseFloatFraction | svg_snapshot.py:54 | "34.56" reads as 34.56 |
| Numbers.PyModFraction | svg_snapshot.py:156 | Python's `%` by `dur`, divided by `dur`, lies in [0, 1) whatever the signs |
| Numbers.PyModPeriodic | svg_snapshot.py:156 | Python's `%` is unchanged by adding whole multiples of the divisor |
| Clock.MillisecondsRejected | svg_snapshot.py:60-63 | as written, every colon-free value ending in "ms" fails to parse, because the `s` branch strips only one character |
| Clock.MillisecondsExample | svg_snapshot.py:60-63 | "500ms" fails as written and reads as 0.5 s in the corrected parser |
| Clock.ParseClockAgrees | svg_snapshot.py:50-69 | the corrected parser differs from the one as written only on colon-free values ending in "ms", so either reading of such a value is the same |
| Clock.SecondsSuffix | svg_snapshot.py:60-61 | a number followed by "s" is that many seconds, in both readings |
| Clock.MillisecondsSuffix | svg_snapshot.py:62-63 | a number followed by "ms" is a thousandth of that many seconds |
| Clock.MinutesSuffix | svg_snapshot.py:64-65 | a number followed by "min" is sixty times that many seconds, in both readings |
| Clock.HoursSuffix | svg_snapshot.py:66-67 | a number followed by "h" is 3600 times that many seconds, in both readings |
| Clock.BareSeconds | svg_snapshot.py:69 | a bare number is that many seconds, in both readings |
| Clock.MinutesSeconds | svg_snapshot.py:52-59 | "M:S" is M·60 + S, in both readings |
| Clock.HoursMinutesSeconds | svg_snapshot.py:52-59 | "H:M:S" is H·3600 + M·60 + S, in both readings |
| Clock.LeadingFieldsIgnored | svg_snapshot.py:52-59 | only the last three colon fields count: anything before them is ignored, in both readings |
| Clock.DocumentedColonExample | util.py:24-34 | "12:34.56" is 754.56 seconds |
| Clock.DocumentedSecondsExample | util.py:25-36 | "2s" is 2 seconds |
| Timing.Attr | svg_snapshot.py:130-131 | `elem.attrib[key]`: the value, or `KeyError` naming the missing key |
| Timing.AttrOr | svg_snapshot.py:137 | `elem.attrib.get(key, default)` |
| Timing.ClockAttr | svg_snapshot.py:130-131 | a clock attribute, read as written or corrected: `KeyError` when missing, `ValueError` when it does not parse, else its value in seconds |
| Timing.ClockAttrAgrees | svg_snapshot.py:130-131 | a clock attribute that cannot end in "ms" reads the same both ways |
| Timing.FloatAttr | svg_snapshot.py:145 | `float(elem.attrib[key])`: the number, or `ValueError` |
| Timing.TimePositionRange | svg_snapshot.py:111-157 | in both readings, the position is -1 (inactive), a fraction in [0, 1), or 1; the only failures are a missing or unparsable attribute and a zero `dur` |
| Timing.MissingClock | svg_snapshot.py:130-131 | `begin` is read before `dur`, and a missing one raises `KeyError` naming it |
| Timing.MillisecondsAsWritten | svg_snapshot.py:130-131 | as written, an element whose `begin`, or whose `dur` once `begin` reads, ends in "ms" raises `ValueError` |
| Timing.BeforeBegin | svg_snapshot.py:132-136 | before `begin` the element is inactive; a zero `dur` at or after `begin` divides by zero |
| Timing.ReadingsAgree | svg_snapshot.py:111-157 | without millisecond clock values, the code as written and the corrected reading differ only for a frozen element whose `repeatDur` has run out |
| Timing.SinglePlay | svg_snapshot.py:139-157 | with no repeat attributes, the position runs from 0 to 1 over [begin, begin + dur), is 0 again at exactly begin + dur (the end test is strict), and afterwards is 1 under `fill="freeze"` and -1 otherwise |
| Timing.RepeatCountRuns | svg_snapshot.py:131-147 | with `repeatCount` c (any number, fractional too) and no `repeatDur`, the element cycles while fewer than ⌊c⌋·dur seconds have passed, then freezes at 1 or goes inactive: a fractional last repetition is never played |
| Timing.RepeatDurRuns | svg_snapshot.py:149-157 | with `repeatDur` rd and no `repeatCount`, the element cycles for rd seconds; afterwards it is -1 unless frozen, frozen at `((rd - begin) % dur) / dur` as written, and at the point where it stopped once corrected |
| Timing.IndefinitePeriodic | svg_snapshot.py:118-157 | with `repeatCount="indefinite"`, the position is periodic in `dur` |
| Timing.FrozenAtRepeatEnd | svg_snapshot.py:149-154 | corrected: after `repeatDur` under freeze, the position is the one reached `repeatDur` seconds after `begin`, and 1.0 when that is the end of a repetition |
| Timing.FrozenAtBoundary | svg_snapshot.py:123-127 | begin=0s, dur=10s, repeatDur=20s with freeze, at t=25: 0.0 as written, 1.0 (the documented frozen value) once corrected |
| Timing.DocumentedExample | svg_snapshot.py:112-120 | in both readings, begin=2s, dur=10s: 0.5 at t=7, and 0.5 again at t=17 when repeating indefinitely |
| Timing.FrozenRepeatDurAsWritten | svg_snapshot.py:152-153 | as written, begin=2s, dur=10s, repeatDur=15s with freeze gives 0.3 at t=20 |
| Timing.FrozenRepeatDurCorrected | svg_snapshot.py:152-153 | the same element frozen where it stopped, at 0.5 |
| Interpolate.LerpBetween | svg_snapshot.py:82 | `v1 + pos·(v2 - v1)` is `v1` at 0 and `v2` at 1, and lies between them for pos in [0, 1] |
| Interpolate.TokensShape | svg_snapshot.py:75-93 | `NUMBER_SPLITTER.split` loses nothing (the pieces concatenate back to the string), text pieces sit at even places and are not numbers, and numbers sit at odd places |
| Interpolate.InterpolateValueToken | svg_snapshot.py:77-87 | a token pair fails only with the interpolation exception |
| Interpolate.InterpolateTokensOk | svg_snapshot.py:97-98 | the tokens interpolate exactly when each pair is two numbers or two equal strings |
| Interpolate.InterpolateValuesOk | svg_snapshot.py:90-99 | two values interpolate exactly when they split into the same number of pieces with equal text between the numbers |
| Interpolate.InterpolateValuesError | svg_snapshot.py:94-95 | every failure is the interpolation exception |
| Interpolate.InterpolateValuesEndpoints | svg_snapshot.py:90-99 | at position 0 the result is `from` with its numbers reformatted, and at 1 it is `to` |
| Interpolate.InterpolateValuesSelf | svg_snapshot.py:90-99 | a value interpolated with itself is itself, reformatted, at any position |
| Interpolate.LerpLists | svg_snapshot.py:103-108 | `zip` stops at the shorter list |
| Interpolate.InterpolateNumLists | svg_snapshot.py:103-108 | the append loop computes the element-wise interpolation |
| Interpolate.LerpListsAt | svg_snapshot.py:105-107 | element k is `n1 + pos·(n2 - n1)` of the k-th pair |
| Interpolate.LerpListsEndpoints | svg_snapshot.py:103-108 | position 0 gives the first list and 1 the second, cut to the shorter length |
| Snapshot.AttrGet | svg_snapshot.py:161 | `elem.attrib.get(key)` is `None` exactly when the attribute is missing |
| Snapshot.Resolve | svg_snapshot.py:159-198 | an animation child never stays in the frame |
| Snapshot.Outcomes | svg_snapshot.py:205-239 | one outcome per child, in order |
| Snapshot.OutcomesFail | svg_snapshot.py:205-239 | a child that raises makes the whole frame raise the same exception |
| Snapshot.VisitChild | svg_snapshot.py:206-239 | one loop turn: the child's outcome, which keeps the child exactly when it is an ordinary element |
| Snapshot.GetSvgFrame | svg_snapshot.py:201-245 | the loop over the children computes the snapshot |
| Snapshot.InactiveSkips | svg_snapshot.py:162-164 | an animation that is not active leaves the attributes alone |
| Snapshot.TransformNeedsType | svg_snapshot.py:184 | an `animateTransform` without `type` fails its assertion at any time |
| Snapshot.ActiveSetAssigns | svg_snapshot.py:216-222 | an active `set` writes its `to` into the attribute it names |
| Snapshot.ActiveAnimateAssigns | svg_snapshot.py:206-214 | an active `animate` writes the interpolated value into the attribute it names |
| Snapshot.ActiveTransformExtends | svg_snapshot.py:224-237 | an active `animateTransform` appends `type(...)` to its attribute, "transform" by default |
| Snapshot.Untouched | svg_snapshot.py:205-239 | an attribute that no child writes keeps its presence and its value |
| Snapshot.LastAssignWins | svg_snapshot.py:214-222 | the last overwrite of an attribute decides its value |
| Snapshot.AppendsAccumulate | svg_snapshot.py:234-237 | appends to an existing attribute accumulate in order, each after a space |
| Snapshot.NoWrites | svg_snapshot.py:212-213 | children that write nothing leave the attributes as they are |
| Snapshot.KeptPlain | svg_snapshot.py:238-239 | the kept children are the frames of the ordinary children, in document order |
| Snapshot.FrameStatic | svg_snapshot.py:201-241 | a frame keeps its tag, has no animation element anywhere below it, and holds the frames of the ordinary children in order |
| Snapshot.FrameNoWrites | svg_snapshot.py:201-241 | when every animation child resolves to nothing, the frame keeps the attributes |
| Snapshot.FrameLastWins | svg_snapshot.py:201-241 | the last child that overwrites an attribute decides it in the frame |
| Snapshot.FrameAppendsKeepValue | svg_snapshot.py:234-237 | without overwrites, an attribute's old value survives as a prefix of its new one |
| Snapshot.SnapshotInactive | svg_snapshot.py:243-245 | at a time when no animation child is active, the snapshot's attributes are the original's, in both readings of the clock |
| Stamping.Stamp | tei_to_svg.py:76-87 | stamping keeps the number of children |
| Stamping.StampFound | tei_to_svg.py:76-87 | `addTimestamp` returns true exactly when some component of the subtree has the id |
| Stamping.StampKidsFound | tei_to_svg.py:83-87 | the children's loop succeeds exactly when some child's subtree has the id |
| Stamping.StampKeepsShape | tei_to_svg.py:76-87 | stamping changes only cue times: ids, texts, positions and shape stay |
| Stamping.SameShapeIds | tei_to_svg.py:76-87 | trees of the same shape hold the same ids, so later cues find the same components |
| Stamping.StampIdempotent | tei_to_svg.py:76-87 | stamping the same cue twice is stamping it once |
| Stamping.StampPath | tei_to_svg.py:76-87 | the cue lands on a component with the id; every ancestor on the path gets exactly the lesser of the cue's begin and its old begin, and the greater of the cue's begin and its old end; every component off the path is unchanged |
| Stamping.FirstMatchOnly | tei_to_svg.py:83-87 | only the first matching child takes the cue; a later match keeps its times |
| Components.Component.constructor | tei_to_svg.py:59-66 | a new component: not stamped, at the origin, with no children |
| Components.Component.AddChild | tei_to_svg.py:253-254 | `addToken`: the component becomes the last child |
| Components.Component.SetPos | tei_to_svg.py:68-74 | the component goes to (x, y), and its subtree moves by the same amount, in place |
| Components.Component.ShiftChildren | tei_to_svg.py:73-74 | the loop of `setPos` moves every child's subtree by (dx, dy) |
| Components.Component.AddTimestamp | tei_to_svg.py:76-87 | the result is whether some component has the id; the subtree is stamped in place, and unchanged when nothing matched |
| Components.Component.StampChildren | tei_to_svg.py:83-87 | the children are asked in order until one takes the cue |
| Components.Component.Width | tei_to_svg.py:259-260 | `Line.getWidth`: the sum of the widths of the children's texts |
| Components.Component.LayoutLine | tei_to_svg.py:268-273 | `Line.layout` places its tokens in place as the value-level line placement does |
| Components.Component.PlaceChildren | tei_to_svg.py:270-273 | token k goes to the line's y, at the margin plus the widths of the tokens before it |
| Layout.Fresh | tei_to_svg.py:59-66 | a fresh component has begin after end, sits at the origin and has no children |
| Layout.ShiftEveryDescendant | tei_to_svg.py:68-74 | a move shifts every descendant by the same amount and keeps the tree's shape |
| Layout.MoveToKeepsOffsets | tei_to_svg.py:68-74 | after `setPos(x, y)` the node is at (x, y) and every descendant keeps its offset from it |
| Layout.ShiftCompose | tei_to_svg.py:68-74 | two moves make one |
| Layout.ShiftNothing | tei_to_svg.py:68-74 | moving a node to where it is changes nothing |
| Layout.TokensAbut | tei_to_svg.py:271-273 | each token starts where the previous one ends |
| Layout.TokensCentred | tei_to_svg.py:269-273 | the space before the first token equals the space after the last |
| Layout.LinePlacement | tei_to_svg.py:268-273 | the placed line's tokens are on its y, abut, and are centred in the width |
| Layout.BreakPartition | tei_to_svg.py:302-318 | every token lands in exactly one line, in order |
| Layout.BreakNonEmpty | tei_to_svg.py:305-317 | no line is empty |
| Layout.BreakFits | tei_to_svg.py:305 | every content token after a line's first fits on that line |
| Layout.BreakOnlyOnOverflow | tei_to_svg.py:305-311 | a new line starts only at a content token that overflows the line before |
| Layout.LayOutSentence | tei_to_svg.py:295-318 | the token loop of `Sentence.layout` computes the broken, placed lines |
| Layout.SentenceLines | tei_to_svg.py:295-318 | only the sentence's children change; line j starts at the sentence's x, 64·j below its y, and holds the tokens of the j-th break in order, each at the line's y, at the centring margin plus the widths of the tokens before it |
| Layout.SentenceExtent | tei_to_svg.py:295-327 | a sentence has lines exactly when it has tokens; its height is the distance from its top to the bottom of its last line plus `line-height - 1` per gap between lines |
| Layout.StackOne | tei_to_svg.py:350-353 | a sentence is placed below the ones before it and laid out |
| Layout.StackSentences | tei_to_svg.py:346-353 | the first loop of `Slide.layout` stacks the sentences at the left margin |
| Layout.Lower | tei_to_svg.py:357-360 | the second loop moves every sentence down by the adjustment |
| Layout.LayOutSlide | tei_to_svg.py:345-362 | `Slide.layout` computes the stacked and centred sentences |
| Layout.SlidePositions | tei_to_svg.py:345-362 | sentence k sits at the left margin, at the adjustment plus the heights and spacings of the sentences above it |
| Layout.HeightOfStack | tei_to_svg.py:364-367 | `Slide.getHeight` is where the last sentence starts plus its height |
| Layout.SlideCentred | tei_to_svg.py:355-360 | sentences that fit are centred vertically: the space above equals the space below |
| Layout.LayOutShow | tei_to_svg.py:399-401 | `Slideshow.layout` lays out every slide on its own |
| Layout.WordOf | tei_to_svg.py:290-293 | one word gives a content token with its id, then a token for its tail |
| Layout.NewSentence | tei_to_svg.py:280-293 | the loop of `Sentence.__init__` builds the sentence's id and tokens |
| Layout.WordContents | tei_to_svg.py:290-293 | a word's only content token is its first |
| Layout.WordsContents | tei_to_svg.py:289-293 | each word gives exactly one content token, with its text and id, in document order |
| Layout.WordsTailIds | tei_to_svg.py:292-293 | tail tokens carry no id |
| Layout.SentenceContents | tei_to_svg.py:280-293 | the sentence's content tokens are its words in order, and its other tokens have no id |
| Schedule.TokenSchedule | tei_to_svg.py:144-244 | eight animations; the first missing config entry read (`width`, `text-color`, `highlight-color`) raises `KeyError` |
| Schedule.Render | tei_to_svg.py:152-244 | each record becomes an animation element with `from` exactly when the record has one, and with no fill or repeat |
| Schedule.ScheduleWindows | tei_to_svg.py:144-244 | the windows follow without gap: off screen until b - 1.2, sliding and fading in for 1.2 s, highlighted until e, fading back for 0.2 s |
| Schedule.ScheduleValues | tei_to_svg.py:150-244 | x goes from x + width back to x; fill and stroke go text to highlight, stay highlighted, then go back to text |
| Schedule.RenderedClocks | tei_to_svg.py:156-166 | the rendered `begin` and `dur` read back as the record's window |
| Schedule.ScheduleTiming | tei_to_svg.py:144-244 | read by the snapshot evaluator in either reading, each animation is a `set` or `animate`, runs once over its window, is 0 at the window's end and inactive after it |
| Schedule.AnimTiming | svg_snapshot.py:139-142 | in either reading, a rendered record's position runs from 0 to 1 over its window, is 0 at its end and -1 after it |
| Smil.ReadAudioOrder | tei_to_svg.py:463-465 | `src`, `clipBegin` and `clipEnd` are read in that order, the clock values with util.py's `parse_time` as written; the first missing or malformed one raises, so a millisecond clip bound raises `ValueError` |
| Smil.Fragment | tei_to_svg.py:470 | `src.split("#")[-1]` contains no '#', and is the whole reference when it has none |
| Smil.ReadTarget | tei_to_svg.py:469-470 | a text's target is its reference's fragment; a missing `src` raises `KeyError` |
| Smil.FragmentAfterHash | tei_to_svg.py:470 | "doc#id" refers to "id" |
| Cues.LastAudioWins | tei_to_svg.py:462-471 | a `par` stamps with its last audio's clip, or with the clip carried over when it has no audio |
| Cues.TextCuesComplete | tei_to_svg.py:468-471 | a `par`'s texts give one cue each, in order, unless a `src` is missing or no clip was ever read (`NameError`) |
| Cues.TargetsHaveNoHash | tei_to_svg.py:459-471 | no stamped target contains '#' |
| Cues.StampCueIds | tei_to_svg.py:471 | stamping a cue keeps the tree's ids |
| Cues.AppliedIds | tei_to_svg.py:459-471 | after any run of cues the tree holds the same ids |
| Cues.WarningsAreUnmatched | tei_to_svg.py:471-473 | the warnings are exactly the targets no component of the slideshow has, in order |
| Cues.AppliedAppend | tei_to_svg.py:459-473 | cues applied in two runs give the same tree and the same warnings as one run |
| Cues.ReadClips | tei_to_svg.py:462-467 | the audio loop computes the clip left after the `par` |
| Cues.StampTexts | tei_to_svg.py:468-473 | the text loop stamps the `par`'s cues in place and reports the misses |
| Cues.AddTimestamps | tei_to_svg.py:447-473 | `add_timestamps` stamps every cue of the file in place, reports the misses, and stops at the first exception |
| Cues.TextCuesStop | tei_to_svg.py:468-471 | once a text of a `par` raises, the later texts are never read |
| Cues.ParCuesStop | tei_to_svg.py:459-471 | once a `par` raises, the later `par`s are never read |
| Timespans.ExtMin | adjust_timing.py:116 | `min(clip_begin, begin)` against a possibly infinite `begin` |
| Timespans.ExtMax | adjust_timing.py:117 | `max(clip_end, end)` against a possibly infinite `end` |
| Timespans.SummaryReads | adjust_timing.py:109-117 | a `par`'s audio loop finishes exactly when every audio reads with `parse_time` as written; without audio it gives (+inf, -inf) and ""; otherwise the last audio's `src` |
| Timespans.FoldBounds | adjust_timing.py:112-117 | the span runs from the least `clipBegin` to the greatest `clipEnd`, both attained |
| Timespans.SummaryBounds | adjust_timing.py:109-117 | the same bounds, stated over the `par`'s audio elements |
| Timespans.TextSpansAll | adjust_timing.py:118-122 | one timespan per text, in order, each with its fragment and the `par`'s span, unless a `src` is missing |
| Timespans.SpansAppend | adjust_timing.py:108-122 | nothing carries over between `par`s: each contributes as if alone |
| Timespans.GetTimes | adjust_timing.py:108-122 | the `par` loop of `main` computes the timespans of all `par`s in order |
| Timespans.TextSpansStop | adjust_timing.py:118-122 | once a text of a `par` raises, the later texts are never read |
| Timespans.SpansStop | adjust_timing.py:108-122 | once a `par` raises, the later `par`s are never read |
| Timespans.ParSpan | adjust_timing.py:109-117 | the audio loop computes the `par`'s span |
| Timespans.ParTimespans | adjust_timing.py:118-122 | the text loop computes the `par`'s timespans |
| Amplitude.GetClip | adjust_timing.py:21-37 | the clip exists exactly when 0 < begin frame ≤ end frame < length; it is the samples between the frames; every other case fails an assertion |
| Amplitude.SortSorted | adjust_timing.py:83 | `sorted` is ascending and a permutation |
| Amplitude.SortSame | adjust_timing.py:83 | `sorted` keeps the length and the values |
| Amplitude.CheckPercentages | adjust_timing.py:84-85 | passes exactly when every percentage is at most 1.0 |
| Amplitude.SumGrows | adjust_timing.py:86-90 | with absolute amplitudes, the running sum never falls |
| Amplitude.HitsStay | adjust_timing.py:86-92 | with absolute amplitudes and a positive total, a threshold reached at one sample stays reached at every later one, and a threshold of at most 1.0 is reached by the last sample at the latest |
| Amplitude.ScannedUnique | adjust_timing.py:89-96 | the scan's result is determined: two results meeting its description are equal |
| Amplitude.Scan | adjust_timing.py:88-98 | the loop matches each sorted threshold at the first later sample where the running sum reaches it |
| Amplitude.ScanFound | adjust_timing.py:92-94 | matching a threshold at sample i extends the result by i |
| Amplitude.ScanPassed | adjust_timing.py:90-92 | a sample that reaches no threshold adds nothing |
| Amplitude.ScanDone | adjust_timing.py:95-96 | once every threshold is matched, later samples change nothing |
| Amplitude.HighAmpRange | adjust_timing.py:82-98 | fails on a percentage above 1.0; otherwise returns one strictly increasing index per sorted percentage, each the first sample after the previous where the cumulative amplitude reaches it, or fails the closing assertion when the clip ends first |

## Left out

- XML parsing and serialisation (lxml, `xpath_default`), file and JSON loading, logging, and the `print` calls are not modelled. Elements are attribute maps and trees of values, and the warnings of `add_timestamps` are returned instead of logged.
- Numbers.ParseFloat accepts only the plain decimal forms `[+-]digits[.digits]` with ASCII digits. The wider syntax of Python's `float()` is not modelled: exponents, surrounding whitespace, `inf`, `nan`, underscores and non-ASCII Unicode digits.
- `"{:.3f}"` formatting is the parameter `fmt`, and the font metrics (`stringWidth`, `getAscent`) are the parameter `measure`. Rounding is not modelled.
- Floating point is not modelled: arithmetic is over reals. The exceptions are IEEE behaviours the code relies on: `np.inf` in `Timespans.Ext`, and in `Amplitude.Reaches` the sign of `acc / total` when the total is zero.
- Layout.LayOutSentence, Layout.LayOutSlide and Layout.LayOutShow work on values (`Layout.Node`), not on the `Component` objects. Aliasing between sentences, and the reuse of token objects across re-layouts, are not captured. `Components.Component` does capture the in-place updates of `setPos`, `addTimestamp`, `Line.addToken` and `Line.layout`.
- `Sentence.width`, which `Sentence.layout` stores and nothing reads, is not modelled.
- `Token.__init__`'s Unicode NFC normalisation of the text is not modelled.
- `asSVG` (the `g`/`text`/`svg` elements, fonts, the y coordinate, the background) is not modelled. Only the animation schedule of `Token.asSVG` is modelled.
- The `begin`/`end` minimum and maximum that `add_timestamps` computes are never read by it, and are not modelled.
- Loading audio with librosa, `np.abs`, and the stereo `np.max` in `get_clip` are not modelled. The waveform is given as absolute amplitudes.
- Python's `sorted` is modelled by an insertion sort, Amplitude.Sort. Only its result, ascending and a permutation, matters.
- Schedule.ScheduleTiming holds only when `fmt` writes the schedule's times so that they read back exactly, a stronger requirement than three decimals guarantee. It also needs a positive duration for every animation: a cue with `end <= begin` gives a highlight window the evaluator cannot run, and a cue that begins at exactly 1.2 s gives the first `set` a `dur` of "0.000s", which the evaluator divides by (`ZeroDivisionError`) from time 0 on.
- Amplitude.HighAmpRange reads the syntax error at adjust_timing.py:97 as `assert(len(percentages) == 0)`.
- `get_times` (adjust_timing.py:62-80) iterates over `smil`, a name it never defines, and so raises `NameError` before its loop runs; Timespans.GetTimes models the identical loop in `main` (adjust_timing.py:108-122) instead.
- The broken entry points are not modelled: `adjust_timing` and `main`'s argument handling use undefined names, and `Slideshow.set_background` is I/O. `Slide.__init__` and `Slideshow.__init__` only select XML elements, and are not modelled beyond the sentences they hold.

## Findings

| source | as written | input that shows it | evidently intended | confidence | as-written member | corrected member |
|---|---|---|---|---|---|---|
| svg_snapshot.py:60-63 | `endswith("s")` is checked before `endswith("ms")`, so a millisecond value loses one character and `float("500m")` raises `ValueError`; the same code is at util.py:35-38 | "500ms" | half a second, 0.5 | high; not executed | Clock.MillisecondsRejected | Clock.MillisecondsSuffix |
| svg_snapshot.py:152-153 | under `fill="freeze"` the position after `repeatDur` is `((repeat_dur - begin) % dur) / dur`, but line 151 treats `repeat_dur` as a duration since `begin`; the docstring (lines 123-127) says a frozen animation is "always 1.0", which neither this line nor the frozen value at line 154 of a partial repetition gives | begin=2s, dur=10s, repeatDur=15s, fill=freeze, t=20 gives 0.3; begin=0s, dur=10s, repeatDur=20s, fill=freeze, t=25 gives 0.0 | the position where the animation stopped, `repeatDur` seconds after `begin`: 0.5 in the first input, and 1.0, the documented value, in the second, where a whole repetition ends | medium; not executed | Timing.FrozenRepeatDurAsWritten | Timing.FrozenAtRepeatEnd |
