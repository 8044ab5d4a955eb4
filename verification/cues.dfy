/**
 * `add_timestamps` (tei_to_svg.py): every `text` reference of every `par`
 * of the SMIL file is stamped on the slideshow with the clip of the last
 * `audio` element read so far, and a reference to an id that no component
 * has is reported.
 *
 * The clip is carried over from one `par` to the next: a `par` without
 * audio stamps its texts with the previous `par`'s clip, and a text read
 * before any audio at all raises `NameError`. The minimum and maximum the
 * source computes over a `par`'s clips are never read, so they are not part
 * of the model. The reports, logged as warnings by the source, are returned.
 */
module Cues {
  import opened Base
  import opened Timing
  import opened Layout
  import opened Stamping
  import opened Smil
  import opened Components

  /** One `addTimestamp` call: the id stamped and the clip stamped on it. */
  datatype Cue = Cue(target: string, begin: real, end: real)

  /** The cues issued so far, in order, and the exception that ended the run early, if one did. */
  datatype Run = Run(cues: seq<Cue>, error: Option<PyError>)

  /** Everything the loop over the `par` elements carries: the run and the clip of the last audio read. */
  datatype Progress = Progress(run: Run, clip: Option<AudioClip>)

  /** The clip after the audios of one `par`: the last one read, or the carried one when there is none. */
  function LastClip(audios: seq<Attrs>, carried: Option<AudioClip>): Result<Option<AudioClip>>
  {
    var clips :- ReadAll(audios);
    Ok(if clips == [] then carried else Some(Last(clips)))
  }

  /** The cues of one `par`'s texts, all stamped with `clip`. */
  function TextCues(texts: seq<Attrs>, clip: Option<AudioClip>): (r: Run)
    decreases |texts|
  {
    if texts == [] then Run([], None)
    else
      var prev := TextCues(texts[..|texts| - 1], clip);
      if prev.error.Some? then prev
      else
        match ReadTarget(Last(texts))
        case Err(err) => Run(prev.cues, Some(err))
        case Ok(id) =>
          if clip.None? then Run(prev.cues, Some(NameError("clip_begin")))
          else Run(prev.cues + [Cue(id, clip.value.clipBegin, clip.value.clipEnd)], None)
  }

  /** The cues of the whole file, `par` by `par`. */
  function ParCues(pars: seq<Par>): Progress
    decreases |pars|
  {
    if pars == [] then Progress(Run([], None), None)
    else
      var prev := ParCues(pars[..|pars| - 1]);
      if prev.run.error.Some? then prev
      else
        match LastClip(Last(pars).audios, prev.clip)
        case Err(err) => Progress(Run(prev.run.cues, Some(err)), prev.clip)
        case Ok(clip) =>
          var texts := TextCues(Last(pars).texts, clip);
          Progress(Run(prev.run.cues + texts.cues, texts.error), clip)
  }

  /** A cue stamped on a tree; a cue whose target no component has leaves it as it is. */
  function StampCue(n: Node, c: Cue): Node
  {
    match Stamp(n, c.target, c.begin, c.end)
    case Some(m) => m
    case None => n
  }

  /** The tree after the cues, stamped one after the other. */
  function Applied(n: Node, cues: seq<Cue>): Node
    decreases |cues|
  {
    if cues == [] then n else StampCue(Applied(n, cues[..|cues| - 1]), Last(cues))
  }

  /** The ids reported, in order: each cue that found no component in the tree as stamped so far. */
  function Warnings(n: Node, cues: seq<Cue>): seq<string>
    decreases |cues|
  {
    if cues == [] then []
    else
      var m := Applied(n, cues[..|cues| - 1]);
      Warnings(n, cues[..|cues| - 1]) + if Stamp(m, Last(cues).target, Last(cues).begin, Last(cues).end).None? then [Last(cues).target] else []
  }

  /** The targets of the cues that no component of `n` has, in order. */
  function Unmatched(n: Node, cues: seq<Cue>): seq<string>
    decreases |cues|
  {
    if cues == [] then []
    else Unmatched(n, cues[..|cues| - 1]) + if HasId(n, Last(cues).target) then [] else [Last(cues).target]
  }

  /* ---------- what the specification promises ---------- */

  /**
   * The clip a `par` stamps with is the last of its audios when it has
   * any, and the clip carried over from the `par`s before it otherwise.
   */
  lemma LastAudioWins(audios: seq<Attrs>, carried: Option<AudioClip>)
    requires LastClip(audios, carried).Ok?
    ensures audios == [] ==> LastClip(audios, carried).value == carried
    ensures audios != [] ==>
      ReadAudio(Last(audios)).Ok? && LastClip(audios, carried).value == Some(ReadAudio(Last(audios)).value)
  {
    if audios != [] {
      TraverseAt(audios, ReadAudio, |audios| - 1);
    }
  }

  /**
   * The texts of a `par` run to the end exactly when each has a `src` and
   * some clip was read before them; each text then gives one cue, in order,
   * for the fragment of its reference, stamped with that clip.
   */
  lemma {:induction false} TextCuesComplete(texts: seq<Attrs>, clip: Option<AudioClip>)
    ensures var r := TextCues(texts, clip);
      r.error.None? <==> (forall k :: 0 <= k < |texts| ==> "src" in texts[k]) && (texts != [] ==> clip.Some?)
    ensures var r := TextCues(texts, clip);
      r.error.None? ==>
        |r.cues| == |texts| &&
        forall k :: 0 <= k < |texts| ==>
          r.cues[k] == Cue(Fragment(texts[k]["src"]), clip.value.clipBegin, clip.value.clipEnd)
    decreases |texts|
  {
    if texts != [] {
      var prefix := texts[..|texts| - 1];
      TextCuesComplete(prefix, clip);
      assert forall k :: 0 <= k < |prefix| ==> prefix[k] == texts[k];
    }
  }

  /** Every target stamped is the part of a reference after its last '#'. */
  lemma {:induction false} TargetsHaveNoHash(pars: seq<Par>)
    ensures forall c :: c in ParCues(pars).run.cues ==> '#' !in c.target
    decreases |pars|
  {
    if pars != [] {
      TargetsHaveNoHash(pars[..|pars| - 1]);
      var prev := ParCues(pars[..|pars| - 1]);
      if prev.run.error.None? && LastClip(Last(pars).audios, prev.clip).Ok? {
        TextTargetsHaveNoHash(Last(pars).texts, LastClip(Last(pars).audios, prev.clip).value);
      }
    }
  }

  lemma {:induction false} TextTargetsHaveNoHash(texts: seq<Attrs>, clip: Option<AudioClip>)
    ensures forall c :: c in TextCues(texts, clip).cues ==> '#' !in c.target
    decreases |texts|
  {
    if texts != [] {
      TextTargetsHaveNoHash(texts[..|texts| - 1], clip);
    }
  }

  /** Stamping a cue keeps the ids of the tree. */
  lemma StampCueIds(n: Node, c: Cue, id: string)
    ensures HasId(StampCue(n, c), id) <==> HasId(n, id)
  {
    if HasId(n, c.target) {
      StampKeepsShape(n, c.target, c.begin, c.end);
      SameShapeIds(n, StampCue(n, c), id);
    } else {
      StampFound(n, c.target, c.begin, c.end);
    }
  }

  lemma {:induction false} AppliedIds(n: Node, cues: seq<Cue>, id: string)
    ensures HasId(Applied(n, cues), id) <==> HasId(n, id)
    decreases |cues|
  {
    if cues != [] {
      AppliedIds(n, cues[..|cues| - 1], id);
      StampCueIds(Applied(n, cues[..|cues| - 1]), Last(cues), id);
    }
  }

  /**
   * The ids reported are exactly the targets that no component of the
   * slideshow has: stamping earlier cues never adds or removes an id.
   */
  lemma {:induction false} WarningsAreUnmatched(n: Node, cues: seq<Cue>)
    ensures Warnings(n, cues) == Unmatched(n, cues)
    decreases |cues|
  {
    if cues != [] {
      var prefix := cues[..|cues| - 1];
      WarningsAreUnmatched(n, prefix);
      AppliedIds(n, prefix, Last(cues).target);
      StampFound(Applied(n, prefix), Last(cues).target, Last(cues).begin, Last(cues).end);
    }
  }

  /* ---------- composition of runs ---------- */

  lemma {:induction false} AppliedAppend(n: Node, a: seq<Cue>, b: seq<Cue>)
    ensures Applied(n, a + b) == Applied(Applied(n, a), b)
    ensures Warnings(n, a + b) == Warnings(n, a) + Warnings(Applied(n, a), b)
    decreases |b|
  {
    if b == [] {
      assert a + b == a;
    } else {
      var b' := b[..|b| - 1];
      assert (a + b)[..|a + b| - 1] == a + b';
      AppliedAppend(n, a, b');
    }
  }

  lemma AppliedSnoc(n: Node, cues: seq<Cue>, c: Cue)
    ensures Applied(n, cues + [c]) == StampCue(Applied(n, cues), c)
    ensures Warnings(n, cues + [c]) ==
      Warnings(n, cues) + if Stamp(Applied(n, cues), c.target, c.begin, c.end).None? then [c.target] else []
  {
    assert (cues + [c])[..|cues|] == cues;
  }

  /** Once a text of a `par` fails, the later texts are never read: the loop ends with that error. */
  lemma {:induction false} TextCuesStop(texts: seq<Attrs>, clip: Option<AudioClip>, i: nat)
    requires i <= |texts| && TextCues(texts[..i], clip).error.Some?
    ensures TextCues(texts, clip) == TextCues(texts[..i], clip)
    decreases |texts| - i
  {
    if i < |texts| {
      assert texts[..i + 1][..i] == texts[..i];
      TextCuesStop(texts, clip, i + 1);
    } else {
      assert texts[..i] == texts;
    }
  }

  /** Once a `par` raises, the later `par`s are never read: the run ends with that error. */
  lemma {:induction false} ParCuesStop(pars: seq<Par>, i: nat)
    requires i <= |pars| && ParCues(pars[..i]).run.error.Some?
    ensures ParCues(pars).run == ParCues(pars[..i]).run
    decreases |pars| - i
  {
    if i < |pars| {
      assert pars[..i + 1][..i] == pars[..i];
      ParCuesStop(pars, i + 1);
    } else {
      assert pars[..i] == pars;
    }
  }

  /* ---------- the loops of the source ---------- */

  /** The loop over a `par`'s audio elements. */
  method ReadClips(audios: seq<Attrs>, carried: Option<AudioClip>) returns (r: Result<Option<AudioClip>>)
    ensures r == LastClip(audios, carried)
  {
    var clip := carried;
    ghost var clips: seq<AudioClip> := [];
    var i := 0;
    while i < |audios|
      invariant 0 <= i <= |audios| && ReadAll(audios[..i]) == Ok(clips)
      invariant clip == if clips == [] then carried else Some(Last(clips))
    {
      var a := ReadAudio(audios[i]);
      TraverseStep(audios, ReadAudio, i);
      if a.Err? {
        TraverseStop(audios, ReadAudio, i + 1);
        return Err(a.error);
      }
      clip := Some(a.value);
      LastAppend(clips, [a.value]);
      clips := clips + [a.value];
      i := i + 1;
    }
    assert audios[..i] == audios;
    return Ok(clip);
  }

  /** The loop over a `par`'s text elements: each reference is stamped on the slideshow in turn. */
  method StampTexts(texts: seq<Attrs>, clip: Option<AudioClip>, show: Component)
    returns (warnings: seq<string>, error: Option<PyError>)
    requires show.Valid()
    modifies show.Repr`beginTime, show.Repr`endTime, show.Repr`model
    ensures show.Valid()
    ensures var r := TextCues(texts, clip);
      error == r.error && show.model == Applied(old(show.model), r.cues) &&
      warnings == Warnings(old(show.model), r.cues)
  {
    ghost var cues: seq<Cue> := [];
    warnings := [];
    var i := 0;
    while i < |texts|
      invariant 0 <= i <= |texts|
      invariant show.Valid()
      invariant TextCues(texts[..i], clip) == Run(cues, None)
      invariant show.model == Applied(old(show.model), cues)
      invariant warnings == Warnings(old(show.model), cues)
    {
      assert texts[..i + 1][..i] == texts[..i];
      var target := ReadTarget(texts[i]);
      if target.Err? {
        TextCuesStop(texts, clip, i + 1);
        return warnings, Some(target.error);
      }
      if clip.None? {
        TextCuesStop(texts, clip, i + 1);
        return warnings, Some(NameError("clip_begin"));
      }
      var c := Cue(target.value, clip.value.clipBegin, clip.value.clipEnd);
      AppliedSnoc(old(show.model), cues, c);
      var found := show.AddTimestamp(c.target, c.begin, c.end);
      if !found {
        warnings := warnings + [c.target];
      }
      cues := cues + [c];
      i := i + 1;
    }
    assert texts[..i] == texts;
    return warnings, None;
  }

  /** `add_timestamps`: the `par` elements in document order. */
  method AddTimestamps(pars: seq<Par>, show: Component) returns (warnings: seq<string>, error: Option<PyError>)
    requires show.Valid()
    modifies show.Repr`beginTime, show.Repr`endTime, show.Repr`model
    ensures show.Valid()
    ensures var r := ParCues(pars).run;
      error == r.error && show.model == Applied(old(show.model), r.cues) &&
      warnings == Warnings(old(show.model), r.cues)
  {
    ghost var cues: seq<Cue> := [];
    var clip: Option<AudioClip> := None;
    warnings := [];
    var i := 0;
    while i < |pars|
      invariant 0 <= i <= |pars|
      invariant show.Valid()
      invariant ParCues(pars[..i]) == Progress(Run(cues, None), clip)
      invariant show.model == Applied(old(show.model), cues)
      invariant warnings == Warnings(old(show.model), cues)
    {
      assert pars[..i + 1][..i] == pars[..i];
      var read := ReadClips(pars[i].audios, clip);
      if read.Err? {
        ParCuesStop(pars, i + 1);
        return warnings, Some(read.error);
      }
      clip := read.value;
      ghost var before := show.model;
      var more, err := StampTexts(pars[i].texts, clip, show);
      ghost var texts := TextCues(pars[i].texts, clip);
      AppliedAppend(old(show.model), cues, texts.cues);
      warnings := warnings + more;
      cues := cues + texts.cues;
      if err.Some? {
        ParCuesStop(pars, i + 1);
        return warnings, err;
      }
      i := i + 1;
    }
    assert pars[..i] == pars;
    return warnings, None;
  }
}
