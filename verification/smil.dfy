/**
 * The pieces of a SMIL alignment file that `add_timestamps` (tei_to_svg.py)
 * and the `par` loop of adjust_timing.py read: the `par` elements in
 * document order, each with its `audio` and `text` descendants, each of
 * those an attribute dictionary. Parsing the XML is not part of the model.
 */
module Smil {
  import opened Base
  import opened Clock
  import opened Timing

  datatype Par = Par(audios: seq<Attrs>, texts: seq<Attrs>)

  /** What one `audio` element contributes: its `src` and its clip, read in the source's order. */
  datatype AudioClip = AudioClip(src: string, clipBegin: real, clipEnd: real)

  /**
   * One `audio` element read: `src`, then `clipBegin`, then `clipEnd`, the
   * clock values with `parse_time` of util.py as written, which rejects a
   * millisecond value.
   */
  function ReadAudio(a: Attrs): Result<AudioClip>
  {
    var src :- Attr(a, "src");
    var b :- ClockAttr(a, "clipBegin", true);
    var e :- ClockAttr(a, "clipEnd", true);
    Ok(AudioClip(src, b, e))
  }

  /**
   * The attributes are read in the source's order: the first missing one
   * raises `KeyError`, a clock value that does not parse raises
   * `ValueError`; otherwise the clip holds the parsed values.
   */
  lemma ReadAudioOrder(a: Attrs)
    ensures ReadAudio(a).Ok? <==> "src" in a && ClockAttr(a, "clipBegin", true).Ok? && ClockAttr(a, "clipEnd", true).Ok?
    ensures "src" !in a ==> ReadAudio(a) == Err(KeyError("src"))
    ensures "src" in a && ClockAttr(a, "clipBegin", true).Err? ==> ReadAudio(a) == Err(ClockAttr(a, "clipBegin", true).error)
    ensures "src" in a && ClockAttr(a, "clipBegin", true).Ok? && ClockAttr(a, "clipEnd", true).Err? ==>
      ReadAudio(a) == Err(ClockAttr(a, "clipEnd", true).error)
    ensures ReadAudio(a).Ok? ==>
      ReadAudio(a).value.src == a["src"] &&
      ParseTime(a["clipBegin"]) == Some(ReadAudio(a).value.clipBegin) &&
      ParseTime(a["clipEnd"]) == Some(ReadAudio(a).value.clipEnd)
  {
  }

  /** The audios of a `par` read in document order; the first one that fails stops the loop. */
  function ReadAll(audios: seq<Attrs>): Result<seq<AudioClip>>
  {
    Traverse(audios, ReadAudio)
  }

  /** `src.split("#")[-1]`: the fragment of a text reference, or all of it when it has no '#'. */
  function Fragment(src: string): (id: string)
    ensures '#' !in id
    ensures '#' !in src ==> id == src
  {
    Last(SplitOn(src, '#'))
  }

  /** The id a `text` element refers to; a missing `src` raises `KeyError`. */
  function ReadTarget(t: Attrs): (r: Result<string>)
    ensures r.Ok? <==> "src" in t
    ensures r.Ok? ==> r.value == Fragment(t["src"])
    ensures r.Err? ==> r.error == KeyError("src")
  {
    var src :- Attr(t, "src");
    Ok(Fragment(src))
  }

  /** The fragment is what follows the last '#': "page.xml#w3" refers to "w3". */
  lemma {:induction false} FragmentAfterHash(doc: string, id: string)
    requires '#' !in id
    ensures Fragment(doc + "#" + id) == id
    decreases |doc|
  {
    if '#' !in doc {
      SplitOnCons(doc, '#', id);
      LastAppend([doc], SplitOn(id, '#'));
    } else {
      var i := IndexOf(doc, '#');
      var pre, post := doc[..i], doc[i + 1..];
      var rest := post + "#" + id;
      assert doc + "#" + id == pre + ['#'] + rest by {
        assert doc == pre + [doc[i]] + post;
      }
      SplitOnCons(pre, '#', rest);
      FragmentAfterHash(post, id);
      LastAppend([pre], SplitOn(rest, '#'));
    }
  }
}
