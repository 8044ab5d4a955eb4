/**
 * The static picture of an animated SVG tree at time `t` (svg_snapshot.py,
 * `get_svg_frame` and `get_snapshot`): every `animate`, `set` and
 * `animateTransform` child is removed and what it resolves to at `t` is
 * written into its parent's attributes; other children are treated the same
 * way, recursively.
 *
 * An element is a value: its tag, its attribute dictionary and its children
 * (text content is not modelled). `Frame` is the specification;
 * `GetSvgFrame` is the loop of the source, proved to compute it. Every
 * operation that reads a time position takes `asWritten`: `true` evaluates
 * it as `get_time_position` is written, `false` with its defects corrected.
 */
module Snapshot {
  import opened Base
  import opened Interpolate
  import opened Timing

  datatype Element = Element(tag: string, attrib: Attrs, children: seq<Element>)

  const NamespacePrefix: string := "{http://www.w3.org/2000/svg}"

  /** The three animation elements, each with and without the SVG namespace; everything else is `Plain`. */
  datatype Kind = Animate | Set | AnimateTransform | Plain

  function KindOf(tag: string): Kind
  {
    if tag in ["animate", NamespacePrefix + "animate"] then Animate
    else if tag in ["set", NamespacePrefix + "set"] then Set
    else if tag in ["animateTransform", NamespacePrefix + "animateTransform"] then AnimateTransform
    else Plain
  }

  /** `elem.attrib.get(key)`, which is `None` for a missing attribute. */
  function AttrGet(attrs: Attrs, key: string): (r: Option<string>)
    ensures r.Some? <==> key in attrs
    ensures r.Some? ==> r.value == attrs[key]
  {
    if key in attrs then Some(attrs[key]) else None
  }

  /** `get_set_at_frame`: the attribute named and the `to` value, or "" when inactive. */
  function SetAt(c: Element, t: real, asWritten: bool): (r: Result<(Option<string>, string)>)
  {
    var name := AttrGet(c.attrib, "attributeName");
    var pos :- TimePositionFrom(c.attrib, t, asWritten);
    if pos < 0.0 then Ok((name, ""))
    else
      var to :- Attr(c.attrib, "to");
      Ok((name, to))
  }

  /** `get_animate_at_frame`: `from` and `to` interpolated at the time position. */
  function AnimateAt(c: Element, t: real, fmt: real -> string, asWritten: bool): (r: Result<(Option<string>, string)>)
  {
    var name := AttrGet(c.attrib, "attributeName");
    var pos :- TimePositionFrom(c.attrib, t, asWritten);
    if pos < 0.0 then Ok((name, ""))
    else
      var from :- Attr(c.attrib, "from");
      var to :- Attr(c.attrib, "to");
      var value :- InterpolateValues(from, to, pos, fmt);
      Ok((name, value))
  }

  /**
   * `get_transform_at_frame`: the attribute defaults to "transform", the
   * element must have a `type` (checked first), and the interpolated
   * arguments are wrapped as `type(...)`.
   */
  function TransformAt(c: Element, t: real, fmt: real -> string, asWritten: bool): (r: Result<(string, string)>)
  {
    var name := AttrOr(c.attrib, "attributeName", "transform");
    if "type" !in c.attrib then Err(AssertionError("type"))
    else
      var kind := c.attrib["type"];
      var pos :- TimePositionFrom(c.attrib, t, asWritten);
      if pos < 0.0 then Ok((name, ""))
      else
        var from :- Attr(c.attrib, "from");
        var to :- Attr(c.attrib, "to");
        var value :- InterpolateValues(from, to, pos, fmt);
        Ok((name, kind + "(" + value + ")"))
  }

  /** What one child of the element being frozen does to it. */
  datatype Outcome =
    | Keep(frame: Element)                 // an ordinary child, itself frozen
    | Assign(name: string, value: string)  // `set` or `animate`: the attribute is overwritten
    | Extend(name: string, value: string)  // `animateTransform`: the attribute is appended to
    | Skip                                 // an animation with no attribute name or no value

  /** `if not attrib_name or not value: continue`. */
  predicate Blank(name: Option<string>, value: string)
  {
    name.None? || name.value == "" || value == ""
  }

  /** The outcome of an animation child. */
  function Resolve(c: Element, t: real, fmt: real -> string, asWritten: bool): (r: Result<Outcome>)
    requires KindOf(c.tag) != Plain
    ensures r.Ok? ==> !r.value.Keep?
  {
    match KindOf(c.tag)
    case Set =>
      var (name, value) :- SetAt(c, t, asWritten);
      Ok(if Blank(name, value) then Skip else Assign(name.value, value))
    case Animate =>
      var (name, value) :- AnimateAt(c, t, fmt, asWritten);
      Ok(if Blank(name, value) then Skip else Assign(name.value, value))
    case AnimateTransform =>
      var (name, value) :- TransformAt(c, t, fmt, asWritten);
      Ok(if Blank(Some(name), value) then Skip else Extend(name, value))
  }

  /**
   * What an animation child of an element resolves to. The traversal below
   * is stated for any such function; `ResolveAt(t, fmt, asWritten)` is the one of the
   * source.
   */
  type Resolver = Element -> Result<Outcome>

  function ResolveAt(t: real, fmt: real -> string, asWritten: bool): (resolve: Resolver)
    ensures NeverKeeps(resolve)
  {
    (c: Element) => if KindOf(c.tag) == Plain then Ok(Skip) else Resolve(c, t, fmt, asWritten)
  }

  /** An animation element is never itself kept in the frame. */
  ghost predicate NeverKeeps(resolve: Resolver)
  {
    forall c :: resolve(c).Ok? ==> !resolve(c).value.Keep?
  }

  /** The outcomes of the children from index `i` on, in order; the first failure stops everything. */
  function Outcomes(e: Element, i: nat, resolve: Resolver): (r: Result<seq<Outcome>>)
    requires i <= |e.children|
    ensures r.Ok? ==> |r.value| == |e.children| - i
    decreases e, |e.children| - i
  {
    if i == |e.children| then Ok([])
    else
      var c := e.children[i];
      var o :-
        if KindOf(c.tag) == Plain then
          var f :- Frame(c, resolve);
          Ok(Keep(f))
        else resolve(c);
      var rest :- Outcomes(e, i + 1, resolve);
      Ok([o] + rest)
  }

  /** An outcome applied to the attributes of the parent. */
  function Apply(attrs: Attrs, o: Outcome): Attrs
  {
    match o
    case Assign(name, value) => attrs[name := value]
    case Extend(name, value) =>
      if name in attrs then attrs[name := attrs[name] + " " + value] else attrs[name := value]
    case _ => attrs
  }

  /** The outcomes applied in order. */
  function ApplyAll(attrs: Attrs, os: seq<Outcome>): Attrs
  {
    if os == [] then attrs else Apply(ApplyAll(attrs, os[..|os| - 1]), os[|os| - 1])
  }

  /** The frozen ordinary children, in order. */
  function Kept(os: seq<Outcome>): seq<Element>
  {
    if os == [] then []
    else Kept(os[..|os| - 1]) + (if os[|os| - 1].Keep? then [os[|os| - 1].frame] else [])
  }

  /** The element frozen: its outcomes applied to its attributes, its ordinary children frozen in turn. */
  function Frame(e: Element, resolve: Resolver): (r: Result<Element>)
    decreases e, |e.children| + 1
  {
    var os :- Outcomes(e, 0, resolve);
    Ok(Element(e.tag, ApplyAll(e.attrib, os), Kept(os)))
  }

  /**
   * `get_snapshot`: the tree at time `t`, with `get_time_position` as
   * written or corrected. The source freezes a deep copy, so the tree it is
   * given is untouched.
   */
  function Snapshot(e: Element, t: real, fmt: real -> string, asWritten: bool): Result<Element>
  {
    Frame(e, ResolveAt(t, fmt, asWritten))
  }

  // ---------------------------------------------------------------------
  // The loop of `get_svg_frame`
  // ---------------------------------------------------------------------

  /** `done` followed by what `rest` holds, or the failure of `rest`. */
  function Prepend(done: seq<Outcome>, rest: Result<seq<Outcome>>): Result<seq<Outcome>>
  {
    match rest
    case Ok(os) => Ok(done + os)
    case Err(err) => Err(err)
  }

  /** `o` is the outcome of child `c`. */
  predicate OutcomeFor(c: Element, resolve: Resolver, o: Outcome)
  {
    if KindOf(c.tag) == Plain then o.Keep? && Frame(c, resolve) == Ok(o.frame)
    else resolve(c) == Ok(o)
  }

  /** `o` in front of what `rest` holds, or the failure of `rest`. */
  function Cons(o: Outcome, rest: Result<seq<Outcome>>): Result<seq<Outcome>>
  {
    match rest
    case Ok(os) => Ok([o] + os)
    case Err(err) => Err(err)
  }

  /** A child with an outcome: the outcomes from `i` are it and those after it. */
  lemma OutcomesCons(e: Element, i: nat, resolve: Resolver, o: Outcome)
    requires i < |e.children| && OutcomeFor(e.children[i], resolve, o)
    ensures Outcomes(e, i, resolve) == Cons(o, Outcomes(e, i + 1, resolve))
  {
  }

  lemma PrependCons(done: seq<Outcome>, o: Outcome, rest: Result<seq<Outcome>>)
    ensures Prepend(done, Cons(o, rest)) == Prepend(done + [o], rest)
  {
    if rest.Ok? {
      assert done + ([o] + rest.value) == (done + [o]) + rest.value;
    }
  }

  /** A child that fails makes everything from `i` fail the same way. */
  lemma OutcomesFail(e: Element, i: nat, resolve: Resolver, err: PyError)
    requires i < |e.children|
    requires var c := e.children[i];
      if KindOf(c.tag) == Plain then Frame(c, resolve) == Err(err) else resolve(c) == Err(err)
    ensures Outcomes(e, i, resolve) == Err(err)
  {
  }

  lemma PrependNothing(rest: Result<seq<Outcome>>)
    ensures Prepend([], rest) == rest
  {
    if rest.Ok? {
      assert [] + rest.value == rest.value;
    }
  }

  lemma OutcomesEnd(e: Element, resolve: Resolver, done: seq<Outcome>)
    ensures Prepend(done, Outcomes(e, |e.children|, resolve)) == Ok(done)
  {
    assert done + [] == done;
  }

  lemma FrameOf(e: Element, resolve: Resolver, done: seq<Outcome>)
    requires Outcomes(e, 0, resolve) == Ok(done)
    ensures Frame(e, resolve) == Ok(Element(e.tag, ApplyAll(e.attrib, done), Kept(done)))
  {
  }

  lemma SnocPrefix(done: seq<Outcome>, o: Outcome)
    ensures (done + [o])[..|done|] == done && (done + [o])[|done|] == o
  {
  }

  /**
   * One turn of the loop of `get_svg_frame`: an ordinary child is frozen
   * recursively, an animation child is resolved at `t`.
   */
  method VisitChild(e: Element, i: nat, t: real, fmt: real -> string, asWritten: bool) returns (res: Result<Outcome>)
    requires i < |e.children|
    ensures res.Ok? ==> Outcomes(e, i, ResolveAt(t, fmt, asWritten)) == Cons(res.value, Outcomes(e, i + 1, ResolveAt(t, fmt, asWritten)))
    ensures res.Err? ==> Outcomes(e, i, ResolveAt(t, fmt, asWritten)) == Err(res.error)
    ensures res.Ok? ==> (res.value.Keep? <==> KindOf(e.children[i].tag) == Plain)
    decreases e, 0
  {
    var c := e.children[i];
    if KindOf(c.tag) == Plain {
      var f := GetSvgFrame(c, t, fmt, asWritten);
      if f.Err? {
        OutcomesFail(e, i, ResolveAt(t, fmt, asWritten), f.error);
        return Err(f.error);
      }
      OutcomesCons(e, i, ResolveAt(t, fmt, asWritten), Keep(f.value));
      return Ok(Keep(f.value));
    } else {
      res := Resolve(c, t, fmt, asWritten);
      assert ResolveAt(t, fmt, asWritten)(c) == res;
      if res.Err? {
        OutcomesFail(e, i, ResolveAt(t, fmt, asWritten), res.error);
        return;
      }
      OutcomesCons(e, i, ResolveAt(t, fmt, asWritten), res.value);
    }
  }

  /**
   * `get_svg_frame`, and `get_snapshot` which calls it on a copy: the
   * children are visited in order; an animation child is dropped and its
   * value written into the attributes, an ordinary child is frozen
   * recursively and kept.
   */
  method GetSvgFrame(e: Element, t: real, fmt: real -> string, asWritten: bool) returns (r: Result<Element>)
    ensures r == Snapshot(e, t, fmt, asWritten)
    decreases e, 1
  {
    var attrib := e.attrib;
    var kept: seq<Element> := [];
    ghost var resolve := ResolveAt(t, fmt, asWritten);
    ghost var done: seq<Outcome> := [];
    PrependNothing(Outcomes(e, 0, resolve));
    var i := 0;
    while i < |e.children|
      invariant 0 <= i <= |e.children|
      invariant Outcomes(e, 0, resolve) == Prepend(done, Outcomes(e, i, resolve))
      invariant attrib == ApplyAll(e.attrib, done) && kept == Kept(done)
    {
      var res := VisitChild(e, i, t, fmt, asWritten);
      if res.Err? {
        return Err(res.error);
      }
      var o := res.value;
      if o.Keep? {
        kept := kept + [o.frame];
      } else {
        attrib := Apply(attrib, o);
      }
      PrependCons(done, o, Outcomes(e, i + 1, resolve));
      SnocPrefix(done, o);
      done := done + [o];
      i := i + 1;
    }
    OutcomesEnd(e, resolve, done);
    FrameOf(e, resolve, done);
    return Ok(Element(e.tag, attrib, kept));
  }

  // ---------------------------------------------------------------------
  // What one animation child resolves to
  // ---------------------------------------------------------------------

  /** An animation that is not active at `t` (and whose `type` is there, for a transform) changes nothing. */
  lemma InactiveSkips(c: Element, t: real, fmt: real -> string, asWritten: bool, p: real)
    requires KindOf(c.tag) != Plain && TimePositionFrom(c.attrib, t, asWritten) == Ok(p) && p < 0.0
    requires KindOf(c.tag) == AnimateTransform ==> "type" in c.attrib
    ensures Resolve(c, t, fmt, asWritten) == Ok(Skip)
  {
  }

  /** An `animateTransform` without `type` fails its assertion whatever the time. */
  lemma TransformNeedsType(c: Element, t: real, fmt: real -> string, asWritten: bool)
    requires KindOf(c.tag) == AnimateTransform && "type" !in c.attrib
    ensures Resolve(c, t, fmt, asWritten) == Err(AssertionError("type"))
  {
  }

  /** An active `set` overwrites the attribute it names with its `to` value. */
  lemma ActiveSetAssigns(c: Element, t: real, fmt: real -> string, asWritten: bool, p: real)
    requires KindOf(c.tag) == Set && TimePositionFrom(c.attrib, t, asWritten) == Ok(p) && p >= 0.0
    requires "attributeName" in c.attrib && c.attrib["attributeName"] != ""
    requires "to" in c.attrib && c.attrib["to"] != ""
    ensures Resolve(c, t, fmt, asWritten) == Ok(Assign(c.attrib["attributeName"], c.attrib["to"]))
  {
  }

  /** An active `animate` overwrites the attribute it names with `from` and `to` interpolated at the position. */
  lemma ActiveAnimateAssigns(c: Element, t: real, fmt: real -> string, asWritten: bool, p: real, v: string)
    requires KindOf(c.tag) == Animate && TimePositionFrom(c.attrib, t, asWritten) == Ok(p) && p >= 0.0
    requires "attributeName" in c.attrib && c.attrib["attributeName"] != ""
    requires "from" in c.attrib && "to" in c.attrib
    requires InterpolateValues(c.attrib["from"], c.attrib["to"], p, fmt) == Ok(v) && v != ""
    ensures Resolve(c, t, fmt, asWritten) == Ok(Assign(c.attrib["attributeName"], v))
  {
  }

  /**
   * An active `animateTransform` appends `type(...)` to the attribute it
   * names, "transform" when it names none.
   */
  lemma ActiveTransformExtends(c: Element, t: real, fmt: real -> string, asWritten: bool, p: real, v: string)
    requires KindOf(c.tag) == AnimateTransform && "type" in c.attrib
    requires TimePositionFrom(c.attrib, t, asWritten) == Ok(p) && p >= 0.0
    requires "from" in c.attrib && "to" in c.attrib
    requires InterpolateValues(c.attrib["from"], c.attrib["to"], p, fmt) == Ok(v)
    requires AttrOr(c.attrib, "attributeName", "transform") != ""
    ensures Resolve(c, t, fmt, asWritten) == Ok(Extend(AttrOr(c.attrib, "attributeName", "transform"), c.attrib["type"] + "(" + v + ")"))
  {
  }

  // ---------------------------------------------------------------------
  // How outcomes combine
  // ---------------------------------------------------------------------

  /** Whether an outcome writes attribute `n`. */
  predicate Writes(o: Outcome, n: string)
  {
    (o.Assign? || o.Extend?) && o.name == n
  }

  /** An attribute no outcome writes keeps its presence and its value. */
  lemma {:induction false} Untouched(m: Attrs, os: seq<Outcome>, n: string)
    requires forall k :: 0 <= k < |os| ==> !Writes(os[k], n)
    ensures (n in ApplyAll(m, os) <==> n in m)
    ensures n in m ==> ApplyAll(m, os)[n] == m[n]
  {
    if os != [] {
      Untouched(m, os[..|os| - 1], n);
    }
  }

  /** The last outcome that writes an attribute by overwriting it decides its value. */
  lemma {:induction false} LastAssignWins(m: Attrs, os: seq<Outcome>, k: nat, n: string, v: string)
    requires k < |os| && os[k] == Assign(n, v)
    requires forall j :: k < j < |os| ==> !Writes(os[j], n)
    ensures n in ApplyAll(m, os) && ApplyAll(m, os)[n] == v
  {
    if k < |os| - 1 {
      LastAssignWins(m, os[..|os| - 1], k, n, v);
    }
  }

  /** The values appended to `n`, each after a space, in order. */
  function Appended(os: seq<Outcome>, n: string): string
  {
    if os == [] then ""
    else
      var o := os[|os| - 1];
      Appended(os[..|os| - 1], n) + (if o.Extend? && o.name == n then " " + o.value else "")
  }

  /** Appends to an attribute that is there accumulate: nothing earlier is lost. */
  lemma {:induction false} AppendsAccumulate(m: Attrs, os: seq<Outcome>, n: string)
    requires n in m
    requires forall k :: 0 <= k < |os| ==> !(os[k].Assign? && os[k].name == n)
    ensures n in ApplyAll(m, os) && ApplyAll(m, os)[n] == m[n] + Appended(os, n)
  {
    if os != [] {
      AppendsAccumulate(m, os[..|os| - 1], n);
    }
  }

  /** Outcomes that write nothing leave the attributes as they are. */
  lemma {:induction false} NoWrites(m: Attrs, os: seq<Outcome>)
    requires forall k :: 0 <= k < |os| ==> os[k].Keep? || os[k].Skip?
    ensures ApplyAll(m, os) == m
  {
    if os != [] {
      NoWrites(m, os[..|os| - 1]);
    }
  }

  // ---------------------------------------------------------------------
  // What the frame promises
  // ---------------------------------------------------------------------

  /** No animation element anywhere below `e`. */
  predicate Static(e: Element)
  {
    forall k :: 0 <= k < |e.children| ==> KindOf(e.children[k].tag) == Plain && Static(e.children[k])
  }

  /** The first outcome is the one of child `i`, the others follow. */
  lemma OutcomesHead(e: Element, i: nat, resolve: Resolver)
    requires i < |e.children| && Outcomes(e, i, resolve).Ok?
    ensures Outcomes(e, i + 1, resolve).Ok?
    ensures Outcomes(e, i, resolve).value == [Outcomes(e, i, resolve).value[0]] + Outcomes(e, i + 1, resolve).value
    ensures OutcomeFor(e.children[i], resolve, Outcomes(e, i, resolve).value[0])
  {
  }

  /** Each outcome is the outcome of the child at its place. */
  lemma {:induction false} OutcomeAt(e: Element, i: nat, k: nat, resolve: Resolver)
    requires i <= k < |e.children| && Outcomes(e, i, resolve).Ok?
    ensures OutcomeFor(e.children[k], resolve, Outcomes(e, i, resolve).value[k - i])
    decreases k - i
  {
    OutcomesHead(e, i, resolve);
    if i < k {
      OutcomeAt(e, i + 1, k, resolve);
    }
  }

  /** The children of an element, without its animation elements. */
  function PlainOnly(cs: seq<Element>): seq<Element>
  {
    if cs == [] then []
    else PlainOnly(cs[..|cs| - 1]) + (if KindOf(cs[|cs| - 1].tag) == Plain then [cs[|cs| - 1]] else [])
  }

  /** The kept frames are the frames of the ordinary children, in order. */
  lemma {:induction false} KeptPlain(os: seq<Outcome>, cs: seq<Element>, resolve: Resolver)
    requires NeverKeeps(resolve)
    requires |os| == |cs| && forall k :: 0 <= k < |os| ==> OutcomeFor(cs[k], resolve, os[k])
    ensures |Kept(os)| == |PlainOnly(cs)|
    ensures forall j :: 0 <= j < |Kept(os)| ==> Frame(PlainOnly(cs)[j], resolve) == Ok(Kept(os)[j])
  {
    if os != [] {
      var n := |os| - 1;
      assert forall k :: 0 <= k < n ==> os[..n][k] == os[k] && cs[..n][k] == cs[k];
      KeptPlain(os[..n], cs[..n], resolve);
      assert OutcomeFor(cs[n], resolve, os[n]);
      assert os[n].Keep? <==> KindOf(cs[n].tag) == Plain;
      assert cs[..|cs| - 1] == cs[..n] && os[..|os| - 1] == os[..n];
    }
  }

  /** Frames that are all static make a static list. */
  lemma {:induction false} KeptStatic(os: seq<Outcome>)
    requires forall k :: 0 <= k < |os| && os[k].Keep? ==> KindOf(os[k].frame.tag) == Plain && Static(os[k].frame)
    ensures forall j :: 0 <= j < |Kept(os)| ==> KindOf(Kept(os)[j].tag) == Plain && Static(Kept(os)[j])
  {
    if os != [] {
      KeptStatic(os[..|os| - 1]);
    }
  }

  /** The outcomes of all the children of `e`, each aligned with its child. */
  lemma AllAligned(e: Element, resolve: Resolver)
    requires Outcomes(e, 0, resolve).Ok?
    ensures forall k :: 0 <= k < |e.children| ==> OutcomeFor(e.children[k], resolve, Outcomes(e, 0, resolve).value[k])
  {
    forall k | 0 <= k < |e.children| ensures OutcomeFor(e.children[k], resolve, Outcomes(e, 0, resolve).value[k]) {
      OutcomeAt(e, 0, k, resolve);
    }
  }

  /**
   * The frame keeps the tag, drops every animation element of the subtree,
   * and keeps the frames of the ordinary children in document order.
   */
  lemma {:induction false} FrameStatic(e: Element, resolve: Resolver)
    requires NeverKeeps(resolve) && Frame(e, resolve).Ok?
    ensures Frame(e, resolve).value.tag == e.tag && Static(Frame(e, resolve).value)
    ensures |Frame(e, resolve).value.children| == |PlainOnly(e.children)|
    ensures forall j :: 0 <= j < |PlainOnly(e.children)| ==>
      Frame(PlainOnly(e.children)[j], resolve) == Ok(Frame(e, resolve).value.children[j])
    decreases e
  {
    var os := Outcomes(e, 0, resolve).value;
    AllAligned(e, resolve);
    forall k | 0 <= k < |os| && os[k].Keep? ensures KindOf(os[k].frame.tag) == Plain && Static(os[k].frame) {
      assert OutcomeFor(e.children[k], resolve, os[k]);
      FrameStatic(e.children[k], resolve);
    }
    KeptStatic(os);
    KeptPlain(os, e.children, resolve);
  }

  /** When every animation child resolves to nothing, the attributes come out as they went in. */
  lemma FrameNoWrites(e: Element, resolve: Resolver)
    requires Frame(e, resolve).Ok?
    requires forall k :: 0 <= k < |e.children| && KindOf(e.children[k].tag) != Plain ==> resolve(e.children[k]) == Ok(Skip)
    ensures Frame(e, resolve).value.attrib == e.attrib
  {
    var os := Outcomes(e, 0, resolve).value;
    AllAligned(e, resolve);
    NoWrites(e.attrib, os);
  }

  /**
   * The last child that overwrites an attribute decides it, when nothing
   * after it writes that attribute.
   */
  lemma FrameLastWins(e: Element, resolve: Resolver, k: nat, n: string, v: string)
    requires Frame(e, resolve).Ok?
    requires k < |e.children| && KindOf(e.children[k].tag) != Plain && resolve(e.children[k]) == Ok(Assign(n, v))
    requires forall j :: k < j < |e.children| && KindOf(e.children[j].tag) != Plain && resolve(e.children[j]).Ok? ==>
      !Writes(resolve(e.children[j]).value, n)
    ensures n in Frame(e, resolve).value.attrib && Frame(e, resolve).value.attrib[n] == v
  {
    var os := Outcomes(e, 0, resolve).value;
    AllAligned(e, resolve);
    LastAssignWins(e.attrib, os, k, n, v);
  }

  /** With no child overwriting an attribute that is there, its old value survives as the start of the new one. */
  lemma FrameAppendsKeepValue(e: Element, resolve: Resolver, n: string)
    requires Frame(e, resolve).Ok? && n in e.attrib
    requires forall j :: 0 <= j < |e.children| && KindOf(e.children[j].tag) != Plain && resolve(e.children[j]).Ok? ==>
      !resolve(e.children[j]).value.Assign?
    ensures n in Frame(e, resolve).value.attrib && e.attrib[n] <= Frame(e, resolve).value.attrib[n]
  {
    var os := Outcomes(e, 0, resolve).value;
    AllAligned(e, resolve);
    AppendsAccumulate(e.attrib, os, n);
  }

  /** Not active at `t`: the position is the sentinel, and a transform has its `type`. */
  predicate Inactive(c: Element, t: real, asWritten: bool)
  {
    TimePositionFrom(c.attrib, t, asWritten).Ok? && TimePositionFrom(c.attrib, t, asWritten).value < 0.0 &&
    (KindOf(c.tag) == AnimateTransform ==> "type" in c.attrib)
  }

  /** At a time when no animation child is active, the snapshot leaves the attributes as they are. */
  lemma SnapshotInactive(e: Element, t: real, fmt: real -> string, asWritten: bool)
    requires forall k :: 0 <= k < |e.children| && KindOf(e.children[k].tag) != Plain ==> Inactive(e.children[k], t, asWritten)
    requires Snapshot(e, t, fmt, asWritten).Ok?
    ensures Snapshot(e, t, fmt, asWritten).value.attrib == e.attrib
  {
    var resolve := ResolveAt(t, fmt, asWritten);
    forall k | 0 <= k < |e.children| && KindOf(e.children[k].tag) != Plain ensures resolve(e.children[k]) == Ok(Skip) {
      var c := e.children[k];
      InactiveSkips(c, t, fmt, asWritten, TimePositionFrom(c.attrib, t, asWritten).value);
    }
    FrameNoWrites(e, resolve);
  }
}
