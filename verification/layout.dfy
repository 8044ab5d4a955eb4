/**
 * The component tree of the slideshow (Slideshow, Slide, Sentence, Line,
 * Token) as values, and the layout it goes through: repositioning a node
 * with everything below it, centring the tokens of a line, greedy line
 * breaking, and stacking and centring the sentences of a slide. Token
 * widths come from the font metrics of the renderer and are a parameter
 * `measure` here.
 */
module Layout {
  import opened Base

  datatype Kind = Slideshow | Slide | Sentence | Line | Token

  /**
   * One component: its id, its text and whether it is content (tokens only;
   * "" and false elsewhere), the cue times stamped on it, its position and
   * its children.
   */
  datatype Node = Node(kind: Kind, id: string, text: string, content: bool,
                       begin: real, end: real, x: real, y: real, kids: seq<Node>)

  /** The cue times of a component no cue has reached yet. */
  const NoBegin: real := 10000000000000000.0
  const NoEnd: real := -1.0

  /** A new component: not stamped, at the origin, without children. */
  function Fresh(kind: Kind, id: string, text: string, content: bool): (n: Node)
    ensures n.begin > n.end && n.kids == [] && n.x == 0.0 && n.y == 0.0
  {
    Node(kind, id, text, content, NoBegin, NoEnd, 0.0, 0.0, [])
  }

  // ---------------------------------------------------------------------
  // setPos
  // ---------------------------------------------------------------------

  /** The node and everything below it moved by (dx, dy). */
  function Shift(n: Node, dx: real, dy: real): Node
  {
    n.(x := n.x + dx, y := n.y + dy, kids := seq(|n.kids|, k requires 0 <= k < |n.kids| => Shift(n.kids[k], dx, dy)))
  }

  /** `setPos(x, y)`: the node goes to (x, y), and what is below it follows. */
  function MoveTo(n: Node, x: real, y: real): Node
  {
    Shift(n, x - n.x, y - n.y)
  }

  /** The descendant at the end of a path of child indices. */
  function Sub(n: Node, p: seq<nat>): Option<Node>
    decreases |p|
  {
    if p == [] then Some(n)
    else if p[0] < |n.kids| then Sub(n.kids[p[0]], p[1..])
    else None
  }

  /** Shifting a node shifts every descendant by the same amount and keeps the shape of the tree. */
  lemma {:induction false} ShiftEveryDescendant(n: Node, p: seq<nat>, dx: real, dy: real)
    ensures Sub(Shift(n, dx, dy), p).Some? <==> Sub(n, p).Some?
    ensures Sub(n, p).Some? ==> Sub(Shift(n, dx, dy), p).value == Shift(Sub(n, p).value, dx, dy)
    decreases |p|
  {
    if p != [] && p[0] < |n.kids| {
      ShiftEveryDescendant(n.kids[p[0]], p[1..], dx, dy);
    }
  }

  /** After `setPos(x, y)` the node is at (x, y) and every descendant keeps its offset from it. */
  lemma MoveToKeepsOffsets(n: Node, x: real, y: real, p: seq<nat>)
    requires Sub(n, p).Some?
    ensures MoveTo(n, x, y).x == x && MoveTo(n, x, y).y == y
    ensures Sub(MoveTo(n, x, y), p).Some?
    ensures Sub(MoveTo(n, x, y), p).value.x - x == Sub(n, p).value.x - n.x
    ensures Sub(MoveTo(n, x, y), p).value.y - y == Sub(n, p).value.y - n.y
  {
    ShiftEveryDescendant(n, p, x - n.x, y - n.y);
  }

  /** Two moves make one. */
  lemma {:induction false} ShiftCompose(n: Node, a: real, b: real, c: real, d: real)
    ensures Shift(Shift(n, a, b), c, d) == Shift(n, a + c, b + d)
    decreases n
  {
    var l := Shift(Shift(n, a, b), c, d).kids;
    var r := Shift(n, a + c, b + d).kids;
    forall k | 0 <= k < |n.kids| ensures l[k] == r[k] {
      ShiftCompose(n.kids[k], a, b, c, d);
    }
  }

  /** Moving a node to where it already is changes nothing. */
  lemma {:induction false} ShiftNothing(n: Node)
    ensures Shift(n, 0.0, 0.0) == n
    decreases n
  {
    forall k | 0 <= k < |n.kids| ensures Shift(n.kids[k], 0.0, 0.0) == n.kids[k] {
      ShiftNothing(n.kids[k]);
    }
    assert Shift(n, 0.0, 0.0).kids == n.kids;
  }

  // ---------------------------------------------------------------------
  // Line.getWidth and Line.layout
  // ---------------------------------------------------------------------

  /** The sum of the widths of the tokens' texts. */
  function TotalWidth(ts: seq<Node>, measure: string -> real): real
  {
    if ts == [] then 0.0 else TotalWidth(ts[..|ts| - 1], measure) + measure(ts[|ts| - 1].text)
  }

  lemma TotalWidthSnoc(ts: seq<Node>, t: Node, measure: string -> real)
    ensures TotalWidth(ts + [t], measure) == TotalWidth(ts, measure) + measure(t.text)
  {
    assert (ts + [t])[..|ts|] == ts;
  }

  /** Where the line puts its token `k`: the margin, then the widths of the tokens before it. */
  function TokenX(l: Node, width: real, measure: string -> real, k: nat): real
    requires k <= |l.kids|
  {
    l.x + (width - TotalWidth(l.kids, measure)) / 2.0 + TotalWidth(l.kids[..k], measure)
  }

  /** `Line.layout(width)`: the tokens side by side on the line, centred in `width`. */
  function PlaceLine(l: Node, width: real, measure: string -> real): Node
  {
    l.(kids := seq(|l.kids|, k requires 0 <= k < |l.kids| => MoveTo(l.kids[k], TokenX(l, width, measure, k), l.y)))
  }

  /** Token `k + 1` starts where token `k` ends. */
  lemma TokensAbut(l: Node, width: real, measure: string -> real, k: nat)
    requires k + 1 < |l.kids|
    ensures TokenX(l, width, measure, k + 1) == TokenX(l, width, measure, k) + measure(l.kids[k].text)
  {
    assert l.kids[..k + 1] == l.kids[..k] + [l.kids[k]];
    TotalWidthSnoc(l.kids[..k], l.kids[k], measure);
  }

  /** The space before the first token equals the space after the last. */
  lemma TokensCentred(l: Node, width: real, measure: string -> real)
    requires |l.kids| > 0
    ensures var n := |l.kids| - 1;
      TokenX(l, width, measure, 0) - l.x == (l.x + width) - (TokenX(l, width, measure, n) + measure(l.kids[n].text))
  {
    var n := |l.kids| - 1;
    assert l.kids[..0] == [];
    assert l.kids == l.kids[..n] + [l.kids[n]];
    TotalWidthSnoc(l.kids[..n], l.kids[n], measure);
  }

  /**
   * The placed tokens sit on the line, each starts where the one before it
   * ends, and the space left before the first equals the space left after
   * the last.
   */
  lemma LinePlacement(l: Node, width: real, measure: string -> real)
    ensures |PlaceLine(l, width, measure).kids| == |l.kids|
    ensures forall k :: 0 <= k < |l.kids| ==> PlaceLine(l, width, measure).kids[k].y == l.y
    ensures forall k :: 0 <= k < |l.kids| - 1 ==>
      PlaceLine(l, width, measure).kids[k + 1].x == PlaceLine(l, width, measure).kids[k].x + measure(l.kids[k].text)
    ensures |l.kids| > 0 ==>
      var r := PlaceLine(l, width, measure).kids;
      r[0].x - l.x == (l.x + width) - (r[|r| - 1].x + measure(l.kids[|r| - 1].text))
  {
    var r := PlaceLine(l, width, measure).kids;
    forall k | 0 <= k < |l.kids| ensures r[k].x == TokenX(l, width, measure, k) && r[k].y == l.y {
      PlacedAt(l, width, measure, k);
    }
    forall k | 0 <= k < |l.kids| - 1 ensures r[k + 1].x == r[k].x + measure(l.kids[k].text) {
      TokensAbut(l, width, measure, k);
    }
    if |l.kids| > 0 {
      TokensCentred(l, width, measure);
    }
  }

  lemma PlacedAt(l: Node, width: real, measure: string -> real, k: nat)
    requires k < |l.kids|
    ensures PlaceLine(l, width, measure).kids[k].x == TokenX(l, width, measure, k)
    ensures PlaceLine(l, width, measure).kids[k].y == l.y
  {
  }

  // ---------------------------------------------------------------------
  // Sentence.layout: greedy line breaking
  // ---------------------------------------------------------------------

  /** Token `t` opens a new line after `cur`: it is content, `cur` has tokens, and it would not fit. */
  predicate Overflows(cur: seq<Node>, t: Node, width: real, measure: string -> real)
  {
    measure(t.text) + TotalWidth(cur, measure) > width && |cur| > 0 && t.content
  }

  /** The lines from token `i` on, `cur` being the line filled so far. */
  function Fill(ts: seq<Node>, i: nat, cur: seq<Node>, width: real, measure: string -> real): seq<seq<Node>>
    requires i <= |ts|
    decreases |ts| - i
  {
    if i == |ts| then (if cur == [] then [] else [cur])
    else if Overflows(cur, ts[i], width, measure) then [cur] + Fill(ts, i + 1, [ts[i]], width, measure)
    else Fill(ts, i + 1, cur + [ts[i]], width, measure)
  }

  /** The tokens of a sentence broken into lines of at most `width` where the rules allow. */
  function Break(ts: seq<Node>, width: real, measure: string -> real): seq<seq<Node>>
  {
    Fill(ts, 0, [], width, measure)
  }

  function Flatten(lines: seq<seq<Node>>): seq<Node>
  {
    if lines == [] then [] else lines[0] + Flatten(lines[1..])
  }

  lemma {:induction false} FillPartition(ts: seq<Node>, i: nat, cur: seq<Node>, width: real, measure: string -> real)
    requires i <= |ts|
    ensures Flatten(Fill(ts, i, cur, width, measure)) == cur + ts[i..]
    decreases |ts| - i
  {
    var lines := Fill(ts, i, cur, width, measure);
    if i == |ts| {
      if cur != [] {
        assert Flatten(lines) == cur + Flatten([]);
      }
    } else if Overflows(cur, ts[i], width, measure) {
      FillPartition(ts, i + 1, [ts[i]], width, measure);
      assert lines[1..] == Fill(ts, i + 1, [ts[i]], width, measure);
      assert ts[i..] == [ts[i]] + ts[i + 1..];
    } else {
      FillPartition(ts, i + 1, cur + [ts[i]], width, measure);
      assert ts[i..] == [ts[i]] + ts[i + 1..];
    }
  }

  /** Every token lands in exactly one line, in order. */
  lemma BreakPartition(ts: seq<Node>, width: real, measure: string -> real)
    ensures Flatten(Break(ts, width, measure)) == ts
  {
    FillPartition(ts, 0, [], width, measure);
  }

  lemma {:induction false} FillNonEmpty(ts: seq<Node>, i: nat, cur: seq<Node>, width: real, measure: string -> real)
    requires i <= |ts|
    ensures forall j :: 0 <= j < |Fill(ts, i, cur, width, measure)| ==> Fill(ts, i, cur, width, measure)[j] != []
    decreases |ts| - i
  {
    if i < |ts| {
      if Overflows(cur, ts[i], width, measure) {
        FillNonEmpty(ts, i + 1, [ts[i]], width, measure);
      } else {
        FillNonEmpty(ts, i + 1, cur + [ts[i]], width, measure);
      }
    }
  }

  /** No line is empty. */
  lemma BreakNonEmpty(ts: seq<Node>, width: real, measure: string -> real)
    ensures forall j :: 0 <= j < |Break(ts, width, measure)| ==> Break(ts, width, measure)[j] != []
  {
    FillNonEmpty(ts, 0, [], width, measure);
  }

  /** Every content token after the first of a line fits on it. */
  predicate Fits(line: seq<Node>, width: real, measure: string -> real)
  {
    forall k :: 0 < k < |line| && line[k].content ==> measure(line[k].text) + TotalWidth(line[..k], measure) <= width
  }

  lemma FitsSnoc(cur: seq<Node>, t: Node, width: real, measure: string -> real)
    requires Fits(cur, width, measure) && !Overflows(cur, t, width, measure)
    ensures Fits(cur + [t], width, measure)
  {
    var line := cur + [t];
    forall k | 0 < k < |line| && line[k].content ensures measure(line[k].text) + TotalWidth(line[..k], measure) <= width {
      if k < |cur| {
        assert line[..k] == cur[..k];
      } else {
        assert line[..k] == cur;
      }
    }
  }

  lemma {:induction false} FillFits(ts: seq<Node>, i: nat, cur: seq<Node>, width: real, measure: string -> real)
    requires i <= |ts| && Fits(cur, width, measure)
    ensures forall j :: 0 <= j < |Fill(ts, i, cur, width, measure)| ==> Fits(Fill(ts, i, cur, width, measure)[j], width, measure)
    decreases |ts| - i
  {
    if i < |ts| {
      if Overflows(cur, ts[i], width, measure) {
        FillFits(ts, i + 1, [ts[i]], width, measure);
      } else {
        FitsSnoc(cur, ts[i], width, measure);
        FillFits(ts, i + 1, cur + [ts[i]], width, measure);
      }
    }
  }

  /** Greedy: a content token that fits on the current line is never pushed to the next. */
  lemma BreakFits(ts: seq<Node>, width: real, measure: string -> real)
    ensures forall j :: 0 <= j < |Break(ts, width, measure)| ==> Fits(Break(ts, width, measure)[j], width, measure)
  {
    FillFits(ts, 0, [], width, measure);
  }

  /** Line `j` opens with a content token that does not fit after line `j - 1`. */
  predicate BreaksAt(lines: seq<seq<Node>>, j: nat, width: real, measure: string -> real)
    requires 0 < j < |lines|
  {
    lines[j] != [] && lines[j][0].content && measure(lines[j][0].text) + TotalWidth(lines[j - 1], measure) > width
  }

  lemma {:induction false} FillBreaks(ts: seq<Node>, i: nat, cur: seq<Node>, width: real, measure: string -> real)
    requires i <= |ts|
    ensures var lines := Fill(ts, i, cur, width, measure);
      forall j :: 0 < j < |lines| ==> BreaksAt(lines, j, width, measure)
    ensures i < |ts| && cur != [] ==> var lines := Fill(ts, i, cur, width, measure);
      |lines| > 0 && cur <= lines[0]
    decreases |ts| - i
  {
    if i < |ts| {
      var lines := Fill(ts, i, cur, width, measure);
      if Overflows(cur, ts[i], width, measure) {
        var rest := Fill(ts, i + 1, [ts[i]], width, measure);
        FillBreaks(ts, i + 1, [ts[i]], width, measure);
        FillNonEmpty(ts, i + 1, [ts[i]], width, measure);
        assert lines == [cur] + rest;
        if i + 1 == |ts| {
          assert rest == [[ts[i]]];
        }
        assert |rest| > 0 && rest[0][0] == ts[i];
        forall j | 0 < j < |lines| ensures BreaksAt(lines, j, width, measure) {
          if j > 1 {
            assert BreaksAt(rest, j - 1, width, measure);
          }
        }
      } else {
        FillBreaks(ts, i + 1, cur + [ts[i]], width, measure);
        if i + 1 == |ts| {
          assert lines == [cur + [ts[i]]];
        }
      }
    }
  }

  /** A new line starts only before a content token that would overflow the line before. */
  lemma BreakOnlyOnOverflow(ts: seq<Node>, width: real, measure: string -> real)
    ensures var lines := Break(ts, width, measure);
      forall j :: 0 < j < |lines| ==> BreaksAt(lines, j, width, measure)
  {
    assert Break(ts, width, measure) == Fill(ts, 0, [], width, measure);
    FillBreaks(ts, 0, [], width, measure);
  }

  // ---------------------------------------------------------------------
  // Sentence.layout: placing the lines
  // ---------------------------------------------------------------------

  /** `Line.getHeight()`: every line is 64 units high. */
  const LineSize: real := 64.0

  /** A new line at (x, y) holding the tokens `ts`, before they are placed. */
  function LineAt(x: real, y: real, ts: seq<Node>): Node
  {
    Node(Line, "", "", false, NoBegin, NoEnd, x, y, ts)
  }

  /** The lines `raw` of a sentence at (x, y), one below the other, each centred in `width`. */
  function PlaceLines(x: real, y: real, raw: seq<seq<Node>>, width: real, measure: string -> real): (lines: seq<Node>)
    ensures |lines| == |raw|
  {
    seq(|raw|, j requires 0 <= j < |raw| => PlaceLine(LineAt(x, y + LineSize * j as real, raw[j]), width, measure))
  }

  lemma PlaceLinesSnoc(x: real, y: real, raw: seq<seq<Node>>, cur: seq<Node>, width: real, measure: string -> real)
    ensures PlaceLines(x, y, raw + [cur], width, measure) ==
      PlaceLines(x, y, raw, width, measure) + [PlaceLine(LineAt(x, y + LineSize * |raw| as real, cur), width, measure)]
  {
  }

  /** `Sentence.layout(width)` on the sentence `s` with tokens `ts`: its children become the broken, placed lines. */
  function LayoutSentence(s: Node, ts: seq<Node>, width: real, measure: string -> real): Node
  {
    s.(kids := PlaceLines(s.x, s.y, Break(ts, width, measure), width, measure))
  }

  /**
   * `Sentence.layout(width)`: the tokens are added to the current line until
   * one overflows it; then the line is laid out and closed, and a new line
   * starts 64 units lower.
   */
  method LayOutSentence(s: Node, ts: seq<Node>, width: real, measure: string -> real) returns (r: Node)
    ensures r == LayoutSentence(s, ts, width, measure)
  {
    var lines: seq<Node> := [];
    var y := s.y;
    var cur: seq<Node> := [];
    ghost var done: seq<seq<Node>> := [];
    var i := 0;
    while i < |ts|
      invariant 0 <= i <= |ts|
      invariant Break(ts, width, measure) == done + Fill(ts, i, cur, width, measure)
      invariant lines == PlaceLines(s.x, s.y, done, width, measure)
      invariant y == s.y + LineSize * |done| as real
    {
      var t := ts[i];
      if measure(t.text) + TotalWidth(cur, measure) > width && |cur| > 0 && t.content {
        assert done + Fill(ts, i, cur, width, measure) == (done + [cur]) + Fill(ts, i + 1, [t], width, measure);
        PlaceLinesSnoc(s.x, s.y, done, cur, width, measure);
        lines := lines + [PlaceLine(LineAt(s.x, y, cur), width, measure)];
        y := y + LineSize;
        done := done + [cur];
        cur := [t];
      } else {
        cur := cur + [t];
      }
      i := i + 1;
    }
    if |cur| > 0 {
      PlaceLinesSnoc(s.x, s.y, done, cur, width, measure);
      lines := lines + [PlaceLine(LineAt(s.x, y, cur), width, measure)];
      done := done + [cur];
    }
    assert Break(ts, width, measure) == done;
    return s.(kids := lines);
  }

  /**
   * Only the children of the sentence change. Line `j` starts at the
   * sentence's x, 64 units lower than line `j - 1`, and holds the tokens of
   * the `j`-th break, in order, each moved to the line's y at the margin
   * that centres the line plus the widths of the tokens before it.
   */
  lemma SentenceLines(s: Node, ts: seq<Node>, width: real, measure: string -> real)
    ensures LayoutSentence(s, ts, width, measure).(kids := s.kids) == s
    ensures |LayoutSentence(s, ts, width, measure).kids| == |Break(ts, width, measure)|
    ensures forall j :: 0 <= j < |Break(ts, width, measure)| ==>
      LinePlaced(LayoutSentence(s, ts, width, measure).kids[j], s.x, s.y + LineSize * j as real, Break(ts, width, measure)[j], width, measure)
  {
    var raw := Break(ts, width, measure);
    var r := LayoutSentence(s, ts, width, measure);
    assert r.kids == PlaceLines(s.x, s.y, raw, width, measure);
    forall j | 0 <= j < |raw|
      ensures LinePlaced(r.kids[j], s.x, s.y + LineSize * j as real, raw[j], width, measure)
    {
      LineOfSentence(s.x, s.y, raw, width, measure, j);
    }
  }

  /**
   * `l` is a line at (x, y) holding `line`'s tokens in order, each moved to
   * y at the margin that centres the line in `width` plus the widths of the
   * tokens before it.
   */
  ghost predicate LinePlaced(l: Node, x: real, y: real, line: seq<Node>, width: real, measure: string -> real)
  {
    l.kind == Line && l.x == x && l.y == y && |l.kids| == |line| &&
    forall i :: 0 <= i < |line| ==>
      l.kids[i] == MoveTo(line[i], x + (width - TotalWidth(line, measure)) / 2.0 + TotalWidth(line[..i], measure), y)
  }

  /** Line `j` of the placed lines, token by token. */
  lemma LineOfSentence(x: real, y: real, raw: seq<seq<Node>>, width: real, measure: string -> real, j: nat)
    requires j < |raw|
    ensures LinePlaced(PlaceLines(x, y, raw, width, measure)[j], x, y + LineSize * j as real, raw[j], width, measure)
  {
    var ly := y + LineSize * j as real;
    var line := LineAt(x, ly, raw[j]);
    var l := PlaceLine(line, width, measure);
    assert PlaceLines(x, y, raw, width, measure)[j] == l;
    assert l.kind == Line && l.x == x && l.y == ly && |l.kids| == |raw[j]|;
    forall i | 0 <= i < |raw[j]|
      ensures l.kids[i] == MoveTo(raw[j][i], x + (width - TotalWidth(raw[j], measure)) / 2.0 + TotalWidth(raw[j][..i], measure), ly)
    {
      assert l.kids[i] == MoveTo(raw[j][i], TokenX(line, width, measure, i), ly);
    }
  }

  // ---------------------------------------------------------------------
  // Sentence.getHeight, Sentence.getSpacingHeight, Slide.layout
  // ---------------------------------------------------------------------

  /** `Sentence.getHeight()` for a sentence of `n` lines. */
  function SentenceHeight(n: nat, lineHeight: real): real
  {
    if n == 0 then 0.0 else LineSize * n as real + (lineHeight - 1.0) * (n - 1) as real
  }

  /** `Sentence.getSpacingHeight()` for a sentence of `n` lines. */
  function SpacingHeight(n: nat, lineHeight: real): real
  {
    if n == 0 then 0.0 else (lineHeight - 1.0) * LineSize
  }

  /**
   * A laid-out sentence has no lines exactly when it has no tokens. With
   * lines, its height is the distance from its top to the bottom of its last
   * line plus `lineHeight - 1` units for each gap between lines, although
   * `Sentence.layout` stacks its lines 64 units apart with no gap.
   */
  lemma SentenceExtent(s: Node, ts: seq<Node>, width: real, measure: string -> real, lineHeight: real)
    ensures |LayoutSentence(s, ts, width, measure).kids| == 0 <==> ts == []
    ensures var r := LayoutSentence(s, ts, width, measure); var n := |r.kids|;
      n > 0 ==> SentenceHeight(n, lineHeight) == (r.kids[n - 1].y + LineSize - s.y) + (lineHeight - 1.0) * (n - 1) as real
  {
    var raw := Break(ts, width, measure);
    var r := LayoutSentence(s, ts, width, measure);
    SentenceLines(s, ts, width, measure);
    BreakPartition(ts, width, measure);
    BreakNonEmpty(ts, width, measure);
    if raw != [] {
      assert raw[0] != [];
      assert Flatten(raw) == raw[0] + Flatten(raw[1..]);
      var n := |r.kids|;
      assert LinePlaced(r.kids[n - 1], s.x, s.y + LineSize * (n - 1) as real, raw[n - 1], width, measure);
    }
  }

  /** The configuration values `Slide.layout` reads. */
  datatype SlideConfig = SlideConfig(width: real, height: real, marginLeft: real, marginRight: real, lineHeight: real)

  /** A sentence: the component and the tokens `Sentence.__init__` made for it. */
  datatype Sent = Sent(node: Node, tokens: seq<Node>)

  function TextWidth(c: SlideConfig): real
  {
    c.width - c.marginLeft - c.marginRight
  }

  /** How many lines each sentence breaks into. */
  function Counts(ss: seq<Sent>, c: SlideConfig, measure: string -> real): (counts: seq<nat>)
    ensures |counts| == |ss|
  {
    seq(|ss|, k requires 0 <= k < |ss| => |Break(ss[k].tokens, TextWidth(c), measure)|)
  }

  /** The height of a sentence of `n` lines and the space below it. */
  function Advance(n: nat, lineHeight: real): real
  {
    SentenceHeight(n, lineHeight) + SpacingHeight(n, lineHeight)
  }

  /** Where sentence `k` starts before centring: the advances of the sentences above it. */
  function Top(counts: seq<nat>, k: nat, lineHeight: real): real
    requires k <= |counts|
  {
    if k == 0 then 0.0 else Top(counts, k - 1, lineHeight) + Advance(counts[k - 1], lineHeight)
  }

  function SumHeights(counts: seq<nat>, lineHeight: real): real
  {
    if counts == [] then 0.0 else SumHeights(counts[..|counts| - 1], lineHeight) + SentenceHeight(counts[|counts| - 1], lineHeight)
  }

  function SumSpacings(counts: seq<nat>, lineHeight: real): real
  {
    if counts == [] then 0.0 else SumSpacings(counts[..|counts| - 1], lineHeight) + SpacingHeight(counts[|counts| - 1], lineHeight)
  }

  /** `Slide.getHeight()`: all the sentence heights, and the spacing below all but the last sentence. */
  function SlideHeight(counts: seq<nat>, lineHeight: real): real
  {
    SumHeights(counts, lineHeight) + SumSpacings(if counts == [] then [] else counts[..|counts| - 1], lineHeight)
  }

  /** Sentence `k` laid out at the left margin, below the sentences before it. */
  function StackEntry(ss: seq<Sent>, c: SlideConfig, measure: string -> real, k: nat): Sent
    requires k < |ss|
  {
    ss[k].(node := LayoutSentence(MoveTo(ss[k].node, c.marginLeft, Top(Counts(ss, c, measure), k, c.lineHeight)),
                                  ss[k].tokens, TextWidth(c), measure))
  }

  /** The sentences laid out one below the other, from the top of the slide. */
  function Stack(ss: seq<Sent>, c: SlideConfig, measure: string -> real): (r: seq<Sent>)
    ensures |r| == |ss|
  {
    seq(|ss|, k requires 0 <= k < |ss| => StackEntry(ss, c, measure, k))
  }

  /** How far the sentences move down so that they are centred vertically; 0 when they do not fit. */
  function Drop(ss: seq<Sent>, c: SlideConfig, measure: string -> real): real
  {
    var h := SlideHeight(Counts(ss, c, measure), c.lineHeight);
    if h < c.height then (c.height - h) / 2.0 else 0.0
  }

  /** Every sentence moved down by `drop`, with its lines and tokens. */
  function Lowered(st: seq<Sent>, drop: real): (r: seq<Sent>)
    ensures |r| == |st|
  {
    seq(|st|, k requires 0 <= k < |st| => st[k].(node := Shift(st[k].node, 0.0, drop)))
  }

  /** `Slide.layout()` on the sentences `ss`. */
  function LayoutSlide(ss: seq<Sent>, c: SlideConfig, measure: string -> real): (r: seq<Sent>)
    ensures |r| == |ss|
  {
    if SlideHeight(Counts(ss, c, measure), c.lineHeight) < c.height then Lowered(Stack(ss, c, measure), Drop(ss, c, measure))
    else Stack(ss, c, measure)
  }

  /** A list of sentence entries is the stack. */
  lemma IsStack(ss: seq<Sent>, c: SlideConfig, measure: string -> real, r: seq<Sent>)
    requires |r| == |ss| && forall j :: 0 <= j < |r| ==> r[j] == StackEntry(ss, c, measure, j)
    ensures r == Stack(ss, c, measure)
  {
  }

  /** One turn of the first loop of `Slide.layout()`: sentence `k` placed at `y` and laid out. */
  method StackOne(ss: seq<Sent>, c: SlideConfig, measure: string -> real, k: nat, y: real) returns (e: Sent)
    requires k < |ss| && y == Top(Counts(ss, c, measure), k, c.lineHeight)
    ensures e == StackEntry(ss, c, measure, k) && |e.node.kids| == Counts(ss, c, measure)[k]
  {
    var width := c.width - c.marginLeft - c.marginRight;
    var node := MoveTo(ss[k].node, c.marginLeft, y);
    node := LayOutSentence(node, ss[k].tokens, width, measure);
    e := ss[k].(node := node);
  }

  /** The first loop of `Slide.layout()`: each sentence at the left margin below the one before, laid out. */
  method StackSentences(ss: seq<Sent>, c: SlideConfig, measure: string -> real) returns (r: seq<Sent>)
    ensures r == Stack(ss, c, measure)
  {
    var y := 0.0;
    ghost var counts := Counts(ss, c, measure);
    r := [];
    var k := 0;
    while k < |ss|
      invariant 0 <= k <= |ss| && |r| == k
      invariant y == Top(counts, k, c.lineHeight)
      invariant forall j :: 0 <= j < k ==> r[j] == StackEntry(ss, c, measure, j)
    {
      var e := StackOne(ss, c, measure, k, y);
      r := r + [e];
      var n := |e.node.kids|;
      y := y + SentenceHeight(n, c.lineHeight) + SpacingHeight(n, c.lineHeight);
      k := k + 1;
    }
    IsStack(ss, c, measure, r);
  }

  /** The second loop of `Slide.layout()`: `setPos(x, y + drop)` on every sentence. */
  method Lower(st: seq<Sent>, drop: real) returns (r: seq<Sent>)
    ensures r == Lowered(st, drop)
  {
    r := st;
    var k := 0;
    while k < |r|
      invariant 0 <= k <= |r| == |st|
      invariant forall j :: 0 <= j < k ==> r[j] == Lowered(st, drop)[j]
      invariant forall j :: k <= j < |r| ==> r[j] == st[j]
    {
      var node := r[k].node;
      assert MoveTo(node, node.x, node.y + drop) == Shift(node, 0.0, drop);
      r := r[k := r[k].(node := MoveTo(node, node.x, node.y + drop))];
      k := k + 1;
    }
  }

  /**
   * `Slide.layout()`: each sentence goes to the left margin below the one
   * before, is laid out, and the cursor moves down by its height and
   * spacing; if the sentences take less than the slide's height, all of
   * them move down by half the difference.
   */
  method LayOutSlide(ss: seq<Sent>, c: SlideConfig, measure: string -> real) returns (r: seq<Sent>)
    ensures r == LayoutSlide(ss, c, measure)
  {
    r := StackSentences(ss, c, measure);
    var counts := seq(|r|, j requires 0 <= j < |r| => |r[j].node.kids|);
    assert counts == Counts(ss, c, measure);
    var height := SlideHeight(counts, c.lineHeight);
    if height < c.height {
      r := Lower(r, (c.height - height) / 2.0);
    }
  }

  /** Each laid-out sentence sits at the left margin, the first `Drop` below the top, each below the one before. */
  lemma SlidePositions(ss: seq<Sent>, c: SlideConfig, measure: string -> real, k: nat)
    requires k < |ss|
    ensures LayoutSlide(ss, c, measure)[k].node.x == c.marginLeft
    ensures LayoutSlide(ss, c, measure)[k].node.y == Drop(ss, c, measure) + Top(Counts(ss, c, measure), k, c.lineHeight)
    ensures LayoutSlide(ss, c, measure)[k].tokens == ss[k].tokens
  {
  }

  /** The height of the slide is where its last sentence starts plus that sentence's height. */
  lemma {:induction false} HeightOfStack(counts: seq<nat>, lineHeight: real)
    requires counts != []
    ensures SlideHeight(counts, lineHeight) == Top(counts, |counts| - 1, lineHeight) + SentenceHeight(counts[|counts| - 1], lineHeight)
  {
    var n := |counts| - 1;
    TopSums(counts, n, lineHeight);
    assert counts[..n + 1] == counts;
  }

  lemma {:induction false} TopSums(counts: seq<nat>, k: nat, lineHeight: real)
    requires k <= |counts|
    ensures Top(counts, k, lineHeight) == SumHeights(counts[..k], lineHeight) + SumSpacings(counts[..k], lineHeight)
  {
    if k > 0 {
      TopSums(counts, k - 1, lineHeight);
      assert counts[..k][..k - 1] == counts[..k - 1];
    }
  }

  /** Sentences that fit are centred: the space above the first equals the space below the last. */
  lemma SlideCentred(ss: seq<Sent>, c: SlideConfig, measure: string -> real)
    requires ss != [] && SlideHeight(Counts(ss, c, measure), c.lineHeight) < c.height
    ensures var r := LayoutSlide(ss, c, measure); var n := |ss| - 1;
      r[0].node.y == c.height - (r[n].node.y + SentenceHeight(Counts(ss, c, measure)[n], c.lineHeight))
  {
    var n := |ss| - 1;
    var counts := Counts(ss, c, measure);
    SlidePositions(ss, c, measure, 0);
    SlidePositions(ss, c, measure, n);
    HeightOfStack(counts, c.lineHeight);
    var h := SlideHeight(counts, c.lineHeight);
    var d := Drop(ss, c, measure);
    assert d == (c.height - h) / 2.0;
  }

  /** `Slideshow.layout()`: every slide laid out on its own. */
  method LayOutShow(slides: seq<seq<Sent>>, c: SlideConfig, measure: string -> real) returns (r: seq<seq<Sent>>)
    ensures |r| == |slides| && forall k :: 0 <= k < |slides| ==> r[k] == LayoutSlide(slides[k], c, measure)
  {
    r := [];
    for k := 0 to |slides|
      invariant |r| == k && forall j :: 0 <= j < k ==> r[j] == LayoutSlide(slides[j], c, measure)
    {
      var laid := LayOutSlide(slides[k], c, measure);
      r := r + [laid];
    }
  }

  // ---------------------------------------------------------------------
  // Sentence.__init__: the tokens of a sentence
  // ---------------------------------------------------------------------

  /** An element of the TEI document: attributes, the text before its first child, children, the text after it. */
  datatype Xml = Xml(attrib: map<string, string>, text: Option<string>, children: seq<Xml>, tail: Option<string>)

  /** Python truth of a text: present and not empty. */
  predicate Truthy(s: Option<string>)
  {
    s.Some? && s.value != ""
  }

  /** A new token. Unicode normalisation of the text is not modelled. */
  function TokenOf(text: string, id: string, content: bool): Node
  {
    Fresh(Token, id, text, content)
  }

  /** The tokens of word `w`: its text as content carrying its id, then its tail. */
  function WordTokens(w: Xml): Result<seq<Node>>
  {
    if "id" !in w.attrib then Err(KeyError("id"))
    else if w.text.None? then Err(TypeError("normalize() argument 2 must be str, not None"))
    else Ok([TokenOf(w.text.value, w.attrib["id"], true)] + (if Truthy(w.tail) then [TokenOf(w.tail.value, "", false)] else []))
  }

  /** The tokens of the words `ws`, in order; the first word that fails stops everything. */
  function WordsTokens(ws: seq<Xml>): Result<seq<Node>>
  {
    if ws == [] then Ok([])
    else
      var first :- WordTokens(ws[0]);
      var rest :- WordsTokens(ws[1..]);
      Ok(first + rest)
  }

  /** `Sentence.__init__`: the sentence's id and its tokens, the leading text first. */
  function SentenceTokens(e: Xml): Result<(string, seq<Node>)>
  {
    if "id" !in e.attrib then Err(KeyError("id"))
    else
      var words :- WordsTokens(e.children);
      Ok((e.attrib["id"], (if Truthy(e.text) then [TokenOf(e.text.value, "", false)] else []) + words))
  }

  /** `done` followed by what `rest` holds, or the failure of `rest`. */
  function Then(done: seq<Node>, rest: Result<seq<Node>>): Result<seq<Node>>
  {
    match rest
    case Ok(ts) => Ok(done + ts)
    case Err(err) => Err(err)
  }

  lemma WordsStep(ws: seq<Xml>, i: nat, done: seq<Node>)
    requires i < |ws| && WordTokens(ws[i]).Ok?
    ensures Then(done, WordsTokens(ws[i..])) == Then(done + WordTokens(ws[i]).value, WordsTokens(ws[i + 1..]))
  {
    assert ws[i..][1..] == ws[i + 1..];
    var rest := WordsTokens(ws[i + 1..]);
    if rest.Ok? {
      assert done + (WordTokens(ws[i]).value + rest.value) == (done + WordTokens(ws[i]).value) + rest.value;
    }
  }

  /** The tokens of one word, as the loop of `Sentence.__init__` appends them. */
  method WordOf(w: Xml) returns (r: Result<seq<Node>>)
    ensures r == WordTokens(w)
  {
    if "id" !in w.attrib {
      return Err(KeyError("id"));
    }
    if w.text.None? {
      return Err(TypeError("normalize() argument 2 must be str, not None"));
    }
    var tail: seq<Node> := [];
    if Truthy(w.tail) {
      tail := [TokenOf(w.tail.value, "", false)];
    }
    return Ok([TokenOf(w.text.value, w.attrib["id"], true)] + tail);
  }

  lemma WordsFail(ws: seq<Xml>, i: nat, done: seq<Node>)
    requires i < |ws| && WordTokens(ws[i]).Err?
    ensures Then(done, WordsTokens(ws[i..])) == Err(WordTokens(ws[i]).error)
  {
    assert ws[i..][0] == ws[i];
  }

  lemma WordsStart(ws: seq<Xml>)
    ensures Then([], WordsTokens(ws[0..])) == WordsTokens(ws)
  {
    assert ws[0..] == ws;
    if WordsTokens(ws).Ok? {
      assert [] + WordsTokens(ws).value == WordsTokens(ws).value;
    }
  }

  lemma WordsEnd(ws: seq<Xml>, done: seq<Node>)
    ensures Then(done, WordsTokens(ws[|ws|..])) == Ok(done)
  {
    assert ws[|ws|..] == [];
    assert done + [] == done;
  }

  /**
   * `Sentence.__init__`: the leading text becomes a token that is not
   * content, then each word gives a content token carrying its id and, if
   * it has a tail, a token for the tail.
   */
  method NewSentence(e: Xml) returns (r: Result<(string, seq<Node>)>)
    ensures r == SentenceTokens(e)
  {
    if "id" !in e.attrib {
      return Err(KeyError("id"));
    }
    var tokens: seq<Node> := [];
    if Truthy(e.text) {
      tokens := tokens + [TokenOf(e.text.value, "", false)];
    }
    ghost var lead := tokens;
    assert lead == if Truthy(e.text) then [TokenOf(e.text.value, "", false)] else [];
    ghost var words: seq<Node> := [];
    WordsStart(e.children);
    var i := 0;
    while i < |e.children|
      invariant 0 <= i <= |e.children|
      invariant WordsTokens(e.children) == Then(words, WordsTokens(e.children[i..]))
      invariant tokens == lead + words
    {
      var ws := WordOf(e.children[i]);
      if ws.Err? {
        WordsFail(e.children, i, words);
        return Err(ws.error);
      }
      WordsStep(e.children, i, words);
      tokens := tokens + ws.value;
      words := words + ws.value;
      i := i + 1;
    }
    WordsEnd(e.children, words);
    assert WordsTokens(e.children) == Ok(words);
    return Ok((e.attrib["id"], tokens));
  }

  /** The content tokens of a list, in order. */
  function Contents(ts: seq<Node>): seq<Node>
  {
    if ts == [] then []
    else Contents(ts[..|ts| - 1]) + (if ts[|ts| - 1].content then [ts[|ts| - 1]] else [])
  }

  lemma {:induction false} ContentsAppend(a: seq<Node>, b: seq<Node>)
    ensures Contents(a + b) == Contents(a) + Contents(b)
  {
    if b == [] {
      assert a + b == a;
    } else {
      var n := |b| - 1;
      ContentsAppend(a, b[..n]);
      assert (a + b)[..|a + b| - 1] == a + b[..n];
    }
  }

  /** A word's only content token is its first. */
  lemma WordContents(w: Xml)
    requires WordTokens(w).Ok?
    ensures Contents(WordTokens(w).value) == [WordTokens(w).value[0]]
  {
    var ts := WordTokens(w).value;
    assert ts[0].content;
    if |ts| == 1 {
      assert ts[..0] == [];
    } else {
      assert !ts[1].content && |ts| == 2;
      assert ts[..1] == [ts[0]];
      assert ts[..1][..0] == [];
      assert Contents(ts[..1]) == [ts[0]];
      assert Contents(ts) == Contents(ts[..1]);
    }
  }

  /** Each word gives exactly one content token, with its text and id, in document order. */
  lemma {:induction false} WordsContents(ws: seq<Xml>)
    requires WordsTokens(ws).Ok?
    ensures var cs := Contents(WordsTokens(ws).value);
      |cs| == |ws| &&
      forall k :: 0 <= k < |ws| ==> ("id" in ws[k].attrib && ws[k].text.Some? &&
        cs[k] == TokenOf(ws[k].text.value, ws[k].attrib["id"], true))
  {
    if ws != [] {
      WordsContents(ws[1..]);
      var cs := Contents(WordsTokens(ws).value);
      var rest := Contents(WordsTokens(ws[1..]).value);
      WordsContentsCons(ws);
      forall k | 0 <= k < |ws|
        ensures "id" in ws[k].attrib && ws[k].text.Some? &&
          cs[k] == TokenOf(ws[k].text.value, ws[k].attrib["id"], true)
      {
        if k > 0 {
          assert ws[k] == ws[1..][k - 1] && cs[k] == rest[k - 1];
        }
      }
    }
  }

  /** The content tokens of words: the first word's token, then those of the rest. */
  lemma WordsContentsCons(ws: seq<Xml>)
    requires ws != [] && WordsTokens(ws).Ok?
    ensures "id" in ws[0].attrib && ws[0].text.Some? && WordsTokens(ws[1..]).Ok?
    ensures Contents(WordsTokens(ws).value) ==
      [TokenOf(ws[0].text.value, ws[0].attrib["id"], true)] + Contents(WordsTokens(ws[1..]).value)
  {
    var first := WordTokens(ws[0]).value;
    var rest := WordsTokens(ws[1..]).value;
    assert WordsTokens(ws).value == first + rest;
    ContentsAppend(first, rest);
    WordContents(ws[0]);
  }

  /** The tokens of the words that are not content carry no id. */
  lemma {:induction false} WordsTailIds(ws: seq<Xml>)
    requires WordsTokens(ws).Ok?
    ensures forall t :: t in WordsTokens(ws).value && !t.content ==> t.id == ""
  {
    if ws != [] {
      WordsTailIds(ws[1..]);
    }
  }

  /**
   * A sentence's content tokens are its words, in order, each with its id;
   * the leading and trailing texts make tokens that are not content and have
   * no id.
   */
  lemma SentenceContents(e: Xml)
    requires SentenceTokens(e).Ok?
    ensures var ts := SentenceTokens(e).value.1; var cs := Contents(ts);
      |cs| == |e.children| &&
      (forall k :: 0 <= k < |e.children| ==>
        "id" in e.children[k].attrib && e.children[k].text.Some? &&
        cs[k].id == e.children[k].attrib["id"] && cs[k].text == e.children[k].text.value) &&
      (forall t :: t in ts && !t.content ==> t.id == "")
  {
    var lead := if Truthy(e.text) then [TokenOf(e.text.value, "", false)] else [];
    WordsContents(e.children);
    WordsTailIds(e.children);
    ContentsAppend(lead, WordsTokens(e.children).value);
    assert Contents(lead) == [] by {
      if lead != [] {
        assert lead[1..] == [];
      }
    }
  }
}
