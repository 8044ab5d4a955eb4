/**
 * `RASVComponent` and its in-place operations: `setPos`, which moves a
 * component and everything below it, `addTimestamp`, which writes a cue on
 * the first component with the target id and widens the times of its
 * ancestors, `Line.addToken` and `Line.layout`. Each component keeps a ghost
 * value `model` of itself and everything below it; the methods are proved
 * against the value functions of the modules Layout and Stamping.
 */
module Components {
  import opened Base
  import opened Layout
  import opened Stamping

  class Component {
    const kind: Kind
    const id: string
    const text: string
    const content: bool
    var children: seq<Component>
    var beginTime: real
    var endTime: real
    var x: real
    var y: real
    ghost var model: Node
    ghost var Repr: set<Component>

    /** The component owns its children's subtrees, and distinct children own disjoint ones. */
    ghost predicate Owned()
      reads this, Repr`Repr
    {
      this in Repr &&
      (forall i | 0 <= i < |children| ::
         children[i] in Repr && children[i].Repr <= Repr && this !in children[i].Repr) &&
      (forall i, j | 0 <= i < j < |children| :: children[i].Repr !! children[j].Repr)
    }

    /** `model` is this component and its subtree as a value. */
    ghost predicate Valid()
      reads this, Repr
      decreases Repr
    {
      Owned() &&
      model == Node(kind, id, text, content, beginTime, endTime, x, y, model.kids) &&
      |model.kids| == |children| &&
      forall i | 0 <= i < |children| :: children[i].Valid() && model.kids[i] == children[i].model
    }

    /** `RASVComponent.__init__`: no cue yet, at the origin, no children. */
    constructor (kind: Kind, id: string, text: string, content: bool)
      ensures Valid() && fresh(Repr) && model == Fresh(kind, id, text, content)
    {
      this.kind := kind;
      this.id := id;
      this.text := text;
      this.content := content;
      children := [];
      beginTime := NoBegin;
      endTime := NoEnd;
      x := 0.0;
      y := 0.0;
      model := Fresh(kind, id, text, content);
      Repr := {this};
    }

    /** `Line.addToken`: the component `c` becomes the last child. */
    method AddChild(c: Component)
      requires Valid() && c.Valid() && Repr !! c.Repr
      modifies this
      ensures Valid() && Repr == old(Repr) + c.Repr
      ensures model == old(model).(kids := old(model).kids + [c.model])
    {
      children := children + [c];
      model := model.(kids := model.kids + [c.model]);
      Repr := Repr + c.Repr;
      forall i | 0 <= i < |children| - 1 ensures children[i].Valid() {
        Untouched(children[i]);
      }
    }

    /** A component whose subtree was not written keeps its value. */
    twostate lemma Untouched(c: Component)
      requires old(c.Valid())
      requires unchanged(old(c.Repr))
      ensures c.Valid() && c.model == old(c.model)
    {
    }

    /** `setPos(x, y)`: the component goes to (x, y) and every descendant moves by the same amount. */
    method SetPos(nx: real, ny: real)
      requires Valid()
      modifies Repr`x, Repr`y, Repr`model
      ensures Valid()
      ensures model == MoveTo(old(model), nx, ny)
      decreases Repr, 1
    {
      var dx := nx - x;
      var dy := ny - y;
      ShiftChildren(dx, dy);
      x := nx;
      y := ny;
      model := Shift(model, dx, dy);
    }

    /** The loop of `setPos`: every child moved by (dx, dy). */
    method ShiftChildren(dx: real, dy: real)
      requires Owned() && forall i | 0 <= i < |children| :: children[i].Valid()
      modifies Repr`x, Repr`y, Repr`model
      ensures forall k | 0 <= k < |children| ::
        children[k].Valid() && children[k].model == Shift(old(children[k].model), dx, dy)
      ensures x == old(x) && y == old(y) && model == old(model)
      decreases Repr, 0
    {
      var i := 0;
      while i < |children|
        invariant 0 <= i <= |children|
        invariant forall k | 0 <= k < |children| :: children[k].Valid()
        invariant x == old(x) && y == old(y) && model == old(model)
        invariant forall k | 0 <= k < i :: children[k].model == Shift(old(children[k].model), dx, dy)
        invariant forall k | i <= k < |children| :: children[k].model == old(children[k].model)
      {
        var c := children[i];
        label L:
        c.SetPos(c.x + dx, c.y + dy);
        forall k | 0 <= k < |children| && k != i
          ensures children[k].Valid() && children[k].model == old@L(children[k].model)
        {
          Untouched@L(children[k]);
        }
        i := i + 1;
      }
    }

    /**
     * `addTimestamp(target, b, e)`: true when some component of the subtree
     * has the id `target`; the subtree then holds the stamped value, and is
     * unchanged otherwise.
     */
    method AddTimestamp(target: string, b: real, e: real) returns (found: bool)
      requires Valid()
      modifies Repr`beginTime, Repr`endTime, Repr`model
      ensures Valid()
      ensures found == Stamp(old(model), target, b, e).Some?
      ensures model == if found then Stamp(old(model), target, b, e).value else old(model)
      decreases Repr, 1
    {
      if id == target {
        beginTime := b;
        endTime := e;
        model := model.(begin := b, end := e);
        return true;
      }
      found := StampChildren(model, target, b, e);
      if found {
        ghost var kids := StampKids(model, 0, target, b, e).value;
        beginTime := Min(b, beginTime);
        endTime := Max(b, endTime);
        model := model.(kids := kids, begin := beginTime, end := endTime);
        assert forall k | 0 <= k < |children| :: children[k].model == model.kids[k];
      }
    }

    /** The loop of `addTimestamp`: the children are asked in order until one takes the cue. */
    method StampChildren(ghost n: Node, target: string, b: real, e: real) returns (found: bool)
      requires Owned() && forall i | 0 <= i < |children| :: children[i].Valid()
      requires |n.kids| == |children| && forall k | 0 <= k < |children| :: n.kids[k] == children[k].model
      modifies Repr`beginTime, Repr`endTime, Repr`model
      ensures found == StampKids(n, 0, target, b, e).Some?
      ensures forall k | 0 <= k < |children| :: children[k].Valid()
      ensures forall k | 0 <= k < |children| ::
        children[k].model == if found then StampKids(n, 0, target, b, e).value[k] else n.kids[k]
      ensures beginTime == old(beginTime) && endTime == old(endTime) && model == old(model)
      decreases Repr, 0
    {
      var i := 0;
      while i < |children|
        invariant 0 <= i <= |children|
        invariant StampKids(n, 0, target, b, e) == StampKids(n, i, target, b, e)
        invariant forall k | 0 <= k < |children| :: children[k].Valid() && children[k].model == n.kids[k]
        invariant beginTime == old(beginTime) && endTime == old(endTime) && model == old(model)
      {
        var c := children[i];
        label L:
        found := c.AddTimestamp(target, b, e);
        forall k | 0 <= k < |children| && k != i
          ensures children[k].Valid() && children[k].model == old@L(children[k].model)
        {
          Untouched@L(children[k]);
        }
        if found {
          return;
        }
        i := i + 1;
      }
      return false;
    }

    lemma KidTexts()
      requires Valid()
      ensures forall k :: 0 <= k < |children| ==> children[k].text == model.kids[k].text
    {
      forall k | 0 <= k < |children| ensures children[k].text == model.kids[k].text {
        assert children[k].Valid();
      }
    }

    /** `Line.getWidth()`: the sum of the widths of the children's texts. */
    function Width(measure: string -> real): (w: real)
      reads this, Repr
      requires Valid()
      ensures w == TotalWidth(model.kids, measure)
    {
      KidTexts();
      WidthOfKids(children, model.kids, measure);
      WidthOf(children, measure)
    }

    /** `Line.layout(width)`: each child goes to the line's y, one after the other, centred in `width`. */
    method LayoutLine(width: real, measure: string -> real)
      requires Valid()
      modifies Repr`x, Repr`y, Repr`model
      ensures Valid() && model == PlaceLine(old(model), width, measure)
    {
      var cx := x + (width - Width(measure)) / 2.0;
      PlaceChildren(model, cx, width, measure);
      model := PlaceLine(model, width, measure);
    }

    /** The loop of `Line.layout`: child `k` goes to (`TokenX(l, width, measure, k)`, `y`). */
    method PlaceChildren(ghost l: Node, cx0: real, width: real, measure: string -> real)
      requires Owned() && forall i | 0 <= i < |children| :: children[i].Valid()
      requires |l.kids| == |children| && l.y == y
      requires forall k | 0 <= k < |children| :: l.kids[k] == children[k].model
      requires cx0 == TokenX(l, width, measure, 0)
      modifies Repr`x, Repr`y, Repr`model
      ensures forall k | 0 <= k < |children| ::
        children[k].Valid() && children[k].model == MoveTo(l.kids[k], TokenX(l, width, measure, k), y)
      ensures x == old(x) && y == old(y) && model == old(model)
    {
      var cx := cx0;
      var i := 0;
      while i < |children|
        invariant 0 <= i <= |children|
        invariant forall k | 0 <= k < |children| :: children[k].Valid()
        invariant x == old(x) && y == old(y) && model == old(model)
        invariant i < |children| ==> cx == TokenX(l, width, measure, i)
        invariant forall k | 0 <= k < i :: children[k].model == MoveTo(l.kids[k], TokenX(l, width, measure, k), y)
        invariant forall k | i <= k < |children| :: children[k].model == l.kids[k]
      {
        var c := children[i];
        label L:
        c.SetPos(cx, y);
        forall k | 0 <= k < |children| && k != i
          ensures children[k].Valid() && children[k].model == old@L(children[k].model)
        {
          Untouched@L(children[k]);
        }
        if i + 1 < |children| {
          TokensAbut(l, width, measure, i);
          assert l.kids[i].text == c.text;
        }
        cx := cx + measure(c.text);
        i := i + 1;
      }
    }
  }

  /** The widths of the components' texts, summed. */
  function WidthOf(cs: seq<Component>, measure: string -> real): real
  {
    if cs == [] then 0.0 else WidthOf(cs[..|cs| - 1], measure) + measure(cs[|cs| - 1].text)
  }

  /** Components with the texts of `kids` are as wide as `kids`. */
  lemma {:induction false} WidthOfKids(cs: seq<Component>, kids: seq<Node>, measure: string -> real)
    requires |cs| == |kids| && forall k :: 0 <= k < |cs| ==> cs[k].text == kids[k].text
    ensures WidthOf(cs, measure) == TotalWidth(kids, measure)
    decreases |cs|
  {
    if cs != [] {
      WidthOfKids(cs[..|cs| - 1], kids[..|kids| - 1], measure);
    }
  }
}
