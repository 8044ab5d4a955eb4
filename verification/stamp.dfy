/**
 * `addTimestamp`: a cue (begin, end) is written on the first component, in
 * document order, whose id is the target; every component on the way down
 * to it widens its own times with the cue's begin.
 */
module Stamping {
  import opened Base
  import opened Layout

  /**
   * The tree after `addTimestamp(target, b, e)`, or `None` when no
   * component has the id `target` (the method then returns a falsy value
   * and changes nothing).
   */
  function Stamp(n: Node, target: string, b: real, e: real): (r: Option<Node>)
    ensures r.Some? ==> |r.value.kids| == |n.kids|
    decreases n, |n.kids| + 1
  {
    if n.id == target then Some(n.(begin := b, end := e))
    else
      match StampKids(n, 0, target, b, e)
      case Some(kids) => Some(n.(kids := kids, begin := Min(b, n.begin), end := Max(b, n.end)))
      case None => None
  }

  /** The children from `i` on tried in order; the first that takes the cue stops the search. */
  function StampKids(n: Node, i: nat, target: string, b: real, e: real): (r: Option<seq<Node>>)
    requires i <= |n.kids|
    ensures r.Some? ==> |r.value| == |n.kids|
    decreases n, |n.kids| - i
  {
    if i == |n.kids| then None
    else
      match Stamp(n.kids[i], target, b, e)
      case Some(k) => Some(n.kids[i := k])
      case None => StampKids(n, i + 1, target, b, e)
  }

  /** Some component of the tree has the id `target`. */
  predicate HasId(n: Node, target: string)
  {
    n.id == target || exists k :: 0 <= k < |n.kids| && HasId(n.kids[k], target)
  }

  lemma {:induction false} StampFound(n: Node, target: string, b: real, e: real)
    ensures Stamp(n, target, b, e).Some? <==> HasId(n, target)
    decreases n, |n.kids| + 1
  {
    if n.id != target {
      StampKidsFound(n, 0, target, b, e);
    }
  }

  lemma {:induction false} StampKidsFound(n: Node, i: nat, target: string, b: real, e: real)
    requires i <= |n.kids|
    ensures StampKids(n, i, target, b, e).Some? <==> exists k :: i <= k < |n.kids| && HasId(n.kids[k], target)
    decreases n, |n.kids| - i
  {
    if i < |n.kids| {
      StampFound(n.kids[i], target, b, e);
      StampKidsFound(n, i + 1, target, b, e);
      if HasId(n.kids[i], target) {
      } else {
        assert (exists k :: i <= k < |n.kids| && HasId(n.kids[k], target)) <==>
               (exists k :: i + 1 <= k < |n.kids| && HasId(n.kids[k], target)) by {
          forall k | i <= k < |n.kids| && HasId(n.kids[k], target) ensures i + 1 <= k { }
        }
      }
    }
  }

  /** Everything but the cue times. */
  predicate SameShape(a: Node, c: Node)
  {
    a.kind == c.kind && a.id == c.id && a.text == c.text && a.content == c.content &&
    a.x == c.x && a.y == c.y && |a.kids| == |c.kids| &&
    forall k :: 0 <= k < |a.kids| ==> SameShape(a.kids[k], c.kids[k])
  }

  lemma {:induction false} SameShapeRefl(n: Node)
    ensures SameShape(n, n)
    decreases n
  {
    forall k | 0 <= k < |n.kids| ensures SameShape(n.kids[k], n.kids[k]) {
      SameShapeRefl(n.kids[k]);
    }
  }

  lemma {:induction false} StampShape(n: Node, target: string, b: real, e: real)
    requires Stamp(n, target, b, e).Some?
    ensures SameShape(n, Stamp(n, target, b, e).value)
    decreases n, |n.kids| + 1
  {
    if n.id == target {
      SameShapeRefl(n.(begin := b, end := e));
    } else {
      StampKidsShape(n, 0, target, b, e);
    }
  }

  lemma {:induction false} StampKidsShape(n: Node, i: nat, target: string, b: real, e: real)
    requires i <= |n.kids| && StampKids(n, i, target, b, e).Some?
    ensures var ks := StampKids(n, i, target, b, e).value;
      |ks| == |n.kids| && (forall k :: 0 <= k < i ==> ks[k] == n.kids[k]) &&
      forall k :: 0 <= k < |ks| ==> SameShape(n.kids[k], ks[k])
    decreases n, |n.kids| - i
  {
    var ks := StampKids(n, i, target, b, e).value;
    if Stamp(n.kids[i], target, b, e).Some? {
      StampShape(n.kids[i], target, b, e);
      forall k | 0 <= k < |ks| && k != i ensures SameShape(n.kids[k], ks[k]) {
        SameShapeRefl(n.kids[k]);
      }
    } else {
      StampKidsShape(n, i + 1, target, b, e);
    }
  }

  /** Stamping changes only cue times: the ids, texts, positions and the shape of the tree stay. */
  lemma StampKeepsShape(n: Node, target: string, b: real, e: real)
    requires HasId(n, target)
    ensures Stamp(n, target, b, e).Some? && SameShape(n, Stamp(n, target, b, e).value)
  {
    StampFound(n, target, b, e);
    StampShape(n, target, b, e);
  }

  /** Trees of the same shape hold the same ids. */
  lemma {:induction false} SameShapeIds(a: Node, c: Node, target: string)
    requires SameShape(a, c)
    ensures HasId(a, target) <==> HasId(c, target)
    decreases a
  {
    forall k | 0 <= k < |a.kids| ensures HasId(a.kids[k], target) <==> HasId(c.kids[k], target) {
      SameShapeIds(a.kids[k], c.kids[k], target);
    }
  }

  /** The same cue stamped twice leaves the tree as stamping it once did. */
  lemma {:induction false} StampIdempotent(n: Node, target: string, b: real, e: real)
    requires Stamp(n, target, b, e).Some?
    ensures Stamp(Stamp(n, target, b, e).value, target, b, e) == Stamp(n, target, b, e)
    decreases n, |n.kids| + 1
  {
    if n.id != target {
      var ks := StampKids(n, 0, target, b, e).value;
      var r := Stamp(n, target, b, e).value;
      StampKidsIdempotent(n, 0, target, b, e);
      assert StampKids(r, 0, target, b, e) == StampKids(n.(kids := ks), 0, target, b, e) by {
        StampKidsOnKids(r, n.(kids := ks), 0, target, b, e);
      }
    }
  }

  /** `StampKids` looks only at the children. */
  lemma {:induction false} StampKidsOnKids(a: Node, c: Node, i: nat, target: string, b: real, e: real)
    requires a.kids == c.kids && i <= |a.kids|
    ensures StampKids(a, i, target, b, e) == StampKids(c, i, target, b, e)
    decreases |a.kids| - i
  {
    if i < |a.kids| {
      StampKidsOnKids(a, c, i + 1, target, b, e);
    }
  }

  lemma {:induction false} StampKidsIdempotent(n: Node, i: nat, target: string, b: real, e: real)
    requires i <= |n.kids| && StampKids(n, i, target, b, e).Some?
    ensures var ks := StampKids(n, i, target, b, e).value;
      StampKids(n.(kids := ks), i, target, b, e) == Some(ks)
    decreases n, |n.kids| - i
  {
    var ks := StampKids(n, i, target, b, e).value;
    var m := n.(kids := ks);
    if Stamp(n.kids[i], target, b, e).Some? {
      StampIdempotent(n.kids[i], target, b, e);
      assert ks[i] == Stamp(n.kids[i], target, b, e).value;
      assert ks[i := ks[i]] == ks;
    } else {
      StampKidsShape(n, i + 1, target, b, e);
      assert ks[i] == n.kids[i];
      StampKidsIdempotent(n, i + 1, target, b, e);
    }
  }

  /**
   * What stamping did to `n`, giving `r`, along the path `p`: the node at
   * `p` held the target and now holds the cue and nothing else new; every
   * node above it widened its times with the cue's begin, taking the smaller
   * begin and the larger end (the end of the cue is not used there); every
   * node off the path, and every node below the target, is as it was.
   */
  ghost predicate StampedAlong(n: Node, r: Node, p: seq<nat>, target: string, b: real, e: real)
  {
    Sub(n, p).Some? && Sub(r, p).Some? && Sub(n, p).value.id == target &&
    Sub(r, p).value == Sub(n, p).value.(begin := b, end := e) &&
    (forall q :: q < p ==>
       Sub(n, q).Some? && Sub(r, q).Some? &&
       Sub(r, q).value.begin == Min(b, Sub(n, q).value.begin) &&
       Sub(r, q).value.end == Max(b, Sub(n, q).value.end)) &&
    (forall q :: !(q <= p) ==> Sub(r, q) == Sub(n, q))
  }

  /** The cue lands on a component with the target id, along a path stamping describes exactly. */
  lemma {:induction false} StampPath(n: Node, target: string, b: real, e: real) returns (p: seq<nat>)
    requires Stamp(n, target, b, e).Some?
    ensures StampedAlong(n, Stamp(n, target, b, e).value, p, target, b, e)
    decreases n, |n.kids| + 1
  {
    var r := Stamp(n, target, b, e).value;
    if n.id == target {
      p := [];
      forall q | !(q <= p) ensures Sub(r, q) == Sub(n, q) {
        assert q != [] && r.kids == n.kids;
      }
    } else {
      var i, p' := StampKidsPath(n, 0, target, b, e);
      var c, rc := n.kids[i], Stamp(n.kids[i], target, b, e).value;
      p := [i] + p';
      assert r.kids == n.kids[i := rc] && r.begin == Min(b, n.begin) && r.end == Max(b, n.end);
      assert p[0] == i && p[1..] == p';
      assert Sub(n, p) == Sub(c, p') && Sub(r, p) == Sub(rc, p');
      forall q | q < p
        ensures Sub(n, q).Some? && Sub(r, q).Some?
        ensures Sub(r, q).value.begin == Min(b, Sub(n, q).value.begin)
        ensures Sub(r, q).value.end == Max(b, Sub(n, q).value.end)
      {
        if q != [] {
          assert q[0] == i && q[1..] < p';
          assert Sub(n, q) == Sub(c, q[1..]) && Sub(r, q) == Sub(rc, q[1..]);
        }
      }
      forall q | !(q <= p) ensures Sub(r, q) == Sub(n, q) {
        assert q != [];
        if q[0] == i {
          assert !(q[1..] <= p');
          assert Sub(n, q) == Sub(c, q[1..]) && Sub(r, q) == Sub(rc, q[1..]);
        }
      }
    }
  }

  lemma {:induction false} StampKidsPath(n: Node, j: nat, target: string, b: real, e: real) returns (i: nat, p: seq<nat>)
    requires j <= |n.kids| && StampKids(n, j, target, b, e).Some?
    ensures j <= i < |n.kids| && Stamp(n.kids[i], target, b, e).Some?
    ensures StampKids(n, j, target, b, e).value == n.kids[i := Stamp(n.kids[i], target, b, e).value]
    ensures StampedAlong(n.kids[i], Stamp(n.kids[i], target, b, e).value, p, target, b, e)
    decreases n, |n.kids| - j
  {
    if Stamp(n.kids[j], target, b, e).Some? {
      i := j;
      p := StampPath(n.kids[j], target, b, e);
    } else {
      i, p := StampKidsPath(n, j + 1, target, b, e);
    }
  }

  /** The cue goes to the first matching component only: a later match keeps its times. */
  lemma FirstMatchOnly(n: Node, target: string, b: real, e: real, i: nat, j: nat)
    requires n.id != target && i < j < |n.kids| && HasId(n.kids[i], target)
    ensures Stamp(n, target, b, e).Some? && Stamp(n, target, b, e).value.kids[j] == n.kids[j]
  {
    StampFound(n.kids[i], target, b, e);
    StampKidsFirst(n, 0, i, target, b, e);
  }

  /** The child the cue goes to comes no later than any child holding the target. */
  lemma {:induction false} StampKidsFirst(n: Node, j: nat, i: nat, target: string, b: real, e: real)
    requires j <= i < |n.kids| && Stamp(n.kids[i], target, b, e).Some?
    ensures StampKids(n, j, target, b, e).Some?
    ensures forall k :: i < k < |n.kids| ==> StampKids(n, j, target, b, e).value[k] == n.kids[k]
    decreases i - j
  {
    if Stamp(n.kids[j], target, b, e).None? {
      StampKidsFirst(n, j + 1, i, target, b, e);
    }
  }
}
