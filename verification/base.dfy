/**
 * Shared vocabulary of the model: optional values, results that carry the
 * Python exception a failing operation raises, and the few string operations
 * of the Python standard library that the modelled code relies on
 * (`str.endswith`, `str.split` with a one-character separator, `list[-1]`).
 */
module Base {

  datatype Option<+T> = None | Some(value: T) {
    predicate IsFailure() { None? }
    function PropagateFailure<U>(): Option<U> requires None? { None }
    function Extract(): T requires Some? { value }
  }

  /** The exceptions the modelled Python code can raise. */
  datatype PyError =
    | ValueError(text: string)              // float() of a string that is not a number
    | KeyError(key: string)                 // a missing dictionary key or XML attribute
    | ZeroDivisionError                     // a float division by zero
    | AssertionError(what: string)          // a failing `assert`
    | IncompatibleValues(a: string, b: string)  // `raise Exception("Cannot interpolate ...")`
    | IndexError                            // indexing an empty list
    | TypeError(what: string)               // e.g. normalising `None` as text
    | NameError(name: string)               // a variable read before any assignment

  datatype Result<+T> = Ok(value: T) | Err(error: PyError) {
    predicate IsFailure() { Err? }
    function PropagateFailure<U>(): Result<U> requires Err? { Err(error) }
    function Extract(): T requires Ok? { value }
  }

  /** Python `s.endswith(suffix)`. */
  predicate EndsWith(s: string, suffix: string)
  {
    |suffix| <= |s| && s[|s| - |suffix|..] == suffix
  }

  /** The index of the first occurrence of `c` in `s`. */
  function IndexOf(s: string, c: char): (i: nat)
    requires c in s
    ensures i < |s| && s[i] == c && c !in s[..i]
  {
    if s[0] == c then 0 else 1 + IndexOf(s[1..], c)
  }

  /** Python `s.split(c)` for a one-character separator `c`. */
  function SplitOn(s: string, c: char): (parts: seq<string>)
    ensures |parts| >= 1
    ensures |parts| >= 2 <==> c in s
    ensures forall k :: 0 <= k < |parts| ==> c !in parts[k]
    decreases |s|
  {
    if c !in s then [s]
    else
      var i := IndexOf(s, c);
      [s[..i]] + SplitOn(s[i + 1..], c)
  }

  /** Python `c.join(parts)`. */
  function Join(parts: seq<string>, c: char): string
    requires |parts| >= 1
  {
    if |parts| == 1 then parts[0] else parts[0] + [c] + Join(parts[1..], c)
  }

  /** Joining the pieces of a split gives back the string. */
  lemma {:induction false} JoinSplitOn(s: string, c: char)
    ensures Join(SplitOn(s, c), c) == s
    decreases |s|
  {
    if c in s {
      var i := IndexOf(s, c);
      JoinSplitOn(s[i + 1..], c);
      assert s == s[..i] + [c] + s[i + 1..];
    }
  }

  /** Splitting `a + [c] + b`, where `a` holds no separator, gives `a` followed by the pieces of `b`. */
  lemma SplitOnCons(a: string, c: char, b: string)
    requires c !in a
    ensures SplitOn(a + [c] + b, c) == [a] + SplitOn(b, c)
  {
    var s := a + [c] + b;
    assert c in s by { assert s[|a|] == c; }
    var i := IndexOf(s, c);
    assert s[..|a|] == a && s[|a|] == c;
    assert s[..i] == a && s[i + 1..] == b;
  }

  /** Python `lst[-1]`. */
  function Last<T>(xs: seq<T>): T
    requires |xs| >= 1
  {
    xs[|xs| - 1]
  }

  lemma LastAppend<T>(xs: seq<T>, ys: seq<T>)
    requires |ys| >= 1
    ensures Last(xs + ys) == Last(ys)
  {
  }

  /** A property holds of every element exactly when it holds of all but the last and of the last. */
  lemma AllSnoc<T>(xs: seq<T>, init: seq<T>, p: T -> bool)
    requires xs != [] && init == xs[..|xs| - 1]
    ensures (forall k :: 0 <= k < |xs| ==> p(xs[k])) <==> (forall k :: 0 <= k < |init| ==> p(init[k])) && p(Last(xs))
  {
    assert forall k :: 0 <= k < |init| ==> init[k] == xs[k];
  }

  /** `f` applied to each element in turn; the first failure stops the loop and is the result. */
  function Traverse<A, B>(xs: seq<A>, f: A -> Result<B>): Result<seq<B>>
    decreases |xs|
  {
    if xs == [] then Ok([])
    else
      var init :- Traverse(xs[..|xs| - 1], f);
      var y :- f(Last(xs));
      Ok(init + [y])
  }

  /** The loop runs to the end exactly when every element succeeds. */
  lemma {:induction false} TraverseOk<A, B>(xs: seq<A>, f: A -> Result<B>)
    ensures Traverse(xs, f).Ok? <==> forall k :: 0 <= k < |xs| ==> f(xs[k]).Ok?
    decreases |xs|
  {
    if xs != [] {
      var init := xs[..|xs| - 1];
      TraverseOk(init, f);
      AllSnoc(xs, init, (x: A) => f(x).Ok?);
    }
  }

  /** A loop that ran to the end gives one result per element, in order. */
  lemma {:induction false} TraverseAt<A, B>(xs: seq<A>, f: A -> Result<B>, k: nat)
    requires Traverse(xs, f).Ok? && k < |xs|
    ensures |Traverse(xs, f).value| == |xs|
    ensures f(xs[k]) == Ok(Traverse(xs, f).value[k])
    decreases |xs|
  {
    var n := |xs| - 1;
    var init := xs[..n];
    if k < n {
      TraverseAt(init, f, k);
      assert xs[k] == init[k];
    } else if n > 0 {
      TraverseAt(init, f, 0);
    }
  }

  /** One more element: its failure ends the loop, its result is appended otherwise. */
  lemma TraverseStep<A, B>(xs: seq<A>, f: A -> Result<B>, i: nat)
    requires i < |xs| && Traverse(xs[..i], f).Ok?
    ensures f(xs[i]).Err? ==> Traverse(xs[..i + 1], f) == Err(f(xs[i]).error)
    ensures f(xs[i]).Ok? ==> Traverse(xs[..i + 1], f) == Ok(Traverse(xs[..i], f).value + [f(xs[i]).value])
  {
    assert xs[..i + 1][..i] == xs[..i];
  }

  /** A failure ends the loop: the elements after it are never looked at. */
  lemma {:induction false} TraverseStop<A, B>(xs: seq<A>, f: A -> Result<B>, i: nat)
    requires i <= |xs| && Traverse(xs[..i], f).Err?
    ensures Traverse(xs, f) == Traverse(xs[..i], f)
    decreases |xs| - i
  {
    if i < |xs| {
      assert xs[..i + 1][..i] == xs[..i];
      TraverseStop(xs, f, i + 1);
    } else {
      assert xs[..i] == xs;
    }
  }

  function Min(a: real, b: real): (m: real)
    ensures m <= a && m <= b && (m == a || m == b)
  {
    if a <= b then a else b
  }

  function Max(a: real, b: real): (m: real)
    ensures m >= a && m >= b && (m == a || m == b)
  {
    if a >= b then a else b
  }
}
