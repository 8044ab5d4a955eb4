/**
 * Amplitude analysis of adjust_timing.py: the frame bounds of a clip cut
 * from a waveform (`AudioLibrary.get_clip`) and the search for the first
 * samples at which the running amplitude of a clip reaches given fractions
 * of its total (`get_high_amp_range`). Loading audio and taking absolute
 * values are not part of the model: a waveform is the sequence of its
 * (already absolute) sample amplitudes.
 */
module Amplitude {
  import opened Base
  import opened Numbers

  /* ---------- get_clip ---------- */

  /**
   * `get_clip`: the samples from `floor(begin * sr)` up to, not including,
   * `floor(end * sr)`; the five assertions of the source, checked in its
   * order, fail with `AssertionError`.
   */
  function GetClip(waveform: seq<real>, sr: nat, begin: real, end: real): (r: Result<seq<real>>)
    ensures r.Ok? <==>
      var bf, ef := Floor(begin * sr as real), Floor(end * sr as real);
      0 < bf <= ef < |waveform|
    ensures r.Ok? ==>
      var bf, ef := Floor(begin * sr as real), Floor(end * sr as real);
      |r.value| == ef - bf && forall k :: 0 <= k < |r.value| ==> r.value[k] == waveform[bf + k]
    ensures r.Err? ==> r.error.AssertionError?
  {
    var bf := Floor(begin * sr as real);
    var ef := Floor(end * sr as real);
    if !(bf > 0) then Err(AssertionError("begin_frame > 0"))
    else if !(bf < |waveform|) then Err(AssertionError("begin_frame < waveform.shape[0]"))
    else if !(ef > 0) then Err(AssertionError("end_frame > 0"))
    else if !(ef < |waveform|) then Err(AssertionError("end_frame < waveform.shape[0]"))
    else if !(bf <= ef) then Err(AssertionError("begin_frame <= end_frame"))
    else Ok(waveform[bf..ef])
  }

  /* ---------- sorted(percentages) ---------- */

  predicate Ascending(s: seq<real>)
  {
    forall i, j :: 0 <= i < j < |s| ==> s[i] <= s[j]
  }

  function Insert(x: real, s: seq<real>): seq<real>
  {
    if s == [] || x <= s[0] then [x] + s else [s[0]] + Insert(x, s[1..])
  }

  /** Python's `sorted` on a list of floats. */
  function Sort(s: seq<real>): seq<real>
  {
    if s == [] then [] else Insert(s[0], Sort(s[1..]))
  }

  lemma {:induction false} InsertElements(x: real, s: seq<real>)
    ensures |Insert(x, s)| == |s| + 1 && multiset(Insert(x, s)) == multiset(s) + multiset{x}
    ensures forall y :: y in Insert(x, s) <==> y == x || y in s
    decreases |s|
  {
    if s != [] && x > s[0] {
      InsertElements(x, s[1..]);
      assert s == [s[0]] + s[1..];
    }
  }

  lemma {:induction false} InsertSorted(x: real, s: seq<real>)
    requires Ascending(s)
    ensures Ascending(Insert(x, s))
    decreases |s|
  {
    if s != [] && x > s[0] {
      var t := Insert(x, s[1..]);
      InsertSorted(x, s[1..]);
      InsertElements(x, s[1..]);
      forall k | 0 <= k < |t| ensures s[0] <= t[k] {
        assert t[k] in t;
      }
      assert Insert(x, s) == [s[0]] + t;
    }
  }

  /** `sorted(percentages)` is ascending and holds the same values, each as often. */
  lemma {:induction false} SortSorted(s: seq<real>)
    ensures Ascending(Sort(s)) && multiset(Sort(s)) == multiset(s)
    decreases |s|
  {
    if s != [] {
      SortSorted(s[1..]);
      InsertSorted(s[0], Sort(s[1..]));
      InsertElements(s[0], Sort(s[1..]));
      assert s == [s[0]] + s[1..];
    }
  }

  /* ---------- get_high_amp_range ---------- */

  /** `np.sum`: the total of the amplitudes. */
  function Sum(s: seq<real>): real
  {
    if s == [] then 0.0 else Sum(s[..|s| - 1]) + s[|s| - 1]
  }

  /**
   * `acc / total >= p` on floats: a zero total makes the ratio infinite,
   * with the sign of `acc`, or NaN when `acc` is zero, and NaN compares
   * false.
   */
  predicate Reaches(acc: real, total: real, p: real)
  {
    if total != 0.0 then acc / total >= p else acc > 0.0
  }

  /** The running sum up to and including sample `j` reaches the fraction `p` of the total. */
  predicate Hits(clip: seq<real>, total: real, j: nat, p: real)
    requires j < |clip|
  {
    Reaches(Sum(clip[..j + 1]), total, p)
  }

  /** With amplitudes that are never negative, the running sum never falls. */
  lemma {:induction false} SumGrows(clip: seq<real>, j: nat, k: nat)
    requires j <= k <= |clip| && forall i :: 0 <= i < |clip| ==> clip[i] >= 0.0
    ensures Sum(clip[..j]) <= Sum(clip[..k])
    decreases k - j
  {
    if j < k {
      SumGrows(clip, j, k - 1);
      assert clip[..k][..k - 1] == clip[..k - 1];
    }
  }

  /**
   * With amplitudes that are never negative and a positive total, a
   * threshold the running share reaches at sample `j` stays reached at every
   * later sample, and a threshold of at most 1.0 is reached by the last
   * sample at the latest.
   */
  lemma HitsStay(clip: seq<real>, j: nat, k: nat, p: real)
    requires j <= k < |clip| && forall i :: 0 <= i < |clip| ==> clip[i] >= 0.0
    requires Sum(clip) > 0.0
    ensures Hits(clip, Sum(clip), j, p) ==> Hits(clip, Sum(clip), k, p)
    ensures p <= 1.0 ==> Hits(clip, Sum(clip), |clip| - 1, p)
  {
    var total := Sum(clip);
    if Hits(clip, total, j, p) {
      SumGrows(clip, j + 1, k + 1);
      ShareGrows(Sum(clip[..j + 1]), Sum(clip[..k + 1]), total);
    }
    if p <= 1.0 {
      assert clip[..|clip|] == clip;
      assert total / total == 1.0;
    }
  }

  lemma ShareGrows(a: real, b: real, total: real)
    requires a <= b && total > 0.0
    ensures a / total <= b / total
  {
    assert b / total - a / total == (b - a) / total;
  }

  /** Where the search for threshold `k` starts: just after the sample found for threshold `k - 1`. */
  function From(r: seq<nat>, k: nat): nat
    requires k <= |r|
  {
    if k == 0 then 0 else r[k - 1] + 1
  }

  /**
   * `r` is the outcome of scanning the first `n` samples against the
   * ascending thresholds `s`: the indices rise strictly, `r[k]` is the first
   * sample after `r[k - 1]` at which the running sum reaches threshold `k`,
   * and the next threshold, if any, is reached nowhere after the last sample
   * found.
   */
  ghost predicate Scanned(clip: seq<real>, total: real, s: seq<real>, r: seq<nat>, n: nat)
    requires n <= |clip|
  {
    |r| <= |s| &&
    (forall i, j :: 0 <= i < j < |r| ==> r[i] < r[j]) &&
    (forall k :: 0 <= k < |r| ==> r[k] < n && Hits(clip, total, r[k], s[k])) &&
    (forall k, j :: 0 <= k < |r| && From(r, k) <= j < r[k] ==> !Hits(clip, total, j, s[k])) &&
    (|r| < |s| ==> forall j :: From(r, |r|) <= j < n ==> !Hits(clip, total, j, s[|r|]))
  }

  /** The scan has one outcome: two results that both fit `Scanned` are the same. */
  lemma {:induction false} ScannedUnique(clip: seq<real>, total: real, s: seq<real>, r1: seq<nat>, r2: seq<nat>, n: nat)
    requires n <= |clip| && Scanned(clip, total, s, r1, n) && Scanned(clip, total, s, r2, n)
    ensures r1 == r2
  {
    var m := if |r1| <= |r2| then |r1| else |r2|;
    var k := 0;
    while k < m
      invariant k <= m && forall q :: 0 <= q < k ==> r1[q] == r2[q]
    {
      ScannedAgreeAt(clip, total, s, r1, r2, n, k);
      k := k + 1;
    }
    assert From(r1, m) == From(r2, m);
    if |r1| < |r2| {
      assert false;
    } else if |r2| < |r1| {
      Unreached(clip, total, s, r2, n, r1[m]);
      assert false;
    }
  }

  /** Two scans that agree before threshold `k` find the same sample for it. */
  lemma ScannedAgreeAt(clip: seq<real>, total: real, s: seq<real>, r1: seq<nat>, r2: seq<nat>, n: nat, k: nat)
    requires n <= |clip| && Scanned(clip, total, s, r1, n) && Scanned(clip, total, s, r2, n)
    requires k < |r1| && k < |r2| && forall q :: 0 <= q < k ==> r1[q] == r2[q]
    ensures r1[k] == r2[k]
  {
    assert From(r1, k) == From(r2, k);
    if r1[k] < r2[k] {
      assert false;
    } else if r2[k] < r1[k] {
      assert false;
    }
  }

  /** After the last sample found, the next threshold is reached nowhere in the scanned samples. */
  lemma Unreached(clip: seq<real>, total: real, s: seq<real>, r: seq<nat>, n: nat, j: nat)
    requires n <= |clip| && Scanned(clip, total, s, r, n)
    requires |r| < |s| && From(r, |r|) <= j < n
    ensures !Hits(clip, total, j, s[|r|])
  {
  }

  /** Every percentage is at most 1.0 (the first `assert` loop). */
  method CheckPercentages(s: seq<real>) returns (r: Result<()>)
    ensures r.Ok? <==> forall k :: 0 <= k < |s| ==> s[k] <= 1.0
    ensures r.Err? ==> r.error == AssertionError("percentage <= 1.0")
  {
    var i := 0;
    while i < |s|
      invariant 0 <= i <= |s| && forall k :: 0 <= k < i ==> s[k] <= 1.0
    {
      if !(s[i] <= 1.0) {
        return Err(AssertionError("percentage <= 1.0"));
      }
      i := i + 1;
    }
    return Ok(());
  }

  /**
   * `get_high_amp_range(clip, percentages)`: the percentages are sorted and
   * checked, then the clip is scanned once, with a running sum, for the
   * first sample reaching each threshold in turn. The scan returns as soon
   * as every threshold is matched. With no percentage at all, a non-empty
   * clip fails at the first comparison (`percentages[0]`); a clip that ends
   * before every threshold is matched fails the closing assertion.
   */
  method HighAmpRange(clip: seq<real>, percentages: seq<real>) returns (r: Result<seq<nat>>)
    ensures (exists k :: 0 <= k < |percentages| && percentages[k] > 1.0) ==>
      r == Err(AssertionError("percentage <= 1.0"))
    ensures (forall k :: 0 <= k < |percentages| ==> percentages[k] <= 1.0) && percentages == [] ==>
      r == if clip == [] then Ok([]) else Err(IndexError)
    ensures (forall k :: 0 <= k < |percentages| ==> percentages[k] <= 1.0) && percentages != [] ==>
      r.Ok? || (r == Err(AssertionError("len(percentages) == 0")) &&
                exists p :: Scanned(clip, Sum(clip), Sort(percentages), p, |clip|) && |p| < |percentages|)
    ensures r.Ok? ==>
      |r.value| == |percentages| && Scanned(clip, Sum(clip), Sort(percentages), r.value, |clip|)
  {
    var s := Sort(percentages);
    SortSame(percentages);
    var ok := CheckPercentages(s);
    if ok.Err? {
      assert !forall k :: 0 <= k < |percentages| ==> percentages[k] <= 1.0 by {
        var j :| 0 <= j < |s| && s[j] > 1.0;
        assert s[j] in percentages;
      }
      return Err(ok.error);
    }
    assert forall k :: 0 <= k < |percentages| ==> percentages[k] <= 1.0 by {
      forall k | 0 <= k < |percentages| ensures percentages[k] <= 1.0 {
        assert percentages[k] in percentages;
        var j :| 0 <= j < |s| && s[j] == percentages[k];
      }
    }
    r := Scan(clip, Sum(clip), s);
  }

  /** The scanning loop of `get_high_amp_range` over the sorted thresholds `s`. */
  method Scan(clip: seq<real>, total: real, s: seq<real>) returns (r: Result<seq<nat>>)
    ensures s == [] ==> r == if clip == [] then Ok([]) else Err(IndexError)
    ensures s != [] ==>
      r.Ok? || (r == Err(AssertionError("len(percentages) == 0")) &&
                exists p :: Scanned(clip, total, s, p, |clip|) && |p| < |s|)
    ensures r.Ok? ==> |r.value| == |s| && Scanned(clip, total, s, r.value, |clip|)
  {
    var acc := 0.0;
    var results: seq<nat> := [];
    var rest := s;
    var i := 0;
    while i < |clip|
      invariant 0 <= i <= |clip| && acc == Sum(clip[..i])
      invariant |results| <= |s| && rest == s[|results|..]
      invariant |results| < |s| || s == []
      invariant Scanned(clip, total, s, results, i)
      invariant s == [] ==> i == 0
    {
      assert clip[..i + 1][..i] == clip[..i];
      acc := acc + clip[i];
      if rest == [] {
        return Err(IndexError);
      }
      if Reaches(acc, total, rest[0]) {
        ScanFound(clip, total, s, results, i);
        results := results + [i];
        rest := rest[1..];
        if rest == [] {
          ScanDone(clip, total, s, results, i + 1, |clip|);
          return Ok(results);
        }
      } else {
        ScanPassed(clip, total, s, results, i);
      }
      i := i + 1;
    }
    if rest != [] {
      return Err(AssertionError("len(percentages) == 0"));
    }
    return Ok(results);
  }

  /** Sorting keeps the number of percentages and which values occur. */
  lemma SortSame(s: seq<real>)
    ensures |Sort(s)| == |s|
    ensures forall x :: x in Sort(s) <==> x in s
  {
    SortSorted(s);
    assert |multiset(Sort(s))| == |multiset(s)|;
    assert forall x :: x in s <==> x in multiset(s);
  }

  /** Matching the next threshold at sample `i` extends the scan by `i`. */
  lemma ScanFound(clip: seq<real>, total: real, s: seq<real>, results: seq<nat>, i: nat)
    requires i < |clip| && |results| < |s| && Scanned(clip, total, s, results, i)
    requires Hits(clip, total, i, s[|results|])
    ensures Scanned(clip, total, s, results + [i], i + 1)
  {
    var r := results + [i];
    assert forall k :: 0 <= k < |results| ==> r[k] == results[k];
    assert From(r, |results|) == From(results, |results|);
    forall k | 0 <= k < |results| ensures From(r, k) == From(results, k) {
    }
  }

  /** Missing the next threshold at sample `i` extends the scan without a result. */
  lemma ScanPassed(clip: seq<real>, total: real, s: seq<real>, results: seq<nat>, i: nat)
    requires i < |clip| && Scanned(clip, total, s, results, i)
    requires |results| < |s| ==> !Hits(clip, total, i, s[|results|])
    ensures Scanned(clip, total, s, results, i + 1)
  {
  }

  /** Once every threshold is matched, scanning further samples changes nothing. */
  lemma ScanDone(clip: seq<real>, total: real, s: seq<real>, results: seq<nat>, i: nat, n: nat)
    requires i <= n <= |clip| && Scanned(clip, total, s, results, i) && |results| == |s|
    ensures Scanned(clip, total, s, results, n)
  {
  }
}
