/**
 * The sliding-window shot-boundary classifier (find_obj_my.py, the loop
 * after the capture loop).  Each score is the match ratio of one pair of
 * consecutive frames.  From index K-1 on, the score is compared with the
 * average of the last K scores (the current one included); the absolute
 * difference, the valuation, drives a three-state machine that opens and
 * closes CUT and GRADUAL intervals, kept in two lists of [start, end] pairs
 * whose end stays `None` while the interval is open.
 *
 * `DetectPrefix` is the specification: it recomputes each window average
 * from the scores themselves.  `Classify` is the source's loop, with its
 * running sum and its in-place updates of the last interval.
 */
module ShotBoundary {
  import opened Wrappers

  const K: nat := 5
  const UpperDelta: real := 0.3
  const LowerDelta: real := 0.28

  /** The source's `boundary_type`, 'CUT' or 'GRADUAL'. */
  datatype Kind = Cut | Gradual

  /** One `[start, end]` entry of a boundary list; `end` is `None` while open. */
  datatype Interval = Interval(start: nat, end: Option<nat>)

  /**
   * The classifier's decision state: `begin`, `boundary_type` and the two
   * boundary lists.  `boundaryType` is never reset when an interval closes;
   * only `begin` says whether one is open.
   */
  datatype Detection = Detection(begin: bool, boundaryType: Option<Kind>,
                                 cuts: seq<Interval>, graduals: seq<Interval>)

  const Initial: Detection := Detection(false, None, [], [])

  /** The three states of the machine, read off `begin` and `boundaryType`. */
  datatype Phase = Idle | OpenCut | OpenGradual

  function PhaseOf(d: Detection): Phase {
    if !d.begin then Idle else if d.boundaryType == Some(Cut) then OpenCut else OpenGradual
  }

  function Abs(x: real): real {
    if x < 0.0 then -x else x
  }

  /** The sum of `s[lo..hi]`. */
  function SumRange(s: seq<real>, lo: nat, hi: nat): real
    requires lo <= hi <= |s|
    decreases hi - lo
  {
    if lo == hi then 0.0 else SumRange(s, lo, hi - 1) + s[hi - 1]
  }

  /** Moving the window's lower end up by one subtracts the score that leaves it. */
  lemma {:induction false} SumRangeDropFirst(s: seq<real>, lo: nat, hi: nat)
    requires lo < hi <= |s|
    ensures SumRange(s, lo + 1, hi) == SumRange(s, lo, hi) - s[lo]
    decreases hi - lo
  {
    if lo + 1 < hi {
      SumRangeDropFirst(s, lo, hi - 1);
    }
  }

  /** A window sum reads only the scores inside the window. */
  lemma {:induction false} SumRangePrefix(s: seq<real>, t: seq<real>, lo: nat, hi: nat)
    requires lo <= hi <= |s| && hi <= |t| && s[..hi] == t[..hi]
    ensures SumRange(s, lo, hi) == SumRange(t, lo, hi)
    decreases hi - lo
  {
    if lo < hi {
      assert s[hi - 1] == s[..hi][hi - 1] == t[..hi][hi - 1] == t[hi - 1];
      assert s[..hi - 1] == s[..hi][..hi - 1] == t[..hi][..hi - 1] == t[..hi - 1];
      SumRangePrefix(s, t, lo, hi - 1);
    }
  }

  /** Scores in [0, 1] sum to at least 0 and at most the window length. */
  lemma {:induction false} SumRangeBounds(s: seq<real>, lo: nat, hi: nat)
    requires lo <= hi <= |s|
    requires forall j :: lo <= j < hi ==> 0.0 <= s[j] <= 1.0
    ensures 0.0 <= SumRange(s, lo, hi) <= (hi - lo) as real
    decreases hi - lo
  {
    if lo < hi {
      SumRangeBounds(s, lo, hi - 1);
    }
  }

  /** Scores in [0, 1] at every index from `i + 1 - K` to `i`. */
  predicate UnitWindow(s: seq<real>, i: nat)
    requires K - 1 <= i < |s|
  {
    forall j :: i + 1 - K <= j <= i ==> 0.0 <= s[j] <= 1.0
  }

  /** The average of the K scores ending at index `i`, the score at `i` included. */
  function Average(s: seq<real>, i: nat): real
    requires K - 1 <= i < |s|
  {
    SumRange(s, i + 1 - K, i + 1) / (K as real)
  }

  /** The average of a window of scores in [0, 1] lies in [0, 1]. */
  lemma AverageInUnitInterval(s: seq<real>, i: nat)
    requires K - 1 <= i < |s| && UnitWindow(s, i)
    ensures 0.0 <= Average(s, i) <= 1.0
  {
    SumRangeBounds(s, i + 1 - K, i + 1);
  }

  /**
   * The deviation of the score at `i` from its window average: never
   * negative, and zero exactly when the score equals the average.
   */
  function Valuation(s: seq<real>, i: nat): (r: real)
    requires K - 1 <= i < |s|
    ensures r >= 0.0
    ensures r == 0.0 <==> s[i] == Average(s, i)
  {
    Abs(Average(s, i) - s[i])
  }

  /** With scores in [0, 1] the deviation is at most 1. */
  lemma ValuationAtMostOne(s: seq<real>, i: nat)
    requires K - 1 <= i < |s| && UnitWindow(s, i)
    ensures Valuation(s, i) <= 1.0
  {
    AverageInUnitInterval(s, i);
  }

  // ---------------------------------------------------------------------
  // Invariants of the decision state

  predicate AllClosed(l: seq<Interval>) {
    forall k :: 0 <= k < |l| ==> l[k].end.Some?
  }

  /** The last interval is open and every earlier one is closed. */
  predicate OpenLast(l: seq<Interval>) {
    |l| > 0 && l[|l| - 1].end.None? && AllClosed(l[..|l| - 1])
  }

  /**
   * At most one interval is open: none when `begin` is false, otherwise
   * exactly the last one of the list `boundaryType` names.
   */
  predicate AtMostOneOpen(d: Detection) {
    if !d.begin then AllClosed(d.cuts) && AllClosed(d.graduals)
    else
      || (d.boundaryType == Some(Cut) && OpenLast(d.cuts) && AllClosed(d.graduals))
      || (d.boundaryType == Some(Gradual) && OpenLast(d.graduals) && AllClosed(d.cuts))
  }

  /** `a` is closed, and closed before `b` starts. */
  predicate Precedes(a: Interval, b: Interval) {
    a.end.Some? && a.end.value < b.start
  }

  /** A closed interval ends after it starts. */
  predicate Proper(a: Interval) {
    a.end.Some? ==> a.start < a.end.value
  }

  /** Every interval is proper and each one is over before the next starts. */
  predicate Chain(l: seq<Interval>) {
    && (forall k :: 0 <= k < |l| ==> Proper(l[k]))
    && (forall p, q :: 0 <= p < q < |l| ==> Precedes(l[p], l[q]))
  }

  /** No CUT interval overlaps a GRADUAL interval. */
  predicate Separated(cuts: seq<Interval>, graduals: seq<Interval>) {
    forall p, q :: 0 <= p < |cuts| && 0 <= q < |graduals| ==>
      Precedes(cuts[p], graduals[q]) || Precedes(graduals[q], cuts[p])
  }

  /** Every index in the list lies in [K-1, n). */
  predicate Within(l: seq<Interval>, n: nat) {
    forall k :: 0 <= k < |l| ==>
      K - 1 <= l[k].start < n && (l[k].end.Some? ==> l[k].end.value < n)
  }

  /** The ordering facts after the scores at indices below `n` have been seen. */
  predicate Ordered(d: Detection, n: nat) {
    && Chain(d.cuts) && Chain(d.graduals)
    && Separated(d.cuts, d.graduals)
    && Within(d.cuts, n) && Within(d.graduals, n)
  }

  // ---------------------------------------------------------------------
  // The transition

  /** `cut_shot_boundarys[-1][1] = i`: close the last interval of a list at `i`. */
  function CloseLast(l: seq<Interval>, i: nat): (r: seq<Interval>)
    requires |l| > 0
    ensures ClosesLast(l, r, i)
  {
    l[|l| - 1 := l[|l| - 1].(end := Some(i))]
  }

  /** One decision at index `i`, following the source's if/elif/else. */
  function Transition(d: Detection, i: nat, valuation: real): (d': Detection)
    requires AtMostOneOpen(d)
    ensures AtMostOneOpen(d')
  {
    if valuation >= UpperDelta then
      if d.begin == false then
        d.(cuts := d.cuts + [Interval(i, None)], begin := true, boundaryType := Some(Cut))
      else d
    else if valuation >= LowerDelta && valuation < UpperDelta then
      if d.begin == false then
        d.(graduals := d.graduals + [Interval(i, None)], begin := true, boundaryType := Some(Gradual))
      else if d.begin == true && d.boundaryType == Some(Cut) then
        d.(cuts := CloseLast(d.cuts, i), begin := false)
      else d
    else
      if d.begin == true && d.boundaryType == Some(Gradual) then
        d.(graduals := CloseLast(d.graduals, i), begin := false)
      else if d.begin == true && d.boundaryType == Some(Cut) then
        d.(cuts := CloseLast(d.cuts, i), begin := false)
      else d
  }

  lemma CloseLastKeepsOrder(l: seq<Interval>, other: seq<Interval>, i: nat)
    requires OpenLast(l) && Chain(l) && Within(l, i) && Within(other, i) && AllClosed(other)
    requires Separated(l, other) && K - 1 <= i
    ensures Chain(CloseLast(l, i)) && Within(CloseLast(l, i), i + 1)
    ensures Separated(CloseLast(l, i), other) && AllClosed(CloseLast(l, i))
  {
    var l' := CloseLast(l, i);
    var last := |l| - 1;
    forall p, q | 0 <= p < q < |l'| ensures Precedes(l'[p], l'[q]) {
      assert Precedes(l[p], l[q]);
    }
    forall p, q | 0 <= p < |l'| && 0 <= q < |other|
      ensures Precedes(l'[p], other[q]) || Precedes(other[q], l'[p])
    {
      assert Precedes(l[p], other[q]) || Precedes(other[q], l[p]);
      if p == last {
        assert !Precedes(l[p], other[q]);
      }
    }
    forall k | 0 <= k < |l'| ensures l'[k].end.Some? {
      if k < last {
        assert l[..last][k] == l[k];
      }
    }
  }

  lemma OpenKeepsOrder(l: seq<Interval>, other: seq<Interval>, i: nat)
    requires AllClosed(l) && AllClosed(other) && Chain(l) && Within(l, i) && Within(other, i)
    requires Separated(l, other) && K - 1 <= i
    ensures Chain(l + [Interval(i, None)]) && Within(l + [Interval(i, None)], i + 1)
    ensures Separated(l + [Interval(i, None)], other)
    ensures OpenLast(l + [Interval(i, None)])
  {
    var l' := l + [Interval(i, None)];
    forall p, q | 0 <= p < q < |l'| ensures Precedes(l'[p], l'[q]) {
      if q < |l| {
        assert Precedes(l[p], l[q]);
      } else {
        assert l[p].end.Some?;
      }
    }
    forall p, q | 0 <= p < |l'| && 0 <= q < |other|
      ensures Precedes(l'[p], other[q]) || Precedes(other[q], l'[p])
    {
      if p < |l| {
        assert Precedes(l[p], other[q]) || Precedes(other[q], l[p]);
      } else {
        assert other[q].end.Some?;
      }
    }
    assert l'[..|l|] == l;
  }

  /** Swapping the two lists keeps `Separated`. */
  lemma SeparatedSymmetric(a: seq<Interval>, b: seq<Interval>)
    requires Separated(a, b)
    ensures Separated(b, a)
  {
  }

  /** A transition keeps at most one interval open and keeps the lists ordered. */
  lemma TransitionKeepsInvariants(d: Detection, i: nat, valuation: real)
    requires AtMostOneOpen(d) && Ordered(d, i) && K - 1 <= i
    ensures AtMostOneOpen(Transition(d, i, valuation))
    ensures Ordered(Transition(d, i, valuation), i + 1)
  {
    var d' := Transition(d, i, valuation);
    match PhaseOf(d)
    case Idle =>
      if valuation >= UpperDelta {
        OpenKeepsOrder(d.cuts, d.graduals, i);
      } else if valuation >= LowerDelta {
        SeparatedSymmetric(d.cuts, d.graduals);
        OpenKeepsOrder(d.graduals, d.cuts, i);
        SeparatedSymmetric(d'.graduals, d'.cuts);
      }
    case OpenCut =>
      if valuation < UpperDelta {
        CloseLastKeepsOrder(d.cuts, d.graduals, i);
      }
    case OpenGradual =>
      if valuation < LowerDelta {
        SeparatedSymmetric(d.cuts, d.graduals);
        CloseLastKeepsOrder(d.graduals, d.cuts, i);
        SeparatedSymmetric(d'.graduals, d'.cuts);
      }
  }

  // ---------------------------------------------------------------------
  // The specification of the whole run

  /**
   * The decision state after the scores at indices `0 .. n-1` have been
   * seen.  No decision is made before index K-1.
   */
  function DetectPrefix(s: seq<real>, n: nat): (d: Detection)
    requires n <= |s|
    ensures AtMostOneOpen(d) && Ordered(d, n)
    decreases n
  {
    if n == 0 then Initial
    else
      var prev := DetectPrefix(s, n - 1);
      var i := n - 1;
      if i < K - 1 then prev
      else
        TransitionKeepsInvariants(prev, i, Valuation(s, i));
        Transition(prev, i, Valuation(s, i))
  }

  /** The boundary lists (and final state) for a whole score sequence. */
  function Detect(s: seq<real>): Detection {
    DetectPrefix(s, |s|)
  }

  // ---------------------------------------------------------------------
  // The loop of the source

  /**
   * The classifier loop: a running sum over the last K scores, then one
   * decision per index from K-1 on.  Returns `cut_shot_boundarys` and
   * `gradual_shot_boundarys`.
   */
  method Classify(matchRatios: seq<real>) returns (cuts: seq<Interval>, graduals: seq<Interval>)
    ensures cuts == Detect(matchRatios).cuts && graduals == Detect(matchRatios).graduals
    ensures |matchRatios| < K ==> cuts == [] && graduals == []
    ensures Chain(cuts) && Chain(graduals) && Separated(cuts, graduals)
    ensures Within(cuts, |matchRatios|) && Within(graduals, |matchRatios|)
    ensures (forall k :: 0 <= k < |cuts| - 1 ==> cuts[k].end.Some?)
         && (forall k :: 0 <= k < |graduals| - 1 ==> graduals[k].end.Some?)
    ensures !(|cuts| > 0 && cuts[|cuts| - 1].end.None? && |graduals| > 0 && graduals[|graduals| - 1].end.None?)
  {
    var sum := 0.0;
    var begin := false;
    var boundaryType: Option<Kind> := None;
    cuts, graduals := [], [];
    for i := 0 to |matchRatios|
      invariant sum == SumRange(matchRatios, if i >= K then i - K else 0, i)
      invariant Detection(begin, boundaryType, cuts, graduals) == DetectPrefix(matchRatios, i)
    {
      var matchRatio := matchRatios[i];
      if i - K >= 0 {
        SumRangeDropFirst(matchRatios, i - K, i);
        sum := sum - matchRatios[i - K];
      }
      sum := sum + matchRatio;
      if i < K - 1 {
        continue;
      }
      var average := 1.0 * sum / (K as real);
      var valuation := Abs(average - matchRatio);
      assert valuation == Valuation(matchRatios, i);
      if valuation >= UpperDelta {
        if begin == false {
          cuts := cuts + [Interval(i, None)];
          begin := true;
          boundaryType := Some(Cut);
        }
      } else if valuation >= LowerDelta && valuation < UpperDelta {
        if begin == false {
          graduals := graduals + [Interval(i, None)];
          begin := true;
          boundaryType := Some(Gradual);
        } else if begin == true && boundaryType == Some(Cut) {
          cuts := cuts[|cuts| - 1 := cuts[|cuts| - 1].(end := Some(i))];
          begin := false;
        }
      } else {
        if begin == true && boundaryType == Some(Gradual) {
          graduals := graduals[|graduals| - 1 := graduals[|graduals| - 1].(end := Some(i))];
          begin := false;
        } else if begin == true && boundaryType == Some(Cut) {
          cuts := cuts[|cuts| - 1 := cuts[|cuts| - 1].(end := Some(i))];
          begin := false;
        }
      }
    }
    assert matchRatios[..|matchRatios|] == matchRatios;
    ShortStreamNoDecision(matchRatios);
  }

  // ---------------------------------------------------------------------
  // Properties of the specification

  /** Fewer than K scores: no decision is ever made and both lists stay empty. */
  lemma {:induction false} ShortStreamNoDecision(s: seq<real>)
    ensures |s| < K ==> Detect(s) == Initial
  {
    if |s| < K {
      ShortPrefixNoDecision(s, |s|);
    }
  }

  lemma {:induction false} ShortPrefixNoDecision(s: seq<real>, n: nat)
    requires n <= |s| && n < K
    ensures DetectPrefix(s, n) == Initial
    decreases n
  {
    if n > 0 {
      ShortPrefixNoDecision(s, n - 1);
    }
  }

  /**
   * `begin` is false exactly when every interval of both lists has an end;
   * when it is true, the one open interval is the last of the list that
   * `boundaryType` names.
   */
  lemma BeginIffOpenInterval(s: seq<real>, n: nat)
    requires n <= |s|
    ensures var d := DetectPrefix(s, n);
      && (!d.begin <==> AllClosed(d.cuts) && AllClosed(d.graduals))
      && (PhaseOf(d) == OpenCut ==> OpenLast(d.cuts) && AllClosed(d.graduals))
      && (PhaseOf(d) == OpenGradual ==> OpenLast(d.graduals) && AllClosed(d.cuts))
  {
    var d := DetectPrefix(s, n);
    if d.begin {
      if d.boundaryType == Some(Cut) {
        assert !d.cuts[|d.cuts| - 1].end.Some?;
      } else {
        assert !d.graduals[|d.graduals| - 1].end.Some?;
      }
    }
  }

  /** The transition table, stated on the three phases. */
  lemma TransitionTable(d: Detection, i: nat, v: real)
    requires AtMostOneOpen(d)
    ensures var d' := Transition(d, i, v);
      && (v >= UpperDelta && PhaseOf(d) == Idle ==>
            d'.cuts == d.cuts + [Interval(i, None)] && d'.graduals == d.graduals && PhaseOf(d') == OpenCut)
      && (v >= UpperDelta && PhaseOf(d) != Idle ==> d' == d)
      && (LowerDelta <= v < UpperDelta && PhaseOf(d) == Idle ==>
            d'.graduals == d.graduals + [Interval(i, None)] && d'.cuts == d.cuts && PhaseOf(d') == OpenGradual)
      && (LowerDelta <= v < UpperDelta && PhaseOf(d) == OpenCut ==>
            ClosesLast(d.cuts, d'.cuts, i) && d'.graduals == d.graduals && PhaseOf(d') == Idle)
      && (LowerDelta <= v < UpperDelta && PhaseOf(d) == OpenGradual ==> d' == d)
      && (v < LowerDelta && PhaseOf(d) == Idle ==> d' == d)
      && (v < LowerDelta && PhaseOf(d) == OpenCut ==>
            ClosesLast(d.cuts, d'.cuts, i) && d'.graduals == d.graduals && PhaseOf(d') == Idle)
      && (v < LowerDelta && PhaseOf(d) == OpenGradual ==>
            ClosesLast(d.graduals, d'.graduals, i) && d'.cuts == d.cuts && PhaseOf(d') == Idle)
  {
  }

  /**
   * `after` is `before` with only the end of its last interval set to `i`:
   * same length, same earlier intervals, same last start.
   */
  predicate ClosesLast(before: seq<Interval>, after: seq<Interval>, i: nat) {
    && |before| == |after| > 0
    && before[..|before| - 1] == after[..|after| - 1]
    && after[|after| - 1] == Interval(before[|before| - 1].start, Some(i))
  }

  /** How many interval ends a list holds. */
  function ClosedCount(l: seq<Interval>): nat
    decreases |l|
  {
    if l == [] then 0
    else ClosedCount(l[..|l| - 1]) + (if l[|l| - 1].end.Some? then 1 else 0)
  }

  /** Openings plus closings so far. */
  function Events(d: Detection): nat {
    |d.cuts| + |d.graduals| + ClosedCount(d.cuts) + ClosedCount(d.graduals)
  }

  lemma ClosedCountCloseLast(l: seq<Interval>, i: nat)
    requires OpenLast(l)
    ensures ClosedCount(CloseLast(l, i)) == ClosedCount(l) + 1
  {
    assert CloseLast(l, i)[..|l| - 1] == l[..|l| - 1];
  }

  lemma ClosedCountAppend(l: seq<Interval>, x: Interval)
    ensures ClosedCount(l + [x]) == ClosedCount(l) + (if x.end.Some? then 1 else 0)
  {
    assert (l + [x])[..|l|] == l;
  }

  /** Each index opens or closes at most one interval. */
  lemma AtMostOneEventPerIndex(d: Detection, i: nat, v: real)
    requires AtMostOneOpen(d)
    ensures Events(d) <= Events(Transition(d, i, v)) <= Events(d) + 1
  {
    var d' := Transition(d, i, v);
    if d'.cuts != d.cuts {
      if |d'.cuts| == |d.cuts| {
        ClosedCountCloseLast(d.cuts, i);
      } else {
        ClosedCountAppend(d.cuts, Interval(i, None));
      }
    }
    if d'.graduals != d.graduals {
      if |d'.graduals| == |d.graduals| {
        ClosedCountCloseLast(d.graduals, i);
      } else {
        ClosedCountAppend(d.graduals, Interval(i, None));
      }
    }
  }

  /**
   * `later` extends `earlier`: no interval is removed, no start moves, and a
   * closed interval never changes again.
   */
  predicate ExtendsList(earlier: seq<Interval>, later: seq<Interval>) {
    && |earlier| <= |later|
    && forall k :: 0 <= k < |earlier| ==>
         later[k].start == earlier[k].start && (earlier[k].end.Some? ==> later[k] == earlier[k])
  }

  predicate Extends(earlier: Detection, later: Detection) {
    ExtendsList(earlier.cuts, later.cuts) && ExtendsList(earlier.graduals, later.graduals)
  }

  /** Decisions, once emitted, are final: a later state extends every earlier one. */
  lemma {:induction false} DecisionsAreFinal(s: seq<real>, m: nat, n: nat)
    requires m <= n <= |s|
    ensures Extends(DetectPrefix(s, m), DetectPrefix(s, n))
    decreases n - m
  {
    if m < n {
      DecisionsAreFinal(s, m, n - 1);
      StepExtends(s, n);
      ExtendsTransitive(DetectPrefix(s, m), DetectPrefix(s, n - 1), DetectPrefix(s, n));
    }
  }

  /** Seeing one more score extends the state. */
  lemma StepExtends(s: seq<real>, n: nat)
    requires 0 < n <= |s|
    ensures Extends(DetectPrefix(s, n - 1), DetectPrefix(s, n))
  {
    if n - 1 >= K - 1 {
      ExtendsAfterTransition(DetectPrefix(s, n - 1), n - 1, Valuation(s, n - 1));
    }
  }

  /** One decision removes no interval, moves no start and changes no closed interval. */
  lemma ExtendsAfterTransition(d: Detection, i: nat, v: real)
    requires AtMostOneOpen(d)
    ensures Extends(d, Transition(d, i, v))
  {
  }

  lemma ExtendsTransitive(a: Detection, b: Detection, c: Detection)
    requires Extends(a, b) && Extends(b, c)
    ensures Extends(a, c)
  {
  }

  /**
   * Streaming: the state after the first `n` scores depends on those scores
   * only, so running on a prefix gives the state reached at that point.
   */
  lemma {:induction false} Causal(s: seq<real>, t: seq<real>, n: nat)
    requires n <= |s| && n <= |t| && s[..n] == t[..n]
    ensures DetectPrefix(s, n) == DetectPrefix(t, n)
    decreases n
  {
    if n > 0 {
      assert s[..n - 1] == s[..n][..n - 1] == t[..n][..n - 1] == t[..n - 1];
      Causal(s, t, n - 1);
      if n - 1 >= K - 1 {
        SumRangePrefix(s, t, n - K, n);
        assert s[n - 1] == s[..n][n - 1] == t[..n][n - 1] == t[n - 1];
      }
    }
  }

  lemma PrefixRun(s: seq<real>, n: nat)
    requires n <= |s|
    ensures Detect(s[..n]) == DetectPrefix(s, n)
  {
    assert s[..n][..n] == s[..n];
    Causal(s[..n], s, n);
  }

  // ---------------------------------------------------------------------
  // Worked examples

  /**
   * One bad score in a steady stream: at index 5 the average is 0.74 and
   * the valuation 0.64, which opens a CUT; at index 6 the valuation is 0.16,
   * which closes it.
   */
  lemma SingleDropIsCut()
    ensures Detect([0.9, 0.9, 0.9, 0.9, 0.9, 0.1, 0.9, 0.9]).cuts == [Interval(5, Some(6))]
    ensures Detect([0.9, 0.9, 0.9, 0.9, 0.9, 0.1, 0.9, 0.9]).graduals == []
  {
    var s := [0.9, 0.9, 0.9, 0.9, 0.9, 0.1, 0.9, 0.9];
    ShortPrefixNoDecision(s, 4);
    assert Valuation(s, 4) == 0.0;
    assert DetectPrefix(s, 5) == Initial;
    assert Average(s, 5) == 0.74;
    assert Valuation(s, 5) == 0.64;
    assert DetectPrefix(s, 6) == Detection(true, Some(Cut), [Interval(5, None)], []);
    assert Valuation(s, 6) == 0.16;
    assert DetectPrefix(s, 7) == Detection(false, Some(Cut), [Interval(5, Some(6))], []);
    assert Valuation(s, 7) == 0.16;
    assert DetectPrefix(s, 8) == DetectPrefix(s, 7);
  }

  /**
   * A step down from 0.9 to 0.6: the valuations are 0.24, 0.18 and 0.12,
   * all below LowerDelta, so no interval is opened at all.
   */
  lemma StepDownIsNoBoundary()
    ensures Detect([0.9, 0.9, 0.9, 0.9, 0.9, 0.6, 0.6, 0.6]) == Initial
  {
    var s := [0.9, 0.9, 0.9, 0.9, 0.9, 0.6, 0.6, 0.6];
    ShortPrefixNoDecision(s, 4);
    assert Valuation(s, 4) == 0.0;
    assert Valuation(s, 5) == 0.24;
    assert Valuation(s, 6) == 0.18;
    assert Valuation(s, 7) == 0.12;
  }

  /** A stream that ends while a CUT is open reports it with no end. */
  lemma UnterminatedCut()
    ensures Detect([0.9, 0.9, 0.9, 0.9, 0.9, 0.1]).cuts == [Interval(5, None)]
  {
    var s := [0.9, 0.9, 0.9, 0.9, 0.9, 0.1];
    ShortPrefixNoDecision(s, 4);
    assert Valuation(s, 4) == 0.0;
    assert Valuation(s, 5) == 0.64;
  }

  /**
   * A stream that ends while a GRADUAL is open reports it with no end: the
   * valuation at index 5 is 0.29, in [LowerDelta, UpperDelta).
   */
  lemma UnterminatedGradual()
    ensures Detect([1.0, 1.0, 1.0, 1.0, 1.0, 0.6375]).graduals == [Interval(5, None)]
    ensures Detect([1.0, 1.0, 1.0, 1.0, 1.0, 0.6375]).cuts == []
  {
    var s := [1.0, 1.0, 1.0, 1.0, 1.0, 0.6375];
    ShortPrefixNoDecision(s, 4);
    assert Valuation(s, 4) == 0.0;
    assert Valuation(s, 5) == 0.29;
  }
}
