/** The bootstrap estimate of the uncertainty of the corrected optode pH
    (processing_uws_pH_correction_bootstrapping.py): a hundred draws of the subsamples,
    each cleaned, sorted and de-duplicated by time before it is interpolated. */
module Bootstrapping {
  import opened Frames
  import opened Sorting
  import opened Calibration
  import opened PhCorrection

  const N_ITERATIONS: nat := 100

  /** Line 100: the draw without its missing differences. */
  function Finite(draw: seq<Timed<Value>>): (r: seq<Timed<Value>>)
    ensures multiset(r) <= multiset(draw)
    ensures forall k :: 0 <= k < |r| ==> r[k].val.Some?
  {
    FilterIsSubseq(draw, HasValue());
    SubseqMultiset(Filter(draw, HasValue()), draw);
    Filter(draw, HasValue())
  }

  /** Points taken from points with a value have a value. */
  lemma ValuesCarryOver(r: seq<Timed<Value>>, s: seq<Timed<Value>>)
    requires multiset(r) <= multiset(s)
    requires forall k :: 0 <= k < |s| ==> s[k].val.Some?
    ensures forall k :: 0 <= k < |r| ==> r[k].val.Some?
  {
    forall k | 0 <= k < |r| ensures r[k].val.Some? {
      assert r[k] in multiset(s);
    }
  }

  /** Lines 100-107 on one draw: drop the missing differences, sort by time and keep the
      first row of each time. What is left can be handed to the interpolator: its times
      increase strictly and every point is a point of the draw. */
  function Prepare(draw: seq<Timed<Value>>): (r: seq<Timed<Value>>)
    ensures StrictlyIncreasing(r)
    ensures multiset(r) <= multiset(draw)
    ensures forall k :: 0 <= k < |r| ==> r[k].val.Some?
  {
    var sorted := SortByTime(Finite(draw));
    DropDuplicatesOfSorted(sorted);
    ValuesCarryOver(DropDuplicateTimes(sorted), Finite(draw));
    DropDuplicateTimes(sorted)
  }

  /** No time of a present difference in the draw is lost. */
  lemma PrepareKeepsTimes(draw: seq<Timed<Value>>, i: nat)
    requires i < |draw| && draw[i].val.Some?
    ensures HasTime(Prepare(draw), draw[i].time)
  {
    var sorted := SortByTime(Finite(draw));
    FilterMultiset(draw, HasValue(), draw[i]);
    assert draw[i] in multiset(sorted);
    var j :| 0 <= j < |sorted| && sorted[j] == draw[i];
    DropDuplicatesKeepsTimes(sorted);
  }

  /** Line 100 is a no-op: a draw from the cleaned subsamples has no missing difference. */
  lemma DrawIsFinite(s: seq<Subsample>, draw: seq<Timed<Value>>)
    requires forall k :: 0 <= k < |draw| ==> draw[k] in DiffPoints(s)
    ensures Filter(draw, HasValue()) == draw
  {
    FilterKeepsAll(draw, HasValue());
  }

  /** Line 110: an iteration is used iff its prepared draw has more than one point. */
  predicate Usable(draw: seq<Timed<Value>>)
  {
    |Prepare(draw)| > 1
  }

  /** The corrected series `pH - interp(time)` of one prepared draw; the interpolator
      (PCHIP without extrapolation) is a parameter, given the prepared points. */
  function TrialSeries(rows: seq<LogRow>, interpolate: seq<Timed<Value>> -> (int -> Value), draw: seq<Timed<Value>>): (r: seq<Value>)
    ensures |r| == |rows|
  {
    Corrected(rows, interpolate(Prepare(draw)))
  }

  /** The list built by the loop after the draws seen so far. */
  function Trials(draws: seq<seq<Timed<Value>>>, rows: seq<LogRow>, interpolate: seq<Timed<Value>> -> (int -> Value)): (r: seq<seq<Value>>)
    ensures |r| <= |draws|
    decreases |draws|
  {
    if draws == [] then []
    else
      var prev := Trials(draws[..|draws| - 1], rows, interpolate);
      var d := draws[|draws| - 1];
      if Usable(d) then prev + [TrialSeries(rows, interpolate, d)] else prev
  }

  /** Lines 91-119: the random draws are given, one per iteration. */
  method Bootstrap(draws: seq<seq<Timed<Value>>>, rows: seq<LogRow>, interpolate: seq<Timed<Value>> -> (int -> Value))
    returns (series: seq<seq<Value>>)
    requires |draws| == N_ITERATIONS
    ensures series == Trials(draws, rows, interpolate)
    ensures |series| <= N_ITERATIONS
  {
    series := [];
    for iteration := 0 to N_ITERATIONS
      invariant series == Trials(draws[..iteration], rows, interpolate)
    {
      TrialsStep(draws, rows, interpolate, iteration);
      var prepared := Prepare(draws[iteration]);
      if |prepared| > 1 {
        series := series + [Corrected(rows, interpolate(prepared))];
      }
    }
    TrialsOfAll(draws, rows, interpolate);
  }

  lemma TrialsOfAll(draws: seq<seq<Timed<Value>>>, rows: seq<LogRow>, interpolate: seq<Timed<Value>> -> (int -> Value))
    ensures Trials(draws[..|draws|], rows, interpolate) == Trials(draws, rows, interpolate)
  {
    assert draws[..|draws|] == draws;
  }

  /** One more iteration of the loop adds the draw's series when the draw is usable. */
  lemma TrialsStep(draws: seq<seq<Timed<Value>>>, rows: seq<LogRow>, interpolate: seq<Timed<Value>> -> (int -> Value), k: nat)
    requires k < |draws|
    ensures Trials(draws[..k + 1], rows, interpolate) ==
            Trials(draws[..k], rows, interpolate) +
            (if Usable(draws[k]) then [TrialSeries(rows, interpolate, draws[k])] else [])
  {
    assert draws[..k + 1][..k] == draws[..k];
    if !Usable(draws[k]) {
      assert Trials(draws[..k], rows, interpolate) + [] == Trials(draws[..k], rows, interpolate);
    }
  }

  /** The usable draws, in order. */
  function UsableDraws(draws: seq<seq<Timed<Value>>>): (r: seq<seq<Timed<Value>>>)
    ensures |r| <= |draws|
    ensures forall k :: 0 <= k < |r| ==> Usable(r[k])
  {
    if draws == [] then []
    else
      var d := draws[|draws| - 1];
      UsableDraws(draws[..|draws| - 1]) + if Usable(d) then [d] else []
  }

  function AllSeries(rows: seq<LogRow>, interpolate: seq<Timed<Value>> -> (int -> Value), used: seq<seq<Timed<Value>>>): (r: seq<seq<Value>>)
    ensures |r| == |used|
  {
    seq(|used|, k requires 0 <= k < |used| => TrialSeries(rows, interpolate, used[k]))
  }

  lemma AllSeriesAppend(rows: seq<LogRow>, interpolate: seq<Timed<Value>> -> (int -> Value), u: seq<seq<Timed<Value>>>, d: seq<Timed<Value>>)
    ensures AllSeries(rows, interpolate, u + [d]) == AllSeries(rows, interpolate, u) + [TrialSeries(rows, interpolate, d)]
  {
  }

  /** The stored series are exactly one corrected series per usable draw, in the order of
      the draws: iterations with fewer than two distinct times contribute nothing. */
  lemma {:induction false} TrialsAreUsableDraws(draws: seq<seq<Timed<Value>>>, rows: seq<LogRow>, interpolate: seq<Timed<Value>> -> (int -> Value))
    ensures Trials(draws, rows, interpolate) == AllSeries(rows, interpolate, UsableDraws(draws))
    decreases |draws|
  {
    if draws != [] {
      var init, d := draws[..|draws| - 1], draws[|draws| - 1];
      TrialsAreUsableDraws(init, rows, interpolate);
      var u := UsableDraws(init);
      AllSeriesAppend(rows, interpolate, u, d);
      if !Usable(d) {
        assert u + [] == u;
      }
    }
  }
}
