/** The library function `pH(data, uws_sub_filepath)` (data_processing/pH.py): z-score
    outlier filters on the optode log and on the subsamples, the offset calibration, the
    subsamples averaged per time, the optode value matched to each averaged point, the
    correction of the log and its trailing mean. Tables are values here, so the caller's
    frame is never changed, which is what `data.copy()` (line 6) ensures. */
module PhFunction {
  import opened Frames
  import opened Sorting
  import opened Calibration

  // ---------------------------------------------------------------------------
  // z-score filters (9-11, 53-60).

  /** Mean and population variance (`ddof=0`) of the present values of a column. */
  datatype Moments = Moments(mean: real, variance: real)

  function SumSquares(p: seq<real>, mu: real): (r: real)
    ensures r >= 0.0
  {
    if p == [] then 0.0
    else
      var d := p[0] - mu;
      SquareNonNegative(d);
      d * d + SumSquares(p[1..], mu)
  }

  lemma SquareNonNegative(d: real)
    ensures d * d >= 0.0
  {
    if d < 0.0 {
      assert d * d == (-d) * (-d);
    }
  }

  /** None when the column has no present value; the mean is pandas' `mean()`. */
  function MomentsOf(col: seq<Value>): (m: Option<Moments>)
    ensures m.None? <==> NanMean(col).None?
    ensures m.Some? ==> m.value.mean == NanMean(col).value && m.value.variance >= 0.0
  {
    var p := Present(col);
    if p == [] then None
    else
      var mu := NanMean(col).value;
      DivideAtLeast(SumSquares(p, mu), |p| as real, 0.0);
      Some(Moments(mu, SumSquares(p, mu) / |p| as real))
  }

  /** `abs((x - mean) / std) < 2`, written without the square root: a missing value, a
      missing mean and a zero deviation (where pandas divides by zero and gets NaN or an
      infinity) all fail the comparison. */
  predicate ZScoreKeeps(m: Option<Moments>, x: Value)
  {
    m.Some? && x.Some? && m.value.variance > 0.0 &&
    (x.value - m.value.mean) * (x.value - m.value.mean) < 4.0 * m.value.variance
  }

  /** The source's test on the standard deviation `sigma` is the one above on its square. */
  lemma ZScoreAsWritten(x: real, mean: real, sigma: real)
    requires sigma > 0.0
    ensures (Abs(x - mean) / sigma < 2.0) <==> ((x - mean) * (x - mean) < 4.0 * (sigma * sigma))
  {
    var d := Abs(x - mean);
    assert d * d == (x - mean) * (x - mean);
    var z := d / sigma;
    assert z * sigma == d;
    ScaleCompare(z, 2.0, sigma);
    SquaresCompare(d, 2.0 * sigma);
    assert (2.0 * sigma) * (2.0 * sigma) == 4.0 * (sigma * sigma);
  }

  lemma PositiveProduct(x: real, y: real)
    requires x > 0.0 && y > 0.0
    ensures x * y > 0.0
  {
  }

  /** Multiplying both sides by a positive factor keeps a strict comparison. */
  lemma ScaleCompare(z: real, c: real, sigma: real)
    requires sigma > 0.0
    ensures z < c <==> z * sigma < c * sigma
  {
    assert c * sigma - z * sigma == (c - z) * sigma;
    if z < c {
      PositiveProduct(c - z, sigma);
    } else if z > c {
      PositiveProduct(z - c, sigma);
      assert z * sigma - c * sigma == (z - c) * sigma;
    }
  }

  /** Squaring keeps the order of non-negative numbers. */
  lemma SquaresCompare(a: real, b: real)
    requires a >= 0.0 && b >= 0.0
    ensures a < b <==> a * a < b * b
  {
    assert b * b - a * a == (b - a) * (b + a);
    if a < b {
      PositiveProduct(b - a, b + a);
    } else if b < a {
      PositiveProduct(a - b, a + b);
    }
  }

  function PHs(rows: seq<LogRow>): (r: seq<Value>)
    ensures |r| == |rows| && forall i :: 0 <= i < |rows| ==> r[i] == rows[i].pH
  {
    seq(|rows|, i requires 0 <= i < |rows| => rows[i].pH)
  }

  function KeepLog(m: Option<Moments>): LogRow -> bool
  {
    (row: LogRow) => ZScoreKeeps(m, row.pH)
  }

  /** Lines 9-11 on the optode log. */
  function OptodeFilter(rows: seq<LogRow>): (r: seq<LogRow>)
    ensures |r| <= |rows|
    ensures forall k :: 0 <= k < |r| ==> ZScoreKeeps(MomentsOf(PHs(rows)), r[k].pH)
  {
    Filter(rows, KeepLog(MomentsOf(PHs(rows))))
  }

  /** The filter keeps exactly the rows whose pH passes the z-score test against the whole
      log, as often as they occur and in their order; a row with a NaN pH is dropped. */
  lemma OptodeFilterExactly(rows: seq<LogRow>, x: LogRow)
    ensures IsSubseq(OptodeFilter(rows), rows)
    ensures multiset(OptodeFilter(rows))[x] ==
            if ZScoreKeeps(MomentsOf(PHs(rows)), x.pH) then multiset(rows)[x] else 0
  {
    FilterIsSubseq(rows, KeepLog(MomentsOf(PHs(rows))));
    FilterMultiset(rows, KeepLog(MomentsOf(PHs(rows))), x);
  }

  /** Every deviation from the mean is zero when all present values are equal. */
  lemma {:induction false} SumSquaresOfConstant(p: seq<real>, c: real)
    requires forall i :: 0 <= i < |p| ==> p[i] == c
    ensures SumSquares(p, c) == 0.0
  {
    if p != [] {
      SumSquaresOfConstant(p[1..], c);
    }
  }

  /** When every present value is the same (the standard deviation is zero) the z-score is
      NaN on every row and the filter drops the whole log. */
  lemma ConstantLogDropsAll(rows: seq<LogRow>, c: real)
    requires forall i :: 0 <= i < |rows| && rows[i].pH.Some? ==> rows[i].pH.value == c
    ensures OptodeFilter(rows) == []
  {
    var col := PHs(rows);
    var m := MomentsOf(col);
    if m.Some? {
      MeanAtLeast(col, c);
      MeanAtMost(col, c);
      PresentSatisfies(col, (x: real) => x == c);
      SumSquaresOfConstant(Present(col), c);
      assert m.value.variance == 0.0;
    }
    FilterRejectsAll(rows, KeepLog(m));
  }

  /** A subsample: its time stamp, pH(TA/DIC) and pH(initial TA) at in-situ temperature
      on the total scale. */
  datatype SubRow = SubRow(time: int, talk: Value, initial: Value)

  function Talks(rows: seq<SubRow>): (r: seq<Value>)
    ensures |r| == |rows| && forall i :: 0 <= i < |rows| ==> r[i] == rows[i].talk
  {
    seq(|rows|, i requires 0 <= i < |rows| => rows[i].talk)
  }

  function Initials(rows: seq<SubRow>): (r: seq<Value>)
    ensures |r| == |rows| && forall i :: 0 <= i < |rows| ==> r[i] == rows[i].initial
  {
    seq(|rows|, i requires 0 <= i < |rows| => rows[i].initial)
  }

  function KeepTalk(m: Option<Moments>): SubRow -> bool
  {
    (row: SubRow) => ZScoreKeeps(m, row.talk)
  }

  function KeepInitial(m: Option<Moments>): SubRow -> bool
  {
    (row: SubRow) => ZScoreKeeps(m, row.initial)
  }

  /** Lines 53-55. */
  function TalkFilter(rows: seq<SubRow>): (r: seq<SubRow>)
    ensures |r| <= |rows|
  {
    Filter(rows, KeepTalk(MomentsOf(Talks(rows))))
  }

  /** The first filter keeps exactly the subsamples whose pH(TA/DIC) passes the z-score test
      against the whole table, as often as they occur and in their order. */
  lemma TalkFilterExactly(rows: seq<SubRow>, x: SubRow)
    ensures IsSubseq(TalkFilter(rows), rows)
    ensures multiset(TalkFilter(rows))[x] ==
            if ZScoreKeeps(MomentsOf(Talks(rows)), x.talk) then multiset(rows)[x] else 0
  {
    FilterIsSubseq(rows, KeepTalk(MomentsOf(Talks(rows))));
    FilterMultiset(rows, KeepTalk(MomentsOf(Talks(rows))), x);
  }

  /** Lines 53-60: the second filter's mean and deviation are those of the survivors of
      the first. */
  function CleanSubsamples(rows: seq<SubRow>): (r: seq<SubRow>)
    ensures |r| <= |rows|
  {
    var kept := TalkFilter(rows);
    Filter(kept, KeepInitial(MomentsOf(Initials(kept))))
  }

  /** The two filters keep exactly the subsamples that pass both tests, the second against
      the survivors of the first, as often as they occur and in their order. */
  lemma CleanSubsamplesExactly(rows: seq<SubRow>, x: SubRow)
    ensures IsSubseq(CleanSubsamples(rows), rows)
    ensures multiset(CleanSubsamples(rows))[x] ==
            if ZScoreKeeps(MomentsOf(Talks(rows)), x.talk) &&
               ZScoreKeeps(MomentsOf(Initials(TalkFilter(rows))), x.initial)
            then multiset(rows)[x] else 0
  {
    var kept := TalkFilter(rows);
    var keepI := KeepInitial(MomentsOf(Initials(kept)));
    TalkFilterExactly(rows, x);
    FilterIsSubseq(kept, keepI);
    SubseqTransitive(CleanSubsamples(rows), kept, rows);
    FilterMultiset(kept, keepI, x);
  }

  /** What a surviving subsample passed: the pH(TA/DIC) test against the whole table and the
      pH(initial) test against the survivors of the first test, and it is a row of the table. */
  lemma CleanSubsamplesPassed(rows: seq<SubRow>, k: nat)
    requires k < |CleanSubsamples(rows)|
    ensures ZScoreKeeps(MomentsOf(Talks(rows)), CleanSubsamples(rows)[k].talk)
    ensures ZScoreKeeps(MomentsOf(Initials(TalkFilter(rows))), CleanSubsamples(rows)[k].initial)
    ensures CleanSubsamples(rows)[k] in rows
  {
    var kept := TalkFilter(rows);
    var keepI := KeepInitial(MomentsOf(Initials(kept)));
    var x := CleanSubsamples(rows)[k];
    FilterMultiset(kept, keepI, x);
    assert x in multiset(kept);
    FilterMultiset(rows, KeepTalk(MomentsOf(Talks(rows))), x);
    assert x in multiset(rows);
  }

  // ---------------------------------------------------------------------------
  // Offset calibration and the average per time (63-68).

  /** `pH_elec_corr` of the surviving subsamples, keyed by time (63-65). */
  function ElecCorr(rows: seq<SubRow>): (r: seq<Timed<Value>>)
    ensures |r| == |CleanSubsamples(rows)|
  {
    var kept := CleanSubsamples(rows);
    var cal := Calibrated(Talks(kept), Initials(kept));
    seq(|kept|, i requires 0 <= i < |kept| => Timed(kept[i].time, cal[i]))
  }

  function AtTime(t: int): Timed<Value> -> bool
  {
    (p: Timed<Value>) => p.time == t
  }

  function Vals(s: seq<Timed<Value>>): (r: seq<Value>)
    ensures |r| == |s| && forall i :: 0 <= i < |s| ==> r[i] == s[i].val
  {
    seq(|s|, i requires 0 <= i < |s| => s[i].val)
  }

  /** The mean of the group with time `t`. */
  function GroupMean(s: seq<Timed<Value>>, t: int): Value
  {
    NanMean(Vals(Filter(s, AtTime(t))))
  }

  /** `groupby(by=['date_time']).mean()`: one point per distinct time, in increasing time,
      carrying the mean of its group. */
  function GroupByTime(s: seq<Timed<Value>>): (r: seq<Timed<Value>>)
    ensures StrictlyIncreasing(r)
    ensures forall k :: 0 <= k < |r| ==> r[k].val == GroupMean(s, r[k].time)
  {
    var keys := SortByTime(s);
    DropDuplicatesOfSorted(keys);
    var firsts := DropDuplicateTimes(keys);
    seq(|firsts|, k requires 0 <= k < |firsts| => Timed(firsts[k].time, GroupMean(s, firsts[k].time)))
  }

  /** The groups are exactly the times of the input: no time is lost or invented. */
  lemma GroupTimes(s: seq<Timed<Value>>, t: int)
    ensures HasTime(GroupByTime(s), t) <==> HasTime(s, t)
  {
    var keys := SortByTime(s);
    var firsts := DropDuplicateTimes(keys);
    var r := GroupByTime(s);
    if HasTime(s, t) {
      var i :| 0 <= i < |s| && s[i].time == t;
      assert s[i] in multiset(keys);
      var j :| 0 <= j < |keys| && keys[j] == s[i];
      DropDuplicatesKeepsTimes(keys);
      var k :| 0 <= k < |firsts| && firsts[k].time == t;
      assert r[k].time == t;
    }
    if HasTime(r, t) {
      var k :| 0 <= k < |r| && r[k].time == t;
      DropDuplicatesMembers(keys);
      assert firsts[k] in keys;
      assert firsts[k] in multiset(s);
    }
  }

  /** A time that occurs once keeps its own value. */
  lemma SingleGroupMean(s: seq<Timed<Value>>, i: nat)
    requires i < |s|
    requires forall j :: 0 <= j < |s| && j != i ==> s[j].time != s[i].time
    ensures GroupMean(s, s[i].time) == s[i].val
  {
    var t := s[i].time;
    FilterOfUnique(s, i);
    assert Vals([s[i]]) == [s[i].val];
    NanMeanOfOne(s[i].val);
  }

  lemma {:induction false} FilterOfUnique(s: seq<Timed<Value>>, i: nat)
    requires i < |s|
    requires forall j :: 0 <= j < |s| && j != i ==> s[j].time != s[i].time
    ensures Filter(s, AtTime(s[i].time)) == [s[i]]
  {
    var t := s[i].time;
    var before, after := s[..i], s[i + 1..];
    assert s == before + [s[i]] + after;
    FilterAppend(before + [s[i]], after, AtTime(t));
    FilterAppend(before, [s[i]], AtTime(t));
    NoneMatch(before, t);
    assert forall j :: 0 <= j < |after| ==> after[j] == s[i + 1 + j];
    NoneMatch(after, t);
    assert [s[i]][1..] == [];
  }

  lemma {:induction false} NoneMatch(s: seq<Timed<Value>>, t: int)
    requires forall j :: 0 <= j < |s| ==> s[j].time != t
    ensures Filter(s, AtTime(t)) == []
  {
    if s != [] {
      NoneMatch(s[1..], t);
    }
  }

  lemma NanMeanOfOne(v: Value)
    ensures NanMean([v]) == v
  {
    assert [v][1..] == [];
    if v.Some? {
      assert Present([v]) == [v.value];
      SumOfOne(v.value);
      MeanOfSingle([v], v.value);
    }
  }

  /** Lines 63-68. */
  function SubPoints(rows: seq<SubRow>): (r: seq<Timed<Value>>)
    ensures StrictlyIncreasing(r)
  {
    GroupByTime(ElecCorr(rows))
  }

  // ---------------------------------------------------------------------------
  // The optode value of each point (75-81).

  /** Lines 78-81: for every subsample time, the points at that time get the optode pH of the
      log row nearest in time (`nearest`, the reindexing of line 75, is a parameter). */
  method MatchOptode(points: seq<Timed<Value>>, locations: seq<int>, nearest: int -> Value)
    returns (optode: array<Value>)
    ensures optode.Length == |points|
    ensures forall i :: 0 <= i < |points| ==>
              optode[i] == if points[i].time in locations then nearest(points[i].time) else None
  {
    optode := new Value[|points|](_ => None);
    for k := 0 to |locations|
      invariant forall i :: 0 <= i < |points| ==>
                  optode[i] == if points[i].time in locations[..k] then nearest(points[i].time) else None
    {
      var location := locations[k];
      forall i | 0 <= i < |points| && points[i].time == location {
        optode[i] := nearest(points[i].time);
      }
      assert locations[..k + 1] == locations[..k] + [location];
    }
    assert locations[..|locations|] == locations;
  }

  /** Every averaged point gets an optode value: its time is the time of a surviving
      subsample, and those are the locations the loop visits. */
  lemma EveryPointMatched(rows: seq<SubRow>, locations: seq<int>, i: nat)
    requires locations == Times(ElecCorr(rows))
    requires i < |SubPoints(rows)|
    ensures SubPoints(rows)[i].time in locations
  {
    var s := ElecCorr(rows);
    var t := SubPoints(rows)[i].time;
    assert HasTime(SubPoints(rows), t);
    GroupTimes(s, t);
    var j :| 0 <= j < |s| && s[j].time == t;
    assert locations[j] == t;
  }

  function Times(s: seq<Timed<Value>>): (r: seq<int>)
    ensures |r| == |s| && forall i :: 0 <= i < |s| ==> r[i] == s[i].time
  {
    seq(|s|, i requires 0 <= i < |s| => s[i].time)
  }

  // ---------------------------------------------------------------------------
  // Difference, correction and trailing mean (84-95).

  /** Line 84; the `sort_values` of line 87 is not assigned and leaves the points in time
      order, which is what the interpolator needs. */
  function PointDiffs(points: seq<Timed<Value>>, optode: seq<Value>): (r: seq<Timed<Value>>)
    requires |optode| == |points|
    ensures |r| == |points|
    ensures forall i :: 0 <= i < |r| ==> r[i].time == points[i].time
    ensures forall i :: 0 <= i < |r| && r[i].val.Some? ==> r[i].val.value >= 0.0
    ensures forall i :: 0 <= i < |r| ==> (r[i].val.Some? <==> points[i].val.Some? && optode[i].Some?)
  {
    seq(|points|, i requires 0 <= i < |points| => Timed(points[i].time, AbsDiff(points[i].val, optode[i])))
  }

  /** Lines 88-95 on the filtered log: the correction by the interpolated difference (the
      PCHIP interpolator without extrapolation is a parameter) and the trailing 60-row mean
      of the corrected pH. */
  function CorrectedSma(log: seq<LogRow>, pchip: int -> Value): (r: seq<Value>)
    ensures |r| == |log|
  {
    Rolling(Corrected(log, pchip), WINDOW)
  }

  /** The trailing mean is missing only where the whole window is uncorrected, and lies
      between the smallest and largest corrected value of the window. */
  lemma CorrectedSmaBounds(log: seq<LogRow>, pchip: int -> Value, k: nat, lo: real, hi: real)
    requires k < |log|
    requires forall j :: k + 1 - Min(WINDOW, k + 1) <= j <= k && Corrected(log, pchip)[j].Some? ==>
               lo <= Corrected(log, pchip)[j].value <= hi
    ensures CorrectedSma(log, pchip)[k].None? <==>
            forall j :: k + 1 - Min(WINDOW, k + 1) <= j <= k ==> log[j].pH.None? || pchip(log[j].time).None?
    ensures CorrectedSma(log, pchip)[k].Some? ==> lo <= CorrectedSma(log, pchip)[k].value <= hi
  {
    RollingBounds(Corrected(log, pchip), WINDOW, k, lo, hi);
  }
}
