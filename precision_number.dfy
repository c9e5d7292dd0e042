/** The precision number of the underway nutrient duplicates
    (processing_ammonium_precision_number.py and processing_nitrite_precision_number.py,
    which differ only in the analyte column): duplicate codes, the per-pair difference
    over mean, and three times the mean of those ratios. */
module PrecisionNumber {
  import opened Frames
  import opened Text
  import opened Duplicates
  import opened Nutrients
  import opened SubsamplesRaw
  import opened CtdRaw

  // ---------------------------------------------------------------------------
  // `df['diff/mean'].mean()` over floats that may be infinite (26).

  /** The finite ratios as cells; NaN and the infinities are `None` here. */
  function FiniteCells(rs: seq<Ratio>): (r: seq<Value>)
    ensures |r| == |rs|
    ensures forall i :: 0 <= i < |rs| ==> (r[i].Some? <==> rs[i].Finite?)
    ensures forall i :: 0 <= i < |rs| && rs[i].Finite? ==> r[i].value == rs[i].q
  {
    seq(|rs|, i requires 0 <= i < |rs| => if rs[i].Finite? then Some(rs[i].q) else None)
  }

  predicate HasPosInf(rs: seq<Ratio>)
  {
    exists i :: 0 <= i < |rs| && rs[i].PosInf?
  }

  predicate HasNegInf(rs: seq<Ratio>)
  {
    exists i :: 0 <= i < |rs| && rs[i].NegInf?
  }

  /** pandas' skipna mean of a float column: NaN cells are skipped, an infinity dominates,
      two infinities of opposite sign give NaN, and no value at all gives NaN. */
  function RatioMean(rs: seq<Ratio>): (r: Ratio)
    ensures r.PosInf? <==> HasPosInf(rs) && !HasNegInf(rs)
    ensures r.NegInf? <==> HasNegInf(rs) && !HasPosInf(rs)
    ensures r.NaN? <==> (HasPosInf(rs) && HasNegInf(rs)) ||
                        (forall i :: 0 <= i < |rs| ==> rs[i].NaN?)
    ensures r.Finite? ==> r.q == NanMean(FiniteCells(rs)).value
  {
    if HasPosInf(rs) && HasNegInf(rs) then NaN
    else if HasPosInf(rs) then PosInf
    else if HasNegInf(rs) then NegInf
    else
      match NanMean(FiniteCells(rs))
      case None => NaN
      case Some(m) => Finite(m)
  }

  /** `average * 3`. */
  function Times3(a: Ratio): (r: Ratio)
    ensures r.Finite? <==> a.Finite?
    ensures r.Finite? ==> r.q == 3.0 * a.q
    ensures !r.Finite? ==> r == a
  {
    if a.Finite? then Finite(3.0 * a.q) else a
  }

  // ---------------------------------------------------------------------------
  // The script (7-27).

  function DupCodes(ids: seq<string>): (r: seq<string>)
    ensures |r| == |ids| && forall i :: 0 <= i < |ids| ==> r[i] == DupCode(ids[i])
  {
    seq(|ids|, i requires 0 <= i < |ids| => DupCode(ids[i]))
  }

  /** What the script prints, or the exception it stops with: a ValueError when a code is
      not an integer (14), an IndexError when a code has a single row (21). */
  function PrecisionNumberOf(ids: seq<string>, values: seq<Value>): (r: Result<Ratio>)
    requires |values| == |ids|
    ensures r == Err("ValueError") <==> exists i :: 0 <= i < |ids| && !IsInteger(DupCode(ids[i]))
    ensures r.Ok? ==> !r.value.NegInf?
  {
    var codes := ParseCodes(DupCodes(ids));
    if codes.None? then Err("ValueError")
    else if !AllPaired(codes.value) then Err("IndexError")
    else
      var ratios := PairRatios(codes.value, values);
      RatiosNeverNegInf(codes.value, values);
      Ok(Times3(RatioMean(ratios)))
  }

  /** A difference is never negative, so no ratio is negative infinity. */
  lemma RatiosNeverNegInf(codes: seq<int>, values: seq<Value>)
    requires |values| == |codes| && AllPaired(codes)
    ensures !HasNegInf(PairRatios(codes, values))
  {
  }

  /** Lines 7-27: the two loops and the final mean, run in place on the table. */
  method PrecisionNumberScript(ids: seq<string>, values: seq<Value>) returns (r: Result<Ratio>)
    requires |values| == |ids|
    ensures r == PrecisionNumberOf(ids, values)
  {
    var dupcode := new string[|ids|](_ => "");
    AssignDupCodes(ids, dupcode);
    assert dupcode[..] == DupCodes(ids);
    var codes := ParseCodes(dupcode[..]);
    if codes.None? {
      return Err("ValueError");
    }
    var stats := new PairStat[|ids|](_ => PairStat(None, None, NaN));
    var ok := PairStatistics(codes.value, values, stats);
    if !ok {
      return Err("IndexError");
    }
    var ratios := seq(|ids|, j requires 0 <= j < |ids| reads stats => stats[j].ratio);
    assert ratios == PairRatios(codes.value, values);
    r := Ok(Times3(RatioMean(ratios)));
  }

  // ---------------------------------------------------------------------------
  // Properties.

  /** With every value present and positive, every ratio is a finite non-negative number
      and so is the precision number. */
  lemma PositiveValuesGiveFinitePN(ids: seq<string>, values: seq<Value>)
    requires |values| == |ids| && |ids| > 0
    requires forall i :: 0 <= i < |values| ==> values[i].Some? && values[i].value > 0.0
    requires PrecisionNumberOf(ids, values).Ok?
    ensures PrecisionNumberOf(ids, values).value.Finite?
    ensures PrecisionNumberOf(ids, values).value.q >= 0.0
  {
    var codes := ParseCodes(DupCodes(ids)).value;
    var ratios := PairRatios(codes, values);
    forall i | 0 <= i < |codes| ensures ratios[i].Finite? && ratios[i].q >= 0.0 {
      GroupPositive(codes, values, codes[i]);
      PositiveGroupRatio(Group(codes, values, codes[i]));
    }
    FiniteRatiosMean(ratios);
  }

  /** The values of a group are values of the table. */
  lemma {:induction false} GroupPositive(codes: seq<int>, values: seq<Value>, c: int)
    requires |values| == |codes|
    requires forall i :: 0 <= i < |values| ==> values[i].Some? && values[i].value > 0.0
    ensures forall k :: 0 <= k < |Group(codes, values, c)| ==>
              Group(codes, values, c)[k].Some? && Group(codes, values, c)[k].value > 0.0
  {
    if codes != [] {
      GroupPositive(codes[1..], values[1..], c);
    }
  }

  /** A pair of positive values has a finite, non-negative difference over mean. */
  lemma PositiveGroupRatio(g: seq<Value>)
    requires |g| >= 2
    requires forall k :: 0 <= k < |g| ==> g[k].Some? && g[k].value > 0.0
    ensures GroupStat(g).ratio.Finite? && GroupStat(g).ratio.q >= 0.0
  {
    NanMeanPositive(g);
  }

  /** The mean of positive values with one present is positive. */
  lemma NanMeanPositive(g: seq<Value>)
    requires |g| > 0 && g[0].Some?
    requires forall k :: 0 <= k < |g| && g[k].Some? ==> g[k].value > 0.0
    ensures NanMean(g).Some? && NanMean(g).value > 0.0
  {
    var p := Present(g);
    PresentSatisfies(g, (x: real) => x > 0.0);
    SumPositive(p);
  }

  lemma {:induction false} SumPositive(p: seq<real>)
    requires |p| > 0 && forall k :: 0 <= k < |p| ==> p[k] > 0.0
    ensures Sum(p) > 0.0
  {
    if |p| > 1 {
      SumPositive(p[1..]);
    }
  }

  /** Finite non-negative ratios have a finite non-negative mean. */
  lemma FiniteRatiosMean(rs: seq<Ratio>)
    requires |rs| > 0
    requires forall i :: 0 <= i < |rs| ==> rs[i].Finite? && rs[i].q >= 0.0
    ensures RatioMean(rs).Finite? && RatioMean(rs).q >= 0.0
  {
    var cells := FiniteCells(rs);
    MeanAtLeast(cells, 0.0);
    assert cells[0].Some?;
  }

  // ---------------------------------------------------------------------------
  // The recorded results.

  /** The value recorded at the foot of the ammonium script (line 30). */
  const AMMONIUM_PN: real := 1.3213859347936425

  /** The value recorded at the foot of the nitrite script (line 30). */
  const NITRITE_PN: real := 1.346392401087416

  /** The recorded numbers are the ammonium and nitrite thresholds of the underway
      subsample and CTD flagging scripts. */
  lemma RecordedNumbersAreThresholds()
    ensures SubsampleThreshold(AMMONIUM) == AMMONIUM_PN
    ensures SubsampleThreshold(NITRITE) == NITRITE_PN
    ensures CtdThreshold(AMMONIUM) == Some(AMMONIUM_PN)
    ensures CtdThreshold(NITRITE) == Some(NITRITE_PN)
  {
  }
}
