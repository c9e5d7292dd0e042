/** The steps the continuous-pH scripts share: warm-up cuts on the optode log, the
    mean-offset calibration of the subsamples, the optode difference, the correction by an
    interpolated difference, and pandas' trailing 60-row mean. */
module Calibration {
  import opened Frames

  // ---------------------------------------------------------------------------
  // Warm-up cuts.

  /** A row of the continuous pH log: its PyroScience file, the seconds since that file
      started, the optode pH at in-situ temperature and the time stamp. */
  datatype LogRow = LogRow(file: string, sec: Value, pH: Value, time: int)

  /** One warm-up cut: the rows of `file` logged before `maxSec` seconds and, when a pH
      bound is given, reading below it. */
  datatype WarmUpCut = WarmUpCut(file: string, maxSec: real, maxPH: Option<real>)

  /** The mask `(filename == F) & (sec < S) & (pH < P)`: a comparison with NaN is false. */
  predicate Cuts(c: WarmUpCut, row: LogRow)
  {
    row.file == c.file && row.sec.Some? && row.sec.value < c.maxSec &&
    (c.maxPH.Some? ==> row.pH.Some? && row.pH.value < c.maxPH.value)
  }

  function Survives(c: WarmUpCut): LogRow -> bool
  {
    (row: LogRow) => !Cuts(c, row)
  }

  /** `df = df[~L]`. */
  function ApplyCut(rows: seq<LogRow>, c: WarmUpCut): (r: seq<LogRow>)
    ensures |r| <= |rows|
    ensures forall k :: 0 <= k < |r| ==> !Cuts(c, r[k])
  {
    Filter(rows, Survives(c))
  }

  /** A cut removes exactly the rows its mask selects, every copy of them, and keeps every
      other row as often as it occurs. */
  lemma CutRemovesExactly(rows: seq<LogRow>, c: WarmUpCut, x: LogRow)
    ensures multiset(ApplyCut(rows, c))[x] == if Cuts(c, x) then 0 else multiset(rows)[x]
  {
    FilterMultiset(rows, Survives(c), x);
  }

  /** A cut keeps the surviving rows in their order. */
  lemma CutKeepsOrder(rows: seq<LogRow>, c: WarmUpCut)
    ensures IsSubseq(ApplyCut(rows, c), rows)
  {
    FilterIsSubseq(rows, Survives(c));
  }

  function InFile(f: string): LogRow -> bool
  {
    (row: LogRow) => row.file == f
  }

  /** The rows of any other file come through a cut unchanged and in order. */
  lemma CutLeavesOtherFiles(rows: seq<LogRow>, c: WarmUpCut, f: string)
    requires f != c.file
    ensures Filter(ApplyCut(rows, c), InFile(f)) == Filter(rows, InFile(f))
  {
    FilterAbsorbs(rows, Survives(c), InFile(f));
  }

  function MissingPH(): LogRow -> bool
  {
    (row: LogRow) => row.pH.None?
  }

  /** A cut with a pH bound keeps every row whose pH is missing. */
  lemma CutKeepsMissingPH(rows: seq<LogRow>, c: WarmUpCut)
    requires c.maxPH.Some?
    ensures Filter(ApplyCut(rows, c), MissingPH()) == Filter(rows, MissingPH())
  {
    FilterAbsorbs(rows, Survives(c), MissingPH());
  }

  /** The cuts applied one after the other, as the scripts do. */
  function ApplyCuts(rows: seq<LogRow>, cuts: seq<WarmUpCut>): seq<LogRow>
    decreases |cuts|
  {
    if cuts == [] then rows else ApplyCuts(ApplyCut(rows, cuts[0]), cuts[1..])
  }

  predicate CutByNone(cuts: seq<WarmUpCut>, row: LogRow)
  {
    forall k :: 0 <= k < |cuts| ==> !Cuts(cuts[k], row)
  }

  function SurvivesAll(cuts: seq<WarmUpCut>): LogRow -> bool
  {
    (row: LogRow) => CutByNone(cuts, row)
  }

  /** Successive cuts are a single filter: a row survives iff no cut selects it. */
  lemma {:induction false} ApplyCutsIsOneFilter(rows: seq<LogRow>, cuts: seq<WarmUpCut>)
    ensures ApplyCuts(rows, cuts) == Filter(rows, SurvivesAll(cuts))
    decreases |cuts|
  {
    if cuts == [] {
      FilterKeepsAll(rows, SurvivesAll(cuts));
    } else {
      ApplyCutsIsOneFilter(ApplyCut(rows, cuts[0]), cuts[1..]);
      forall row ensures SurvivesAll(cuts)(row) == (Survives(cuts[0])(row) && SurvivesAll(cuts[1..])(row)) {
        if CutByNone(cuts, row) {
          forall k | 0 <= k < |cuts[1..]| ensures !Cuts(cuts[1..][k], row) {
            assert cuts[1..][k] == cuts[k + 1];
          }
        }
        if !Cuts(cuts[0], row) && CutByNone(cuts[1..], row) {
          forall k | 0 <= k < |cuts| ensures !Cuts(cuts[k], row) {
            if k > 0 {
              assert cuts[k] == cuts[1..][k - 1];
            }
          }
        }
      }
      FilterCompose(rows, Survives(cuts[0]), SurvivesAll(cuts[1..]), SurvivesAll(cuts));
    }
  }

  // ---------------------------------------------------------------------------
  // Offset calibration of the subsamples.

  /** The per-subsample offset `abs(pH(TA/DIC) - pH(initial))`. */
  function Offsets(talk: seq<Value>, initial: seq<Value>): (r: seq<Value>)
    requires |talk| == |initial|
    ensures |r| == |talk|
    ensures forall i :: 0 <= i < |r| ==> r[i] == AbsDiff(talk[i], initial[i])
  {
    seq(|talk|, i requires 0 <= i < |talk| => AbsDiff(talk[i], initial[i]))
  }

  /** `offset.mean()`: never negative, since no offset is. */
  function MeanOffset(talk: seq<Value>, initial: seq<Value>): (m: Value)
    requires |talk| == |initial|
    ensures m.Some? ==> m.value >= 0.0
    ensures m.None? <==> forall i :: 0 <= i < |talk| ==> talk[i].None? || initial[i].None?
  {
    var o := Offsets(talk, initial);
    MeanAtLeast(o, 0.0);
    NanMean(o)
  }

  /** `pH(initial) + offset`: every corrected value lies the same distance, the mean offset,
      above the value it corrects. */
  function Calibrated(talk: seq<Value>, initial: seq<Value>): (r: seq<Value>)
    requires |talk| == |initial|
    ensures |r| == |initial|
    ensures forall i :: 0 <= i < |r| ==>
              (r[i].Some? <==> initial[i].Some? && MeanOffset(talk, initial).Some?)
    ensures forall i :: 0 <= i < |r| && r[i].Some? ==>
              r[i].value - initial[i].value == MeanOffset(talk, initial).value
  {
    var m := MeanOffset(talk, initial);
    seq(|initial|, i requires 0 <= i < |initial| => Plus(initial[i], m))
  }

  /** Two calibrated subsamples differ exactly as their initial pH values do. */
  lemma CalibrationIsAShift(talk: seq<Value>, initial: seq<Value>, i: nat, j: nat)
    requires |talk| == |initial| && i < |talk| && j < |talk|
    requires Calibrated(talk, initial)[i].Some? && Calibrated(talk, initial)[j].Some?
    ensures Calibrated(talk, initial)[i].value - Calibrated(talk, initial)[j].value ==
            initial[i].value - initial[j].value
  {
  }

  /** `abs(corrected pH - optode pH)` for each subsample. */
  function Differences(corrected: seq<Value>, optode: seq<Value>): (r: seq<Value>)
    requires |corrected| == |optode|
    ensures |r| == |corrected|
    ensures forall i :: 0 <= i < |r| ==> (r[i].Some? <==> corrected[i].Some? && optode[i].Some?)
    ensures forall i :: 0 <= i < |r| && r[i].Some? ==>
              r[i].value >= 0.0 &&
              (r[i].value == corrected[i].value - optode[i].value || r[i].value == optode[i].value - corrected[i].value)
  {
    seq(|corrected|, i requires 0 <= i < |corrected| => AbsDiff(corrected[i], optode[i]))
  }

  // ---------------------------------------------------------------------------
  // Correction of the log.

  /** `pH - pchip(time)`: the interpolator is outside this model and is given as a function
      of the time stamp, missing where it does not extrapolate. */
  function Corrected(rows: seq<LogRow>, pchip: int -> Value): (r: seq<Value>)
    ensures |r| == |rows|
    ensures forall i :: 0 <= i < |r| ==> (r[i].Some? <==> rows[i].pH.Some? && pchip(rows[i].time).Some?)
    ensures forall i :: 0 <= i < |r| && r[i].Some? ==>
              r[i].value + pchip(rows[i].time).value == rows[i].pH.value
  {
    var r := seq(|rows|, i requires 0 <= i < |rows| => Minus(rows[i].pH, pchip(rows[i].time)));
    assert forall i :: 0 <= i < |r| ==> r[i] == Minus(rows[i].pH, pchip(rows[i].time));
    r
  }

  // ---------------------------------------------------------------------------
  // `rolling(60, min_periods=1).mean()`.

  const WINDOW: nat := 60

  /** The last `w` values (all of them when there are fewer). */
  function Trailing(s: seq<Value>, w: nat): (r: seq<Value>)
    ensures |r| == Min(w, |s|)
    ensures r == s[|s| - |r|..]
  {
    s[|s| - Min(w, |s|)..]
  }

  /** A rolling mean over windows of `w` rows needing one present value: each row gets the
      mean of the present values among itself and the `w - 1` rows before it. */
  function Rolling(s: seq<Value>, w: nat): (r: seq<Value>)
    requires w >= 1
    ensures |r| == |s|
  {
    seq(|s|, k requires 0 <= k < |s| => NanMean(Trailing(s[..k + 1], w)))
  }

  /** The rolling mean of a row is missing iff every value of its window is, and otherwise
      lies between the smallest and the largest present value of the window. */
  lemma RollingBounds(s: seq<Value>, w: nat, k: nat, lo: real, hi: real)
    requires w >= 1 && k < |s|
    requires forall j :: k + 1 - Min(w, k + 1) <= j <= k && s[j].Some? ==> lo <= s[j].value <= hi
    ensures Rolling(s, w)[k].None? <==> forall j :: k + 1 - Min(w, k + 1) <= j <= k ==> s[j].None?
    ensures Rolling(s, w)[k].Some? ==> lo <= Rolling(s, w)[k].value <= hi
  {
    var win := Trailing(s[..k + 1], w);
    assert forall i :: 0 <= i < |win| ==> win[i] == s[k + 1 - Min(w, k + 1) + i];
    MeanAtLeast(win, lo);
    MeanAtMost(win, hi);
    if Rolling(s, w)[k].None? {
      forall j | k + 1 - Min(w, k + 1) <= j <= k ensures s[j].None? {
        assert win[j - (k + 1 - Min(w, k + 1))] == s[j];
      }
    }
  }

  /** A row's rolling mean depends on its own window only: two series that agree on the
      last `w` rows up to `k` agree there. */
  lemma RollingIsLocal(s: seq<Value>, t: seq<Value>, w: nat, k: nat)
    requires w >= 1 && k < |s| && k < |t|
    requires forall j :: k + 1 - Min(w, k + 1) <= j <= k ==> s[j] == t[j]
    ensures Rolling(s, w)[k] == Rolling(t, w)[k]
  {
    var a, b := Trailing(s[..k + 1], w), Trailing(t[..k + 1], w);
    assert forall i :: 0 <= i < |a| ==> a[i] == s[k + 1 - Min(w, k + 1) + i];
    assert forall i :: 0 <= i < |b| ==> b[i] == t[k + 1 - Min(w, k + 1) + i];
    assert a == b;
  }
}
