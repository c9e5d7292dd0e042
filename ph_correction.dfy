/** The correction of the continuous optode pH log by the discrete subsamples
    (processing_uws_pH_correction.py): warm-up cuts, the offset calibration of the
    subsamples, the correction of the log, the file-5 post-filter and the per-file moving
    average. */
module PhCorrection {
  import opened Frames
  import opened Sorting
  import opened Calibration

  const FILE_2: string := "2020-12-11_163148_NAPTRAM2020"
  const FILE_3: string := "2020-12-15_214136_NAPTRAM20202"
  const FILE_4: string := "2020-12-17_134828_NAPTRAM20203"
  const FILE_5: string := "2020-12-20_182318_NAPTRAM20205"

  /** Lines 15-28, in order; the third cut has no pH clause. */
  function WarmUpCuts(): seq<WarmUpCut>
  {
    [WarmUpCut(FILE_2, 3000.0, Some(8.094)),
     WarmUpCut(FILE_3, 20000.0, Some(8.11)),
     WarmUpCut(FILE_4, 6500.0, None),
     WarmUpCut(FILE_5, 10000.0, Some(8.105))]
  }

  /** The log after the four cuts. */
  function CutLog(rows: seq<LogRow>): (r: seq<LogRow>)
    ensures |r| <= |rows|
  {
    ApplyCutsIsOneFilter(rows, WarmUpCuts());
    ApplyCuts(rows, WarmUpCuts())
  }

  /** The rows of a file no cut names come through unchanged and in order. */
  lemma CutLogLeavesOtherFiles(rows: seq<LogRow>, f: string)
    requires f != FILE_2 && f != FILE_3 && f != FILE_4 && f != FILE_5
    ensures Filter(CutLog(rows), InFile(f)) == Filter(rows, InFile(f))
  {
    ApplyCutsIsOneFilter(rows, WarmUpCuts());
    var cuts := WarmUpCuts();
    forall k | 0 <= k < |rows| && InFile(f)(rows[k]) ensures SurvivesAll(cuts)(rows[k]) {
      forall j | 0 <= j < |cuts| ensures !Cuts(cuts[j], rows[k]) {
        assert cuts[j].file != f;
      }
    }
    FilterAbsorbs(rows, SurvivesAll(cuts), InFile(f));
  }

  /** Exactly the rows some cut selects are removed: a row of file 4 logged before 6500 s
      goes whatever its pH, a row of file 2 only when its pH is also below 8.094. */
  lemma CutLogRemovesExactly(rows: seq<LogRow>, x: LogRow)
    ensures multiset(CutLog(rows))[x] == if CutByNone(WarmUpCuts(), x) then multiset(rows)[x] else 0
  {
    ApplyCutsIsOneFilter(rows, WarmUpCuts());
    FilterMultiset(rows, SurvivesAll(WarmUpCuts()), x);
  }

  // ---------------------------------------------------------------------------
  // The subsamples (77-89).

  /** A subsample: its time stamp, pH(TA/DIC), pH(initial TA) (both at in-situ temperature
      on the total scale) and the optode pH matched to it. */
  datatype Subsample = Subsample(time: int, talk: Value, initial: Value, optode: Value)

  function Talk(s: seq<Subsample>): (r: seq<Value>)
    ensures |r| == |s| && forall i :: 0 <= i < |s| ==> r[i] == s[i].talk
  {
    seq(|s|, i requires 0 <= i < |s| => s[i].talk)
  }

  function Initial(s: seq<Subsample>): (r: seq<Value>)
    ensures |r| == |s| && forall i :: 0 <= i < |s| ==> r[i] == s[i].initial
  {
    seq(|s|, i requires 0 <= i < |s| => s[i].initial)
  }

  function Optode(s: seq<Subsample>): (r: seq<Value>)
    ensures |r| == |s| && forall i :: 0 <= i < |s| ==> r[i] == s[i].optode
  {
    seq(|s|, i requires 0 <= i < |s| => s[i].optode)
  }

  /** Each subsample's time and `diff` column (77-82). */
  function DiffColumn(s: seq<Subsample>): (r: seq<Timed<Value>>)
    ensures |r| == |s|
    ensures forall i :: 0 <= i < |s| ==> r[i].time == s[i].time
  {
    var d := Differences(Calibrated(Talk(s), Initial(s)), Optode(s));
    seq(|s|, i requires 0 <= i < |s| => Timed(s[i].time, d[i]))
  }

  function HasValue(): Timed<Value> -> bool
  {
    (p: Timed<Value>) => p.val.Some?
  }

  /** The points the interpolator receives (85-90): the subsamples whose difference is
      present, in their own order, since the `sort_values` of line 89 is not assigned. */
  function DiffPoints(s: seq<Subsample>): (r: seq<Timed<Value>>)
    ensures forall k :: 0 <= k < |r| ==> r[k].val.Some?
  {
    Filter(DiffColumn(s), HasValue())
  }

  /** The points are the subsamples with a present difference, in table order, each as
      often as in the table. */
  lemma DiffPointsInOrder(s: seq<Subsample>, x: Timed<Value>)
    ensures IsSubseq(DiffPoints(s), DiffColumn(s))
    ensures multiset(DiffPoints(s))[x] == if x.val.Some? then multiset(DiffColumn(s))[x] else 0
  {
    FilterIsSubseq(DiffColumn(s), HasValue());
    FilterMultiset(DiffColumn(s), HasValue(), x);
  }

  /** Every interpolation point is non-negative, being an absolute difference. */
  lemma DiffPointsNonNegative(s: seq<Subsample>, k: nat)
    requires k < |DiffPoints(s)|
    ensures DiffPoints(s)[k].val.value >= 0.0
  {
    var x := DiffPoints(s)[k];
    FilterMultiset(DiffColumn(s), HasValue(), x);
    assert x in multiset(DiffPoints(s));
    assert x in DiffColumn(s);
    var i :| 0 <= i < |s| && DiffColumn(s)[i] == x;
  }

  /** The difference of a subsample is the distance between its optode pH and its
      initial pH raised by the mean offset. */
  lemma DiffOfSubsample(s: seq<Subsample>, i: nat)
    requires i < |s| && DiffColumn(s)[i].val.Some?
    ensures MeanOffset(Talk(s), Initial(s)).Some? && s[i].initial.Some? && s[i].optode.Some?
    ensures var c := s[i].initial.value + MeanOffset(Talk(s), Initial(s)).value;
            var d := DiffColumn(s)[i].val.value;
            d >= 0.0 && (d == c - s[i].optode.value || d == s[i].optode.value - c)
  {
    var cal := Calibrated(Talk(s), Initial(s));
    assert cal[i].Some?;
  }

  // ---------------------------------------------------------------------------
  // The correction and the file-5 post-filter (95-99).

  datatype CorrectedRow = CorrectedRow(row: LogRow, corrected: Value)

  /** `pH_optode_corrected = pH - pchip(time)` on every row of the log. */
  function CorrectLog(rows: seq<LogRow>, pchip: int -> Value): (r: seq<CorrectedRow>)
    ensures |r| == |rows|
    ensures forall i :: 0 <= i < |r| ==> r[i].row == rows[i]
    ensures forall i :: 0 <= i < |r| ==> (r[i].corrected.Some? <==> rows[i].pH.Some? && pchip(rows[i].time).Some?)
    ensures forall i :: 0 <= i < |r| && r[i].corrected.Some? ==>
              r[i].corrected.value + pchip(rows[i].time).value == rows[i].pH.value
  {
    var c := Corrected(rows, pchip);
    seq(|rows|, i requires 0 <= i < |rows| => CorrectedRow(rows[i], c[i]))
  }

  /** What scipy's `PchipInterpolator` accepts (it raises ValueError otherwise): at least
      two points, with strictly increasing times. */
  predicate InterpolatorAccepts(points: seq<Timed<Value>>)
  {
    |points| >= 2 && StrictlyIncreasing(points)
  }

  /** An interpolant honours its points: at each point's time it gives that point's value. */
  ghost predicate PassesThroughPoints(points: seq<Timed<Value>>, f: int -> Value)
  {
    forall k :: 0 <= k < |points| ==> f(points[k].time) == points[k].val
  }

  /** Lines 85-96: the interpolator is built on the points in table order and the log is
      corrected by it. The interpolating routine is a parameter; building it fails when it
      is given fewer than two points or times that do not strictly increase. */
  function CorrectBySubsamples(rows: seq<LogRow>, s: seq<Subsample>,
                               interpolate: seq<Timed<Value>> -> (int -> Value)): (r: Result<seq<CorrectedRow>>)
    ensures r.Err? <==> |DiffPoints(s)| < 2 || !StrictlyIncreasing(DiffPoints(s))
    ensures r.Ok? ==> r.value == CorrectLog(rows, interpolate(DiffPoints(s)))
  {
    var points := DiffPoints(s);
    if InterpolatorAccepts(points) then Ok(CorrectLog(rows, interpolate(points)))
    else Err("ValueError: x must be strictly increasing")
  }

  /** Where the interpolant honours its points, a log row taken at a subsample's time is
      corrected by exactly that subsample's difference. */
  lemma CorrectedAtSubsampleTime(rows: seq<LogRow>, s: seq<Subsample>,
                                 interpolate: seq<Timed<Value>> -> (int -> Value), i: nat, k: nat)
    requires CorrectBySubsamples(rows, s, interpolate).Ok?
    requires PassesThroughPoints(DiffPoints(s), interpolate(DiffPoints(s)))
    requires i < |rows| && k < |DiffPoints(s)| && rows[i].time == DiffPoints(s)[k].time
    ensures CorrectBySubsamples(rows, s, interpolate).value[i].corrected ==
            if rows[i].pH.Some? then Some(rows[i].pH.value - DiffPoints(s)[k].val.value) else None
  {
    var c := CorrectBySubsamples(rows, s, interpolate).value;
    var f := interpolate(DiffPoints(s));
    assert f(rows[i].time) == DiffPoints(s)[k].val;
    if c[i].corrected.Some? {
      assert c[i].corrected.value + f(rows[i].time).value == rows[i].pH.value;
    }
  }

  /** Two subsamples sharing a time make the interpolator fail, whatever their values. */
  lemma SharedTimeFails(rows: seq<LogRow>, s: seq<Subsample>,
                        interpolate: seq<Timed<Value>> -> (int -> Value), j: nat, k: nat)
    requires j < k < |DiffPoints(s)| && DiffPoints(s)[j].time == DiffPoints(s)[k].time
    ensures CorrectBySubsamples(rows, s, interpolate).Err?
  {
  }

  const POST_FILTER_PH: real := 8.07278

  /** Line 98's mask. */
  predicate PostCut(r: CorrectedRow)
  {
    r.row.file == FILE_5 && r.corrected.Some? && r.corrected.value < POST_FILTER_PH
  }

  function NotPostCut(): CorrectedRow -> bool
  {
    (r: CorrectedRow) => !PostCut(r)
  }

  /** Line 99. */
  function PostFilter(rows: seq<CorrectedRow>): (r: seq<CorrectedRow>)
    ensures forall k :: 0 <= k < |r| ==> !PostCut(r[k])
  {
    Filter(rows, NotPostCut())
  }

  function InFileC(f: string): CorrectedRow -> bool
  {
    (r: CorrectedRow) => r.row.file == f
  }

  function Uncorrected(): CorrectedRow -> bool
  {
    (r: CorrectedRow) => r.corrected.None?
  }

  /** The post-filter touches file 5 only, never drops a row whose corrected pH is missing,
      and drops every copy of a row it selects. */
  lemma PostFilterScope(rows: seq<CorrectedRow>, f: string, x: CorrectedRow)
    requires f != FILE_5
    ensures Filter(PostFilter(rows), InFileC(f)) == Filter(rows, InFileC(f))
    ensures Filter(PostFilter(rows), Uncorrected()) == Filter(rows, Uncorrected())
    ensures multiset(PostFilter(rows))[x] == if PostCut(x) then 0 else multiset(rows)[x]
  {
    FilterAbsorbs(rows, NotPostCut(), InFileC(f));
    FilterAbsorbs(rows, NotPostCut(), Uncorrected());
    FilterMultiset(rows, NotPostCut(), x);
  }

  // ---------------------------------------------------------------------------
  // The per-file moving average (103-105).

  /** The corrected values of the rows of file `f`, in table order. */
  function FileValues(rows: seq<CorrectedRow>, f: string): (r: seq<Value>)
    ensures |r| <= |rows|
  {
    if rows == [] then []
    else
      var last := rows[|rows| - 1];
      FileValues(rows[..|rows| - 1], f) + (if last.row.file == f then [last.corrected] else [])
  }

  /** What line 105 gives row `i`: the mean of the present corrected values among the last
      60 rows of its own file up to and including it. */
  function FileSma(rows: seq<CorrectedRow>, i: nat): Value
    requires i < |rows|
  {
    NanMean(Trailing(FileValues(rows[..i + 1], rows[i].row.file), WINDOW))
  }

  /** The position of row `i` among the rows of its file. */
  function Rank(rows: seq<CorrectedRow>, i: nat): nat
    requires i < |rows|
  {
    |FileValues(rows[..i], rows[i].row.file)|
  }

  /** The values of a file up to a row are a prefix of the values of the whole file. */
  lemma {:induction false} FileValuesPrefix(rows: seq<CorrectedRow>, j: nat, f: string)
    requires j <= |rows|
    ensures FileValues(rows[..j], f) <= FileValues(rows, f)
    decreases |rows|
  {
    if j < |rows| {
      var init := rows[..|rows| - 1];
      assert rows[..j] == init[..j];
      FileValuesPrefix(init, j, f);
    } else {
      assert rows[..j] == rows;
    }
  }

  /** Row `i` sits at its rank among its file's values, so the whole-file rolling mean at
      that rank is its per-file moving average. */
  lemma SmaAtRank(rows: seq<CorrectedRow>, i: nat)
    requires i < |rows|
    ensures Rank(rows, i) < |FileValues(rows, rows[i].row.file)|
    ensures Rolling(FileValues(rows, rows[i].row.file), WINDOW)[Rank(rows, i)] == FileSma(rows, i)
  {
    var f := rows[i].row.file;
    var upTo := FileValues(rows[..i + 1], f);
    assert rows[..i + 1][..i] == rows[..i];
    assert upTo == FileValues(rows[..i], f) + [rows[i].corrected];
    FileValuesPrefix(rows, i + 1, f);
    var all := FileValues(rows, f);
    assert all[..Rank(rows, i) + 1] == upTo;
  }

  function Files(rows: seq<CorrectedRow>): (r: seq<string>)
    ensures |r| == |rows| && forall i :: 0 <= i < |rows| ==> r[i] == rows[i].row.file
  {
    seq(|rows|, i requires 0 <= i < |rows| => rows[i].row.file)
  }

  /** Lines 103-105: for each file in order of first appearance, the rolling mean of that
      file's rows is written into their `SMA` cells. */
  method PerFileSma(rows: seq<CorrectedRow>) returns (sma: array<Value>)
    ensures sma.Length == |rows|
    ensures forall i :: 0 <= i < |rows| ==> sma[i] == FileSma(rows, i)
  {
    sma := new Value[|rows|](_ => None);
    var files := Distinct(Files(rows));
    for k := 0 to |files|
      invariant forall i :: 0 <= i < |rows| && rows[i].row.file in files[..k] ==> sma[i] == FileSma(rows, i)
    {
      var f := files[k];
      WriteFileSma(rows, f, sma);
      assert forall x :: x in files[..k + 1] <==> x in files[..k] || x == f by {
        assert files[..k + 1] == files[..k] + [f];
      }
    }
    assert forall i :: 0 <= i < |rows| ==> rows[i].row.file in files[..|files|] by {
      assert files[..|files|] == files;
    }
  }

  /** One iteration of lines 104-105: the rolling mean of file `f` goes into the cells of
      its rows, and no other cell changes. */
  method WriteFileSma(rows: seq<CorrectedRow>, f: string, sma: array<Value>)
    requires sma.Length == |rows|
    modifies sma
    ensures forall i :: 0 <= i < |rows| ==>
              sma[i] == if rows[i].row.file == f then FileSma(rows, i) else old(sma[i])
  {
    var rolled := Rolling(FileValues(rows, f), WINDOW);
    forall i | 0 <= i < |rows| && rows[i].row.file == f
      ensures Rank(rows, i) < |rolled| && rolled[Rank(rows, i)] == FileSma(rows, i)
    {
      SmaAtRank(rows, i);
    }
    forall i | 0 <= i < |rows| && rows[i].row.file == f {
      sma[i] := rolled[Rank(rows, i)];
    }
  }

  function CorrectedColumn(rows: seq<CorrectedRow>): (r: seq<Value>)
    ensures |r| == |rows| && forall i :: 0 <= i < |rows| ==> r[i] == rows[i].corrected
  {
    seq(|rows|, i requires 0 <= i < |rows| => rows[i].corrected)
  }

  /** On a log holding a single file the per-file average is the whole-series rolling mean
      of the bootstrapping script and of `pH()`; with several files it differs. */
  lemma {:induction false} OneFileIsWholeSeries(rows: seq<CorrectedRow>, f: string, i: nat)
    requires i < |rows|
    requires forall k :: 0 <= k < |rows| ==> rows[k].row.file == f
    ensures FileSma(rows, i) == Rolling(CorrectedColumn(rows), WINDOW)[i]
  {
    OneFileValues(rows[..i + 1], f);
    assert CorrectedColumn(rows[..i + 1]) == CorrectedColumn(rows)[..i + 1];
  }

  lemma {:induction false} OneFileValues(rows: seq<CorrectedRow>, f: string)
    requires forall k :: 0 <= k < |rows| ==> rows[k].row.file == f
    ensures FileValues(rows, f) == CorrectedColumn(rows)
  {
    if rows != [] {
      OneFileValues(rows[..|rows| - 1], f);
      assert CorrectedColumn(rows) == CorrectedColumn(rows[..|rows| - 1]) + [rows[|rows| - 1].corrected];
    }
  }

  /** Rows of other files do not affect a row's average: deleting every row of other files
      leaves it unchanged. */
  lemma OtherFilesIrrelevant(rows: seq<CorrectedRow>, i: nat)
    requires i < |rows|
    ensures FileValues(rows[..i + 1], rows[i].row.file) ==
            CorrectedColumn(Filter(rows[..i + 1], InFileC(rows[i].row.file)))
  {
    FileValuesAreFiltered(rows[..i + 1], rows[i].row.file);
  }

  lemma {:induction false} FileValuesAreFiltered(rows: seq<CorrectedRow>, f: string)
    ensures FileValues(rows, f) == CorrectedColumn(Filter(rows, InFileC(f)))
    decreases |rows|
  {
    if rows != [] {
      var init, last := rows[..|rows| - 1], rows[|rows| - 1];
      FileValuesAreFiltered(init, f);
      assert rows == init + [last];
      FilterAppend(init, [last], InFileC(f));
      var a, b := Filter(init, InFileC(f)), Filter([last], InFileC(f));
      assert b == if last.row.file == f then [last] else [];
      assert CorrectedColumn(a + b) == CorrectedColumn(a) + CorrectedColumn(b);
    }
  }
}
