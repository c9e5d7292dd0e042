/** The underway subsamples with their nutrient analyses: the sheet rows kept, the unit
    conversion, the duplicate codes and the quality flags. */
module SubsamplesRaw {
  import opened Frames
  import opened Text
  import opened Duplicates
  import opened Overrides
  import opened Nutrients

  // ---------------------------------------------------------------------------
  // The nutrient sheet (79-82) and the conversion (100-111).

  /** A row of the merged nutrient sheet: its sample name and concentrations. */
  datatype SheetRow = SheetRow(id: string, n: Nutrients)

  predicate ShortId(row: SheetRow)
  {
    |row.id| <= 3
  }

  /** The rows whose sample name has at most three characters, with the name lower-cased. */
  function SampleRows(rows: seq<SheetRow>): (r: seq<SheetRow>)
    ensures |r| == |Filter(rows, ShortId)| <= |rows|
    ensures forall k :: 0 <= k < |r| ==> |r[k].id| <= 3 && Lower(r[k].id) == r[k].id
  {
    var kept := Filter(rows, ShortId);
    forall k | 0 <= k < |kept| ensures Lower(Lower(kept[k].id)) == Lower(kept[k].id) {
      LowerIdempotent(kept[k].id);
    }
    seq(|kept|, k requires 0 <= k < |kept| => kept[k].(id := Lower(kept[k].id)))
  }

  /** Every kept row is a short-named row of the sheet with its name lower-cased. */
  lemma SampleRowsOrigin(rows: seq<SheetRow>, k: nat)
    requires k < |SampleRows(rows)|
    ensures exists j :: 0 <= j < |rows| && ShortId(rows[j]) &&
              SampleRows(rows)[k] == rows[j].(id := Lower(rows[j].id))
  {
    var kept := Filter(rows, ShortId);
    FilterIsSubseq(rows, ShortId);
    SubseqMultiset(kept, rows);
    assert kept[k] in multiset(kept);
    var j :| 0 <= j < |rows| && rows[j] == kept[k];
  }

  /** A sheet whose names are all short keeps every row, in order, only lower-cased. */
  lemma AllShortKept(rows: seq<SheetRow>)
    requires forall k :: 0 <= k < |rows| ==> |rows[k].id| <= 3
    ensures |SampleRows(rows)| == |rows|
    ensures forall k :: 0 <= k < |rows| ==> SampleRows(rows)[k] == rows[k].(id := Lower(rows[k].id))
  {
    FilterKeepsAll(rows, ShortId);
  }

  /** Lines 100 and 106-111: nitrate derived from NO3+NO2 and NO2, then every concentration
      divided by the density. The converted nitrate is the difference of the converted
      NO3+NO2 and NO2. */
  function Converted(n: Nutrients, density: Value): (r: Nutrients)
    requires density.Some? ==> density.value > 0.0
    ensures r.nitrate == Minus(r.nitrateNitrite, r.nitrite)
    ensures r.nitrate.Some? <==> density.Some? && n.nitrateNitrite.Some? && n.nitrite.Some?
  {
    NitrateBeforeConversion(n, density);
    PerKilogram(WithNitrate(n), density)
  }

  // ---------------------------------------------------------------------------
  // Quality control (116-314).

  /** A subsample row: its (lower-case) sample id and converted concentrations. */
  datatype SubsampleRow = SubsampleRow(id: string, n: Nutrients)

  /** The rows with a phosphate value (135-137), on which every pair statistic is computed. */
  function PairRows(rows: seq<SubsampleRow>): (r: seq<SubsampleRow>)
    ensures |r| <= |rows|
    ensures forall k :: 0 <= k < |r| ==> r[k].n.phosphate.Some?
    ensures multiset(r) <= multiset(rows)
  {
    FilterIsSubseq(rows, (row: SubsampleRow) => row.n.phosphate.Some?);
    SubseqMultiset(Filter(rows, (row: SubsampleRow) => row.n.phosphate.Some?), rows);
    Filter(rows, (row: SubsampleRow) => row.n.phosphate.Some?)
  }

  /** Every row with a phosphate value is kept, as often as it occurs and in table order,
      and no other row. */
  lemma PairRowsExactly(rows: seq<SubsampleRow>, x: SubsampleRow)
    ensures IsSubseq(PairRows(rows), rows)
    ensures multiset(PairRows(rows))[x] == if x.n.phosphate.Some? then multiset(rows)[x] else 0
  {
    FilterIsSubseq(rows, (row: SubsampleRow) => row.n.phosphate.Some?);
    FilterMultiset(rows, (row: SubsampleRow) => row.n.phosphate.Some?, x);
  }

  function Ids(rows: seq<SubsampleRow>): (r: seq<Option<string>>)
    ensures |r| == |rows|
    ensures forall k :: 0 <= k < |rows| ==> r[k] == Some(rows[k].id)
  {
    seq(|rows|, k requires 0 <= k < |rows| => Some(rows[k].id))
  }

  function PairCodes(rows: seq<SubsampleRow>): (r: seq<string>)
    ensures |r| == |rows|
    ensures forall k :: 0 <= k < |rows| ==> r[k] == DupCode(rows[k].id)
  {
    seq(|rows|, k requires 0 <= k < |rows| => DupCode(rows[k].id))
  }

  function Concentrations(rows: seq<SubsampleRow>): (r: seq<Nutrients>)
    ensures |r| == |rows|
    ensures forall k :: 0 <= k < |rows| ==> r[k] == rows[k].n
  {
    seq(|rows|, k requires 0 <= k < |rows| => rows[k].n)
  }

  /** The threshold of each flag column's pass (153, 170, 188, 207, 226, 245). */
  function SubsampleThreshold(column: nat): real
  {
    if column == PHOSPHATE then 1.1244298511197086
    else if column == NITRATE then 1.090059315150265
    else if column == NITRITE then 1.346392401087416
    else if column == SILICATE then 0.040382900391576666
    else if column == NITRATE_NITRITE then 1.0644479832449498
    else 1.3213859347936425
  }

  /** The concentration the pass of `column` reads. As written (237-239) the ammonium pass
      reads NO3+NO2; `ammoniumSource` names the column it reads, so that the script and the
      intended behaviour are the same definition with a different argument. */
  function PassSource(column: nat, ammoniumSource: nat): nat
  {
    if column == AMMONIUM then ammoniumSource else column
  }

  /** Lines 259-314: for a pair of ids, one statement per id in each flag column, in the
      column order of the script. */
  const BlockColumns: seq<nat> := [PHOSPHATE, AMMONIUM, NITRATE_NITRITE, NITRATE, NITRITE, SILICATE]

  function BlockPosition(column: nat): (p: nat)
    requires column < FLAG_COLUMNS
    ensures p < |BlockColumns| && BlockColumns[p] == column
  {
    if column == PHOSPHATE then 0
    else if column == AMMONIUM then 1
    else if column == NITRATE_NITRITE then 2
    else if column == NITRATE then 3
    else if column == NITRITE then 4
    else 5
  }

  function Block(a: string, b: string, flag: int): (r: seq<Override>)
    ensures |r| == 12
    ensures forall k :: 0 <= k < 12 ==> r[k].flag == Some(flag)
    ensures forall k :: 0 <= k < 12 ==> r[k].sel == KeyIs(a) || r[k].sel == KeyIs(b)
    ensures forall c :: 0 <= c < FLAG_COLUMNS ==>
              r[2 * BlockPosition(c)] == Override(KeyIs(a), c, Some(flag)) &&
              r[2 * BlockPosition(c) + 1] == Override(KeyIs(b), c, Some(flag))
  {
    seq(12, k requires 0 <= k < 12 => Override(KeyIs(if k % 2 == 0 then a else b), BlockColumns[k / 2], Some(flag)))
  }

  /** 36a/b: salinity flagged 3 (259-270); 37a/b: salinity flagged 4 (274-285); 14a/b: no
      salinity (289-300); 4a/b: not filtered on board (303-314). */
  function SubsampleStatements(): seq<Override>
  {
    Block("36a", "36b", 3) + Block("37a", "37b", 9) + Block("14a", "14b", 9) + Block("4a", "4b", 3)
  }

  /** The script runs without error iff every pair code occurs twice among the rows with
      phosphate and no id occurs twice among them. */
  predicate SubsamplesRun(rows: seq<SubsampleRow>)
  {
    AllPaired(PairCodes(PairRows(rows))) && UniqueKeys(Ids(PairRows(rows)))
  }

  /** Every manual statement writes 3 or 9. */
  lemma ManualFlags()
    ensures forall k :: 0 <= k < |SubsampleStatements()| ==>
              SubsampleStatements()[k].flag == Some(3) || SubsampleStatements()[k].flag == Some(9)
  {
    var b1, b2, b3, b4 := Block("36a", "36b", 3), Block("37a", "37b", 9), Block("14a", "14b", 9), Block("4a", "4b", 3);
    var t := SubsampleStatements();
    forall k | 0 <= k < |t| ensures t[k].flag == Some(3) || t[k].flag == Some(9) {
      if k < 12 {
        assert t[k] == b1[k];
      } else if k < 24 {
        assert t[k] == b2[k - 12];
      } else if k < 36 {
        assert t[k] == b3[k - 24];
      } else {
        assert t[k] == b4[k - 36];
      }
    }
  }

  lemma ManualStaysIn(row: RowRef, column: nat, start: Flag)
    requires start.None? || start == Some(2) || start == Some(3) || start == Some(9)
    ensures var f := ApplyInOrder(SubsampleStatements(), row, column, start);
            f.None? || f == Some(2) || f == Some(3) || f == Some(9)
  {
    ManualFlags();
    ApplyStaysIn(SubsampleStatements(), row, column, start, {None, Some(2), Some(3), Some(9)});
  }

  /** The flag a cell ends with when the ammonium pass reads `ammoniumSource`: 2, then the
      pass of its column, then missing if its concentration is missing, then the statements
      of lines 259-314. */
  function FlagWith(rows: seq<SubsampleRow>, i: nat, column: nat, ammoniumSource: nat): (f: Flag)
    requires i < |rows| && AllPaired(PairCodes(PairRows(rows)))
    ensures f.None? || f == Some(2) || f == Some(3) || f == Some(9)
  {
    var sub := PairRows(rows);
    var checked := ThresholdUpdate(Some(2), Some(rows[i].id), Ids(sub),
                                   PairRatios(PairCodes(sub), Column(Concentrations(sub), PassSource(column, ammoniumSource))),
                                   SubsampleThreshold(column));
    var cleared := MissingClears(checked, Measured(rows[i].n, column));
    ManualStaysIn(RowRef(Some(rows[i].id), None), column, cleared);
    ApplyInOrder(SubsampleStatements(), RowRef(Some(rows[i].id), None), column, cleared)
  }

  /** The flags the script computes: the ammonium pass reads NO3+NO2. */
  function SubsampleFlag(rows: seq<SubsampleRow>, i: nat, column: nat): (f: Flag)
    requires i < |rows| && AllPaired(PairCodes(PairRows(rows)))
  {
    FlagWith(rows, i, column, NITRATE_NITRITE)
  }

  /** The flags the script evidently intends: the ammonium pass reads ammonium. */
  function IntendedSubsampleFlag(rows: seq<SubsampleRow>, i: nat, column: nat): (f: Flag)
    requires i < |rows| && AllPaired(PairCodes(PairRows(rows)))
    ensures column != AMMONIUM ==> f == SubsampleFlag(rows, i, column)
  {
    FlagWith(rows, i, column, AMMONIUM)
  }

  /** The flag a cell holds after the six pair passes (139-248). */
  function Checked(rows: seq<SubsampleRow>, i: nat, column: nat): Flag
    requires i < |rows| && AllPaired(PairCodes(PairRows(rows)))
  {
    var sub := PairRows(rows);
    ThresholdUpdate(Some(2), Some(rows[i].id), Ids(sub),
                    PairRatios(PairCodes(sub), Column(Concentrations(sub), PassSource(column, NITRATE_NITRITE))),
                    SubsampleThreshold(column))
  }

  /** The flag of a cell once the passes of the columns in `done` have run (a pass only
      completes when every pair code is paired). */
  function PassedFlag(rows: seq<SubsampleRow>, i: nat, column: nat, done: set<nat>): Flag
    requires i < |rows|
  {
    if column in done && AllPaired(PairCodes(PairRows(rows))) then Checked(rows, i, column) else Some(2)
  }

  /** One pair pass of lines 139-248: the column judged by `PassSource(column, NITRATE_NITRITE)`
      against `SubsampleThreshold(column)`, written to `column`. */
  method Pass(rows: seq<SubsampleRow>, flags: array2<Flag>, column: nat, ghost done: set<nat>) returns (ok: bool)
    requires flags.Length0 == |rows| && flags.Length1 == FLAG_COLUMNS && column < FLAG_COLUMNS
    requires forall i, c :: 0 <= i < |rows| && 0 <= c < FLAG_COLUMNS ==> flags[i, c] == PassedFlag(rows, i, c, done)
    requires column !in done
    modifies flags
    ensures ok <==> SubsamplesRun(rows)
    ensures ok ==> forall i, c :: 0 <= i < |rows| && 0 <= c < FLAG_COLUMNS ==>
              flags[i, c] == PassedFlag(rows, i, c, done + {column})
  {
    var sub := PairRows(rows);
    ok := PairThresholdPass(Ids(rows), Ids(sub), PairCodes(sub),
                            Column(Concentrations(sub), PassSource(column, NITRATE_NITRITE)),
                            SubsampleThreshold(column), flags, column);
  }

  /** The six pair passes of lines 139-248, in the script's order, on flags that are all 2. */
  method PairPasses(rows: seq<SubsampleRow>, flags: array2<Flag>) returns (ok: bool)
    requires flags.Length0 == |rows| && flags.Length1 == FLAG_COLUMNS
    requires forall i, c :: 0 <= i < |rows| && 0 <= c < FLAG_COLUMNS ==> flags[i, c] == Some(2)
    modifies flags
    ensures ok <==> SubsamplesRun(rows)
    ensures ok ==> forall i, c :: 0 <= i < |rows| && 0 <= c < FLAG_COLUMNS ==> flags[i, c] == Checked(rows, i, c)
  {
    ghost var done: set<nat> := {};
    ok := Pass(rows, flags, PHOSPHATE, done);
    if !ok {
      return;
    }
    done := done + {PHOSPHATE};
    ok := Pass(rows, flags, NITRATE, done);
    done := done + {NITRATE};
    ok := Pass(rows, flags, NITRITE, done);
    done := done + {NITRITE};
    ok := Pass(rows, flags, SILICATE, done);
    done := done + {SILICATE};
    ok := Pass(rows, flags, NITRATE_NITRITE, done);
    done := done + {NITRATE_NITRITE};
    ok := Pass(rows, flags, AMMONIUM, done);
    done := done + {AMMONIUM};
    assert forall c :: 0 <= c < FLAG_COLUMNS ==> c in done;
  }

  /** Lines 116-314: flags start at 2, the dupcode loop, the six pair passes, the missing-value
      statements and the manual statements, in that order. */
  method SubsampleQualityControl(rows: seq<SubsampleRow>) returns (ok: bool, flags: array2<Flag>)
    ensures fresh(flags) && flags.Length0 == |rows| && flags.Length1 == FLAG_COLUMNS
    ensures ok <==> SubsamplesRun(rows)
    ensures ok ==> forall i, c :: 0 <= i < |rows| && 0 <= c < FLAG_COLUMNS ==> flags[i, c] == SubsampleFlag(rows, i, c)
  {
    flags := new Flag[|rows|, FLAG_COLUMNS]((_, _) => Some(2));
    var dupcode := new string[|rows|];
    AssignDupCodes(seq(|rows|, k requires 0 <= k < |rows| => rows[k].id), dupcode);
    ok := PairPasses(rows, flags);
    if !ok {
      return;
    }
    ClearMissing(Concentrations(rows), flags);
    var refs := seq(|rows|, i requires 0 <= i < |rows| => RowRef(Some(rows[i].id), None));
    ApplyOverrides(refs, flags, SubsampleStatements());
  }

  // ---------------------------------------------------------------------------
  // Properties.

  /** One block decides every flag of its two ids and leaves the others alone. */
  lemma BlockApplies(a: string, b: string, flag: int, id: string, column: nat, start: Flag)
    requires column < FLAG_COLUMNS
    ensures ApplyInOrder(Block(a, b, flag), RowRef(Some(id), None), column, start) ==
            if id == a || id == b then Some(flag) else start
  {
    var row := RowRef(Some(id), None);
    var t := Block(a, b, flag);
    var p := 2 * BlockPosition(column);
    UniformTable(t, row, column, start, Some(flag));
    if id == a {
      assert Hits(t[p], row, column);
    } else if id == b {
      assert Hits(t[p + 1], row, column);
    }
  }

  /** The manual statements of lines 259-314 decide every flag of the eight ids they name:
      3 for 36a/b and 4a/b, 9 for 37a/b and 14a/b; any other id keeps its flag. */
  lemma ManualStatements(id: string, column: nat, start: Flag)
    requires column < FLAG_COLUMNS
    ensures ApplyInOrder(SubsampleStatements(), RowRef(Some(id), None), column, start) ==
            if id in {"36a", "36b", "4a", "4b"} then Some(3)
            else if id in {"37a", "37b", "14a", "14b"} then Some(9)
            else start
  {
    var row := RowRef(Some(id), None);
    var b1, b2, b3, b4 := Block("36a", "36b", 3), Block("37a", "37b", 9), Block("14a", "14b", 9), Block("4a", "4b", 3);
    ApplyAppend(b1 + b2 + b3, b4, row, column, start);
    ApplyAppend(b1 + b2, b3, row, column, start);
    ApplyAppend(b1, b2, row, column, start);
    BlockApplies("36a", "36b", 3, id, column, start);
    var s1 := ApplyInOrder(b1, row, column, start);
    BlockApplies("37a", "37b", 9, id, column, s1);
    var s2 := ApplyInOrder(b2, row, column, s1);
    BlockApplies("14a", "14b", 9, id, column, s2);
    var s3 := ApplyInOrder(b3, row, column, s2);
    BlockApplies("4a", "4b", 3, id, column, s3);
  }

  /** A missing concentration's flag is missing, unless the id is one the manual statements
      name, which wins. */
  lemma MissingValueFlag(rows: seq<SubsampleRow>, i: nat, column: nat)
    requires i < |rows| && AllPaired(PairCodes(PairRows(rows))) && column < FLAG_COLUMNS
    requires Measured(rows[i].n, column).None?
    ensures SubsampleFlag(rows, i, column) ==
            if rows[i].id in {"36a", "36b", "4a", "4b"} then Some(3)
            else if rows[i].id in {"37a", "37b", "14a", "14b"} then Some(9)
            else None
  {
    ManualStatements(rows[i].id, column, None);
  }

  /** The eight ids the manual statements of lines 259-314 name. */
  predicate Overridden(id: string)
  {
    id in {"36a", "36b", "4a", "4b", "37a", "37b", "14a", "14b"}
  }

  /** Row `i` of the table is row `j` of the pair table, the script runs, and the manual
      statements leave its id alone. */
  predicate PairedRow(rows: seq<SubsampleRow>, i: nat, j: nat)
  {
    i < |rows| && SubsamplesRun(rows) && !Overridden(rows[i].id) &&
    j < |PairRows(rows)| && PairRows(rows)[j].id == rows[i].id
  }

  /** For such a row with the column's concentration present, the flag is the one its
      pair's ratio earns in the pass. */
  lemma PairedFlag(rows: seq<SubsampleRow>, i: nat, j: nat, column: nat, ammoniumSource: nat, source: nat, threshold: real)
    requires PairedRow(rows, i, j) && column < FLAG_COLUMNS && Measured(rows[i].n, column).Some?
    requires source == PassSource(column, ammoniumSource) && threshold == SubsampleThreshold(column)
    ensures FlagWith(rows, i, column, ammoniumSource) ==
            Some(ThresholdFlag(PairRatios(PairCodes(PairRows(rows)), Column(Concentrations(PairRows(rows)), source))[j],
                               threshold))
  {
    var sub := PairRows(rows);
    var ratios := PairRatios(PairCodes(sub), Column(Concentrations(sub), source));
    var keys := Ids(sub);
    assert keys[j] == Some(rows[i].id);
    RatioForUnique(keys, ratios, j);
    var checked := ThresholdUpdate(Some(2), Some(rows[i].id), keys, ratios, SubsampleThreshold(column));
    assert checked == Some(ThresholdFlag(ratios[j], SubsampleThreshold(column)));
    ManualStatements(rows[i].id, column, MissingClears(checked, Measured(rows[i].n, column)));
  }

  /** As written, the ammonium flag of such a row follows the NO3+NO2 ratio of its pair. */
  lemma AmmoniumFlagFollowsNitrateNitrite(rows: seq<SubsampleRow>, i: nat, j: nat)
    requires PairedRow(rows, i, j) && rows[i].n.ammonium.Some?
    ensures SubsampleFlag(rows, i, AMMONIUM) ==
            Some(ThresholdFlag(PairRatios(PairCodes(PairRows(rows)), Column(Concentrations(PairRows(rows)), NITRATE_NITRITE))[j],
                               1.3213859347936425))
  {
    PairedFlag(rows, i, j, AMMONIUM, NITRATE_NITRITE, NITRATE_NITRITE, 1.3213859347936425);
  }

  /** Intended: the ammonium flag follows the ammonium ratio of the pair. */
  lemma IntendedAmmoniumFlag(rows: seq<SubsampleRow>, i: nat, j: nat)
    requires PairedRow(rows, i, j) && rows[i].n.ammonium.Some?
    ensures IntendedSubsampleFlag(rows, i, AMMONIUM) ==
            Some(ThresholdFlag(PairRatios(PairCodes(PairRows(rows)), Column(Concentrations(PairRows(rows)), AMMONIUM))[j],
                               1.3213859347936425))
  {
    PairedFlag(rows, i, j, AMMONIUM, AMMONIUM, AMMONIUM, 1.3213859347936425);
  }

  /** Where the NO3+NO2 ratio of a pair exceeds the ammonium threshold and its ammonium ratio
      does not, the script flags the ammonium value questionable (3) where the intended pass
      would leave it good (2). */
  lemma AmmoniumFlagDiverges(rows: seq<SubsampleRow>, i: nat, j: nat)
    requires PairedRow(rows, i, j) && rows[i].n.ammonium.Some?
    requires Exceeds(PairRatios(PairCodes(PairRows(rows)), Column(Concentrations(PairRows(rows)), NITRATE_NITRITE))[j],
                     1.3213859347936425)
    requires !Exceeds(PairRatios(PairCodes(PairRows(rows)), Column(Concentrations(PairRows(rows)), AMMONIUM))[j],
                      1.3213859347936425)
    ensures SubsampleFlag(rows, i, AMMONIUM) == Some(3)
    ensures IntendedSubsampleFlag(rows, i, AMMONIUM) == Some(2)
  {
    AmmoniumFlagFollowsNitrateNitrite(rows, i, j);
    IntendedAmmoniumFlag(rows, i, j);
  }

  /** A pair 1a/1b with equal ammonium (ratio 0) and NO3+NO2 of 0 and 2 (ratio 2). */
  function CounterexampleRows(): seq<SubsampleRow>
  {
    [SubsampleRow("1a", Nutrients(Some(1.0), Some(1.0), Some(0.0), Some(1.0), Some(1.0), Some(1.0))),
     SubsampleRow("1b", Nutrients(Some(1.0), Some(1.0), Some(2.0), Some(1.0), Some(1.0), Some(1.0)))]
  }

  lemma CounterexamplePairRows()
    ensures PairRows(CounterexampleRows()) == CounterexampleRows()
    ensures PairCodes(CounterexampleRows()) == ["1", "1"]
  {
    var rows := CounterexampleRows();
    FilterKeepsAll(rows, (row: SubsampleRow) => row.n.phosphate.Some?);
    assert "1a"[..1] == "1" && "1b"[..1] == "1";
  }

  lemma CounterexampleKeys()
    ensures UniqueKeys(Ids(CounterexampleRows()))
  {
    var keys := Ids(CounterexampleRows());
    assert keys == [Some("1a"), Some("1b")];
    assert "1a"[1] != "1b"[1];
    assert multiset(keys)[Some("1a")] == 1 && multiset(keys)[Some("1b")] == 1;
  }

  lemma CounterexampleCodes()
    ensures AllPaired(PairCodes(PairRows(CounterexampleRows())))
  {
    CounterexamplePairRows();
    assert multiset(["1", "1"])["1"] == 2;
  }

  lemma CounterexamplePaired()
    ensures PairedRow(CounterexampleRows(), 0, 0)
  {
    CounterexamplePairRows();
    CounterexampleKeys();
    CounterexampleCodes();
    CounterexampleNotOverridden();
  }

  lemma CounterexampleNotOverridden()
    ensures !Overridden(CounterexampleRows()[0].id)
  {
    assert "1a"[0] == '1';
  }

  /** The ratio of a single pair holding `a` and `b`. */
  lemma RatioOfOnePair(a: real, b: real, q: real)
    requires a + b != 0.0 && q == 2.0 * Abs(a - (a + b) / 2.0) / ((a + b) / 2.0)
    ensures AllPaired(["1", "1"])
    ensures PairRatios(["1", "1"], [Some(a), Some(b)])[0] == Finite(q)
  {
    var codes: seq<string> := ["1", "1"];
    var values := [Some(a), Some(b)];
    assert multiset(codes)["1"] == 2;
    assert codes[1..] == ["1"] && ["1"][1..] == [];
    assert Group(codes, values, "1") == values;
    PairOfTwo(a, b);
  }

  lemma CounterexampleRatios()
    ensures var sub := PairRows(CounterexampleRows());
            AllPaired(PairCodes(sub)) &&
            PairRatios(PairCodes(sub), Column(Concentrations(sub), NITRATE_NITRITE))[0] == Finite(2.0) &&
            PairRatios(PairCodes(sub), Column(Concentrations(sub), AMMONIUM))[0] == Finite(0.0)
  {
    CounterexamplePairRows();
    var rows := CounterexampleRows();
    assert Column(Concentrations(rows), NITRATE_NITRITE) == [Some(0.0), Some(2.0)];
    assert Column(Concentrations(rows), AMMONIUM) == [Some(1.0), Some(1.0)];
    assert Abs(0.0 - 1.0) == 1.0 && Abs(1.0 - 1.0) == 0.0;
    RatioOfOnePair(0.0, 2.0, 2.0);
    RatioOfOnePair(1.0, 1.0, 0.0);
  }

  /** On that pair the script gives the ammonium flag of 1a 3, the intended pass 2. */
  lemma AmmoniumCounterexample()
    ensures SubsamplesRun(CounterexampleRows())
    ensures SubsampleFlag(CounterexampleRows(), 0, AMMONIUM) == Some(3)
    ensures IntendedSubsampleFlag(CounterexampleRows(), 0, AMMONIUM) == Some(2)
  {
    CounterexamplePaired();
    CounterexampleRatios();
    AmmoniumFlagDiverges(CounterexampleRows(), 0, 0);
  }
}
