/** The CTD bottle table with its nutrient analyses: the sample names of the nutrient
    sheets, the station codes used to join them, the unit conversion and the quality flags. */
module CtdRaw {
  import opened Frames
  import opened Text
  import opened Duplicates
  import opened Overrides
  import opened Nutrients

  /** The salinity and temperature columns: the row mean of the a and b sensors, which is
      the single present reading when the other is missing. */
  function ChannelMean(a: Value, b: Value): (r: Value)
    ensures a.Some? && b.Some? ==> r == Some((a.value + b.value) / 2.0)
    ensures a.Some? && b.None? ==> r == a
    ensures a.None? && b.Some? ==> r == b
    ensures a.None? && b.None? ==> r.None?
  {
    MeanOfTwo(a, b);
    NanMean([a, b])
  }

  // ---------------------------------------------------------------------------
  // Sample names (79-86 and 137-144).

  /** A name with exactly three '-' separated parts, such as "STN4-13-1". */
  predicate IsFullName(name: string)
  {
    |Split(name, '-')| == 3
  }

  /** The station prefix in force after `names`: the first part of the last full name, or
      `start` (the value `stn` holds before the loop) if there is none. */
  function LastPrefix(names: seq<string>, start: Option<string>): (p: Option<string>)
    ensures p == start || (p.Some? && '-' !in p.value)
  {
    if names == [] then start
    else
      var last := names[|names| - 1];
      if IsFullName(last) then Some(Split(last, '-')[0])
      else LastPrefix(names[..|names| - 1], start)
  }

  /** One iteration: a full name is kept; any other name is put behind the current prefix
      and a '-', which is a NameError while no prefix has been seen. */
  function NormaliseName(name: string, prefix: Option<string>): (r: Result<string>)
    ensures IsFullName(name) ==> r == Ok(name)
    ensures !IsFullName(name) ==> (r.Ok? <==> prefix.Some?)
    ensures r.Ok? && !IsFullName(name) ==>
              prefix.Some? && |r.value| == |prefix.value| + 1 + |name| &&
              r.value[..|prefix.value|] == prefix.value && r.value[|prefix.value|] == '-' &&
              r.value[|prefix.value| + 1..] == name
  {
    if IsFullName(name) then Ok(name)
    else if prefix.None? then Err("NameError: name 'stn' is not defined")
    else Ok(prefix.value + "-" + name)
  }

  /** The whole list renamed, each name behind the prefix in force when it is reached; the
      first failing name fails the loop. */
  function NormalisedNames(samples: seq<string>, start: Option<string>): (r: Result<seq<string>>)
    ensures r.Ok? ==> |r.value| == |samples|
  {
    if samples == [] then Ok([])
    else
      var init := samples[..|samples| - 1];
      match NormalisedNames(init, start)
      case Err(e) => Err(e)
      case Ok(names) =>
        match NormaliseName(samples[|samples| - 1], LastPrefix(init, start))
        case Err(e) => Err(e)
        case Ok(name) => Ok(names + [name])
  }

  /** What the loop makes of the k-th name: it is renamed with the prefix read from the
      names before it. */
  function Renamed(samples: seq<string>, k: nat, start: Option<string>): Result<string>
    requires k < |samples|
  {
    NormaliseName(samples[k], LastPrefix(samples[..k], start))
  }

  lemma RenamedOfPrefix(samples: seq<string>, n: nat, k: nat, start: Option<string>)
    requires k < n <= |samples|
    ensures Renamed(samples[..n], k, start) == Renamed(samples, k, start)
  {
    assert samples[..n][..k] == samples[..k];
  }

  /** The list is renamed iff every name is. */
  lemma {:induction false} NormalisedNamesSucceed(samples: seq<string>, start: Option<string>)
    ensures NormalisedNames(samples, start).Ok? <==>
            forall k :: 0 <= k < |samples| ==> Renamed(samples, k, start).Ok?
  {
    if samples != [] {
      var n := |samples| - 1;
      assert NormalisedNames(samples, start).Ok? <==>
             NormalisedNames(samples[..n], start).Ok? && Renamed(samples, n, start).Ok?;
      NormalisedNamesSucceed(samples[..n], start);
      forall k | 0 <= k < n ensures Renamed(samples[..n], k, start) == Renamed(samples, k, start) {
        RenamedOfPrefix(samples, n, k, start);
      }
    }
  }

  /** The k-th name of the renamed list is the k-th name renamed. */
  lemma {:induction false} NormalisedNamesValues(samples: seq<string>, start: Option<string>)
    requires NormalisedNames(samples, start).Ok?
    ensures forall k :: 0 <= k < |samples| ==>
              Renamed(samples, k, start).Ok? && NormalisedNames(samples, start).value[k] == Renamed(samples, k, start).value
  {
    if samples != [] {
      var n := |samples| - 1;
      var r, ri := NormalisedNames(samples, start), NormalisedNames(samples[..n], start);
      assert ri.Ok? && r.value == ri.value + [Renamed(samples, n, start).value];
      NormalisedNamesValues(samples[..n], start);
      forall k | 0 <= k < n ensures Renamed(samples[..n], k, start) == Renamed(samples, k, start) {
        RenamedOfPrefix(samples, n, k, start);
      }
    }
  }

  /** The renaming loop. `start` is what `stn` holds when the loop begins (undefined before
      the silicate loop, the silicate loop's last prefix before the nutrient loop); `stn` is
      what it holds afterwards. */
  method NormaliseNames(samples: seq<string>, start: Option<string>)
    returns (ok: bool, names: seq<string>, stn: Option<string>)
    ensures ok <==> NormalisedNames(samples, start).Ok?
    ensures ok ==> names == NormalisedNames(samples, start).value
    ensures ok ==> stn == LastPrefix(samples, start)
  {
    stn := start;
    names := [];
    for k := 0 to |samples|
      invariant NormalisedNames(samples[..k], start) == Ok(names)
      invariant stn == LastPrefix(samples[..k], start)
    {
      var sample := samples[k];
      assert samples[..k + 1][..k] == samples[..k];
      if |Split(sample, '-')| == 3 {
        stn := Some(Split(sample, '-')[0]);
        names := names + [sample];
      } else {
        if stn.None? {
          assert NormalisedNames(samples[..k + 1], start).Err?;
          FailureStays(samples, k + 1, start);
          return false, names, stn;
        }
        names := names + [stn.value + "-" + sample];
      }
    }
    assert samples[..|samples|] == samples;
    return true, names, stn;
  }

  /** Once a name fails, the loop has failed whatever follows. */
  lemma {:induction false} FailureStays(samples: seq<string>, k: nat, start: Option<string>)
    requires k <= |samples| && NormalisedNames(samples[..k], start).Err?
    ensures NormalisedNames(samples, start).Err?
    decreases |samples| - k
  {
    if k < |samples| {
      assert samples[..k + 1][..k] == samples[..k];
      FailureStays(samples, k + 1, start);
    } else {
      assert samples[..k] == samples;
    }
  }

  /** `stn` is carried from the silicate loop into the nutrient loop: running the second
      loop from the first one's prefix is running one loop over both lists. */
  lemma {:induction false} PrefixCarriesOver(a: seq<string>, b: seq<string>, start: Option<string>)
    ensures LastPrefix(a + b, start) == LastPrefix(b, LastPrefix(a, start))
  {
    if b == [] {
      assert a + b == a;
    } else {
      assert (a + b)[..|a + b| - 1] == a + b[..|b| - 1];
      PrefixCarriesOver(a, b[..|b| - 1], start);
    }
  }

  /** Before the first full name there is no prefix, so an abbreviated name there fails. */
  lemma {:induction false} NoPrefixBeforeFullName(names: seq<string>)
    requires forall k :: 0 <= k < |names| ==> !IsFullName(names[k])
    ensures LastPrefix(names, None) == None
  {
    if names != [] {
      NoPrefixBeforeFullName(names[..|names| - 1]);
    }
  }

  /** An abbreviated name of two parts ("13-1") behind a prefix read from a full name gets
      three parts: the prefix, then its own two. */
  lemma AbbreviatedNameCompleted(name: string, prefix: string)
    requires |Split(name, '-')| == 2 && '-' !in prefix
    ensures IsFullName(NormaliseName(name, Some(prefix)).value)
    ensures Split(NormaliseName(name, Some(prefix)).value, '-') == [prefix] + Split(name, '-')
  {
    SplitAround(prefix, name, '-');
    SplitWithoutSeparator(prefix, '-');
  }

  // ---------------------------------------------------------------------------
  // Station, niskin and duplicate (94-96, 149-153) and the station code (157-162).

  /** `station` is the last character of the first part (NaN when that part is empty),
      `niskin` the second part and `duplicate` the third. */
  datatype SampleParts = SampleParts(station: Option<char>, niskin: string, duplicate: string)

  /** Python raises IndexError on a name with fewer than three parts. */
  function SplitSample(name: string): (r: Result<SampleParts>)
    ensures r.Ok? <==> |Split(name, '-')| >= 3
    ensures r.Ok? ==> (r.value.station.None? <==> Split(name, '-')[0] == "")
    ensures r.Ok? ==> '-' !in r.value.niskin && '-' !in r.value.duplicate
  {
    var parts := Split(name, '-');
    if |parts| < 3 then Err("IndexError: list index out of range")
    else
      var first := parts[0];
      Ok(SampleParts(if first == "" then None else Some(first[|first| - 1]), parts[1], parts[2]))
  }

  /** A name assembled from three parts without '-' splits back into them. */
  lemma SplitSampleOfParts(first: string, niskin: string, duplicate: string)
    requires first != [] && '-' !in first && '-' !in niskin && '-' !in duplicate
    ensures SplitSample(first + "-" + niskin + "-" + duplicate) ==
            Ok(SampleParts(Some(first[|first| - 1]), niskin, duplicate))
  {
    SplitAround(first, niskin + "-" + duplicate, '-');
    SplitAround(niskin, duplicate, '-');
    SplitWithoutSeparator(first, '-');
    SplitWithoutSeparator(niskin, '-');
    SplitWithoutSeparator(duplicate, '-');
    assert first + "-" + niskin + "-" + duplicate == first + ['-'] + (niskin + ['-'] + duplicate);
  }

  /** The nutrient sheet's niskin: the whole value "N" replaced by "" and then every leading
      'N' stripped. */
  function NutrientNiskin(niskin: string): (r: string)
    ensures r == LStrip(niskin, {'N'})
  {
    var replaced := if niskin == "N" then "" else niskin;
    assert LStrip("N", {'N'}) == LStrip("", {'N'});
    LStrip(replaced, {'N'})
  }

  /** The silicate sheet's code: `astype(str)` turns a missing station into "nan". */
  function SilicateCode(p: SampleParts): (code: string)
    ensures p.station.Some? ==> code == [p.station.value] + p.niskin + p.duplicate
    ensures p.station.None? ==> code == "nan" + p.niskin + p.duplicate
  {
    (if p.station.Some? then [p.station.value] else "nan") + p.niskin + p.duplicate
  }

  /** The nutrient sheet's code: string concatenation with a missing station is missing. */
  function NutrientCode(p: SampleParts): (code: Option<string>)
    ensures code.Some? <==> p.station.Some?
    ensures code.Some? ==> code.value == [p.station.value] + NutrientNiskin(p.niskin) + p.duplicate
  {
    if p.station.Some? then Some([p.station.value] + NutrientNiskin(p.niskin) + p.duplicate) else None
  }

  /** A nutrient sample "STN<s>-N<nn>-<d>" and a silicate sample "STN<s>-<nn>-<d>" of the
      same bottle get the same code, so the inner join on `stncode` pairs them. */
  lemma SheetsAgree(s: char, nn: string, d: string)
    requires s != '-' && nn != [] && nn[0] != 'N' && '-' !in nn && '-' !in d
    ensures SplitSample("STN" + [s] + "-N" + nn + "-" + d).Ok? &&
            SplitSample("STN" + [s] + "-" + nn + "-" + d).Ok? &&
            NutrientCode(SplitSample("STN" + [s] + "-N" + nn + "-" + d).value) ==
            Some(SilicateCode(SplitSample("STN" + [s] + "-" + nn + "-" + d).value))
  {
    NutrientSampleParts(s, nn, d);
    SilicateSampleParts(s, nn, d);
    NiskinPrefixStripped(nn);
  }

  /** The nutrient sheet's "N" before the niskin number is stripped again. */
  lemma NiskinPrefixStripped(nn: string)
    requires nn != [] && nn[0] != 'N'
    ensures NutrientNiskin("N" + nn) == nn
  {
    assert LStrip("N" + nn, {'N'}) == LStrip(nn, {'N'}) == nn by {
      assert ("N" + nn)[1..] == nn;
    }
  }

  lemma NutrientSampleParts(s: char, nn: string, d: string)
    requires s != '-' && '-' !in nn && '-' !in d
    ensures SplitSample("STN" + [s] + "-N" + nn + "-" + d) == Ok(SampleParts(Some(s), "N" + nn, d))
  {
    var first := "STN" + [s];
    SplitSampleOfParts(first, "N" + nn, d);
    assert "STN" + [s] + "-N" + nn + "-" + d == first + "-" + ("N" + nn) + "-" + d;
  }

  lemma SilicateSampleParts(s: char, nn: string, d: string)
    requires s != '-' && '-' !in nn && '-' !in d
    ensures SplitSample("STN" + [s] + "-" + nn + "-" + d) == Ok(SampleParts(Some(s), nn, d))
  {
    var first := "STN" + [s];
    SplitSampleOfParts(first, nn, d);
    assert "STN" + [s] + "-" + nn + "-" + d == first + "-" + nn + "-" + d;
  }

  // ---------------------------------------------------------------------------
  // Quality control (196-385).

  /** A row of `ctd_data` after the join with the nutrient table: the CTD's station and
      niskin, the joined station code (missing where no sample matched) and the converted
      concentrations. */
  datatype CtdRow = CtdRow(station: string, niskin: string, stncode: Option<string>, n: Nutrients)

  /** The statements of lines 209-253, as (station code, flag). */
  const PhosphateChecks: seq<(string, int)> := [
    ("1151", 4), ("182", 4), ("1102", 4), ("1141", 3), ("1142", 3),
    ("3131", 4), ("382", 4), ("3141", 3), ("3142", 3), ("361", 3), ("362", 3), ("331", 3), ("332", 3),
    ("4121", 4), ("4141", 3), ("4142", 3), ("4131", 3), ("4132", 3), ("411", 3), ("412", 3),
    ("5121", 4), ("5111", 4), ("512", 4),
    ("681", 4), ("671", 3), ("672", 3), ("611", 3), ("612", 3),
    ("791", 4),
    ("4131", 3), ("4132", 3), ("4101", 3), ("9102", 3)]

  /** The statements of lines 257-293. */
  const NitrateChecks: seq<(string, int)> := [
    ("1151", 4), ("182", 4), ("1102", 4), ("1141", 3), ("1142", 3),
    ("3131", 4), ("382", 4), ("362", 3), ("362", 3),
    ("4121", 3), ("4122", 3),
    ("512", 4), ("5121", 3), ("5122", 3),
    ("6121", 3), ("6122", 3), ("681", 3), ("682", 3), ("671", 3), ("672", 3),
    ("791", 4),
    ("9131", 3), ("9132", 3), ("9101", 3), ("9102", 3)]

  function CtdStatements(): (r: seq<Override>)
    ensures forall k :: 0 <= k < |r| ==> r[k].column == PHOSPHATE || r[k].column == NITRATE
    ensures forall k :: 0 <= k < |r| ==> r[k].flag == Some(3) || r[k].flag == Some(4)
  {
    PhosphateFlags();
    NitrateFlags();
    KeyStatements(PhosphateChecks, PHOSPHATE) + KeyStatements(NitrateChecks, NITRATE)
  }

  /** Every phosphate statement sets a 3 or a 4. */
  lemma PhosphateFlags()
    ensures forall k :: 0 <= k < |PhosphateChecks| ==> PhosphateChecks[k].1 == 3 || PhosphateChecks[k].1 == 4
  {
  }

  /** Every nitrate statement sets a 3 or a 4. */
  lemma NitrateFlags()
    ensures forall k :: 0 <= k < |NitrateChecks| ==> NitrateChecks[k].1 == 3 || NitrateChecks[k].1 == 4
  {
  }

  /** The rows with a nitrite value (297-299), on which every pair statistic is computed. */
  function PairRows(rows: seq<CtdRow>): (r: seq<CtdRow>)
    ensures forall k :: 0 <= k < |r| ==> r[k].n.nitrite.Some? && r[k] in rows
  {
    var r := Filter(rows, (row: CtdRow) => row.n.nitrite.Some?);
    FilterIsSubseq(rows, (row: CtdRow) => row.n.nitrite.Some?);
    SubseqMultiset(r, rows);
    assert forall k :: 0 <= k < |r| ==> r[k] in multiset(r);
    r
  }

  /** Every row with a nitrite value is kept, as often as it occurs and in table order, and
      no other row. */
  lemma PairRowsExactly(rows: seq<CtdRow>, x: CtdRow)
    ensures IsSubseq(PairRows(rows), rows)
    ensures multiset(PairRows(rows))[x] == if x.n.nitrite.Some? then multiset(rows)[x] else 0
  {
    FilterIsSubseq(rows, (row: CtdRow) => row.n.nitrite.Some?);
    FilterMultiset(rows, (row: CtdRow) => row.n.nitrite.Some?, x);
  }

  /** `dupcode = station + niskin` (301). */
  function PairCodes(sub: seq<CtdRow>): (r: seq<string>)
    ensures |r| == |sub|
    ensures forall k :: 0 <= k < |sub| ==> r[k] == sub[k].station + sub[k].niskin
  {
    seq(|sub|, k requires 0 <= k < |sub| => sub[k].station + sub[k].niskin)
  }

  function StationCodes(rows: seq<CtdRow>): (r: seq<Option<string>>)
    ensures |r| == |rows|
    ensures forall k :: 0 <= k < |rows| ==> r[k] == rows[k].stncode
  {
    seq(|rows|, k requires 0 <= k < |rows| => rows[k].stncode)
  }

  function Concentrations(rows: seq<CtdRow>): (r: seq<Nutrients>)
    ensures |r| == |rows|
    ensures forall k :: 0 <= k < |rows| ==> r[k] == rows[k].n
  {
    seq(|rows|, k requires 0 <= k < |rows| => rows[k].n)
  }

  /** The flag columns with a pair pass, and its threshold (the precision numbers, 317, 336,
      355, 374); each pass reads the column it flags. */
  function CtdThreshold(column: nat): Option<real>
  {
    if column == NITRITE then Some(1.346392401087416)
    else if column == SILICATE then Some(0.040382900391576666)
    else if column == NITRATE_NITRITE then Some(1.0644479832449498)
    else if column == AMMONIUM then Some(1.3213859347936425)
    else None
  }

  /** The script runs without error iff every pair code occurs twice among the rows with
      nitrite and no station code occurs twice among them. */
  predicate CtdRuns(rows: seq<CtdRow>)
  {
    AllPaired(PairCodes(PairRows(rows))) && UniqueKeys(StationCodes(PairRows(rows)))
  }

  /** The columns with a pair pass. */
  const PASSES: set<nat> := {NITRITE, SILICATE, NITRATE_NITRITE, AMMONIUM}

  /** The flag a cell holds after the manual statements (209-293), starting from 2. */
  function ManualFlag(key: Option<string>, column: nat): (f: Flag)
    ensures f == Some(2) || f == Some(3) || f == Some(4)
  {
    ApplyStaysIn(CtdStatements(), RowRef(key, None), column, Some(2), {Some(2), Some(3), Some(4)});
    ApplyInOrder(CtdStatements(), RowRef(key, None), column, Some(2))
  }

  /** The flag a cell holds once the pair passes of the columns in `done` have run: 2, then
      the manual statements, then the pass of its column if that one has run (a pass only
      completes when every pair code is paired). */
  function PassedFlag(rows: seq<CtdRow>, i: nat, column: nat, done: set<nat>): (f: Flag)
    requires i < |rows|
    ensures f == Some(2) || f == Some(3) || f == Some(4)
  {
    var manual := ManualFlag(rows[i].stncode, column);
    var sub := PairRows(rows);
    if column in done && CtdThreshold(column).Some? && AllPaired(PairCodes(sub)) then
      ThresholdUpdate(manual, rows[i].stncode, StationCodes(sub),
                      PairRatios(PairCodes(sub), Column(Concentrations(sub), column)), CtdThreshold(column).value)
    else manual
  }

  /** The flag a cell ends with: 2, then the manual statements, then the pair pass of its
      column, then missing if its concentration is missing. */
  function CtdFlag(rows: seq<CtdRow>, i: nat, column: nat): (f: Flag)
    requires i < |rows| && AllPaired(PairCodes(PairRows(rows)))
    ensures Measured(rows[i].n, column).None? ==> f.None?
    ensures f.Some? ==> f.value == 2 || f.value == 3 || f.value == 4
  {
    MissingClears(PassedFlag(rows, i, column, PASSES), Measured(rows[i].n, column))
  }

  /** Lines 196-385: flags start at 2, the manual statements, the four pair passes and the
      missing-value statements, in that order. */
  method CtdQualityControl(rows: seq<CtdRow>) returns (ok: bool, flags: array2<Flag>)
    ensures fresh(flags) && flags.Length0 == |rows| && flags.Length1 == FLAG_COLUMNS
    ensures ok <==> CtdRuns(rows)
    ensures ok ==> forall i, c :: 0 <= i < |rows| && 0 <= c < FLAG_COLUMNS ==> flags[i, c] == CtdFlag(rows, i, c)
  {
    flags := new Flag[|rows|, FLAG_COLUMNS]((_, _) => Some(2));
    var refs := seq(|rows|, i requires 0 <= i < |rows| => RowRef(rows[i].stncode, None));
    ApplyOverrides(refs, flags, CtdStatements());
    ok := CtdPass(rows, flags, NITRITE, {});
    if !ok {
      return;
    }
    ok := CtdPass(rows, flags, SILICATE, {NITRITE});
    ok := CtdPass(rows, flags, NITRATE_NITRITE, {NITRITE, SILICATE});
    ok := CtdPass(rows, flags, AMMONIUM, {NITRITE, SILICATE, NITRATE_NITRITE});
    assert {NITRITE, SILICATE, NITRATE_NITRITE} + {AMMONIUM} == PASSES;
    ClearMissing(Concentrations(rows), flags);
  }

  /** One pair pass (the group loop and the threshold loop) over the rows with nitrite, for
      the column `column`, with that column's precision number as threshold. */
  method CtdPass(rows: seq<CtdRow>, flags: array2<Flag>, column: nat, ghost done: set<nat>) returns (ok: bool)
    requires flags.Length0 == |rows| && flags.Length1 == FLAG_COLUMNS
    requires CtdThreshold(column).Some? && column !in done
    requires forall i, c :: 0 <= i < |rows| && 0 <= c < FLAG_COLUMNS ==> flags[i, c] == PassedFlag(rows, i, c, done)
    modifies flags
    ensures ok <==> CtdRuns(rows)
    ensures ok ==> forall i, c :: 0 <= i < |rows| && 0 <= c < FLAG_COLUMNS ==>
              flags[i, c] == PassedFlag(rows, i, c, done + {column})
  {
    var sub := PairRows(rows);
    forall i, c | 0 <= i < |rows| && 0 <= c < FLAG_COLUMNS {
      PassedStep(rows, i, c, done, column);
    }
    ok := PairThresholdPass(StationCodes(rows), StationCodes(sub), PairCodes(sub), Column(Concentrations(sub), column),
                            CtdThreshold(column).value, flags, column);
  }

  /** Running the pass of `column` changes the cells of that column only, by the threshold
      update. */
  lemma PassedStep(rows: seq<CtdRow>, i: nat, c: nat, done: set<nat>, column: nat)
    requires i < |rows| && CtdThreshold(column).Some? && column !in done
    ensures PassedFlag(rows, i, c, done + {column}) ==
            if c == column && AllPaired(PairCodes(PairRows(rows))) then
              ThresholdUpdate(PassedFlag(rows, i, c, done), rows[i].stncode, StationCodes(PairRows(rows)),
                              PairRatios(PairCodes(PairRows(rows)), Column(Concentrations(PairRows(rows)), column)),
                              CtdThreshold(column).value)
            else PassedFlag(rows, i, c, done)
  {
  }

  /** The manual statements touch the phosphate and nitrate columns only. */
  lemma ManualStatementsSkip(key: Option<string>, column: nat)
    requires column != PHOSPHATE && column != NITRATE
    ensures ManualFlag(key, column) == Some(2)
  {
    NoHitNoChange(CtdStatements(), RowRef(key, None), column, Some(2));
  }

  /** A present nitrite, silicate, NO3+NO2 or ammonium value whose station code is the code
      of a row of the pair table gets 3 iff that row's group ratio exceeds the analyte's
      threshold, and 2 otherwise. */
  lemma CtdPairFlag(rows: seq<CtdRow>, i: nat, column: nat, j: nat)
    requires i < |rows| && CtdRuns(rows)
    requires CtdThreshold(column).Some? && Measured(rows[i].n, column).Some?
    requires j < |PairRows(rows)| && rows[i].stncode.Some? && PairRows(rows)[j].stncode == rows[i].stncode
    ensures CtdFlag(rows, i, column) ==
            Some(ThresholdFlag(GroupStat(Group(PairCodes(PairRows(rows)), Column(Concentrations(PairRows(rows)), column),
                                               PairCodes(PairRows(rows))[j])).ratio,
                               CtdThreshold(column).value))
  {
    var sub := PairRows(rows);
    ManualStatementsSkip(rows[i].stncode, column);
    RatioForUnique(StationCodes(sub), PairRatios(PairCodes(sub), Column(Concentrations(sub), column)), j);
  }

  /** A value whose station code has no nitrite anywhere in the table is never checked
      against a threshold: its flag stays 2. */
  lemma CtdUncheckedFlag(rows: seq<CtdRow>, i: nat, column: nat)
    requires i < |rows| && AllPaired(PairCodes(PairRows(rows)))
    requires CtdThreshold(column).Some? && Measured(rows[i].n, column).Some?
    requires forall k :: 0 <= k < |rows| && rows[k].stncode == rows[i].stncode ==> rows[k].n.nitrite.None?
    ensures CtdFlag(rows, i, column) == Some(2)
  {
    var sub := PairRows(rows);
    ManualStatementsSkip(rows[i].stncode, column);
    forall k | 0 <= k < |sub| ensures StationCodes(sub)[k] != rows[i].stncode {
      assert sub[k] in rows && sub[k].n.nitrite.Some?;
    }
  }
}
