/** processing_vindta.py: metadata and quality flags of the VINDTA alkalinity (TA) and
    dissolved inorganic carbon (DIC) analyses. Bottle names tie samples to CTD station
    codes, a table of statements sets the TA/DIC flags, and the underway subsamples
    analysed in duplicate are paired, thinned and averaged. */
module Vindta {
  import opened Frames
  import opened Text
  import opened Duplicates
  import opened Overrides

  // ---------------------------------------------------------------------------
  // Reference-material bottles.

  /** `crm`: the bottle is a certified reference material. */
  predicate IsCrm(bottle: string)
  {
    StartsWith(bottle, "CRM")
  }

  /** `crm_batch_189`: the bottle is from CRM batch 189, under either spelling in use. */
  predicate IsCrmBatch189(bottle: string)
  {
    StartsWith(bottle, "CRM-189-") || StartsWith(bottle, "CRM1-189-")
  }

  /** Every batch-189 bottle is a CRM bottle, so the certified values go only to CRMs. */
  lemma Batch189IsCrm(bottle: string)
    requires IsCrmBatch189(bottle)
    ensures IsCrm(bottle)
  {
    if StartsWith(bottle, "CRM-189-") {
      assert bottle[..3] == bottle[..8][..3];
    } else {
      assert bottle[..3] == bottle[..9][..3];
    }
  }

  // ---------------------------------------------------------------------------
  // Acid batches.

  /** `analysis_batch` by day of month of the analysis: 0, then three overwriting
      assignments for days 10-17, 18-26 and 27-30. A missing day matches none of them. */
  function AnalysisBatch(day: Option<int>): (b: int)
    ensures b == 1 <==> day.Some? && 10 <= day.value <= 17
    ensures b == 2 <==> day.Some? && 18 <= day.value <= 26
    ensures b == 3 <==> day.Some? && 27 <= day.value <= 30
    ensures b == 0 <==> day.None? || day.value < 10 || day.value > 30
  {
    var b0 := 0;
    var b1 := if day.Some? && day.value >= 10 && day.value < 18 then 1 else b0;
    var b2 := if day.Some? && day.value >= 18 && day.value < 27 then 2 else b1;
    if day.Some? && day.value >= 27 && day.value <= 30 then 3 else b2
  }

  // ---------------------------------------------------------------------------
  // Bottle names and station codes.

  /** Python's `s[lo:hi]` for non-negative bounds: bounds past the end are clamped. */
  function Slice(s: string, lo: nat, hi: nat): (r: string)
    ensures lo <= hi <= |s| ==> r == s[lo..hi]
    ensures lo <= |s| <= hi ==> r == s[lo..]
    ensures |s| <= lo || hi <= lo ==> r == []
  {
    var h := if hi < |s| then hi else |s|;
    var l := if lo < h then lo else h;
    s[l..h]
  }

  datatype BottleParts = BottleParts(station: string, niskin: string, duplicate: string)

  /** One iteration of the loop over bottle names: a name starting with "STN" gives its
      fourth character as station, characters six and seven as niskin and its last character
      as duplicate; any other name gives "0", "0", "0". The name "STN" itself has no fourth
      character (an IndexError). */
  function SplitBottle(bottle: string): (r: Result<BottleParts>)
    ensures r.Err? <==> StartsWith(bottle, "STN") && |bottle| == 3
    ensures !StartsWith(bottle, "STN") ==> r == Ok(BottleParts("0", "0", "0"))
    ensures StartsWith(bottle, "STN") && r.Ok? ==>
              |r.value.station| == 1 && |r.value.duplicate| == 1 && |r.value.niskin| <= 2
  {
    if StartsWith(bottle, "STN") then
      if |bottle| < 4 then Err("IndexError: string index out of range")
      else Ok(BottleParts([bottle[3]], Slice(bottle, 5, 7), [bottle[|bottle| - 1]]))
    else Ok(BottleParts("0", "0", "0"))
  }

  /** The loop over the bottle names, appending to the three lists. */
  method SplitBottleNames(bottles: seq<string>)
    returns (ok: bool, station: seq<string>, niskin: seq<string>, duplicate: seq<string>)
    ensures ok <==> forall i :: 0 <= i < |bottles| ==> SplitBottle(bottles[i]).Ok?
    ensures ok ==> |station| == |bottles| && |niskin| == |bottles| && |duplicate| == |bottles|
    ensures ok ==> forall i :: 0 <= i < |bottles| ==>
              SplitBottle(bottles[i]) == Ok(BottleParts(station[i], niskin[i], duplicate[i]))
  {
    station, niskin, duplicate := [], [], [];
    var k := 0;
    while k < |bottles|
      invariant 0 <= k <= |bottles|
      invariant |station| == k && |niskin| == k && |duplicate| == k
      invariant forall i :: 0 <= i < k ==>
                  SplitBottle(bottles[i]) == Ok(BottleParts(station[i], niskin[i], duplicate[i]))
    {
      var bottle := bottles[k];
      if StartsWith(bottle, "STN") {
        if |bottle| < 4 {
          return false, station, niskin, duplicate;
        }
        station := station + [[bottle[3]]];
        niskin := niskin + [Slice(bottle, 5, 7)];
        duplicate := duplicate + [[bottle[|bottle| - 1]]];
      } else {
        station := station + ["0"];
        niskin := niskin + ["0"];
        duplicate := duplicate + ["0"];
      }
      k := k + 1;
    }
    return true, station, niskin, duplicate;
  }

  /** `niskin_r.str.lstrip('0')` followed by `replace('', '0')`. */
  function NiskinNumber(niskin: string): (r: string)
    ensures r != []
    ensures r[0] == '0' ==> r == "0"
    ensures r != "0" ==> LStrip(niskin, {'0'}) == r
  {
    var t := LStrip(niskin, {'0'});
    if t == "" then "0" else t
  }

  /** `stncode`: station, niskin number and duplicate, concatenated. */
  function StationCode(bottle: string): (r: Result<string>)
    ensures r.Err? <==> StartsWith(bottle, "STN") && |bottle| == 3
    ensures !StartsWith(bottle, "STN") ==> r == Ok("000")
  {
    match SplitBottle(bottle)
    case Err(e) => Err(e)
    case Ok(p) =>
      ZeroCode();
      Ok(p.station + NiskinNumber(p.niskin) + p.duplicate)
  }

  /** The parts "0", "0", "0" of a name outside the station format give the code "000". */
  lemma ZeroCode()
    ensures "0" + NiskinNumber("0") + "0" == "000"
  {
    assert "0"[1..] == "";
    assert LStrip("0", {'0'}) == LStrip("0"[1..], {'0'}) == "";
    assert NiskinNumber("0") == "0";
  }

  /** A bottle named in the station format "STN<s>N<nn>-<d>" gets the code s, nn without
      its leading zeros, d: "STN4N07-2" is "472", "STN4N13-1" is "4131". */
  lemma StationCodeOfStationBottle(s: char, nn: string, d: char)
    requires |nn| == 2
    ensures StationCode("STN" + [s] + "N" + nn + "-" + [d]) == Ok([s] + NiskinNumber(nn) + [d])
  {
    var b := "STN" + [s] + "N" + nn + "-" + [d];
    assert b[..3] == "STN";
    assert b[3] == s;
    assert Slice(b, 5, 7) == nn;
    assert b[|b| - 1] == d;
  }

  /** Leading zeros of the niskin number go; "00" is kept as "0". */
  lemma NiskinNumberExamples()
    ensures NiskinNumber("07") == "7"
    ensures NiskinNumber("13") == "13"
    ensures NiskinNumber("00") == "0"
  {
    assert "07"[1..] == "7";
    assert "07"[0] == '0';
    assert LStrip("07", {'0'}) == LStrip("7", {'0'});
    assert LStrip("7", {'0'}) == "7";
    assert "13"[0] == '1';
    assert LStrip("13", {'0'}) == "13";
    assert "00"[1..] == "0";
    assert "0"[1..] == "";
    assert LStrip("00", {'0'}) == LStrip("0", {'0'}) == LStrip("", {'0'});
  }

  /** `x.rstrip('.0')` on the CTD station codes read back from text: the argument is a set
      of characters, so every trailing '.' and '0' goes. */
  function CleanCode(code: string): (r: string)
    ensures r <= code
    ensures r != [] ==> r[|r| - 1] != '.' && r[|r| - 1] != '0'
    ensures forall i :: |r| <= i < |code| ==> code[i] == '.' || code[i] == '0'
  {
    RStrip(code, {'.', '0'})
  }

  /** The float rendering "4131.0" of a code is mapped back to "4131"... */
  lemma CleanCodeOfFloatText(code: string)
    requires code != [] && code[|code| - 1] != '.' && code[|code| - 1] != '0'
    ensures CleanCode(code + ".0") == code
    ensures CleanCode(code) == code
  {
    var t := code + ".0";
    assert t[..|t| - 1] == code + ".";
    assert (code + ".")[..|code + "."| - 1] == code;
  }

  /** ...but a code that itself ends in zero loses that zero too. */
  lemma CleanCodeStripsMoreThanSuffix()
    ensures CleanCode("4120.0") == "412"
  {
    assert "4120.0"[..5] == "4120.";
    assert "4120."[..4] == "4120";
    assert "4120"[..3] == "412";
  }

  // ---------------------------------------------------------------------------
  // The TA/DIC flag statements on the analysis table.

  const TALK: nat := 0
  const TCO2: nat := 1

  /** The statements, in order: day 11 makes TA questionable, day 16 DIC; named bottles get
      DIC 3, TA 4, and finally TA 9 for the two popped bottles. */
  const FlagStatements: seq<Override> := [
    Override(DayIs(11), TALK, Some(3)),
    Override(DayIs(16), TCO2, Some(3)),
    Override(KeyIs("24a"), TCO2, Some(3)),
    Override(KeyIs("15b"), TCO2, Some(3)),
    Override(KeyIs("3a"), TCO2, Some(3)),
    Override(KeyIs("CRM-189-0775-1"), TCO2, Some(3)),
    Override(KeyIs("CRM-189-1086-2"), TCO2, Some(3)),
    Override(KeyIs("STN5N07-2"), TCO2, Some(3)),
    Override(KeyIs("STN3N07-2"), TCO2, Some(3)),
    Override(KeyIs("STN6N19-1"), TCO2, Some(3)),
    Override(KeyIs("STN1N10-1"), TCO2, Some(3)),
    Override(KeyIs("STN3N24-1"), TCO2, Some(3)),
    Override(KeyIs("13a"), TALK, Some(4)),
    Override(KeyIs("SOS062"), TALK, Some(4)),
    Override(KeyIs("CRM-189-0226-1"), TALK, Some(4)),
    Override(KeyIs("CCRM-189-0963-1"), TALK, Some(4)),
    Override(KeyIs("13a"), TALK, Some(9)),
    Override(KeyIs("SOS062"), TALK, Some(9))
  ]

  /** `flag_talk` or `flag_tco2` of an analysis row: 2 to begin with, then the statements. */
  function AnalysisFlag(bottle: string, day: Option<int>, column: nat): (f: Flag)
    ensures f in {Some(2), Some(3), Some(4), Some(9)}
  {
    ApplyStaysIn(FlagStatements, RowRef(Some(bottle), day), column, Some(2), {Some(2), Some(3), Some(4), Some(9)});
    ApplyInOrder(FlagStatements, RowRef(Some(bottle), day), column, Some(2))
  }

  /** The two popped bottles end with TA flag 9 whatever their analysis day: the later
      statements win over the day-11 and TA-4 ones. */
  lemma PoppedBottlesMissing(day: Option<int>)
    ensures AnalysisFlag("13a", day, TALK) == Some(9)
    ensures AnalysisFlag("SOS062", day, TALK) == Some(9)
  {
    LastWriteWins(FlagStatements, RowRef(Some("13a"), day), TALK, Some(2));
    LastWriteWins(FlagStatements, RowRef(Some("SOS062"), day), TALK, Some(2));
  }

  /** The statement for "CCRM-189-0963-1" can never touch a CRM bottle, since that name does
      not start with "CRM": for every CRM bottle the table without it gives the same flags. */
  lemma MisspelledCrmStatementInert(bottle: string, day: Option<int>, column: nat)
    requires IsCrm(bottle)
    ensures AnalysisFlag(bottle, day, column) ==
            ApplyInOrder(FlagStatements[..15] + FlagStatements[16..], RowRef(Some(bottle), day), column, Some(2))
  {
    assert FlagStatements == FlagStatements[..15] + [FlagStatements[15]] + FlagStatements[16..];
    assert bottle[..3][1] == 'R' && "CCRM-189-0963-1"[1] == 'C';
    assert bottle != "CCRM-189-0963-1";
    DropNonHit(FlagStatements[..15], FlagStatements[15], FlagStatements[16..], RowRef(Some(bottle), day), column, Some(2));
  }

  /** A TA analysis on day 11 is questionable unless its bottle is one of the four named in
      a later TA statement. */
  lemma Day11Questionable(bottle: string)
    requires bottle !in {"13a", "SOS062", "CRM-189-0226-1", "CCRM-189-0963-1"}
    ensures AnalysisFlag(bottle, Some(11), TALK) == Some(3)
  {
    var row := RowRef(Some(bottle), Some(11));
    var rest := FlagStatements[1..];
    assert FlagStatements == FlagStatements[..1] + rest;
    forall k | 0 <= k < |rest| ensures !Hits(rest[k], row, TALK) {
      assert rest[k] == FlagStatements[k + 1];
    }
    NoHitNoChange(rest, row, TALK, ApplyInOrder(FlagStatements[..1], row, TALK, Some(2)));
    ApplyAppend(FlagStatements[..1], rest, row, TALK, Some(2));
  }

  // ---------------------------------------------------------------------------
  // Subsampled duplicates (TA: lines 275-378, DIC: lines 394-498).

  /** A subsample row after its analysis result and flag were looked up: the id, the day of
      month of the analysis (NaN when unknown), the TA or DIC value and its flag. */
  datatype SubsampleRow = SubsampleRow(id: string, day: Option<int>, value: Value, flag: Flag)

  /** A row of the duplicate table after pairing and the good-duplicate loop. */
  datatype PairRow = PairRow(id: string, code: int, day: Option<int>, value: Value,
                             internalFlag: Flag, difference: Value, count: int)

  function Ids(rows: seq<SubsampleRow>): (ids: seq<string>)
    ensures |ids| == |rows| && forall i :: 0 <= i < |rows| ==> ids[i] == rows[i].id
  {
    seq(|rows|, i requires 0 <= i < |rows| => rows[i].id)
  }

  function Values(rows: seq<SubsampleRow>): (vs: seq<Value>)
    ensures |vs| == |rows| && forall i :: 0 <= i < |rows| ==> vs[i] == rows[i].value
  {
    seq(|rows|, i requires 0 <= i < |rows| => rows[i].value)
  }

  /** The integer duplicate codes, or None when `astype(int)` fails on one of them. */
  function Codes(rows: seq<SubsampleRow>): (r: Option<seq<int>>)
    ensures r.Some? ==> |r.value| == |rows|
  {
    ParseCodes(seq(|rows|, i requires 0 <= i < |rows| => DupCode(rows[i].id)))
  }

  /** The pair loop (309-312): every row gets its pair's difference and a count of 2. It
      fails on a code held by a single row. */
  method PairDifferences(codes: seq<int>, values: seq<Value>, difference: array<Value>, count: array<int>)
    returns (ok: bool)
    requires |values| == |codes| && difference.Length == |codes| && count.Length == |codes|
    modifies difference, count
    ensures ok <==> AllPaired(codes)
    ensures ok ==> forall i :: 0 <= i < |codes| ==>
              multiset(codes)[codes[i]] >= 2 &&
              difference[i] == PairDifference(Group(codes, values, codes[i])) && count[i] == 2
  {
    var unique := Distinct(codes);
    var k := 0;
    while k < |unique|
      invariant 0 <= k <= |unique|
      invariant PairsWritten(codes, values, difference[..], count[..], unique[..k])
    {
      var c := unique[k];
      var g := Group(codes, values, c);
      if |g| < 2 {
        var i :| 0 <= i < |codes| && codes[i] == c;
        return false;
      }
      ghost var d0, n0 := difference[..], count[..];
      WritePair(codes, c, PairDifference(g), difference, count);
      PairsStep(codes, values, d0, n0, difference[..], count[..], unique, k);
      k := k + 1;
    }
    assert unique[..k] == unique;
    PairsComplete(codes, values, difference[..], count[..], unique);
    return true;
  }

  /** The rows whose code is in `done` hold their pair's difference and a count of 2. */
  ghost predicate PairsWritten(codes: seq<int>, values: seq<Value>, d: seq<Value>, n: seq<int>, done: seq<int>)
    requires |values| == |codes| && |d| == |codes| && |n| == |codes|
  {
    forall i :: 0 <= i < |codes| && codes[i] in done ==>
      multiset(codes)[codes[i]] >= 2 && d[i] == PairDifference(Group(codes, values, codes[i])) && n[i] == 2
  }

  /** Writing the difference of one more paired code. */
  lemma PairsStep(codes: seq<int>, values: seq<Value>, d0: seq<Value>, n0: seq<int>,
                  d1: seq<Value>, n1: seq<int>, order: seq<int>, k: nat)
    requires |values| == |codes| && |d0| == |codes| && |n0| == |codes| && k < |order|
    requires |d1| == |codes| && |n1| == |codes|
    requires PairsWritten(codes, values, d0, n0, order[..k])
    requires multiset(codes)[order[k]] >= 2
    requires forall i :: 0 <= i < |codes| ==>
               d1[i] == (if codes[i] == order[k] then PairDifference(Group(codes, values, order[k])) else d0[i]) &&
               n1[i] == (if codes[i] == order[k] then 2 else n0[i])
    ensures PairsWritten(codes, values, d1, n1, order[..k + 1])
  {
    assert order[..k + 1] == order[..k] + [order[k]];
  }

  /** Once every code is done, every code is paired and every row holds its pair's
      difference. */
  lemma PairsComplete(codes: seq<int>, values: seq<Value>, d: seq<Value>, n: seq<int>, done: seq<int>)
    requires |values| == |codes| && |d| == |codes| && |n| == |codes|
    requires PairsWritten(codes, values, d, n, done)
    requires forall i :: 0 <= i < |codes| ==> codes[i] in done
    ensures AllPaired(codes)
    ensures forall i :: 0 <= i < |codes| ==>
              multiset(codes)[codes[i]] >= 2 && d[i] == PairDifference(Group(codes, values, codes[i])) && n[i] == 2
  {
  }

  /** One iteration of the pair loop: the rows of code `c` get difference `d` and count 2;
      no other row changes. */
  method WritePair(codes: seq<int>, c: int, d: Value, difference: array<Value>, count: array<int>)
    requires difference.Length == |codes| && count.Length == |codes|
    modifies difference, count
    ensures forall i :: 0 <= i < |codes| ==>
              difference[i] == (if codes[i] == c then d else old(difference[i])) &&
              count[i] == (if codes[i] == c then 2 else old(count[i]))
  {
    forall i | 0 <= i < |codes| && codes[i] == c {
      difference[i] := d;
    }
    forall i | 0 <= i < |codes| && codes[i] == c {
      count[i] := 2;
    }
  }

  /** The good-duplicate loop (326-329): the kept member of a pair gets flag 3, no difference
      and a count of 1. */
  method MarkGoodDuplicates(ids: seq<string>, goods: seq<string>,
                            flag: array<Flag>, difference: array<Value>, count: array<int>)
    requires flag.Length == |ids| && difference.Length == |ids| && count.Length == |ids|
    modifies flag, difference, count
    ensures forall i :: 0 <= i < |ids| && ids[i] in goods ==>
              flag[i] == Some(3) && difference[i] == None && count[i] == 1
    ensures forall i :: 0 <= i < |ids| && ids[i] !in goods ==>
              flag[i] == old(flag[i]) && difference[i] == old(difference[i]) && count[i] == old(count[i])
  {
    for k := 0 to |goods|
      invariant forall i :: 0 <= i < |ids| && ids[i] in goods[..k] ==>
                  flag[i] == Some(3) && difference[i] == None && count[i] == 1
      invariant forall i :: 0 <= i < |ids| && ids[i] !in goods[..k] ==>
                  flag[i] == old(flag[i]) && difference[i] == old(difference[i]) && count[i] == old(count[i])
    {
      var good := goods[k];
      forall i | 0 <= i < |ids| && ids[i] == good {
        flag[i] := Some(3);
      }
      forall i | 0 <= i < |ids| && ids[i] == good {
        difference[i] := None;
      }
      forall i | 0 <= i < |ids| && ids[i] == good {
        count[i] := 1;
      }
      assert forall x :: x in goods[..k + 1] <==> x in goods[..k] || x == good;
    }
    assert goods[..|goods|] == goods;
  }

  /** The bad-duplicate loop (340-341): one filter per listed id, each reassigning the table. */
  function RemoveIds(table: seq<PairRow>, bads: seq<string>): (r: seq<PairRow>)
    ensures |r| <= |table|
    decreases bads
  {
    if bads == [] then table
    else RemoveIds(Filter(table, (p: PairRow) => p.id != bads[0]), bads[1..])
  }

  /** The successive filters remove exactly the rows whose id is listed, keeping the order. */
  lemma {:induction false} RemoveIdsIsOneFilter(table: seq<PairRow>, bads: seq<string>)
    ensures RemoveIds(table, bads) == Filter(table, (p: PairRow) => p.id !in bads)
    decreases bads
  {
    if bads == [] {
      FilterKeepsAll(table, (p: PairRow) => p.id !in bads);
    } else {
      var first := Filter(table, (p: PairRow) => p.id != bads[0]);
      RemoveIdsIsOneFilter(first, bads[1..]);
      FilterCompose(table, (p: PairRow) => p.id != bads[0], (p: PairRow) => p.id !in bads[1..],
                    (p: PairRow) => p.id !in bads);
    }
  }

  /** What the pair loop and the good-duplicate loop make of row `i`. */
  function MarkedRow(rows: seq<SubsampleRow>, codes: seq<int>, goods: seq<string>, i: int): (p: PairRow)
    requires |codes| == |rows| && AllPaired(codes) && 0 <= i < |rows|
    ensures p.id == rows[i].id && p.code == codes[i] && p.value == rows[i].value
    ensures p.id in goods ==> p.internalFlag == Some(3) && p.difference.None? && p.count == 1
    ensures p.id !in goods ==> p.internalFlag == rows[i].flag && p.count == 2
  {
    var r := rows[i];
    if r.id in goods then PairRow(r.id, codes[i], r.day, r.value, Some(3), None, 1)
    else PairRow(r.id, codes[i], r.day, r.value, r.flag, PairDifference(Group(codes, Values(rows), codes[i])), 2)
  }

  /** The duplicate table: codes parsed, pairs differenced, good members marked and bad
      members removed; an error where Python raises. */
  function DuplicateTable(rows: seq<SubsampleRow>, goods: seq<string>, bads: seq<string>): (r: Result<seq<PairRow>>)
    ensures r.Ok? ==> forall k :: 0 <= k < |r.value| ==> r.value[k].id !in bads
  {
    match Codes(rows)
    case None => Err("ValueError: invalid literal for int()")
    case Some(codes) =>
      if !AllPaired(codes) then Err("IndexError: index 0 is out of bounds")
      else
        var marked := seq(|rows|, i requires 0 <= i < |rows| => MarkedRow(rows, codes, goods, i));
        RemoveIdsIsOneFilter(marked, bads);
        Ok(RemoveIds(marked, bads))
  }

  /** The rows of the duplicate table after the pair loop and the good-duplicate loop. */
  method MarkPairs(rows: seq<SubsampleRow>, codes: seq<int>, goods: seq<string>)
    returns (ok: bool, marked: seq<PairRow>)
    requires |codes| == |rows|
    ensures ok <==> AllPaired(codes)
    ensures ok ==> marked == seq(|rows|, i requires 0 <= i < |rows| => MarkedRow(rows, codes, goods, i))
  {
    var n := |rows|;
    var difference := new Value[n];
    var count := new int[n];
    ok := PairDifferences(codes, Values(rows), difference, count);
    if !ok {
      return false, [];
    }
    var flag := new Flag[n](i requires 0 <= i < n => rows[i].flag);
    MarkGoodDuplicates(Ids(rows), goods, flag, difference, count);
    var f, d, c := flag[..], difference[..], count[..];
    marked := seq(n, i requires 0 <= i < n =>
                    PairRow(rows[i].id, codes[i], rows[i].day, rows[i].value, f[i], d[i], c[i]));
    forall i | 0 <= i < n ensures marked[i] == MarkedRow(rows, codes, goods, i) {
    }
  }

  /** Lines 296-341 as the script runs them, over the rows of the duplicate table. */
  method ProcessDuplicates(rows: seq<SubsampleRow>, goods: seq<string>, bads: seq<string>)
    returns (ok: bool, table: seq<PairRow>)
    ensures ok <==> DuplicateTable(rows, goods, bads).Ok?
    ensures ok ==> table == DuplicateTable(rows, goods, bads).value
  {
    var n := |rows|;
    var dupcode := new string[n];
    AssignDupCodes(Ids(rows), dupcode);
    assert dupcode[..] == seq(n, i requires 0 <= i < n => DupCode(rows[i].id));
    var parsed := ParseCodes(dupcode[..]);
    if parsed.None? {
      return false, [];
    }
    var marked;
    ok, marked := MarkPairs(rows, parsed.value, goods);
    if !ok {
      return false, [];
    }
    table := RemoveIds(marked, bads);
  }

  const TalkGoods: seq<string> := ["3b", "13b", "15a", "16b", "17b", "22a", "24b"]
  const TalkBads: seq<string> := ["3a", "13a", "15b", "16a", "17a", "22b", "24a"]
  const Tco2Goods: seq<string> := ["3b", "6b", "18b", "23a", "37b", "38b", "42b", "50a"]
  const Tco2Bads: seq<string> := ["3a", "6a", "18a", "23b", "37a", "38a", "42a", "50b"]

  /** Each listed good member's partner is listed as bad and no id is listed as both, so
      every listed pair is left with exactly its good member. */
  lemma ListsArePartners()
    ensures |TalkGoods| == |TalkBads| && |Tco2Goods| == |Tco2Bads|
    ensures forall k :: 0 <= k < |TalkGoods| ==> TalkGoods[k] !in TalkBads && DupCode(TalkGoods[k]) == DupCode(TalkBads[k])
    ensures forall k :: 0 <= k < |Tco2Goods| ==> Tco2Goods[k] !in Tco2Bads && DupCode(Tco2Goods[k]) == DupCode(Tco2Bads[k])
  {
  }

  /** A listed good member survives the removal, marked: flag 3, no difference, count 1. */
  lemma GoodMemberSurvives(rows: seq<SubsampleRow>, goods: seq<string>, bads: seq<string>, i: int)
    requires DuplicateTable(rows, goods, bads).Ok? && 0 <= i < |rows|
    requires rows[i].id in goods && rows[i].id !in bads
    ensures exists k :: 0 <= k < |DuplicateTable(rows, goods, bads).value| &&
              var p := DuplicateTable(rows, goods, bads).value[k];
              p.id == rows[i].id && p.internalFlag == Some(3) && p.difference.None? && p.count == 1
  {
    var codes := Codes(rows).value;
    var marked := seq(|rows|, j requires 0 <= j < |rows| => MarkedRow(rows, codes, goods, j));
    var keep := (p: PairRow) => p.id !in bads;
    RemoveIdsIsOneFilter(marked, bads);
    FilterMultiset(marked, keep, marked[i]);
    assert marked[i] in multiset(Filter(marked, keep));
  }

  // ---------------------------------------------------------------------------
  // Precision and the averaged pairs.

  /** √π/2, the factor turning a mean absolute duplicate difference into a standard
      deviation: the float `np.sqrt(np.pi)/2` to sixteen decimals. */
  const HalfSqrtPi: real := 0.8862269254527580

  /** `P = √π/2 · |mean(difference)|` over the rows left in the table. */
  function PrecisionNumber(table: seq<PairRow>): (p: Value)
    ensures p.None? <==> forall k :: 0 <= k < |table| ==> table[k].difference.None?
    ensures p.Some? ==> p.value >= 0.0
  {
    var ds := seq(|table|, k requires 0 <= k < |table| => table[k].difference);
    assert forall k :: 0 <= k < |table| ==> ds[k] == table[k].difference;
    var m := NanMean(ds);
    if m.None? then None else Some(HalfSqrtPi * Abs(m.value))
  }

  /** No difference above `bound` gives a precision number of at most √π/2 · bound. */
  lemma PrecisionNumberBound(table: seq<PairRow>, bound: real)
    requires forall k :: 0 <= k < |table| && table[k].difference.Some? ==>
               0.0 <= table[k].difference.value <= bound
    ensures PrecisionNumber(table).Some? ==> PrecisionNumber(table).value <= HalfSqrtPi * bound
  {
    var ds := seq(|table|, k requires 0 <= k < |table| => table[k].difference);
    MeanAtLeast(ds, 0.0);
    MeanAtMost(ds, bound);
  }

  /** The flag published for a row (371-373, 490-492): the internal flag, but 2 for a row
      analysed on `day` whose pair still has a difference. */
  function PublishedFlag(p: PairRow, day: int): (f: Flag)
    ensures p.day == Some(day) && p.difference.Some? ==> f == Some(2)
    ensures !(p.day == Some(day) && p.difference.Some?) ==> f == p.internalFlag
  {
    if p.day == Some(day) && p.difference.Some? then Some(2) else p.internalFlag
  }

  /** Of the TA statements only the day-11 one writes 3: a TA flag 3 comes from an analysis
      run on day 11. */
  lemma TalkThreeOnlyOnDay11(bottle: string, day: Option<int>)
    ensures AnalysisFlag(bottle, day, TALK) == Some(3) ==> day == Some(11)
  {
    var row := RowRef(Some(bottle), day);
    LastWriteWins(FlagStatements, row, TALK, Some(2));
    var last := LastHit(FlagStatements, row, TALK);
    if last.Some? && FlagStatements[last.value].flag == Some(3) {
      assert FlagStatements[last.value].column == TALK;
      assert last.value == 0;
    }
  }

  /** The promise of lines 360-366 for TA: when each subsample carries the flag of its own
      analysis (284-289), a flag 3 that remains after publishing (371-373) marks a row left
      without a difference, so only one member of its pair counts: a listed good member, or a
      day-11 analysis in a pair with a missing value. */
  lemma RemainingTalkThreeIsLoneMember(rows: seq<SubsampleRow>, goods: seq<string>, bads: seq<string>, k: int)
    requires DuplicateTable(rows, goods, bads).Ok?
    requires forall i :: 0 <= i < |rows| ==> rows[i].flag == AnalysisFlag(rows[i].id, rows[i].day, TALK)
    requires 0 <= k < |DuplicateTable(rows, goods, bads).value|
    ensures var p := DuplicateTable(rows, goods, bads).value[k];
            PublishedFlag(p, 11) == Some(3) ==> p.difference.None? && (p.id in goods || p.day == Some(11))
  {
    var codes := Codes(rows).value;
    var marked := seq(|rows|, j requires 0 <= j < |rows| => MarkedRow(rows, codes, goods, j));
    var keep := (p: PairRow) => p.id !in bads;
    RemoveIdsIsOneFilter(marked, bads);
    var p := DuplicateTable(rows, goods, bads).value[k];
    FilterMultiset(marked, keep, p);
    assert p in multiset(Filter(marked, keep));
    var i :| 0 <= i < |marked| && marked[i] == p;
    TalkThreeOnlyOnDay11(rows[i].id, rows[i].day);
  }

  /** Analysed on day 12, 24a carries the DIC flag 3 of its bottle statement, and 24b,
      named by no DIC statement, keeps 2. */
  lemma FlagsOfPair24()
    ensures AnalysisFlag("24a", Some(12), TCO2) == Some(3)
    ensures AnalysisFlag("24b", Some(12), TCO2) == Some(2)
  {
    var a := RowRef(Some("24a"), Some(12));
    var b := RowRef(Some("24b"), Some(12));
    var head := FlagStatements[..3];
    var rest := FlagStatements[3..];
    assert FlagStatements == head + rest;
    forall k | 0 <= k < |rest| ensures !Hits(rest[k], a, TCO2) {
      assert rest[k] == FlagStatements[k + 3];
    }
    assert head[..2][..1][..0] == [];
    assert ApplyInOrder(head, a, TCO2, Some(2)) == Some(3);
    NoHitNoChange(rest, a, TCO2, Some(3));
    ApplyAppend(head, rest, a, TCO2, Some(2));
    NoHitNoChange(FlagStatements, b, TCO2, Some(2));
  }

  /** When no id is listed as bad, every row stays in the duplicate table, as marked. */
  lemma UnlistedRowsStay(rows: seq<SubsampleRow>, goods: seq<string>, bads: seq<string>)
    requires Codes(rows).Some? && AllPaired(Codes(rows).value)
    requires forall i :: 0 <= i < |rows| ==> rows[i].id !in bads
    ensures DuplicateTable(rows, goods, bads) ==
            Ok(seq(|rows|, i requires 0 <= i < |rows| => MarkedRow(rows, Codes(rows).value, goods, i)))
  {
    var marked := seq(|rows|, i requires 0 <= i < |rows| => MarkedRow(rows, Codes(rows).value, goods, i));
    RemoveIdsIsOneFilter(marked, bads);
    FilterKeepsAll(marked, (p: PairRow) => p.id !in bads);
  }

  /** Two rows "24a" and "24b" form the pair with code 24. */
  lemma CodesOfPair24(rows: seq<SubsampleRow>)
    requires |rows| == 2 && rows[0].id == "24a" && rows[1].id == "24b"
    ensures Codes(rows) == Some([24, 24])
  {
    assert ParseInteger("24") == Some(24) by {
      assert DigitsValue("24") == DigitsValue("2") * 10 + 4;
      assert DigitsValue("2") == 2;
    }
    assert DupCode("24a") == "24a"[..2] == "24";
    assert DupCode("24b") == "24b"[..2] == "24";
    var dup := seq(|rows|, i requires 0 <= i < |rows| => DupCode(rows[i].id));
    assert dup == ["24", "24"];
    assert IsInteger(dup[0]) && IsInteger(dup[1]);
    assert ParseCodes(dup).value == [24, 24];
  }

  /** The DIC duplicate table of the pair 24a/24b, both present: neither is listed, so both
      stay, each with the pair's difference and its own flag. */
  lemma TableOfPair24(rows: seq<SubsampleRow>, d: Value)
    requires rows == [SubsampleRow("24a", Some(12), Some(2000.0), Some(3)),
                      SubsampleRow("24b", Some(12), Some(2001.0), Some(2))]
    requires d == Some(1.0)
    ensures DuplicateTable(rows, Tco2Goods, Tco2Bads) ==
            Ok([PairRow("24a", 24, Some(12), Some(2000.0), Some(3), d, 2),
                PairRow("24b", 24, Some(12), Some(2001.0), Some(2), d, 2)])
  {
    CodesOfPair24(rows);
    MarkedPair24(rows, [24, 24], d);
    UnlistedRowsStay(rows, Tco2Goods, Tco2Bads);
  }

  lemma MarkedPair24(rows: seq<SubsampleRow>, codes: seq<int>, d: Value)
    requires rows == [SubsampleRow("24a", Some(12), Some(2000.0), Some(3)),
                      SubsampleRow("24b", Some(12), Some(2001.0), Some(2))]
    requires codes == [24, 24] && d == Some(1.0)
    ensures AllPaired(codes)
    ensures seq(|rows|, j requires 0 <= j < |rows| => MarkedRow(rows, codes, Tco2Goods, j)) ==
            [PairRow("24a", 24, Some(12), Some(2000.0), Some(3), d, 2),
             PairRow("24b", 24, Some(12), Some(2001.0), Some(2), d, 2)]
  {
    assert multiset(codes)[24] == 2;
    assert Values(rows) == [Some(2000.0), Some(2001.0)];
    assert Group(codes, Values(rows), 24) == [Some(2000.0), Some(2001.0)];
    assert PairDifference([Some(2000.0), Some(2001.0)]) == d;
    assert "24a" !in Tco2Goods && "24b" !in Tco2Goods;
  }

  /** The DIC copy of the same promise (483-484) does not hold: a bottle named in a DIC flag-3
      statement keeps that flag whatever its day, so a pair whose two members both stay in the
      table still publishes a 3 (24a and 24b analysed on day 12), and the 2.5 -> 3 merge of
      497-498 publishes the pair as 3 although both duplicates were kept. */
  lemma DicRemainingThreeKeepsPair()
    ensures var rows := [SubsampleRow("24a", Some(12), Some(2000.0), AnalysisFlag("24a", Some(12), TCO2)),
                         SubsampleRow("24b", Some(12), Some(2001.0), AnalysisFlag("24b", Some(12), TCO2))];
            var t := DuplicateTable(rows, Tco2Goods, Tco2Bads);
            t.Ok? && |t.value| == 2 && t.value[0].id == "24a" && t.value[1].id == "24b" &&
            t.value[0].difference == Some(1.0) && PublishedFlag(t.value[0], 16) == Some(3) &&
            MergedFlag([PublishedFlag(t.value[0], 16), PublishedFlag(t.value[1], 16)]) == Some(3.0)
  {
    FlagsOfPair24();
    TableOfPair24([SubsampleRow("24a", Some(12), Some(2000.0), Some(3)),
                   SubsampleRow("24b", Some(12), Some(2001.0), Some(2))], Some(1.0));
    MergedFlagCases(3, 2);
  }

  function FlagAsValue(f: Flag): Value
  {
    if f.Some? then Some(f.value as real) else None
  }

  /** `groupby('sample').mean()` of a flag column followed by `loc[flag == 2.5] = 3`: a pair
      flagged 2 and 3 counts as 3. */
  function MergedFlag(flags: seq<Flag>): (m: Value)
    ensures m != Some(2.5)
    ensures m.None? <==> forall k :: 0 <= k < |flags| ==> flags[k].None?
  {
    var vs := seq(|flags|, k requires 0 <= k < |flags| => FlagAsValue(flags[k]));
    assert forall k :: 0 <= k < |flags| ==> vs[k] == FlagAsValue(flags[k]);
    var mean := NanMean(vs);
    if mean == Some(2.5) then Some(3.0) else mean
  }

  /** Averaged pair flags: a pair averaging 2.5 (2 and 3 in either order) gives 3, any
      other pair keeps its mean (2 and 4 give 3, 2 and 9 give 5.5); a lone member keeps its
      own flag. */
  lemma MergedFlagCases(a: int, b: int)
    ensures a + b == 5 ==> MergedFlag([Some(a), Some(b)]) == Some(3.0)
    ensures a + b != 5 ==>
              MergedFlag([Some(a), Some(b)]) == Some((a as real + b as real) / 2.0)
    ensures MergedFlag([Some(a)]) == Some(a as real)
  {
    var pair := seq(2, k requires 0 <= k < 2 => FlagAsValue([Some(a), Some(b)][k]));
    assert pair == [Some(a as real), Some(b as real)];
    MeanOfTwo(Some(a as real), Some(b as real));
    var one := seq(1, k requires 0 <= k < 1 => FlagAsValue([Some(a)][k]));
    assert one == [Some(a as real)];
    assert Present(one) == [a as real];
    assert Sum([a as real]) == a as real;
  }
}
