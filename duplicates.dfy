/** Duplicate pairs: grouping the rows of a table by a duplicate code, the per-group
    difference, mean and difference/mean columns, and the flags decided from them. */
module Duplicates {
  import opened Frames
  import opened Text

  // ---------------------------------------------------------------------------
  // The duplicate code of an underway subsample identifier ("3a" and "3b" form pair "3").

  /** `id[0]` for a two-character id, `id[:2]` for any other (Python slicing never fails). */
  function DupCode(id: string): (c: string)
    ensures c <= id
    ensures |c| == if |id| == 2 then 1 else Min(|id|, 2)
  {
    if |id| == 2 then id[..1] else id[..Min(|id|, 2)]
  }

  /** The two members of a pair ("3a"/"3b", "13a"/"13b") share their code: ids of equal
      length two or three that differ only in the last character. */
  lemma DupCodeOfPair(a: string, b: string)
    requires |a| == |b| && (|a| == 2 || |a| == 3)
    requires a[..|a| - 1] == b[..|b| - 1]
    ensures DupCode(a) == DupCode(b)
  {
    assert DupCode(a) == a[..|a| - 1][..|a| - 1];
    assert DupCode(b) == b[..|b| - 1][..|b| - 1];
  }

  /** Codes of a two-character id and a three-character id never coincide as text. */
  lemma DupCodeSeparatesLengths(a: string, b: string)
    requires |a| == 2 && |b| == 3
    ensures DupCode(a) != DupCode(b)
  {
    assert |DupCode(a)| == 1 && |DupCode(b)| == 2;
  }

  /** The loop that fills the `dupcode` column, one distinct id at a time, writing the
      code into every row carrying that id. */
  method AssignDupCodes(ids: seq<string>, dupcode: array<string>)
    requires dupcode.Length == |ids|
    modifies dupcode
    ensures forall i :: 0 <= i < |ids| ==> dupcode[i] == DupCode(ids[i])
  {
    var unique := Distinct(ids);
    var k := 0;
    while k < |unique|
      invariant 0 <= k <= |unique|
      invariant forall i :: 0 <= i < |ids| && ids[i] in unique[..k] ==> dupcode[i] == DupCode(ids[i])
    {
      var id := unique[k];
      var code := DupCode(id);
      forall i | 0 <= i < |ids| && ids[i] == id {
        dupcode[i] := code;
      }
      k := k + 1;
    }
    assert unique[..k] == unique;
  }

  /** `df['dupcode'].astype(int)`: every code converted, or a ValueError if one is not an
      integer. */
  function ParseCodes(codes: seq<string>): (r: Option<seq<int>>)
    ensures r.Some? <==> forall i :: 0 <= i < |codes| ==> IsInteger(codes[i])
    ensures r.Some? ==> |r.value| == |codes|
    ensures r.Some? ==> forall i :: 0 <= i < |codes| ==> ParseInteger(codes[i]) == Some(r.value[i])
  {
    if codes == [] then Some([])
    else
      match (ParseInteger(codes[0]), ParseCodes(codes[1..]))
      case (Some(n), Some(rest)) => Some([n] + rest)
      case _ => None
  }

  // ---------------------------------------------------------------------------
  // Groups.

  /** The values of the rows whose code is `c`, in table order (`df[df.dupcode == c][col]`). */
  function Group<K(==)>(codes: seq<K>, values: seq<Value>, c: K): (g: seq<Value>)
    requires |codes| == |values|
    ensures |g| == multiset(codes)[c]
  {
    if codes == [] then []
    else
      assert codes == [codes[0]] + codes[1..];
      (if codes[0] == c then [values[0]] else []) + Group(codes[1..], values[1..], c)
  }

  /** Every code occurs at least twice, so `np.diff` of every group has an element 0. */
  predicate AllPaired<K(==)>(codes: seq<K>)
  {
    forall i :: 0 <= i < |codes| ==> multiset(codes)[codes[i]] >= 2
  }

  /** `np.abs(np.diff(group))[0]`: the absolute difference of the group's first two values. */
  function PairDifference(g: seq<Value>): (d: Value)
    requires |g| >= 2
    ensures d.Some? <==> g[0].Some? && g[1].Some?
    ensures d.Some? ==> d.value >= 0.0
  {
    AbsDiff(g[1], g[0])
  }

  /** The mean of a complete pair is its midpoint, and its difference is the distance of
      either member from that midpoint, doubled. */
  lemma PairOfTwo(a: real, b: real)
    ensures NanMean([Some(a), Some(b)]) == Some((a + b) / 2.0)
    ensures PairDifference([Some(a), Some(b)]) == Some(2.0 * Abs(a - (a + b) / 2.0))
  {
    MeanOfTwo(Some(a), Some(b));
  }

  // ---------------------------------------------------------------------------
  // The `diff/mean` column: numpy float division.

  /** A float quotient: NaN operands and 0/0 give NaN, a non-zero number over zero gives an
      infinity of its sign. */
  datatype Ratio = Finite(q: real) | PosInf | NegInf | NaN

  function Divide(d: Value, m: Value): (r: Ratio)
    ensures r.Finite? <==> d.Some? && m.Some? && m.value != 0.0
    ensures r.Finite? ==> r.q * m.value == d.value
    ensures r.PosInf? <==> d.Some? && m.Some? && m.value == 0.0 && d.value > 0.0
    ensures r.NegInf? <==> d.Some? && m.Some? && m.value == 0.0 && d.value < 0.0
  {
    if d.None? || m.None? then NaN
    else if m.value != 0.0 then Finite(d.value / m.value)
    else if d.value > 0.0 then PosInf
    else if d.value < 0.0 then NegInf
    else NaN
  }

  /** `a > threshold` on a float: false for NaN and for negative infinity. */
  predicate Exceeds(r: Ratio, threshold: real)
  {
    match r
    case Finite(q) => q > threshold
    case PosInf => true
    case NegInf => false
    case NaN => false
  }

  /** The flag the threshold loops write: 3 when the ratio is strictly above the precision
      threshold, 2 otherwise. */
  function ThresholdFlag(r: Ratio, threshold: real): (f: int)
    ensures f == 3 || f == 2
    ensures f == 3 <==> Exceeds(r, threshold)
  {
    if Exceeds(r, threshold) then 3 else 2
  }

  /** The comparison is strict, and a missing ratio never raises the flag. */
  lemma ThresholdBoundary(threshold: real, q: real)
    ensures ThresholdFlag(Finite(threshold), threshold) == 2
    ensures ThresholdFlag(NaN, threshold) == 2
    ensures q > threshold ==> ThresholdFlag(Finite(q), threshold) == 3
    ensures q <= threshold ==> ThresholdFlag(Finite(q), threshold) == 2
  {
  }

  /** A pair with a present positive mean and a missing member is never flagged: its
      difference is NaN. */
  lemma IncompletePairNotFlagged(g: seq<Value>, threshold: real)
    requires |g| >= 2 && (g[0].None? || g[1].None?)
    ensures ThresholdFlag(Divide(PairDifference(g), NanMean(g)), threshold) == 2
  {
  }

  /** The three columns the group loop writes for every row of a group. */
  datatype PairStat = PairStat(difference: Value, mean: Value, ratio: Ratio)

  function GroupStat(g: seq<Value>): (s: PairStat)
    requires |g| >= 2
    ensures s.difference.Some? <==> g[0].Some? && g[1].Some?
    ensures s.mean.None? <==> forall k :: 0 <= k < |g| ==> g[k].None?
    ensures s.ratio == Divide(s.difference, s.mean)
  {
    var d := PairDifference(g);
    var m := NanMean(g);
    PairStat(d, m, Divide(d, m))
  }

  /** The group loop: for each distinct code, the difference of the group's first two
      values, the group's mean and their quotient are written into every row of the group.
      It fails (an IndexError in Python) as soon as a group has a single row. */
  method PairStatistics<K(==)>(codes: seq<K>, values: seq<Value>, stats: array<PairStat>)
    returns (ok: bool)
    requires |values| == |codes| && stats.Length == |codes|
    modifies stats
    ensures ok <==> AllPaired(codes)
    ensures ok ==> forall i :: 0 <= i < |codes| ==>
              multiset(codes)[codes[i]] >= 2 && stats[i] == GroupStat(Group(codes, values, codes[i]))
    ensures ok ==> forall i, j :: 0 <= i < |codes| && 0 <= j < |codes| && codes[i] == codes[j] ==>
              stats[i] == stats[j]
  {
    var unique := Distinct(codes);
    var k := 0;
    while k < |unique|
      invariant 0 <= k <= |unique|
      invariant StatsWritten(codes, values, stats[..], unique[..k])
    {
      var c := unique[k];
      var g := Group(codes, values, c);
      if |g| < 2 {
        var i :| 0 <= i < |codes| && codes[i] == c;
        return false;
      }
      ghost var before := stats[..];
      WriteGroup(codes, c, GroupStat(g), stats);
      StatsStep(codes, values, before, stats[..], unique, k);
      k := k + 1;
    }
    assert unique[..k] == unique;
    StatsComplete(codes, values, stats[..], unique);
    return true;
  }

  /** The rows whose code is in `done` hold their group's statistics. */
  ghost predicate StatsWritten<K>(codes: seq<K>, values: seq<Value>, s: seq<PairStat>, done: seq<K>)
    requires |values| == |codes| && |s| == |codes|
  {
    forall i :: 0 <= i < |codes| && codes[i] in done ==>
      multiset(codes)[codes[i]] >= 2 && s[i] == GroupStat(Group(codes, values, codes[i]))
  }

  /** Writing the statistics of one more paired code. */
  lemma StatsStep<K>(codes: seq<K>, values: seq<Value>, before: seq<PairStat>, after: seq<PairStat>,
                     order: seq<K>, k: nat)
    requires |values| == |codes| && |before| == |codes| && |after| == |codes| && k < |order|
    requires StatsWritten(codes, values, before, order[..k])
    requires multiset(codes)[order[k]] >= 2
    requires forall i :: 0 <= i < |codes| ==>
               after[i] == if codes[i] == order[k] then GroupStat(Group(codes, values, order[k])) else before[i]
    ensures StatsWritten(codes, values, after, order[..k + 1])
  {
    assert order[..k + 1] == order[..k] + [order[k]];
  }

  /** Once every code is done, every code is paired and every row holds its group's
      statistics, the same for the rows of one group. */
  lemma StatsComplete<K>(codes: seq<K>, values: seq<Value>, s: seq<PairStat>, done: seq<K>)
    requires |values| == |codes| && |s| == |codes|
    requires StatsWritten(codes, values, s, done)
    requires forall i :: 0 <= i < |codes| ==> codes[i] in done
    ensures AllPaired(codes)
    ensures forall i :: 0 <= i < |codes| ==>
              multiset(codes)[codes[i]] >= 2 && s[i] == GroupStat(Group(codes, values, codes[i]))
    ensures forall i, j :: 0 <= i < |codes| && 0 <= j < |codes| && codes[i] == codes[j] ==> s[i] == s[j]
  {
  }


  /** One iteration of the group loop: the rows of code `c` get `st`; no other row changes. */
  method WriteGroup<K(==)>(codes: seq<K>, c: K, st: PairStat, stats: array<PairStat>)
    requires stats.Length == |codes|
    modifies stats
    ensures forall i :: 0 <= i < |codes| ==> stats[i] == if codes[i] == c then st else old(stats[i])
  {
    forall i | 0 <= i < |codes| && codes[i] == c {
      stats[i] := st;
    }
  }

  // ---------------------------------------------------------------------------
  // Distributing threshold flags from the pair table to the main table.

  /** The ratio the pair table records for `key` (its last row with that key); a missing key
      matches nothing, as NaN never compares equal. */
  function RatioFor(keys: seq<Option<string>>, ratios: seq<Ratio>, key: Option<string>): (r: Option<Ratio>)
    requires |keys| == |ratios|
    ensures r.Some? ==> key.Some? && exists j :: 0 <= j < |keys| && keys[j] == key && ratios[j] == r.value
    ensures r.None? ==> key.None? || forall j :: 0 <= j < |keys| ==> keys[j] != key
  {
    if keys == [] || key.None? then None
    else if keys[|keys| - 1] == key then Some(ratios[|ratios| - 1])
    else RatioFor(keys[..|keys| - 1], ratios[..|ratios| - 1], key)
  }

  /** No present key occurs twice in the pair table, so each lookup yields one value. */
  predicate UniqueKeys(keys: seq<Option<string>>)
  {
    forall j :: 0 <= j < |keys| && keys[j].Some? ==> multiset(keys)[keys[j]] == 1
  }

  /** With unique keys the recorded ratio is the ratio of the one row carrying the key. */
  lemma RatioForUnique(keys: seq<Option<string>>, ratios: seq<Ratio>, j: int)
    requires |keys| == |ratios| && UniqueKeys(keys)
    requires 0 <= j < |keys| && keys[j].Some?
    ensures RatioFor(keys, ratios, keys[j]) == Some(ratios[j])
  {
    var r := RatioFor(keys, ratios, keys[j]);
    var j' :| 0 <= j' < |keys| && keys[j'] == keys[j] && ratios[j'] == r.value;
    if j' != j {
      if j < j' {
        TwoOccurrences(keys, j, j');
      } else {
        TwoOccurrences(keys, j', j);
      }
      assert false;
    }
  }

  /** The flag a row of the main table holds after a threshold loop over the pair table. */
  function ThresholdUpdate(start: Flag, key: Option<string>, keys: seq<Option<string>>,
                           ratios: seq<Ratio>, threshold: real): (f: Flag)
    requires |keys| == |ratios|
    ensures f == start || f == Some(2) || f == Some(3)
  {
    match RatioFor(keys, ratios, key)
    case None => start
    case Some(r) => Some(ThresholdFlag(r, threshold))
  }

  /** The threshold loop: for each row of the pair table, the rows of the main table with the
      same key get flag 3 if its ratio exceeds the threshold and 2 otherwise, in `column`.
      Python fails on a key that the pair table holds twice (an ambiguous array truth value). */
  method AssignThresholdFlags(mainKeys: seq<Option<string>>, keys: seq<Option<string>>,
                              ratios: seq<Ratio>, threshold: real, flags: array2<Flag>, column: nat)
    returns (ok: bool)
    requires |mainKeys| == flags.Length0 && column < flags.Length1 && |keys| == |ratios|
    modifies flags
    ensures ok <==> UniqueKeys(keys)
    ensures ok ==> forall i, c :: 0 <= i < flags.Length0 && 0 <= c < flags.Length1 ==>
              flags[i, c] == if c == column
                             then ThresholdUpdate(old(flags[i, c]), mainKeys[i], keys, ratios, threshold)
                             else old(flags[i, c])
  {
    var j := 0;
    while j < |keys|
      invariant 0 <= j <= |keys|
      invariant forall k :: 0 <= k < j && keys[k].Some? ==> multiset(keys)[keys[k]] == 1
      invariant forall i, c :: 0 <= i < flags.Length0 && 0 <= c < flags.Length1 ==>
                  flags[i, c] == if c == column
                                 then ThresholdUpdate(old(flags[i, c]), mainKeys[i], keys[..j], ratios[..j], threshold)
                                 else old(flags[i, c])
    {
      var key := keys[j];
      if key.Some? {
        assert key in multiset(keys);
        if multiset(keys)[key] > 1 {
          return false;
        }
        var f := Some(ThresholdFlag(ratios[j], threshold));
        forall i | 0 <= i < flags.Length0 && mainKeys[i] == key {
          flags[i, column] := f;
        }
      }
      assert keys[..j + 1][..j] == keys[..j];
      assert ratios[..j + 1][..j] == ratios[..j];
      j := j + 1;
    }
    assert keys[..j] == keys && ratios[..j] == ratios;
    return true;
  }

  /** `df.loc[df[value].isnull(), flag] = np.nan`: a missing value clears its flag and a
      present value keeps the flag it had. */
  function MissingClears(flag: Flag, value: Value): (f: Flag)
    ensures value.None? ==> f.None?
    ensures value.Some? ==> f == flag
  {
    if value.None? then None else flag
  }

  // ---------------------------------------------------------------------------
  // One analyte's pass: the group loop followed by the threshold loop.

  /** The `diff/mean` column the group loop leaves behind: each row holds its group's ratio. */
  function PairRatios<K(==)>(codes: seq<K>, values: seq<Value>): (r: seq<Ratio>)
    requires |values| == |codes| && AllPaired(codes)
    ensures |r| == |codes|
    ensures forall i, j :: 0 <= i < |codes| && 0 <= j < |codes| && codes[i] == codes[j] ==> r[i] == r[j]
  {
    seq(|codes|, i requires 0 <= i < |codes| => GroupStat(Group(codes, values, codes[i])).ratio)
  }

  /** One analyte's block: pair statistics over the rows of the pair table (`codes` their
      duplicate codes, `keys` their identifiers, `values` the analyte), then the flags of
      the main table's rows, matched by identifier, in flag column `column`. */
  method PairThresholdPass<K(==)>(mainKeys: seq<Option<string>>, keys: seq<Option<string>>, codes: seq<K>,
                                  values: seq<Value>, threshold: real, flags: array2<Flag>, column: nat)
    returns (ok: bool)
    requires |keys| == |codes| && |values| == |codes|
    requires |mainKeys| == flags.Length0 && column < flags.Length1
    modifies flags
    ensures ok <==> AllPaired(codes) && UniqueKeys(keys)
    ensures ok ==> forall i, c :: 0 <= i < flags.Length0 && 0 <= c < flags.Length1 ==>
              flags[i, c] == if c == column
                             then ThresholdUpdate(old(flags[i, c]), mainKeys[i], keys, PairRatios(codes, values), threshold)
                             else old(flags[i, c])
  {
    var stats := new PairStat[|codes|](_ => PairStat(None, None, NaN));
    ok := PairStatistics(codes, values, stats);
    if !ok {
      return false;
    }
    var st := stats[..];
    var ratios := seq(|st|, j requires 0 <= j < |st| => st[j].ratio);
    assert ratios == PairRatios(codes, values);
    ok := AssignThresholdFlags(mainKeys, keys, ratios, threshold, flags, column);
  }
}
