/** The temperature restriction of the underway pH (data_processing/temp_restriction.py):
    rows whose pH cell was more than a degree away from the sea water are discarded. */
module TempRestriction {
  import opened Frames

  /** A row of the underway table: its other columns, the pH cell temperature and the
      SBE38 water temperature. */
  datatype CellRow<R> = CellRow(rest: R, tempCell: Value, waterTemp: Value)

  /** `abs(temp_cell - SBE38_water_temp)`: missing when either temperature is. */
  function TempDiff<R>(row: CellRow<R>): (d: Value)
    ensures d.Some? <==> row.tempCell.Some? && row.waterTemp.Some?
    ensures d.Some? ==> d.value >= 0.0
  {
    AbsDiff(row.tempCell, row.waterTemp)
  }

  /** `temp_diff < 1.0`: a comparison with NaN is false. */
  predicate WithinOneDegree<R>(row: CellRow<R>)
  {
    TempDiff(row).Some? && TempDiff(row).value < 1.0
  }

  function KeepWithin<R>(): CellRow<R> -> bool
  {
    (row: CellRow<R>) => WithinOneDegree(row)
  }

  /** `df[df['temp_diff'] < 1.0]`. */
  function Restricted<R>(rows: seq<CellRow<R>>): (r: seq<CellRow<R>>)
    ensures |r| <= |rows|
    ensures forall k :: 0 <= k < |r| ==>
              r[k].tempCell.Some? && r[k].waterTemp.Some? &&
              -1.0 < r[k].tempCell.value - r[k].waterTemp.value < 1.0
  {
    Filter(rows, KeepWithin())
  }

  /** The function: the caller's table gains the `temp_diff` column in place (line 4), and
      the rows within a degree are returned (line 5). */
  method RestrictTemperature<R>(rows: seq<CellRow<R>>, tempDiff: array<Value>) returns (kept: seq<CellRow<R>>)
    requires tempDiff.Length == |rows|
    modifies tempDiff
    ensures forall i :: 0 <= i < |rows| ==> tempDiff[i] == TempDiff(rows[i])
    ensures kept == Restricted(rows)
  {
    forall i | 0 <= i < |rows| {
      tempDiff[i] := AbsDiff(rows[i].tempCell, rows[i].waterTemp);
    }
    kept := Filter(rows, KeepWithin());
  }

  /** The restriction keeps exactly the rows within a degree, as often as they occur and in
      their order; a row with a missing temperature or a difference of exactly one degree is
      dropped. */
  lemma RestrictedExactly<R>(rows: seq<CellRow<R>>, x: CellRow<R>)
    ensures IsSubseq(Restricted(rows), rows)
    ensures multiset(Restricted(rows))[x] == if WithinOneDegree(x) then multiset(rows)[x] else 0
    ensures TempDiff(x) == Some(1.0) ==> x !in Restricted(rows)
    ensures TempDiff(x).None? ==> x !in Restricted(rows)
  {
    FilterIsSubseq(rows, KeepWithin());
    FilterMultiset(rows, KeepWithin(), x);
  }
}
