/** The total alkalinity estimate of the underway pH recalculation
    (data_processing/alkalinity.py). */
module Alkalinity {
  import opened Frames

  /** `ta_nao`: total alkalinity of the North Atlantic from sea surface salinity and
      temperature, by the polynomial of Lee et al. (2006). */
  function TaNao(sss: real, sst: real): real
  {
    2305.0 + 53.97 * (sss - 35.0) + 2.74 * ((sss - 35.0) * (sss - 35.0))
    - 1.16 * (sst - 20.0) - 0.040 * ((sst - 20.0) * (sst - 20.0))
  }

  /** At the reference point, salinity 35 and 20 degrees, the estimate is 2305. */
  lemma TaNaoReference()
    ensures TaNao(35.0, 20.0) == 2305.0
  {
  }

  /** The salinity and temperature terms are independent: the estimate is the reference
      value plus the salinity polynomial plus the temperature polynomial. */
  lemma TaNaoSeparates(sss: real, sst: real)
    ensures TaNao(sss, 20.0) == 2305.0 + 53.97 * (sss - 35.0) + 2.74 * ((sss - 35.0) * (sss - 35.0))
    ensures TaNao(35.0, sst) == 2305.0 - 1.16 * (sst - 20.0) - 0.040 * ((sst - 20.0) * (sst - 20.0))
    ensures TaNao(sss, sst) == TaNao(sss, 20.0) + TaNao(35.0, sst) - 2305.0
  {
  }

  /** Above salinity 26 the estimate rises with salinity at any temperature. */
  lemma TaNaoRisesWithSalinity(s1: real, s2: real, sst: real)
    requires 26.0 <= s1 < s2
    ensures TaNao(s1, sst) < TaNao(s2, sst)
  {
    var a, b := s1 - 35.0, s2 - 35.0;
    assert TaNao(s2, sst) - TaNao(s1, sst) == (b - a) * (53.97 + 2.74 * (a + b));
    PositiveProduct(b - a, 53.97 + 2.74 * (a + b));
  }

  lemma PositiveProduct(x: real, y: real)
    requires x > 0.0 && y > 0.0
    ensures x * y > 0.0
  {
  }

  /** `ta_nao` on table cells: NaN in, NaN out. */
  function TaEstimate(salinity: Value, waterTemp: Value): (r: Value)
    ensures r.Some? <==> salinity.Some? && waterTemp.Some?
    ensures r.Some? ==> r.value == TaNao(salinity.value, waterTemp.value)
  {
    if salinity.Some? && waterTemp.Some? then Some(TaNao(salinity.value, waterTemp.value)) else None
  }

  /** A row of the underway table with the columns the function reads. */
  datatype UwsRow<R> = UwsRow(rest: R, salinity: Value, waterTemp: Value, tempCell: Value, pHCell: Value)

  /** A row of the copy the function returns: the row and its two new columns. */
  datatype AlkalinityRow<R> = AlkalinityRow(row: UwsRow<R>, taEst: Value, pHInsitu: Value)

  /** `alkalinity(data)`: works on `data.copy()`, so the caller's table is a value the
      function cannot change. The carbonate-system solver that recalculates pH at the water
      temperature is a parameter, given TA, pH, salinity, cell and water temperature. */
  function AlkalinityOf<R>(data: seq<UwsRow<R>>, solve: (Value, Value, Value, Value, Value) -> Value)
    : (r: seq<AlkalinityRow<R>>)
    ensures |r| == |data|
    ensures forall i :: 0 <= i < |data| ==> r[i].row == data[i]
    ensures forall i :: 0 <= i < |data| ==> r[i].taEst == TaEstimate(data[i].salinity, data[i].waterTemp)
    ensures forall i :: 0 <= i < |data| ==>
              r[i].pHInsitu == solve(r[i].taEst, data[i].pHCell, data[i].salinity, data[i].tempCell, data[i].waterTemp)
    ensures forall i :: 0 <= i < |data| ==>
              (r[i].taEst.Some? <==> data[i].salinity.Some? && data[i].waterTemp.Some?)
  {
    seq(|data|, i requires 0 <= i < |data| =>
      var ta := TaEstimate(data[i].salinity, data[i].waterTemp);
      AlkalinityRow(data[i], ta, solve(ta, data[i].pHCell, data[i].salinity, data[i].tempCell, data[i].waterTemp)))
  }

  /** The estimated alkalinity of a row at the reference salinity and temperature is 2305. */
  lemma ReferenceRow<R>(data: seq<UwsRow<R>>, solve: (Value, Value, Value, Value, Value) -> Value, i: nat)
    requires i < |data| && data[i].salinity == Some(35.0) && data[i].waterTemp == Some(20.0)
    ensures AlkalinityOf(data, solve)[i].taEst == Some(2305.0)
  {
  }
}
