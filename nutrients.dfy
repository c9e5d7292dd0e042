/** The nutrient columns shared by the CTD and the underway-subsample tables: the six
    concentrations, the unit conversion and the six flag columns. */
module Nutrients {
  import opened Frames
  import opened Duplicates

  /** One row's concentrations; `nitrate` is the derived column. */
  datatype Nutrients = Nutrients(
    phosphate: Value,
    ammonium: Value,
    nitrateNitrite: Value,
    nitrite: Value,
    nitrate: Value,
    silicate: Value)

  /** The flag columns, numbered in the order the scripts create them. */
  const PHOSPHATE: nat := 0
  const AMMONIUM: nat := 1
  const NITRATE_NITRITE: nat := 2
  const NITRITE: nat := 3
  const NITRATE: nat := 4
  const SILICATE: nat := 5
  const FLAG_COLUMNS: nat := 6

  /** The concentration a flag column judges. */
  function Measured(n: Nutrients, column: nat): Value
  {
    if column == PHOSPHATE then n.phosphate
    else if column == AMMONIUM then n.ammonium
    else if column == NITRATE_NITRITE then n.nitrateNitrite
    else if column == NITRITE then n.nitrite
    else if column == NITRATE then n.nitrate
    else n.silicate
  }

  /** One analyte of a table, as a column. */
  function Column(rows: seq<Nutrients>, column: nat): (r: seq<Value>)
    ensures |r| == |rows|
    ensures forall i :: 0 <= i < |rows| ==> r[i] == Measured(rows[i], column)
  {
    seq(|rows|, i requires 0 <= i < |rows| => Measured(rows[i], column))
  }

  /** `total_nitrate = total_nitrate_nitrite - total_nitrite`, missing if either is. */
  function WithNitrate(n: Nutrients): (r: Nutrients)
    ensures r.nitrate.Some? <==> n.nitrateNitrite.Some? && n.nitrite.Some?
    ensures r.nitrate.Some? ==> r.nitrate.value + n.nitrite.value == n.nitrateNitrite.value
    ensures r == n.(nitrate := r.nitrate)
  {
    n.(nitrate := Minus(n.nitrateNitrite, n.nitrite))
  }

  /** µmol/L to µmol/kg: every concentration divided by the sample's density, all of them
      missing when the density is (a missing salinity). */
  function PerKilogram(n: Nutrients, density: Value): (r: Nutrients)
    requires density.Some? ==> density.value > 0.0
    ensures forall c :: 0 <= c < FLAG_COLUMNS ==>
              (Measured(r, c).Some? <==> Measured(n, c).Some? && density.Some?)
    ensures forall c :: 0 <= c < FLAG_COLUMNS && Measured(r, c).Some? ==>
              Measured(r, c).value * density.value == Measured(n, c).value
  {
    if density.None? then Nutrients(None, None, None, None, None, None)
    else
      var d := density.value;
      Nutrients(DivideBy(n.phosphate, d), DivideBy(n.ammonium, d), DivideBy(n.nitrateNitrite, d),
                DivideBy(n.nitrite, d), DivideBy(n.nitrate, d), DivideBy(n.silicate, d))
  }

  /** Nitrate is derived before the conversion, and since the conversion is a division by
      the same density the order does not matter: converted nitrate is converted NO3+NO2
      minus converted NO2. */
  lemma NitrateBeforeConversion(n: Nutrients, density: Value)
    requires density.Some? ==> density.value > 0.0
    ensures PerKilogram(WithNitrate(n), density).nitrate ==
            Minus(PerKilogram(n, density).nitrateNitrite, PerKilogram(n, density).nitrite)
  {
    if density.Some? && n.nitrateNitrite.Some? && n.nitrite.Some? {
      var d := density.value;
      var a, b := n.nitrateNitrite.value, n.nitrite.value;
      assert (a - b) / d == a / d - b / d;
    }
  }

  /** The six `df.loc[df[value].isnull(), flag] = np.nan` statements: each flag of a row with
      a missing concentration becomes missing, every other flag is left as it was. */
  method ClearMissing(rows: seq<Nutrients>, flags: array2<Flag>)
    requires flags.Length0 == |rows| && flags.Length1 == FLAG_COLUMNS
    modifies flags
    ensures forall i, c :: 0 <= i < flags.Length0 && 0 <= c < flags.Length1 ==>
              flags[i, c] == MissingClears(old(flags[i, c]), Measured(rows[i], c))
  {
    forall i, c | 0 <= i < flags.Length0 && 0 <= c < flags.Length1 {
      flags[i, c] := MissingClears(flags[i, c], Measured(rows[i], c));
    }
  }
}
