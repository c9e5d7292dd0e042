/** Manual flag tables: runs of `df.loc[<condition>, <flag column>] = <flag>` statements.
    Each statement overwrites the flag of every row its condition selects, so applied in
    order the last statement that selects a row decides its flag. */
module Overrides {
  import opened Frames

  /** The condition of one statement: the row's identifier (bottle, sample id or station
      code) equals `key`, or the day of month of its analysis time equals `day`. */
  datatype Selector = KeyIs(key: string) | DayIs(day: int)

  /** What a selector inspects in a row; either part may be NaN. */
  datatype RowRef = RowRef(key: Option<string>, day: Option<int>)

  /** One statement: the rows `sel` selects get `flag` in flag column number `column`. */
  datatype Override = Override(sel: Selector, column: nat, flag: Flag)

  /** A comparison with NaN is false, so a missing key or day is never selected. */
  predicate Selects(sel: Selector, row: RowRef)
  {
    match sel
    case KeyIs(k) => row.key == Some(k)
    case DayIs(d) => row.day == Some(d)
  }

  predicate Hits(o: Override, row: RowRef, column: nat)
  {
    Selects(o.sel, row) && o.column == column
  }

  /** The statements executed in order, seen from one cell: the flag after the last
      statement is the flag after the others, overwritten if the last one selects the cell. */
  function ApplyInOrder(table: seq<Override>, row: RowRef, column: nat, start: Flag): Flag
  {
    if table == [] then start
    else
      var before := ApplyInOrder(table[..|table| - 1], row, column, start);
      if Hits(table[|table| - 1], row, column) then table[|table| - 1].flag else before
  }

  /** The position of the last statement that selects the cell. */
  function LastHit(table: seq<Override>, row: RowRef, column: nat): (r: Option<nat>)
    ensures r.Some? ==> r.value < |table| && Hits(table[r.value], row, column)
    ensures r.Some? ==> forall k :: r.value < k < |table| ==> !Hits(table[k], row, column)
    ensures r.None? ==> forall k :: 0 <= k < |table| ==> !Hits(table[k], row, column)
  {
    if table == [] then None
    else if Hits(table[|table| - 1], row, column) then Some(|table| - 1)
    else
      var r := LastHit(table[..|table| - 1], row, column);
      assert forall k :: 0 <= k < |table| - 1 ==> table[..|table| - 1][k] == table[k];
      r
  }

  /** Last write wins: the flag of the last selecting statement, or the starting flag when
      no statement selects the cell. */
  lemma {:induction false} LastWriteWins(table: seq<Override>, row: RowRef, column: nat, start: Flag)
    ensures ApplyInOrder(table, row, column, start) ==
            match LastHit(table, row, column)
            case None => start
            case Some(k) => table[k].flag
  {
    if table != [] {
      LastWriteWins(table[..|table| - 1], row, column, start);
      assert forall k :: 0 <= k < |table| - 1 ==> table[..|table| - 1][k] == table[k];
    }
  }

  /** Statements that select nothing leave the cell as it was. */
  lemma {:induction false} NoHitNoChange(table: seq<Override>, row: RowRef, column: nat, start: Flag)
    requires forall k :: 0 <= k < |table| ==> !Hits(table[k], row, column)
    ensures ApplyInOrder(table, row, column, start) == start
  {
    if table != [] {
      NoHitNoChange(table[..|table| - 1], row, column, start);
    }
  }

  /** Running two lists of statements one after the other is running their concatenation. */
  lemma {:induction false} ApplyAppend(a: seq<Override>, b: seq<Override>, row: RowRef, column: nat, start: Flag)
    ensures ApplyInOrder(a + b, row, column, start) ==
            ApplyInOrder(b, row, column, ApplyInOrder(a, row, column, start))
  {
    if b == [] {
      assert a + b == a;
    } else {
      assert (a + b)[..|a + b| - 1] == a + b[..|b| - 1];
      ApplyAppend(a, b[..|b| - 1], row, column, start);
    }
  }

  /** When every statement writes the same flag, a cell ends with that flag iff some
      statement selects it. */
  lemma {:induction false} UniformTable(table: seq<Override>, row: RowRef, column: nat, start: Flag, flag: Flag)
    requires forall k :: 0 <= k < |table| ==> table[k].flag == flag
    ensures (exists k :: 0 <= k < |table| && Hits(table[k], row, column)) ==>
              ApplyInOrder(table, row, column, start) == flag
    ensures (forall k :: 0 <= k < |table| ==> !Hits(table[k], row, column)) ==>
              ApplyInOrder(table, row, column, start) == start
  {
    LastWriteWins(table, row, column, start);
  }

  /** When every statement that selects the cell writes `flag` and one of them does, the cell
      ends with `flag`, whatever the other statements write. */
  lemma HitsAgree(table: seq<Override>, row: RowRef, column: nat, start: Flag, flag: Flag, hit: nat)
    requires hit < |table| && Hits(table[hit], row, column)
    requires forall k :: 0 <= k < |table| && Hits(table[k], row, column) ==> table[k].flag == flag
    ensures ApplyInOrder(table, row, column, start) == flag
  {
    LastWriteWins(table, row, column, start);
  }

  /** A block of statements selecting rows by key, all in one flag column, from a list of
      (key, flag) pairs. */
  function KeyStatements(checks: seq<(string, int)>, column: nat): (r: seq<Override>)
    ensures |r| == |checks|
    ensures forall k :: 0 <= k < |r| ==> r[k] == Override(KeyIs(checks[k].0), column, Some(checks[k].1))
  {
    seq(|checks|, k requires 0 <= k < |checks| => Override(KeyIs(checks[k].0), column, Some(checks[k].1)))
  }

  /** A statement that does not select the cell can be deleted without changing it. */
  lemma DropNonHit(a: seq<Override>, o: Override, b: seq<Override>, row: RowRef, column: nat, start: Flag)
    requires !Hits(o, row, column)
    ensures ApplyInOrder(a + [o] + b, row, column, start) == ApplyInOrder(a + b, row, column, start)
  {
    ApplyAppend(a + [o], b, row, column, start);
    ApplyAppend(a, b, row, column, start);
    assert (a + [o])[..|a + [o]| - 1] == a;
  }

  /** Flags stay within any set that holds the starting flag and every flag written. */
  lemma {:induction false} ApplyStaysIn(table: seq<Override>, row: RowRef, column: nat, start: Flag, allowed: set<Flag>)
    requires start in allowed
    requires forall k :: 0 <= k < |table| ==> table[k].flag in allowed
    ensures ApplyInOrder(table, row, column, start) in allowed
  {
    if table != [] {
      ApplyStaysIn(table[..|table| - 1], row, column, start, allowed);
    }
  }

  /** The in-place form: every cell of a flag table becomes what the statements make of it.
      The statements change flags only; the rows they inspect are not touched. */
  method ApplyOverrides(rows: seq<RowRef>, flags: array2<Flag>, table: seq<Override>)
    requires flags.Length0 == |rows|
    modifies flags
    ensures forall i, c :: 0 <= i < flags.Length0 && 0 <= c < flags.Length1 ==>
              flags[i, c] == ApplyInOrder(table, rows[i], c, old(flags[i, c]))
  {
    forall i, c | 0 <= i < flags.Length0 && 0 <= c < flags.Length1 {
      flags[i, c] := ApplyInOrder(table, rows[i], c, flags[i, c]);
    }
  }
}
