/** Tables of the cruise scripts, seen as sequences of records.
    A numeric cell that pandas may hold as NaN is a `Value`: `None` is NaN.
    Python floats are modelled as `real`; nothing here speaks about rounding. */
module Frames {

  datatype Option<+T> = None | Some(value: T)

  /** The outcome of a step that may raise in Python (an IndexError, a ValueError, ...). */
  datatype Result<+T> = Ok(value: T) | Err(reason: string)

  /** A numeric table cell; `None` stands for NaN. */
  type Value = Option<real>

  /** A quality flag cell (2 acceptable, 3 questionable, 4 bad, 9 missing); `None` is NaN. */
  type Flag = Option<int>

  function Abs(x: real): (r: real)
    ensures r >= 0.0 && (r == x || r == -x)
  {
    if x < 0.0 then -x else x
  }

  function Min(a: int, b: int): int
  {
    if a < b then a else b
  }

  /** `a - b` on cells: NaN when either operand is NaN. */
  function Minus(a: Value, b: Value): (r: Value)
    ensures r.Some? <==> a.Some? && b.Some?
    ensures r.Some? ==> r.value + b.value == a.value
  {
    if a.Some? && b.Some? then Some(a.value - b.value) else None
  }

  /** `a + b` on cells: NaN when either operand is NaN. */
  function Plus(a: Value, b: Value): (r: Value)
    ensures r.Some? <==> a.Some? && b.Some?
    ensures r.Some? ==> r.value - b.value == a.value
  {
    if a.Some? && b.Some? then Some(a.value + b.value) else None
  }

  /** `abs(a - b)` on cells: NaN when either operand is NaN, never negative otherwise. */
  function AbsDiff(a: Value, b: Value): (r: Value)
    ensures r.Some? <==> a.Some? && b.Some?
    ensures r.Some? ==> r.value >= 0.0
    ensures r.Some? ==> r.value == a.value - b.value || r.value == b.value - a.value
  {
    if a.Some? && b.Some? then Some(Abs(a.value - b.value)) else None
  }

  /** `a / d` for a present, non-zero divisor. */
  function DivideBy(a: Value, d: real): (r: Value)
    requires d != 0.0
    ensures r.Some? <==> a.Some?
    ensures r.Some? ==> r.value * d == a.value
  {
    if a.Some? then Some(a.value / d) else None
  }

  function Sum(s: seq<real>): real
  {
    if s == [] then 0.0 else s[0] + Sum(s[1..])
  }

  /** The non-missing values of a column, in order (what pandas' skipna reductions see). */
  function Present(s: seq<Value>): (r: seq<real>)
    ensures |r| <= |s|
    ensures r == [] <==> forall i :: 0 <= i < |s| ==> s[i].None?
  {
    if s == [] then []
    else if s[0].Some? then [s[0].value] + Present(s[1..])
    else Present(s[1..])
  }

  /** pandas `Series.mean()`: the mean of the non-missing values, NaN when there are none. */
  function NanMean(s: seq<Value>): (r: Value)
    ensures r.None? <==> forall i :: 0 <= i < |s| ==> s[i].None?
  {
    var p := Present(s);
    if p == [] then None else Some(Sum(p) / |p| as real)
  }

  lemma {:induction false} SumAtLeast(s: seq<real>, lo: real)
    requires forall i :: 0 <= i < |s| ==> lo <= s[i]
    ensures |s| as real * lo <= Sum(s)
  {
    if s != [] {
      SumAtLeast(s[1..], lo);
      assert |s| as real * lo == lo + (|s| - 1) as real * lo;
    }
  }

  lemma {:induction false} SumAtMost(s: seq<real>, hi: real)
    requires forall i :: 0 <= i < |s| ==> s[i] <= hi
    ensures Sum(s) <= |s| as real * hi
  {
    if s != [] {
      SumAtMost(s[1..], hi);
      assert |s| as real * hi == hi + (|s| - 1) as real * hi;
    }
  }

  /** Whatever holds of every present cell holds of every value `Present` returns. */
  lemma {:induction false} PresentSatisfies(s: seq<Value>, P: real -> bool)
    requires forall i :: 0 <= i < |s| && s[i].Some? ==> P(s[i].value)
    ensures forall j :: 0 <= j < |Present(s)| ==> P(Present(s)[j])
  {
    if s != [] {
      PresentSatisfies(s[1..], P);
    }
  }

  lemma DivideAtLeast(a: real, n: real, lo: real)
    requires n > 0.0 && n * lo <= a
    ensures lo <= a / n
  {
  }

  lemma DivideAtMost(a: real, n: real, hi: real)
    requires n > 0.0 && a <= n * hi
    ensures a / n <= hi
  {
  }

  /** The mean of the present values is at least any lower bound of those values. */
  lemma MeanAtLeast(s: seq<Value>, lo: real)
    requires forall i :: 0 <= i < |s| && s[i].Some? ==> lo <= s[i].value
    ensures NanMean(s).Some? ==> lo <= NanMean(s).value
  {
    var p := Present(s);
    if p != [] {
      PresentSatisfies(s, x => lo <= x);
      SumAtLeast(p, lo);
      DivideAtLeast(Sum(p), |p| as real, lo);
    }
  }

  /** The mean of the present values is at most any upper bound of those values. */
  lemma MeanAtMost(s: seq<Value>, hi: real)
    requires forall i :: 0 <= i < |s| && s[i].Some? ==> s[i].value <= hi
    ensures NanMean(s).Some? ==> NanMean(s).value <= hi
  {
    var p := Present(s);
    if p != [] {
      PresentSatisfies(s, x => x <= hi);
      SumAtMost(p, hi);
      DivideAtMost(Sum(p), |p| as real, hi);
    }
  }

  lemma SumOfOne(x: real)
    ensures Sum([x]) == x
  {
    assert [x][1..] == [];
  }

  lemma SumOfTwo(x: real, y: real)
    ensures Sum([x, y]) == x + y
  {
    assert [x, y][1..] == [y];
    SumOfOne(y);
  }

  lemma PresentOfTwo(a: Value, b: Value)
    ensures Present([a, b]) == (if a.Some? then [a.value] else []) + (if b.Some? then [b.value] else [])
  {
    assert [a, b][1..] == [b];
    assert [b][1..] == [];
  }

  /** Division by a count equal to a literal is division by that literal (the solver does
      not see it unaided). */
  lemma DivideByCount(t: real, c: real, k: real)
    requires c == k && k != 0.0
    ensures t / c == t / k
  {
  }

  lemma MeanOfSingle(s: seq<Value>, x: real)
    requires |Present(s)| == 1 && Sum(Present(s)) == x
    ensures NanMean(s) == Some(x)
  {
    DivideByCount(Sum(Present(s)), |Present(s)| as real, 1.0);
  }

  lemma MeanOfBoth(x: real, y: real)
    ensures NanMean([Some(x), Some(y)]) == Some((x + y) / 2.0)
  {
    var s := [Some(x), Some(y)];
    PresentOfTwo(Some(x), Some(y));
    assert Present(s) == [x, y];
    SumOfTwo(x, y);
    DivideByCount(Sum(Present(s)), |Present(s)| as real, 2.0);
  }

  /** The mean of two present cells is their midpoint; with one missing it is the other one. */
  lemma MeanOfTwo(a: Value, b: Value)
    ensures a.Some? && b.Some? ==> NanMean([a, b]) == Some((a.value + b.value) / 2.0)
    ensures a.Some? && b.None? ==> NanMean([a, b]) == a
    ensures a.None? && b.Some? ==> NanMean([a, b]) == b
    ensures a.None? && b.None? ==> NanMean([a, b]) == None
  {
    PresentOfTwo(a, b);
    var p := Present([a, b]);
    if a.Some? && b.Some? {
      MeanOfBoth(a.value, b.value);
    } else if a.Some? {
      assert p == [a.value];
      SumOfOne(a.value);
      MeanOfSingle([a, b], a.value);
    } else if b.Some? {
      assert p == [b.value];
      SumOfOne(b.value);
      MeanOfSingle([a, b], b.value);
    }
  }

  // ---------------------------------------------------------------------------
  // Row filters: `df = df[mask]` keeps the rows whose mask is true, in order.

  function Filter<T>(s: seq<T>, keep: T -> bool): (r: seq<T>)
    ensures |r| <= |s|
    ensures forall i :: 0 <= i < |r| ==> keep(r[i])
  {
    if s == [] then []
    else if keep(s[0]) then [s[0]] + Filter(s[1..], keep)
    else Filter(s[1..], keep)
  }

  /** `r` can be obtained from `s` by deleting elements: a subset of the rows, in their order. */
  ghost predicate IsSubseq<T>(r: seq<T>, s: seq<T>)
    decreases |s|
  {
    r == [] || (s != [] && ((r[0] == s[0] && IsSubseq(r[1..], s[1..])) || IsSubseq(r, s[1..])))
  }

  lemma {:induction false} FilterIsSubseq<T>(s: seq<T>, keep: T -> bool)
    ensures IsSubseq(Filter(s, keep), s)
  {
    if s != [] {
      FilterIsSubseq(s[1..], keep);
      if keep(s[0]) {
        assert Filter(s, keep)[1..] == Filter(s[1..], keep);
      }
    }
  }

  lemma {:induction false} SubseqMultiset<T>(r: seq<T>, s: seq<T>)
    requires IsSubseq(r, s)
    ensures multiset(r) <= multiset(s)
    decreases |s|
  {
    if r != [] {
      if r[0] == s[0] && IsSubseq(r[1..], s[1..]) {
        SubseqMultiset(r[1..], s[1..]);
        assert r == [r[0]] + r[1..];
        assert s == [s[0]] + s[1..];
      } else {
        SubseqMultiset(r, s[1..]);
        assert s == [s[0]] + s[1..];
      }
    }
  }

  lemma {:induction false} SubseqTransitive<T>(a: seq<T>, b: seq<T>, c: seq<T>)
    requires IsSubseq(a, b) && IsSubseq(b, c)
    ensures IsSubseq(a, c)
    decreases |c|
  {
    if a != [] {
      assert b != [];
      if b[0] == c[0] && IsSubseq(b[1..], c[1..]) {
        if a[0] == b[0] && IsSubseq(a[1..], b[1..]) {
          SubseqTransitive(a[1..], b[1..], c[1..]);
        } else {
          SubseqTransitive(a, b[1..], c[1..]);
        }
      } else {
        SubseqTransitive(a, b, c[1..]);
      }
    }
  }

  /** Exactly the kept rows survive, each as often as in the input. */
  lemma {:induction false} FilterMultiset<T>(s: seq<T>, keep: T -> bool, x: T)
    ensures multiset(Filter(s, keep))[x] == if keep(x) then multiset(s)[x] else 0
  {
    if s != [] {
      FilterMultiset(s[1..], keep, x);
      assert s == [s[0]] + s[1..];
    }
  }

  lemma {:induction false} FilterAppend<T>(a: seq<T>, b: seq<T>, keep: T -> bool)
    ensures Filter(a + b, keep) == Filter(a, keep) + Filter(b, keep)
  {
    if a != [] {
      assert (a + b)[1..] == a[1..] + b;
      FilterAppend(a[1..], b, keep);
    } else {
      assert a + b == b;
    }
  }

  /** A filter that keeps everything is the identity. */
  lemma {:induction false} FilterKeepsAll<T>(s: seq<T>, keep: T -> bool)
    requires forall i :: 0 <= i < |s| ==> keep(s[i])
    ensures Filter(s, keep) == s
  {
    if s != [] {
      FilterKeepsAll(s[1..], keep);
    }
  }

  /** A filter that keeps nothing leaves nothing. */
  lemma {:induction false} FilterRejectsAll<T>(s: seq<T>, keep: T -> bool)
    requires forall i :: 0 <= i < |s| ==> !keep(s[i])
    ensures Filter(s, keep) == []
  {
    if s != [] {
      FilterRejectsAll(s[1..], keep);
    }
  }

  /** Selecting with `q` after filtering with a weaker `keep` is selecting with `q` alone:
      rows that `q` selects are never removed by the first filter. */
  lemma {:induction false} FilterAbsorbs<T>(s: seq<T>, keep: T -> bool, q: T -> bool)
    requires forall i :: 0 <= i < |s| && q(s[i]) ==> keep(s[i])
    ensures Filter(Filter(s, keep), q) == Filter(s, q)
  {
    if s != [] {
      FilterAbsorbs(s[1..], keep, q);
    }
  }

  /** Two successive filters are one filter with the conjunction of their tests. */
  lemma {:induction false} FilterCompose<T>(s: seq<T>, p: T -> bool, q: T -> bool, both: T -> bool)
    requires forall x :: both(x) == (p(x) && q(x))
    ensures Filter(Filter(s, p), q) == Filter(s, both)
  {
    if s != [] {
      FilterCompose(s[1..], p, q, both);
    }
  }

  // ---------------------------------------------------------------------------
  // `Series.unique()`: the distinct values in order of first appearance.

  function Distinct<T(==)>(s: seq<T>): (r: seq<T>)
    ensures forall i :: 0 <= i < |r| ==> r[i] in s
    ensures forall i :: 0 <= i < |s| ==> s[i] in r
    ensures forall i, j :: 0 <= i < j < |r| ==> r[i] != r[j]
  {
    if s == [] then []
    else
      var init := s[..|s| - 1];
      var d := Distinct(init);
      assert forall i :: 0 <= i < |init| ==> init[i] == s[i];
      if s[|s| - 1] in d then d else d + [s[|s| - 1]]
  }

  /** Two positions holding the same value make it occur at least twice. */
  lemma TwoOccurrences<T>(s: seq<T>, a: int, b: int)
    requires 0 <= a < b < |s| && s[a] == s[b]
    ensures multiset(s)[s[a]] >= 2
  {
    assert s == s[..b] + s[b..];
    assert s[..b][a] == s[a];
    assert s[a] in multiset(s[..b]);
    assert s[b..][0] == s[b];
    assert s[b] in multiset(s[b..]);
  }

  /** No value occurs twice. */
  predicate NoDuplicates<T(==)>(s: seq<T>)
  {
    forall i, j :: 0 <= i < j < |s| ==> s[i] != s[j]
  }
}
