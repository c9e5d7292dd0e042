/** Ordering rows by their timestamp and removing rows whose timestamp repeats
    (`sort_values(by='date_time')` and `drop_duplicates(subset='date_time', keep='first')`). */
module Sorting {
  import opened Frames

  /** A row keyed by its `date_time`, taken as the int64 nanosecond count that the
      interpolator is given. */
  datatype Timed<V> = Timed(time: int, val: V)

  predicate SortedByTime<V>(s: seq<Timed<V>>)
  {
    forall i, j :: 0 <= i < j < |s| ==> s[i].time <= s[j].time
  }

  /** What the interpolator requires of its abscissae. */
  predicate StrictlyIncreasing<V>(s: seq<Timed<V>>)
  {
    forall i, j :: 0 <= i < j < |s| ==> s[i].time < s[j].time
  }

  /** Places `x` in front of the first row that is not earlier than it. */
  function Insert<V>(x: Timed<V>, s: seq<Timed<V>>): (r: seq<Timed<V>>)
    requires SortedByTime(s)
    ensures SortedByTime(r)
    ensures |r| == |s| + 1
    ensures r[0] == x || (s != [] && r[0] == s[0])
  {
    if s == [] || x.time <= s[0].time then
      PrependSorted(x, s);
      [x] + s
    else
      var rest := Insert(x, s[1..]);
      assert s == [s[0]] + s[1..];
      assert s[0].time <= rest[0].time;
      PrependSorted(s[0], rest);
      [s[0]] + rest
  }

  /** Inserting adds exactly the one row. */
  lemma {:induction false} InsertMultiset<V>(x: Timed<V>, s: seq<Timed<V>>)
    requires SortedByTime(s)
    ensures multiset(Insert(x, s)) == multiset(s) + multiset{x}
  {
    if s != [] && x.time > s[0].time {
      InsertMultiset(x, s[1..]);
      assert s == [s[0]] + s[1..];
      assert Insert(x, s) == [s[0]] + Insert(x, s[1..]);
    }
  }

  lemma PrependSorted<V>(y: Timed<V>, s: seq<Timed<V>>)
    requires SortedByTime(s)
    requires s != [] ==> y.time <= s[0].time
    ensures SortedByTime([y] + s)
  {
    var r := [y] + s;
    forall i, j | 0 <= i < j < |r| ensures r[i].time <= r[j].time {
      if i == 0 {
        assert r[j] == s[j - 1];
      } else {
        assert r[i] == s[i - 1] && r[j] == s[j - 1];
      }
    }
  }

  /** `sort_values(by='date_time')`: the same rows, earliest first. */
  function SortByTime<V>(s: seq<Timed<V>>): (r: seq<Timed<V>>)
    ensures SortedByTime(r)
    ensures multiset(r) == multiset(s)
    ensures |r| == |s|
  {
    if s == [] then []
    else
      assert s == [s[0]] + s[1..];
      InsertMultiset(s[0], SortByTime(s[1..]));
      Insert(s[0], SortByTime(s[1..]))
  }

  predicate HasTime<V>(s: seq<Timed<V>>, t: int)
  {
    exists i :: 0 <= i < |s| && s[i].time == t
  }

  /** `drop_duplicates(subset='date_time', keep='first')`: a row survives iff no earlier
      row has the same time. */
  function DropDuplicateTimes<V>(s: seq<Timed<V>>): (r: seq<Timed<V>>)
    ensures multiset(r) <= multiset(s)
    ensures forall i, j :: 0 <= i < j < |r| ==> r[i].time != r[j].time
  {
    if s == [] then []
    else
      var init := s[..|s| - 1];
      var x := s[|s| - 1];
      assert s == init + [x];
      var d := DropDuplicateTimes(init);
      if HasTime(d, x.time) then d else d + [x]
  }

  /** Every surviving row is a row of the input. */
  lemma DropDuplicatesMembers<V>(s: seq<Timed<V>>)
    ensures forall i :: 0 <= i < |DropDuplicateTimes(s)| ==> DropDuplicateTimes(s)[i] in s
  {
    var r := DropDuplicateTimes(s);
    forall i | 0 <= i < |r| ensures r[i] in s {
      assert r[i] in multiset(r);
    }
  }

  /** No timestamp is lost: each time of the input is the time of a surviving row. */
  lemma {:induction false} DropDuplicatesKeepsTimes<V>(s: seq<Timed<V>>)
    ensures forall i :: 0 <= i < |s| ==> HasTime(DropDuplicateTimes(s), s[i].time)
  {
    if s != [] {
      var init := s[..|s| - 1];
      var x := s[|s| - 1];
      var d := DropDuplicateTimes(init);
      DropDuplicatesKeepsTimes(init);
      assert forall i :: 0 <= i < |init| ==> init[i] == s[i];
      if !HasTime(d, x.time) {
        forall i | 0 <= i < |s| ensures HasTime(d + [x], s[i].time) {
          if i < |init| {
            var j :| 0 <= j < |d| && d[j].time == init[i].time;
            assert (d + [x])[j] == d[j];
          } else {
            assert (d + [x])[|d|] == x;
          }
        }
      }
    }
  }

  /** On rows already sorted by time, removing repeated times leaves strictly increasing times. */
  lemma {:induction false} DropDuplicatesOfSorted<V>(s: seq<Timed<V>>)
    requires SortedByTime(s)
    ensures StrictlyIncreasing(DropDuplicateTimes(s))
  {
    if s != [] {
      var init := s[..|s| - 1];
      var x := s[|s| - 1];
      assert forall i :: 0 <= i < |init| ==> init[i] == s[i];
      DropDuplicatesOfSorted(init);
      var d := DropDuplicateTimes(init);
      DropDuplicatesMembers(init);
      if !HasTime(d, x.time) {
        forall i | 0 <= i < |d| ensures d[i].time < x.time {
          var k :| 0 <= k < |init| && init[k] == d[i];
          assert d[i].time <= x.time;
        }
      }
    }
  }
}
