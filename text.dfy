/** The Python string operations the scripts rely on, on `string` = `seq<char>`. */
module Text {
  import opened Frames

  /** `s.startswith(prefix)`. */
  predicate StartsWith(s: string, prefix: string)
  {
    |prefix| <= |s| && s[..|prefix|] == prefix
  }

  /** `s.lstrip(chars)`: Python treats `chars` as a set and drops every leading member. */
  function LStrip(s: string, chars: set<char>): (r: string)
    ensures |r| <= |s| && r == s[|s| - |r|..]
    ensures r != [] ==> r[0] !in chars
    ensures forall i :: 0 <= i < |s| - |r| ==> s[i] in chars
  {
    if s != [] && s[0] in chars then LStrip(s[1..], chars) else s
  }

  /** `s.rstrip(chars)`: drops every trailing member of the set `chars`. */
  function RStrip(s: string, chars: set<char>): (r: string)
    ensures |r| <= |s| && r == s[..|r|]
    ensures r != [] ==> r[|r| - 1] !in chars
    ensures forall i :: |r| <= i < |s| ==> s[i] in chars
  {
    if s != [] && s[|s| - 1] in chars then RStrip(s[..|s| - 1], chars) else s
  }

  /** `s.split(sep)` for a one-character separator: `"a--b"` gives `["a", "", "b"]`, `""` gives `[""]`. */
  function Split(s: string, sep: char): (parts: seq<string>)
    ensures |parts| >= 1
    ensures forall i :: 0 <= i < |parts| ==> sep !in parts[i]
  {
    if s == [] then [""]
    else
      var rest := Split(s[1..], sep);
      if s[0] == sep then [""] + rest else [[s[0]] + rest[0]] + rest[1..]
  }

  /** `sep.join(parts)`. */
  function Join(parts: seq<string>, sep: char): string
  {
    if parts == [] then ""
    else if |parts| == 1 then parts[0]
    else parts[0] + [sep] + Join(parts[1..], sep)
  }

  /** `"".join(parts)`. */
  function Concat(parts: seq<string>): string
  {
    if parts == [] then "" else parts[0] + Concat(parts[1..])
  }

  function Occurrences(s: string, c: char): nat
  {
    if s == [] then 0 else (if s[0] == c then 1 else 0) + Occurrences(s[1..], c)
  }

  /** Splitting loses nothing: joining the parts with the separator gives the string back. */
  lemma {:induction false} JoinSplit(s: string, sep: char)
    ensures Join(Split(s, sep), sep) == s
  {
    if s != [] {
      var rest := Split(s[1..], sep);
      JoinSplit(s[1..], sep);
      if s[0] == sep {
        assert Split(s, sep) == [""] + rest;
        assert ([""] + rest)[1..] == rest;
      } else {
        var parts := [[s[0]] + rest[0]] + rest[1..];
        assert Split(s, sep) == parts;
        if |rest| == 1 {
          assert Join(parts, sep) == [s[0]] + rest[0];
        } else {
          assert parts[1..] == rest[1..];
          assert Join(parts, sep) == ([s[0]] + rest[0]) + [sep] + Join(rest[1..], sep);
          assert Join(rest, sep) == rest[0] + [sep] + Join(rest[1..], sep);
        }
      }
    }
  }

  /** There is one more part than there are separators. */
  lemma {:induction false} SplitCount(s: string, sep: char)
    ensures |Split(s, sep)| == Occurrences(s, sep) + 1
  {
    if s != [] {
      SplitCount(s[1..], sep);
    }
  }

  /** Concatenating the parts of a split drops exactly the separators. */
  lemma {:induction false} ConcatSplit(s: string, sep: char)
    ensures Concat(Split(s, sep)) == Filter(s, (c: char) => c != sep)
  {
    if s != [] {
      var rest := Split(s[1..], sep);
      ConcatSplit(s[1..], sep);
      if s[0] == sep {
        assert ([""] + rest)[1..] == rest;
      } else {
        var parts := [[s[0]] + rest[0]] + rest[1..];
        assert parts[1..] == rest[1..];
        assert Concat(rest) == rest[0] + Concat(rest[1..]);
      }
    }
  }

  /** Text without the separator is a single part. */
  lemma {:induction false} SplitWithoutSeparator(s: string, sep: char)
    requires sep !in s
    ensures Split(s, sep) == [s]
  {
    if s != [] {
      SplitWithoutSeparator(s[1..], sep);
      assert [s[0]] + s[1..] == s;
    }
  }

  /** Splitting two texts glued by the separator splits each of them. */
  lemma {:induction false} SplitAround(a: string, b: string, sep: char)
    ensures Split(a + [sep] + b, sep) == Split(a, sep) + Split(b, sep)
  {
    if a == [] {
      SplitAfterSeparator(b, sep);
      assert a + [sep] + b == [sep] + b;
    } else {
      SplitAround(a[1..], b, sep);
      SplitAroundStep(a, b, sep);
    }
  }

  /** A leading separator opens an empty first part. */
  lemma SplitAfterSeparator(b: string, sep: char)
    ensures Split([sep] + b, sep) == [""] + Split(b, sep)
  {
    assert ([sep] + b)[1..] == b;
  }

  /** The inductive step of SplitAround: one more character in front of the separator. */
  lemma SplitAroundStep(a: string, b: string, sep: char)
    requires a != []
    requires Split(a[1..] + [sep] + b, sep) == Split(a[1..], sep) + Split(b, sep)
    ensures Split(a + [sep] + b, sep) == Split(a, sep) + Split(b, sep)
  {
    var s := a + [sep] + b;
    assert s[0] == a[0] && s[1..] == a[1..] + [sep] + b;
    var rest, tail := Split(a[1..], sep), Split(b, sep);
    if a[0] != sep {
      GlueParts([a[0]], rest, tail, Split(s[1..], sep));
    } else {
      assert [""] + (rest + tail) == ([""] + rest) + tail;
    }
  }

  /** Extending the first part of `rest` commutes with appending `tail`. */
  lemma GlueParts(c: string, rest: seq<string>, tail: seq<string>, x: seq<string>)
    requires rest != [] && x == rest + tail
    ensures [c + x[0]] + x[1..] == ([c + rest[0]] + rest[1..]) + tail
  {
    assert x[1..] == rest[1..] + tail;
  }

  /** Empty parts contribute nothing to a concatenation. */
  lemma {:induction false} ConcatNonEmpty(parts: seq<string>)
    ensures Concat(Filter(parts, (p: string) => p != "")) == Concat(parts)
  {
    if parts != [] {
      ConcatNonEmpty(parts[1..]);
    }
  }

  // ---------------------------------------------------------------------------
  // `re.split` on alternatives of fixed tokens.

  /** The first token, in the order of the alternatives, that `s` starts with. */
  function FirstToken(s: string, tokens: seq<string>): (r: Option<string>)
    ensures r.Some? ==> r.value in tokens && StartsWith(s, r.value)
    ensures r.None? ==> forall i :: 0 <= i < |tokens| ==> !StartsWith(s, tokens[i])
  {
    if tokens == [] then None
    else if StartsWith(s, tokens[0]) then Some(tokens[0])
    else FirstToken(s, tokens[1..])
  }

  /** `re.split(pattern, s)` where `pattern` is an alternation of non-empty literal tokens:
      the leftmost match is cut out, trying the alternatives in order. */
  function SplitOnTokens(s: string, tokens: seq<string>): (parts: seq<string>)
    requires forall i :: 0 <= i < |tokens| ==> tokens[i] != []
    ensures |parts| >= 1
    decreases |s|
  {
    if s == [] then [""]
    else match FirstToken(s, tokens)
      case Some(t) => [""] + SplitOnTokens(s[|t|..], tokens)
      case None =>
        var rest := SplitOnTokens(s[1..], tokens);
        [[s[0]] + rest[0]] + rest[1..]
  }

  /** A regular-expression split on a single one-character token is `str.split`. */
  lemma {:induction false} SplitOnOneChar(s: string, c: char)
    ensures SplitOnTokens(s, [[c]]) == Split(s, c)
  {
    if s != [] {
      SplitOnOneChar(s[1..], c);
      if s[0] == c {
        assert FirstToken(s, [[c]]) == Some([c]);
      } else {
        assert !StartsWith(s, [c]);
        assert FirstToken(s, [[c]]) == None;
      }
    }
  }

  /** No part of a split on one-character tokens contains one of those characters. */
  lemma {:induction false} SplitOnCharsParts(s: string, tokens: seq<string>)
    requires forall i :: 0 <= i < |tokens| ==> |tokens[i]| == 1
    ensures forall k, i :: 0 <= k < |SplitOnTokens(s, tokens)| && 0 <= i < |tokens| ==>
              tokens[i][0] !in SplitOnTokens(s, tokens)[k]
    decreases |s|
  {
    if s != [] {
      match FirstToken(s, tokens)
      case Some(t) =>
        SplitOnCharsParts(s[|t|..], tokens);
      case None =>
        SplitOnCharsParts(s[1..], tokens);
        forall i | 0 <= i < |tokens| ensures s[0] != tokens[i][0] {
          assert !StartsWith(s, tokens[i]);
          assert tokens[i] == [tokens[i][0]];
        }
    }
  }

  // ---------------------------------------------------------------------------
  // Case and numbers.

  /** Lower-casing of one character (the sample identifiers are ASCII). */
  function LowerChar(c: char): (r: char)
    ensures 'A' <= c <= 'Z' ==> 'a' <= r <= 'z' && r as int - c as int == 32
    ensures !('A' <= c <= 'Z') ==> r == c
  {
    if 'A' <= c <= 'Z' then (c as int + 32) as char else c
  }

  /** `s.lower()` on ASCII text. */
  function Lower(s: string): (r: string)
    ensures |r| == |s|
    ensures forall i :: 0 <= i < |s| ==> r[i] == LowerChar(s[i])
  {
    seq(|s|, i requires 0 <= i < |s| => LowerChar(s[i]))
  }

  /** Lower-casing twice is lower-casing once. */
  lemma LowerIdempotent(s: string)
    ensures Lower(Lower(s)) == Lower(s)
  {
  }

  predicate IsDigit(c: char)
  {
    '0' <= c <= '9'
  }

  predicate AllDigits(s: string)
  {
    forall i :: 0 <= i < |s| ==> IsDigit(s[i])
  }

  function DigitsValue(s: string): (n: nat)
    requires AllDigits(s)
  {
    if s == [] then 0 else DigitsValue(s[..|s| - 1]) * 10 + (s[|s| - 1] as int - '0' as int)
  }

  /** The text Python's `int()` and `float()` accept for a whole number written without
      a decimal point: an optional sign followed by one or more digits. */
  predicate IsInteger(s: string)
  {
    (|s| >= 1 && AllDigits(s)) ||
    (|s| >= 2 && (s[0] == '-' || s[0] == '+') && AllDigits(s[1..]))
  }

  /** `int(s)`; `None` where Python raises ValueError. */
  function ParseInteger(s: string): (r: Option<int>)
    ensures r.Some? <==> IsInteger(s)
    ensures r.Some? && s[0] != '-' ==> r.value >= 0
    ensures r.Some? ==> r.value == if s[0] == '-' then -(DigitsValue(s[1..]) as int)
                                   else if s[0] == '+' then DigitsValue(s[1..])
                                   else DigitsValue(s)
  {
    if |s| >= 1 && AllDigits(s) then Some(DigitsValue(s))
    else if |s| >= 2 && (s[0] == '-' || s[0] == '+') && AllDigits(s[1..]) then
      var v: int := DigitsValue(s[1..]);
      Some(if s[0] == '-' then -v else v)
    else None
  }

  function DigitChar(d: nat): (c: char)
    requires d < 10
    ensures IsDigit(c) && c as int - '0' as int == d
  {
    ('0' as int + d) as char
  }

  /** `str(n)` of a natural number: its decimal digits, without leading zeros. */
  function DecimalDigits(n: nat): (s: string)
    ensures |s| >= 1 && AllDigits(s)
  {
    if n < 10 then [DigitChar(n)] else DecimalDigits(n / 10) + [DigitChar(n % 10)]
  }

  /** `str(n)` of an integer: a minus sign before the digits of a negative number. */
  function ShowInteger(n: int): (s: string)
    ensures IsInteger(s)
    ensures s[0] == '-' <==> n < 0
  {
    if n < 0 then
      assert ("-" + DecimalDigits(-n))[1..] == DecimalDigits(-n);
      "-" + DecimalDigits(-n)
    else DecimalDigits(n)
  }

  lemma {:induction false} DecimalDigitsValue(n: nat)
    ensures DigitsValue(DecimalDigits(n)) == n
  {
    if n >= 10 {
      DecimalDigitsValue(n / 10);
      var s := DecimalDigits(n);
      assert s[..|s| - 1] == DecimalDigits(n / 10);
    }
  }

  /** `int(str(n)) == n`: parsing reads back every integer its printing writes. */
  lemma ParseShowInteger(n: int)
    ensures ParseInteger(ShowInteger(n)) == Some(n)
  {
    if n < 0 {
      DecimalDigitsValue(-n);
      assert ShowInteger(n)[1..] == DecimalDigits(-n);
    } else {
      DecimalDigitsValue(n);
    }
  }
}
