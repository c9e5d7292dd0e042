/** Station coordinates (processing_stations_coordinates.py and data_processing/dms_to_dd.py):
    degree-minute-second strings are stripped of spaces, split on their separators and
    turned into signed decimal degrees. */
module Coordinates {
  import opened Frames
  import opened Text

  // ---------------------------------------------------------------------------
  // `''.join(filter(None, x.split(' ')))` (lines 8-9).

  /** The spaces of a cell removed: split on ' ', drop the empty parts, glue the rest. */
  function RemoveSpaces(s: string): (r: string)
    ensures r == Filter(s, (c: char) => c != ' ')
  {
    ConcatNonEmpty(Split(s, ' '));
    ConcatSplit(s, ' ');
    Concat(Filter(Split(s, ' '), (p: string) => p != ""))
  }

  /** Space stripping keeps every other character, as often as it occurs and in order, and
      leaves no space behind. */
  lemma RemoveSpacesKeepsOthers(s: string, c: char)
    ensures IsSubseq(RemoveSpaces(s), s)
    ensures ' ' !in RemoveSpaces(s)
    ensures c != ' ' ==> multiset(RemoveSpaces(s))[c] == multiset(s)[c]
  {
    FilterIsSubseq(s, (c: char) => c != ' ');
    FilterMultiset(s, (c: char) => c != ' ', c);
  }

  // ---------------------------------------------------------------------------
  // The conversion (processing_stations_coordinates.py:12-20, data_processing/dms_to_dd.py:4-12).

  /** `re.split('\Â°|\.|\'', ...)`: the two-character mis-decoded degree sign, a full stop
      or an apostrophe. */
  const DMS_TOKENS: seq<string> := ["\U{00C2}\U{00B0}", ".", "'"]

  /** `re.split('[Â°\.\'\"]', ...)`: any one of five characters, so the mis-decoded degree
      sign counts as two separators. */
  const CONVERTER_TOKENS: seq<string> := ["\U{00C2}", "\U{00B0}", ".", "'", "\""]

  /** Both splits have only non-empty separators. */
  lemma TokensNonEmpty()
    ensures forall i :: 0 <= i < |DMS_TOKENS| ==> DMS_TOKENS[i] != []
    ensures forall i :: 0 <= i < |CONVERTER_TOKENS| ==> CONVERTER_TOKENS[i] != []
  {
  }

  /** A direction character that is none of the separators of either split. */
  predicate Letter(c: char)
  {
    c != '\U{00C2}' && c != '\U{00B0}' && c != '.' && c != '\'' && c != '"'
  }

  /** A direction letter on its own is one part for `converter`. */
  lemma LetterIsOnePart(c: char)
    requires Letter(c)
    ensures SplitOnTokens([c], CONVERTER_TOKENS) == [[c]]
  {
    assert forall j :: 0 <= j < |CONVERTER_TOKENS| ==> CONVERTER_TOKENS[j][0] != c;
    SplitPlain([c], CONVERTER_TOKENS);
  }

  predicate West(direction: string)
  {
    direction == "W" || direction == "S"
  }

  /** `(deg + minutes/60 + seconds/3600) * (-1 if direction in ['W', 'S'] else 1)`. */
  function Decimal(deg: real, minutes: real, seconds: real, direction: string): (r: real)
    ensures Abs(r) == Abs(deg + minutes / 60.0 + seconds / 3600.0)
    ensures deg + minutes / 60.0 + seconds / 3600.0 > 0.0 ==> (r < 0.0 <==> West(direction))
  {
    var magnitude := deg + minutes / 60.0 + seconds / 3600.0;
    magnitude * if West(direction) then -1.0 else 1.0
  }

  /** The conversion with the given separators: the split must give exactly four parts
      (the unpacking raises ValueError otherwise), and `float()` of each of the first three
      raises ValueError on what it cannot read. */
  function Convert(s: string, tokens: seq<string>): (r: Result<real>)
    requires forall i :: 0 <= i < |tokens| ==> tokens[i] != []
    ensures r.Ok? <==> |SplitOnTokens(s, tokens)| == 4 &&
                       IsInteger(SplitOnTokens(s, tokens)[0]) &&
                       IsInteger(SplitOnTokens(s, tokens)[1]) &&
                       IsInteger(SplitOnTokens(s, tokens)[2])
    ensures r.Err? ==> r.reason == "ValueError"
  {
    var parts := SplitOnTokens(s, tokens);
    if |parts| != 4 then Err("ValueError")
    else
      match (ParseInteger(parts[0]), ParseInteger(parts[1]), ParseInteger(parts[2]))
      case (Some(d), Some(m), Some(sec)) => Ok(Decimal(d as real, m as real, sec as real, parts[3]))
      case _ => Err("ValueError")
  }

  /** `dms_to_dd` of processing_stations_coordinates.py. */
  function DmsToDd(s: string): (r: Result<real>)
    ensures r.Ok? <==> |SplitOnTokens(s, DMS_TOKENS)| == 4 &&
                       forall k :: 0 <= k < 3 ==> IsInteger(SplitOnTokens(s, DMS_TOKENS)[k])
  {
    Convert(s, DMS_TOKENS)
  }

  /** `converter` of data_processing/dms_to_dd.py. */
  function Converter(s: string): (r: Result<real>)
    ensures r.Ok? <==> |SplitOnTokens(s, CONVERTER_TOKENS)| == 4 &&
                       forall k :: 0 <= k < 3 ==> IsInteger(SplitOnTokens(s, CONVERTER_TOKENS)[k])
  {
    Convert(s, CONVERTER_TOKENS)
  }

  // ---------------------------------------------------------------------------
  // Writing a coordinate, and reading it back.

  function DigitChar(d: nat): (c: char)
    requires d < 10
    ensures IsDigit(c) && c as int - '0' as int == d
  {
    ('0' as int + d) as char
  }

  /** The decimal digits of `n`. */
  function ShowNat(n: nat): (s: string)
    ensures |s| >= 1 && AllDigits(s)
  {
    if n < 10 then [DigitChar(n)] else ShowNat(n / 10) + [DigitChar(n % 10)]
  }

  /** Reading the digits back gives the number. */
  lemma {:induction false} ShowNatValue(n: nat)
    ensures DigitsValue(ShowNat(n)) == n
  {
    var s := ShowNat(n);
    if n < 10 {
      assert s[..|s| - 1] == [];
    } else {
      ShowNatValue(n / 10);
      assert s[..|s| - 1] == ShowNat(n / 10);
    }
  }

  lemma ShowNatParses(n: nat)
    ensures ParseInteger(ShowNat(n)) == Some(n)
  {
    ShowNatValue(n);
  }

  /** No character of `a` begins a token, so no separator is found inside `a`. */
  predicate Plain(a: string, tokens: seq<string>)
    requires forall i :: 0 <= i < |tokens| ==> tokens[i] != []
  {
    forall i, j :: 0 <= i < |a| && 0 <= j < |tokens| ==> a[i] != tokens[j][0]
  }

  /** Text without separators followed by a separator is one part. */
  lemma {:induction false} SplitPiece(a: string, t: string, rest: string, tokens: seq<string>)
    requires forall i :: 0 <= i < |tokens| ==> tokens[i] != []
    requires Plain(a, tokens) && t != [] && FirstToken(t + rest, tokens) == Some(t)
    ensures SplitOnTokens(a + (t + rest), tokens) == [a] + SplitOnTokens(rest, tokens)
  {
    var s := a + (t + rest);
    if a == [] {
      assert s == t + rest;
      assert s[|t|..] == rest;
    } else {
      assert s[1..] == a[1..] + (t + rest);
      assert Plain(a[1..], tokens) by {
        forall i, j | 0 <= i < |a[1..]| && 0 <= j < |tokens| ensures a[1..][i] != tokens[j][0] {
          assert a[1..][i] == a[i + 1];
        }
      }
      SplitPiece(a[1..], t, rest, tokens);
      assert s[0] == a[0];
      PlainHasNoToken(s, tokens);
      var parts := SplitOnTokens(s[1..], tokens);
      assert parts == [a[1..]] + SplitOnTokens(rest, tokens);
      assert SplitOnTokens(s, tokens) == [[s[0]] + parts[0]] + parts[1..];
      assert [a[0]] + a[1..] == a;
    }
  }

  /** Text that starts with a plain character starts with no token. */
  lemma {:induction false} PlainHasNoToken(s: string, tokens: seq<string>)
    requires forall i :: 0 <= i < |tokens| ==> tokens[i] != []
    requires s != [] && forall j :: 0 <= j < |tokens| ==> s[0] != tokens[j][0]
    ensures FirstToken(s, tokens) == None
  {
    if tokens != [] {
      assert !StartsWith(s, tokens[0]);
      PlainHasNoToken(s, tokens[1..]);
    }
  }

  /** The alternatives before the `k`-th do not begin `s` and the `k`-th does: it is the one
      matched. */
  lemma {:induction false} FirstTokenIs(s: string, tokens: seq<string>, k: nat)
    requires forall i :: 0 <= i < |tokens| ==> tokens[i] != []
    requires s != [] && k < |tokens| && StartsWith(s, tokens[k])
    requires forall j :: 0 <= j < k ==> s[0] != tokens[j][0]
    ensures FirstToken(s, tokens) == Some(tokens[k])
  {
    if k > 0 {
      assert !StartsWith(s, tokens[0]);
      FirstTokenIs(s, tokens[1..], k - 1);
    }
  }

  /** Text without separators is a single part. */
  lemma {:induction false} SplitPlain(a: string, tokens: seq<string>)
    requires forall i :: 0 <= i < |tokens| ==> tokens[i] != []
    requires Plain(a, tokens)
    ensures SplitOnTokens(a, tokens) == [a]
  {
    if a != [] {
      assert Plain(a[1..], tokens) by {
        forall i, j | 0 <= i < |a[1..]| && 0 <= j < |tokens| ensures a[1..][i] != tokens[j][0] {
          assert a[1..][i] == a[i + 1];
        }
      }
      SplitPlain(a[1..], tokens);
      PlainHasNoToken(a, tokens);
      assert [a[0]] + a[1..] == a;
    }
  }

  lemma DigitsArePlain(a: string, tokens: seq<string>)
    requires forall i :: 0 <= i < |tokens| ==> tokens[i] != [] && !IsDigit(tokens[i][0])
    requires AllDigits(a)
    ensures Plain(a, tokens)
  {
  }

  /** A station coordinate written with the mis-decoded degree sign: `17Â°35.12'W`. */
  function FormatDms(deg: nat, minutes: nat, seconds: nat, direction: char): string
  {
    ShowNat(deg) + ("\U{00C2}\U{00B0}" + (ShowNat(minutes) + ("." + (ShowNat(seconds) + ("'" + [direction])))))
  }

  /** Digits followed by one of the separators of `dms_to_dd` are one part. */
  lemma DmsPiece(a: string, t: string, rest: string)
    requires AllDigits(a) && (t == "\U{00C2}\U{00B0}" || t == "." || t == "'")
    ensures SplitOnTokens(a + (t + rest), DMS_TOKENS) == [a] + SplitOnTokens(rest, DMS_TOKENS)
  {
    DigitsArePlain(a, DMS_TOKENS);
    if t == "\U{00C2}\U{00B0}" {
      FirstTokenIs(t + rest, DMS_TOKENS, 0);
    } else if t == "." {
      FirstTokenIs(t + rest, DMS_TOKENS, 1);
    } else {
      FirstTokenIs(t + rest, DMS_TOKENS, 2);
    }
    SplitPiece(a, t, rest, DMS_TOKENS);
  }

  /** A written coordinate splits into its three numbers and its direction. */
  lemma SplitFormatDms(d: string, m: string, sec: string, direction: char)
    requires AllDigits(d) && AllDigits(m) && AllDigits(sec)
    requires direction != '\U{00C2}' && direction != '.' && direction != '\''
    ensures var parts := SplitOnTokens(d + ("\U{00C2}\U{00B0}" + (m + ("." + (sec + ("'" + [direction]))))), DMS_TOKENS);
            |parts| == 4 && parts[0] == d && parts[1] == m && parts[2] == sec && parts[3] == [direction]
  {
    TokensNonEmpty();
    var tail := [direction];
    var x2 := sec + ("'" + tail);
    var x1 := m + ("." + x2);
    var p2, p1, p0 := SplitOnTokens(x2, DMS_TOKENS), SplitOnTokens(x1, DMS_TOKENS),
                      SplitOnTokens(d + ("\U{00C2}\U{00B0}" + x1), DMS_TOKENS);
    assert |p2| == 2 && p2[0] == sec && p2[1] == tail by {
      SplitPlain(tail, DMS_TOKENS);
      DmsPiece(sec, "'", tail);
    }
    assert |p1| == 3 && p1[0] == m && p1[1..] == p2 by {
      DmsPiece(m, ".", x2);
    }
    assert |p0| == 4 && p0[0] == d && p0[1..] == p1 by {
      DmsPiece(d, "\U{00C2}\U{00B0}", x1);
    }
  }

  /** Reading a written coordinate gives back its signed decimal degrees. */
  lemma DmsRoundTrip(deg: nat, minutes: nat, seconds: nat, direction: char)
    requires direction != '\U{00C2}' && direction != '.' && direction != '\''
    ensures DmsToDd(FormatDms(deg, minutes, seconds, direction)) ==
            Ok(Decimal(deg as real, minutes as real, seconds as real, [direction]))
  {
    SplitFormatDms(ShowNat(deg), ShowNat(minutes), ShowNat(seconds), direction);
    ShowNatParses(deg);
    ShowNatParses(minutes);
    ShowNatParses(seconds);
  }

  /** Whole degrees: no minutes and no seconds give exactly the degrees, negated for the
      western and southern hemispheres. */
  lemma WholeDegrees(deg: nat, direction: char)
    requires direction != '\U{00C2}' && direction != '.' && direction != '\''
    ensures DmsToDd(FormatDms(deg, 0, 0, direction)) ==
            Ok(if direction == 'W' || direction == 'S' then -(deg as real) else deg as real)
  {
    DmsRoundTrip(deg, 0, 0, direction);
  }

  /** Digits followed by one of the separators of `converter` are one part. */
  lemma ConverterPiece(a: string, t: string, rest: string)
    requires AllDigits(a) && t in CONVERTER_TOKENS
    ensures SplitOnTokens(a + (t + rest), CONVERTER_TOKENS) == [a] + SplitOnTokens(rest, CONVERTER_TOKENS)
  {
    DigitsArePlain(a, CONVERTER_TOKENS);
    if t == "\U{00C2}" {
      FirstTokenIs(t + rest, CONVERTER_TOKENS, 0);
    } else if t == "\U{00B0}" {
      FirstTokenIs(t + rest, CONVERTER_TOKENS, 1);
    } else if t == "." {
      FirstTokenIs(t + rest, CONVERTER_TOKENS, 2);
    } else if t == "'" {
      FirstTokenIs(t + rest, CONVERTER_TOKENS, 3);
    } else {
      FirstTokenIs(t + rest, CONVERTER_TOKENS, 4);
    }
    SplitPiece(a, t, rest, CONVERTER_TOKENS);
  }

  /** A coordinate written with a proper degree sign and a seconds mark: `17°35'12"W`. */
  function FormatSeconds(deg: nat, minutes: nat, seconds: nat, direction: char): string
  {
    ShowNat(deg) + ("\U{00B0}" + (ShowNat(minutes) + ("'" + (ShowNat(seconds) + ("\"" + [direction])))))
  }

  /** A coordinate written with a proper degree sign splits into its three numbers and its
      direction for `converter`. */
  lemma SplitFormatSeconds(d: string, m: string, sec: string, direction: char)
    requires AllDigits(d) && AllDigits(m) && AllDigits(sec) && Letter(direction)
    ensures var parts := SplitOnTokens(d + ("\U{00B0}" + (m + ("'" + (sec + ("\"" + [direction]))))), CONVERTER_TOKENS);
            |parts| == 4 && parts[0] == d && parts[1] == m && parts[2] == sec && parts[3] == [direction]
  {
    TokensNonEmpty();
    var tail := [direction];
    var x2 := sec + ("\"" + tail);
    var x1 := m + ("'" + x2);
    var p2, p1, p0 := SplitOnTokens(x2, CONVERTER_TOKENS), SplitOnTokens(x1, CONVERTER_TOKENS),
                      SplitOnTokens(d + ("\U{00B0}" + x1), CONVERTER_TOKENS);
    assert |p2| == 2 && p2[0] == sec && p2[1] == tail by {
      LetterIsOnePart(direction);
      ConverterPiece(sec, "\"", tail);
    }
    assert |p1| == 3 && p1[0] == m && p1[1..] == p2 by {
      ConverterPiece(m, "'", x2);
    }
    assert |p0| == 4 && p0[0] == d && p0[1..] == p1 by {
      ConverterPiece(d, "\U{00B0}", x1);
    }
  }

  /** `converter` reads back a coordinate written with a proper degree sign. */
  lemma ConverterRoundTrip(deg: nat, minutes: nat, seconds: nat, direction: char)
    requires Letter(direction)
    ensures Converter(FormatSeconds(deg, minutes, seconds, direction)) ==
            Ok(Decimal(deg as real, minutes as real, seconds as real, [direction]))
  {
    SplitFormatSeconds(ShowNat(deg), ShowNat(minutes), ShowNat(seconds), direction);
    ShowNatParses(deg);
    ShowNatParses(minutes);
    ShowNatParses(seconds);
  }

  /** A degree sign opens an empty part for `converter`. */
  lemma ConverterDegreeSign(x: string)
    ensures SplitOnTokens("\U{00B0}" + x, CONVERTER_TOKENS) == [""] + SplitOnTokens(x, CONVERTER_TOKENS)
  {
    ConverterPiece([], "\U{00B0}", x);
    assert [] + ("\U{00B0}" + x) == "\U{00B0}" + x;
  }

  /** The first character of the mis-decoded degree sign ends a part for `converter`. */
  lemma ConverterMisdecodedPrefix(d: string, x: string)
    requires AllDigits(d)
    ensures SplitOnTokens(d + ("\U{00C2}\U{00B0}" + x), CONVERTER_TOKENS) ==
            [d] + SplitOnTokens("\U{00B0}" + x, CONVERTER_TOKENS)
  {
    assert "\U{00C2}\U{00B0}" + x == "\U{00C2}" + ("\U{00B0}" + x);
    ConverterPiece(d, "\U{00C2}", "\U{00B0}" + x);
  }

  /** For `converter` the mis-decoded degree sign is two separators with nothing between. */
  lemma ConverterDegree(d: string, x: string)
    requires AllDigits(d)
    ensures |SplitOnTokens(d + ("\U{00C2}\U{00B0}" + x), CONVERTER_TOKENS)| == 2 + |SplitOnTokens(x, CONVERTER_TOKENS)|
  {
    ConverterMisdecodedPrefix(d, x);
    ConverterDegreeSign(x);
  }

  lemma SplitMisdecodedDegree(d: string, m: string, sec: string, direction: char)
    requires AllDigits(d) && AllDigits(m) && AllDigits(sec) && Letter(direction)
    ensures |SplitOnTokens(d + ("\U{00C2}\U{00B0}" + (m + ("." + (sec + ("'" + [direction]))))), CONVERTER_TOKENS)| == 5
  {
    var tail := [direction];
    LetterIsOnePart(direction);
    ConverterPiece(sec, "'", tail);
    var x2 := sec + ("'" + tail);
    ConverterPiece(m, ".", x2);
    ConverterDegree(d, m + ("." + x2));
  }

  /** `converter` cuts the mis-decoded degree sign twice, so the coordinates that `dms_to_dd`
      reads have five parts for it and fail to unpack. */
  lemma ConverterRejectsMisdecodedDegree(deg: nat, minutes: nat, seconds: nat, direction: char)
    requires Letter(direction)
    ensures DmsToDd(FormatDms(deg, minutes, seconds, direction)).Ok?
    ensures Converter(FormatDms(deg, minutes, seconds, direction)) == Err("ValueError")
  {
    DmsRoundTrip(deg, minutes, seconds, direction);
    SplitMisdecodedDegree(ShowNat(deg), ShowNat(minutes), ShowNat(seconds), direction);
  }

  // ---------------------------------------------------------------------------
  // The station table (processing_stations_coordinates.py:8-30).

  /** A station row as read: its other columns and the two degree strings. */
  datatype DegreeRow<K> = DegreeRow(key: K, latDeg: string, lonDeg: string)

  /** A station row as saved: the degree strings replaced by decimal degrees. */
  datatype DecimalRow<K> = DecimalRow(key: K, lat: real, lon: real)

  /** One row: spaces removed from both strings, then each converted. */
  function ConvertRow<K>(row: DegreeRow<K>): (r: Result<DecimalRow<K>>)
    ensures r.Ok? <==> DmsToDd(RemoveSpaces(row.latDeg)).Ok? && DmsToDd(RemoveSpaces(row.lonDeg)).Ok?
    ensures r.Ok? ==> r.value.key == row.key &&
                      Ok(r.value.lat) == DmsToDd(RemoveSpaces(row.latDeg)) &&
                      Ok(r.value.lon) == DmsToDd(RemoveSpaces(row.lonDeg))
  {
    match (DmsToDd(RemoveSpaces(row.latDeg)), DmsToDd(RemoveSpaces(row.lonDeg)))
    case (Ok(lat), Ok(lon)) => Ok(DecimalRow(row.key, lat, lon))
    case _ => Err("ValueError")
  }

  /** The script: every row converted, or the ValueError of the first string it cannot
      convert, which stops it before anything is saved. */
  function ConvertStations<K>(rows: seq<DegreeRow<K>>): (r: Result<seq<DecimalRow<K>>>)
    ensures r.Ok? <==> forall i :: 0 <= i < |rows| ==> ConvertRow(rows[i]).Ok?
    ensures r.Ok? ==> |r.value| == |rows| &&
                      forall i :: 0 <= i < |rows| ==> Ok(r.value[i]) == ConvertRow(rows[i])
    ensures r.Err? ==> r.reason == "ValueError"
  {
    if forall i :: 0 <= i < |rows| ==> ConvertRow(rows[i]).Ok? then
      Ok(seq(|rows|, i requires 0 <= i < |rows| => ConvertRow(rows[i]).value))
    else Err("ValueError")
  }

  /** Spaces typed anywhere in a coordinate do not change what it converts to. */
  lemma SpacesIgnored(a: string, b: string)
    ensures DmsToDd(RemoveSpaces(a + " " + b)) == DmsToDd(RemoveSpaces(a + b))
  {
    FilterAppend(a + " ", b, (c: char) => c != ' ');
    FilterAppend(a, " ", (c: char) => c != ' ');
    FilterAppend(a, b, (c: char) => c != ' ');
    assert " "[1..] == [];
    assert Filter(" ", (c: char) => c != ' ') == [];
    assert RemoveSpaces(a + " " + b) == RemoveSpaces(a + b);
  }
}
