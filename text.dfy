/**
 * The few JDK string operations the pedestrian-count loader relies on,
 * modelled on `seq<char>`: `String.trim`, `String.isEmpty` after a trim,
 * `String.split` with a one-character, non-regex separator, and the decimal
 * notation accepted by `Integer.parseInt`.
 */
module Text {

  /** Largest value of a Java `int`. */
  const INT_MAX: int := 0x7fff_ffff

  // ---------------------------------------------------------------------------
  // Trimming

  /** `String.trim` removes every leading and trailing char whose code is at most U+0020. */
  predicate IsTrimmable(c: char) {
    c <= ' '
  }

  /** The suffix of `s` left after dropping its leading trimmable chars. */
  function TrimStart(s: string): (r: string)
    ensures |r| <= |s| && r == s[|s| - |r|..]
    ensures r != [] ==> !IsTrimmable(r[0])
    ensures forall i :: 0 <= i < |s| - |r| ==> IsTrimmable(s[i])
  {
    if |s| > 0 && IsTrimmable(s[0]) then TrimStart(s[1..]) else s
  }

  /** The prefix of `s` left after dropping its trailing trimmable chars. */
  function TrimEnd(s: string): (r: string)
    ensures |r| <= |s| && r == s[..|r|]
    ensures r != [] ==> !IsTrimmable(r[|r| - 1])
    ensures forall i :: |r| <= i < |s| ==> IsTrimmable(s[i])
  {
    if |s| > 0 && IsTrimmable(s[|s| - 1]) then TrimEnd(s[..|s| - 1]) else s
  }

  /** Java's `String.trim`: drops the trimmable chars at both ends. */
  function Trim(s: string): (r: string)
    ensures |r| <= |s|
    ensures r != [] ==> !IsTrimmable(r[0]) && !IsTrimmable(r[|r| - 1])
  {
    TrimEnd(TrimStart(s))
  }

  /**
   * What `Trim` keeps: an infix of `s` that neither starts nor ends with a
   * trimmable char, everything cut away on either side being trimmable.
   */
  lemma TrimIsInfix(s: string)
    ensures var r := Trim(s);
      && (r != [] ==> !IsTrimmable(r[0]) && !IsTrimmable(r[|r| - 1]))
      && exists lo :: (0 <= lo <= |s| - |r| && r == s[lo..][..|r|] &&
                       (forall i :: 0 <= i < lo ==> IsTrimmable(s[i])) &&
                       (forall i :: lo + |r| <= i < |s| ==> IsTrimmable(s[i])))
  {
    var t := TrimStart(s);
    var r := TrimEnd(t);
    var lo := |s| - |t|;
    assert t == s[lo..];
    assert r == s[lo..][..|r|];
    forall i | lo + |r| <= i < |s|
      ensures IsTrimmable(s[i])
    {
      assert s[i] == t[i - lo];
    }
    assert 0 <= lo <= |s| - |r| && r == s[lo..][..|r|] &&
           (forall i :: 0 <= i < lo ==> IsTrimmable(s[i])) &&
           (forall i :: lo + |r| <= i < |s| ==> IsTrimmable(s[i]));
  }

  /** A string made only of trimmable chars. */
  predicate IsBlank(s: string) {
    forall i :: 0 <= i < |s| ==> IsTrimmable(s[i])
  }

  /** `s.trim().isEmpty()` holds exactly of the blank strings. */
  lemma TrimEmptyIffBlank(s: string)
    ensures Trim(s) == [] <==> IsBlank(s)
  {
    var r := Trim(s);
    TrimIsInfix(s);
    if r != [] {
      var lo :| 0 <= lo <= |s| - |r| && r == s[lo..][..|r|];
      assert s[lo] == r[0];
    }
  }

  // ---------------------------------------------------------------------------
  // Splitting

  /** Every piece of `s` between separators, empty pieces included (one more piece than separators). */
  function SplitAll(s: string, sep: char): (r: seq<string>)
    ensures |r| >= 1
    ensures forall k :: 0 <= k < |r| ==> sep !in r[k]
    ensures sep !in s ==> r == [s]
  {
    if s == [] then [""]
    else
      var rest := SplitAll(s[1..], sep);
      assert s == [s[0]] + s[1..];
      if s[0] == sep then [""] + rest
      else [[s[0]] + rest[0]] + rest[1..]
  }

  /** The pieces written out with `sep` between neighbours. */
  function Join(pieces: seq<string>, sep: char): string
  {
    if pieces == [] then ""
    else if |pieces| == 1 then pieces[0]
    else pieces[0] + [sep] + Join(pieces[1..], sep)
  }

  /** `Join` undoes `SplitAll`. */
  lemma {:induction false} JoinSplitAll(s: string, sep: char)
    ensures Join(SplitAll(s, sep), sep) == s
  {
    if s != [] {
      var rest := SplitAll(s[1..], sep);
      JoinSplitAll(s[1..], sep);
      if s[0] == sep {
        assert SplitAll(s, sep) == [""] + rest;
        assert s == [sep] + s[1..];
      } else {
        var r := SplitAll(s, sep);
        assert r == [[s[0]] + rest[0]] + rest[1..];
        if |rest| == 1 {
          assert s == [s[0]] + rest[0];
        } else {
          assert r[1..] == rest[1..];
          assert Join(rest, sep) == rest[0] + [sep] + Join(rest[1..], sep);
          assert s == [s[0]] + s[1..];
        }
      }
    }
  }

  /** Splitting at a separator splits the two sides independently. */
  lemma {:induction false} SplitAllAround(a: string, b: string, sep: char)
    ensures SplitAll(a + [sep] + b, sep) == SplitAll(a, sep) + SplitAll(b, sep)
  {
    var s := a + [sep] + b;
    if a == [] {
      assert s[1..] == b;
    } else {
      assert s[0] == a[0];
      assert s[1..] == a[1..] + [sep] + b;
      SplitAllAround(a[1..], b, sep);
    }
  }

  /** `SplitAll` undoes `Join` of pieces that hold no separator. */
  lemma {:induction false} SplitAllJoin(pieces: seq<string>, sep: char)
    requires |pieces| >= 1
    requires forall k :: 0 <= k < |pieces| ==> sep !in pieces[k]
    ensures SplitAll(Join(pieces, sep), sep) == pieces
  {
    if |pieces| > 1 {
      var rest := pieces[1..];
      assert forall k :: 0 <= k < |rest| ==> sep !in rest[k] by {
        forall k | 0 <= k < |rest| ensures sep !in rest[k] {
          assert rest[k] == pieces[k + 1];
        }
      }
      SplitAllJoin(rest, sep);
      assert Join(pieces, sep) == pieces[0] + [sep] + Join(rest, sep);
      SplitAllAround(pieces[0], Join(rest, sep), sep);
      assert SplitAll(pieces[0], sep) == [pieces[0]];
      assert pieces == [pieces[0]] + rest;
    } else {
      assert Join(pieces, sep) == pieces[0];
    }
  }

  /** Drops the empty strings at the end of `pieces`, as `String.split` does with limit 0. */
  function DropTrailingEmpty(pieces: seq<string>): (r: seq<string>)
    ensures |r| <= |pieces| && r == pieces[..|r|]
    ensures r == [] || r[|r| - 1] != ""
    ensures forall k :: |r| <= k < |pieces| ==> pieces[k] == ""
  {
    if |pieces| > 0 && pieces[|pieces| - 1] == "" then DropTrailingEmpty(pieces[..|pieces| - 1])
    else pieces
  }

  /**
   * Java's `s.split(sep)` for a separator that is not a regex metacharacter:
   * a string without the separator comes back whole (even when empty);
   * otherwise every piece is kept except the empty ones at the end.
   */
  function JavaSplit(s: string, sep: char): (r: seq<string>)
    ensures forall k :: 0 <= k < |r| ==> sep !in r[k]
    ensures sep !in s ==> r == [s]
    ensures sep in s ==> |r| <= |SplitAll(s, sep)| && r == SplitAll(s, sep)[..|r|]
    ensures sep in s ==> r == [] || r[|r| - 1] != ""
    ensures sep in s ==> forall k :: |r| <= k < |SplitAll(s, sep)| ==> SplitAll(s, sep)[k] == ""
  {
    if sep !in s then [s] else DropTrailingEmpty(SplitAll(s, sep))
  }

  /** Joining pieces and splitting them again gives the pieces back, unless the last one is empty. */
  lemma JavaSplitJoin(pieces: seq<string>, sep: char)
    requires |pieces| >= 1 && pieces[|pieces| - 1] != ""
    requires forall k :: 0 <= k < |pieces| ==> sep !in pieces[k]
    ensures JavaSplit(Join(pieces, sep), sep) == pieces
  {
    SplitAllJoin(pieces, sep);
    if |pieces| > 1 {
      assert Join(pieces, sep) == pieces[0] + [sep] + Join(pieces[1..], sep);
      assert Join(pieces, sep)[|pieces[0]|] == sep;
    }
  }

  /**
   * A separator at the end of a non-empty string changes nothing: the empty
   * piece it closes is dropped. So a CSV line whose last columns are empty
   * yields fewer fields.
   */
  lemma TrailingSeparatorIgnored(s: string, sep: char)
    requires s != []
    ensures JavaSplit(s + [sep], sep) == JavaSplit(s, sep)
  {
    SplitAllAround(s, "", sep);
    assert s + [sep] + "" == s + [sep];
    assert (s + [sep])[|s|] == sep;
    var all := SplitAll(s, sep);
    assert SplitAll(s + [sep], sep) == all + [""];
    if sep in s {
      assert DropTrailingEmpty(all + [""]) == DropTrailingEmpty((all + [""])[..|all|]);
      assert (all + [""])[..|all|] == all;
    } else {
      assert all == [s];
      assert DropTrailingEmpty(all + [""]) == DropTrailingEmpty([s]);
    }
  }

  /** An empty last piece adds only its separator to the joined string. */
  lemma {:induction false} JoinEmptyLast(pieces: seq<string>, sep: char)
    requires pieces != []
    ensures Join(pieces + [""], sep) == Join(pieces, sep) + [sep]
  {
    if |pieces| > 1 {
      assert (pieces + [""])[1..] == pieces[1..] + [""];
      JoinEmptyLast(pieces[1..], sep);
    }
  }

  // ---------------------------------------------------------------------------
  // Decimal notation

  predicate IsDigit(c: char) {
    '0' <= c <= '9'
  }

  predicate AllDigits(s: string) {
    forall i :: 0 <= i < |s| ==> IsDigit(s[i])
  }

  function DigitValue(c: char): (d: nat)
    requires IsDigit(c)
    ensures d < 10
  {
    (c as int) - ('0' as int)
  }

  function DigitChar(d: nat): (c: char)
    requires d < 10
    ensures IsDigit(c) && DigitValue(c) == d
  {
    (('0' as int) + d) as char
  }

  /** The number a string of decimal digits denotes, most significant digit first. */
  function DecimalValue(s: string): (r: nat)
    requires AllDigits(s)
    ensures r == 0 <==> forall i :: 0 <= i < |s| ==> s[i] == '0'
  {
    if s == [] then 0 else DecimalValue(s[..|s| - 1]) * 10 + DigitValue(s[|s| - 1])
  }

  /** The shortest decimal notation of `n`. */
  function Decimal(n: nat): (s: string)
    ensures |s| >= 1 && AllDigits(s)
  {
    if n < 10 then [DigitChar(n)] else Decimal(n / 10) + [DigitChar(n % 10)]
  }

  /** Reading back the decimal notation of a number gives the number. */
  lemma {:induction false} DecimalValueOfDecimal(n: nat)
    ensures DecimalValue(Decimal(n)) == n
  {
    var s := Decimal(n);
    if n >= 10 {
      DecimalValueOfDecimal(n / 10);
      assert s[..|s| - 1] == Decimal(n / 10);
    }
  }

  /** What `Integer.parseInt` accepts and returns as a non-negative `int` without a sign. */
  predicate IsCount(s: string) {
    |s| >= 1 && AllDigits(s) && DecimalValue(s) <= INT_MAX
  }

  /** A count is never blank: digits are not trimmable. */
  lemma CountIsNotBlank(s: string)
    requires IsCount(s)
    ensures !IsBlank(s)
  {
    assert IsDigit(s[0]) && !IsTrimmable(s[0]);
  }

  /** The decimal notation of every non-negative `int` is a count. */
  lemma DecimalIsCount(n: nat)
    requires n <= INT_MAX
    ensures IsCount(Decimal(n)) && DecimalValue(Decimal(n)) == n
  {
    DecimalValueOfDecimal(n);
  }
}
