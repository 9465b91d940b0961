/**
 * The pieces of Swift's and Foundation's string handling that the level
 * loader relies on: `trimmingCharacters(in:)`, `split(separator:)` (which
 * omits empty pieces) and the failable `Int(String)` initialiser.
 * A Swift `Character` is modelled as one Dafny `char`.
 */
module SwiftText {
  import opened Wrappers

  /** Foundation's `CharacterSet.whitespaces`: tab and the Unicode space separators (Zs). */
  predicate IsWhitespace(c: char) {
    c == '\t' || c == ' ' || c == '\U{A0}' || c == '\U{1680}'
    || ('\U{2000}' <= c <= '\U{200A}') || c == '\U{202F}' || c == '\U{205F}' || c == '\U{3000}'
  }

  /** Foundation's `CharacterSet.whitespacesAndNewlines`: the above plus U+000A..U+000D, U+0085, U+2028, U+2029. */
  predicate IsWhitespaceOrNewline(c: char) {
    IsWhitespace(c) || ('\n' <= c <= '\r') || c == '\U{85}' || c == '\U{2028}' || c == '\U{2029}'
  }

  // ---------------------------------------------------------------------
  // trimmingCharacters(in:)
  // ---------------------------------------------------------------------

  /** Number of leading characters of `s` that belong to the set `p`. */
  function LeadingCount(s: seq<char>, p: char -> bool): (k: nat)
    ensures k <= |s|
    ensures forall i :: 0 <= i < k ==> p(s[i])
    ensures k < |s| ==> !p(s[k])
  {
    if |s| == 0 || !p(s[0]) then 0 else 1 + LeadingCount(s[1..], p)
  }

  /** Number of trailing characters of `s` that belong to the set `p`. */
  function TrailingCount(s: seq<char>, p: char -> bool): (k: nat)
    ensures k <= |s|
    ensures forall i :: |s| - k <= i < |s| ==> p(s[i])
    ensures k < |s| ==> !p(s[|s| - 1 - k])
  {
    if |s| == 0 || !p(s[|s| - 1]) then 0 else 1 + TrailingCount(s[..|s| - 1], p)
  }

  /**
   * The slice `s[lo..hi]` that trimming keeps. Everything outside it is in
   * the set, and a non-empty slice starts and ends outside the set; together
   * these determine the kept slice uniquely.
   */
  function TrimBounds(s: seq<char>, p: char -> bool): (b: (nat, nat))
    ensures b.0 <= b.1 <= |s|
    ensures forall i :: 0 <= i < b.0 ==> p(s[i])
    ensures forall i :: b.1 <= i < |s| ==> p(s[i])
    ensures b.0 < b.1 ==> !p(s[b.0]) && !p(s[b.1 - 1])
  {
    var lo := LeadingCount(s, p);
    if lo == |s| then (lo, lo)
    else
      var t := TrailingCount(s, p);
      assert |s| - t > lo by { assert !p(s[lo]); }
      (lo, |s| - t)
  }

  /** `s.trimmingCharacters(in: p)`. */
  function Trim(s: seq<char>, p: char -> bool): seq<char>
  {
    var b := TrimBounds(s, p);
    s[b.0..b.1]
  }

  /** Trimming leaves nothing to trim at either end, and keeps a text with no set member at its ends as it is. */
  lemma TrimIsTrimmed(s: seq<char>, p: char -> bool)
    ensures var t := Trim(s, p); t == [] || (!p(t[0]) && !p(t[|t| - 1]))
    ensures s == [] || (!p(s[0]) && !p(s[|s| - 1])) ==> Trim(s, p) == s
  {
    var b := TrimBounds(s, p);
    if s != [] && !p(s[0]) && !p(s[|s| - 1]) {
      assert b.0 == 0;
      assert b.1 == |s|;
    }
  }

  // ---------------------------------------------------------------------
  // split(separator:) with the default omittingEmptySubsequences: true
  // ---------------------------------------------------------------------

  /** Length of the run of non-separator characters at the start of `s`. */
  function PieceLength(s: seq<char>, sep: char): (k: nat)
    ensures k <= |s|
    ensures forall i :: 0 <= i < k ==> s[i] != sep
    ensures k < |s| ==> s[k] == sep
  {
    if |s| == 0 || s[0] == sep then 0 else 1 + PieceLength(s[1..], sep)
  }

  /** `s.split(separator: sep)`: the maximal separator-free runs of `s`, empty runs dropped. */
  function Split(s: seq<char>, sep: char): seq<seq<char>>
    decreases |s|
  {
    if |s| == 0 then []
    else if s[0] == sep then Split(s[1..], sep)
    else
      var k := PieceLength(s, sep);
      [s[..k]] + Split(s[k..], sep)
  }

  /** Every piece is non-empty and free of the separator. */
  lemma {:induction false} SplitPiecesClean(s: seq<char>, sep: char)
    ensures forall i :: 0 <= i < |Split(s, sep)| ==> |Split(s, sep)[i]| > 0 && sep !in Split(s, sep)[i]
    decreases |s|
  {
    if |s| == 0 {
    } else if s[0] == sep {
      SplitPiecesClean(s[1..], sep);
    } else {
      var k := PieceLength(s, sep);
      SplitPiecesClean(s[k..], sep);
      assert s[0] in s[..k];
      assert forall i :: 0 <= i < k ==> s[..k][i] != sep;
    }
  }

  /** The pieces glued back together with `sep` between neighbours (Swift's `joined(separator:)`). */
  function Join(pieces: seq<seq<char>>, sep: char): seq<char>
  {
    if |pieces| == 0 then []
    else if |pieces| == 1 then pieces[0]
    else pieces[0] + [sep] + Join(pieces[1..], sep)
  }

  /** A character that is neither the separator nor in any piece is not in the joined text. */
  lemma {:induction false} JoinAvoids(pieces: seq<seq<char>>, sep: char, c: char)
    requires c != sep && forall i :: 0 <= i < |pieces| ==> c !in pieces[i]
    ensures c !in Join(pieces, sep)
    decreases |pieces|
  {
    if |pieces| > 1 {
      JoinAvoids(pieces[1..], sep, c);
    }
  }

  /** Joining non-empty pieces starts with the first piece's first character and ends with the last piece's last. */
  lemma {:induction false} JoinEnds(pieces: seq<seq<char>>, sep: char)
    requires |pieces| > 0 && forall i :: 0 <= i < |pieces| ==> |pieces[i]| > 0
    ensures var j := Join(pieces, sep); var last := pieces[|pieces| - 1];
      |j| > 0 && j[0] == pieces[0][0] && j[|j| - 1] == last[|last| - 1]
    decreases |pieces|
  {
    if |pieces| > 1 {
      JoinEnds(pieces[1..], sep);
    }
  }

  /** `s` with every occurrence of `sep` removed. */
  function Without(s: seq<char>, sep: char): seq<char>
  {
    if |s| == 0 then [] else (if s[0] == sep then [] else [s[0]]) + Without(s[1..], sep)
  }

  function Concat(pieces: seq<seq<char>>): seq<char>
  {
    if |pieces| == 0 then [] else pieces[0] + Concat(pieces[1..])
  }

  lemma {:induction false} WithoutAppend(s: seq<char>, t: seq<char>, sep: char)
    ensures Without(s + t, sep) == Without(s, sep) + Without(t, sep)
    decreases |s|
  {
    if |s| == 0 {
      assert s + t == t;
    } else {
      assert (s + t)[0] == s[0];
      assert (s + t)[1..] == s[1..] + t;
      WithoutAppend(s[1..], t, sep);
    }
  }

  lemma {:induction false} WithoutAbsent(s: seq<char>, sep: char)
    requires sep !in s
    ensures Without(s, sep) == s
    decreases |s|
  {
    if |s| > 0 {
      WithoutAbsent(s[1..], sep);
    }
  }

  /** Splitting loses exactly the separators: the pieces in order spell out `s` with the separators removed. */
  lemma {:induction false} SplitLosesOnlySeparators(s: seq<char>, sep: char)
    ensures Concat(Split(s, sep)) == Without(s, sep)
    decreases |s|
  {
    if |s| == 0 {
    } else if s[0] == sep {
      SplitLosesOnlySeparators(s[1..], sep);
    } else {
      var k := PieceLength(s, sep);
      var ps := [s[..k]] + Split(s[k..], sep);
      assert ps[1..] == Split(s[k..], sep);
      SplitLosesOnlySeparators(s[k..], sep);
      assert s == s[..k] + s[k..];
      WithoutAppend(s[..k], s[k..], sep);
      WithoutAbsent(s[..k], sep);
    }
  }

  /** The round trip: joining non-empty, separator-free pieces and splitting again gives the pieces back. */
  lemma {:induction false} SplitJoin(pieces: seq<seq<char>>, sep: char)
    requires forall i :: 0 <= i < |pieces| ==> |pieces[i]| > 0 && sep !in pieces[i]
    ensures Split(Join(pieces, sep), sep) == pieces
    decreases |pieces|
  {
    if |pieces| == 0 {
    } else if |pieces| == 1 {
      var s := pieces[0];
      assert s[0] in s;
      var k := PieceLength(s, sep);
      assert s[..k] == s;
      assert s[k..] == [];
    } else {
      var s := Join(pieces, sep);
      var p := pieces[0];
      var rest := Join(pieces[1..], sep);
      assert s == p + ([sep] + rest);
      assert s[0] == p[0] && p[0] in p;
      var k := PieceLength(s, sep);
      assert s[|p|] == sep;
      assert k == |p|;
      assert s[..k] == p;
      assert s[k..] == [sep] + rest;
      assert s[k..][1..] == rest;
      SplitJoin(pieces[1..], sep);
      assert pieces == [p] + pieces[1..];
    }
  }

  /** A text that starts outside the separator splits into its first run and the split of the rest. */
  lemma SplitFirstPiece(s: seq<char>, sep: char)
    requires |s| > 0 && s[0] != sep
    ensures var k := PieceLength(s, sep); Split(s, sep) == [s[..k]] + Split(s[k..], sep)
  {
  }

  /** A non-empty text with no separator is one piece. */
  lemma SplitPiece(s: seq<char>, sep: char)
    requires |s| > 0 && sep !in s
    ensures Split(s, sep) == [s]
  {
    SplitJoin([s], sep);
  }

  /** Appending a separator and any text `t` to `s` leaves the first run of `s` (its leading separator-free stretch) as it was. */
  lemma PieceLengthBeforeSeparator(s: seq<char>, t: seq<char>, sep: char)
    ensures PieceLength(s + [sep] + t, sep) == PieceLength(s, sep)
  {
    var x := s + [sep] + t;
    var k := PieceLength(x, sep);
    var k0 := PieceLength(s, sep);
    assert forall i :: 0 <= i < k0 ==> x[i] == s[i];
    assert x[k0] == sep;
  }

  /**
   * Cuts happen at separators and nowhere else: text on either side of a
   * separator splits on its own. With `Split([], sep) == []` and SplitPiece,
   * this fixes `Split` on every input, leading, trailing and doubled
   * separators included.
   */
  lemma {:induction false} SplitAtSeparator(s: seq<char>, t: seq<char>, sep: char)
    ensures Split(s + [sep] + t, sep) == Split(s, sep) + Split(t, sep)
    decreases |s|
  {
    var x := s + [sep] + t;
    if |s| == 0 {
      assert x[1..] == t;
    } else if s[0] == sep {
      assert x[1..] == s[1..] + [sep] + t;
      SplitAtSeparator(s[1..], t, sep);
    } else {
      var k := PieceLength(s, sep);
      PieceLengthBeforeSeparator(s, t, sep);
      SplitFirstPiece(x, sep);
      SplitFirstPiece(s, sep);
      assert x[..k] == s[..k];
      assert x[k..] == s[k..] + [sep] + t;
      SplitAtSeparator(s[k..], t, sep);
      assert Split(x, sep) == [s[..k]] + (Split(s[k..], sep) + Split(t, sep));
    }
  }

  // ---------------------------------------------------------------------
  // Int(String): base 10, optional sign, 64-bit range
  // ---------------------------------------------------------------------

  /** Bounds of Swift's `Int` on 64-bit Apple platforms. */
  const IntMin: int := -0x8000_0000_0000_0000
  const IntMax: int := 0x7FFF_FFFF_FFFF_FFFF

  predicate IsDigit(c: char) {
    '0' <= c <= '9'
  }

  predicate AllDigits(s: seq<char>) {
    forall i :: 0 <= i < |s| ==> IsDigit(s[i])
  }

  function DigitValue(c: char): (d: nat)
    requires IsDigit(c)
    ensures d < 10
  {
    c as int - '0' as int
  }

  /** The natural number that a digit string spells in base 10. */
  function DigitsValue(s: seq<char>): nat
    requires AllDigits(s)
  {
    if |s| == 0 then 0 else DigitsValue(s[..|s| - 1]) * 10 + DigitValue(s[|s| - 1])
  }

  /**
   * `Int(s)`: an optional `+` or `-`, then one or more ASCII digits, nothing
   * else (no spaces); a value outside the 64-bit range gives nil.
   */
  function ParseInt(s: seq<char>): (r: Option<int>)
    ensures r.Some? ==> IntMin <= r.value <= IntMax
    ensures r.Some? ==> |s| > 0 && (IsDigit(s[0]) || s[0] == '+' || s[0] == '-')
    ensures r.Some? ==> forall i :: 0 < i < |s| ==> IsDigit(s[i])
    ensures r.Some? && r.value < 0 ==> s[0] == '-'
    ensures r.Some? ==>
      var d := if s[0] == '+' || s[0] == '-' then s[1..] else s;
      |d| > 0 && AllDigits(d) && r.value == (if s[0] == '-' then -(DigitsValue(d) as int) else DigitsValue(d))
  {
    if |s| == 0 then None
    else
      var negative := s[0] == '-';
      var digits := if s[0] == '-' || s[0] == '+' then s[1..] else s;
      if |digits| == 0 || !AllDigits(digits) then None
      else
        var magnitude: int := DigitsValue(digits);
        var v: int := if negative then -magnitude else magnitude;
        if IntMin <= v <= IntMax then Some(v) else None
  }

  /** The converse: an optional sign and one or more digits whose value is in range do parse, to that value. */
  lemma ParseIntAccepts(sign: seq<char>, d: seq<char>)
    requires sign == [] || sign == ['+'] || sign == ['-']
    requires |d| > 0 && AllDigits(d)
    requires var v: int := if sign == ['-'] then -(DigitsValue(d) as int) else DigitsValue(d); IntMin <= v <= IntMax
    ensures ParseInt(sign + d) == Some(if sign == ['-'] then -(DigitsValue(d) as int) else DigitsValue(d))
  {
    var s := sign + d;
    if sign == [] {
      assert s == d;
      assert IsDigit(d[0]);
    } else {
      assert s[1..] == d;
    }
  }

  /** A leading zero does not change the value of a digit string. */
  lemma {:induction false} LeadingZeroValue(d: seq<char>)
    requires AllDigits(d)
    ensures AllDigits(['0'] + d) && DigitsValue(['0'] + d) == DigitsValue(d)
    decreases |d|
  {
    var z := ['0'] + d;
    if |d| > 0 {
      assert z[..|z| - 1] == ['0'] + d[..|d| - 1];
      LeadingZeroValue(d[..|d| - 1]);
    }
  }

  /** `Int("0" + d) == Int(d)` for digits `d`: "03" is 3. */
  lemma ParseIntLeadingZero(d: seq<char>)
    requires |d| > 0 && AllDigits(d)
    ensures ParseInt(['0'] + d) == ParseInt(d)
  {
    LeadingZeroValue(d);
    assert IsDigit(d[0]);
  }

  /** `Int("+" + d) == Int(d)` for digits `d`: "+1" is 1. */
  lemma ParseIntPlus(d: seq<char>)
    requires |d| > 0 && AllDigits(d)
    ensures ParseInt(['+'] + d) == ParseInt(d)
  {
    assert (['+'] + d)[1..] == d;
    assert IsDigit(d[0]);
  }

  /** Decimal digits of `n`, no leading zeros (the digits of Swift's `String(n)`). */
  function Digits(n: nat): (s: seq<char>)
    ensures |s| > 0 && AllDigits(s)
  {
    var d := ['0' + (n % 10) as char];
    if n < 10 then d else Digits(n / 10) + d
  }

  /** `String(v)` for an `Int`: digits, after a '-' when negative. */
  function FormatInt(v: int): (s: seq<char>)
    ensures |s| > 0 && IsDigit(s[|s| - 1])
    ensures forall i :: 0 <= i < |s| ==> IsDigit(s[i]) || (i == 0 && s[i] == '-')
  {
    if v < 0 then ['-'] + Digits(-v) else Digits(v)
  }

  lemma {:induction false} DigitsRoundTrip(n: nat)
    ensures DigitsValue(Digits(n)) == n
  {
    var s := Digits(n);
    if n >= 10 {
      DigitsRoundTrip(n / 10);
      assert s[..|s| - 1] == Digits(n / 10);
    }
  }

  /** Parsing what `String(v)` prints gives `v` back, for every `Int`. */
  lemma ParseFormatRoundTrip(v: int)
    requires IntMin <= v <= IntMax
    ensures ParseInt(FormatInt(v)) == Some(v)
  {
    if v < 0 {
      DigitsRoundTrip(-v);
      assert FormatInt(v)[1..] == Digits(-v);
    } else {
      DigitsRoundTrip(v);
      assert IsDigit(Digits(v)[0]);
    }
  }
}
