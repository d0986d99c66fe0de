/** The JavaScript string built-ins that the connectors rely on, stated over
    `seq<char>`: `split` and `join` with a string separator, `endsWith`,
    `replaceAll` of one character, `toLowerCase` (ASCII letters only) and
    the decimal rendering of a non-negative integer that `+` performs when a
    number is appended to a string. */
module Strings {

  // ---------------------------------------------------------------------
  // split / join
  // ---------------------------------------------------------------------

  /** `s.split(sep)` for a non-empty string separator: the pieces between the
      leftmost non-overlapping occurrences of `sep`, scanning left to right.
      The empty string splits into one empty piece. */
  function Split(s: string, sep: string): (parts: seq<string>)
    requires |sep| > 0
    ensures |parts| >= 1
    decreases |s|
  {
    if |s| == 0 then [""]
    else if sep <= s then [""] + Split(s[|sep|..], sep)
    else
      var rest := Split(s[1..], sep);
      [[s[0]] + rest[0]] + rest[1..]
  }

  /** `parts.join(sep)`: the pieces with `sep` between neighbours. */
  function Join(parts: seq<string>, sep: string): string
  {
    if |parts| == 0 then ""
    else if |parts| == 1 then parts[0]
    else parts[0] + sep + Join(parts[1..], sep)
  }

  /** `sep` occurs in `t` starting at position `j`. */
  predicate OccursAt(t: string, sep: string, j: int)
  {
    0 <= j && j + |sep| <= |t| && t[j..j + |sep|] == sep
  }

  /** `t` contains no occurrence of `sep`. */
  predicate FreeOf(t: string, sep: string)
  {
    forall j :: 0 <= j <= |t| ==> !OccursAt(t, sep, j)
  }

  /** For a one-character separator, containing no occurrence of it is not
      containing that character. */
  lemma FreeOfChar(t: string, sep: string)
    requires |sep| == 1
    ensures FreeOf(t, sep) <==> sep[0] !in t
  {
    if !FreeOf(t, sep) {
      var j :| 0 <= j <= |t| && OccursAt(t, sep, j);
      assert t[j] == t[j..j + 1][0];
    }
    if sep[0] in t {
      var j :| 0 <= j < |t| && t[j] == sep[0];
      assert t[j..j + 1] == sep;
      assert OccursAt(t, sep, j);
    }
  }

  /** The number of positions of `s` at which `sep` starts. */
  function Occurrences(s: string, sep: string): nat
    requires |sep| > 0
    decreases |s|
  {
    if |s| < |sep| then 0
    else (if sep <= s then 1 else 0) + Occurrences(s[1..], sep)
  }

  /** The first piece of a split is a prefix of the split text. */
  lemma {:induction false} SplitHeadPrefix(s: string, sep: string)
    requires |sep| > 0
    ensures Split(s, sep)[0] <= s
    decreases |s|
  {
    if |s| > 0 && !(sep <= s) {
      SplitHeadPrefix(s[1..], sep);
      assert s == [s[0]] + s[1..];
    }
  }

  /** Joining the pieces of a split with the same separator gives back the
      string. */
  lemma {:induction false} JoinSplit(s: string, sep: string)
    requires |sep| > 0
    ensures Join(Split(s, sep), sep) == s
    decreases |s|
  {
    if |s| == 0 {
    } else if sep <= s {
      var tail := s[|sep|..];
      JoinSplit(tail, sep);
      var rest := Split(tail, sep);
      assert Split(s, sep) == [""] + rest;
      assert ([""] + rest)[1..] == rest;
      assert Join([""] + rest, sep) == "" + sep + Join(rest, sep);
      assert s == sep + tail;
    } else {
      JoinSplit(s[1..], sep);
      var rest := Split(s[1..], sep);
      JoinExtendFirst(s[0], rest, sep);
      assert s == [s[0]] + s[1..];
    }
  }

  /** Putting a character in front of the first piece puts it in front of
      the joined string. */
  lemma JoinExtendFirst(c: char, parts: seq<string>, sep: string)
    requires |parts| >= 1
    ensures Join([[c] + parts[0]] + parts[1..], sep) == [c] + Join(parts, sep)
  {
    var ext := [[c] + parts[0]] + parts[1..];
    if |parts| > 1 {
      assert ext[1..] == parts[1..];
    }
  }

  /** No piece of a split contains the separator. */
  lemma SplitPiecesFree(s: string, sep: string)
    requires |sep| > 0
    ensures forall p :: p in Split(s, sep) ==> FreeOf(p, sep)
  {
    forall p | p in Split(s, sep)
      ensures FreeOf(p, sep)
    {
      SplitPieceFree(s, sep, p);
    }
  }

  lemma {:induction false} SplitPieceFree(s: string, sep: string, piece: string)
    requires |sep| > 0 && piece in Split(s, sep)
    ensures FreeOf(piece, sep)
    decreases |s|
  {
    if piece == Split(s, sep)[0] {
      SplitHeadFree(s, sep);
    } else {
      var d := SplitLaterPiece(s, sep, piece);
      SplitPieceFree(s[d..], sep, piece);
    }
  }

  /** The first piece of a split does not contain the separator. */
  lemma {:induction false} SplitHeadFree(s: string, sep: string)
    requires |sep| > 0
    ensures FreeOf(Split(s, sep)[0], sep)
    decreases |s|
  {
    if |s| > 0 && !(sep <= s) {
      SplitHeadFree(s[1..], sep);
      SplitHeadPrefix(s, sep);
      var rest := Split(s[1..], sep);
      var head := [s[0]] + rest[0];
      assert Split(s, sep)[0] == head;
      forall j | 0 <= j <= |head|
        ensures !OccursAt(head, sep, j)
      {
        if j + |sep| <= |head| {
          if j == 0 {
            assert head[0..|sep|] == s[..|sep|];
          } else {
            assert head[j..j + |sep|] == rest[0][j - 1..j - 1 + |sep|];
            assert !OccursAt(rest[0], sep, j - 1);
          }
        }
      }
    }
  }

  /** Every piece of a split is a slice of the split text; `k` is where it
      starts. */
  lemma {:induction false} SplitPieceOffset(s: string, sep: string, piece: string) returns (k: nat)
    requires |sep| > 0 && piece in Split(s, sep)
    ensures k + |piece| <= |s| && s[k..k + |piece|] == piece
    decreases |s|
  {
    if piece == Split(s, sep)[0] {
      k := 0;
      SplitHeadPrefix(s, sep);
      PrefixSlice(piece, s);
    } else {
      var d := SplitLaterPiece(s, sep, piece);
      var j := SplitPieceOffset(s[d..], sep, piece);
      k := d + j;
      SliceOfSuffix(s, d, j, |piece|);
    }
  }

  /** A piece other than the first is a piece of the text after the first
      character (no separator at the start) or after the separator. */
  lemma SplitLaterPiece(s: string, sep: string, piece: string) returns (d: nat)
    requires |sep| > 0 && piece in Split(s, sep) && piece != Split(s, sep)[0]
    ensures 1 <= d <= |s| && piece in Split(s[d..], sep)
  {
    var parts := Split(s, sep);
    if sep <= s {
      d := |sep|;
      assert parts == [""] + Split(s[d..], sep);
    } else {
      d := 1;
      assert parts[1..] == Split(s[1..], sep)[1..];
    }
  }

  /** A prefix is the slice at the start. */
  lemma PrefixSlice(p: string, s: string)
    requires p <= s
    ensures s[0..|p|] == p
  {
  }

  /** A slice of a suffix is a slice of the whole. */
  lemma SliceOfSuffix(s: string, d: nat, j: nat, n: nat)
    requires d + j + n <= |s|
    ensures s[d..][j..j + n] == s[d + j..d + j + n]
  {
  }

  /** A slice of a text free of `sep` is free of `sep`. */
  lemma FreeOfSlice(t: string, sep: string, lo: nat, hi: nat)
    requires lo <= hi <= |t| && FreeOf(t, sep)
    ensures FreeOf(t[lo..hi], sep)
  {
    var u := t[lo..hi];
    forall j | 0 <= j <= |u|
      ensures !OccursAt(u, sep, j)
    {
      if j + |sep| <= |u| {
        assert |u| == hi - lo;
        var a, b := u[j..j + |sep|], t[lo + j..lo + j + |sep|];
        assert forall m :: 0 <= m < |sep| ==> a[m] == b[m];
        assert a == b;
        assert !OccursAt(t, sep, lo + j);
      }
    }
  }

  /** A separator of one character, or of two different characters, cannot
      overlap itself, so the split has one more piece than there are
      occurrences of the separator. */
  lemma {:induction false} SplitCount(s: string, sep: string)
    requires |sep| == 1 || (|sep| == 2 && sep[0] != sep[1])
    ensures |Split(s, sep)| == Occurrences(s, sep) + 1
    decreases |s|
  {
    if |s| == 0 {
    } else if sep <= s {
      SplitCount(s[|sep|..], sep);
      if |sep| == 2 {
        var t := s[1..];
        assert !(sep <= t) by { assert t[0] == sep[1]; }
        if |t| >= 2 {
          assert t[1..] == s[2..];
        }
      }
    } else {
      SplitCount(s[1..], sep);
    }
  }

  /** Splitting a piece free of a one-character separator, followed by the
      separator and a tail, yields that piece and then the pieces of the tail. */
  lemma {:induction false} SplitPiece(piece: string, sep: string, tail: string)
    requires |sep| == 1 && sep[0] !in piece
    ensures Split(piece + sep + tail, sep) == [piece] + Split(tail, sep)
    decreases |piece|
  {
    var s := piece + sep + tail;
    if |piece| == 0 {
      assert s == sep + tail;
      assert s[|sep|..] == tail;
    } else {
      assert !(sep <= s);
      assert s[1..] == piece[1..] + sep + tail;
      SplitPiece(piece[1..], sep, tail);
      assert [s[0]] + piece[1..] == piece;
    }
  }

  /** A text without the separator's first character splits into itself. */
  lemma {:induction false} SplitWhole(piece: string, sep: string)
    requires |sep| > 0 && sep[0] !in piece
    ensures Split(piece, sep) == [piece]
    decreases |piece|
  {
    if |piece| > 0 {
      assert !(sep <= piece);
      SplitWhole(piece[1..], sep);
      assert [piece[0]] + piece[1..] == piece;
    }
  }

  /** A text with no occurrence of the separator splits into itself. */
  lemma {:induction false} SplitFree(piece: string, sep: string)
    requires |sep| > 0 && FreeOf(piece, sep)
    ensures Split(piece, sep) == [piece]
    decreases |piece|
  {
    if |piece| > 0 {
      assert !OccursAt(piece, sep, 0);
      assert |sep| <= |piece| ==> piece[..|sep|] != sep;
      FreeOfSlice(piece, sep, 1, |piece|);
      assert piece[1..|piece|] == piece[1..];
      SplitFree(piece[1..], sep);
      assert [piece[0]] + piece[1..] == piece;
    }
  }

  /** For a one-character separator, splitting undoes joining whenever no
      piece contains the separator. */
  lemma {:induction false} SplitJoin(parts: seq<string>, sep: string)
    requires |sep| == 1 && |parts| >= 1
    requires forall p :: p in parts ==> sep[0] !in p
    ensures Split(Join(parts, sep), sep) == parts
    decreases |parts|
  {
    if |parts| == 1 {
      SplitWhole(parts[0], sep);
    } else {
      assert parts[0] in parts;
      forall p | p in parts[1..] ensures sep[0] !in p {
        assert p in parts;
      }
      SplitJoin(parts[1..], sep);
      SplitPiece(parts[0], sep, Join(parts[1..], sep));
      assert [parts[0]] + parts[1..] == parts;
    }
  }

  // ---------------------------------------------------------------------
  // endsWith
  // ---------------------------------------------------------------------

  /** `s.endsWith(suffix)`. */
  predicate EndsWith(s: string, suffix: string)
  {
    |suffix| <= |s| && s[|s| - |suffix|..] == suffix
  }

  /** A string ends with `suffix` exactly when it is some string followed by
      `suffix`. */
  lemma EndsWithIff(s: string, suffix: string)
    ensures EndsWith(s, suffix) <==> exists front :: s == front + suffix
  {
    if EndsWith(s, suffix) {
      var front := s[..|s| - |suffix|];
      assert s == front + suffix;
    }
    if exists front :: s == front + suffix {
      var front :| s == front + suffix;
      assert s[|front|..] == suffix;
    }
  }

  // ---------------------------------------------------------------------
  // replaceAll of one character, toLowerCase
  // ---------------------------------------------------------------------

  /** `s.replaceAll(from, to)` where both are one-character strings. */
  function ReplaceAll(s: string, from: char, to: char): string
  {
    seq(|s|, i requires 0 <= i < |s| => if s[i] == from then to else s[i])
  }

  predicate IsUpper(c: char)
  {
    'A' <= c <= 'Z'
  }

  /** The lower-case form of one character; letters outside ASCII are not
      mapped. */
  function LowerChar(c: char): char
  {
    if IsUpper(c) then (c as int + 32) as char else c
  }

  /** `s.toLowerCase()` on ASCII letters. */
  function Lower(s: string): string
  {
    seq(|s|, i requires 0 <= i < |s| => LowerChar(s[i]))
  }

  // ---------------------------------------------------------------------
  // Decimal rendering of a non-negative integer
  // ---------------------------------------------------------------------

  predicate IsDigit(c: char)
  {
    '0' <= c <= '9'
  }

  function DigitChar(d: nat): (c: char)
    requires d < 10
    ensures IsDigit(c)
  {
    ('0' as int + d) as char
  }

  /** The text that `"" + n` produces for a non-negative integer `n`: at least
      one digit, and a leading `0` only for zero itself. */
  function Decimal(n: nat): (s: string)
    ensures |s| >= 1
    ensures forall c :: c in s ==> IsDigit(c)
    ensures s[0] == '0' <==> n == 0
    decreases n
  {
    if n < 10 then [DigitChar(n)]
    else Decimal(n / 10) + [DigitChar(n % 10)]
  }

  /** The value of a string of decimal digits; the reference reading of the
      text `Decimal` produces. */
  function DigitsValue(s: string): nat
    requires forall c :: c in s ==> IsDigit(c)
  {
    if |s| == 0 then 0
    else
      assert forall c :: c in s[..|s| - 1] ==> c in s;
      assert s[|s| - 1] in s;
      var last := s[|s| - 1];
      assert IsDigit(last);
      DigitsValue(s[..|s| - 1]) * 10 + (last as int - '0' as int)
  }

  /** Reading back the decimal text of `n` gives `n`. */
  lemma {:induction false} DecimalRoundTrip(n: nat)
    ensures DigitsValue(Decimal(n)) == n
    decreases n
  {
    if n >= 10 {
      DecimalRoundTrip(n / 10);
      var s := Decimal(n);
      assert s[..|s| - 1] == Decimal(n / 10);
    }
  }
}
