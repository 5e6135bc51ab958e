/**
 * String helpers shared by the settings parsers: whitespace trimming, character
 * search, splitting on a separator and decimal integers.
 */
module Text {
  import opened Wrappers

  /** The white-space characters removed by trimming: the Unicode White_Space property. */
  predicate IsSpace(c: char) {
    c == ' ' || c == '\t' || c == '\n' || c == '\U{B}' || c == '\U{C}' || c == '\r'
    || c == '\U{85}' || c == '\U{A0}' || c == '\U{1680}' || ('\U{2000}' <= c <= '\U{200A}')
    || c == '\U{2028}' || c == '\U{2029}' || c == '\U{202F}' || c == '\U{205F}' || c == '\U{3000}'
  }

  predicate AllSpace(s: string) {
    forall i :: 0 <= i < |s| ==> IsSpace(s[i])
  }

  /** Neither end of `s` is white space. */
  predicate Trimmed(s: string) {
    s == [] || (!IsSpace(s[0]) && !IsSpace(s[|s| - 1]))
  }

  /** The first index from `i` on, and before `hi`, that does not hold white space (or `hi`). */
  function SkipSpaces(s: string, i: nat, hi: nat): (j: nat)
    requires i <= hi <= |s|
    ensures i <= j <= hi
    ensures j < hi ==> !IsSpace(s[j])
    decreases hi - i
  {
    if i < hi && IsSpace(s[i]) then SkipSpaces(s, i + 1, hi) else i
  }

  /** The index just past the last non-space before `j` (or 0). */
  function BackSpaces(s: string, j: nat): (i: nat)
    requires j <= |s|
    ensures i <= j
    ensures i > 0 ==> !IsSpace(s[i - 1])
  {
    if j > 0 && IsSpace(s[j - 1]) then BackSpaces(s, j - 1) else j
  }

  /** Everything `SkipSpaces` steps over is white space. */
  lemma {:induction false} SkipSpacesSkipped(s: string, i: nat, hi: nat)
    requires i <= hi <= |s|
    ensures forall k :: i <= k < SkipSpaces(s, i, hi) ==> IsSpace(s[k])
    decreases hi - i
  {
    if i < hi && IsSpace(s[i]) {
      SkipSpacesSkipped(s, i + 1, hi);
    }
  }

  /** Everything `BackSpaces` steps over is white space. */
  lemma {:induction false} BackSpacesSkipped(s: string, j: nat)
    requires j <= |s|
    ensures forall k :: BackSpaces(s, j) <= k < j ==> IsSpace(s[k])
  {
    if j > 0 && IsSpace(s[j - 1]) {
      BackSpacesSkipped(s, j - 1);
    }
  }

  /**
   * Removes white space at both ends: what is left is the part of `s` between
   * a prefix and a suffix of white space, and it starts and ends with a non-space.
   */
  function TrimSpace(s: string): (r: string)
    ensures Trimmed(r)
  {
    var hi := BackSpaces(s, |s|);
    var lo := SkipSpaces(s, 0, hi);
    s[lo..hi]
  }

  lemma {:induction false} SkipSpacesIs(s: string, i: nat, hi: nat, j: nat)
    requires i <= j <= hi <= |s|
    requires forall k :: i <= k < j ==> IsSpace(s[k])
    requires j < hi ==> !IsSpace(s[j])
    ensures SkipSpaces(s, i, hi) == j
    decreases j - i
  {
    if i < j {
      SkipSpacesIs(s, i + 1, hi, j);
    }
  }

  lemma {:induction false} BackSpacesIs(s: string, j: nat, i: nat)
    requires i <= j <= |s|
    requires forall k :: i <= k < j ==> IsSpace(s[k])
    requires i > 0 ==> !IsSpace(s[i - 1])
    ensures BackSpaces(s, j) == i
    decreases j - i
  {
    if i < j {
      BackSpacesIs(s, j - 1, i);
    }
  }

  lemma TrimSpaceOfTrimmed(s: string)
    requires Trimmed(s)
    ensures TrimSpace(s) == s
  {
    BackSpacesIs(s, |s|, |s|);
    SkipSpacesIs(s, 0, |s|, 0);
  }

  /** Surrounding white space does not change the trimmed text. */
  lemma TrimSpaceSurrounded(a: string, s: string, b: string)
    requires AllSpace(a) && AllSpace(b)
    ensures TrimSpace(a + s + b) == TrimSpace(s)
  {
    var hi := BackSpaces(s, |s|);
    var lo := SkipSpaces(s, 0, hi);
    if lo == hi {
      TrimSpaceBlank(a, s, b);
    } else {
      TrimSpaceAround(a, s, b, lo, hi);
    }
  }

  lemma TrimSpaceBlank(a: string, s: string, b: string)
    requires AllSpace(a) && AllSpace(b)
    requires SkipSpaces(s, 0, BackSpaces(s, |s|)) == BackSpaces(s, |s|)
    ensures TrimSpace(a + s + b) == TrimSpace(s) == []
  {
    BackSpacesSkipped(s, |s|);
    SkipSpacesSkipped(s, 0, BackSpaces(s, |s|));
    assert AllSpace(s);
    AllSpaceConcat(a, s, b);
    TrimSpaceOfBlank(a + s + b);
    TrimSpaceOfBlank(s);
  }

  lemma AllSpaceConcat(a: string, s: string, b: string)
    requires AllSpace(a) && AllSpace(s) && AllSpace(b)
    ensures AllSpace(a + s + b)
  {
    var t := a + s + b;
    forall k | 0 <= k < |t| ensures IsSpace(t[k]) {
      if |a| <= k < |a| + |s| {
        assert t[k] == s[k - |a|];
      } else if k >= |a| + |s| {
        assert t[k] == b[k - |a| - |s|];
      }
    }
  }

  /** Text made only of white space trims to nothing. */
  lemma TrimSpaceOfBlank(t: string)
    requires AllSpace(t)
    ensures TrimSpace(t) == []
  {
    BackSpacesIs(t, |t|, 0);
    SkipSpacesIs(t, 0, 0, 0);
  }

  lemma TrimSpaceAround(a: string, s: string, b: string, lo: nat, hi: nat)
    requires AllSpace(a) && AllSpace(b)
    requires hi == BackSpaces(s, |s|) && lo == SkipSpaces(s, 0, hi) && lo < hi
    ensures TrimSpace(a + s + b) == TrimSpace(s)
  {
    var t := a + s + b;
    BackSpacesAround(a, s, b, hi);
    SkipSpacesAround(a, s, b, lo, hi);
    TrimSpaceIs(t, |a| + lo, |a| + hi);
    TrimSpaceIs(s, lo, hi);
    SliceOfMiddle(a, s, b, lo, hi);
  }

  lemma TrimSpaceIs(t: string, lo: nat, hi: nat)
    requires hi == BackSpaces(t, |t|) && lo == SkipSpaces(t, 0, hi)
    ensures TrimSpace(t) == t[lo..hi]
  {
  }

  lemma SliceOfMiddle(a: string, s: string, b: string, lo: nat, hi: nat)
    requires lo <= hi <= |s|
    ensures (a + s + b)[|a| + lo..|a| + hi] == s[lo..hi]
  {
    var t := a + s + b;
    forall k | 0 <= k < hi - lo ensures t[|a| + lo..|a| + hi][k] == s[lo..hi][k] {
      assert t[|a| + lo + k] == s[lo + k];
    }
  }

  lemma BackSpacesAround(a: string, s: string, b: string, hi: nat)
    requires AllSpace(b)
    requires hi == BackSpaces(s, |s|) && 0 < hi
    ensures BackSpaces(a + s + b, |a + s + b|) == |a| + hi
  {
    var t := a + s + b;
    BackSpacesSkipped(s, |s|);
    forall k | |a| + hi <= k < |t| ensures IsSpace(t[k]) {
      if k < |a| + |s| {
        assert t[k] == s[k - |a|];
      } else {
        assert t[k] == b[k - |a| - |s|];
      }
    }
    assert t[|a| + hi - 1] == s[hi - 1];
    BackSpacesIs(t, |t|, |a| + hi);
  }

  lemma SkipSpacesAround(a: string, s: string, b: string, lo: nat, hi: nat)
    requires AllSpace(a)
    requires hi <= |s| && lo == SkipSpaces(s, 0, hi) && lo < hi
    ensures SkipSpaces(a + s + b, 0, |a| + hi) == |a| + lo
  {
    var t := a + s + b;
    SkipSpacesSkipped(s, 0, hi);
    forall k | 0 <= k < |a| + lo ensures IsSpace(t[k]) {
      if k >= |a| {
        assert t[k] == s[k - |a|];
      }
    }
    assert t[|a| + lo] == s[lo];
    SkipSpacesIs(t, 0, |a| + hi, |a| + lo);
  }

  /** Position of the first `c` in `s` at or after `i`, or -1 when there is none. */
  function FirstIndexFrom(s: string, c: char, i: nat): (r: int)
    requires i <= |s|
    ensures r == -1 || i <= r < |s|
    ensures r >= 0 ==> s[r] == c
    ensures forall k :: i <= k < |s| && (r < 0 || k < r) ==> s[k] != c
    decreases |s| - i
  {
    if i == |s| then -1
    else if s[i] == c then i
    else FirstIndexFrom(s, c, i + 1)
  }

  /** Position of the last `c` in `s` before `j`, or -1 when there is none. */
  function LastIndexBefore(s: string, c: char, j: nat): (r: int)
    requires j <= |s|
    ensures -1 <= r < j
    ensures r >= 0 ==> s[r] == c
    ensures forall k :: r < k < j ==> s[k] != c
  {
    if j == 0 then -1
    else if s[j - 1] == c then j - 1
    else LastIndexBefore(s, c, j - 1)
  }

  /** Position of the first `c` in `s`, or -1 when there is none. */
  function FirstIndex(s: string, c: char): (i: int)
    ensures -1 <= i < |s|
    ensures i >= 0 ==> s[i] == c
    ensures forall k :: 0 <= k < |s| && (i < 0 || k < i) ==> s[k] != c
  {
    FirstIndexFrom(s, c, 0)
  }

  /** Position of the last `c` in `s`, or -1 when there is none. */
  function LastIndex(s: string, c: char): (i: int)
    ensures -1 <= i < |s|
    ensures i >= 0 ==> s[i] == c
    ensures forall k :: i < k < |s| ==> s[k] != c
  {
    LastIndexBefore(s, c, |s|)
  }

  /** The pieces of `s[i..]` cut at every `sep`. */
  function SplitFrom(s: string, sep: char, i: nat): (r: seq<string>)
    requires i <= |s|
    ensures |r| >= 1
    ensures forall k :: 0 <= k < |r| ==> sep !in r[k]
    decreases |s| - i
  {
    if i == |s| then [[]]
    else
      var rest := SplitFrom(s, sep, i + 1);
      if s[i] == sep then [[]] + rest else [[s[i]] + rest[0]] + rest[1..]
  }

  /** Cuts `s` at every `sep`; there is always at least one piece, and no piece holds `sep`. */
  function Split(s: string, sep: char): (r: seq<string>)
    ensures |r| >= 1
    ensures forall i :: 0 <= i < |r| ==> sep !in r[i]
  {
    SplitFrom(s, sep, 0)
  }

  /** Glues the pieces back together with `sep` between consecutive pieces. */
  function Join(xs: seq<string>, sep: char): string
  {
    if xs == [] then []
    else if |xs| == 1 then xs[0]
    else xs[0] + [sep] + Join(xs[1..], sep)
  }

  lemma {:induction false} JoinSplitFrom(s: string, sep: char, i: nat)
    requires i <= |s|
    ensures Join(SplitFrom(s, sep, i), sep) == s[i..]
    decreases |s| - i
  {
    if i < |s| {
      var rest := SplitFrom(s, sep, i + 1);
      JoinSplitFrom(s, sep, i + 1);
      assert s[i..] == [s[i]] + s[i + 1..];
      var r := SplitFrom(s, sep, i);
      if s[i] == sep {
        assert r[1..] == rest;
      } else {
        assert r[1..] == rest[1..];
        if |rest| > 1 {
          assert Join(rest, sep) == rest[0] + [sep] + Join(rest[1..], sep);
        }
      }
    }
  }

  /** Joining the pieces of `s` gives back `s`. */
  lemma JoinSplit(s: string, sep: char)
    ensures Join(Split(s, sep), sep) == s
  {
    JoinSplitFrom(s, sep, 0);
  }

  lemma {:induction false} SplitFromNoSep(s: string, sep: char, i: nat)
    requires i <= |s|
    requires forall k :: i <= k < |s| ==> s[k] != sep
    ensures SplitFrom(s, sep, i) == [s[i..]]
    decreases |s| - i
  {
    if i < |s| {
      SplitFromNoSep(s, sep, i + 1);
      assert [s[i]] + s[i + 1..] == s[i..];
    }
  }

  /** Text without `sep` is a single piece. */
  lemma SplitNoSep(a: string, sep: char)
    requires sep !in a
    ensures Split(a, sep) == [a]
  {
    SplitFromNoSep(a, sep, 0);
  }

  /** Cutting depends only on the text that is left. */
  lemma {:induction false} SplitFromSuffix(s: string, t: string, sep: char, i: nat, j: nat)
    requires i <= |s| && j <= |t| && s[i..] == t[j..]
    ensures SplitFrom(s, sep, i) == SplitFrom(t, sep, j)
    decreases |s| - i
  {
    assert |s| - i == |t| - j;
    if i < |s| {
      assert s[i] == s[i..][0] == t[j..][0] == t[j];
      assert s[i + 1..] == s[i..][1..] == t[j..][1..] == t[j + 1..];
      SplitFromSuffix(s, t, sep, i + 1, j + 1);
    }
  }

  lemma {:induction false} SplitFromPiece(a: string, sep: char, b: string, i: nat)
    requires sep !in a && i <= |a|
    ensures SplitFrom(a + [sep] + b, sep, i) == [a[i..]] + Split(b, sep)
    decreases |a| - i
  {
    var s := a + [sep] + b;
    if i == |a| {
      assert s[i] == sep;
      assert s[i + 1..] == b[0..];
      SplitFromSuffix(s, b, sep, i + 1, 0);
    } else {
      SplitFromPiece(a, sep, b, i + 1);
      assert s[i] == a[i];
      assert [a[i]] + a[i + 1..] == a[i..];
    }
  }

  /** A piece followed by `sep` is cut off in front of the pieces of the rest. */
  lemma SplitAfterPiece(a: string, sep: char, b: string)
    requires sep !in a
    ensures Split(a + [sep] + b, sep) == [a] + Split(b, sep)
  {
    SplitFromPiece(a, sep, b, 0);
  }

  lemma {:induction false} SplitJoin(xs: seq<string>, sep: char)
    requires |xs| >= 1
    requires forall i :: 0 <= i < |xs| ==> sep !in xs[i]
    ensures Split(Join(xs, sep), sep) == xs
  {
    if |xs| == 1 {
      SplitNoSep(xs[0], sep);
    } else {
      SplitJoin(xs[1..], sep);
      SplitAfterPiece(xs[0], sep, Join(xs[1..], sep));
    }
  }

  predicate IsDigit(c: char) {
    '0' <= c <= '9'
  }

  predicate AllDigits(s: string) {
    forall i :: 0 <= i < |s| ==> IsDigit(s[i])
  }

  /** The number a string of decimal digits denotes. */
  function DigitsValue(s: string): nat
    requires AllDigits(s)
  {
    if s == [] then 0
    else DigitsValue(s[..|s| - 1]) * 10 + (s[|s| - 1] as int - '0' as int)
  }

  /** The decimal spelling of `n`, without a sign or leading zeros. */
  function FormatNat(n: nat): (s: string)
    ensures |s| >= 1
  {
    var last := ('0' as int + n % 10) as char;
    if n < 10 then [last] else FormatNat(n / 10) + [last]
  }

  /** The spelling of `n` is made of digits and denotes `n`. */
  lemma {:induction false} FormatNatDigits(n: nat)
    ensures AllDigits(FormatNat(n)) && DigitsValue(FormatNat(n)) == n
  {
    if n >= 10 {
      FormatNatDigits(n / 10);
      var s := FormatNat(n);
      assert s[..|s| - 1] == FormatNat(n / 10);
    }
  }

  /** The decimal spelling of any integer, with `-` in front of negative ones. */
  function FormatInt(n: int): (s: string)
    ensures |s| >= 1
  {
    if n < 0 then "-" + FormatNat(-n) else FormatNat(n)
  }

  /** The spelling of an integer ends in a digit and holds nothing but digits and a leading `-`. */
  lemma FormatIntChars(n: int)
    ensures IsDigit(FormatInt(n)[|FormatInt(n)| - 1])
    ensures forall i :: 0 <= i < |FormatInt(n)| ==> IsDigit(FormatInt(n)[i]) || (i == 0 && FormatInt(n)[i] == '-' && n < 0)
  {
    var s := FormatInt(n);
    if n < 0 {
      var d := FormatNat(-n);
      FormatNatDigits(-n);
      assert forall i :: 1 <= i < |s| ==> s[i] == d[i - 1];
    } else {
      FormatNatDigits(n);
    }
  }

  /**
   * Reads a decimal integer: an optional `+` or `-` followed by at least one digit
   * and nothing else.
   */
  function ParseInt(s: string): (r: Option<int>)
    ensures r.Some? <==> (|s| >= 1 && AllDigits(s)) || (|s| >= 2 && (s[0] == '+' || s[0] == '-') && AllDigits(s[1..]))
  {
    if |s| >= 1 && (s[0] == '+' || s[0] == '-') then
      if |s| >= 2 && AllDigits(s[1..]) then
        Some(if s[0] == '-' then -(DigitsValue(s[1..]) as int) else DigitsValue(s[1..]))
      else None
    else if |s| >= 1 && AllDigits(s) then Some(DigitsValue(s))
    else None
  }

  /** An integer is spelled with digits and at most a leading sign, and ends in a digit. */
  lemma ParseIntShape(s: string)
    requires ParseInt(s).Some?
    ensures s != [] && IsDigit(s[|s| - 1])
    ensures forall i :: 0 <= i < |s| ==> IsDigit(s[i]) || (i == 0 && (s[0] == '+' || s[0] == '-'))
  {
    if s[0] == '+' || s[0] == '-' {
      assert s[|s| - 1] == s[1..][|s| - 2];
      forall i | 1 <= i < |s| ensures IsDigit(s[i]) {
        assert s[i] == s[1..][i - 1];
      }
    }
  }

  /** Every integer reads back from its decimal spelling. */
  lemma ParseFormatInt(n: int)
    ensures ParseInt(FormatInt(n)) == Some(n)
  {
    if n < 0 {
      FormatNatDigits(-n);
      assert FormatInt(n)[1..] == FormatNat(-n);
    } else {
      FormatNatDigits(n);
    }
  }

  /** Text with a non-digit after its digits is not an integer. */
  lemma ParseIntStopsAtNonDigit(d: string, u: string)
    requires d != [] && AllDigits(d) && u != [] && !IsDigit(u[0])
    ensures ParseInt(d + u) == None
    ensures ParseInt("-" + d + u) == None
    ensures ParseInt("+" + d + u) == None
  {
    assert (d + u)[|d|] == u[0];
    assert ("-" + d + u)[1..] == d + u;
    assert ("+" + d + u)[1..] == d + u;
  }
}
