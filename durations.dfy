/**
 * Keep-alive durations, counted in nanoseconds. An integer is a number of seconds,
 * any other text is a duration with units (`1h`, `90s`, `1h30m`), a negative value
 * means "keep forever" and is stored as the largest 64-bit duration, and an empty
 * or unreadable text gives the five-minute default.
 */
module Durations {
  import opened Wrappers
  import opened Text

  const Nanosecond: int := 1
  const Microsecond: int := 1000 * Nanosecond
  const Millisecond: int := 1000 * Microsecond
  const Second: int := 1000 * Millisecond
  const Minute: int := 60 * Second
  const Hour: int := 60 * Minute

  /** The largest signed 64-bit integer, the "forever" duration. */
  const MaxInt64: int := 0x7FFF_FFFF_FFFF_FFFF

  const DefaultKeepAlive: int := 5 * Minute

  /** The length in nanoseconds of each unit a duration may use. */
  function UnitNanos(u: string): (k: Option<nat>)
    ensures k.Some? ==> k.value >= Nanosecond
  {
    if |u| == 1 then
      if u[0] == 's' then Some(Second)
      else if u[0] == 'm' then Some(Minute)
      else if u[0] == 'h' then Some(Hour)
      else None
    else if |u| == 2 && u[1] == 's' then
      if u[0] == 'n' then Some(Nanosecond)
      else if u[0] == 'u' || u[0] == '\U{B5}' || u[0] == '\U{3BC}' then Some(Microsecond)
      else if u[0] == 'm' then Some(Millisecond)
      else None
    else None
  }

  /** Characters that belong to a unit name: neither a digit nor a decimal point. */
  predicate IsUnitChar(c: char) {
    !IsDigit(c) && c != '.'
  }

  /** The end of the run of digits in `s` that starts at `i`. */
  function DigitsEnd(s: string, i: nat): (j: nat)
    requires i <= |s|
    ensures i <= j <= |s|
    ensures forall k :: i <= k < j ==> IsDigit(s[k])
    ensures j < |s| ==> !IsDigit(s[j])
    decreases |s| - i
  {
    if i < |s| && IsDigit(s[i]) then DigitsEnd(s, i + 1) else i
  }

  /** The end of the run of unit characters in `s` that starts at `i`. */
  function UnitEnd(s: string, i: nat): (j: nat)
    requires i <= |s|
    ensures i <= j <= |s|
    ensures forall k :: i <= k < j ==> IsUnitChar(s[k])
    ensures j < |s| ==> !IsUnitChar(s[j])
    decreases |s| - i
  {
    if i < |s| && IsUnitChar(s[i]) then UnitEnd(s, i + 1) else i
  }

  /** `n` units of `k` nanoseconds each. */
  function Scale(n: nat, k: nat): nat
  {
    n * k
  }

  /** A positive number of a unit worth at least a nanosecond is a positive duration. */
  lemma ScalePositive(n: nat, k: nat)
    requires n > 0 && k >= Nanosecond
    ensures Scale(n, k) > 0
  {
  }

  /**
   * Reads the component at the start of `t`, digits followed by a unit name, as
   * its length in nanoseconds and the number of characters it takes up.
   */
  function Component(t: string): (r: Option<(nat, nat)>)
    ensures r.Some? ==> 2 <= r.value.1 <= |t| && IsDigit(t[0])
    ensures r.Some? && r.value.1 < |t| ==> IsDigit(t[r.value.1]) || t[r.value.1] == '.'
  {
    var nd := DigitsEnd(t, 0);
    if nd == 0 then None
    else
      var ne := UnitEnd(t, nd);
      if ne == nd then None
      else
        assert AllDigits(t[..nd]);
        match UnitNanos(t[nd..ne])
        case None => None
        case Some(k) => Some((Scale(DigitsValue(t[..nd]), k), ne))
  }

  /** Reads one or more components and adds them up; a readable text starts with a digit. */
  function ParseComponents(t: string): (r: Option<nat>)
    ensures r.Some? ==> |t| >= 2 && IsDigit(t[0])
    decreases |t|
  {
    match Component(t)
    case None => None
    case Some((v, len)) =>
      if len == |t| then Some(v)
      else match ParseComponents(t[len..])
        case None => None
        case Some(w) => Some(v + w)
  }

  /** Reads a signed duration: an optional sign, then `0` alone or a list of components. */
  function ParseDuration(s: string): (r: Option<int>)
    ensures r.Some? && r.value < 0 ==> |s| >= 1 && s[0] == '-'
  {
    var signed := |s| >= 1 && (s[0] == '-' || s[0] == '+');
    var body := if signed then s[1..] else s;
    if body == "0" then Some(0)
    else if body == "" then None
    else match ParseComponents(body)
      case None => None
      case Some(d) => Some(if signed && s[0] == '-' then -(d as int) else d)
  }

  /** A negative duration stands for "forever". */
  function NonNegative(d: int): (r: int)
    ensures r >= 0
    ensures d >= 0 ==> r == d
    ensures d < 0 ==> r == MaxInt64
  {
    if d < 0 then MaxInt64 else d
  }

  /** The keep-alive duration that the raw setting `raw` selects. */
  function KeepAliveValue(raw: string): (r: int)
    ensures r >= 0
    ensures raw == "" ==> r == DefaultKeepAlive
  {
    if raw == "" then DefaultKeepAlive
    else match ParseInt(raw)
      case Some(v) => NonNegative(v * Second)
      case None =>
        match ParseDuration(raw)
        case Some(d) => NonNegative(d)
        case None => DefaultKeepAlive
  }

  lemma {:induction false} DigitsEndOfDigits(s: string, i: nat, j: nat)
    requires i <= j <= |s|
    requires forall k :: i <= k < j ==> IsDigit(s[k])
    requires j == |s| || !IsDigit(s[j])
    ensures DigitsEnd(s, i) == j
    decreases j - i
  {
    if i < j {
      DigitsEndOfDigits(s, i + 1, j);
    }
  }

  lemma {:induction false} UnitEndOfUnit(s: string, i: nat, j: nat)
    requires i <= j <= |s|
    requires forall k :: i <= k < j ==> IsUnitChar(s[k])
    requires j == |s| || !IsUnitChar(s[j])
    ensures UnitEnd(s, i) == j
    decreases j - i
  {
    if i < j {
      UnitEndOfUnit(s, i + 1, j);
    }
  }

  /** The unit table: the eight unit names and their lengths. */
  lemma UnitTable(u: string)
    ensures UnitNanos(u).Some? <==>
              u == "ns" || u == "us" || u == "\U{B5}s" || u == "\U{3BC}s" || u == "ms" || u == "s" || u == "m" || u == "h"
    ensures u == "ns" ==> UnitNanos(u) == Some(Nanosecond)
    ensures u == "us" || u == "\U{B5}s" || u == "\U{3BC}s" ==> UnitNanos(u) == Some(Microsecond)
    ensures u == "ms" ==> UnitNanos(u) == Some(Millisecond)
    ensures u == "s" ==> UnitNanos(u) == Some(Second)
    ensures u == "m" ==> UnitNanos(u) == Some(Minute)
    ensures u == "h" ==> UnitNanos(u) == Some(Hour)
  {
    if UnitNanos(u).Some? {
      assert |u| == 1 || |u| == 2;
      if |u| == 1 {
        assert u == [u[0]];
      } else {
        assert u == [u[0], u[1]];
      }
    }
  }

  /** A known unit is spelled with unit characters only. */
  lemma KnownUnitChars(u: string)
    requires UnitNanos(u).Some?
    ensures |u| >= 1 && forall i :: 0 <= i < |u| ==> IsUnitChar(u[i])
  {
  }

  /** The first component of `n` in unit `u`, whatever components follow it. */
  lemma ComponentOf(n: nat, u: string, k: nat, t: string)
    requires UnitNanos(u) == Some(k)
    requires t == [] || IsDigit(t[0])
    ensures Component(FormatNat(n) + u + t).Some?
    ensures Component(FormatNat(n) + u + t).value.0 == Scale(n, k)
    ensures Component(FormatNat(n) + u + t).value.1 == |FormatNat(n)| + |u|
  {
    var d := FormatNat(n);
    var s := d + u + t;
    FormatNatDigits(n);
    KnownUnitChars(u);
    DigitsEndOfDigits(s, 0, |d|);
    assert s[..|d|] == d;
    UnitEndOfUnit(s, |d|, |d| + |u|);
    assert s[|d|..|d| + |u|] == u;
  }

  /** A component followed by further components adds its value to theirs. */
  lemma ComponentThen(n: nat, u: string, k: nat, t: string)
    requires UnitNanos(u) == Some(k)
    requires t == [] || IsDigit(t[0])
    ensures t == [] ==> ParseComponents(FormatNat(n) + u + t) == Some(Scale(n, k))
    ensures t != [] && ParseComponents(t).Some? ==>
              ParseComponents(FormatNat(n) + u + t) == Some(Scale(n, k) + ParseComponents(t).value)
    ensures t != [] && ParseComponents(t).None? ==> ParseComponents(FormatNat(n) + u + t).None?
  {
    var s := FormatNat(n) + u + t;
    ComponentOf(n, u, k, t);
    var len := |FormatNat(n)| + |u|;
    assert s[len..] == t;
    var r := ParseComponents(s);
    if t == [] {
      assert r.Some? && r.value == Scale(n, k);
      assert r == Some(r.value);
    } else if ParseComponents(t).Some? {
      assert r.Some? && r.value == Scale(n, k) + ParseComponents(t).value;
      assert r == Some(r.value);
    }
  }

  /** `n` followed by a unit reads as `n` of that unit. */
  lemma ParseDurationUnit(n: nat, u: string, k: nat)
    requires UnitNanos(u) == Some(k)
    ensures ParseDuration(FormatNat(n) + u) == Some(Scale(n, k))
  {
    var x := FormatNat(n) + u;
    assert x + [] == x;
    ComponentThen(n, u, k, []);
    KnownUnitChars(u);
    assert x[0] == FormatNat(n)[0];
    var r := ParseDuration(x);
    assert r.Some? && r.value == Scale(n, k);
    assert r == Some(r.value);
  }

  /** A minus sign in front of a list of components negates their sum. */
  lemma ParseDurationNegated(body: string)
    requires |body| >= 2 && ParseComponents(body).Some?
    ensures ParseDuration("-" + body).Some?
    ensures ParseDuration("-" + body).value == -(ParseComponents(body).value as int)
  {
    var x := "-" + body;
    assert x[0] == '-' && x[1..] == body;
    assert body != "0" && body != "";
  }

  /** `-n` followed by a unit reads as minus `n` of that unit. */
  lemma ParseDurationNegativeUnit(n: nat, u: string, k: nat)
    requires UnitNanos(u) == Some(k)
    ensures ParseDuration("-" + FormatNat(n) + u).Some?
    ensures ParseDuration("-" + FormatNat(n) + u).value == -(Scale(n, k) as int)
  {
    var body := FormatNat(n) + u;
    assert body + [] == body;
    ComponentThen(n, u, k, []);
    KnownUnitChars(u);
    ParseDurationNegated(body);
    assert "-" + FormatNat(n) + u == "-" + body;
  }

  /** A bare integer is a count of seconds; a negative one means forever. */
  lemma KeepAliveSeconds(n: int)
    ensures KeepAliveValue(FormatInt(n)) == if n < 0 then MaxInt64 else n * Second
  {
    ParseFormatInt(n);
  }

  /** A duration with a unit is read by its unit. */
  lemma KeepAliveUnit(n: nat, u: string, k: nat)
    requires UnitNanos(u) == Some(k)
    ensures KeepAliveValue(FormatNat(n) + u) == Scale(n, k)
  {
    var x := FormatNat(n) + u;
    KnownUnitChars(u);
    FormatNatDigits(n);
    ParseIntStopsAtNonDigit(FormatNat(n), u);
    ParseDurationUnit(n, u, k);
    assert ParseInt(x).None? && ParseDuration(x).Some? && ParseDuration(x).value == Scale(n, k);
  }

  /** A setting that is not an integer but is a duration is read as that duration. */
  lemma KeepAliveOfDuration(x: string)
    requires x != "" && ParseInt(x).None? && ParseDuration(x).Some?
    ensures KeepAliveValue(x) == NonNegative(ParseDuration(x).value)
  {
  }

  /** A setting that is not an integer but a negative duration means forever. */
  lemma KeepAliveOfNegative(x: string)
    requires x != "" && ParseInt(x).None? && ParseDuration(x).Some? && ParseDuration(x).value < 0
    ensures KeepAliveValue(x) == MaxInt64
  {
    KeepAliveOfDuration(x);
  }

  /** A negative duration with a unit means forever. */
  lemma KeepAliveNegativeUnit(n: nat, u: string, k: nat)
    requires UnitNanos(u) == Some(k) && n > 0
    ensures KeepAliveValue("-" + FormatNat(n) + u) == MaxInt64
  {
    KnownUnitChars(u);
    FormatNatDigits(n);
    ParseIntStopsAtNonDigit(FormatNat(n), u);
    ParseDurationNegativeUnit(n, u, k);
    ScalePositive(n, k);
    KeepAliveOfNegative("-" + FormatNat(n) + u);
  }

  /** Digits followed by a run of unit characters that is not a known unit are not a component. */
  lemma ComponentUnknownUnit(n: nat, u: string, t: string)
    requires u != [] && UnitNanos(u).None?
    requires forall i :: 0 <= i < |u| ==> IsUnitChar(u[i])
    requires t == [] || !IsUnitChar(t[0])
    ensures Component(FormatNat(n) + u + t).None?
  {
    var d := FormatNat(n);
    var s := d + u + t;
    FormatNatDigits(n);
    DigitsEndOfDigits(s, 0, |d|);
    UnitEndOfUnit(s, |d|, |d| + |u|);
    assert s[|d|..|d| + |u|] == u;
  }

  /** Digits with no unit after them are not a component. */
  lemma ComponentNoUnit(n: nat)
    ensures Component(FormatNat(n)).None?
  {
    var d := FormatNat(n);
    FormatNatDigits(n);
    DigitsEndOfDigits(d, 0, |d|);
  }

  /** Text that starts with a digit is read by the component parser alone. */
  lemma ParseDurationUnsigned(x: string)
    requires |x| >= 2 && IsDigit(x[0])
    ensures ParseComponents(x).None? ==> ParseDuration(x).None?
    ensures ParseComponents(x).Some? ==> ParseDuration(x).Some? && ParseDuration(x).value == ParseComponents(x).value
  {
  }

  /** A setting that is neither an integer nor a duration gives the default. */
  lemma KeepAliveOfUnreadable(x: string)
    requires x != "" && ParseInt(x).None? && ParseDuration(x).None?
    ensures KeepAliveValue(x) == DefaultKeepAlive
  {
  }

  /** Digits followed by something that is neither a digit nor a readable duration give the default. */
  lemma KeepAliveDigitsThen(d: string, t: string)
    requires d != [] && AllDigits(d) && t != [] && !IsDigit(t[0])
    requires ParseComponents(d + t).None?
    ensures KeepAliveValue(d + t) == DefaultKeepAlive
  {
    var x := d + t;
    ParseIntStopsAtNonDigit(d, t);
    assert x[0] == d[0];
    ParseDurationUnsigned(x);
    KeepAliveOfUnreadable(x);
  }

  /** A number followed by an unknown unit, such as `1x`, is unreadable and gives the default. */
  lemma KeepAliveUnknownUnit(n: nat, u: string)
    requires u != [] && UnitNanos(u).None?
    requires forall i :: 0 <= i < |u| ==> IsUnitChar(u[i])
    ensures KeepAliveValue(FormatNat(n) + u) == DefaultKeepAlive
  {
    FormatNatDigits(n);
    ComponentUnknownUnit(n, u, []);
    assert FormatNat(n) + u + [] == FormatNat(n) + u;
    KeepAliveDigitsThen(FormatNat(n), u);
  }

  /** Components followed by digits with no unit are not read. */
  lemma ParseComponentsMissingUnit(n: nat, u: string, k: nat, m: nat)
    requires UnitNanos(u) == Some(k)
    ensures ParseComponents(FormatNat(n) + u + FormatNat(m)).None?
  {
    FormatNatDigits(m);
    ComponentNoUnit(m);
    assert ParseComponents(FormatNat(m)).None?;
    ComponentThen(n, u, k, FormatNat(m));
  }

  /** Digits, then a unit, then anything, that do not read as components give the default. */
  lemma KeepAliveDigitsUnitThen(d: string, u: string, e: string)
    requires d != [] && AllDigits(d) && u != [] && !IsDigit(u[0])
    requires ParseComponents(d + u + e).None?
    ensures KeepAliveValue(d + u + e) == DefaultKeepAlive
  {
    assert d + u + e == d + (u + e);
    KeepAliveDigitsThen(d, u + e);
  }

  /** A number after the last component with no unit, such as `1h5`, is unreadable and gives the default. */
  lemma KeepAliveMissingUnit(n: nat, u: string, k: nat, m: nat)
    requires UnitNanos(u) == Some(k)
    ensures KeepAliveValue(FormatNat(n) + u + FormatNat(m)) == DefaultKeepAlive
  {
    FormatNatDigits(n);
    KnownUnitChars(u);
    ParseComponentsMissingUnit(n, u, k, m);
    KeepAliveDigitsUnitThen(FormatNat(n), u, FormatNat(m));
  }
}
