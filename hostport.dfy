/**
 * Normalisation of the host setting to a `host:port` string. The raw text is
 * trimmed of white space and of one layer of matching quotes; an empty result
 * selects 127.0.0.1:11434; a missing, unreadable or out-of-range port becomes
 * 11434; an IPv6 literal is written inside brackets.
 */
module HostPort {
  import opened Wrappers
  import opened Text

  const DefaultHost: string := "127.0.0.1"
  const DefaultPort: string := "11434"
  const MaxPort: int := 65535

  predicate IsQuote(c: char) {
    c == '"' || c == '\''
  }

  /** `t` is enclosed in a pair of the same quote character. */
  predicate Quoted(t: string) {
    |t| >= 2 && IsQuote(t[0]) && t[|t| - 1] == t[0]
  }

  /** Removes one layer of matching quotes. */
  function Unquote(t: string): (r: string)
    ensures Quoted(t) ==> t == [t[0]] + r + [t[0]]
    ensures !Quoted(t) ==> r == t
  {
    if Quoted(t) then t[1..|t| - 1] else t
  }

  /** The raw setting with white space, then one layer of quotes, then white space removed. */
  function Clean(raw: string): (r: string)
    ensures Trimmed(r)
  {
    TrimSpace(Unquote(TrimSpace(raw)))
  }

  predicate IsBracketed(h: string) {
    |h| >= 2 && h[0] == '[' && h[|h| - 1] == ']'
  }

  /** A host with a colon in it is an IPv6 literal and is written inside brackets. */
  function Bracket(h: string): (r: string)
    ensures ':' in h && !IsBracketed(h) ==> r == "[" + h + "]"
    ensures ':' !in h || IsBracketed(h) ==> r == h
    ensures ':' !in r || IsBracketed(r)
  {
    if ':' in h && !IsBracketed(h) then "[" + h + "]" else h
  }

  /** Writes a host and a port as one `host:port` text. */
  function JoinHostPort(h: string, p: string): string
  {
    Bracket(h) + ":" + p
  }

  /**
   * A host with a colon in it is written starting with `[`, any other host is
   * written as it is, and `:` and the port end the text.
   */
  lemma JoinHostPortShape(h: string, p: string)
    ensures |JoinHostPort(h, p)| > |p| && JoinHostPort(h, p)[|JoinHostPort(h, p)| - |p| - 1] == ':'
    ensures JoinHostPort(h, p)[|JoinHostPort(h, p)| - |p|..] == p
    ensures ':' in h ==> JoinHostPort(h, p)[0] == '['
    ensures ':' !in h ==> |h| < |JoinHostPort(h, p)| && JoinHostPort(h, p)[..|h|] == h
  {
    var r := JoinHostPort(h, p);
    assert r[|r| - |p|..] == p;
  }

  /** A host and, when the text names one, a port. */
  datatype HostAndPort = HostAndPort(host: string, port: Option<string>)

  /**
   * Cuts `s` into a host and an optional port. A text that opens with `[` and whose
   * last `]` ends it or is followed by `:` is a bracketed host; otherwise a text
   * with exactly one colon is cut there, and any other text is a host alone.
   * Nothing is lost: the host is a prefix of `s`, and host, colon and port spell `s`.
   */
  function SplitHostPort(s: string): (r: HostAndPort)
    ensures |r.host| <= |s| && r.host == s[..|r.host|]
    ensures r.port.None? ==> r.host == s
    ensures r.port.Some? ==> s == r.host + ":" + r.port.value
  {
    var j := LastIndex(s, ']');
    if |s| > 0 && s[0] == '[' && j >= 0 && (j + 1 == |s| || s[j + 1] == ':') then
      if j + 1 == |s| then HostAndPort(s, None)
      else HostAndPort(s[..j + 1], Some(s[j + 2..]))
    else
      var i := FirstIndex(s, ':');
      if i >= 0 && i == LastIndex(s, ':') then HostAndPort(s[..i], Some(s[i + 1..]))
      else HostAndPort(s, None)
  }

  /**
   * A port is a decimal integer from 0 to 65535; it is spelled with digits and at
   * most a sign, so it ends in a digit and holds no colon or bracket.
   */
  predicate ValidPort(p: string)
    ensures ValidPort(p) ==> p != [] && IsDigit(p[|p| - 1]) && ':' !in p && ']' !in p
  {
    var n := ParseInt(p);
    if n.Some? then
      ParseIntShape(p);
      0 <= n.value <= MaxPort
    else false
  }

  /** The port that is used: the one given when it is valid, 11434 otherwise. */
  function PortOrDefault(p: Option<string>): (r: string)
    ensures ValidPort(r)
    ensures p.Some? && ValidPort(p.value) ==> r == p.value
    ensures p.None? || !ValidPort(p.value) ==> r == DefaultPort
  {
    DefaultPortValid();
    if p.Some? && ValidPort(p.value) then p.value else DefaultPort
  }

  /** A port given as an integer is kept exactly when it lies in 0..65535. */
  lemma ValidPortRange(n: int)
    ensures ValidPort(FormatInt(n)) <==> 0 <= n <= MaxPort
  {
    ParseFormatInt(n);
  }

  /** The host setting `raw` as the `host:port` string it selects. */
  function NormalizeHost(raw: string): (r: string)
    ensures SplitHostPort(r).port.Some? && ValidPort(SplitHostPort(r).port.value)
    ensures r == JoinHostPort(SplitHostPort(r).host, SplitHostPort(r).port.value)
  {
    var s := Clean(raw);
    if s == "" then
      DefaultPortValid();
      SplitJoin(DefaultHost, DefaultPort);
      JoinHostPort(DefaultHost, DefaultPort)
    else
      var hp := SplitHostPort(s);
      var p := PortOrDefault(hp.port);
      SplitJoin(hp.host, p);
      JoinHostPort(hp.host, p)
  }

  lemma DefaultPortValid()
    ensures ValidPort(DefaultPort)
  {
    assert DefaultPort == FormatInt(11434);
    ValidPortRange(11434);
  }

  lemma BracketIdempotent(h: string)
    ensures Bracket(Bracket(h)) == Bracket(h)
  {
  }

  /** Splitting a joined host and port gives back the (bracketed) host and the port. */
  lemma SplitJoin(h: string, p: string)
    requires ValidPort(p)
    ensures SplitHostPort(JoinHostPort(h, p)).host == Bracket(h)
    ensures SplitHostPort(JoinHostPort(h, p)).port == Some(p)
  {
    SplitJoinSeparated(h, p);
  }

  lemma SplitJoinSeparated(h: string, p: string)
    requires ':' !in p && ']' !in p
    ensures SplitHostPort(JoinHostPort(h, p)).host == Bracket(h)
    ensures SplitHostPort(JoinHostPort(h, p)).port == Some(p)
  {
    var hh := Bracket(h);
    var s := hh + ":" + p;
    assert s[..|hh|] == hh;
    assert s[|hh| + 1..] == p;
    assert s[|hh|] == ':';
    var j := LastIndex(s, ']');
    if IsBracketed(hh) {
      assert s[|hh| - 1] == ']';
      assert j == |hh| - 1;
    } else {
      assert ':' !in hh;
      assert forall k :: 0 <= k < |s| && k != |hh| ==> s[k] != ':';
      assert FirstIndex(s, ':') == |hh| == LastIndex(s, ':');
      assert j < |hh|;
      if |s| > 0 && s[0] == '[' && j >= 0 {
        assert j + 1 < |hh|;
        assert s[j + 1] == hh[j + 1];
      }
    }
  }

  /** Text already free of surrounding white space and quotes is left as it is. */
  lemma CleanOfTrimmed(t: string)
    requires Trimmed(t) && !Quoted(t)
    ensures Clean(t) == t
  {
    TrimSpaceOfTrimmed(t);
  }

  /** Surrounding white space is ignored. */
  lemma HostSurroundingSpace(a: string, s: string, b: string)
    requires AllSpace(a) && AllSpace(b)
    ensures NormalizeHost(a + s + b) == NormalizeHost(s)
  {
    TrimSpaceSurrounded(a, s, b);
  }

  /**
   * One layer of matching quotes is removed, together with the white space around
   * and inside it.
   */
  lemma HostQuoted(a: string, q: char, s: string, b: string)
    requires AllSpace(a) && AllSpace(b) && IsQuote(q)
    requires !Quoted(TrimSpace(s))
    ensures NormalizeHost(a + [q] + s + [q] + b) == NormalizeHost(s)
  {
    var inner := [q] + s + [q];
    assert a + [q] + s + [q] + b == a + inner + b;
    TrimSpaceSurrounded(a, inner, b);
    TrimSpaceOfTrimmed(inner);
    assert Unquote(inner) == s;
    TrimSpaceOfTrimmed(TrimSpace(s));
  }

  /** The host setting leaves a host with a valid port alone and defaults an invalid port. */
  lemma HostWithPort(h: string, p: string)
    requires h == [] || !IsSpace(h[0])
    requires ':' !in p && ']' !in p
    requires p == [] || (!IsSpace(p[|p| - 1]) && !IsQuote(p[|p| - 1]))
    ensures NormalizeHost(JoinHostPort(h, p)) == JoinHostPort(h, if ValidPort(p) then p else DefaultPort)
  {
    var hh := Bracket(h);
    var s := JoinHostPort(h, p);
    assert hh != [] ==> !IsSpace(hh[0]);
    assert s[0] == if hh == [] then ':' else hh[0];
    assert s[|s| - 1] == if p == [] then ':' else p[|p| - 1];
    CleanOfTrimmed(s);
    SplitJoinSeparated(h, p);
    BracketIdempotent(h);
  }

  /** A host with no colon and no port gets the default port. */
  lemma HostWithoutPort(h: string)
    requires h != [] && Trimmed(h) && !Quoted(h)
    requires ':' !in h
    ensures NormalizeHost(h) == h + ":" + DefaultPort
  {
    CleanOfTrimmed(h);
  }

  /** A bare IPv6 literal, one with several colons, is bracketed and gets the default port. */
  lemma HostBareIPv6(h: string)
    requires h != [] && Trimmed(h) && !Quoted(h) && h[0] != '['
    requires FirstIndex(h, ':') != LastIndex(h, ':')
    ensures NormalizeHost(h) == "[" + h + "]:" + DefaultPort
  {
    CleanOfTrimmed(h);
    assert LastIndex(h, ':') >= 0;
    assert ':' in h && !IsBracketed(h);
    assert "[" + h + "]" + ":" + DefaultPort == "[" + h + "]:" + DefaultPort;
  }

  /** A bracketed host without a port keeps its brackets and gets the default port. */
  lemma HostBracketed(x: string)
    requires ']' !in x
    ensures NormalizeHost("[" + x + "]") == "[" + x + "]:" + DefaultPort
  {
    var h := "[" + x + "]";
    CleanOfTrimmed(h);
    assert LastIndex(h, ']') == |h| - 1;
    assert IsBracketed(h);
    assert h + ":" + DefaultPort == "[" + x + "]:" + DefaultPort;
  }

  /** An empty or blank setting selects the default host and port. */
  lemma HostBlank(raw: string)
    requires AllSpace(raw)
    ensures NormalizeHost(raw) == "127.0.0.1:11434"
  {
    assert raw + [] + [] == raw;
    TrimSpaceSurrounded(raw, [], []);
    assert Clean(raw) == [];
    assert JoinHostPort(DefaultHost, DefaultPort) == "127.0.0.1:11434";
  }

  /** Every normalised setting is a host, not starting with white space, joined to a valid port. */
  lemma NormalizedShape(raw: string) returns (h: string, p: string)
    ensures NormalizeHost(raw) == JoinHostPort(h, p)
    ensures ValidPort(p) && (h == [] || !IsSpace(h[0]))
  {
    var s := Clean(raw);
    if s == "" {
      h, p := DefaultHost, DefaultPort;
      DefaultPortValid();
    } else {
      var sp := SplitHostPort(s);
      h, p := sp.host, PortOrDefault(sp.port);
      assert h != [] ==> h[0] == s[0];
    }
  }

  /** A host joined to a valid port is already normal. */
  lemma HostWithValidPort(h: string, p: string)
    requires h == [] || !IsSpace(h[0])
    requires ValidPort(p)
    ensures NormalizeHost(JoinHostPort(h, p)) == JoinHostPort(h, p)
  {
    HostWithPort(h, p);
  }

  /** Normalising a normalised setting changes nothing. */
  lemma NormalizeHostIdempotent(raw: string)
    ensures NormalizeHost(NormalizeHost(raw)) == NormalizeHost(raw)
  {
    var h, p := NormalizedShape(raw);
    var r := NormalizeHost(raw);
    HostWithValidPort(h, p);
    assert NormalizeHost(r) == r;
  }
}
