/**
 * The cases of the configuration test suite, each stated over the model: the
 * boolean flags, the keep-alive durations loaded by `LoadConfig`, the host
 * normalisation table and the origins table.
 */
module ConfigTest {
  import opened Wrappers
  import opened Text
  import opened Durations
  import opened HostPort
  import opened OriginList
  import opened EnvConfig

  const BoolVar: string := "OLLAMA_BOOL"

  /** The generic flag table. */
  lemma TestBool()
    ensures !Bool(map[BoolVar := ""], BoolVar)
    ensures Bool(map[BoolVar := "true"], BoolVar)
    ensures !Bool(map[BoolVar := "false"], BoolVar)
    ensures Bool(map[BoolVar := "1"], BoolVar)
    ensures !Bool(map[BoolVar := "0"], BoolVar)
    ensures Bool(map[BoolVar := "random"], BoolVar)
    ensures Bool(map[BoolVar := "something"], BoolVar)
  {
  }

  /** A setting that is the decimal integer `n`. */
  lemma SecondsRow(raw: string, n: int, want: int)
    requires raw == FormatInt(n)
    requires want == if n < 0 then MaxInt64 else n * Second
    ensures KeepAliveValue(raw) == want
  {
    KeepAliveSeconds(n);
  }

  /** A setting that is `n` followed by the unit `u`, with or without a minus sign. */
  lemma UnitRow(raw: string, negative: bool, n: nat, u: string, k: nat, want: int)
    requires UnitNanos(u) == Some(k) && n > 0
    requires raw == (if negative then "-" else "") + FormatNat(n) + u
    requires want == if negative then MaxInt64 else Scale(n, k)
    ensures KeepAliveValue(raw) == want
  {
    if negative {
      KeepAliveNegativeUnit(n, u, k);
    } else {
      assert raw == FormatNat(n) + u;
      KeepAliveUnit(n, u, k);
    }
  }

  /** Smoke test, first setting: an empty value gives five minutes. */
  lemma TestKeepAliveEmpty()
    ensures KeepAliveValue("") == 5 * Minute
  {
  }

  /** Smoke test, second setting: an integer is a number of seconds. */
  lemma TestKeepAliveSeconds()
    ensures KeepAliveValue("3") == 3 * Second
  {
    SecondsRow("3", 3, 3 * Second);
  }

  /** Smoke test, third setting: a duration with a unit. */
  lemma TestKeepAliveHour()
    ensures KeepAliveValue("1h") == 1 * Hour
  {
    UnitRow("1h", false, 1, "h", Hour, Hour);
  }

  /** Smoke test, fourth setting: a negative duration means forever. */
  lemma TestKeepAliveNegativeDuration()
    ensures KeepAliveValue("-1s") == MaxInt64
  {
    UnitRow("-1s", true, 1, "s", Second, MaxInt64);
  }

  /** Smoke test, fifth setting: a negative integer means forever. */
  lemma TestKeepAliveNegativeSeconds()
    ensures KeepAliveValue("-1") == MaxInt64
  {
    SecondsRow("-1", -1, MaxInt64);
  }

  /** The flag part of the smoke test, replayed on a `Config`. */
  method TestSmokeFlags() returns (debug: seq<bool>, flash: bool)
    ensures debug == [false, false, true]
    ensures flash
  {
    var c := new Config(map[]);
    c.Setenv(DebugVar, "");
    debug := [Debug(c.env)];
    c.Setenv(DebugVar, "false");
    debug := debug + [Debug(c.env)];
    c.Setenv(DebugVar, "1");
    debug := debug + [Debug(c.env)];
    c.Setenv(FlashAttentionVar, "1");
    flash := FlashAttention(c.env);
  }

  /** Sets the keep-alive variable of `c` to `raw`, loads the configuration and reads the duration. */
  method SetAndLoad(c: Config, raw: string) returns (d: int)
    modifies c
    ensures d == c.keepAlive == KeepAliveValue(raw)
    ensures c.env == old(c.env)[KeepAliveVar := raw]
  {
    c.Setenv(KeepAliveVar, raw);
    c.LoadConfig();
    d := c.keepAlive;
  }

  /** The keep-alive part of the smoke test, replayed on a `Config`. */
  method TestSmokeKeepAlive() returns (keepAlive: seq<int>)
    ensures keepAlive == [5 * Minute, 3 * Second, 1 * Hour, MaxInt64, MaxInt64]
  {
    var c := new Config(map[]);
    var d0 := SetAndLoad(c, "");
    var d1 := SetAndLoad(c, "3");
    var d2 := SetAndLoad(c, "1h");
    var d3 := SetAndLoad(c, "-1s");
    var d4 := SetAndLoad(c, "-1");
    TestKeepAliveEmpty();
    TestKeepAliveSeconds();
    TestKeepAliveHour();
    TestKeepAliveNegativeDuration();
    TestKeepAliveNegativeSeconds();
    keepAlive := [d0, d1, d2, d3, d4];
  }

  /** A row whose setting is a host, possibly empty, and a decimal port. */
  lemma PortRow(raw: string, h: string, p: string, n: int, want: string)
    requires h == [] || !IsSpace(h[0])
    requires p == FormatInt(n) && raw == JoinHostPort(h, p)
    requires want == JoinHostPort(h, if 0 <= n <= MaxPort then p else DefaultPort)
    ensures NormalizeHost(raw) == want
  {
    ValidPortRange(n);
    FormatIntChars(n);
    HostWithPort(h, p);
  }

  /** A row whose setting is a host without a colon or a port. */
  lemma BareRow(raw: string, want: string)
    requires raw != [] && Trimmed(raw) && !Quoted(raw) && ':' !in raw
    requires want == raw + ":" + DefaultPort
    ensures NormalizeHost(raw) == want
  {
    HostWithoutPort(raw);
  }

  /** Host table, "empty": the default address. */
  lemma TestHostEmpty()
    ensures NormalizeHost("") == "127.0.0.1:11434"
  {
    HostBlank("");
  }

  /** Host table, "only address". */
  lemma TestHostOnlyAddress()
    ensures NormalizeHost("1.2.3.4") == "1.2.3.4:11434"
  {
    BareRow("1.2.3.4", "1.2.3.4:11434");
  }

  /** Host table, "only port": the empty host is kept. */
  lemma TestHostOnlyPort()
    ensures NormalizeHost(":1234") == ":1234"
  {
    PortRow(":1234", "", "1234", 1234, ":1234");
  }

  /** Host table, "address and port". */
  lemma TestHostAddressAndPort()
    ensures NormalizeHost("1.2.3.4:1234") == "1.2.3.4:1234"
  {
    PortRow("1.2.3.4:1234", "1.2.3.4", "1234", 1234, "1.2.3.4:1234");
  }

  /** Host table, "hostname". */
  lemma TestHostHostname()
    ensures NormalizeHost("example.com") == "example.com:11434"
  {
    BareRow("example.com", "example.com:11434");
  }

  /** Host table, "hostname and port". */
  lemma TestHostHostnameAndPort()
    ensures NormalizeHost("example.com:1234") == "example.com:1234"
  {
    PortRow("example.com:1234", "example.com", "1234", 1234, "example.com:1234");
  }

  /** Host table, "zero port": port 0 is valid. */
  lemma TestHostZeroPort()
    ensures NormalizeHost(":0") == ":0"
  {
    PortRow(":0", "", "0", 0, ":0");
  }

  /** Host table, "too large port": replaced by the default port. */
  lemma TestHostTooLargePort()
    ensures NormalizeHost(":66000") == ":11434"
  {
    PortRow(":66000", "", "66000", 66000, ":11434");
  }

  /** Host table, "too small port": replaced by the default port. */
  lemma TestHostTooSmallPort()
    ensures NormalizeHost(":-1") == ":11434"
  {
    PortRow(":-1", "", "-1", -1, ":11434");
  }

  /** A row whose setting is a bracketed host without a port. */
  lemma BracketedRow(raw: string, x: string, want: string)
    requires raw == "[" + x + "]" && ']' !in x
    requires want == "[" + x + "]:" + DefaultPort
    ensures NormalizeHost(raw) == want
  {
    HostBracketed(x);
  }

  /** A row whose setting is an IPv6 literal without brackets: colons at `i` and at `j`. */
  lemma BareIPv6Row(raw: string, i: nat, j: nat, want: string)
    requires raw != [] && Trimmed(raw) && !Quoted(raw) && raw[0] != '['
    requires i < j < |raw| && raw[i] == ':' && raw[j] == ':'
    requires want == "[" + raw + "]:" + DefaultPort
    ensures NormalizeHost(raw) == want
  {
    assert 0 <= FirstIndex(raw, ':') <= i;
    assert j <= LastIndex(raw, ':');
    HostBareIPv6(raw);
  }

  /** Host table, "ipv6 localhost". */
  lemma TestHostIPv6Localhost()
    ensures NormalizeHost("[::1]") == "[::1]:11434"
  {
    BracketedRow("[::1]", "::1", "[::1]:11434");
  }

  /** Host table, "ipv6 world open". */
  lemma TestHostIPv6WorldOpen()
    ensures NormalizeHost("[::]") == "[::]:11434"
  {
    BracketedRow("[::]", "::", "[::]:11434");
  }

  /** Host table, "ipv6 no brackets": the brackets are added. */
  lemma TestHostIPv6NoBrackets()
    ensures NormalizeHost("::1") == "[::1]:11434"
  {
    BareIPv6Row("::1", 0, 1, "[::1]:11434");
  }

  /** Host table, "ipv6 + port". */
  lemma TestHostIPv6WithPort()
    ensures NormalizeHost("[::1]:1337") == "[::1]:1337"
  {
    PortRow("[::1]:1337", "[::1]", "1337", 1337, "[::1]:1337");
  }

  /** A row whose setting is `s` with white space around it. */
  lemma SpacedRow(raw: string, a: string, s: string, b: string)
    requires AllSpace(a) && AllSpace(b) && raw == a + s + b
    ensures NormalizeHost(raw) == NormalizeHost(s)
  {
    HostSurroundingSpace(a, s, b);
  }

  /** A row whose setting is `s` in quotes `q`, with white space around them. */
  lemma QuotedRow(raw: string, a: string, q: char, s: string, b: string)
    requires AllSpace(a) && AllSpace(b) && IsQuote(q) && raw == a + [q] + s + [q] + b
    requires !Quoted(TrimSpace(s))
    ensures NormalizeHost(raw) == NormalizeHost(s)
  {
    HostQuoted(a, q, s, b);
  }

  /** Host table, "extra space". */
  lemma TestHostExtraSpace()
    ensures NormalizeHost(" 1.2.3.4 ") == "1.2.3.4:11434"
  {
    SpacedRow(" 1.2.3.4 ", " ", "1.2.3.4", " ");
    TestHostOnlyAddress();
  }

  /** Host table, "extra quotes". */
  lemma TestHostExtraQuotes()
    ensures NormalizeHost("\"1.2.3.4\"") == "1.2.3.4:11434"
  {
    TrimSpaceOfTrimmed("1.2.3.4");
    QuotedRow("\"1.2.3.4\"", "", '"', "1.2.3.4", "");
    TestHostOnlyAddress();
  }

  /** Host table, "extra space+quotes": white space outside and inside the quotes. */
  lemma TestHostExtraSpaceAndQuotes()
    ensures NormalizeHost(" \" 1.2.3.4 \" ") == "1.2.3.4:11434"
  {
    SpacedQuotesPieces();
    SpacedAddressTrimmed();
    QuotedRow(" \" 1.2.3.4 \" ", " ", '"', " 1.2.3.4 ", " ");
    TestHostExtraSpace();
  }

  lemma SpacedQuotesPieces()
    ensures " \" 1.2.3.4 \" " == " " + ['"'] + " 1.2.3.4 " + ['"'] + " "
  {
  }

  lemma SpacedAddressTrimmed()
    ensures TrimSpace(" 1.2.3.4 ") == "1.2.3.4" && !Quoted("1.2.3.4")
  {
    assert " 1.2.3.4 " == " " + "1.2.3.4" + " ";
    TrimSpaceSurrounded(" ", "1.2.3.4", " ");
    TrimSpaceOfTrimmed("1.2.3.4");
  }

  /** Host table, "extra single quotes". */
  lemma TestHostExtraSingleQuotes()
    ensures NormalizeHost("'1.2.3.4'") == "1.2.3.4:11434"
  {
    TrimSpaceOfTrimmed("1.2.3.4");
    QuotedRow("'1.2.3.4'", "", '\'', "1.2.3.4", "");
    TestHostOnlyAddress();
  }

  /** A row whose setting lists origins, each free of commas and surrounding white space. */
  lemma OriginsRow(raw: string, xs: seq<string>)
    requires raw == Join(xs, ',')
    requires forall i :: 0 <= i < |xs| ==> xs[i] != [] && ',' !in xs[i] && Trimmed(xs[i])
    ensures AllowedOrigins(raw) == xs + BuiltinOrigins()
  {
    forall i | 0 <= i < |xs| ensures TrimSpace(xs[i]) == xs[i] {
      TrimSpaceOfTrimmed(xs[i]);
    }
    UserOriginsOfJoin(xs);
  }

  /** An origin as the table writes it: not empty, without a comma or surrounding white space. */
  predicate PlainOrigin(a: string) {
    a != [] && ',' !in a && Trimmed(a)
  }

  /** Both origins of a two-origin row are plain. */
  lemma PlainOrigins(a: string, b: string)
    requires a != [] && b != [] && ',' !in a && ',' !in b
    requires !IsSpace(a[0]) && !IsSpace(a[|a| - 1]) && !IsSpace(b[0]) && !IsSpace(b[|b| - 1])
    ensures PlainOrigin(a) && PlainOrigin(b)
  {
  }

  /** A row whose setting is the origin `a`. */
  lemma OriginsSingle(raw: string, a: string)
    requires raw == a && PlainOrigin(a)
    ensures AllowedOrigins(raw) == [a] + BuiltinOrigins()
  {
    OriginsRow(raw, [a]);
  }

  /** A row whose setting is the origins `a` and `b`, separated by a comma. */
  lemma OriginsPair(raw: string, a: string, b: string)
    requires raw == a + "," + b && PlainOrigin(a) && PlainOrigin(b)
    ensures AllowedOrigins(raw) == [a, b] + BuiltinOrigins()
  {
    assert Join([a, b][1..], ',') == b;
    OriginsRow(raw, [a, b]);
  }

  /** Origins table, first row: no setting gives the fifteen builtin entries in order. */
  lemma TestOriginsEmpty()
    ensures AllowedOrigins("") == [
      "http://localhost", "https://localhost", "http://localhost:*", "https://localhost:*",
      "http://127.0.0.1", "https://127.0.0.1", "http://127.0.0.1:*", "https://127.0.0.1:*",
      "http://0.0.0.0", "https://0.0.0.0", "http://0.0.0.0:*", "https://0.0.0.0:*",
      "app://*", "file://*", "tauri://*"]
  {
    AllowedOriginsEmpty();
    BuiltinOriginsListed();
  }

  /** Origins table, second row: one origin, then the builtin list. */
  lemma TestOriginsOne()
    ensures AllowedOrigins("http://10.0.0.1") == ["http://10.0.0.1"] + BuiltinOrigins()
  {
    OriginsSingle("http://10.0.0.1", "http://10.0.0.1");
  }

  lemma AddressesPlain()
    ensures PlainOrigin("http://172.16.0.1") && PlainOrigin("https://192.168.0.1")
  {
    PlainOrigins("http://172.16.0.1", "https://192.168.0.1");
  }

  lemma NamesPlain()
    ensures PlainOrigin("http://totally.safe") && PlainOrigin("http://definitely.legit")
  {
    PlainOrigins("http://totally.safe", "http://definitely.legit");
  }

  lemma AddressesJoined()
    ensures "http://172.16.0.1,https://192.168.0.1" == "http://172.16.0.1" + "," + "https://192.168.0.1"
  {
  }

  lemma NamesJoined()
    ensures "http://totally.safe,http://definitely.legit" == "http://totally.safe" + "," + "http://definitely.legit"
  {
  }

  /** Origins table, third row: two origins in their order, then the builtin list. */
  lemma TestOriginsTwo()
    ensures AllowedOrigins("http://172.16.0.1,https://192.168.0.1") ==
              ["http://172.16.0.1", "https://192.168.0.1"] + BuiltinOrigins()
  {
    AddressesPlain();
    AddressesJoined();
    OriginsPair("http://172.16.0.1,https://192.168.0.1", "http://172.16.0.1", "https://192.168.0.1");
  }

  /** Origins table, fourth row: any names are accepted as they are. */
  lemma TestOriginsNames()
    ensures AllowedOrigins("http://totally.safe,http://definitely.legit") ==
              ["http://totally.safe", "http://definitely.legit"] + BuiltinOrigins()
  {
    NamesPlain();
    NamesJoined();
    OriginsPair("http://totally.safe,http://definitely.legit", "http://totally.safe", "http://definitely.legit");
  }
}
