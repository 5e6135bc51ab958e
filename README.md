# envconfig: settings read from the environment

A Dafny model of how the inference server reads its settings from environment
variables. The behaviour modelled is the one its configuration test suite
(`envconfig/config_test.go`) pins down. The environment is an explicit
`map<string, string>`, and an unset variable reads as the empty string.

- **Flags** (`flags.dfy`, `EnvConfig.Bool`, `Debug`, `FlashAttention`): an unset or
  empty variable is off. The literals `false` and `0` are off. Every other text is on.
- **Keep-alive** (`durations.dfy`, `EnvConfig.Config`): a duration in nanoseconds.
  - An empty setting gives five minutes.
  - A decimal integer is a number of seconds.
  - Other text is a duration with units (`ns`, `us`, `µs`, `μs`, `ms`, `s`, `m`, `h`; several
    components such as `1h30m` add up).
  - A negative value means "forever" and is stored as the largest signed 64-bit integer.
  - Unreadable text gives the default.
  - `LoadConfig` is a method of the class `Config`, which holds the environment and the
    loaded duration. It reloads the duration from the current environment. This matches
    the program keeping the value in a package variable that later reads consult.
- **Host** (`hostport.dfy`, `EnvConfig.Host`): the setting is normalised to a `host:port` string.
  - It is trimmed of white space (the characters with the Unicode White_Space property),
    then of one layer of matching `"` or `'` quotes, then of white space again.
  - An empty result gives `127.0.0.1:11434`.
  - The text is cut into host and port. A bracketed host `[...]` is recognised; otherwise
    a text with exactly one colon is cut at it, and any other text is a host alone.
  - A missing port, one that is not an integer, or one outside 0..65535 becomes `11434`.
  - A host containing a colon is written inside brackets.
  - Normalisation is idempotent.
- **Origins** (`origins.dfy`, `EnvConfig.Origins`): the setting is cut at commas. Each
  piece is trimmed, empty pieces are dropped, and the rest keep their order. The fifteen
  builtin origins follow: `localhost`, `127.0.0.1` and `0.0.0.0` over http and https, with
  and without any port, then `app://*`, `file://*` and `tauri://*`.
- **Test cases** (`config_test.dfy`): every case of the four test functions is a lemma
  over the model. General "row" lemmas prove a whole family of inputs at once, and each
  literal case is an instance.
- **Shared modules**: `text.dfy` holds the string utilities: white-space trimming,
  searching, splitting and joining, and decimal integers with their round trip.
  `wrappers.dfy` holds `Option`.

Only the test file of the package is part of this model. The Go implementation of
`envconfig` is not, so the rules above are the ones the test cases fix. One of them
is worth stating on its own:

- An empty host before a colon is kept: `":1234"` stays `":1234"`, and is not given the
  default host (`HostPort.HostWithPort`, `ConfigTest.TestHostOnlyPort`).

## Model

| member | source | states |
|---|---|---|
| Flags.ParseBool | envconfig/config_test.go:171-175 | the recognised literals are exactly `true`/`1` (true) and `false`/`0` (false) |
| Flags.BoolValue | envconfig/config_test.go:171-177 | a flag is off exactly for the empty text, `false` and `0`; a recognised literal gives its value and anything else gives true |
| EnvConfig.Getenv | envconfig/config_test.go:13 | a set variable reads as its value and an unset one reads as the empty string |
| EnvConfig.GetenvOther | envconfig/config_test.go:13-39 | setting one variable changes what it reads and leaves every other variable as it was |
| EnvConfig.Bool | envconfig/config_test.go:182-183 | the flag named `key` is off exactly when the variable is unset, empty, `false` or `0` |
| EnvConfig.Debug | envconfig/config_test.go:13-20 | debug is off exactly when its variable is unset, empty, `false` or `0` |
| EnvConfig.FlashAttention | envconfig/config_test.go:22-23 | flash attention is off exactly when its variable is unset, empty, `false` or `0` |
| EnvConfig.Host | envconfig/config_test.go:68-69 | the host setting is a host joined to a valid port, and an unset variable gives `127.0.0.1:11434` |
| EnvConfig.Origins | envconfig/config_test.go:157-159 | the list ends with the fifteen builtin origins, is preceded by exactly the user's entries, and is only the builtins when the variable is unset |
| EnvConfig.HostOfSetting | envconfig/config_test.go:68-69 | with the host variable set to `v`, the host is the normal form of `v` |
| EnvConfig.OriginsOfSetting | envconfig/config_test.go:157-159 | with the origins variable set to `v`, the origins are the allow-list of `v` |
| EnvConfig.SettingsIndependent | envconfig/config_test.go:13-23 | changing a variable other than a setting's own leaves debug, flash attention, host and origins unchanged |
| EnvConfig.Config.constructor | envconfig/config_test.go:12 | a new configuration holds the given environment and the five-minute default |
| EnvConfig.Config.Setenv | envconfig/config_test.go:25 | setting a variable updates that one entry of the environment and does not reload the duration |
| EnvConfig.Config.LoadConfig | envconfig/config_test.go:25-39 | loading leaves the environment alone and stores the keep-alive value of the setting, which is never negative |
| EnvConfig.Config.LoadKeepAlive | envconfig/config_test.go:28-39 | an integer is seconds, otherwise a duration; a negative one is stored as the largest duration and an unreadable one leaves the stored value |
| Durations.UnitNanos | envconfig/config_test.go:31-36 | a known unit is worth at least one nanosecond |
| Durations.UnitTable | envconfig/config_test.go:31-36 | the known units are exactly `ns`, `us`, `µs`, `μs`, `ms`, `s`, `m` and `h`, each with its number of nanoseconds |
| Durations.Component | envconfig/config_test.go:31-36 | a component read at the front starts with a digit, takes at least two characters, and is followed only by a digit, a `.` or the end |
| Durations.ParseComponents | envconfig/config_test.go:31-36 | a readable list of components starts with a digit and is at least two characters long |
| Durations.ParseDuration | envconfig/config_test.go:31-36 | only a text starting with `-` reads as a negative duration |
| Durations.NonNegative | envconfig/config_test.go:34-39 | a negative duration becomes the largest 64-bit duration and any other is kept |
| Durations.KeepAliveValue | envconfig/config_test.go:25-27 | a keep-alive value is never negative, and the empty setting gives five minutes |
| Durations.ComponentOf | envconfig/config_test.go:31-33 | digits followed by a known unit read as that many units and take up exactly their own length |
| Durations.ComponentThen | envconfig/config_test.go:31-33 | a component followed by further components adds its value to theirs, and fails when they fail |
| Durations.ParseDurationUnit | envconfig/config_test.go:31-33 | `n` followed by a unit parses to `n` times that unit |
| Durations.ParseDurationNegativeUnit | envconfig/config_test.go:34-36 | a minus sign, `n` and a unit parse to minus `n` times that unit |
| Durations.KeepAliveSeconds | envconfig/config_test.go:28-30 | every decimal integer setting is that many seconds, and every negative one is forever |
| Durations.KeepAliveUnit | envconfig/config_test.go:31-33 | every `n` followed by a known unit is `n` of that unit |
| Durations.KeepAliveNegativeUnit | envconfig/config_test.go:34-36 | every negative duration with a unit is forever |
| Durations.ComponentUnknownUnit | envconfig/config_test.go:31-33 | digits followed by letters that are not a known unit are not a component |
| Durations.ComponentNoUnit | envconfig/config_test.go:31-33 | digits without a unit are not a component |
| Durations.ParseComponentsMissingUnit | envconfig/config_test.go:31-33 | a component followed by digits without a unit does not read as a list of components |
| Durations.KeepAliveDigitsThen | envconfig/config_test.go:25-33 | digits followed by text that is not a readable duration give the five-minute default |
| Durations.KeepAliveUnknownUnit | envconfig/config_test.go:25-33 | a number followed by an unknown unit, such as `1x`, gives the five-minute default |
| Durations.KeepAliveMissingUnit | envconfig/config_test.go:25-33 | a number after the last unit, such as `1h5`, gives the five-minute default |
| HostPort.Unquote | envconfig/config_test.go:61-63 | a quoted text loses exactly its outer pair of quotes, and any other text is kept |
| HostPort.Clean | envconfig/config_test.go:60-63 | the cleaned setting has no surrounding white space |
| HostPort.Bracket | envconfig/config_test.go:56-58 | a host containing a colon is bracketed unless it already is; the result has no colon outside brackets |
| HostPort.SplitHostPort | envconfig/config_test.go:49-59 | the host is a prefix of the text, and host, colon and port spell the text back |
| HostPort.PortOrDefault | envconfig/config_test.go:53-55 | the port used is always valid: the given one when valid, `11434` otherwise |
| HostPort.ValidPort | envconfig/config_test.go:53-55 | a valid port is not empty, ends in a digit and holds no colon or bracket |
| HostPort.JoinHostPortShape | envconfig/config_test.go:47-63 | a host with a colon is written from `[`, any other host as it is, and `:` and the port end the text |
| HostPort.ValidPortRange | envconfig/config_test.go:53-55 | an integer port is valid exactly when it lies in 0..65535 |
| HostPort.NormalizeHost | envconfig/config_test.go:47-63 | every normalised setting splits into a host and a valid port that join back to it |
| HostPort.DefaultPortValid | envconfig/config_test.go:47-48 | the default port `11434` is a valid port |
| HostPort.BracketIdempotent | envconfig/config_test.go:56-58 | bracketing twice is bracketing once |
| HostPort.SplitJoin | envconfig/config_test.go:50-59 | splitting a host joined to a valid port gives back the bracketed host and the port |
| HostPort.SplitJoinSeparated | envconfig/config_test.go:50-59 | the same round trip for any port without a colon or bracket |
| HostPort.CleanOfTrimmed | envconfig/config_test.go:48-52 | text without surrounding white space or quotes is left as it is |
| HostPort.HostSurroundingSpace | envconfig/config_test.go:60 | white space around the setting does not change the host |
| HostPort.HostQuoted | envconfig/config_test.go:61-63 | one layer of matching quotes, with white space around and inside, does not change the host |
| HostPort.HostWithPort | envconfig/config_test.go:49-55 | a host with a port keeps a valid port, gets `11434` for an invalid one, and an empty host stays empty |
| HostPort.HostWithoutPort | envconfig/config_test.go:48 | a host without a colon gets `:11434` |
| HostPort.HostBareIPv6 | envconfig/config_test.go:58 | a bare host with several colons is bracketed and gets `:11434` |
| HostPort.HostBracketed | envconfig/config_test.go:56-57 | a bracketed host without a port keeps its brackets and gets `:11434` |
| HostPort.HostBlank | envconfig/config_test.go:47 | an empty or blank setting gives `127.0.0.1:11434` |
| HostPort.NormalizedShape | envconfig/config_test.go:47-63 | every normalised setting is a host, not starting with white space, joined to a valid port |
| HostPort.HostWithValidPort | envconfig/config_test.go:50 | a host joined to a valid port is already normal |
| HostPort.NormalizeHostIdempotent | envconfig/config_test.go:47-63 | normalising a normalised setting changes nothing |
| OriginList.HostPatterns | envconfig/config_test.go:82-93 | each local host gives four patterns |
| OriginList.BuiltinOrigins | envconfig/config_test.go:81-97 | there are fifteen builtin origins |
| OriginList.BuiltinOriginsListed | envconfig/config_test.go:82-96 | the builtin list, entry by entry, in the order of the test table |
| OriginList.Entries | envconfig/config_test.go:116-118 | the entries are at most the pieces, each one non-empty and trimmed |
| OriginList.UserOrigins | envconfig/config_test.go:98-99 | every user origin is non-empty and trimmed |
| OriginList.AllowedOrigins | envconfig/config_test.go:98-115 | the list ends with the fifteen builtins, preceded by exactly the user's origins |
| OriginList.EntriesOfClean | envconfig/config_test.go:116-118 | clean pieces are all kept, in order |
| OriginList.UserOriginsOfJoin | envconfig/config_test.go:116-118 | clean origins joined by commas are read back as the same list |
| OriginList.EntriesAppend | envconfig/config_test.go:116-153 | the entries of two runs of pieces are those of the first run followed by those of the second |
| OriginList.UserOriginsSingle | envconfig/config_test.go:98-115 | a setting without a comma gives its trimmed text, or nothing when that is empty |
| OriginList.UserOriginsAppend | envconfig/config_test.go:116-153 | the entries before the first comma come first, followed by those after it |
| OriginList.UserOriginsOfPieces | envconfig/config_test.go:116-153 | any comma-free pieces joined by commas give their trimmed, non-empty pieces in order |
| OriginList.AllowedOriginsEmpty | envconfig/config_test.go:81-97 | an empty setting allows exactly the builtin origins |
| Text.Split | envconfig/config_test.go:116 | there is at least one piece and no piece holds the separator |
| Text.JoinSplit | envconfig/config_test.go:116 | joining the pieces of a text gives back the text |
| Text.SplitJoin | envconfig/config_test.go:116-118 | splitting pieces joined by the separator gives back the pieces |
| Text.SplitAfterPiece | envconfig/config_test.go:116 | a piece followed by the separator is split off in front of the pieces of the rest |
| Text.SplitNoSep | envconfig/config_test.go:98 | text without the separator is one piece |
| Text.TrimSpace | envconfig/config_test.go:60 | the result has no white space at either end |
| Text.TrimSpaceOfTrimmed | envconfig/config_test.go:48 | trimming text with no surrounding white space changes nothing |
| Text.TrimSpaceSurrounded | envconfig/config_test.go:60 | white space added around a text is removed again by trimming |
| Text.ParseInt | envconfig/config_test.go:28-30 | a text reads as an integer exactly when it is an optional sign and digits |
| Text.ParseFormatInt | envconfig/config_test.go:28-30 | every integer written in decimal reads back as itself |
| Text.FormatNatDigits | envconfig/config_test.go:28-30 | a natural number is written with digits that read back as the number |
| Text.ParseIntShape | envconfig/config_test.go:28-30 | a text that reads as an integer ends in a digit and holds only digits after an optional leading sign |
| Text.ParseIntStopsAtNonDigit | envconfig/config_test.go:31-33 | digits followed by a unit are not an integer |
| ConfigTest.TestBool | envconfig/config_test.go:171-177 | the seven rows of the flag table |
| ConfigTest.TestSmokeFlags | envconfig/config_test.go:13-23 | setting debug to empty, `false` and `1` reads off, off, on, and flash attention `1` reads on |
| ConfigTest.TestKeepAliveEmpty | envconfig/config_test.go:25-27 | an empty keep-alive is five minutes |
| ConfigTest.TestKeepAliveSeconds | envconfig/config_test.go:28-30 | `3` is three seconds |
| ConfigTest.TestKeepAliveHour | envconfig/config_test.go:31-33 | `1h` is one hour |
| ConfigTest.TestKeepAliveNegativeDuration | envconfig/config_test.go:34-36 | `-1s` is the largest duration |
| ConfigTest.TestKeepAliveNegativeSeconds | envconfig/config_test.go:37-39 | `-1` is the largest duration |
| ConfigTest.TestSmokeKeepAlive | envconfig/config_test.go:25-39 | setting and loading the five keep-alive values in turn on one configuration stores the five expected durations |
| ConfigTest.TestHostEmpty | envconfig/config_test.go:47 | `""` gives `127.0.0.1:11434` |
| ConfigTest.TestHostOnlyAddress | envconfig/config_test.go:48 | `1.2.3.4` gives `1.2.3.4:11434` |
| ConfigTest.TestHostOnlyPort | envconfig/config_test.go:49 | `:1234` gives `:1234` |
| ConfigTest.TestHostAddressAndPort | envconfig/config_test.go:50 | `1.2.3.4:1234` is kept |
| ConfigTest.TestHostHostname | envconfig/config_test.go:51 | `example.com` gives `example.com:11434` |
| ConfigTest.TestHostHostnameAndPort | envconfig/config_test.go:52 | `example.com:1234` is kept |
| ConfigTest.TestHostZeroPort | envconfig/config_test.go:53 | `:0` is kept |
| ConfigTest.TestHostTooLargePort | envconfig/config_test.go:54 | `:66000` gives `:11434` |
| ConfigTest.TestHostTooSmallPort | envconfig/config_test.go:55 | `:-1` gives `:11434` |
| ConfigTest.TestHostIPv6Localhost | envconfig/config_test.go:56 | `[::1]` gives `[::1]:11434` |
| ConfigTest.TestHostIPv6WorldOpen | envconfig/config_test.go:57 | `[::]` gives `[::]:11434` |
| ConfigTest.TestHostIPv6NoBrackets | envconfig/config_test.go:58 | `::1` gives `[::1]:11434` |
| ConfigTest.TestHostIPv6WithPort | envconfig/config_test.go:59 | `[::1]:1337` is kept |
| ConfigTest.TestHostExtraSpace | envconfig/config_test.go:60 | ` 1.2.3.4 ` gives `1.2.3.4:11434` |
| ConfigTest.TestHostExtraQuotes | envconfig/config_test.go:61 | `"1.2.3.4"` gives `1.2.3.4:11434` |
| ConfigTest.TestHostExtraSpaceAndQuotes | envconfig/config_test.go:62 | ` " 1.2.3.4 " ` gives `1.2.3.4:11434` |
| ConfigTest.TestHostExtraSingleQuotes | envconfig/config_test.go:63 | `'1.2.3.4'` gives `1.2.3.4:11434` |
| ConfigTest.TestOriginsEmpty | envconfig/config_test.go:81-97 | an empty setting gives the fifteen builtins in the table's order |
| ConfigTest.TestOriginsOne | envconfig/config_test.go:98-115 | one origin, then the builtins |
| ConfigTest.TestOriginsTwo | envconfig/config_test.go:116-134 | two addresses in their order, then the builtins |
| ConfigTest.TestOriginsNames | envconfig/config_test.go:135-153 | two names in their order, then the builtins |

## Left out

- The process environment is an explicit map passed in or held by `Config`. Reading and
  setting real environment variables is not modelled.
- The Go implementation of `envconfig` is not part of this model. Its rules are
  reconstructed from the test cases.
- The test harness carries no behaviour and is not modelled: `require`, `cmp.Diff`,
  `t.Run` subtests, and the unordered iteration over the case maps.
- Logging a warning when a malformed value is replaced by a default is a side effect.
  It is not modelled.
- Durations are unbounded integers. Overflow of the 64-bit duration type and the
  fractional forms of Go's duration grammar (`1.5h`, `.5s`) are not modelled.
- `EnvConfig.Config.LoadConfig` models only the keep-alive part of loading the
  configuration; the other settings are read on demand by the accessor functions.
- The `url.URL` value returned for the host is not modelled. Only its `Host` string is modelled.
  Its scheme and path are not.
- Flags.BoolValue: does not treat case variants of `false` (such as `FALSE`) as off. The
  test cases fix only the exact literals.
- HostPort.SplitHostPort: does not validate IPv6 syntax or reject malformed hosts the
  way the standard library's host/port splitting does. Only the cut into host and port
  is modelled.
- Durations.KeepAliveValue: does not trim white space or quotes from the setting. Only
  the host setting is cleaned in this model.
- OriginList.UserOrigins: pieces are trimmed and empty pieces are dropped. No test case
  has padded or empty pieces, so a plain split that keeps them would give the same
  results for every test case.
