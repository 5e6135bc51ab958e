/**
 * The settings read from the process environment. The environment is a map from
 * variable names to values, where an unset variable reads as the empty string.
 * Each accessor reads one variable and applies one rule; the keep-alive duration
 * is instead loaded into a `Config` object by `LoadConfig`, as the program keeps
 * it in a variable that later reads consult.
 */
module EnvConfig {
  import opened Text
  import opened Flags
  import opened Durations
  import opened HostPort
  import opened OriginList

  type Env = map<string, string>

  const DebugVar: string := "OLLAMA_DEBUG"
  const FlashAttentionVar: string := "OLLAMA_FLASH_ATTENTION"
  const KeepAliveVar: string := "OLLAMA_KEEP_ALIVE"
  const HostVar: string := "OLLAMA_HOST"
  const OriginsVar: string := "OLLAMA_ORIGINS"

  /** The value of `key`, or the empty string when it is not set. */
  function Getenv(env: Env, key: string): (v: string)
    ensures key in env ==> v == env[key]
    ensures key !in env ==> v == ""
  {
    if key in env then env[key] else ""
  }

  /** Setting one variable leaves every other variable as it was. */
  lemma GetenvOther(env: Env, key: string, value: string, other: string)
    requires other != key
    ensures Getenv(env[key := value], other) == Getenv(env, other)
    ensures Getenv(env[key := value], key) == value
  {
  }

  /** The flag named `key`: off when unset, empty, `false` or `0`, and on otherwise. */
  function Bool(env: Env, key: string): (b: bool)
    ensures !b <==> key !in env || env[key] == "" || env[key] == "false" || env[key] == "0"
  {
    BoolValue(Getenv(env, key))
  }

  /** Whether debug output is enabled. */
  function Debug(env: Env): (b: bool)
    ensures !b <==> DebugVar !in env || env[DebugVar] in {"", "false", "0"}
  {
    Bool(env, DebugVar)
  }

  /** Whether flash attention is enabled. */
  function FlashAttention(env: Env): (b: bool)
    ensures !b <==> FlashAttentionVar !in env || env[FlashAttentionVar] in {"", "false", "0"}
  {
    Bool(env, FlashAttentionVar)
  }

  /** The address to serve on, as a `host:port` string with a valid port. */
  function Host(env: Env): (r: string)
    ensures SplitHostPort(r).port.Some? && ValidPort(SplitHostPort(r).port.value)
    ensures r == JoinHostPort(SplitHostPort(r).host, SplitHostPort(r).port.value)
    ensures HostVar !in env ==> r == "127.0.0.1:11434"
  {
    HostBlank("");
    NormalizeHost(Getenv(env, HostVar))
  }

  /** The origins allowed to make requests: the user's, then the builtin ones. */
  function Origins(env: Env): (r: seq<string>)
    ensures |r| >= 15 && r[|r| - 15..] == BuiltinOrigins()
    ensures r[..|r| - 15] == UserOrigins(Getenv(env, OriginsVar))
    ensures OriginsVar !in env ==> r == BuiltinOrigins()
  {
    AllowedOriginsEmpty();
    AllowedOrigins(Getenv(env, OriginsVar))
  }

  /** The host read after setting the host variable to `v` is `v` normalised. */
  lemma HostOfSetting(env: Env, v: string)
    ensures Host(env[HostVar := v]) == NormalizeHost(v)
  {
  }

  /** The origins read after setting the origins variable to `v` are those `v` allows. */
  lemma OriginsOfSetting(env: Env, v: string)
    ensures Origins(env[OriginsVar := v]) == AllowedOrigins(v)
  {
  }

  /** Each setting depends on its own variable only. */
  lemma SettingsIndependent(env: Env, key: string, value: string)
    ensures key != DebugVar ==> Debug(env[key := value]) == Debug(env)
    ensures key != FlashAttentionVar ==> FlashAttention(env[key := value]) == FlashAttention(env)
    ensures key != HostVar ==> Host(env[key := value]) == Host(env)
    ensures key != OriginsVar ==> Origins(env[key := value]) == Origins(env)
  {
    if key != HostVar {
      GetenvOther(env, key, value, HostVar);
    }
    if key != OriginsVar {
      GetenvOther(env, key, value, OriginsVar);
    }
  }

  /** The environment together with the keep-alive duration last loaded from it. */
  class Config {
    var env: Env
    var keepAlive: int

    constructor(env0: Env)
      ensures env == env0 && keepAlive == DefaultKeepAlive
    {
      env := env0;
      keepAlive := DefaultKeepAlive;
    }

    /** Sets the variable `key` to `value`; the loaded duration is not reloaded. */
    method Setenv(key: string, value: string)
      modifies this
      ensures env == old(env)[key := value]
      ensures keepAlive == old(keepAlive)
    {
      env := env[key := value];
    }

    /** Reloads the keep-alive duration from the current environment. */
    method LoadConfig()
      modifies this
      ensures env == old(env)
      ensures keepAlive == KeepAliveValue(Getenv(env, KeepAliveVar))
      ensures keepAlive >= 0
    {
      keepAlive := DefaultKeepAlive;
      var raw := Getenv(env, KeepAliveVar);
      if raw != "" {
        LoadKeepAlive(raw);
      }
    }

    /**
     * Reads a non-empty setting: an integer is seconds, otherwise a duration; a
     * negative value is stored as the largest duration, and an unreadable one
     * leaves the stored duration as it was.
     */
    method LoadKeepAlive(raw: string)
      requires raw != ""
      modifies this`keepAlive
      ensures ParseInt(raw).None? && ParseDuration(raw).None? ==> keepAlive == old(keepAlive)
      ensures ParseInt(raw).Some? || ParseDuration(raw).Some? ==> keepAlive == KeepAliveValue(raw)
    {
      var n := ParseInt(raw);
      if n.Some? {
        var d := n.value * Second;
        if d < 0 {
          keepAlive := MaxInt64;
        } else {
          keepAlive := d;
        }
      } else {
        var parsed := ParseDuration(raw);
        if parsed.Some? {
          var d := parsed.value;
          if d < 0 {
            keepAlive := MaxInt64;
          } else {
            keepAlive := d;
          }
        }
      }
    }
  }
}
