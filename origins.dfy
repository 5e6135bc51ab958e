/**
 * The list of allowed request origins: the comma-separated entries of the
 * setting, trimmed and without empty ones, in the order given, followed by the
 * fixed list of local and application origins.
 */
module OriginList {
  import opened Text

  /** The local hosts that are always allowed. */
  const LocalHosts: seq<string> := ["localhost", "127.0.0.1", "0.0.0.0"]

  /** The application schemes that are always allowed. */
  const AppOrigins: seq<string> := ["app://*", "file://*", "tauri://*"]

  /** Each host over http and https, without a port and with any port. */
  function HostPatterns(hosts: seq<string>): (r: seq<string>)
    ensures |r| == 4 * |hosts|
  {
    if hosts == [] then []
    else
      var h := hosts[0];
      ["http://" + h, "https://" + h, "http://" + h + ":*", "https://" + h + ":*"]
        + HostPatterns(hosts[1..])
  }

  /** The origins allowed whatever the setting says. */
  function BuiltinOrigins(): (r: seq<string>)
    ensures |r| == 15
  {
    HostPatterns(LocalHosts) + AppOrigins
  }

  /** The builtin list, spelled out entry by entry. */
  lemma BuiltinOriginsListed()
    ensures BuiltinOrigins() == [
      "http://localhost", "https://localhost", "http://localhost:*", "https://localhost:*",
      "http://127.0.0.1", "https://127.0.0.1", "http://127.0.0.1:*", "https://127.0.0.1:*",
      "http://0.0.0.0", "https://0.0.0.0", "http://0.0.0.0:*", "https://0.0.0.0:*",
      "app://*", "file://*", "tauri://*"]
  {
    var hs := LocalHosts;
    assert hs[1..][1..][1..] == [];
    PatternsOf("0.0.0.0", hs[1..][1..][1..]);
    assert "http://" + "0.0.0.0" == "http://0.0.0.0";
    assert "https://" + "0.0.0.0" == "https://0.0.0.0";
    assert "http://" + "0.0.0.0" + ":*" == "http://0.0.0.0:*";
    assert "https://" + "0.0.0.0" + ":*" == "https://0.0.0.0:*";
    PatternsOf("127.0.0.1", hs[1..][1..]);
    assert "http://" + "127.0.0.1" == "http://127.0.0.1";
    assert "https://" + "127.0.0.1" == "https://127.0.0.1";
    assert "http://" + "127.0.0.1" + ":*" == "http://127.0.0.1:*";
    assert "https://" + "127.0.0.1" + ":*" == "https://127.0.0.1:*";
    PatternsOf("localhost", hs[1..]);
    assert "http://" + "localhost" == "http://localhost";
    assert "https://" + "localhost" == "https://localhost";
    assert "http://" + "localhost" + ":*" == "http://localhost:*";
    assert "https://" + "localhost" + ":*" == "https://localhost:*";
  }

  lemma PatternsOf(h: string, hosts: seq<string>)
    ensures HostPatterns([h] + hosts) ==
      ["http://" + h, "https://" + h, "http://" + h + ":*", "https://" + h + ":*"] + HostPatterns(hosts)
  {
    assert ([h] + hosts)[1..] == hosts;
  }

  /** The trimmed pieces, with the empty ones dropped, in their order. */
  function Entries(pieces: seq<string>): (r: seq<string>)
    requires forall i :: 0 <= i < |pieces| ==> ',' !in pieces[i]
    ensures |r| <= |pieces|
    ensures forall i :: 0 <= i < |r| ==> r[i] != [] && TrimSpace(r[i]) == r[i]
  {
    if pieces == [] then []
    else
      var e := TrimSpace(pieces[0]);
      TrimSpaceOfTrimmed(e);
      var rest := Entries(pieces[1..]);
      if e == [] then rest else [e] + rest
  }

  /** The origins the user lists in the setting `raw`. */
  function UserOrigins(raw: string): (r: seq<string>)
    ensures forall i :: 0 <= i < |r| ==> r[i] != [] && TrimSpace(r[i]) == r[i]
  {
    Entries(Split(raw, ','))
  }

  /** The full allow-list: the user's origins, then the builtin ones. */
  function AllowedOrigins(raw: string): (r: seq<string>)
    ensures |r| >= 15
    ensures r[|r| - 15..] == BuiltinOrigins()
    ensures r[..|r| - 15] == UserOrigins(raw)
  {
    UserOrigins(raw) + BuiltinOrigins()
  }

  lemma {:induction false} EntriesOfClean(xs: seq<string>)
    requires forall i :: 0 <= i < |xs| ==> xs[i] != [] && ',' !in xs[i] && TrimSpace(xs[i]) == xs[i]
    ensures Entries(xs) == xs
  {
    if xs != [] {
      EntriesOfClean(xs[1..]);
      assert [xs[0]] + xs[1..] == xs;
    }
  }

  /** Clean entries joined by commas come back in the same order. */
  lemma UserOriginsOfJoin(xs: seq<string>)
    requires forall i :: 0 <= i < |xs| ==> xs[i] != [] && ',' !in xs[i] && TrimSpace(xs[i]) == xs[i]
    ensures UserOrigins(Join(xs, ',')) == xs
  {
    if xs == [] {
      assert Split([], ',') == [[]];
      TrimSpaceOfTrimmed([]);
    } else {
      SplitJoin(xs, ',');
      EntriesOfClean(xs);
    }
  }

  /** The entries of two runs of pieces are the entries of the first run, then those of the second. */
  lemma {:induction false} EntriesAppend(xs: seq<string>, ys: seq<string>)
    requires forall i :: 0 <= i < |xs| ==> ',' !in xs[i]
    requires forall i :: 0 <= i < |ys| ==> ',' !in ys[i]
    ensures Entries(xs + ys) == Entries(xs) + Entries(ys)
  {
    if xs == [] {
      assert xs + ys == ys;
    } else {
      assert (xs + ys)[0] == xs[0];
      assert (xs + ys)[1..] == xs[1..] + ys;
      EntriesAppend(xs[1..], ys);
    }
  }

  /** A setting without a comma lists its trimmed text, or nothing when that is empty. */
  lemma UserOriginsSingle(a: string)
    requires ',' !in a
    ensures UserOrigins(a) == if TrimSpace(a) == [] then [] else [TrimSpace(a)]
  {
    SplitNoSep(a, ',');
  }

  /** A first entry before a comma comes first, followed by the entries after the comma. */
  lemma UserOriginsAppend(a: string, b: string)
    requires ',' !in a
    ensures UserOrigins(a + "," + b) == UserOrigins(a) + UserOrigins(b)
  {
    SplitAfterPiece(a, ',', b);
    assert a + "," + b == a + [','] + b;
    EntriesAppend([a], Split(b, ','));
    UserOriginsSingle(a);
  }

  /** Any comma-free pieces joined by commas give their entries: trimmed, empty ones dropped, in order. */
  lemma UserOriginsOfPieces(ps: seq<string>)
    requires forall i :: 0 <= i < |ps| ==> ',' !in ps[i]
    ensures UserOrigins(Join(ps, ',')) == Entries(ps)
  {
    if ps == [] {
      assert Split([], ',') == [[]];
      TrimSpaceOfTrimmed([]);
    } else {
      SplitJoin(ps, ',');
    }
  }

  /** An empty setting allows only the builtin origins. */
  lemma AllowedOriginsEmpty()
    ensures AllowedOrigins("") == BuiltinOrigins()
  {
    UserOriginsOfJoin([]);
  }
}
