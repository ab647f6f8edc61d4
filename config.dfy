/**
  `infrastructure/config.rs`: `AppConfig::from_env`. The process environment is a map from
  variable names to their (Unicode) values; a name that is absent reads as unset.
*/
module Config {
  import opened Wrappers
  import opened Text

  const HOST_VAR: string := "HOST"
  const PORT_VAR: string := "PORT"
  const DATABASE_URL_VAR: string := "DATABASE_URL"
  const JWT_SECRET_VAR: string := "JWT_SECRET"
  const CORS_ORIGINS_VAR: string := "CORS_ORIGINS"

  const DEFAULT_HOST: string := "127.0.0.1"
  const DEFAULT_PORT: string := "8080"
  const DEFAULT_CORS_ORIGINS: string := "*"

  datatype AppConfig = AppConfig(host: string, port: nat, databaseUrl: string, jwtSecret: string,
                                 corsOrigins: seq<string>)

  /** `std::env::var(name).unwrap_or_else(|_| default)` */
  function VarOr(env: map<string, string>, name: string, default: string): (v: string)
    ensures name in env ==> v == env[name]
    ensures name !in env ==> v == default
  {
    if name in env then env[name] else default
  }

  /**
    The text of the `ParseIntError` that `str::parse::<u16>` returns for `s`. After an optional
    `+`, `from_str_radix` reads one character at a time from the left: a character that is not
    a digit stops it with an invalid digit, and a running value past 65535 stops it with an
    overflow. So the overflow is reported exactly when the leading run of digits is already
    too large, whatever follows it.
  */
  function ParseIntErrorText(s: string): (m: string)
    ensures s == [] ==> m == "cannot parse integer from empty string"
    ensures s != [] ==>
      var ds := if s[0] == '+' then s[1..] else s;
      (m == "number too large to fit in target type" <==> DecimalValue(DigitPrefix(ds)) >= 0x1_0000)
    ensures s != [] && m != "number too large to fit in target type" ==> m == "invalid digit found in string"
    ensures s != [] && ParseU16(s).None? && m == "invalid digit found in string" ==>
      var ds := if s[0] == '+' then s[1..] else s;
      ds == [] || exists i :: 0 <= i < |ds| && !IsDigit(ds[i])
  {
    var ds := if s != [] && s[0] == '+' then s[1..] else s;
    if s == [] then "cannot parse integer from empty string"
    else if DecimalValue(DigitPrefix(ds)) >= 0x1_0000 then "number too large to fit in target type"
    else "invalid digit found in string"
  }

  /** The scan stops at the overflow before it reaches a later character: digits worth 65536
      or more, followed by anything, give the overflow text (`"70000x"`, `"65536a"`). */
  lemma OverflowBeforeBadCharacter(run: string, rest: string)
    requires run != [] && forall i :: 0 <= i < |run| ==> IsDigit(run[i])
    requires DecimalValue(run) >= 0x1_0000
    ensures ParseIntErrorText(run + rest) == "number too large to fit in target type"
  {
    var s := run + rest;
    assert s[0] == run[0] && IsDigit(run[0]) && s[0] != '+';
    DigitPrefixCovers(run, rest);
    DecimalValueGrows(run, DigitPrefix(s));
    assert DecimalValue(DigitPrefix(s)) >= 0x1_0000;
  }

  /** `map(f)` over a list of strings. */
  function Map(f: string -> string, xs: seq<string>): (ys: seq<string>)
    ensures |ys| == |xs| && forall j :: 0 <= j < |xs| ==> ys[j] == f(xs[j])
  {
    seq(|xs|, j requires 0 <= j < |xs| => f(xs[j]))
  }

  /** `map` works element by element, so it keeps order. */
  lemma MapConcat(f: string -> string, a: seq<string>, b: seq<string>)
    ensures Map(f, a + b) == Map(f, a) + Map(f, b)
  {
    var l, r := Map(f, a + b), Map(f, a) + Map(f, b);
    forall j | 0 <= j < |l| ensures l[j] == r[j] {
      if j < |a| {
        assert (a + b)[j] == a[j];
      } else {
        assert (a + b)[j] == b[j - |a|];
      }
    }
  }

  /** The `map(|s| s.trim())` step: every piece trimmed, in the order given. */
  function TrimAll(pieces: seq<string>): (ts: seq<string>)
    ensures |ts| == |pieces| && forall j :: 0 <= j < |pieces| ==> ts[j] == Trim(pieces[j])
    ensures forall j :: 0 <= j < |ts| ==> ts[j] == [] || Tight(ts[j])
  {
    forall j | 0 <= j < |pieces| ensures Trim(pieces[j]) == [] || Tight(Trim(pieces[j])) {
      TrimIsTight(pieces[j]);
    }
    Map(Trim, pieces)
  }

  /** The `filter(|s| !s.is_empty())` step: the empty strings dropped, the others kept in
      order. */
  function DropEmpty(ts: seq<string>): (r: seq<string>)
    ensures |r| <= |ts|
    ensures forall i :: 0 <= i < |r| ==> r[i] != [] && r[i] in ts
  {
    if ts == [] then []
    else
      var rest := DropEmpty(ts[1..]);
      assert forall x :: x in ts[1..] ==> x in ts;
      if ts[0] == [] then rest else [ts[0]] + rest
  }

  /** Nothing non-empty is lost by the filter. */
  lemma {:induction false} DropEmptyKeeps(ts: seq<string>)
    ensures forall j :: 0 <= j < |ts| && ts[j] != [] ==> ts[j] in DropEmpty(ts)
  {
    if ts != [] {
      DropEmptyKeeps(ts[1..]);
      forall j | 0 <= j < |ts| && ts[j] != [] ensures ts[j] in DropEmpty(ts) {
        if j > 0 {
          assert ts[j] == ts[1..][j - 1];
        }
      }
    }
  }

  /** The filter works element by element, so it keeps order. */
  lemma {:induction false} DropEmptyConcat(a: seq<string>, b: seq<string>)
    ensures DropEmpty(a + b) == DropEmpty(a) + DropEmpty(b)
  {
    if a == [] {
      assert a + b == b;
    } else {
      assert (a + b)[0] == a[0];
      assert (a + b)[1..] == a[1..] + b;
      DropEmptyConcat(a[1..], b);
      if a[0] != [] {
        assert [a[0]] + (DropEmpty(a[1..]) + DropEmpty(b)) == ([a[0]] + DropEmpty(a[1..])) + DropEmpty(b);
      }
    }
  }

  /** A list with no empty string passes the filter unchanged. */
  lemma {:induction false} DropEmptyOfNonEmpty(ts: seq<string>)
    requires forall i :: 0 <= i < |ts| ==> ts[i] != []
    ensures DropEmpty(ts) == ts
  {
    if ts != [] {
      DropEmptyOfNonEmpty(ts[1..]);
    }
  }

  /** The two steps together: every kept piece is trimmed and non-empty. */
  function NonEmptyTrimmed(pieces: seq<string>): (r: seq<string>)
    ensures |r| <= |pieces|
    ensures forall i :: 0 <= i < |r| ==> Tight(r[i])
  {
    DropEmpty(TrimAll(pieces))
  }

  /** Nothing is lost and nothing is made up: every piece that is not blank after trimming is
      in the result, trimmed, and every origin in the result is a piece, trimmed. */
  lemma NonEmptyTrimmedKeepsPieces(pieces: seq<string>)
    ensures forall j :: 0 <= j < |pieces| && Trim(pieces[j]) != [] ==> Trim(pieces[j]) in NonEmptyTrimmed(pieces)
    ensures forall i :: 0 <= i < |NonEmptyTrimmed(pieces)| ==> NonEmptyTrimmed(pieces)[i] in TrimAll(pieces)
  {
    DropEmptyKeeps(TrimAll(pieces));
  }

  /** The pipeline keeps order: a list cut in two gives the two results one after the other. */
  lemma NonEmptyTrimmedConcat(a: seq<string>, b: seq<string>)
    ensures NonEmptyTrimmed(a + b) == NonEmptyTrimmed(a) + NonEmptyTrimmed(b)
  {
    MapConcat(Trim, a, b);
    DropEmptyConcat(TrimAll(a), TrimAll(b));
  }

  /** A character that no piece holds is in no resulting origin. */
  lemma NonEmptyTrimmedKeepsAbsent(pieces: seq<string>, c: char)
    requires forall j :: 0 <= j < |pieces| ==> c !in pieces[j]
    ensures forall i :: 0 <= i < |NonEmptyTrimmed(pieces)| ==> c !in NonEmptyTrimmed(pieces)[i]
  {
    forall j | 0 <= j < |pieces| ensures c !in TrimAll(pieces)[j] {
      TrimKeepsAbsent(pieces[j], c);
    }
  }

  /** The `cors_origins` pipeline: split the raw value on `,`, trim, drop empties. */
  function CorsOrigins(raw: string): (origins: seq<string>)
    ensures forall i :: 0 <= i < |origins| ==> Tight(origins[i])
  {
    NonEmptyTrimmed(Split(raw, ','))
  }

  /** The origins are exactly the non-blank comma-separated pieces of the raw value, trimmed:
      `Split` cuts at every comma and nowhere else (its pieces join back to `raw`). */
  lemma CorsOriginsArePieces(raw: string)
    ensures var pieces, origins := Split(raw, ','), CorsOrigins(raw);
      && (forall j :: 0 <= j < |pieces| && Trim(pieces[j]) != [] ==> Trim(pieces[j]) in origins)
      && (forall i :: 0 <= i < |origins| ==> origins[i] in TrimAll(pieces))
  {
    NonEmptyTrimmedKeepsPieces(Split(raw, ','));
  }

  /** `AppConfig::from_env`: `HOST`, `PORT` and `CORS_ORIGINS` have defaults; the port must
      parse as a `u16`; `DATABASE_URL` and `JWT_SECRET` must be set. The first failure wins. */
  function FromEnv(env: map<string, string>): (r: Result<AppConfig, string>)
    ensures r.Ok? <==>
      && ParseU16(VarOr(env, PORT_VAR, DEFAULT_PORT)).Some?
      && DATABASE_URL_VAR in env && JWT_SECRET_VAR in env
    ensures ParseU16(VarOr(env, PORT_VAR, DEFAULT_PORT)).None? ==>
      r == Err("invalid PORT: " + ParseIntErrorText(VarOr(env, PORT_VAR, DEFAULT_PORT)))
    ensures ParseU16(VarOr(env, PORT_VAR, DEFAULT_PORT)).Some? && DATABASE_URL_VAR !in env ==>
      r == Err("DATABASE_URL must be set")
    ensures ParseU16(VarOr(env, PORT_VAR, DEFAULT_PORT)).Some? && DATABASE_URL_VAR in env && JWT_SECRET_VAR !in env ==>
      r == Err("JWT_SECRET must be set")
    ensures r.Ok? ==>
      && r.value.host == VarOr(env, HOST_VAR, DEFAULT_HOST)
      && Some(r.value.port) == ParseU16(VarOr(env, PORT_VAR, DEFAULT_PORT)) && r.value.port < 0x1_0000
      && r.value.databaseUrl == env[DATABASE_URL_VAR] && r.value.jwtSecret == env[JWT_SECRET_VAR]
      && r.value.corsOrigins == CorsOrigins(VarOr(env, CORS_ORIGINS_VAR, DEFAULT_CORS_ORIGINS))
  {
    DefaultPortParses();
    var host := VarOr(env, HOST_VAR, DEFAULT_HOST);
    var portText := VarOr(env, PORT_VAR, DEFAULT_PORT);
    match ParseU16(portText)
    case None => Err("invalid PORT: " + ParseIntErrorText(portText))
    case Some(port) =>
      if DATABASE_URL_VAR !in env then Err("DATABASE_URL must be set")
      else if JWT_SECRET_VAR !in env then Err("JWT_SECRET must be set")
      else Ok(AppConfig(host, port, env[DATABASE_URL_VAR], env[JWT_SECRET_VAR],
                        CorsOrigins(VarOr(env, CORS_ORIGINS_VAR, DEFAULT_CORS_ORIGINS))))
  }

  lemma DefaultPortParses()
    ensures ParseU16(DEFAULT_PORT) == Some(8080)
  {
    assert Decimal(8080) == DEFAULT_PORT;
    ParseU16OfDecimal(8080);
  }

  /** With only the two required variables set, the server listens on 127.0.0.1:8080 and
      allows any origin. */
  lemma DefaultsWhenUnset(databaseUrl: string, jwtSecret: string)
    ensures FromEnv(map[DATABASE_URL_VAR := databaseUrl, JWT_SECRET_VAR := jwtSecret])
      == Ok(AppConfig(DEFAULT_HOST, 8080, databaseUrl, jwtSecret, ["*"]))
  {
    var env := map[DATABASE_URL_VAR := databaseUrl, JWT_SECRET_VAR := jwtSecret];
    assert HOST_VAR !in env && PORT_VAR !in env && CORS_ORIGINS_VAR !in env;
    DefaultPortParses();
    assert CorsOrigins(DEFAULT_CORS_ORIGINS) == ["*"] by {
      assert Join(["*"], ',') == DEFAULT_CORS_ORIGINS;
      OriginsRoundTrip(["*"]);
    }
  }

  /** No origin in the list contains a comma. */
  lemma OriginsHaveNoComma(raw: string)
    ensures forall i :: 0 <= i < |CorsOrigins(raw)| ==> ',' !in CorsOrigins(raw)[i]
  {
    NonEmptyTrimmedKeepsAbsent(Split(raw, ','), ',');
  }

  /** Pieces that trim to non-empty origins give exactly those origins, in order. */
  lemma PaddedPiecesKept(pieces: seq<string>, origins: seq<string>)
    requires |pieces| == |origins|
    requires forall i :: 0 <= i < |pieces| ==> Trim(pieces[i]) == origins[i] && origins[i] != []
    ensures NonEmptyTrimmed(pieces) == origins
  {
    assert TrimAll(pieces) == origins;
    DropEmptyOfNonEmpty(origins);
  }

  /** A list that is already clean survives the pipeline unchanged. */
  lemma CleanListKept(origins: seq<string>)
    requires forall i :: 0 <= i < |origins| ==> Tight(origins[i])
    ensures NonEmptyTrimmed(origins) == origins
  {
    forall i | 0 <= i < |origins| ensures Trim(origins[i]) == origins[i] {
      TightIsTrimmed(origins[i]);
    }
    PaddedPiecesKept(origins, origins);
  }

  /** Writing a list of clean origins comma-separated into `CORS_ORIGINS` gives back that
      list, in the same order. */
  lemma OriginsRoundTrip(origins: seq<string>)
    requires |origins| >= 1
    requires forall i :: 0 <= i < |origins| ==> Tight(origins[i]) && ',' !in origins[i]
    ensures CorsOrigins(Join(origins, ',')) == origins
  {
    SplitJoin(origins, ',');
    CleanListKept(origins);
  }

  /** Comma-joined pieces that trim to non-empty, comma-free origins give back those origins
      in order. */
  lemma PaddedOriginsRoundTrip(pieces: seq<string>, origins: seq<string>)
    requires |pieces| == |origins| >= 1
    requires forall i :: 0 <= i < |pieces| ==> Trim(pieces[i]) == origins[i] && origins[i] != [] && ',' !in pieces[i]
    ensures CorsOrigins(Join(pieces, ',')) == origins
  {
    SplitJoin(pieces, ',');
    PaddedPiecesKept(pieces, origins);
  }

  /** The usual way of writing the variable, with a space after the comma
      (`https://a.com, https://b.com`), gives the two origins in order. */
  lemma TwoOriginsWithSpace(a: string, b: string)
    requires Tight(a) && Tight(b) && ',' !in a && ',' !in b
    ensures CorsOrigins(a + ", " + b) == [a, b]
  {
    TightIsTrimmed(a);
    TrimLeadingSpace(b);
    JoinTwo(a, " " + b, ',');
    assert a + ", " + b == a + [','] + (" " + b);
    PaddedOriginsRoundTrip([a, " " + b], [a, b]);
  }

  /** `CORS_ORIGINS` set to the empty string is not the default: it allows no origin at all. */
  lemma EmptyVariableAllowsNothing()
    ensures CorsOrigins("") == []
  {
    assert Join([""], ',') == "";
    SplitJoin([""], ',');
    assert TrimAll([""]) == [""];
  }
}
