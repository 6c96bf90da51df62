/**
 * Process configuration read from the environment: the Telegram token,
 * the panel URL and credentials, the database path and the list of
 * administrator chat ids, plus the fixed settings for self-registered
 * accounts.
 */
module Config {
  import opened Wrappers
  import opened PyStr

  /** The process environment: variable name to value. */
  type Env = map<string, string>

  function GetEnv(env: Env, name: string): Option<string> {
    if name in env then Some(env[name]) else None
  }

  // ---------------------------------------------------------------------
  // ADMIN_IDS
  // ---------------------------------------------------------------------

  /** The ids contributed by comma-separated tokens: each stripped token made of digits only. */
  function AdminIdsFrom(tokens: seq<string>): (ids: seq<int>)
    ensures |ids| <= |tokens|
    ensures forall i :: 0 <= i < |ids| ==> ids[i] >= 0
    decreases |tokens|
  {
    if |tokens| == 0 then []
    else
      var t := Strip(tokens[0]);
      (if IsDigits(t) then [RunValue(t) as int] else []) + AdminIdsFrom(tokens[1..])
  }

  /** `ADMIN_IDS`: unset or empty gives no administrators; otherwise the numeric tokens in order. */
  function ParseAdminIds(raw: Option<string>): (ids: seq<int>)
    ensures !Truthy(raw) ==> ids == []
    ensures forall i :: 0 <= i < |ids| ==> ids[i] >= 0
  {
    if !Truthy(raw) then [] else AdminIdsFrom(Split(raw.value, ','))
  }

  function Decimals(ids: seq<nat>): (r: seq<string>)
    ensures |r| == |ids|
    ensures forall i :: 0 <= i < |r| ==> r[i] == NatToString(ids[i])
  {
    if |ids| == 0 then [] else [NatToString(ids[0])] + Decimals(ids[1..])
  }

  lemma {:induction false} AdminIdsFromDecimals(ids: seq<nat>)
    ensures AdminIdsFrom(Decimals(ids)) == ids
    decreases |ids|
  {
    if |ids| > 0 {
      var t := NatToString(ids[0]);
      StripNoEdges(t);
      NatToStringValue(ids[0]);
      assert Decimals(ids)[1..] == Decimals(ids[1..]);
      AdminIdsFromDecimals(ids[1..]);
      assert [ids[0]] + ids[1..] == ids;
    }
  }

  /** Writing administrator ids as a comma-separated list and parsing it gives the same ids back. */
  lemma AdminIdsRoundTrip(ids: seq<nat>)
    ensures ParseAdminIds(Some(Join(",", Decimals(ids)))) == ids
  {
    if |ids| > 0 {
      var parts := Decimals(ids);
      forall i | 0 <= i < |parts|
        ensures ',' !in parts[i]
      {
        IntToStringHasNoSeparators(ids[i], ',');
      }
      SplitJoin(parts, ',');
      assert Join([','], parts) == Join(",", parts);
      AdminIdsFromDecimals(ids);
      assert |Join(",", parts)| > 0 by {
        JoinFirstPart(",", parts);
      }
    }
  }

  lemma JoinFirstPart(sep: string, parts: seq<string>)
    requires |parts| > 0
    ensures |Join(sep, parts)| >= |parts[0]|
  {
  }

  lemma {:induction false} AdminIdsFromConcat(a: seq<string>, b: seq<string>)
    ensures AdminIdsFrom(a + b) == AdminIdsFrom(a) + AdminIdsFrom(b)
    decreases |a|
  {
    if |a| > 0 {
      assert (a + b)[1..] == a[1..] + b;
      AdminIdsFromConcat(a[1..], b);
    } else {
      assert a + b == b;
    }
  }

  /** A token that is not all digits after stripping (a sign, a letter, nothing) adds no administrator. */
  lemma AdminIdsSkipNonNumeric(raw: string, junk: string)
    requires |raw| > 0 && ',' !in junk && !IsDigits(Strip(junk))
    ensures ParseAdminIds(Some(raw + "," + junk)) == ParseAdminIds(Some(raw))
  {
    assert raw + "," + junk == raw + [','] + junk;
    SplitConcat(raw, junk, ',');
    SplitAbsent(junk, ',');
    AdminIdsFromConcat(Split(raw, ','), [junk]);
  }

  // ---------------------------------------------------------------------
  // The Config class attributes
  // ---------------------------------------------------------------------

  /** The configuration attributes read from the environment at import time. */
  datatype Settings = Settings(
    telegramToken: Option<string>,
    marzbanUrl: Option<string>,
    marzbanUsername: Option<string>,
    marzbanPassword: Option<string>,
    databasePath: string,
    adminIds: seq<int>)

  const DefaultDatabasePath := "users_database.db"

  function FromEnv(env: Env): Settings {
    Settings(
      GetEnv(env, "TELEGRAM_TOKEN"),
      GetEnv(env, "MARZBAN_URL"),
      GetEnv(env, "MARZBAN_USERNAME"),
      GetEnv(env, "MARZBAN_PASSWORD"),
      GetEnv(env, "DATABASE_PATH").GetOr(DefaultDatabasePath),
      ParseAdminIds(GetEnv(env, "ADMIN_IDS")))
  }

  /** `Config.is_admin`: the chat id is one of the configured administrators. */
  predicate IsAdmin(c: Settings, chatId: int) {
    chatId in c.adminIds
  }

  /** An administrator list written into ADMIN_IDS grants exactly those chat ids. */
  lemma IsAdminFromEnv(env: Env, ids: seq<nat>, chatId: int)
    requires "ADMIN_IDS" in env && env["ADMIN_IDS"] == Join(",", Decimals(ids))
    ensures IsAdmin(FromEnv(env), chatId) <==> chatId in ids
  {
    AdminIdsRoundTrip(ids);
  }

  /** A reason `Config.validate` refuses the configuration. */
  datatype ConfigProblem = ParamNotSet(name: string) | NoAdmins

  function RequiredParams(c: Settings): seq<(string, Option<string>)> {
    [("TELEGRAM_TOKEN", c.telegramToken),
     ("MARZBAN_URL", c.marzbanUrl),
     ("MARZBAN_USERNAME", c.marzbanUsername),
     ("MARZBAN_PASSWORD", c.marzbanPassword)]
  }

  function MissingParams(params: seq<(string, Option<string>)>): (r: seq<ConfigProblem>)
    ensures forall n :: ParamNotSet(n) in r <==> exists i :: 0 <= i < |params| && params[i].0 == n && !Truthy(params[i].1)
    ensures NoAdmins !in r
    ensures r == [] <==> forall i :: 0 <= i < |params| ==> Truthy(params[i].1)
    ensures |r| <= |params|
    decreases |params|
  {
    if |params| == 0 then []
    else
      var rest := MissingParams(params[1..]);
      assert forall i :: 1 <= i < |params| ==> params[i] == params[1..][i - 1];
      if Truthy(params[0].1) then rest else [ParamNotSet(params[0].0)] + rest
  }

  /** `Config.validate`: every problem found, in order; an empty list means the configuration is accepted. */
  function Validate(c: Settings): (problems: seq<ConfigProblem>)
    ensures problems == [] <==>
      Truthy(c.telegramToken) && Truthy(c.marzbanUrl) && Truthy(c.marzbanUsername)
      && Truthy(c.marzbanPassword) && |c.adminIds| > 0
    ensures NoAdmins in problems <==> |c.adminIds| == 0
    ensures ParamNotSet("MARZBAN_PASSWORD") in problems <==> !Truthy(c.marzbanPassword)
    ensures ParamNotSet("TELEGRAM_TOKEN") in problems <==> !Truthy(c.telegramToken)
  {
    var params := RequiredParams(c);
    var missing := MissingParams(params);
    assert params[0].0 == "TELEGRAM_TOKEN" && params[3].0 == "MARZBAN_PASSWORD";
    assert (forall i :: 0 <= i < |params| ==> Truthy(params[i].1)) <==>
      Truthy(c.telegramToken) && Truthy(c.marzbanUrl) && Truthy(c.marzbanUsername) && Truthy(c.marzbanPassword)
    by {
      assert params[1].1 == c.marzbanUrl && params[2].1 == c.marzbanUsername;
    }
    missing + (if |c.adminIds| == 0 then [NoAdmins] else [])
  }

  // ---------------------------------------------------------------------
  // NEW_USER_SETTINGS
  // ---------------------------------------------------------------------

  const UsernameMinLength: nat := 4
  const UsernameMaxLength: nat := 32
  const TrialDays: nat := 3
  const DefaultProtocols: seq<string> := ["vless"]

  predicate UsernameChar(c: char) {
    ('A' <= c <= 'Z') || ('a' <= c <= 'z') || IsDigit(c) || c == '_'
  }

  /**
   * `re.match(r"^[A-Za-z0-9_]+$", s)`: one or more allowed characters; as in
   * Python, `$` also matches just before one final newline.
   */
  predicate MatchesUsernamePattern(s: string) {
    || (|s| > 0 && forall i :: 0 <= i < |s| ==> UsernameChar(s[i]))
    || (|s| > 1 && s[|s| - 1] == '\n' && forall i :: 0 <= i < |s| - 1 ==> UsernameChar(s[i]))
  }

  /** On stripped text the pattern means exactly: non-empty, every character allowed. */
  lemma PatternOnStripped(s: string)
    requires s == Strip(s)
    ensures MatchesUsernamePattern(s) <==> |s| > 0 && forall i :: 0 <= i < |s| ==> UsernameChar(s[i])
  {
    if |s| > 0 {
      assert !IsSpace(Strip(s)[|s| - 1]);
      assert IsSpace('\n');
    }
  }
}
