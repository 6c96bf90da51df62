/**
 * The client of the VPN panel's HTTP API. The panel's own user table is
 * the `remote` field of the client: every request the client makes reads
 * or writes it, and how the panel answers during one call (token issued
 * or refused, reads answered, writes accepted) is the `Net` parameter.
 */
module Panel {
  import opened Wrappers
  import opened PyStr
  import Repository

  const DaySeconds: int := 24 * 60 * 60
  /** Tokens are treated as valid for 25 minutes after they are issued. */
  const TokenLifetime: int := 25 * 60
  const AuthError := "Ошибка аутентификации API"
  const NotVisibleError := "Пользователь не появился в выдаче Marzban после создания. Попробуйте позже или обратитесь к администратору."
  /** `create_new_user` polls for the new user this many times. */
  const CreationPolls: nat := 3
  /** The placeholder that stands for the username in a cached subscription URL template. */
  const UsernamePlaceholder := "{username}"

  /** The settings object of one proxy protocol. */
  type ProxySettings = map<string, string>
  /** A user's `proxies`: protocol name to its settings. */
  type Proxies = map<string, ProxySettings>

  /**
   * A user as the panel returns it. `expire` and `dataLimit` are `None`
   * when the panel reports no value; `status` and `note` likewise.
   */
  datatype PanelUser = PanelUser(
    username: string,
    proxies: Proxies,
    status: Option<string>,
    expire: Option<int>,
    dataLimit: Option<int>,
    note: Option<string>)

  /**
   * How the panel answers during one operation: whether the token endpoint
   * issues a token (and which), whether reads are answered, and whether
   * writes are accepted with status 200, and the error text the bot
   * reports when a write is refused.
   */
  datatype Net = Net(authOk: bool, issued: string, readOk: bool, writeOk: bool, refusal: string)

  // ---------------------------------------------------------------------
  // Expiry arithmetic (`extend_user_subscription`)
  // ---------------------------------------------------------------------

  /** `current_expire and current_expire > now`: a running subscription; 0 and null count as none. */
  predicate Running(expire: Option<int>, now: int) {
    expire.Some? && expire.value != 0 && expire.value > now
  }

  /** The paid time still left on the subscription, in seconds. */
  function Remaining(expire: Option<int>, now: int): (s: nat)
    ensures Running(expire, now) <==> s > 0
  {
    if Running(expire, now) then expire.value - now else 0
  }

  /**
   * The new expiry after paying for `days` days: added to a running
   * subscription, otherwise counted from now. Time already paid for is
   * never lost.
   */
  function NewExpiry(expire: Option<int>, days: int, now: int): (e: int)
    ensures e == now + Remaining(expire, now) + days * DaySeconds
    ensures e >= now + days * DaySeconds
    ensures Running(expire, now) ==> e - days * DaySeconds == expire.value
  {
    if Running(expire, now) then expire.value + days * DaySeconds
    else now + days * DaySeconds
  }

  /** Two extensions in a row give what one extension by the sum gives. */
  lemma ExtensionsAdd(expire: Option<int>, a: int, b: int, now: int)
    requires a >= 1 && now >= 0
    ensures NewExpiry(Some(NewExpiry(expire, a, now)), b, now) == NewExpiry(expire, a + b, now)
  {
    var e := NewExpiry(expire, a, now);
    assert e - now == Remaining(expire, now) + a * DaySeconds;
    assert Running(Some(e), now);
  }

  // ---------------------------------------------------------------------
  // Proxy payloads
  // ---------------------------------------------------------------------

  /** The protocols `create_new_user` knows, in lower case. */
  predicate KnownProtocol(p: string) {
    p == "vless" || p == "vmess" || p == "trojan" || p == "shadowsocks"
  }

  const VisionFlow: ProxySettings := map["flow" := "xtls-rprx-vision"]

  /** The settings a known protocol is created with. */
  function CreationSettings(p: string): ProxySettings {
    if p == "vless" then VisionFlow else map[]
  }

  /** The proxies the loop over `protocols` fills in, one known protocol after another. */
  function KnownProxies(protocols: seq<string>): (m: Proxies)
    ensures forall k :: k in m ==> KnownProtocol(k) && m[k] == CreationSettings(k)
    ensures forall j :: 0 <= j < |protocols| && KnownProtocol(Lower(protocols[j])) ==> Lower(protocols[j]) in m
    ensures forall k :: k in m ==> exists j :: 0 <= j < |protocols| && Lower(protocols[j]) == k
  {
    if |protocols| == 0 then map[]
    else
      var init := protocols[..|protocols| - 1];
      var m := KnownProxies(init);
      var k := Lower(protocols[|protocols| - 1]);
      assert forall j :: 0 <= j < |init| ==> init[j] == protocols[j];
      if KnownProtocol(k) then m[k := CreationSettings(k)] else m
  }

  lemma KnownProxiesStep(list: seq<string>, i: nat)
    requires i < |list|
    ensures var k := Lower(list[i]);
      KnownProxies(list[..i + 1]) == if KnownProtocol(k) then KnownProxies(list[..i])[k := CreationSettings(k)] else KnownProxies(list[..i])
  {
    assert list[..i + 1][..i] == list[..i];
  }

  /**
   * The proxies of a new user: an empty protocol list means `["vless"]`;
   * unknown protocols are ignored; when none is known, vless with the
   * vision flow.
   */
  function CreationProxies(protocols: seq<string>): (m: Proxies)
    ensures m != map[]
    ensures forall k :: k in m ==> KnownProtocol(k) && m[k] == CreationSettings(k)
    ensures |protocols| == 0 ==> m == map["vless" := VisionFlow]
  {
    var m := KnownProxies(if |protocols| == 0 then ["vless"] else protocols);
    if m == map[] then
      var fallback := map["vless" := VisionFlow];
      assert "vless" in fallback;
      fallback
    else m
  }

  /** The configured default `["vless"]` gives the same proxies as an empty list: vless with the vision flow. */
  lemma DefaultProtocolProxies()
    ensures CreationProxies(["vless"]) == map["vless" := VisionFlow]
  {
    var list := ["vless"];
    assert Lower(list[0]) == "vless";
    assert list[..0] == [];
    KnownProxiesStep(list, 0);
    assert list[..1] == list;
  }

  /** The loop of `create_new_user` that fills the proxies dictionary. */
  method BuildProxies(protocols: seq<string>) returns (proxies: Proxies)
    ensures proxies == CreationProxies(protocols)
  {
    var list := protocols;
    if |list| == 0 {
      list := ["vless"];
    }
    proxies := map[];
    var i := 0;
    while i < |list|
      invariant 0 <= i <= |list|
      invariant proxies == KnownProxies(list[..i])
    {
      var proto := Lower(list[i]);
      KnownProxiesStep(list, i);
      if proto == "vless" {
        proxies := proxies["vless" := VisionFlow];
      } else if proto == "vmess" {
        proxies := proxies["vmess" := map[]];
      } else if proto == "trojan" {
        proxies := proxies["trojan" := map[]];
      } else if proto == "shadowsocks" {
        proxies := proxies["shadowsocks" := map[]];
      }
      i := i + 1;
    }
    assert list[..i] == list;
    if proxies == map[] {
      proxies := map["vless" := VisionFlow];
    }
  }

  /** The proxies `update_user` sends back: trojan dropped in any letter case; bare vless when nothing is left. */
  function UpdateProxies(current: Proxies): (m: Proxies)
    ensures m != map[]
    ensures forall k :: k in m ==> Lower(k) != "trojan"
    ensures forall k :: k in current && Lower(k) != "trojan" ==> k in m && m[k] == current[k]
    ensures (forall k :: k in current ==> Lower(k) == "trojan") ==> m == map["vless" := map[]]
  {
    var kept := map k | k in current && Lower(k) != "trojan" :: current[k];
    if kept == map[] then
      var fallback: Proxies := map["vless" := map[]];
      assert "vless" in fallback;
      fallback
    else kept
  }

  /** The loop of `update_user` that copies every non-trojan proxy. */
  method FilterProxies(current: Proxies) returns (kept: Proxies)
    ensures kept == UpdateProxies(current)
  {
    kept := map[];
    var todo := current.Keys;
    while todo != {}
      invariant todo <= current.Keys
      invariant kept == map k | k in current && k !in todo && Lower(k) != "trojan" :: current[k]
      decreases |todo|
    {
      var k :| k in todo;
      if Lower(k) != "trojan" {
        kept := kept[k := current[k]];
      }
      todo := todo - {k};
    }
    if kept == map[] {
      kept := map["vless" := map[]];
    }
  }

  /** The body `update_user` sends with PUT. */
  datatype UserUpdate = UserUpdate(username: string, proxies: Proxies, status: string, expire: Option<int>, dataLimit: Option<int>)

  /**
   * `update_user(username, **kwargs)` with the keyword arguments `status`
   * and `expire` (`None` when not passed): the given value wins, otherwise
   * the user's own value is kept; status falls back to `active`.
   */
  function UpdatePayload(current: PanelUser, status: Option<string>, expire: Option<int>): (u: UserUpdate)
    ensures u.username == current.username
    ensures u.proxies == UpdateProxies(current.proxies)
    ensures status.Some? ==> u.status == status.value
    ensures status.None? && current.status.Some? ==> u.status == current.status.value
    ensures status.None? && current.status.None? ==> u.status == "active"
    ensures u.expire == if expire.Some? then expire else current.expire
    ensures u.dataLimit == current.dataLimit
  {
    UserUpdate(current.username, UpdateProxies(current.proxies),
      status.GetOr(current.status.GetOr("active")),
      if expire.Some? then expire else current.expire,
      current.dataLimit)
  }

  /** The user after the panel accepted an update: the sent fields replaced, the note untouched. */
  function Applied(current: PanelUser, u: UserUpdate): (r: PanelUser)
    ensures r.note == current.note && r.username == current.username
    ensures r.proxies == u.proxies && r.status == Some(u.status) && r.expire == u.expire && r.dataLimit == u.dataLimit
  {
    current.(proxies := u.proxies, status := Some(u.status), expire := u.expire, dataLimit := u.dataLimit)
  }

  /** A paid extension leaves the user active, trojan-free, with the extended expiry. */
  lemma ExtensionResult(current: PanelUser, days: int, now: int)
    ensures var r := Applied(current, UpdatePayload(current, Some("active"), Some(NewExpiry(current.expire, days, now))));
      && r.status == Some("active")
      && r.expire == Some(NewExpiry(current.expire, days, now))
      && r.proxies != map[]
      && (forall k :: k in r.proxies ==> Lower(k) != "trojan")
      && r.note == current.note
      && r.dataLimit == current.dataLimit
  {
  }

  // ---------------------------------------------------------------------
  // The identity marker in the panel's note
  // ---------------------------------------------------------------------

  const MarkerHead := "Telegram ID: "

  /** `" | ".join([f"Telegram ID: {id}", f"@{username}" if truthy])`. */
  function SyncNote(tid: int, telegramUsername: Option<string>): (n: string)
    ensures StartsWith(n, Repository.IdMarker(tid))
  {
    var m := Repository.IdMarker(tid);
    var n := m + (if Truthy(telegramUsername) then " | @" + telegramUsername.value else "");
    assert n[..|m|] == m;
    n
  }

  /** The number of characters before the first `|`, or all of them. */
  function UntilBar(s: string): (n: nat)
    ensures n <= |s|
    ensures forall i :: 0 <= i < n ==> s[i] != '|'
    ensures n < |s| ==> s[n] == '|'
  {
    if |s| == 0 || s[0] == '|' then 0 else 1 + UntilBar(s[1..])
  }

  /** A match of `Telegram ID: \d+[^|]*` starts at the head of `s`. */
  predicate SegmentAtHead(s: string) {
    StartsWith(s, MarkerHead) && |s| > |MarkerHead| && IsDigit(s[|MarkerHead|])
  }

  /** The length of that match: the marker, its first digit, then everything up to the next `|`. */
  function SegmentLength(s: string): (n: nat)
    requires SegmentAtHead(s)
    ensures |MarkerHead| < n <= |s|
  {
    |MarkerHead| + 1 + UntilBar(s[|MarkerHead| + 1..])
  }

  /** `re.sub(r'Telegram ID: \d+[^|]*', rep, s)`: every match, left to right, replaced by `rep`. */
  function SubMarker(s: string, rep: string): (r: string)
    decreases |s|
  {
    if |s| == 0 then ""
    else if SegmentAtHead(s) then rep + SubMarker(s[SegmentLength(s)..], rep)
    else [s[0]] + SubMarker(s[1..], rep)
  }

  /** When the substitution changed anything, it wrote the replacement somewhere. */
  lemma {:induction false} SubMarkerWrites(s: string, rep: string)
    requires SubMarker(s, rep) != s
    ensures Contains(SubMarker(s, rep), rep)
    decreases |s|
  {
    if SegmentAtHead(s) {
      ContainsAt(SubMarker(s, rep), 0, rep);
    } else {
      assert [s[0]] + s[1..] == s;
      SubMarkerWrites(s[1..], rep);
      var t := SubMarker(s[1..], rep);
      ContainsWitness(t, rep);
      var i :| OccursAt(t, rep, i);
      assert ([s[0]] + t)[i + 1..i + 1 + |rep|] == t[i..i + |rep|];
      ContainsAt([s[0]] + t, i + 1, rep);
    }
  }

  /** A string with one match covering all of it is replaced whole. */
  lemma SubMarkerWhole(s: string, rep: string)
    requires SegmentAtHead(s) && '|' !in s
    ensures SubMarker(s, rep) == rep
  {
    var tail := s[|MarkerHead| + 1..];
    assert forall i :: 0 <= i < |tail| ==> tail[i] == s[|MarkerHead| + 1 + i];
    assert UntilBar(tail) == |tail|;
    assert s[SegmentLength(s)..] == "";
  }

  /** `f"{current} | {note}" if current else note`. */
  function Appended(current: string, note: string): (r: string)
    ensures Contains(r, note)
  {
    if current != "" then
      var r := current + " | " + note;
      assert r[|current| + 3..|current| + 3 + |note|] == note;
      ContainsAt(r, |current| + 3, note);
      r
    else
      ContainsAt(note, 0, note);
      note
  }

  /** The note text `update_user_note` computes before its final `.strip()`. */
  function MergedNoteText(current: string, note: string): string {
    if current != "" && Contains(current, "Telegram ID:") then
      var replaced := SubMarker(current, Strip(note));
      if replaced == current then Appended(current, note) else replaced
    else Appended(current, note)
  }

  /**
   * The note `update_user_note` stores, as written: an existing marker
   * segment is replaced by the new note, and when that changes nothing the
   * note is appended.
   */
  function MergeNoteAsWritten(current: Option<string>, note: string): (r: string)
    ensures |note| > 0 && Strip(note) == note ==> Contains(r, note)
  {
    MergedNoteKeepsNote(current.GetOr(""), note);
    Strip(MergedNoteText(current.GetOr(""), note))
  }

  lemma MergedNoteKeepsNote(current: string, note: string)
    ensures |note| > 0 && Strip(note) == note ==> Contains(Strip(MergedNoteText(current, note)), note)
  {
    if |note| > 0 && Strip(note) == note {
      if current != "" && Contains(current, "Telegram ID:") && SubMarker(current, note) != current {
        SubMarkerWrites(current, note);
      }
      StripContains(MergedNoteText(current, note), note);
    }
  }

  /**
   * Syncing the same identity twice does not leave the note alone: a note
   * that is exactly the marker of chat `tid` (what the first sync of a chat
   * without a username writes) is replaced by itself, the replacement is
   * seen to change nothing, and the marker is appended a second time.
   */
  lemma MergeAsWrittenRepeatsMarker(tid: nat)
    ensures var m := Repository.IdMarker(tid);
      MergeNoteAsWritten(Some(m), m) == m + " | " + m
  {
    var m := Repository.IdMarker(tid);
    var digits := IntToString(tid);
    assert m == MarkerHead + digits;
    assert Contains(m, "Telegram ID:") by {
      assert m[..12] == "Telegram ID:";
      ContainsAt(m, 0, "Telegram ID:");
    }
    assert Strip(m) == m by {
      StripNoEdges(m);
    }
    assert SubMarker(m, m) == m by {
      assert m[|MarkerHead|] == digits[0];
      assert '|' !in m by {
        IntToStringHasNoSeparators(tid, '|');
        assert forall i :: |MarkerHead| <= i < |m| ==> m[i] == digits[i - |MarkerHead|];
      }
      SubMarkerWhole(m, m);
    }
    var twice := m + " | " + m;
    assert MergedNoteText(m, m) == twice;
    assert Strip(twice) == twice by {
      StripNoEdges(twice);
    }
  }

  /**
   * The note merge as intended: a note that already holds the identity
   * stays as it is; otherwise the marker segment is replaced or the note
   * appended, as written.
   */
  function MergeNote(current: Option<string>, note: string): (r: string)
    ensures |note| > 0 && Strip(note) == note ==> Contains(r, note)
    ensures Contains(current.GetOr(""), note) ==> r == Strip(current.GetOr(""))
    ensures !Contains(current.GetOr(""), note) ==> r == MergeNoteAsWritten(current, note)
  {
    var cur := current.GetOr("");
    if Contains(cur, note) then
      StripKeepsNote(cur, note);
      Strip(cur)
    else MergeNoteAsWritten(current, note)
  }

  lemma StripKeepsNote(s: string, note: string)
    requires Contains(s, note)
    ensures |note| > 0 && Strip(note) == note ==> Contains(Strip(s), note)
  {
    if |note| > 0 && Strip(note) == note {
      StripContains(s, note);
    }
  }

  /** Syncing the same identity a second time leaves the note as the first sync left it. */
  lemma MergeNoteIdempotent(current: Option<string>, note: string)
    requires |note| > 0 && Strip(note) == note
    ensures MergeNote(Some(MergeNote(current, note)), note) == MergeNote(current, note)
  {
    var r := MergeNote(current, note);
    assert Contains(r, note);
    StripShape(r);
    if |r| > 0 {
      assert !IsSpace(r[0]) && !IsSpace(r[|r| - 1]);
    }
    StripNoEdges(r);
  }

  // ---------------------------------------------------------------------
  // Token freshness
  // ---------------------------------------------------------------------

  /** `_ensure_authenticated`'s test: no (or an empty) token, or the token's time is up. */
  predicate NeedsAuth(token: Option<string>, expires: Option<int>, now: int) {
    !Truthy(token) || (expires.Some? && now >= expires.value)
  }

  /** A token issued at `issuedAt` is reused for exactly the next 25 minutes. */
  lemma TokenWindow(token: string, issuedAt: int, now: int)
    requires token != ""
    ensures NeedsAuth(Some(token), Some(issuedAt + TokenLifetime), now) <==> now >= issuedAt + TokenLifetime
  {
  }

  /** A subscription link probed by `test_subscription_url`: the format's name, its URL and whether it works. */
  datatype Probe = Probe(name: string, url: string, works: bool)

  /** The index of the first working probe that is not the API's own link. */
  function FirstWorking(probes: seq<Probe>): (r: Option<nat>)
    ensures r.Some? ==> r.value < |probes| && probes[r.value].works && probes[r.value].name != "api_provided"
    ensures r.Some? ==> forall j :: 0 <= j < r.value ==> !probes[j].works || probes[j].name == "api_provided"
    ensures r.None? ==> forall j :: 0 <= j < |probes| ==> !probes[j].works || probes[j].name == "api_provided"
  {
    if |probes| == 0 then None
    else if probes[0].works && probes[0].name != "api_provided" then Some(0)
    else match FirstWorking(probes[1..])
      case None => None
      case Some(k) => Some(k + 1)
  }

  /**
   * The polls after a creation: up to `CreationPolls` lookups, stopping at
   * the first that sees the user; `seen[k]` says whether poll `k` does.
   */
  method PollCreated(seen: seq<bool>) returns (found: bool)
    ensures found <==> exists k :: 0 <= k < CreationPolls && k < |seen| && seen[k]
  {
    var attempt := 0;
    while attempt < CreationPolls
      invariant 0 <= attempt <= CreationPolls
      invariant forall k :: 0 <= k < attempt ==> !(k < |seen| && seen[k])
    {
      if attempt < |seen| && seen[attempt] {
        return true;
      }
      attempt := attempt + 1;
    }
    return false;
  }

  /** `base_url.rstrip('/')`. */
  function TrimSlashes(s: string): (r: string)
    ensures |r| <= |s|
    ensures r == s[..|r|]
    ensures |r| > 0 ==> r[|r| - 1] != '/'
    ensures forall i :: |r| <= i < |s| ==> s[i] == '/'
    decreases |s|
  {
    if |s| > 0 && s[|s| - 1] == '/' then TrimSlashes(s[..|s| - 1]) else s
  }

  class PanelClient {
    const baseUrl: string
    var token: Option<string>
    var tokenExpires: Option<int>
    /** The subscription URL template that last worked, with the username as `{username}`. */
    var cachedFormat: Option<string>
    /** The panel's user table, keyed by username. */
    var remote: map<string, PanelUser>

    constructor (url: string, users: map<string, PanelUser>)
      ensures baseUrl == TrimSlashes(url)
      ensures token == None && tokenExpires == None && cachedFormat == None
      ensures remote == users
    {
      baseUrl := TrimSlashes(url);
      token := None;
      tokenExpires := None;
      cachedFormat := None;
      remote := users;
    }

    /** Whether requests made now are authorised: the token is fresh, or a new one is issued. */
    predicate CanCall(net: Net, now: int)
      reads this
    {
      !NeedsAuth(token, tokenExpires, now) || net.authOk
    }

    /** The token fields after `_ensure_authenticated` at `now`: renewed iff needed and issued. */
    twostate predicate AuthStep(net: Net, now: int)
      reads this
    {
      if NeedsAuth(old(token), old(tokenExpires), now) && net.authOk then
        token == Some(net.issued) && tokenExpires == Some(now + TokenLifetime)
      else
        token == old(token) && tokenExpires == old(tokenExpires)
    }

    /** `authenticate`: a new token valid for 25 minutes, or nothing changes. */
    method Authenticate(net: Net, now: int) returns (ok: bool)
      modifies this
      ensures ok == net.authOk
      ensures ok ==> token == Some(net.issued) && tokenExpires == Some(now + TokenLifetime)
      ensures !ok ==> token == old(token) && tokenExpires == old(tokenExpires)
      ensures remote == old(remote) && cachedFormat == old(cachedFormat)
    {
      if net.authOk {
        token := Some(net.issued);
        tokenExpires := Some(now + TokenLifetime);
        ok := true;
      } else {
        ok := false;
      }
    }

    /** `_ensure_authenticated`: re-authenticates iff there is no token or it has run out. */
    method EnsureAuthenticated(net: Net, now: int) returns (ok: bool)
      modifies this
      ensures ok == old(CanCall(net, now))
      ensures AuthStep(net, now)
      ensures remote == old(remote) && cachedFormat == old(cachedFormat)
    {
      if NeedsAuth(token, tokenExpires, now) {
        ok := Authenticate(net, now);
      } else {
        ok := true;
      }
    }

    /** `get_user`: the user, or nothing when unauthorised, unanswered or unknown. */
    method GetUser(username: string, net: Net, now: int) returns (r: Option<PanelUser>)
      modifies this
      ensures r.Some? <==> old(CanCall(net, now)) && net.readOk && username in remote
      ensures r.Some? ==> r.value == remote[username]
      ensures AuthStep(net, now)
      ensures remote == old(remote) && cachedFormat == old(cachedFormat)
    {
      var authed := EnsureAuthenticated(net, now);
      if !authed || !net.readOk || username !in remote {
        return None;
      }
      return Some(remote[username]);
    }

    /** `check_username_availability`: free iff the lookup finds nothing. */
    method CheckUsernameAvailability(username: string, net: Net, now: int) returns (free: bool)
      modifies this
      ensures !free <==> old(CanCall(net, now)) && net.readOk && username in remote
      ensures AuthStep(net, now)
      ensures remote == old(remote) && cachedFormat == old(cachedFormat)
    {
      var user := GetUser(username, net, now);
      free := user.None?;
    }

    /**
     * `update_user` with the keyword arguments `status` and `expire`: the
     * user is read again and the full payload is sent with PUT.
     */
    method UpdateUser(username: string, status: Option<string>, expire: Option<int>, net: Net, now: int)
      returns (ok: bool)
      modifies this
      ensures ok <==> old(CanCall(net, now)) && net.readOk && username in old(remote) && net.writeOk
      ensures ok ==> remote == old(remote)[username := Applied(old(remote)[username], UpdatePayload(old(remote)[username], status, expire))]
      ensures !ok ==> remote == old(remote)
      ensures AuthStep(net, now)
      ensures cachedFormat == old(cachedFormat)
    {
      var authed := EnsureAuthenticated(net, now);
      if !authed {
        return false;
      }
      var current := GetUser(username, net, now);
      if current.None? {
        return false;
      }
      var user := current.value;
      var proxies := FilterProxies(user.proxies);
      var payload := UserUpdate(user.username, proxies, status.GetOr(user.status.GetOr("active")),
        if expire.Some? then expire else user.expire, user.dataLimit);
      if !net.writeOk {
        return false;
      }
      remote := remote[username := Applied(user, payload)];
      ok := true;
    }

    /**
     * `extend_user_subscription`: fails without writing when the user is
     * not found; otherwise sends the extended expiry with status `active`.
     */
    method ExtendUserSubscription(username: string, days: int, net: Net, now: int) returns (ok: bool)
      modifies this
      ensures ok <==> old(CanCall(net, now)) && net.readOk && username in old(remote) && net.writeOk
      ensures ok ==> remote == old(remote)[username := Applied(old(remote)[username],
        UpdatePayload(old(remote)[username], Some("active"), Some(NewExpiry(old(remote)[username].expire, days, now))))]
      ensures ok ==> remote[username].expire == Some(NewExpiry(old(remote)[username].expire, days, now))
      ensures ok ==> remote[username].status == Some("active")
      ensures !ok ==> remote == old(remote)
      ensures AuthStep(net, now)
      ensures cachedFormat == old(cachedFormat)
    {
      var user := GetUser(username, net, now);
      if user.None? {
        return false;
      }
      var newExpire := NewExpiry(user.value.expire, days, now);
      ok := UpdateUser(username, Some("active"), Some(newExpire), net, now);
    }

    /**
     * `create_new_user`: the user is posted with the creation proxies,
     * status `active`, the note (or one naming the creation time) and an
     * expiry only for a trial of at least one day; success is reported only
     * when one of three polls sees the user. `seen[k]` says whether poll
     * `k` finds it.
     */
    method CreateNewUser(username: string, protocols: seq<string>, trialDays: int, note: string,
                         stamp: string, net: Net, now: int, seen: seq<bool>)
      returns (ok: bool, reason: string)
      modifies this
      ensures !old(CanCall(net, now)) ==> !ok && reason == AuthError && remote == old(remote)
      ensures old(CanCall(net, now)) && net.writeOk ==> remote == old(remote)[username := PanelUser(username,
        CreationProxies(protocols), Some("active"), if trialDays > 0 then Some(now + trialDays * DaySeconds) else None,
        None, Some(if note != "" then note else "Created by bot at " + stamp))]
      ensures old(CanCall(net, now)) && net.writeOk ==> cachedFormat == None
      ensures !(old(CanCall(net, now)) && net.writeOk) ==> remote == old(remote) && cachedFormat == old(cachedFormat)
      ensures ok <==> old(CanCall(net, now)) && net.writeOk && exists k :: 0 <= k < CreationPolls && k < |seen| && seen[k]
      ensures ok ==> reason == ""
      ensures old(CanCall(net, now)) && !net.writeOk ==> reason == net.refusal
      ensures AuthStep(net, now)
    {
      var authed := EnsureAuthenticated(net, now);
      if !authed {
        return false, AuthError;
      }
      var proxies := BuildProxies(protocols);
      var expire := if trialDays > 0 then Some(now + trialDays * DaySeconds) else None;
      var user := PanelUser(username, proxies, Some("active"), expire, None,
        Some(if note != "" then note else "Created by bot at " + stamp));
      if !net.writeOk {
        return false, net.refusal;
      }
      remote := remote[username := user];
      cachedFormat := None;
      ok := PollCreated(seen);
      reason := if ok then "" else NotVisibleError;
    }

    /**
     * `update_user_note`: merges the note into the user's current note and
     * stores the result; fails when unauthorised, when the user is not
     * found or when the panel refuses the write.
     */
    method UpdateUserNote(username: string, note: string, net: Net, now: int) returns (ok: bool)
      modifies this
      ensures ok <==> old(CanCall(net, now)) && net.readOk && username in old(remote) && net.writeOk
      ensures ok ==> remote == old(remote)[username := old(remote)[username].(note := Some(MergeNote(old(remote)[username].note, note)))]
      ensures !ok ==> remote == old(remote)
      ensures AuthStep(net, now)
      ensures cachedFormat == old(cachedFormat)
    {
      var authed := EnsureAuthenticated(net, now);
      if !authed {
        return false;
      }
      var current := GetUser(username, net, now);
      if current.None? {
        return false;
      }
      var merged := MergeNote(current.value.note, note);
      if !net.writeOk {
        return false;
      }
      remote := remote[username := current.value.(note := Some(merged))];
      ok := true;
    }

    /** `sync_telegram_id_to_marzban_notes`: writes the chat's identity into the user's note. */
    method SyncTelegramIdToNotes(username: string, tid: int, telegramUsername: Option<string>, net: Net, now: int)
      returns (ok: bool)
      modifies this
      ensures ok <==> old(CanCall(net, now)) && net.readOk && username in old(remote) && net.writeOk
      ensures ok ==> username in remote && remote[username].note.Some?
      ensures ok ==> remote == old(remote)[username := old(remote)[username].(note := Some(MergeNote(old(remote)[username].note, SyncNote(tid, telegramUsername))))]
      ensures !ok ==> remote == old(remote)
      ensures AuthStep(net, now)
      ensures cachedFormat == old(cachedFormat)
    {
      ok := UpdateUserNote(username, SyncNote(tid, telegramUsername), net, now);
    }

    /**
     * `get_working_subscription_url`. `apiUrl` is the link the panel's API
     * reports for the user, `working` the URLs a quick probe accepts, and
     * `probes` the formats `test_subscription_url` tries, in order. The
     * API's link wins when it works, then the cached template; a failing
     * template is dropped; a link from the API is returned even when the
     * quick probe failed; otherwise the first working format is returned
     * and cached as a template.
     */
    method GetWorkingSubscriptionUrl(username: string, apiUrl: Option<string>, working: set<string>, probes: seq<Probe>)
      returns (r: Option<string>)
      modifies this
      ensures remote == old(remote) && token == old(token) && tokenExpires == old(tokenExpires)
      ensures ApiWorks(apiUrl, working) ==> r == apiUrl && cachedFormat == old(cachedFormat)
      ensures !ApiWorks(apiUrl, working) && CacheWorks(old(cachedFormat), username, working) ==>
        r == Some(CachedUrl(old(cachedFormat).value, username)) && cachedFormat == old(cachedFormat)
      ensures (!ApiWorks(apiUrl, working) && !CacheWorks(old(cachedFormat), username, working)) ==>
        r == (if Truthy(apiUrl) then apiUrl else FirstWorkingUrl(probes))
      ensures (!ApiWorks(apiUrl, working) && !CacheWorks(old(cachedFormat), username, working)) ==>
        cachedFormat == (if !Truthy(apiUrl) && FirstWorking(probes).Some? then NewTemplate(probes, username)
                         else if Truthy(old(cachedFormat)) then None else old(cachedFormat))
    {
      if Truthy(apiUrl) && apiUrl.value in working {
        return apiUrl;
      }
      if Truthy(cachedFormat) {
        var cached := CachedUrl(cachedFormat.value, username);
        if cached in working {
          return Some(cached);
        }
        cachedFormat := None;
      }
      if Truthy(apiUrl) {
        return apiUrl;
      }
      var i := 0;
      while i < |probes|
        invariant 0 <= i <= |probes|
        invariant forall j :: 0 <= j < i ==> !probes[j].works || probes[j].name == "api_provided"
        invariant cachedFormat == if Truthy(old(cachedFormat)) then None else old(cachedFormat)
      {
        if probes[i].works && probes[i].name != "api_provided" {
          FirstWorkingAt(probes, i);
          cachedFormat := Some(Replace(probes[i].url, username, UsernamePlaceholder));
          return Some(probes[i].url);
        }
        i := i + 1;
      }
      assert FirstWorking(probes).None?;
      return None;
    }
  }

  /** The API's own link is there and passes the quick probe. */
  predicate ApiWorks(apiUrl: Option<string>, working: set<string>) {
    Truthy(apiUrl) && apiUrl.value in working
  }

  /** The URL a cached template gives for a user. */
  function CachedUrl(template: string, username: string): string {
    Replace(template, UsernamePlaceholder, username)
  }

  /** A cached template is there and its link for the user passes the quick probe. */
  predicate CacheWorks(cached: Option<string>, username: string, working: set<string>) {
    Truthy(cached) && CachedUrl(cached.value, username) in working
  }

  /** The URL of the first working format, if any. */
  function FirstWorkingUrl(probes: seq<Probe>): Option<string> {
    match FirstWorking(probes)
    case None => None
    case Some(k) => Some(probes[k].url)
  }

  /** The template cached from the first working format: its URL with the username as the placeholder. */
  function NewTemplate(probes: seq<Probe>, username: string): Option<string> {
    match FirstWorking(probes)
    case None => None
    case Some(k) => Some(Replace(probes[k].url, username, UsernamePlaceholder))
  }

  /** The first working probe is the one no earlier probe precedes. */
  lemma {:induction false} FirstWorkingAt(probes: seq<Probe>, i: nat)
    requires i < |probes| && probes[i].works && probes[i].name != "api_provided"
    requires forall j :: 0 <= j < i ==> !probes[j].works || probes[j].name == "api_provided"
    ensures FirstWorking(probes) == Some(i)
    decreases i
  {
    if i > 0 {
      FirstWorkingAt(probes[1..], i - 1);
    }
  }
}
