/**
 * Message formatting: escaping for Telegram's MarkdownV2 and HTML parse
 * modes, the status emoji lookup, the status wording shown for a panel
 * account, and the administrator's list of pending payment requests.
 */
module Formatters {
  import opened Wrappers
  import opened PyStr

  // ---------------------------------------------------------------------
  // Backslash escaping
  // ---------------------------------------------------------------------

  /** The characters the Telegram Bot API MarkdownV2 rules reserve outside entities. */
  const MarkdownSpecial: string := "_*[]()~`>#+-=|{}.!"

  /** What `escape_markdown_v2` escapes: the backslash first, then the reserved characters. */
  const MarkdownReserved: string := "\\" + MarkdownSpecial

  /** What the local `esc` helper of the administrator's user card escapes, in its order. */
  const EscHelperChars: string := "_*[`()~>#+-=|{}.!"

  predicate Distinct(cs: seq<char>) {
    forall i, j :: 0 <= i < j < |cs| ==> cs[i] != cs[j]
  }

  /** A backslash may only come first: later replacements must not touch inserted backslashes. */
  predicate BackslashFirst(cs: seq<char>) {
    forall i :: 0 < i < |cs| ==> cs[i] != '\\'
  }

  /** Reference definition: every character of `s` that is in `cs` gets a backslash in front. */
  function EscapeChars(s: string, cs: seq<char>): string
    decreases |s|
  {
    if |s| == 0 then ""
    else (if s[0] in cs then ['\\', s[0]] else [s[0]]) + EscapeChars(s[1..], cs)
  }

  /** `for c in cs: text = text.replace(c, '\\' + c)`. */
  function EscapeFold(text: string, cs: seq<char>): string
    decreases |cs|
  {
    if |cs| == 0 then text else EscapeFold(Replace(text, [cs[0]], ['\\', cs[0]]), cs[1..])
  }

  /** How many characters of `s` are in `cs`. */
  function CountIn(s: string, cs: seq<char>): nat
    decreases |s|
  {
    if |s| == 0 then 0 else (if s[0] in cs then 1 else 0) + CountIn(s[1..], cs)
  }

  lemma {:induction false} ReplaceCharByEscape(s: string, c: char)
    ensures Replace(s, [c], ['\\', c]) == EscapeChars(s, [c])
    decreases |s|
  {
    if |s| > 0 {
      ReplaceCharByEscape(s[1..], c);
      assert StartsWith(s, [c]) <==> s[0] == c by {
        assert s[..1] == [s[0]];
      }
    }
  }

  lemma {:induction false} EscapeCharsConcat(x: string, y: string, cs: seq<char>)
    ensures EscapeChars(x + y, cs) == EscapeChars(x, cs) + EscapeChars(y, cs)
    decreases |x|
  {
    if |x| > 0 {
      assert (x + y)[1..] == x[1..] + y;
      EscapeCharsConcat(x[1..], y, cs);
    } else {
      assert x + y == y;
    }
  }

  lemma {:induction false} EscapeNothing(s: string)
    ensures EscapeChars(s, []) == s
    decreases |s|
  {
    if |s| > 0 {
      EscapeNothing(s[1..]);
      assert [s[0]] + s[1..] == s;
    }
  }

  /** Escaping `a` and then `c` is escaping `a + [c]` at once, when `c` is new and not an inserted backslash. */
  lemma {:induction false} EscapeTwice(s: string, a: seq<char>, c: char)
    requires c !in a && (c == '\\' ==> a == [])
    ensures EscapeChars(EscapeChars(s, a), [c]) == EscapeChars(s, a + [c])
    decreases |s|
  {
    if a == [] {
      EscapeNothing(s);
      assert a + [c] == [c];
    } else if |s| > 0 {
      var h := if s[0] in a then ['\\', s[0]] else [s[0]];
      var rest := EscapeChars(s[1..], a);
      assert EscapeChars(s, a) == h + rest;
      EscapeCharsConcat(h, rest, [c]);
      EscapeTwice(s[1..], a, c);
      if s[0] in a {
        assert EscapeChars(h, [c]) == ['\\', s[0]] by {
          assert h[1..] == [s[0]];
          assert EscapeChars([s[0]], [c]) == [s[0]];
        }
      } else if s[0] == c {
        assert EscapeChars(h, [c]) == ['\\', c];
      } else {
        assert EscapeChars(h, [c]) == [s[0]];
      }
      assert s[0] in a + [c] <==> s[0] in a || s[0] == c;
    }
  }

  /** The replace loop computes the reference escaping, whatever has been escaped before it. */
  lemma {:induction false} EscapeFoldChars(s: string, done: seq<char>, cs: seq<char>)
    requires Distinct(done + cs) && BackslashFirst(done + cs)
    ensures EscapeFold(EscapeChars(s, done), cs) == EscapeChars(s, done + cs)
    decreases |cs|
  {
    if |cs| == 0 {
      assert done + cs == done;
    } else {
      var c := cs[0];
      assert (done + cs)[|done|] == c;
      assert forall i :: 0 <= i < |done| ==> done[i] == (done + cs)[i];
      ReplaceCharByEscape(EscapeChars(s, done), c);
      EscapeTwice(s, done, c);
      assert done + [c] + cs[1..] == done + cs;
      EscapeFoldChars(s, done + [c], cs[1..]);
    }
  }

  /** The place of each character in `MarkdownReserved`; -1 for the others. */
  function ReservedPos(c: char): int {
    if c == '\\' then 0 else if c == '_' then 1 else if c == '*' then 2 else if c == '[' then 3
    else if c == ']' then 4 else if c == '(' then 5 else if c == ')' then 6 else if c == '~' then 7
    else if c == '`' then 8 else if c == '>' then 9 else if c == '#' then 10 else if c == '+' then 11
    else if c == '-' then 12 else if c == '=' then 13 else if c == '|' then 14 else if c == '{' then 15
    else if c == '}' then 16 else if c == '.' then 17 else if c == '!' then 18 else -1
  }

  /** The place of each character in `EscHelperChars`; -1 for the others. */
  function EscHelperPos(c: char): int {
    if c == '_' then 0 else if c == '*' then 1 else if c == '[' then 2 else if c == '`' then 3
    else if c == '(' then 4 else if c == ')' then 5 else if c == '~' then 6 else if c == '>' then 7
    else if c == '#' then 8 else if c == '+' then 9 else if c == '-' then 10 else if c == '=' then 11
    else if c == '|' then 12 else if c == '{' then 13 else if c == '}' then 14 else if c == '.' then 15
    else if c == '!' then 16 else -1
  }

  lemma ReservedShape()
    ensures Distinct(MarkdownReserved) && BackslashFirst(MarkdownReserved)
    ensures Distinct(EscHelperChars) && BackslashFirst(EscHelperChars) && '\\' !in EscHelperChars
    ensures '\\' in MarkdownReserved && ']' !in EscHelperChars
  {
    assert forall i :: 0 <= i < |MarkdownReserved| ==> ReservedPos(MarkdownReserved[i]) == i;
    assert forall i :: 0 <= i < |EscHelperChars| ==> EscHelperPos(EscHelperChars[i]) == i;
  }

  /**
   * `escape_markdown_v2`: `None` becomes `"-"`; otherwise backslashes are
   * doubled first and then every reserved character is escaped, which is the
   * same as escaping each reserved character of the input once.
   */
  function EscapeMarkdownV2(text: Option<string>): (r: string)
    ensures text.None? ==> r == "-"
    ensures text.Some? ==> r == EscapeChars(text.value, MarkdownReserved)
  {
    if text.None? then "-"
    else
      ReservedShape();
      EscapeNothing(text.value);
      EscapeFoldChars(text.value, [], MarkdownReserved);
      assert [] + MarkdownReserved == MarkdownReserved;
      EscapeFold(text.value, MarkdownReserved)
  }

  /** The local `esc` helper: falsy values become `"-"`; its seventeen characters are escaped. */
  function Esc(text: Option<string>): (r: string)
    ensures !Truthy(text) ==> r == "-"
    ensures Truthy(text) ==> r == EscapeChars(text.value, EscHelperChars)
  {
    if !Truthy(text) then "-"
    else
      ReservedShape();
      EscapeNothing(text.value);
      EscapeFoldChars(text.value, [], EscHelperChars);
      assert [] + EscHelperChars == EscHelperChars;
      EscapeFold(text.value, EscHelperChars)
  }

  /** Escaping adds exactly one backslash per escaped character. */
  lemma {:induction false} EscapeLength(s: string, cs: seq<char>)
    ensures |EscapeChars(s, cs)| == |s| + CountIn(s, cs)
    decreases |s|
  {
    if |s| > 0 {
      EscapeLength(s[1..], cs);
    }
  }

  /** Reading an escaped text back: a backslash makes the next character literal. */
  function Unescape(o: string): string
    decreases |o|
  {
    if |o| == 0 then ""
    else if o[0] == '\\' && |o| >= 2 then [o[1]] + Unescape(o[2..])
    else [o[0]] + Unescape(o[1..])
  }

  /** Dropping every escaping backslash gives the input back, provided the backslash is itself escaped. */
  lemma {:induction false} UnescapeEscape(s: string, cs: seq<char>)
    requires '\\' in cs
    ensures Unescape(EscapeChars(s, cs)) == s
    decreases |s|
  {
    if |s| > 0 {
      var o := EscapeChars(s, cs);
      var rest := EscapeChars(s[1..], cs);
      UnescapeEscape(s[1..], cs);
      if s[0] in cs {
        assert o == ['\\', s[0]] + rest;
        assert o[2..] == rest;
      } else {
        assert o == [s[0]] + rest;
        assert o[1..] == rest;
      }
      assert [s[0]] + s[1..] == s;
    }
  }

  /**
   * Text that MarkdownV2 reads as plain characters: each reserved character
   * and each backslash appears only as the second half of an escape, and
   * only characters with codes 1 to 126 are escaped.
   */
  predicate MarkdownPlain(o: string)
    decreases |o|
  {
    if |o| == 0 then true
    else if o[0] == '\\' then |o| >= 2 && 1 <= o[1] as int <= 126 && MarkdownPlain(o[2..])
    else o[0] !in MarkdownSpecial && MarkdownPlain(o[1..])
  }

  lemma {:induction false} EscapedIsPlain(s: string)
    ensures MarkdownPlain(EscapeChars(s, MarkdownReserved))
    decreases |s|
  {
    if |s| > 0 {
      var o := EscapeChars(s, MarkdownReserved);
      var rest := EscapeChars(s[1..], MarkdownReserved);
      EscapedIsPlain(s[1..]);
      ReservedShape();
      if s[0] in MarkdownReserved {
        assert o == ['\\', s[0]] + rest;
        assert o[2..] == rest;
      } else {
        assert o == [s[0]] + rest;
        assert o[1..] == rest;
        assert s[0] !in MarkdownSpecial;
      }
    }
  }

  /** Whatever the text, `escape_markdown_v2` yields what MarkdownV2 shows literally, and reads back to the text. */
  lemma MarkdownV2IsPlain(text: string)
    ensures MarkdownPlain(EscapeMarkdownV2(Some(text)))
    ensures Unescape(EscapeMarkdownV2(Some(text))) == text
  {
    EscapedIsPlain(text);
    ReservedShape();
    UnescapeEscape(text, MarkdownReserved);
  }

  /** The placeholder for a missing value, `-`, is itself a reserved character left bare. */
  lemma PlaceholderIsReserved()
    ensures !MarkdownPlain(EscapeMarkdownV2(None)) && !MarkdownPlain(Esc(None))
  {
    assert '-' in MarkdownSpecial;
  }

  /** The `esc` helper leaves `]` bare, which MarkdownV2 reserves: a note `"]"` is sent unescaped. */
  lemma EscLeavesBracket()
    ensures Esc(Some("]")) == "]"
    ensures !MarkdownPlain(Esc(Some("]")))
    ensures MarkdownPlain(EscapeMarkdownV2(Some("]")))
  {
    assert EscapeChars("]", EscHelperChars) == "]" by {
      ReservedShape();
      assert "]"[1..] == "";
    }
    assert !MarkdownPlain("]") by {
      assert "]"[0] in MarkdownSpecial;
    }
    MarkdownV2IsPlain("]");
  }

  // ---------------------------------------------------------------------
  // HTML escaping
  // ---------------------------------------------------------------------

  function HtmlChar(c: char): string {
    if c == '&' then "&amp;"
    else if c == '<' then "&lt;"
    else if c == '>' then "&gt;"
    else if c == '"' then "&quot;"
    else if c == '\'' then "&#x27;"
    else [c]
  }

  /** `escape_html`: `None` becomes the empty text; `html.escape` otherwise. */
  function EscapeHtml(text: Option<string>): (r: string)
    ensures text.None? ==> r == ""
    ensures text.Some? ==> |r| >= |text.value|
    ensures forall i :: 0 <= i < |r| ==> r[i] !in "<>\"'"
    decreases if text.Some? then |text.value| else 0
  {
    if text.None? || |text.value| == 0 then ""
    else HtmlChar(text.value[0]) + EscapeHtml(Some(text.value[1..]))
  }

  // ---------------------------------------------------------------------
  // Status wording
  // ---------------------------------------------------------------------

  const StatusEmojiKeys: seq<string> := ["active", "disabled", "expired", "limited"]

  /** `_get_status_emoji`: looked up on the lower-cased status, `❓` for anything else. */
  function StatusEmoji(status: string): (r: string)
    ensures r != "❓" <==> Lower(status) in StatusEmojiKeys
  {
    var k := Lower(status);
    if k == "active" then "✅"
    else if k == "disabled" then "❌"
    else if k == "expired" then "🚫"
    else if k == "limited" then "⚠️"
    else "❓"
  }

  lemma {:induction false} LowerIdempotent(s: string)
    ensures Lower(Lower(s)) == Lower(s)
  {
  }

  /** The lookup ignores letter case: a status and its lower-cased form get the same emoji. */
  lemma StatusEmojiIgnoresCase(status: string)
    ensures StatusEmoji(status) == StatusEmoji(Lower(status))
  {
    LowerIdempotent(status);
  }

  /** The fields of a panel account that `determine_user_status` reads; absent and null are `None`. */
  datatype PanelView = PanelView(status: Option<string>, expire: Option<int>, dataLimit: Option<int>, usedTraffic: int)

  const StatusDisabledText := "Отключен"
  const StatusExpiredText := "Истек срок действия"
  const StatusOverLimitText := "Превышен лимит трафика"
  const StatusActiveText := "Активен"

  /** The expiry is set (non-zero) and already passed at `now`. */
  predicate ExpiredAt(u: PanelView, now: int) {
    u.expire.Some? && u.expire.value != 0 && u.expire.value < now
  }

  /** A traffic limit is set (non-zero) and the used traffic reached it. */
  predicate OverLimit(u: PanelView) {
    u.dataLimit.Some? && u.dataLimit.value != 0 && u.usedTraffic >= u.dataLimit.value
  }

  /** `determine_user_status`, with the clock given as epoch seconds. */
  function DetermineUserStatus(u: PanelView, now: int): (r: string)
    ensures r == StatusDisabledText <==> u.status != Some("active")
    ensures r == StatusExpiredText <==> u.status == Some("active") && ExpiredAt(u, now)
    ensures r == StatusOverLimitText <==> u.status == Some("active") && !ExpiredAt(u, now) && OverLimit(u)
    ensures r == StatusActiveText <==> u.status == Some("active") && !ExpiredAt(u, now) && !OverLimit(u)
  {
    if u.status != Some("active") then StatusDisabledText
    else if u.expire.Some? && u.expire.value != 0 && u.expire.value < now then StatusExpiredText
    else if u.dataLimit.Some? && u.dataLimit.value != 0 && u.usedTraffic >= u.dataLimit.value then StatusOverLimitText
    else StatusActiveText
  }

  /** Moving the clock forward never turns an expired account back into a running one. */
  lemma StatusExpiryStays(u: PanelView, now: int, later: int)
    requires now <= later && DetermineUserStatus(u, now) == StatusExpiredText
    ensures DetermineUserStatus(u, later) == StatusExpiredText
  {
  }

  // ---------------------------------------------------------------------
  // Pending payment requests for the administrator
  // ---------------------------------------------------------------------

  /**
   * A pending payment request as listed. `amountText` and `createdText` are
   * the already rendered amount and creation date.
   */
  datatype PendingRow = PendingRow(
    id: int, username: Option<string>, planId: Option<string>,
    amountText: string, createdText: string, hasReceipt: bool)

  const NoPendingText := "✅ Нет ожидающих заявок на оплату."
  const MaxListed: nat := 10

  function PendingHeader(n: nat): string {
    "💰 ОЖИДАЮЩИЕ ЗАЯВКИ (" + NatToString(n) + "):\n\n"
  }

  function MoreLine(k: nat): string {
    "... и еще " + NatToString(k) + " заявок\n"
  }

  function PendingBlock(r: PendingRow): (b: string)
    ensures EndsWith(b, "\n\n")
  {
    var id := IntToString(r.id);
    var s := "🆔 Заявка #" + id + "\n"
      + "👤 " + EscapeHtml(r.username) + "\n"
      + "💰 " + r.amountText + " руб. (" + EscapeHtml(r.planId) + ")\n"
      + "📅 " + r.createdText + "\n"
      + "📎 Чек: " + (if r.hasReceipt then "✅" else "❌") + "\n"
      + "/approve " + id + " | /reject " + id + " причина\n\n";
    assert s[|s| - 2..] == "\n\n";
    s
  }

  function PendingBlocks(rows: seq<PendingRow>): string
    decreases |rows|
  {
    if |rows| == 0 then "" else PendingBlock(rows[0]) + PendingBlocks(rows[1..])
  }

  /** `format_pending_payments_message`. */
  function FormatPendingPayments(rows: seq<PendingRow>): string {
    if |rows| == 0 then NoPendingText
    else PendingHeader(|rows|) + PendingBlocks(Listed(rows)) + PendingTrailer(|rows|)
  }

  /** `requests[:10]`. */
  function Listed(rows: seq<PendingRow>): (r: seq<PendingRow>)
    ensures |r| <= MaxListed && |r| <= |rows| && r == rows[..|r|]
    ensures |rows| <= MaxListed ==> r == rows
    ensures |rows| > MaxListed ==> |r| == MaxListed
  {
    if |rows| > MaxListed then rows[..MaxListed] else rows
  }

  function PendingTrailer(n: nat): string {
    if n > MaxListed then MoreLine(n - MaxListed) else ""
  }

  /**
   * The fixed text appears exactly for an empty list; more than ten
   * requests end with the count of the ones not shown, otherwise the
   * message ends with the last request's block.
   */
  lemma PendingMessageShape(rows: seq<PendingRow>)
    ensures FormatPendingPayments(rows) == NoPendingText <==> |rows| == 0
    ensures |rows| > MaxListed ==> EndsWith(FormatPendingPayments(rows), MoreLine(|rows| - MaxListed))
    ensures 0 < |rows| <= MaxListed ==> EndsWith(FormatPendingPayments(rows), "\n\n")
  {
    if |rows| > 0 {
      var h := PendingHeader(|rows|);
      var b := PendingBlocks(Listed(rows));
      var t := PendingTrailer(|rows|);
      HeaderedDiffers(|rows|, b, t);
      if |rows| > MaxListed {
        EndsWithConcat(h + b, t);
      } else {
        PendingBlocksEnd(rows);
        EndsWithAfter(h, b, "\n\n");
        assert t == [];
        assert h + b + t == h + b;
      }
    }
  }

  /** A message that starts with the pending header is never the "nothing pending" text. */
  lemma HeaderedDiffers(n: nat, b: string, t: string)
    ensures PendingHeader(n) + b + t != NoPendingText
  {
    var m := PendingHeader(n) + b + t;
    assert m[0] == '💰';
    assert NoPendingText[0] == '✅';
  }

  lemma {:induction false} PendingBlocksEnd(rows: seq<PendingRow>)
    requires |rows| > 0
    ensures EndsWith(PendingBlocks(rows), "\n\n")
    decreases |rows|
  {
    var b := PendingBlock(rows[0]);
    var t := PendingBlocks(rows[1..]);
    assert PendingBlocks(rows) == b + t;
    if |rows| == 1 {
      assert b + t == b;
    } else {
      PendingBlocksEnd(rows[1..]);
      EndsWithAfter(b, t, "\n\n");
    }
  }

  /** Only the first ten requests and the count appear: requests after the tenth change nothing else. */
  lemma PendingListsFirstTen(a: seq<PendingRow>, b: seq<PendingRow>)
    requires |a| == |b| && |a| > MaxListed && a[..MaxListed] == b[..MaxListed]
    ensures FormatPendingPayments(a) == FormatPendingPayments(b)
  {
    assert Listed(a) == Listed(b);
  }
}
