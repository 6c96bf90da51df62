/**
 * Input validators: usernames, Telegram ids, phone numbers, file types,
 * subscription lengths, free-text sanitising and comments. Each validator
 * is a guard chain; the verdict names the first guard that failed (the
 * message texts themselves come from the text catalogue and are not part
 * of this model).
 */
module Validators {
  import opened Wrappers
  import opened PyStr
  import Config
  import Texts

  // ---------------------------------------------------------------------
  // validate_username
  // ---------------------------------------------------------------------

  datatype UsernameVerdict =
    | UsernameOk
    | UsernameEmpty
    | UsernameTooShort(min: nat)
    | UsernameTooLong(max: nat)
    | UsernameBadPattern
    | UsernameReserved(name: string)
    | UsernameUnderscoreAtEdge
    | UsernameDoubleUnderscore

  const ReservedUsernames: seq<string> :=
    ["admin", "administrator", "root", "test", "demo", "api", "bot", "system"]

  /** All the checks after stripping, in the order the guard chain applies them. */
  predicate AcceptableUsername(t: string) {
    && Config.UsernameMinLength <= |t| <= Config.UsernameMaxLength
    && Config.MatchesUsernamePattern(t)
    && Lower(t) !in ReservedUsernames
    && !StartsWith(t, "_") && !EndsWith(t, "_")
    && !Contains(t, "__")
  }

  /**
   * `validate_username` with the messages available: empty input, then on
   * the stripped text the length bounds, the pattern, the reserved words
   * (case-insensitively), an underscore at either end, a double underscore.
   */
  function ValidateUsername(username: string): (v: UsernameVerdict)
    ensures v.UsernameOk? <==> username != "" && AcceptableUsername(Strip(username))
    ensures username == "" ==> v == UsernameEmpty
    ensures v.UsernameTooShort? <==> username != "" && |Strip(username)| < Config.UsernameMinLength
    ensures v.UsernameReserved? ==> Lower(Strip(username)) in ReservedUsernames
  {
    if username == "" then UsernameEmpty
    else
      var t := Strip(username);
      if |t| < Config.UsernameMinLength then UsernameTooShort(Config.UsernameMinLength)
      else if |t| > Config.UsernameMaxLength then UsernameTooLong(Config.UsernameMaxLength)
      else if !Config.MatchesUsernamePattern(t) then UsernameBadPattern
      else if Lower(t) in ReservedUsernames then UsernameReserved(t)
      else if StartsWith(t, "_") || EndsWith(t, "_") then UsernameUnderscoreAtEdge
      else if Contains(t, "__") then UsernameDoubleUnderscore
      else UsernameOk
  }

  /** An accepted username is 4..32 characters drawn from letters, digits and `_` only. */
  lemma AcceptedUsernameShape(username: string)
    requires ValidateUsername(username).UsernameOk?
    ensures var t := Strip(username);
      4 <= |t| <= 32 && forall i :: 0 <= i < |t| ==> Config.UsernameChar(t[i])
  {
    var t := Strip(username);
    assert Strip(t) == t by { StripNoEdges(t); }
    Config.PatternOnStripped(t);
  }

  /** The catalogue key `validate_username` asks for: a file path. */
  const UsernameMessagesPathKey := "validators/validation_messages.json"

  /** The dotted key under which the catalogue stores `validators/validation_messages.json`. */
  const UsernameMessagesKey := "validators.validation_messages"

  /** `entry["username"]` succeeds: the entry is a JSON object with that field. */
  predicate HasUsernameMessages(e: Texts.Entry) {
    e.Doc? && e.doc.JObject? && "username" in e.doc.fields
  }

  /**
   * `validate_username` as written: the message lookup comes first, and
   * `None` stands for the `KeyError`/`TypeError` it raises when the entry is
   * not an object with a `username` field.
   */
  function ValidateUsernameAsWritten(cache: map<string, Texts.Entry>, username: string): (v: Option<UsernameVerdict>)
    ensures v.None? <==> !HasUsernameMessages(Texts.JsonLookup(cache, UsernameMessagesPathKey))
    ensures v.Some? ==> v.value == ValidateUsername(username)
  {
    if HasUsernameMessages(Texts.JsonLookup(cache, UsernameMessagesPathKey)) then Some(ValidateUsername(username))
    else None
  }

  /** No catalogue the directory walk can build holds a document under a key with `/`: every call raises. */
  lemma UsernameAsWrittenAlwaysRaises(files: seq<Texts.SourceFile>, username: string)
    requires forall i :: 0 <= i < |files| ==> Texts.PathNames(files[i])
    ensures ValidateUsernameAsWritten(Texts.LoadAll(map[], files), username).None?
  {
    var cache := Texts.LoadAll(map[], files);
    Texts.DocKeysHaveNoSlash(map[], files);
    PathKeyHasSlash();
    PathKeyMissesDocuments(cache, UsernameMessagesPathKey);
  }

  lemma PathKeyHasSlash()
    ensures '/' in UsernameMessagesPathKey
  {
    assert UsernameMessagesPathKey[10] == '/';
  }

  lemma PathKeyMissesDocuments(cache: map<string, Texts.Entry>, key: string)
    requires forall k :: k in cache && cache[k].Doc? ==> '/' !in k
    requires '/' in key
    ensures !HasUsernameMessages(Texts.JsonLookup(cache, key))
  {
  }

  /**
   * A messages file `dir/stem.json` is found under the dotted key
   * `dir.stem` and never under its path `dir/stem.json`.
   */
  lemma DottedKeyFindsMessages(dir: string, stem: string, content: string, fields: map<string, Texts.Json>)
    requires dir != "" && '.' !in dir && '/' !in dir && '/' !in stem
    requires |stem| > 0 && stem[0] != '.' && "username" in fields
    ensures var f := Texts.SourceFile([dir], stem + ".json", content, Texts.JObject(fields));
      && HasUsernameMessages(Texts.JsonLookup(Texts.LoadAll(map[], [f]), dir + "." + stem))
      && !HasUsernameMessages(Texts.JsonLookup(Texts.LoadAll(map[], [f]), dir + "/" + stem + ".json"))
  {
    var f := Texts.SourceFile([dir], stem + ".json", content, Texts.JObject(fields));
    Texts.JsonFileKey(dir, stem, content, Texts.JObject(fields));
    assert '/' !in stem + ".json";
    assert Texts.PathNames(f);
    Texts.DocKeysHaveNoSlash(map[], [f]);
    var path := dir + "/" + stem + ".json";
    assert path[|dir|] == '/';
    PathKeyMissesDocuments(Texts.LoadAll(map[], [f]), path);
  }

  // ---------------------------------------------------------------------
  // validate_telegram_id
  // ---------------------------------------------------------------------

  /** The argument of `int(...)`: already an int, or text. */
  datatype IntArg = IntValue(n: int) | TextValue(text: string)

  function ToInt(a: IntArg): Option<int> {
    match a
    case IntValue(n) => Some(n)
    case TextValue(t) => ParseInt(t)
  }

  datatype IdVerdict = IdOk | IdNotNumeric | IdNotPositive | IdTooLarge | IdTooSmall

  const MaxTelegramId: int := 0x1_0000_0000

  /** `validate_telegram_id`: an integer in 1000..2^32; the failures are checked in source order. */
  function ValidateTelegramId(a: IntArg): (v: IdVerdict)
    ensures v == IdOk <==> ToInt(a).Some? && 1000 <= ToInt(a).value <= MaxTelegramId
    ensures v == IdNotNumeric <==> ToInt(a).None?
    ensures v == IdNotPositive <==> ToInt(a).Some? && ToInt(a).value <= 0
  {
    match ToInt(a)
    case None => IdNotNumeric
    case Some(tid) =>
      if tid <= 0 then IdNotPositive
      else if tid > MaxTelegramId then IdTooLarge
      else if tid < 1000 then IdTooSmall
      else IdOk
  }

  /** Every chat id in the accepted range is accepted when written in decimal, too. */
  lemma TelegramIdTextAgrees(n: int)
    ensures ValidateTelegramId(TextValue(IntToString(n))) == ValidateTelegramId(IntValue(n))
  {
    ParseIntRoundTrip(n);
  }

  // ---------------------------------------------------------------------
  // Phone numbers
  // ---------------------------------------------------------------------

  /** `re.sub(r'[^\d+]', '', s)`: keep digits and `+`. */
  function KeepPhoneChars(s: string): (r: string)
    ensures |r| <= |s|
    ensures forall i :: 0 <= i < |r| ==> IsDigit(r[i]) || r[i] == '+'
    decreases |s|
  {
    if |s| == 0 then ""
    else (if IsDigit(s[0]) || s[0] == '+' then [s[0]] else "") + KeepPhoneChars(s[1..])
  }

  lemma {:induction false} KeepPhoneCharsIdentity(s: string)
    requires forall i :: 0 <= i < |s| ==> IsDigit(s[i]) || s[i] == '+'
    ensures KeepPhoneChars(s) == s
    decreases |s|
  {
    if |s| > 0 {
      KeepPhoneCharsIdentity(s[1..]);
      assert [s[0]] + s[1..] == s;
    }
  }

  predicate AllDigits(s: string) {
    forall i :: 0 <= i < |s| ==> IsDigit(s[i])
  }

  /** `^\+?[1-9]\d{6,14}$`: an optional `+`, then 7 to 15 digits not starting with 0. */
  predicate MatchesInternational(c: string) {
    var d := if |c| > 0 && c[0] == '+' then c[1..] else c;
    7 <= |d| <= 15 && d[0] != '0' && AllDigits(d)
  }

  /** `^(\+7|7)[0-9]{10}$`. */
  predicate MatchesRussian(c: string) {
    || (|c| == 12 && c[0] == '+' && c[1] == '7' && AllDigits(c[1..]))
    || (|c| == 11 && c[0] == '7' && AllDigits(c))
  }

  datatype PhoneVerdict = PhoneOk | PhoneEmpty | PhoneBadFormat | PhoneBadRussian

  function CleanedPhone(phone: string): string {
    KeepPhoneChars(Strip(phone))
  }

  /** `validate_phone_number`. */
  function ValidatePhoneNumber(phone: string): (v: PhoneVerdict)
    ensures v == PhoneOk <==>
      phone != "" && MatchesInternational(CleanedPhone(phone))
      && (StartsWith(CleanedPhone(phone), "+7") || StartsWith(CleanedPhone(phone), "7")
          ==> MatchesRussian(CleanedPhone(phone)))
    ensures phone == "" <==> v == PhoneEmpty
  {
    if phone == "" then PhoneEmpty
    else
      var c := CleanedPhone(phone);
      if !MatchesInternational(c) then PhoneBadFormat
      else if (StartsWith(c, "+7") || StartsWith(c, "7")) && !MatchesRussian(c) then PhoneBadRussian
      else PhoneOk
  }

  /** An accepted number carries between 7 and 15 digits, the cap of ITU-T E.164. */
  lemma AcceptedPhoneDigitCount(phone: string)
    requires ValidatePhoneNumber(phone) == PhoneOk
    ensures var c := CleanedPhone(phone);
      var d := if c[0] == '+' then c[1..] else c;
      7 <= |d| <= 15 && AllDigits(d)
  {
  }

  /** `clean_phone_number`: digits and `+` only; an 11-digit `8…` or `7…` becomes `+7…`. */
  function CleanPhoneNumber(phone: string): (r: string)
    ensures forall i :: 0 <= i < |r| ==> IsDigit(r[i]) || r[i] == '+'
  {
    if phone == "" then ""
    else
      var c := CleanedPhone(phone);
      if StartsWith(c, "8") && |c| == 11 then "+7" + c[1..]
      else if StartsWith(c, "7") && |c| == 11 then "+" + c
      else c
  }

  /** Cleaning a cleaned number changes nothing. */
  lemma CleanPhoneNumberIdempotent(phone: string)
    ensures CleanPhoneNumber(CleanPhoneNumber(phone)) == CleanPhoneNumber(phone)
  {
    var r := CleanPhoneNumber(phone);
    if r != "" {
      assert forall i :: 0 <= i < |r| ==> !IsSpace(r[i]);
      StripNoEdges(r);
      KeepPhoneCharsIdentity(r);
    }
  }

  /** `+7` followed by ten digits passes both phone patterns. */
  lemma PlusSevenValidates(r: string)
    requires |r| == 12 && r[0] == '+' && r[1] == '7' && AllDigits(r[1..])
    ensures ValidatePhoneNumber(r) == PhoneOk
  {
    assert forall i :: 0 <= i < |r| ==> IsDigit(r[i]) || r[i] == '+' by {
      forall i | 1 <= i < |r| ensures IsDigit(r[i]) { assert r[i] == r[1..][i - 1]; }
    }
    assert forall i :: 0 <= i < |r| ==> !IsSpace(r[i]);
    StripNoEdges(r);
    KeepPhoneCharsIdentity(r);
    assert CleanedPhone(r) == r;
    assert MatchesInternational(r);
    assert MatchesRussian(r);
  }

  /** Eleven digits starting 7 or 8 clean up to a number the phone validator accepts as Russian. */
  lemma CleanedRussianNumberValidates(phone: string)
    requires |phone| == 11 && AllDigits(phone) && (phone[0] == '7' || phone[0] == '8')
    ensures CleanPhoneNumber(phone) == "+7" + phone[1..]
    ensures ValidatePhoneNumber(CleanPhoneNumber(phone)) == PhoneOk
  {
    assert !IsSpace(phone[0]) && !IsSpace(phone[|phone| - 1]);
    StripNoEdges(phone);
    KeepPhoneCharsIdentity(phone);
    assert CleanedPhone(phone) == phone;
    var r := "+7" + phone[1..];
    if phone[0] == '7' {
      assert "+" + phone == r;
    }
    assert CleanPhoneNumber(phone) == r;
    assert r[1..] == phone[0 := '7'];
    PlusSevenValidates(r);
  }

  // ---------------------------------------------------------------------
  // validate_file_type
  // ---------------------------------------------------------------------

  datatype FileVerdict = FileOk | FileNameEmpty | FileNoExtension | FileTypeNotAllowed

  const DefaultAllowedTypes: seq<string> := ["jpg", "jpeg", "png", "gif", "pdf", "doc", "docx"]

  /** `file_name.lower().split('.')[-1] if '.' in file_name else ''`. */
  function Extension(fileName: string): (ext: string)
    ensures '.' !in ext
  {
    if '.' in fileName then
      var parts := Split(Lower(fileName), '.');
      parts[|parts| - 1]
    else ""
  }

  function LowerAll(xs: seq<string>): (r: seq<string>)
    ensures |r| == |xs|
    ensures forall i :: 0 <= i < |xs| ==> r[i] == Lower(xs[i])
  {
    if |xs| == 0 then [] else [Lower(xs[0])] + LowerAll(xs[1..])
  }

  /** `validate_file_type`: a non-empty extension from the allowed list, compared in lower case. */
  function ValidateFileType(fileName: string, allowed: Option<seq<string>>): (v: FileVerdict)
    ensures v == FileOk <==>
      fileName != "" && Extension(fileName) != ""
      && Extension(fileName) in LowerAll(allowed.GetOr(DefaultAllowedTypes))
    ensures v == FileNoExtension <==> fileName != "" && Extension(fileName) == ""
  {
    if fileName == "" then FileNameEmpty
    else
      var ext := Extension(fileName);
      if ext == "" then FileNoExtension
      else if ext !in LowerAll(allowed.GetOr(DefaultAllowedTypes)) then FileTypeNotAllowed
      else FileOk
  }

  lemma LowerConcat(a: string, b: string)
    ensures Lower(a + b) == Lower(a) + Lower(b)
  {
  }

  lemma {:induction false} LastOfSplitConcat(a: string, b: string, sep: char)
    requires sep !in b
    ensures var p := Split(a + [sep] + b, sep); p[|p| - 1] == b
  {
    SplitConcat(a, b, sep);
    SplitAbsent(b, sep);
  }

  /** The extension is what follows the last dot, lower-cased. */
  lemma ExtensionOfName(stem: string, ext: string)
    requires '.' !in ext
    ensures Extension(stem + "." + ext) == Lower(ext)
  {
    var name := stem + "." + ext;
    assert name[|stem|] == '.';
    LowerConcat(stem + ".", ext);
    LowerConcat(stem, ".");
    assert Lower(name) == Lower(stem) + ['.'] + Lower(ext);
    assert '.' !in Lower(ext);
    LastOfSplitConcat(Lower(stem), Lower(ext), '.');
  }

  // ---------------------------------------------------------------------
  // validate_subscription_days
  // ---------------------------------------------------------------------

  datatype DaysVerdict = DaysOk | DaysNotInteger | DaysNotPositive | DaysTooMany(max: int) | DaysRaisesAttributeError

  /** The default `max_subscription_days` the validator falls back to. */
  const MaxSubscriptionDays: int := 365

  /**
   * `validate_subscription_days` as written: after the positivity check it
   * reads `config.LIMITS`, an attribute the configuration class does not
   * define, so every positive count raises.
   */
  function ValidateSubscriptionDaysAsWritten(days: IntArg): (v: DaysVerdict)
    ensures ToInt(days).Some? && ToInt(days).value > 0 ==> v == DaysRaisesAttributeError
  {
    match ToInt(days)
    case None => DaysNotInteger
    case Some(n) => if n <= 0 then DaysNotPositive else DaysRaisesAttributeError
  }

  /** Concretely: a one-month subscription is refused with an exception rather than accepted. */
  lemma SubscriptionDaysAsWrittenRaises()
    ensures ValidateSubscriptionDaysAsWritten(IntValue(30)) == DaysRaisesAttributeError
    ensures ValidateSubscriptionDays(IntValue(30)) == DaysOk
  {
  }

  /** `validate_subscription_days` with the default limit in place of the missing attribute. */
  function ValidateSubscriptionDays(days: IntArg): (v: DaysVerdict)
    ensures v == DaysOk <==> ToInt(days).Some? && 1 <= ToInt(days).value <= MaxSubscriptionDays
    ensures v != DaysRaisesAttributeError
  {
    match ToInt(days)
    case None => DaysNotInteger
    case Some(n) =>
      if n <= 0 then DaysNotPositive
      else if n > MaxSubscriptionDays then DaysTooMany(MaxSubscriptionDays)
      else DaysOk
  }

  // ---------------------------------------------------------------------
  // sanitize_input and validate_comment
  // ---------------------------------------------------------------------

  /** The characters `sanitize_input` removes, in the order it removes them. */
  const DangerousChars: seq<char> := ['<', '>', '"', '\'', '&', '\0', '\r']

  /** `s` without the characters in `cs`. */
  function RemoveChars(s: string, cs: seq<char>): (r: string)
    ensures |r| <= |s|
    ensures forall i :: 0 <= i < |r| ==> r[i] !in cs
    ensures forall i :: 0 <= i < |r| ==> r[i] in s
    decreases |s|
  {
    if |s| == 0 then ""
    else (if s[0] in cs then "" else [s[0]]) + RemoveChars(s[1..], cs)
  }

  /** The loop over the dangerous characters: `text = text.replace(char, '')` for each in turn. */
  function DropEach(text: string, cs: seq<char>): string
    decreases |cs|
  {
    if |cs| == 0 then text else DropEach(Replace(text, [cs[0]], ""), cs[1..])
  }

  lemma {:induction false} ReplaceCharByNothing(s: string, c: char)
    ensures Replace(s, [c], "") == RemoveChars(s, [c])
    decreases |s|
  {
    if |s| > 0 {
      ReplaceCharByNothing(s[1..], c);
    }
  }

  lemma {:induction false} RemoveCharsTwice(s: string, a: seq<char>, b: seq<char>)
    ensures RemoveChars(RemoveChars(s, a), b) == RemoveChars(s, a + b)
    decreases |s|
  {
    if |s| > 0 {
      RemoveCharsTwice(s[1..], a, b);
      assert s[0] in a + b <==> s[0] in a || s[0] in b;
      if s[0] in a {
        assert RemoveChars(s, a) == RemoveChars(s[1..], a);
      } else {
        var r1 := RemoveChars(s[1..], a);
        assert RemoveChars(s, a) == [s[0]] + r1;
        assert ([s[0]] + r1)[1..] == r1;
        assert RemoveChars([s[0]] + r1, b) == (if s[0] in b then "" else [s[0]]) + RemoveChars(r1, b);
      }
    }
  }

  /** Replacing each character by nothing, one after another, removes all of them at once. */
  lemma {:induction false} DropEachRemoves(text: string, cs: seq<char>)
    ensures DropEach(text, cs) == RemoveChars(text, cs)
    decreases |cs|
  {
    if |cs| == 0 {
      RemoveNothing(text);
    } else {
      ReplaceCharByNothing(text, cs[0]);
      DropEachRemoves(RemoveChars(text, [cs[0]]), cs[1..]);
      RemoveCharsTwice(text, [cs[0]], cs[1..]);
      assert [cs[0]] + cs[1..] == cs;
    }
  }

  lemma {:induction false} RemoveNothing(s: string)
    ensures RemoveChars(s, []) == s
    decreases |s|
  {
    if |s| > 0 {
      RemoveNothing(s[1..]);
      assert [s[0]] + s[1..] == s;
    }
  }

  lemma {:induction false} RemoveAbsentChars(s: string, cs: seq<char>)
    requires forall i :: 0 <= i < |s| ==> s[i] !in cs
    ensures RemoveChars(s, cs) == s
    decreases |s|
  {
    if |s| > 0 {
      RemoveAbsentChars(s[1..], cs);
      assert [s[0]] + s[1..] == s;
    }
  }

  /** After a word that does not reach the end comes a whitespace character, which `split()` skips. */
  lemma WordsStep(s: string)
    requires |s| > 0 && !IsSpace(s[0])
    ensures Words(s) == [TakeWord(s)] + Words(s[|TakeWord(s)|..])
    ensures |TakeWord(s)| < |s| ==> Words(s[|TakeWord(s)|..]) == Words(s[|TakeWord(s)| + 1..])
  {
    var w := TakeWord(s);
    if |w| < |s| {
      assert IsSpace(s[|w|..][0]);
      assert s[|w|..][1..] == s[|w| + 1..];
    }
  }

  /** Collapsing whitespace never lengthens the text. */
  lemma {:induction false} JoinWordsLength(s: string)
    ensures |Join(" ", Words(s))| <= |s|
    decreases |s|
  {
    if |s| > 0 {
      if IsSpace(s[0]) {
        JoinWordsLength(s[1..]);
      } else {
        var w := TakeWord(s);
        WordsStep(s);
        var ws := Words(s[|w|..]);
        if |ws| > 0 {
          JoinWordsLength(s[|w| + 1..]);
          assert Join(" ", Words(s)) == w + " " + Join(" ", ws);
        }
      }
    }
  }

  /** Collapsing whitespace only keeps characters of the text, plus single spaces. */
  lemma {:induction false} JoinWordsChars(s: string)
    ensures forall x :: x in Join(" ", Words(s)) ==> x == ' ' || x in s
    decreases |s|
  {
    if |s| > 0 {
      if IsSpace(s[0]) {
        JoinWordsChars(s[1..]);
        assert forall x :: x in s[1..] ==> x in s;
      } else {
        var w := TakeWord(s);
        WordsStep(s);
        var ws := Words(s[|w|..]);
        var j := Join(" ", Words(s));
        assert forall x :: x in w ==> x in s;
        if |ws| > 0 {
          var rest := s[|w| + 1..];
          JoinWordsChars(rest);
          assert j == w + " " + Join(" ", ws);
          assert forall x :: x in rest ==> x in s;
        } else {
          assert j == w;
        }
      }
    }
  }

  /** The word at the front of `w + rest` is `w` when `rest` is empty or starts with a space. */
  lemma TakeWordBeforeSpace(w: string, rest: string)
    requires |w| > 0 && forall i :: 0 <= i < |w| ==> !IsSpace(w[i])
    requires |rest| == 0 || IsSpace(rest[0])
    ensures TakeWord(w + rest) == w
  {
    var s := w + rest;
    var t := TakeWord(s);
    assert forall i :: 0 <= i < |w| ==> s[i] == w[i] && !IsSpace(s[i]);
    assert |rest| > 0 ==> s[|w|] == rest[0] && IsSpace(s[|w|]);
    assert |t| == |w|;
    assert t == s[..|w|] == w;
  }

  /** Words joined by single spaces split back into the same words. */
  lemma {:induction false} WordsOfJoin(ws: seq<string>)
    requires forall k :: 0 <= k < |ws| ==> |ws[k]| > 0
    requires forall k, i :: 0 <= k < |ws| && 0 <= i < |ws[k]| ==> !IsSpace(ws[k][i])
    ensures Words(Join(" ", ws)) == ws
    decreases |ws|
  {
    if |ws| == 1 {
      TakeWordBeforeSpace(ws[0], "");
      assert ws[0] + "" == ws[0];
      assert ws[0][|ws[0]|..] == "";
    } else if |ws| > 1 {
      var tail := Join(" ", ws[1..]);
      var s := ws[0] + (" " + tail);
      assert Join(" ", ws) == s;
      TakeWordBeforeSpace(ws[0], " " + tail);
      assert s[|ws[0]|..] == " " + tail;
      assert (" " + tail)[1..] == tail;
      WordsOfJoin(ws[1..]);
      assert [ws[0]] + ws[1..] == ws;
    }
  }

  lemma {:induction false} JoinedWordsHaveNoEdgeSpace(ws: seq<string>)
    requires forall k :: 0 <= k < |ws| ==> |ws[k]| > 0
    requires forall k, i :: 0 <= k < |ws| && 0 <= i < |ws[k]| ==> !IsSpace(ws[k][i])
    ensures var j := Join(" ", ws); |j| > 0 ==> !IsSpace(j[0]) && !IsSpace(j[|j| - 1])
    decreases |ws|
  {
    if |ws| > 1 {
      JoinedWordsHaveNoEdgeSpace(ws[1..]);
      var tail := Join(" ", ws[1..]);
      assert Join(" ", ws) == ws[0] + " " + tail;
      assert |tail| > 0 by { assert |tail| >= |ws[1]|; }
    }
  }

  /**
   * `sanitize_input`: drop `<>"'&`, NUL and CR, cut to `max_length` with
   * Python slicing, collapse whitespace runs to single spaces, strip.
   */
  function SanitizeInput(text: string, maxLength: int): (r: string)
    ensures forall i :: 0 <= i < |r| ==> r[i] !in DangerousChars
    ensures maxLength >= 0 ==> |r| <= maxLength
    ensures |r| <= |text|
    ensures |r| > 0 ==> !IsSpace(r[0]) && !IsSpace(r[|r| - 1])
  {
    if text == "" then ""
    else
      SanitizedShape(text, maxLength);
      Strip(Join(" ", Words(SliceTo(DropEach(text, DangerousChars), maxLength))))
  }

  /** The steps of `sanitize_input` on non-empty text keep its promises. */
  lemma SanitizedShape(text: string, maxLength: int)
    ensures var r := Strip(Join(" ", Words(SliceTo(DropEach(text, DangerousChars), maxLength))));
      && (forall i :: 0 <= i < |r| ==> r[i] !in DangerousChars)
      && (maxLength >= 0 ==> |r| <= maxLength)
      && |r| <= |text|
      && (|r| > 0 ==> !IsSpace(r[0]) && !IsSpace(r[|r| - 1]))
  {
    var cut := SliceTo(DropEach(text, DangerousChars), maxLength);
    CleanCut(text, maxLength);
    CollapseShape(cut);
    assert ' ' !in DangerousChars;
  }

  /** Removing the dangerous characters and cutting to the limit leaves a short, clean prefix. */
  lemma CleanCut(text: string, maxLength: int)
    ensures var cut := SliceTo(DropEach(text, DangerousChars), maxLength);
      && |cut| <= |text| && (maxLength >= 0 ==> |cut| <= maxLength)
      && forall x :: x in cut ==> x !in DangerousChars
  {
    DropEachRemoves(text, DangerousChars);
  }

  /** Re-joining the words with single spaces shortens, keeps the characters and leaves nothing to strip. */
  lemma CollapseShape(cut: string)
    ensures var c := Join(" ", Words(cut));
      && Strip(c) == c && |c| <= |cut|
      && (forall x :: x in c ==> x == ' ' || x in cut)
      && (|c| > 0 ==> !IsSpace(c[0]) && !IsSpace(c[|c| - 1]))
  {
    var c := Join(" ", Words(cut));
    JoinedWordsHaveNoEdgeSpace(Words(cut));
    StripNoEdges(c);
    JoinWordsLength(cut);
    JoinWordsChars(cut);
  }

  /** Sanitising already-sanitised text (with a non-negative limit) changes nothing. */
  lemma SanitizeIdempotent(text: string, maxLength: int)
    requires maxLength >= 0
    ensures SanitizeInput(SanitizeInput(text, maxLength), maxLength) == SanitizeInput(text, maxLength)
  {
    var r := SanitizeInput(text, maxLength);
    if r != "" {
      var ws := Words(SliceTo(DropEach(text, DangerousChars), maxLength));
      JoinedWordsHaveNoEdgeSpace(ws);
      StripNoEdges(Join(" ", ws));
      assert r == Join(" ", ws);
      SanitizeKeepsJoinedWords(ws, maxLength);
    }
  }

  /** Safe words joined by single spaces within the limit come out of sanitising unchanged. */
  lemma SanitizeKeepsJoinedWords(ws: seq<string>, maxLength: int)
    requires maxLength >= 0
    requires forall k :: 0 <= k < |ws| ==> |ws[k]| > 0
    requires forall k, i :: 0 <= k < |ws| && 0 <= i < |ws[k]| ==> !IsSpace(ws[k][i])
    requires |Join(" ", ws)| <= maxLength
    requires forall i :: 0 <= i < |Join(" ", ws)| ==> Join(" ", ws)[i] !in DangerousChars
    ensures SanitizeInput(Join(" ", ws), maxLength) == Join(" ", ws)
  {
    var r := Join(" ", ws);
    if r != "" {
      var cleaned := DropEach(r, DangerousChars);
      assert cleaned == r by {
        DropEachRemoves(r, DangerousChars);
        RemoveAbsentChars(r, DangerousChars);
      }
      var cut := SliceTo(cleaned, maxLength);
      assert cut == r;
      assert Join(" ", Words(cut)) == r by { WordsOfJoin(ws); }
      assert Strip(r) == r by {
        JoinedWordsHaveNoEdgeSpace(ws);
        StripNoEdges(r);
      }
    }
  }

  datatype CommentVerdict = CommentOk | CommentTooLong | CommentBadChars

  const MaxCommentLength: nat := 500

  /** `validate_comment`: empty is fine; otherwise at most 500 characters after stripping and none of `<>"'`. */
  function ValidateComment(comment: string): (v: CommentVerdict)
    ensures v == CommentOk <==>
      comment == "" || (|Strip(comment)| <= MaxCommentLength && !ContainsAny(Strip(comment), "<>\"'"))
  {
    if comment == "" then CommentOk
    else
      var t := Strip(comment);
      if |t| > MaxCommentLength then CommentTooLong
      else if ContainsAny(t, "<>\"'") then CommentBadChars
      else CommentOk
  }

  /** Text sanitised to 500 characters always passes the comment check. */
  lemma SanitizedCommentAccepted(text: string)
    ensures ValidateComment(SanitizeInput(text, 500)) == CommentOk
  {
    var r := SanitizeInput(text, 500);
    StripNoEdges(r);
    assert !ContainsAny(r, "<>\"'");
  }
}
