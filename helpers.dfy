/**
 * Small presentation helpers: invite-code shape, duration wording,
 * masking, truncation, pagination, remaining-time wording, file-type
 * classification, traffic warning levels and usage percentage.
 */
module Helpers {
  import opened Wrappers
  import opened PyStr
  import Validators

  // ---------------------------------------------------------------------
  // generate_invite_code
  // ---------------------------------------------------------------------

  predicate IsHexDigit(c: char) {
    IsDigit(c) || ('a' <= c <= 'f')
  }

  /**
   * `generate_invite_code`: `link_{username}_{digest[:6]}`, where the digest
   * is the hexadecimal MD5 of a random source (supplied here as a parameter).
   */
  function GenerateInviteCode(username: string, hexDigest: string): (code: string)
    ensures StartsWith(code, "link_" + username + "_")
    ensures |code| == |username| + 6 + (if |hexDigest| < 6 then |hexDigest| else 6)
    ensures (forall i :: 0 <= i < |hexDigest| ==> IsHexDigit(hexDigest[i])) ==> '_' !in code[|username| + 6..]
  {
    var tag := SliceTo(hexDigest, 6);
    var code := "link_" + username + "_" + tag;
    assert code[..|username| + 6] == "link_" + username + "_";
    assert code[|username| + 6..] == tag;
    assert forall i :: 0 <= i < |tag| ==> tag[i] == hexDigest[i];
    code
  }

  // ---------------------------------------------------------------------
  // format_duration
  // ---------------------------------------------------------------------

  /** `format_duration`: the branch chain of the source, first match wins. */
  function FormatDuration(days: int): (r: string)
    ensures !MonthWording(r) ==> StartsWith(r, IntToString(days) + " ")
  {
    if days == 1 then "1 день"
    else if days < 5 then IntToString(days) + " дня"
    else if days < 21 then IntToString(days) + " дней"
    else if days == 30 then "1 месяц"
    else if days == 90 then "3 месяца"
    else if days == 180 then "6 месяцев"
    else if days == 365 then "1 год"
    else
      var months := FloorDiv(days, 30);
      if months > 1 then IntToString(months) + " месяцев" else IntToString(days) + " дней"
  }

  /** The wordings that count months (or a year) rather than days. */
  predicate MonthWording(r: string) {
    r == "1 месяц" || r == "3 месяца" || r == "6 месяцев" || r == "1 год" || EndsWith(r, " месяцев")
  }

  /**
   * Durations are worded in months exactly from 60 days on (plus the
   * named 30-day month); a month count never exceeds the days it stands for.
   */
  lemma DurationWording(days: int)
    ensures MonthWording(FormatDuration(days)) <==> days == 30 || days >= 60
    ensures days >= 60 && days != 90 && days != 180 && days != 365 ==>
      FormatDuration(days) == IntToString(days / 30) + " месяцев" && (days / 30) * 30 <= days
    ensures 5 <= days < 21 ==> FormatDuration(days) == IntToString(days) + " дней"
  {
    var r := FormatDuration(days);
    if days < 60 && days != 30 {
      if days < 21 && days != 1 {
        var n := IntToString(days);
        var w := if days < 5 then " дня" else " дней";
        assert r == n + w;
        assert r[|r| - 1] == w[|w| - 1];
      } else if days >= 21 {
        assert FloorDiv(days, 30) <= 1;
        assert r == IntToString(days) + " дней";
        assert r[|r| - 1] == 'й';
      }
    }
  }

  // ---------------------------------------------------------------------
  // mask_sensitive_data
  // ---------------------------------------------------------------------

  function Stars(n: int): (r: string)
    ensures |r| == (if n < 0 then 0 else n)
    ensures forall i :: 0 <= i < |r| ==> r[i] == '*'
  {
    if n <= 0 then "" else seq(n, _ => '*')
  }

  /**
   * `mask_sensitive_data` as written, with Python slicing: the tail is
   * `data[-visible:]`, which for `visible == 0` is the whole string.
   */
  function MaskSensitiveDataAsWritten(data: string, visible: int): string {
    if |data| <= visible * 2 then Stars(|data|)
    else SliceTo(data, visible) + Stars(|data| - visible * 2) + SliceFrom(data, -visible)
  }

  /** With no visible characters the written code doubles the length and shows the secret in clear. */
  lemma MaskAsWrittenLeaksWithZeroVisible()
    ensures MaskSensitiveDataAsWritten("ab", 0) == "**ab"
    ensures |MaskSensitiveDataAsWritten("ab", 0)| != |"ab"|
  {
    assert SliceTo("ab", 0) == "";
    assert SliceFrom("ab", 0) == "ab";
    assert Stars(2) == "**";
  }

  /** For one or more visible characters the written code and the corrected one agree. */
  lemma MaskAgreesForPositiveVisible(data: string, visible: int)
    requires visible >= 1
    ensures MaskSensitiveDataAsWritten(data, visible) == MaskSensitiveData(data, visible)
  {
  }

  /** `mask_sensitive_data` with the tail taken as the last `visible` characters. */
  function MaskSensitiveData(data: string, visible: nat): (r: string)
    ensures |r| == |data|
    ensures |data| <= 2 * visible ==> forall i :: 0 <= i < |r| ==> r[i] == '*'
    ensures |data| > 2 * visible ==>
      r[..visible] == data[..visible]
      && r[|r| - visible..] == data[|data| - visible..]
      && forall i :: visible <= i < |r| - visible ==> r[i] == '*'
  {
    if |data| <= visible * 2 then Stars(|data|)
    else data[..visible] + Stars(|data| - visible * 2) + data[|data| - visible..]
  }

  // ---------------------------------------------------------------------
  // truncate_text
  // ---------------------------------------------------------------------

  /** `truncate_text`: unchanged when short enough, else a prefix cut with Python slicing plus the suffix. */
  function TruncateText(text: string, maxLength: int, suffix: string): (r: string)
    ensures text == "" || |text| <= maxLength ==> r == text
    ensures |text| > maxLength && maxLength >= |suffix| ==>
      |r| == maxLength && r == text[..maxLength - |suffix|] + suffix
  {
    if text == "" || |text| <= maxLength then text
    else SliceTo(text, maxLength - |suffix|) + suffix
  }

  /** A limit shorter than the suffix makes the slice count from the end, so the result can be longer than the input. */
  lemma TruncateShortLimitGrows()
    ensures TruncateText("abcdef", 2, "...") == "abcde..."
  {
    assert SliceTo("abcdef", -1) == "abcde";
  }

  // ---------------------------------------------------------------------
  // create_pagination_data
  // ---------------------------------------------------------------------

  datatype Page<T> = Page(
    items: seq<T>, currentPage: int, totalPages: int, totalItems: nat, perPage: int,
    hasNext: bool, hasPrev: bool, nextPage: Option<int>, prevPage: Option<int>)

  function Min(a: int, b: int): int { if a < b then a else b }

  /** `create_pagination_data`; `None` where Python raises ZeroDivisionError (`per_page == 0`). */
  function Paginate<T>(items: seq<T>, page: int, perPage: int): (r: Option<Page<T>>)
    ensures perPage == 0 <==> r.None?
    ensures r.Some? ==> (r.value.hasNext <==> page < r.value.totalPages)
    ensures r.Some? ==> (r.value.hasPrev <==> page > 1)
    ensures r.Some? && perPage > 0 ==>
      (r.value.totalPages - 1) * perPage < |items| <= r.value.totalPages * perPage
    ensures r.Some? && perPage > 0 && page >= 1 ==>
      r.value.items == items[Min((page - 1) * perPage, |items|)..Min(page * perPage, |items|)]
  {
    if perPage == 0 then None
    else
      var total := FloorDiv(|items| + perPage - 1, perPage);
      var start := (page - 1) * perPage;
      Some(Page(
        Slice(items, start, start + perPage), page, total, |items|, perPage,
        page < total, page > 1,
        if page < total then Some(page + 1) else None,
        if page > 1 then Some(page - 1) else None))
  }

  /** The items of pages `1..k`, one page after another. */
  function PagesUpTo<T>(items: seq<T>, perPage: int, k: nat): seq<T>
    requires perPage > 0
  {
    if k == 0 then [] else PagesUpTo(items, perPage, k - 1) + Paginate(items, k, perPage).value.items
  }

  lemma {:induction false} PagesUpToPrefix<T>(items: seq<T>, perPage: int, k: nat)
    requires perPage > 0
    ensures PagesUpTo(items, perPage, k) == items[..Min(k * perPage, |items|)]
  {
    if k > 0 {
      PagesUpToPrefix(items, perPage, k - 1);
      var a := Min((k - 1) * perPage, |items|);
      var b := Min(k * perPage, |items|);
      assert (k - 1) * perPage <= k * perPage;
      assert items[..a] + items[a..b] == items[..b];
    }
  }

  /** Reading every page in turn gives back exactly the list. */
  lemma PagesCoverItems<T>(items: seq<T>, perPage: int)
    requires perPage > 0
    ensures var total := Paginate(items, 1, perPage).value.totalPages;
      total >= 0 && PagesUpTo(items, perPage, total) == items
  {
    var total := Paginate(items, 1, perPage).value.totalPages;
    PagesUpToPrefix(items, perPage, total);
  }

  // ---------------------------------------------------------------------
  // format_remaining_time
  // ---------------------------------------------------------------------

  /** `format_remaining_time`: months and days past 30 days, else days and hours, else hours, else "less than an hour". */
  function FormatRemainingTime(days: int, hours: int): (r: string)
    ensures r == "Менее часа" <==> days <= 0 && hours <= 0
  {
    var r := FormatRemainingTimeText(days, hours);
    assert days > 0 || hours > 0 ==> r[|r| - 1] == '.';
    r
  }

  function FormatRemainingTimeText(days: int, hours: int): string {
    if days > 30 then
      var months := FloorDiv(days, 30);
      var rest := FloorMod(days, 30);
      if rest > 0 then IntToString(months) + " мес. " + IntToString(rest) + " дн."
      else IntToString(months) + " мес."
    else if days > 0 then
      if hours > 0 then IntToString(days) + " дн. " + IntToString(hours) + " ч."
      else IntToString(days) + " дн."
    else if hours > 0 then IntToString(hours) + " ч."
    else "Менее часа"
  }

  /** Past 30 days the wording splits the days into whole 30-day months and a remainder below 30, losing nothing. */
  lemma RemainingTimeMonths(days: int, hours: int)
    requires days > 30
    ensures var m := days / 30; var d := days % 30;
      m >= 1 && 0 <= d < 30 && m * 30 + d == days
      && FormatRemainingTime(days, hours) ==
         (if d > 0 then IntToString(m) + " мес. " + IntToString(d) + " дн." else IntToString(m) + " мес.")
  {
  }

  // ---------------------------------------------------------------------
  // check_file_type
  // ---------------------------------------------------------------------

  const ImageExtensions: seq<string> := ["jpg", "jpeg", "png", "gif", "bmp", "webp"]
  const DocumentExtensions: seq<string> := ["pdf", "doc", "docx", "txt", "rtf"]

  datatype FileKind = ImageFile | DocumentFile | UnknownFile

  /** The dictionary `check_file_type` returns; an empty name yields only a validity flag and an error. */
  datatype FileInfo =
    | EmptyFileName
    | FileInfo(isValid: bool, fileType: FileKind, extension: string, isReceipt: bool, error: Option<string>)

  /** `check_file_type`: classify by the lower-cased text after the last dot. */
  function CheckFileType(fileName: string): (r: FileInfo)
    ensures fileName == "" <==> r.EmptyFileName?
    ensures r.FileInfo? ==> r.extension == Validators.Extension(fileName)
    ensures r.FileInfo? ==> (r.isValid <==> r.extension in ImageExtensions + DocumentExtensions)
    ensures r.FileInfo? ==> (r.error.None? <==> r.isValid)
    ensures r.FileInfo? ==> (r.isReceipt <==> r.isValid)
  {
    if fileName == "" then EmptyFileName
    else
      var ext := Validators.Extension(fileName);
      var kind := if ext in ImageExtensions then ImageFile
                  else if ext in DocumentExtensions then DocumentFile
                  else UnknownFile;
      var valid := ext in ImageExtensions + DocumentExtensions;
      FileInfo(valid, kind, ext, kind != UnknownFile,
               if valid then None else Some("Неподдерживаемый тип файла: " + ext))
  }

  /** A receipt photo named `*.JPG` is classified as an image, whatever the case of its extension. */
  lemma ImageNameClassified(stem: string, ext: string)
    requires '.' !in ext && Lower(ext) in ImageExtensions
    ensures CheckFileType(stem + "." + ext).FileInfo?
    ensures CheckFileType(stem + "." + ext).fileType == ImageFile
    ensures CheckFileType(stem + "." + ext).isValid
  {
    Validators.ExtensionOfName(stem, ext);
  }

  // ---------------------------------------------------------------------
  // get_traffic_warning_level and calculate_usage_percentage
  // ---------------------------------------------------------------------

  datatype WarningLevel = Ok | Info | Warning | Critical

  datatype TrafficWarning = TrafficWarning(level: WarningLevel, emoji: string, message: string, color: string)

  function Severity(l: WarningLevel): nat {
    match l
    case Ok => 0
    case Info => 1
    case Warning => 2
    case Critical => 3
  }

  /** `get_traffic_warning_level`: critical from 95%, warning from 80%, info from 60%, else ok. */
  function TrafficWarningLevel(usedPercentage: real): (w: TrafficWarning)
    ensures w.level == Critical <==> usedPercentage >= 95.0
    ensures w.level == Ok <==> usedPercentage < 60.0
  {
    if usedPercentage >= 95.0 then TrafficWarning(Critical, "🔴", "Трафик почти закончился!", "#FF0000")
    else if usedPercentage >= 80.0 then TrafficWarning(Warning, "🟡", "Трафик заканчивается", "#FFA500")
    else if usedPercentage >= 60.0 then TrafficWarning(Info, "🔵", "Больше половины трафика использовано", "#0080FF")
    else TrafficWarning(Ok, "🟢", "Трафик в норме", "#008000")
  }

  /** Using more traffic never lowers the warning level. */
  lemma TrafficWarningMonotone(a: real, b: real)
    requires a <= b
    ensures Severity(TrafficWarningLevel(a).level) <= Severity(TrafficWarningLevel(b).level)
  {
  }

  /** `calculate_usage_percentage`, in exact arithmetic: 0 for a non-positive total, else `used/total*100` clamped to 0..100. */
  function UsagePercentage(used: int, total: int): (p: real)
    ensures 0.0 <= p <= 100.0
    ensures total <= 0 ==> p == 0.0
    ensures total > 0 && 0 <= used <= total ==> p * (total as real) == (used as real) * 100.0
    ensures total > 0 && used >= total ==> p == 100.0
  {
    if total <= 0 then 0.0
    else
      var pct := (used as real) / (total as real) * 100.0;
      if pct > 100.0 then 100.0 else if pct < 0.0 then 0.0 else pct
  }

  /** Feeding the usage percentage to the warning level: a user at or over the quota is always critical. */
  lemma OverQuotaIsCritical(used: int, total: int)
    requires total > 0 && used >= total
    ensures TrafficWarningLevel(UsagePercentage(used, total)).level == Critical
  {
  }
}
