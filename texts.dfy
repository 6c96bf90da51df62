/**
 * The text catalogue: `key=value` text files and JSON files found under the
 * catalogue directory, loaded once into a cache keyed by dotted names
 * (`handlers.payment_messages`, `admin.USER_INFO_USAGE`), and read back
 * with optional `str.format` substitution.
 */
module Texts {
  import opened Wrappers
  import opened PyStr

  /** What `json.load` yields; floats are not modelled. */
  datatype Json =
    | JNull
    | JBool(b: bool)
    | JNum(n: int)
    | JStr(s: string)
    | JList(items: seq<Json>)
    | JObject(fields: map<string, Json>)

  /** A cache entry: a line of a text file, or a whole JSON document. */
  datatype Entry = Text(text: string) | Doc(doc: Json)

  /**
   * A file met by the directory walk: its directory relative to the
   * catalogue root (one name per level), its file name, its content and
   * what the JSON decoder makes of that content.
   */
  datatype SourceFile = SourceFile(dirs: seq<string>, name: string, content: string, parsed: Json)

  // ---------------------------------------------------------------------
  // Names
  // ---------------------------------------------------------------------

  /** The last index of `c` in `s`. */
  function LastIndex(s: string, c: char): (r: Option<nat>)
    ensures r.None? <==> c !in s
    ensures r.Some? ==> r.value < |s| && s[r.value] == c && forall j :: r.value < j < |s| ==> s[j] != c
    decreases |s|
  {
    if |s| == 0 then None
    else if s[|s| - 1] == c then
      assert s[|s|..] == [];
      Some(|s| - 1)
    else
      var r := LastIndex(s[..|s| - 1], c);
      assert s == s[..|s| - 1] + [s[|s| - 1]];
      r
  }

  /**
   * `os.path.splitext(name)[0]`: the name up to its last dot, unless only
   * dots come before that dot (a leading dot does not start an extension).
   */
  function Stem(name: string): (r: string)
    ensures |r| <= |name| && r == name[..|r|]
  {
    match LastIndex(name, '.')
    case None => name
    case Some(d) => if exists i :: 0 <= i < d && name[i] != '.' then name[..d] else name
  }

  /** A name with an extension loses exactly the extension. */
  lemma StemOfExtension(stem: string, ext: string)
    requires '.' !in ext && exists i :: 0 <= i < |stem| && stem[i] != '.'
    ensures Stem(stem + "." + ext) == stem
  {
    var name := stem + "." + ext;
    var d := LastIndex(name, '.');
    assert name[|stem|] == '.';
    assert forall j :: |stem| < j < |name| ==> name[j] == ext[j - |stem| - 1];
    assert d.Some? && d.value == |stem|;
    var i :| 0 <= i < |stem| && stem[i] != '.';
    assert name[i] != '.';
    assert name[..|stem|] == stem;
  }

  /** The category of a directory: its path below the root with `.` for the separator; empty at the root. */
  function Category(dirs: seq<string>): string {
    Join(".", dirs)
  }

  /** `f"{category}.{key}" if category else key`. */
  function FullKey(category: string, key: string): string {
    if category != "" then category + "." + key else key
  }

  lemma FullKeyInjective(category: string, a: string, b: string)
    requires FullKey(category, a) == FullKey(category, b)
    ensures a == b
  {
    if category != "" {
      var p := category + ".";
      assert (p + a)[|p|..] == a && (p + b)[|p|..] == b;
    }
  }

  // ---------------------------------------------------------------------
  // One text file
  // ---------------------------------------------------------------------

  /** The lines `for line in f` yields, without their line ends. */
  function Lines(content: string): (ls: seq<string>)
    ensures forall i :: 0 <= i < |ls| ==> '\n' !in ls[i]
  {
    if content == "" then []
    else
      var parts := Split(content, '\n');
      if parts[|parts| - 1] == "" then parts[..|parts| - 1] else parts
  }

  /** One line of a text file: `key=value` at its first `=`, otherwise the whole stripped line under the file's stem. */
  function ParseLine(messages: map<string, string>, line: string, stem: string): (m: map<string, string>)
    ensures m.Keys == messages.Keys + {if '=' in line then SplitOnce(Strip(line), '=')[0] else stem}
  {
    if '=' in line then
      StripKeeps(line, '=');
      var parts := SplitOnce(Strip(line), '=');
      messages[parts[0] := parts[1]]
    else messages[stem := Strip(line)]
  }

  /** The messages of a file with these lines, the later line winning on a repeated key. */
  function ParseLines(lines: seq<string>, stem: string): map<string, string>
    decreases |lines|
  {
    if |lines| == 0 then map[]
    else ParseLine(ParseLines(lines[..|lines| - 1], stem), lines[|lines| - 1], stem)
  }

  /** Reading one more line applies it to the messages of the lines before. */
  lemma ParseLinesStep(lines: seq<string>, i: nat, stem: string)
    requires i < |lines|
    ensures ParseLines(lines[..i + 1], stem) == ParseLine(ParseLines(lines[..i], stem), lines[i], stem)
  {
    assert lines[..i + 1][..i] == lines[..i];
  }

  /** A `key=value` line gives the key before the first `=` and everything after it, `=` included. */
  lemma ValueKeepsEquals(key: string, value: string, stem: string)
    requires '=' !in key && '\n' !in key + value
    requires |key| > 0 && !IsSpace(key[0])
    requires |value| > 0 && !IsSpace(value[|value| - 1])
    ensures ParseLines([key + "=" + value], stem) == map[key := value]
  {
    var line := key + "=" + value;
    var ls: seq<string> := [line];
    assert ls[..0] == [];
    StripNoEdges(line);
    assert line == key + ['='] + value;
    assert line[|key|] == '=';
    var parts := SplitOnce(line, '=');
    assert line[|parts[0]|] == '=';
    assert forall j :: 0 <= j < |parts[0]| ==> line[j] == parts[0][j] != '=';
    assert forall j :: 0 <= j < |key| ==> line[j] == key[j] != '=';
    assert |parts[0]| == |key|;
    assert parts[0] == line[..|key|] == key;
    assert parts[1] == line[|key| + 1..] == value;
  }

  /** A line without `=` sets the stem's entry to the stripped line, replacing any earlier one. */
  lemma PlainLineOverwrites(lines: seq<string>, line: string, stem: string)
    requires '=' !in line
    ensures ParseLines(lines + [line], stem) == ParseLines(lines, stem)[stem := Strip(line)]
  {
    assert (lines + [line])[..|lines|] == lines;
  }

  // ---------------------------------------------------------------------
  // The whole catalogue
  // ---------------------------------------------------------------------

  /** The messages of a text file, put under `category.key`. */
  function Prefixed(category: string, messages: map<string, string>): (p: map<string, Entry>)
    ensures forall k :: k in messages ==> FullKey(category, k) in p && p[FullKey(category, k)] == Text(messages[k])
    ensures forall fk :: fk in p ==> exists k :: k in messages && fk == FullKey(category, k)
  {
    forall a, b | a in messages && b in messages && FullKey(category, a) == FullKey(category, b)
      ensures a == b
    {
      FullKeyInjective(category, a, b);
    }
    map k | k in messages :: FullKey(category, k) := Text(messages[k])
  }

  /** What the walk does with one file: `.txt` files add their lines, `.json` files their document, others nothing. */
  function LoadFile(cache: map<string, Entry>, f: SourceFile): map<string, Entry> {
    var category := Category(f.dirs);
    if EndsWith(f.name, ".txt") then
      cache + Prefixed(category, ParseLines(Lines(f.content), Stem(f.name)))
    else if EndsWith(f.name, ".json") then
      cache[FullKey(category, Stem(f.name)) := Doc(f.parsed)]
    else cache
  }

  /** The files in walk order, each loaded over what came before. */
  function LoadAll(cache: map<string, Entry>, files: seq<SourceFile>): map<string, Entry>
    decreases |files|
  {
    if |files| == 0 then cache
    else LoadFile(LoadAll(cache, files[..|files| - 1]), files[|files| - 1])
  }

  // ---------------------------------------------------------------------
  // Formatting: `text.format(**kwargs)`
  // ---------------------------------------------------------------------

  /** The result of `str.format` with keyword arguments only. */
  datatype FormatOutcome =
    | Formatted(text: string)
    /** `KeyError` for a field naming no argument. */
    | MissingKey(name: string)
    /** `ValueError` or `IndexError`, with its message. */
    | Fault(message: string)
    /** A conversion, format specification, attribute or index applied to a supplied argument. */
    | Unmodelled

  function Then(s: string, o: FormatOutcome): FormatOutcome {
    if o.Formatted? then Formatted(s + o.text) else o
  }

  const SingleCloseMessage := "Single '}' encountered in format string"
  const SingleOpenMessage := "Single '{' encountered in format string"
  const UnclosedMessage := "expected '}' before end of string"
  const OpenInNameMessage := "unexpected '{' in field name"
  const ConversionEndMessage := "end of string while looking for conversion specifier"
  const ExpectedColonMessage := "expected ':' after conversion specifier"
  const UnmatchedSpecMessage := "unmatched '{' in format spec"
  const TooManyDigitsMessage := "Too many decimal digits in format string"

  /** `PY_SSIZE_T_MAX` on a 64-bit build: the largest positional index `str.format` reads. */
  const MaxIndex := 0x7fff_ffff_ffff_ffff

  function IndexMessage(index: string): string {
    "Replacement index " + index + " out of range for positional args tuple"
  }

  /** The first index of `c` in `s`. */
  function FirstIndex(s: string, c: char): (r: Option<nat>)
    ensures r.None? <==> c !in s
    ensures r.Some? ==> r.value < |s| && s[r.value] == c && forall j :: 0 <= j < r.value ==> s[j] != c
    decreases |s|
  {
    if |s| == 0 then None
    else if s[0] == c then Some(0)
    else
      var r := FirstIndex(s[1..], c);
      if r.Some? then Some(r.value + 1) else None
  }

  /** The argument name of a replacement field: up to the first `.`, `[`, `!` or `:`. */
  function ArgName(field: string): (r: string)
    ensures |r| <= |field| && r == field[..|r|]
    ensures forall i :: 0 <= i < |r| ==> r[i] !in ".[!:"
    decreases |field|
  {
    if |field| == 0 || field[0] in ".[!:" then "" else [field[0]] + ArgName(field[1..])
  }

  /** The longest prefix of `s` made of digits. */
  function LeadingDigits(s: string): (r: string)
    ensures |r| <= |s| && r == s[..|r|]
    ensures forall i :: 0 <= i < |r| ==> IsDigit(r[i])
    ensures |r| < |s| ==> !IsDigit(s[|r|])
    decreases |s|
  {
    if |s| == 0 || !IsDigit(s[0]) then "" else [s[0]] + LeadingDigits(s[1..])
  }

  /**
   * `get_integer` gives up with a ValueError as soon as the digits that
   * open an argument name exceed the largest index, before it sees what
   * follows them.
   */
  predicate IndexOverflows(arg: string) {
    RunValue(LeadingDigits(arg)) > MaxIndex
  }

  /** Where `parse_field` ends a field name. */
  datatype NameEnd = StopsAt(k: nat) | RunsOut | OpenBrace

  /**
   * The scan for the end of the field name in `s` from `i`: it stops at
   * `}`, `:` or `!`, fails at `{`, and skips from a `[` to the next `]`.
   */
  function ScanName(s: string, i: nat): (r: NameEnd)
    requires i <= |s|
    ensures r.StopsAt? ==> i <= r.k < |s| && s[r.k] in "}:!"
    decreases |s| - i
  {
    if i == |s| then RunsOut
    else if s[i] == '{' then OpenBrace
    else if s[i] in "}:!" then StopsAt(i)
    else if s[i] == '[' then
      match FirstIndex(s[i + 1..], ']')
      case None => RunsOut
      case Some(j) => ScanName(s, i + 2 + j)
    else ScanName(s, i + 1)
  }

  /** The `}` that closes a format specification scanned from `i` with `depth` braces open. */
  function SpecEnd(s: string, i: nat, depth: nat): (r: Option<nat>)
    requires i <= |s| && depth >= 1
    ensures r.Some? ==> i <= r.value < |s| && s[r.value] == '}'
    decreases |s| - i
  {
    if i == |s| then None
    else if s[i] == '{' then SpecEnd(s, i + 1, depth + 1)
    else if s[i] == '}' then (if depth == 1 then Some(i) else SpecEnd(s, i + 1, depth - 1))
    else SpecEnd(s, i + 1, depth)
  }

  /** A replacement field as `parse_field` reads it, before anything is looked up. */
  datatype FieldParse =
    | BadField(message: string)
    /** The field name, its `!` conversion, its `:` specification and the text after the field. */
    | Field(name: string, conversion: Option<char>, spec: string, rest: string)

  /** The specification from `from` up to its closing brace. */
  function SpecField(s: string, name: string, conversion: Option<char>, from: nat): (r: FieldParse)
    requires from <= |s|
    ensures r.Field? ==> |r.rest| < |s| - from
  {
    match SpecEnd(s, from, 1)
    case None => BadField(UnmatchedSpecMessage)
    case Some(e) => Field(name, conversion, s[from..e], s[e + 1..])
  }

  /**
   * `parse_field` on the text `s` after an opening brace: the name, then
   * either the closing brace, or `:` and a specification, or `!`, one
   * conversion character and then `}` or `:` and a specification.
   */
  function ParseField(s: string): (r: FieldParse)
    ensures r.Field? ==> |r.rest| < |s|
  {
    match ScanName(s, 0)
    case OpenBrace => BadField(OpenInNameMessage)
    case RunsOut => BadField(UnclosedMessage)
    case StopsAt(k) =>
      var name := s[..k];
      if s[k] == '}' then Field(name, None, "", s[k + 1..])
      else if s[k] == ':' then SpecField(s, name, None, k + 1)
      else if k + 1 == |s| then BadField(ConversionEndMessage)
      else if k + 2 == |s| then BadField(UnmatchedSpecMessage)
      else if s[k + 2] == '}' then Field(name, Some(s[k + 1]), "", s[k + 3..])
      else if s[k + 2] != ':' then BadField(ExpectedColonMessage)
      else SpecField(s, name, Some(s[k + 1]), k + 3)
  }

  /**
   * `str.format` of `t` with the keyword arguments `kw`, scanning left to
   * right. Each field is parsed whole before its argument is looked up; a
   * numeric or empty argument name indexes the empty positional tuple.
   */
  function Format(t: string, kw: map<string, string>): FormatOutcome
    decreases |t|
  {
    if |t| == 0 then Formatted("")
    else if t[0] == '}' then
      if |t| >= 2 && t[1] == '}' then Then("}", Format(t[2..], kw)) else Fault(SingleCloseMessage)
    else if t[0] != '{' then Then([t[0]], Format(t[1..], kw))
    else if |t| >= 2 && t[1] == '{' then Then("{", Format(t[2..], kw))
    else if |t| == 1 then Fault(SingleOpenMessage)
    else match ParseField(t[1..])
      case BadField(m) => Fault(m)
      case Field(name, conversion, spec, rest) =>
        var arg := ArgName(name);
        if IndexOverflows(arg) then Fault(TooManyDigitsMessage)
        else if arg == "" then Fault(IndexMessage("0"))
        else if IsDigits(arg) then Fault(IndexMessage(NatToString(RunValue(arg))))
        else if arg !in kw then MissingKey(arg)
        else if |arg| < |name| || conversion.Some? || spec != "" then Unmodelled
        else Then(kw[arg], Format(rest, kw))
  }

  /** A field name that `str.format` looks up as a keyword and substitutes as it is. */
  predicate PlainFieldName(name: string) {
    && |name| > 0 && !IsDigits(name) && !IndexOverflows(name)
    && forall i :: 0 <= i < |name| ==> name[i] !in ".[!:{}"
  }

  /** Text without braces formats to itself. */
  lemma {:induction false} FormatLiteral(t: string, kw: map<string, string>)
    requires '{' !in t && '}' !in t
    ensures Format(t, kw) == Formatted(t)
    decreases |t|
  {
    if |t| > 0 {
      FormatLiteral(t[1..], kw);
      assert [t[0]] + t[1..] == t;
    }
  }

  lemma {:induction false} ArgNameStops(field: string)
    requires |ArgName(field)| < |field|
    ensures field[|ArgName(field)|] in ".[!:"
    decreases |field|
  {
    if |field| > 0 && field[0] !in ".[!:" {
      ArgNameStops(field[1..]);
    }
  }

  lemma PlainArgName(name: string)
    requires PlainFieldName(name)
    ensures ArgName(name) == name
  {
    if |ArgName(name)| < |name| {
      ArgNameStops(name);
    }
  }

  /** A plain field name ends where `}`, `:` or `!` follows it. */
  lemma {:induction false} ClosingBrace(name: string, stop: char, post: string, i: nat)
    requires PlainFieldName(name) && stop in "}:!" && i <= |name|
    ensures ScanName(name + [stop] + post, i) == StopsAt(|name|)
    decreases |name| - i
  {
    var s := name + [stop] + post;
    if i < |name| {
      assert s[i] == name[i] && s[i] !in ".[!:{}";
      ClosingBrace(name, stop, post, i + 1);
    } else {
      assert s[i] == stop;
    }
  }

  /** A template that starts with a placeholder: substituted when supplied, `KeyError` otherwise. */
  lemma FormatAtField(name: string, post: string, kw: map<string, string>)
    requires PlainFieldName(name)
    ensures Format("{" + name + "}" + post, kw) ==
      if name in kw then Then(kw[name], Format(post, kw)) else MissingKey(name)
  {
    var t := "{" + name + "}" + post;
    assert t[1..] == name + ['}'] + post;
    ClosingBrace(name, '}', post, 0);
    assert t[1..][..|name|] == name;
    assert t[1..][|name| + 1..] == post;
    assert ParseField(t[1..]) == Field(name, None, "", post);
    PlainArgName(name);
    assert t[0] == '{' && t[1] == name[0] && |t| >= 2;
  }

  /**
   * A conversion must be followed by `}` or `:`. The field is parsed
   * before its name is looked up, so this ValueError is reported whether
   * or not the name was supplied.
   */
  lemma ConversionCheckedFirst(name: string, conversion: char, next: char, post: string, kw: map<string, string>)
    requires PlainFieldName(name) && next != '}' && next != ':'
    ensures Format("{" + name + "!" + [conversion, next] + post, kw) == Fault(ExpectedColonMessage)
  {
    var t := "{" + name + "!" + [conversion, next] + post;
    var s := name + ['!'] + ([conversion, next] + post);
    assert t[1..] == s;
    ClosingBrace(name, '!', [conversion, next] + post, 0);
    assert s[|name| + 1] == conversion && s[|name| + 2] == next;
    assert t[0] == '{' && t[1] == name[0] && |t| >= 2;
  }

  /** No `}` closes a specification without braces. */
  lemma {:induction false} SpecRunsOut(s: string, i: nat)
    requires i <= |s| && forall j :: i <= j < |s| ==> s[j] != '{' && s[j] != '}'
    ensures SpecEnd(s, i, 1) == None
    decreases |s| - i
  {
    if i < |s| {
      SpecRunsOut(s, i + 1);
    }
  }

  /**
   * A specification that the template never closes is a ValueError,
   * reported before the name is looked up.
   */
  lemma UnclosedSpecReported(name: string, spec: string, kw: map<string, string>)
    requires PlainFieldName(name) && '{' !in spec && '}' !in spec
    ensures Format("{" + name + ":" + spec, kw) == Fault(UnmatchedSpecMessage)
  {
    var t := "{" + name + ":" + spec;
    var s := name + [':'] + spec;
    assert t[1..] == s;
    ClosingBrace(name, ':', spec, 0);
    assert forall j :: |name| + 1 <= j < |s| ==> s[j] == spec[j - |name| - 1];
    SpecRunsOut(s, |name| + 1);
    assert t[0] == '{' && t[1] == name[0] && |t| >= 2;
  }

  lemma ThenThen(a: string, b: string, o: FormatOutcome)
    ensures Then(a, Then(b, o)) == Then(a + b, o)
  {
  }

  /** A character other than a brace is copied as it is. */
  lemma FormatCopies(t: string, kw: map<string, string>)
    requires |t| > 0 && t[0] != '{' && t[0] != '}'
    ensures Format(t, kw) == Then([t[0]], Format(t[1..], kw))
  {
  }

  /** Characters before a placeholder are copied; the placeholder is then substituted or reported. */
  lemma {:induction false} FormatField(pre: string, name: string, post: string, kw: map<string, string>)
    requires '{' !in pre && '}' !in pre && PlainFieldName(name)
    ensures Format(pre + "{" + name + "}" + post, kw) ==
      if name in kw then Then(pre + kw[name], Format(post, kw)) else MissingKey(name)
    decreases |pre|
  {
    var t := pre + "{" + name + "}" + post;
    if |pre| == 0 {
      assert pre == [];
      assert t == "{" + name + "}" + post;
      FormatAtField(name, post, kw);
      if name in kw {
        assert pre + kw[name] == kw[name];
      }
    } else {
      assert t[1..] == pre[1..] + "{" + name + "}" + post;
      assert t[0] == pre[0] && pre[0] in pre;
      FormatCopies(t, kw);
      FormatField(pre[1..], name, post, kw);
      if name in kw {
        ThenThen([pre[0]], pre[1..] + kw[name], Format(post, kw));
        assert [pre[0]] + (pre[1..] + kw[name]) == pre + kw[name];
      }
    }
  }

  /** Python's name for the type of a decoded JSON document. */
  function TypeName(d: Json): string {
    match d
    case JNull => "NoneType"
    case JBool(_) => "bool"
    case JNum(_) => "int"
    case JStr(_) => "str"
    case JList(_) => "list"
    case JObject(_) => "dict"
  }

  /** `str.format`'s outcome as `get` reports it. */
  function Report(o: FormatOutcome): (r: Option<Entry>)
    ensures r.None? <==> o.Unmodelled?
  {
    match o
    case Formatted(s) => Some(Text(s))
    case MissingKey(n) => Some(Text("Missing format key: " + Repr(n)))
    case Fault(m) => Some(Text("Format error: " + m))
    case Unmodelled => None
  }

  /**
   * `get(key, **kwargs)` over a cache: a missing key stands for itself;
   * without arguments the entry comes back as stored; with arguments text is
   * formatted and a document, having no `format`, yields the error text.
   * `None` marks formatting this model does not cover.
   */
  function Lookup(cache: map<string, Entry>, key: string, kwargs: map<string, string>): (r: Option<Entry>)
    ensures |kwargs| == 0 ==> r == Some(if key in cache then cache[key] else Text(key))
    ensures key !in cache && |kwargs| == 0 ==> r == Some(Text(key))
    ensures |kwargs| > 0 && key in cache && cache[key].Doc? && !cache[key].doc.JStr? ==>
      r == Some(Text("Format error: '" + TypeName(cache[key].doc) + "' object has no attribute 'format'"))
  {
    var e := if key in cache then cache[key] else Text(key);
    if |kwargs| == 0 then Some(e)
    else match e
      case Text(t) => Report(Format(t, kwargs))
      case Doc(JStr(t)) => Report(Format(t, kwargs))
      case Doc(d) => Some(Text("Format error: '" + TypeName(d) + "' object has no attribute 'format'"))
  }

  /** `get_json(key)`: the stored entry, or an empty object. */
  function JsonLookup(cache: map<string, Entry>, key: string): (r: Entry)
    ensures key in cache ==> r == cache[key]
    ensures key !in cache ==> r == Doc(JObject(map[]))
  {
    if key in cache then cache[key] else Doc(JObject(map[]))
  }

  /** A template with a supplied placeholder is filled in; with an unsupplied one `get` names the key. */
  lemma LookupPlaceholder(cache: map<string, Entry>, key: string, name: string, kwargs: map<string, string>)
    requires key in cache && cache[key] == Text("{" + name + "}") && PlainFieldName(name) && |kwargs| > 0
    ensures name in kwargs ==> Lookup(cache, key, kwargs) == Some(Text(kwargs[name]))
    ensures name !in kwargs ==> Lookup(cache, key, kwargs) == Some(Text("Missing format key: " + Repr(name)))
    ensures name !in kwargs && QuietText(name) ==>
      Lookup(cache, key, kwargs) == Some(Text("Missing format key: '" + name + "'"))
  {
    LookupFormats(cache, key, "{" + name + "}", kwargs);
    FormatPlaceholder(name, kwargs);
    if QuietText(name) {
      MissingKeyQuiet(name);
    }
  }

  /** A missing key without quotes, backslashes or control characters is named in single quotes. */
  lemma MissingKeyQuiet(name: string)
    requires QuietText(name)
    ensures Report(MissingKey(name)) == Some(Text("Missing format key: '" + name + "'"))
  {
    ReprQuiet(name);
    assert "Missing format key: " + Repr(name) == "Missing format key: '" + name + "'";
  }

  /** With arguments, a stored text is reported as it formats. */
  lemma LookupFormats(cache: map<string, Entry>, key: string, t: string, kwargs: map<string, string>)
    requires key in cache && cache[key] == Text(t) && |kwargs| > 0
    ensures Lookup(cache, key, kwargs) == Report(Format(t, kwargs))
  {
  }

  /** A template that is one placeholder formats to its argument, or is a `KeyError`. */
  lemma FormatPlaceholder(name: string, kw: map<string, string>)
    requires PlainFieldName(name)
    ensures Format("{" + name + "}", kw) == if name in kw then Formatted(kw[name]) else MissingKey(name)
  {
    FormatAtField(name, "", kw);
    assert "{" + name + "}" + "" == "{" + name + "}";
    if name in kw {
      assert Format("", kw) == Formatted("");
      assert kw[name] + "" == kw[name];
    }
  }

  // ---------------------------------------------------------------------
  // Where documents can be found
  // ---------------------------------------------------------------------

  /** File and directory names never hold the path separator. */
  predicate PathNames(f: SourceFile) {
    '/' !in f.name && forall i :: 0 <= i < |f.dirs| ==> '/' !in f.dirs[i]
  }

  /** Every document the walk stores sits under a key without `/`. */
  lemma {:induction false} DocKeysHaveNoSlash(cache: map<string, Entry>, files: seq<SourceFile>)
    requires forall k :: k in cache && cache[k].Doc? ==> '/' !in k
    requires forall i :: 0 <= i < |files| ==> PathNames(files[i])
    ensures forall k :: k in LoadAll(cache, files) && LoadAll(cache, files)[k].Doc? ==> '/' !in k
    decreases |files|
  {
    if |files| > 0 {
      var before := LoadAll(cache, files[..|files| - 1]);
      DocKeysHaveNoSlash(cache, files[..|files| - 1]);
      var f := files[|files| - 1];
      if !EndsWith(f.name, ".txt") && EndsWith(f.name, ".json") {
        var category := Category(f.dirs);
        JoinAvoids(".", f.dirs, '/');
        var stem := Stem(f.name);
        assert forall i :: 0 <= i < |stem| ==> stem[i] == f.name[i];
        assert '/' !in FullKey(category, stem);
      }
    }
  }

  /** A JSON file `d/n.json` is found under the dotted key `d.n`. */
  lemma JsonFileKey(dir: string, stem: string, content: string, doc: Json)
    requires dir != "" && '.' !in dir && (exists i :: 0 <= i < |stem| && stem[i] != '.')
    ensures var f := SourceFile([dir], stem + ".json", content, doc);
      JsonLookup(LoadAll(map[], [f]), dir + "." + stem) == Doc(doc)
  {
    var f := SourceFile([dir], stem + ".json", content, doc);
    var fs: seq<SourceFile> := [f];
    assert fs[..0] == [];
    StemOfExtension(stem, "json");
    assert stem + ".json" == stem + "." + "json";
    assert !EndsWith(f.name, ".txt") by {
      assert f.name[|f.name| - 4..] == "json";
    }
    assert EndsWith(f.name, ".json") by {
      assert f.name[|f.name| - 5..] == ".json";
    }
    assert Category([dir]) == dir;
  }

  // ---------------------------------------------------------------------
  // The manager
  // ---------------------------------------------------------------------

  class TextManager {
    /** `_cache`: full key to text line or JSON document. */
    var cache: map<string, Entry>

    /** `TextManager()`: an empty cache, then every file of the walk loaded. */
    constructor (files: seq<SourceFile>)
      ensures cache == LoadAll(map[], files)
    {
      cache := map[];
      new;
      LoadAllTexts(files);
    }

    /** `_load_text_file`: the lines read one by one into a fresh dictionary. */
    method LoadTextFile(name: string, content: string) returns (messages: map<string, string>)
      ensures messages == ParseLines(Lines(content), Stem(name))
    {
      var lines := Lines(content);
      var stem := Stem(name);
      messages := map[];
      var i := 0;
      while i < |lines|
        invariant 0 <= i <= |lines|
        invariant messages == ParseLines(lines[..i], stem)
      {
        messages := ReadLine(messages, lines[i], stem);
        ParseLinesStep(lines, i, stem);
        i := i + 1;
      }
      assert lines[..|lines|] == lines;
    }

    /** One line of `_load_text_file`: `key=value` split at the first `=` of the stripped line, else the stem's entry. */
    static method ReadLine(messages: map<string, string>, line: string, stem: string) returns (m: map<string, string>)
      ensures m == ParseLine(messages, line, stem)
    {
      if '=' in line {
        StripKeeps(line, '=');
        var parts := SplitOnce(Strip(line), '=');
        m := messages[parts[0] := parts[1]];
      } else {
        m := messages[stem := Strip(line)];
      }
    }

    /** `_load_all_texts`: each file of the walk in turn, each message of a text file under its full key. */
    method LoadAllTexts(files: seq<SourceFile>)
      modifies this
      ensures cache == LoadAll(old(cache), files)
    {
      ghost var start := cache;
      var n := 0;
      while n < |files|
        invariant 0 <= n <= |files|
        invariant cache == LoadAll(start, files[..n])
      {
        var f := files[n];
        var category := Category(f.dirs);
        assert files[..n + 1][..n] == files[..n];
        if EndsWith(f.name, ".txt") {
          var messages := LoadTextFile(f.name, f.content);
          AddMessages(category, messages);
        } else if EndsWith(f.name, ".json") {
          cache := cache[FullKey(category, Stem(f.name)) := Doc(f.parsed)];
        }
        n := n + 1;
      }
      assert files[..|files|] == files;
    }

    /** The inner loop of `_load_all_texts`: each message of one text file stored under its full key. */
    method AddMessages(category: string, messages: map<string, string>)
      modifies this
      ensures cache == old(cache) + Prefixed(category, messages)
    {
      ghost var before := cache;
      var todo := messages.Keys;
      assert messages - todo == map[];
      while todo != {}
        invariant todo <= messages.Keys
        invariant cache == before + Prefixed(category, messages - todo)
        decreases todo
      {
        var k :| k in todo;
        StepPrefixed(before, category, messages, todo, k);
        cache := cache[FullKey(category, k) := Text(messages[k])];
        todo := todo - {k};
      }
      assert messages - {} == messages;
    }

    /** `get(key, **kwargs)`. */
    function Get(key: string, kwargs: map<string, string>): (r: Option<Entry>)
      reads this
      ensures |kwargs| == 0 && key !in cache ==> r == Some(Text(key))
    {
      Lookup(cache, key, kwargs)
    }

    /** `get_json(key)`. */
    function GetJson(key: string): (r: Entry)
      reads this
      ensures key !in cache ==> r == Doc(JObject(map[]))
    {
      JsonLookup(cache, key)
    }
  }

  /** One more message of a text file moved into the cache. */
  lemma StepPrefixed(before: map<string, Entry>, category: string, messages: map<string, string>, todo: set<string>, k: string)
    requires k in todo && todo <= messages.Keys
    ensures (before + Prefixed(category, messages - todo))[FullKey(category, k) := Text(messages[k])]
      == before + Prefixed(category, messages - (todo - {k}))
  {
    var done := messages - todo;
    assert messages - (todo - {k}) == done[k := messages[k]];
    PrefixedAdd(category, done, k, messages[k]);
    UnionUpdate(before, Prefixed(category, done), FullKey(category, k), Text(messages[k]));
  }

  /** Updating a union updates its right operand. */
  lemma UnionUpdate<K, V>(a: map<K, V>, b: map<K, V>, x: K, v: V)
    ensures (a + b)[x := v] == a + b[x := v]
  {
  }

  lemma PrefixedAdd(category: string, m: map<string, string>, k: string, v: string)
    ensures Prefixed(category, m[k := v]) == Prefixed(category, m)[FullKey(category, k) := Text(v)]
  {
    var lhs := Prefixed(category, m[k := v]);
    var rhs := Prefixed(category, m)[FullKey(category, k) := Text(v)];
    PrefixedAddLeftAll(category, m, k, v);
    PrefixedAddRightAll(category, m, k, v);
    assert lhs.Keys == rhs.Keys;
    assert lhs == rhs;
  }

  lemma PrefixedAddLeftAll(category: string, m: map<string, string>, k: string, v: string)
    ensures var lhs, rhs := Prefixed(category, m[k := v]), Prefixed(category, m)[FullKey(category, k) := Text(v)];
      forall fk :: fk in lhs ==> fk in rhs && rhs[fk] == lhs[fk]
  {
    var lhs := Prefixed(category, m[k := v]);
    forall fk | fk in lhs
      ensures fk in Prefixed(category, m)[FullKey(category, k) := Text(v)]
      ensures Prefixed(category, m)[FullKey(category, k) := Text(v)][fk] == lhs[fk]
    {
      PrefixedAddLeft(category, m, k, v, fk);
    }
  }

  lemma PrefixedAddRightAll(category: string, m: map<string, string>, k: string, v: string)
    ensures var lhs, rhs := Prefixed(category, m[k := v]), Prefixed(category, m)[FullKey(category, k) := Text(v)];
      forall fk :: fk in rhs ==> fk in lhs
  {
    var rhs := Prefixed(category, m)[FullKey(category, k) := Text(v)];
    forall fk | fk in rhs
      ensures fk in Prefixed(category, m[k := v])
    {
      PrefixedAddRight(category, m, k, v, fk);
    }
  }

  lemma PrefixedAddLeft(category: string, m: map<string, string>, k: string, v: string, fk: string)
    requires fk in Prefixed(category, m[k := v])
    ensures fk in Prefixed(category, m)[FullKey(category, k) := Text(v)]
    ensures Prefixed(category, m)[FullKey(category, k) := Text(v)][fk] == Prefixed(category, m[k := v])[fk]
  {
    var m2 := m[k := v];
    var x :| x in m2 && fk == FullKey(category, x);
    if x == k {
      assert Prefixed(category, m2)[fk] == Text(v);
    } else {
      assert x in m && m2[x] == m[x];
      assert fk != FullKey(category, k) by {
        if fk == FullKey(category, k) {
          FullKeyInjective(category, x, k);
        }
      }
    }
  }

  lemma PrefixedAddRight(category: string, m: map<string, string>, k: string, v: string, fk: string)
    requires fk in Prefixed(category, m)[FullKey(category, k) := Text(v)]
    ensures fk in Prefixed(category, m[k := v])
  {
    if fk != FullKey(category, k) {
      var x :| x in m && fk == FullKey(category, x);
      assert x in m[k := v];
    }
  }
}
