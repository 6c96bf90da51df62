/**
 * The Python string and integer built-ins the bot relies on, written out
 * with Python's semantics: `str.replace` (every non-overlapping occurrence,
 * left to right), `str.split(sep)` on a one-character separator,
 * `sep.join`, `str.strip`, `str.split()` on whitespace, slicing with
 * negative indices, `int(text)` and `str(n)`, and floor division.
 * Character classes (`isdigit`, `lower`) are the ASCII subset.
 */
module PyStr {
  import opened Wrappers

  // ---------------------------------------------------------------------
  // Characters
  // ---------------------------------------------------------------------

  /** Python's `str.isspace` for one character. */
  predicate IsSpace(c: char) {
    c == ' ' || ('\t' <= c <= '\r') || ('\U{1c}' <= c <= '\U{1f}')
    || c == '\U{85}' || c == '\U{a0}' || c == '\U{1680}'
    || ('\U{2000}' <= c <= '\U{200a}') || c == '\U{2028}' || c == '\U{2029}'
    || c == '\U{202f}' || c == '\U{205f}' || c == '\U{3000}'
  }

  predicate IsDigit(c: char) { '0' <= c <= '9' }

  /** `str.isdigit()` restricted to ASCII digits: non-empty and all digits. */
  predicate IsDigits(s: string) {
    |s| > 0 && forall i :: 0 <= i < |s| ==> IsDigit(s[i])
  }

  function LowerChar(c: char): char {
    if 'A' <= c <= 'Z' then (c as int + 32) as char else c
  }

  /** `str.lower()` on ASCII letters. */
  function Lower(s: string): string {
    seq(|s|, i requires 0 <= i < |s| => LowerChar(s[i]))
  }

  /** Python truthiness of an optional string: present and non-empty. */
  predicate Truthy(o: Option<string>) {
    o.Some? && o.value != ""
  }

  // ---------------------------------------------------------------------
  // Prefixes and substrings
  // ---------------------------------------------------------------------

  predicate StartsWith(s: string, p: string) {
    |p| <= |s| && s[..|p|] == p
  }

  predicate EndsWith(s: string, p: string) {
    |p| <= |s| && s[|s| - |p|..] == p
  }

  lemma StartsWithExtend(s: string, p: string, t: string)
    requires StartsWith(s, p)
    ensures StartsWith(s + t, p)
  {
    assert (s + t)[..|p|] == s[..|p|];
  }

  lemma EndsWithConcat(a: string, b: string)
    ensures EndsWith(a + b, b)
  {
    assert (a + b)[|a + b| - |b|..] == b;
  }

  lemma EndsWithAfter(a: string, b: string, p: string)
    requires EndsWith(b, p)
    ensures EndsWith(a + b, p)
  {
    assert (a + b)[|a + b| - |p|..] == b[|b| - |p|..];
  }

  /** `sub in s`. */
  predicate Contains(s: string, sub: string)
    decreases |s|
  {
    StartsWith(s, sub) || (|s| > 0 && Contains(s[1..], sub))
  }

  /** `any(c in s for c in chars)`. */
  predicate ContainsAny(s: string, chars: string) {
    exists i :: 0 <= i < |s| && s[i] in chars
  }

  lemma ContainsConcatLeft(a: string, b: string, sub: string)
    requires Contains(a, sub)
    ensures Contains(a + b, sub)
    decreases |a|
  {
    if StartsWith(a, sub) {
      assert (a + b)[..|sub|] == a[..|sub|];
    } else {
      assert (a + b)[1..] == a[1..] + b;
      ContainsConcatLeft(a[1..], b, sub);
    }
  }

  lemma ContainsAt(s: string, i: nat, sub: string)
    requires i + |sub| <= |s| && s[i..i + |sub|] == sub
    ensures Contains(s, sub)
    decreases i
  {
    if i > 0 {
      assert s[1..][i - 1..i - 1 + |sub|] == s[i..i + |sub|];
      ContainsAt(s[1..], i - 1, sub);
    }
  }

  /** `sub` occurs in `s` starting at index `i`. */
  predicate OccursAt(s: string, sub: string, i: int) {
    0 <= i && i + |sub| <= |s| && s[i..i + |sub|] == sub
  }

  /** A substring test that succeeds has a position. */
  lemma {:induction false} ContainsWitness(s: string, sub: string)
    requires Contains(s, sub)
    ensures exists i :: OccursAt(s, sub, i)
    decreases |s|
  {
    if StartsWith(s, sub) {
      assert OccursAt(s, sub, 0);
    } else {
      ContainsWitness(s[1..], sub);
      var i :| OccursAt(s[1..], sub, i);
      assert s[1..][i..i + |sub|] == s[i + 1..i + 1 + |sub|];
      assert OccursAt(s, sub, i + 1);
    }
  }

  // ---------------------------------------------------------------------
  // str.replace
  // ---------------------------------------------------------------------

  /** `"".join(rep + c for c in s) + rep`: what `str.replace` does with an empty pattern. */
  function InsertEverywhere(s: string, rep: string): string
    decreases |s|
  {
    if |s| == 0 then rep else rep + [s[0]] + InsertEverywhere(s[1..], rep)
  }

  /** `s.replace(pat, rep)`: every non-overlapping occurrence, scanning left to right. */
  function Replace(s: string, pat: string, rep: string): string
    decreases |s|
  {
    if |pat| == 0 then InsertEverywhere(s, rep)
    else if |s| == 0 then ""
    else if StartsWith(s, pat) then rep + Replace(s[|pat|..], pat, rep)
    else [s[0]] + Replace(s[1..], pat, rep)
  }

  /** A string without the pattern comes back unchanged. */
  lemma {:induction false} ReplaceAbsent(s: string, pat: string, rep: string)
    requires |pat| > 0 && !Contains(s, pat)
    ensures Replace(s, pat, rep) == s
    decreases |s|
  {
    if |s| > 0 {
      ReplaceAbsent(s[1..], pat, rep);
      assert [s[0]] + s[1..] == s;
    }
  }

  /** Removing a pattern from text that starts with it removes that leading copy and then works on the rest. */
  lemma ReplaceLeading(pat: string, u: string)
    requires |pat| > 0
    ensures Replace(pat + u, pat, "") == Replace(u, pat, "")
  {
    var s := pat + u;
    assert s[..|pat|] == pat;
    assert s[|pat|..] == u;
  }

  /** Text none of whose characters can begin the pattern passes through a removal unchanged. */
  lemma {:induction false} ReplaceSkips(d: string, rest: string, pat: string)
    requires |pat| > 0 && pat[0] !in d
    ensures Replace(d + rest, pat, "") == d + Replace(rest, pat, "")
    decreases |d|
  {
    if |d| > 0 {
      var s := d + rest;
      assert s[0] == d[0] && !StartsWith(s, pat);
      assert s[1..] == d[1..] + rest;
      ReplaceSkips(d[1..], rest, pat);
      assert [d[0]] + d[1..] == d;
    } else {
      assert d + rest == rest;
    }
  }

  /** Replacing a one-character pattern maps each character independently. */
  lemma {:induction false} ReplaceCharConcat(a: string, b: string, c: char, rep: string)
    ensures Replace(a + b, [c], rep) == Replace(a, [c], rep) + Replace(b, [c], rep)
    decreases |a|
  {
    if |a| > 0 {
      assert (a + b)[1..] == a[1..] + b;
      ReplaceCharConcat(a[1..], b, c, rep);
    } else {
      assert a + b == b;
    }
  }

  // ---------------------------------------------------------------------
  // str.split(sep) and sep.join
  // ---------------------------------------------------------------------

  /** `s.split(sep)` for a one-character separator; never empty. */
  function Split(s: string, sep: char): (parts: seq<string>)
    ensures |parts| >= 1
    ensures forall i :: 0 <= i < |parts| ==> sep !in parts[i]
    decreases |s|
  {
    if |s| == 0 then [""]
    else
      var rest := Split(s[1..], sep);
      if s[0] == sep then [""] + rest
      else [[s[0]] + rest[0]] + rest[1..]
  }

  /** `sep.join(parts)`. */
  function Join(sep: string, parts: seq<string>): string
    decreases |parts|
  {
    if |parts| == 0 then ""
    else if |parts| == 1 then parts[0]
    else parts[0] + sep + Join(sep, parts[1..])
  }

  /** A character in neither the separator nor any part is not in the joined text. */
  lemma {:induction false} JoinAvoids(sep: string, parts: seq<string>, c: char)
    requires c !in sep && forall i :: 0 <= i < |parts| ==> c !in parts[i]
    ensures c !in Join(sep, parts)
    decreases |parts|
  {
    if |parts| > 1 {
      JoinAvoids(sep, parts[1..], c);
    }
  }

  /** Splitting and joining back on the same character is the identity. */
  lemma {:induction false} JoinSplit(s: string, sep: char)
    ensures Join([sep], Split(s, sep)) == s
    decreases |s|
  {
    if |s| > 0 {
      var rest := Split(s[1..], sep);
      JoinSplit(s[1..], sep);
      if s[0] == sep {
        assert Split(s, sep) == [""] + rest;
      } else {
        var parts := Split(s, sep);
        assert parts == [[s[0]] + rest[0]] + rest[1..];
        if |rest| == 1 {
          assert Join([sep], rest) == rest[0];
        } else {
          assert Join([sep], rest) == rest[0] + [sep] + Join([sep], rest[1..]);
          assert parts[1..] == rest[1..];
        }
      }
    }
  }

  /** A string free of the separator is a single part. */
  lemma {:induction false} SplitAbsent(s: string, sep: char)
    requires sep !in s
    ensures Split(s, sep) == [s]
    decreases |s|
  {
    if |s| > 0 {
      SplitAbsent(s[1..], sep);
      assert [s[0]] + s[1..] == s;
    }
  }

  /** A separator between two strings splits them apart. */
  lemma {:induction false} SplitConcat(a: string, b: string, sep: char)
    ensures Split(a + [sep] + b, sep) == Split(a, sep) + Split(b, sep)
    decreases |a|
  {
    if |a| == 0 {
      assert a + [sep] + b == [sep] + b;
      assert ([sep] + b)[1..] == b;
    } else {
      assert (a + [sep] + b)[1..] == a[1..] + [sep] + b;
      SplitConcat(a[1..], b, sep);
    }
  }

  /** Joining parts that are free of the separator and splitting again gives the parts back. */
  lemma {:induction false} SplitJoin(parts: seq<string>, sep: char)
    requires |parts| >= 1
    requires forall i :: 0 <= i < |parts| ==> sep !in parts[i]
    ensures Split(Join([sep], parts), sep) == parts
    decreases |parts|
  {
    if |parts| == 1 {
      SplitAbsent(parts[0], sep);
    } else {
      SplitJoin(parts[1..], sep);
      SplitConcat(parts[0], Join([sep], parts[1..]), sep);
      SplitAbsent(parts[0], sep);
      assert [parts[0]] + parts[1..] == parts;
    }
  }

  /** `s.split(sep, 1)`: the text before the first separator and the rest, or `[s]`. */
  function SplitOnce(s: string, sep: char): (parts: seq<string>)
    ensures sep !in s ==> parts == [s]
    ensures sep in s ==> |parts| == 2 && sep !in parts[0] && parts[0] + [sep] + parts[1] == s
    decreases |s|
  {
    if |s| == 0 then [s]
    else if s[0] == sep then ["", s[1..]]
    else
      var rest := SplitOnce(s[1..], sep);
      assert [s[0]] + s[1..] == s;
      if |rest| == 1 then [s] else [[s[0]] + rest[0], rest[1]]
  }

  /** The first separator is the one after a separator-free head. */
  lemma {:induction false} SplitOnceAt(d: string, u: string, sep: char)
    requires sep !in d
    ensures SplitOnce(d + [sep] + u, sep) == [d, u]
    decreases |d|
  {
    var s := d + [sep] + u;
    if |d| == 0 {
      assert s == [sep] + u;
      assert s[1..] == u;
    } else {
      assert s[0] == d[0] && s[1..] == d[1..] + [sep] + u;
      SplitOnceAt(d[1..], u, sep);
      assert [d[0]] + d[1..] == d;
    }
  }

  // ---------------------------------------------------------------------
  // Whitespace
  // ---------------------------------------------------------------------

  function LStrip(s: string): string
    decreases |s|
  {
    if |s| > 0 && IsSpace(s[0]) then LStrip(s[1..]) else s
  }

  function RStrip(s: string): string
    decreases |s|
  {
    if |s| > 0 && IsSpace(s[|s| - 1]) then RStrip(s[..|s| - 1]) else s
  }

  /** `s.strip()`: the longest middle part with no whitespace at either end. */
  function Strip(s: string): (r: string)
    ensures |r| <= |s|
    ensures |r| > 0 ==> !IsSpace(r[0]) && !IsSpace(r[|r| - 1])
  {
    StripShape(s);
    RStrip(LStrip(s))
  }

  lemma {:induction false} LStripShape(s: string)
    ensures |LStrip(s)| <= |s|
    ensures |LStrip(s)| > 0 ==> !IsSpace(LStrip(s)[0])
    ensures LStrip(s) == s[|s| - |LStrip(s)|..]
    decreases |s|
  {
    if |s| > 0 && IsSpace(s[0]) {
      LStripShape(s[1..]);
    }
  }

  lemma {:induction false} RStripShape(s: string)
    ensures |RStrip(s)| <= |s|
    ensures |RStrip(s)| > 0 ==> !IsSpace(RStrip(s)[|RStrip(s)| - 1])
    ensures RStrip(s) == s[..|RStrip(s)|]
    ensures |RStrip(s)| > 0 && |s| > 0 && !IsSpace(s[0]) ==> RStrip(s)[0] == s[0]
    ensures |s| > 0 && !IsSpace(s[0]) ==> |RStrip(s)| > 0
    decreases |s|
  {
    if |s| > 0 && IsSpace(s[|s| - 1]) {
      RStripShape(s[..|s| - 1]);
    }
  }

  lemma StripShape(s: string)
    ensures |RStrip(LStrip(s))| <= |s|
    ensures |RStrip(LStrip(s))| > 0 ==>
      !IsSpace(RStrip(LStrip(s))[0]) && !IsSpace(RStrip(LStrip(s))[|RStrip(LStrip(s))| - 1])
  {
    LStripShape(s);
    RStripShape(LStrip(s));
  }

  /** Text that neither starts nor ends with whitespace is its own strip. */
  lemma StripNoEdges(s: string)
    requires |s| > 0 ==> !IsSpace(s[0]) && !IsSpace(s[|s| - 1])
    ensures Strip(s) == s
  {
  }

  /** Stripping removes only whitespace: every other character survives. */
  lemma {:induction false} StripKeeps(s: string, c: char)
    requires c in s && !IsSpace(c)
    ensures c in Strip(s)
  {
    LStripKeeps(s, c);
    RStripKeeps(LStrip(s), c);
  }

  lemma {:induction false} LStripKeeps(s: string, c: char)
    requires c in s && !IsSpace(c)
    ensures c in LStrip(s)
    decreases |s|
  {
    if IsSpace(s[0]) {
      assert c != s[0];
      assert c in s[1..] by {
        var i :| 0 <= i < |s| && s[i] == c;
        assert s[1..][i - 1] == c;
      }
      LStripKeeps(s[1..], c);
    }
  }

  lemma {:induction false} RStripKeeps(s: string, c: char)
    requires c in s && !IsSpace(c)
    ensures c in RStrip(s)
    decreases |s|
  {
    if IsSpace(s[|s| - 1]) {
      assert c in s[..|s| - 1] by {
        var i :| 0 <= i < |s| && s[i] == c;
        assert i < |s| - 1;
        assert s[..|s| - 1][i] == c;
      }
      RStripKeeps(s[..|s| - 1], c);
    }
  }

  /** Stripping never cuts into an occurrence whose own ends are not whitespace. */
  lemma StripContains(s: string, sub: string)
    requires Contains(s, sub)
    requires |sub| > 0 && !IsSpace(sub[0]) && !IsSpace(sub[|sub| - 1])
    ensures Contains(Strip(s), sub)
  {
    LStripContains(s, sub);
    RStripContains(LStrip(s), sub);
  }

  lemma {:induction false} LStripContains(s: string, sub: string)
    requires Contains(s, sub)
    requires |sub| > 0 && !IsSpace(sub[0])
    ensures Contains(LStrip(s), sub)
    decreases |s|
  {
    if |s| > 0 && IsSpace(s[0]) {
      LStripContains(s[1..], sub);
    }
  }

  lemma {:induction false} RStripContains(s: string, sub: string)
    requires Contains(s, sub)
    requires |sub| > 0 && !IsSpace(sub[|sub| - 1])
    ensures Contains(RStrip(s), sub)
    decreases |s|
  {
    if |s| > 0 && IsSpace(s[|s| - 1]) {
      ContainsWitness(s, sub);
      var i :| OccursAt(s, sub, i);
      assert s[i + |sub| - 1] == sub[|sub| - 1];
      var t := s[..|s| - 1];
      assert t[i..i + |sub|] == s[i..i + |sub|];
      ContainsAt(t, i, sub);
      RStripContains(t, sub);
    }
  }

  /** The longest prefix of `s` without whitespace. */
  function TakeWord(s: string): (w: string)
    ensures |w| <= |s| && w == s[..|w|]
    ensures forall i :: 0 <= i < |w| ==> !IsSpace(w[i])
    ensures |w| < |s| ==> IsSpace(s[|w|])
    decreases |s|
  {
    if |s| == 0 || IsSpace(s[0]) then ""
    else [s[0]] + TakeWord(s[1..])
  }

  /** `s.split()`: the maximal runs of non-whitespace characters. */
  function Words(s: string): (ws: seq<string>)
    ensures forall k :: 0 <= k < |ws| ==> |ws[k]| > 0
    ensures forall k, i :: 0 <= k < |ws| && 0 <= i < |ws[k]| ==> !IsSpace(ws[k][i])
    decreases |s|
  {
    if |s| == 0 then []
    else if IsSpace(s[0]) then Words(s[1..])
    else
      var w := TakeWord(s);
      [w] + Words(s[|w|..])
  }

  // ---------------------------------------------------------------------
  // Slicing
  // ---------------------------------------------------------------------

  /** A Python slice bound: negative counts from the end, then clamped into `0..n`. */
  function ClampIndex(i: int, n: nat): (r: nat)
    ensures r <= n
  {
    if i < 0 then (if i + n < 0 then 0 else i + n)
    else if i > n then n
    else i
  }

  /** `s[start:stop]`. */
  function Slice<T>(s: seq<T>, start: int, stop: int): (r: seq<T>)
    ensures |r| <= |s|
  {
    var a := ClampIndex(start, |s|);
    var b := ClampIndex(stop, |s|);
    if a < b then s[a..b] else []
  }

  /** `s[start:]`. */
  function SliceFrom<T>(s: seq<T>, start: int): seq<T> {
    Slice(s, start, |s|)
  }

  /** `s[:stop]`. */
  function SliceTo<T>(s: seq<T>, stop: int): (r: seq<T>)
    ensures |r| <= |s| && r == s[..|r|]
    ensures stop >= 0 ==> |r| == if stop < |s| then stop else |s|
  {
    Slice(s, 0, stop)
  }

  // ---------------------------------------------------------------------
  // Integers: floor division, str(n), int(text)
  // ---------------------------------------------------------------------

  /** Python's `a // b` (rounds toward negative infinity). */
  function FloorDiv(a: int, b: int): (q: int)
    requires b != 0
    ensures b > 0 ==> q * b <= a < q * b + b
    ensures b < 0 ==> q * b >= a > q * b + b
  {
    if b > 0 then a / b else (-a) / (-b)
  }

  /** Python's `a % b` (takes the sign of `b`). */
  function FloorMod(a: int, b: int): (r: int)
    requires b != 0
    ensures a == FloorDiv(a, b) * b + r
    ensures b > 0 ==> 0 <= r < b
  {
    a - FloorDiv(a, b) * b
  }

  function DigitChar(d: nat): (c: char)
    requires d < 10
    ensures IsDigit(c)
  {
    ('0' as int + d) as char
  }

  function CharValue(c: char): nat
    requires IsDigit(c)
  {
    c as int - '0' as int
  }

  /** Decimal digits of a natural number, without leading zeros. */
  function NatToString(n: nat): (s: string)
    ensures IsDigits(s)
    decreases n
  {
    if n < 10 then [DigitChar(n)] else NatToString(n / 10) + [DigitChar(n % 10)]
  }

  /** `str(n)` for an int. */
  function IntToString(n: int): (s: string)
    ensures |s| > 0
    ensures IsDigit(s[|s| - 1])
    ensures n >= 0 ==> IsDigits(s)
    ensures n < 0 ==> s[0] == '-' && IsDigits(s[1..])
  {
    if n < 0 then "-" + NatToString(-n) else NatToString(n)
  }

  /** `f"{n:0{width}d}"` for a natural number. */
  function ZeroPad(n: nat, width: nat): (s: string)
    ensures IsDigits(s)
    ensures |s| >= width
  {
    var digits := NatToString(n);
    if |digits| >= width then digits
    else seq(width - |digits|, _ => '0') + digits
  }

  /** The digit groups `int()` accepts: digits, with single underscores between digits. */
  predicate IsDigitRun(s: string) {
    && |s| > 0
    && IsDigit(s[0]) && IsDigit(s[|s| - 1])
    && (forall i :: 0 <= i < |s| ==> IsDigit(s[i]) || s[i] == '_')
    && (forall i :: 0 <= i < |s| - 1 ==> !(s[i] == '_' && s[i + 1] == '_'))
  }

  /** The number a digit run spells, underscores ignored. */
  function RunValue(s: string): nat
    requires forall i :: 0 <= i < |s| ==> IsDigit(s[i]) || s[i] == '_'
    decreases |s|
  {
    if |s| == 0 then 0
    else if s[|s| - 1] == '_' then RunValue(s[..|s| - 1])
    else RunValue(s[..|s| - 1]) * 10 + CharValue(s[|s| - 1])
  }

  /** `int(text)`: whitespace around, an optional sign, then a digit run; `None` for a ValueError. */
  function ParseInt(text: string): (r: Option<int>)
    ensures r.Some? ==> |Strip(text)| > 0
  {
    var t := Strip(text);
    if |t| > 0 && (t[0] == '+' || t[0] == '-') then
      if IsDigitRun(t[1..]) then
        var v: int := RunValue(t[1..]);
        Some(if t[0] == '-' then -v else v)
      else None
    else if IsDigitRun(t) then Some(RunValue(t))
    else None
  }

  lemma {:induction false} NatToStringValue(n: nat)
    ensures IsDigitRun(NatToString(n))
    ensures RunValue(NatToString(n)) == n
    decreases n
  {
    var s := NatToString(n);
    if n >= 10 {
      NatToStringValue(n / 10);
      assert s[..|s| - 1] == NatToString(n / 10);
    } else {
      assert s[..|s| - 1] == [];
    }
  }

  /** `int(str(n)) == n`. */
  lemma ParseIntRoundTrip(n: int)
    ensures ParseInt(IntToString(n)) == Some(n)
  {
    var s := IntToString(n);
    StripNoEdges(s);
    assert Strip(s) == s;
    if n < 0 {
      var d := NatToString(-n);
      NatToStringValue(-n);
      assert s[1..] == d;
      assert IsDigitRun(s[1..]) && RunValue(s[1..]) == -n;
    } else {
      NatToStringValue(n);
      assert s[0] != '+' && s[0] != '-';
    }
  }

  /** `str(n)` is a decimal numeral: never contains the characters the bot uses as separators. */
  lemma IntToStringHasNoSeparators(n: int, c: char)
    requires c == '_' || c == ',' || c == ' ' || c == '|' || c == '{'
    ensures c !in IntToString(n)
  {
  }

  /** `str(n)` holds nothing but digits and a leading minus sign. */
  lemma IntToStringChars(n: int, c: char)
    requires !IsDigit(c) && c != '-'
    ensures c !in IntToString(n)
  {
    var s := IntToString(n);
    if n < 0 {
      forall i | 0 <= i < |s|
        ensures s[i] != c
      {
        if i > 0 {
          assert s[i] == s[1..][i - 1];
        }
      }
    }
  }

  /** Distinct numbers have distinct decimal forms. */
  lemma IntToStringInjective(a: int, b: int)
    requires IntToString(a) == IntToString(b)
    ensures a == b
  {
    ParseIntRoundTrip(a);
    ParseIntRoundTrip(b);
  }

  // ---------------------------------------------------------------------
  // repr of a string
  // ---------------------------------------------------------------------

  /** The quote `repr` puts around `s`: `"` when `s` holds `'` but no `"`, `'` otherwise. */
  function ReprQuote(s: string): (q: char)
    ensures q == '"' || q == '\''
  {
    if '\'' in s && '"' !in s then '"' else '\''
  }

  /** A lower-case hexadecimal digit. */
  function HexDigit(n: nat): char
    requires n < 16
  {
    if n < 10 then ('0' as int + n) as char else ('a' as int + n - 10) as char
  }

  /** A control character that `repr` writes as an escape. */
  predicate IsControl(c: char) {
    c < ' ' || c as int == 0x7f
  }

  /** One character as `repr` writes it inside the quote `q`. */
  function ReprChar(c: char, q: char): (r: string)
    ensures |r| >= 1
    ensures r == [c] <==> c != q && c != '\\' && !IsControl(c)
  {
    if c == q || c == '\\' then ['\\', c]
    else if c == '\t' then "\\t"
    else if c == '\n' then "\\n"
    else if c == '\r' then "\\r"
    else if IsControl(c) then "\\x" + [HexDigit(c as int / 16), HexDigit(c as int % 16)]
    else [c]
  }

  function ReprBody(s: string, q: char): (r: string)
    ensures |r| >= |s|
    decreases |s|
  {
    if |s| == 0 then "" else ReprChar(s[0], q) + ReprBody(s[1..], q)
  }

  /**
   * `repr(s)` for a str: quoted, with the quote, the backslash and the
   * control characters escaped.
   */
  function Repr(s: string): (r: string)
    ensures |r| >= |s| + 2 && r[0] == ReprQuote(s) && r[|r| - 1] == ReprQuote(s)
  {
    [ReprQuote(s)] + ReprBody(s, ReprQuote(s)) + [ReprQuote(s)]
  }

  /** Text that `repr` only puts in quotes. */
  predicate QuietText(s: string) {
    forall i :: 0 <= i < |s| ==> s[i] != '\'' && s[i] != '\\' && !IsControl(s[i])
  }

  lemma {:induction false} ReprBodyQuiet(s: string)
    requires QuietText(s)
    ensures ReprBody(s, '\'') == s
    decreases |s|
  {
    if |s| > 0 {
      assert QuietText(s[1..]) by {
        forall i | 0 <= i < |s[1..]| ensures s[1..][i] == s[i + 1] { }
      }
      ReprBodyQuiet(s[1..]);
      assert [s[0]] + s[1..] == s;
    }
  }

  /** Text without quotes, backslashes or control characters is only quoted by `repr`. */
  lemma ReprQuiet(s: string)
    requires QuietText(s)
    ensures Repr(s) == "'" + s + "'"
  {
    assert '\'' !in s;
    ReprBodyQuiet(s);
  }
}
