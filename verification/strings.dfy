/** Character classes and string primitives of the two host languages.

    JavaScript's `String.prototype.trim` and Python's `str.strip()` remove
    different whitespace sets, so both sets are spelled out. Case mapping is
    modelled for ASCII letters only. `Less` is code-point lexicographic order;
    it stands in for `localeCompare` (ICU collation orders `-`, `_` and digits
    differently) and is exactly Python's `<` on `str`. */
module Strings {
  import opened Numbers

  /** WhiteSpace and LineTerminator of ECMAScript (what `trim` removes). */
  predicate IsJsSpace(c: char) {
    c == ' ' || c == '\t' || c == '\n' || c == '\U{000B}' || c == '\U{000C}' || c == '\r'
    || c == '\U{00A0}' || c == '\U{1680}' || ('\U{2000}' <= c <= '\U{200A}')
    || c == '\U{2028}' || c == '\U{2029}' || c == '\U{202F}' || c == '\U{205F}'
    || c == '\U{3000}' || c == '\U{FEFF}'
  }

  /** Python's `str.isspace` set (what `strip()` and regex `\s` match). */
  predicate IsPySpace(c: char) {
    c == ' ' || ('\t' <= c <= '\r') || ('\U{001C}' <= c <= '\U{001F}')
    || c == '\U{0085}' || c == '\U{00A0}' || c == '\U{1680}' || ('\U{2000}' <= c <= '\U{200A}')
    || c == '\U{2028}' || c == '\U{2029}' || c == '\U{202F}' || c == '\U{205F}' || c == '\U{3000}'
  }

  predicate IsLowerAsciiLetter(c: char) {
    'a' <= c <= 'z'
  }

  predicate IsUpperAsciiLetter(c: char) {
    'A' <= c <= 'Z'
  }

  predicate IsDigit(c: char) {
    '0' <= c <= '9'
  }

  function ToLowerChar(c: char): (r: char)
    ensures IsUpperAsciiLetter(c) ==> IsLowerAsciiLetter(r) && r as int == c as int + 32
    ensures !IsUpperAsciiLetter(c) ==> r == c
  {
    if IsUpperAsciiLetter(c) then (c as int + 32) as char else c
  }

  function ToUpperChar(c: char): (r: char)
    ensures IsLowerAsciiLetter(c) ==> IsUpperAsciiLetter(r) && r as int == c as int - 32
    ensures !IsLowerAsciiLetter(c) ==> r == c
  {
    if IsLowerAsciiLetter(c) then (c as int - 32) as char else c
  }

  /** `toLowerCase()` / `lower()` restricted to ASCII letters. */
  function ToLower(s: string): (r: string)
    ensures |r| == |s|
    ensures forall i :: 0 <= i < |s| ==> r[i] == ToLowerChar(s[i])
    ensures forall i :: 0 <= i < |r| ==> !IsUpperAsciiLetter(r[i])
  {
    seq(|s|, i requires 0 <= i < |s| => ToLowerChar(s[i]))
  }

  lemma ToLowerOfLower(s: string)
    requires forall i :: 0 <= i < |s| ==> !IsUpperAsciiLetter(s[i])
    ensures ToLower(s) == s
  {
  }

  /** Removes leading characters of the class `ws`. */
  function TrimStart(s: string, ws: char -> bool): (r: string)
    ensures |r| <= |s| && r == s[|s| - |r|..]
    ensures |r| > 0 ==> !ws(r[0])
    ensures forall i :: 0 <= i < |s| - |r| ==> ws(s[i])
  {
    if |s| > 0 && ws(s[0]) then
      var r := TrimStart(s[1..], ws);
      assert forall i :: 1 <= i < |s| - |r| ==> s[i] == s[1..][i - 1];
      r
    else s
  }

  /** Removes trailing characters of the class `ws`. */
  function TrimEnd(s: string, ws: char -> bool): (r: string)
    ensures |r| <= |s| && r == s[..|r|]
    ensures |r| > 0 ==> !ws(r[|r| - 1])
    ensures forall i :: |r| <= i < |s| ==> ws(s[i])
  {
    if |s| > 0 && ws(s[|s| - 1]) then TrimEnd(s[..|s| - 1], ws) else s
  }

  /** Removes characters of the class `ws` from both ends. */
  function Trim(s: string, ws: char -> bool): (r: string)
    ensures |r| <= |s|
    ensures |r| > 0 ==> !ws(r[0]) && !ws(r[|r| - 1])
    ensures forall i :: 0 <= i < |s| && !ws(s[i]) ==> |r| > 0
  {
    TrimEnd(TrimStart(s, ws), ws)
  }

  /** The trimmed string is the middle of the input: only `ws` characters
      were removed, from the two ends. */
  lemma TrimIsInfix(s: string, ws: char -> bool)
    ensures |s| - |TrimStart(s, ws)| + |Trim(s, ws)| <= |s|
    ensures Trim(s, ws) == s[|s| - |TrimStart(s, ws)|..|s| - |TrimStart(s, ws)| + |Trim(s, ws)|]
    ensures forall i :: 0 <= i < |s| - |TrimStart(s, ws)| ==> ws(s[i])
    ensures forall i :: |s| - |TrimStart(s, ws)| + |Trim(s, ws)| <= i < |s| ==> ws(s[i])
  {
    var t := TrimStart(s, ws);
    var r := TrimEnd(t, ws);
    var k := |s| - |t|;
    assert t == s[k..];
    assert r == t[..|r|];
    forall i | k + |r| <= i < |s|
      ensures ws(s[i])
    {
      assert s[i] == t[i - k];
    }
  }

  /** A string with no `ws` character at either end is its own trim. */
  lemma TrimOfTrimmed(s: string, ws: char -> bool)
    requires |s| > 0 ==> !ws(s[0]) && !ws(s[|s| - 1])
    ensures Trim(s, ws) == s
  {
  }

  lemma TrimIdempotent(s: string, ws: char -> bool)
    ensures Trim(Trim(s, ws), ws) == Trim(s, ws)
  {
    TrimOfTrimmed(Trim(s, ws), ws);
  }

  /** JavaScript `s.trim()`. */
  function TrimJs(s: string): string {
    Trim(s, IsJsSpace)
  }

  /** Python `s.strip()`. */
  function StripPy(s: string): string {
    Trim(s, IsPySpace)
  }

  /** Lower-casing never turns a non-space into a space or back. */
  lemma {:induction false} TrimStartLower(s: string, ws: char -> bool)
    requires forall c :: ws(ToLowerChar(c)) == ws(c)
    ensures TrimStart(ToLower(s), ws) == ToLower(TrimStart(s, ws))
  {
    if |s| > 0 && ws(s[0]) {
      assert ToLower(s)[1..] == ToLower(s[1..]);
      TrimStartLower(s[1..], ws);
    }
  }

  lemma {:induction false} TrimEndLower(s: string, ws: char -> bool)
    requires forall c :: ws(ToLowerChar(c)) == ws(c)
    ensures TrimEnd(ToLower(s), ws) == ToLower(TrimEnd(s, ws))
  {
    if |s| > 0 && ws(s[|s| - 1]) {
      assert ToLower(s)[..|s| - 1] == ToLower(s[..|s| - 1]);
      TrimEndLower(s[..|s| - 1], ws);
    }
  }

  /** The normalisation both value objects apply: `raw.trim().toLowerCase()`. */
  function NormalizeJs(raw: string): (r: string)
    ensures |r| <= |raw|
    ensures forall i :: 0 <= i < |r| ==> !IsUpperAsciiLetter(r[i])
    ensures |r| > 0 ==> !IsJsSpace(r[0]) && !IsJsSpace(r[|r| - 1])
    ensures forall i :: 0 <= i < |raw| && !IsJsSpace(raw[i]) ==> |r| > 0
  {
    var t := TrimJs(raw);
    LowerKeepsJsEnds(t);
    ToLower(t)
  }

  /** Lower-casing ASCII letters never makes or removes JavaScript
      whitespace at either end. */
  lemma LowerKeepsJsEnds(t: string)
    ensures |t| > 0 ==> IsJsSpace(ToLower(t)[0]) == IsJsSpace(t[0])
    ensures |t| > 0 ==> IsJsSpace(ToLower(t)[|t| - 1]) == IsJsSpace(t[|t| - 1])
  {
  }

  /** A string that is already lower-case and trimmed is its own
      normalisation. */
  lemma NormalizeJsOfNormal(s: string)
    requires forall i :: 0 <= i < |s| ==> !IsUpperAsciiLetter(s[i])
    requires |s| > 0 ==> !IsJsSpace(s[0]) && !IsJsSpace(s[|s| - 1])
    ensures NormalizeJs(s) == s
  {
    TrimOfTrimmed(s, IsJsSpace);
    ToLowerOfLower(s);
  }

  lemma NormalizeJsIdempotent(raw: string)
    ensures NormalizeJs(NormalizeJs(raw)) == NormalizeJs(raw)
  {
    NormalizeJsOfNormal(NormalizeJs(raw));
  }

  /** Normalisation ignores the letter case of its input. */
  lemma NormalizeJsIgnoresCase(raw: string)
    ensures NormalizeJs(ToLower(raw)) == NormalizeJs(raw)
  {
    TrimStartLower(raw, IsJsSpace);
    TrimEndLower(TrimStart(raw, IsJsSpace), IsJsSpace);
    var t := TrimJs(raw);
    ToLowerOfLower(ToLower(t));
  }

  /** A UTF-16 code unit: what JavaScript's `length`, `slice` and `charAt`
      count, where a Dafny `string` counts Unicode scalar values. */
  type CodeUnit = x: int | 0 <= x < 0x1_0000

  /** A character outside the Basic Multilingual Plane, stored by
      JavaScript as a surrogate pair. */
  predicate IsAstral(c: char) {
    c as int >= 0x1_0000
  }

  /** The code units of one character: itself, or its surrogate pair. */
  function Utf16Char(c: char): (r: seq<CodeUnit>)
    ensures |r| == if IsAstral(c) then 2 else 1
    ensures IsAstral(c) ==> 0xD800 <= r[0] < 0xDC00 <= r[1] < 0xE000
    ensures !IsAstral(c) ==> r[0] == c as int
  {
    if IsAstral(c) then
      var v := c as int - 0x1_0000;
      assert v < 0x10_0000;
      [0xD800 + v / 0x400, 0xDC00 + v % 0x400]
    else [c as int]
  }

  /** JavaScript `s.length`: one unit per character, two per astral one. */
  function JsLength(s: string): (n: nat)
    ensures |s| <= n <= 2 * |s|
  {
    if |s| == 0 then 0 else JsLength(s[..|s| - 1]) + |Utf16Char(s[|s| - 1])|
  }

  /** The UTF-16 form JavaScript keeps a string in. */
  function Utf16(s: string): (r: seq<CodeUnit>)
    ensures |r| == JsLength(s)
  {
    if |s| == 0 then [] else Utf16(s[..|s| - 1]) + Utf16Char(s[|s| - 1])
  }

  /** Without astral characters, the JavaScript length is the character
      count and every code unit is its character. */
  lemma {:induction false} Utf16OfBmp(s: string)
    requires forall i :: 0 <= i < |s| ==> !IsAstral(s[i])
    ensures JsLength(s) == |s|
    ensures forall i :: 0 <= i < |s| ==> Utf16(s)[i] == s[i] as int
  {
    if |s| > 0 {
      var init := s[..|s| - 1];
      Utf16OfBmp(init);
      assert forall i :: 0 <= i < |init| ==> Utf16(s)[i] == Utf16(init)[i];
    }
  }

  /** Each astral character adds two to the JavaScript length. */
  lemma {:induction false} JsLengthAstral(s: string)
    requires forall i :: 0 <= i < |s| ==> IsAstral(s[i])
    ensures JsLength(s) == 2 * |s|
  {
    if |s| > 0 {
      JsLengthAstral(s[..|s| - 1]);
    }
  }

  /** The index JavaScript `slice` takes from its `end` argument on a
      sequence of `len` elements: NaN counts as 0, a fraction is dropped
      toward zero, a negative end counts from the back, and the result is
      clamped to the sequence. */
  function SliceIndex(end: Number, len: nat): (k: nat)
    ensures k <= len
    ensures end.NaN? || end.NegativeInfinity? ==> k == 0
    ensures end.PositiveInfinity? ==> k == len
    ensures end.Finite? && 0 <= TruncateToInt(end.x) <= len ==> k == TruncateToInt(end.x)
    ensures end.Finite? && TruncateToInt(end.x) > len ==> k == len
    ensures end.Finite? && TruncateToInt(end.x) < 0 ==> k == if len + TruncateToInt(end.x) < 0 then 0 else len + TruncateToInt(end.x)
  {
    match end
    case NaN => 0
    case NegativeInfinity => 0
    case PositiveInfinity => len
    case Finite(x) =>
      var t := TruncateToInt(x);
      if t < 0 then (if len + t < 0 then 0 else len + t)
      else if t > len then len
      else t
  }

  /** JavaScript `s.slice(0, end)` on a sequence. */
  function SlicePrefix<T>(s: seq<T>, end: Number): seq<T> {
    s[..SliceIndex(end, |s|)]
  }

  /** Code-point lexicographic strict order on strings. */
  predicate Less(a: string, b: string) {
    if |a| == 0 then |b| > 0
    else if |b| == 0 then false
    else if a[0] != b[0] then a[0] < b[0]
    else Less(a[1..], b[1..])
  }

  lemma {:induction false} LessIrreflexive(a: string)
    ensures !Less(a, a)
  {
    if |a| > 0 {
      LessIrreflexive(a[1..]);
    }
  }

  lemma {:induction false} LessAsymmetric(a: string, b: string)
    requires Less(a, b)
    ensures !Less(b, a)
  {
    if |a| > 0 && |b| > 0 && a[0] == b[0] {
      LessAsymmetric(a[1..], b[1..]);
    }
  }

  lemma {:induction false} LessTransitive(a: string, b: string, c: string)
    requires Less(a, b) && Less(b, c)
    ensures Less(a, c)
  {
    if |a| > 0 && |b| > 0 && |c| > 0 && a[0] == b[0] && b[0] == c[0] {
      LessTransitive(a[1..], b[1..], c[1..]);
    }
  }

  lemma {:induction false} LessTotal(a: string, b: string)
    ensures a == b || Less(a, b) || Less(b, a)
  {
    if |a| > 0 && |b| > 0 && a[0] == b[0] {
      LessTotal(a[1..], b[1..]);
      if a[1..] == b[1..] {
        assert a == [a[0]] + a[1..] && b == [b[0]] + b[1..];
      }
    }
  }

  /** Splitting on one separator character, as JavaScript's `split(",")` and
      Python's `split(",")` do: empty pieces are kept. */
  function Split(s: string, sep: char): (r: seq<string>)
    ensures |r| >= 1
    ensures forall i :: 0 <= i < |r| ==> sep !in r[i]
  {
    if |s| == 0 then [""]
    else
      var p := Split(s[..|s| - 1], sep);
      var c := s[|s| - 1];
      if c == sep then p + [""] else p[..|p| - 1] + [p[|p| - 1] + [c]]
  }

  /** Concatenates the pieces with the separator between consecutive ones. */
  function Join(parts: seq<string>, sep: char): string {
    if |parts| == 0 then ""
    else if |parts| == 1 then parts[0]
    else Join(parts[..|parts| - 1], sep) + [sep] + parts[|parts| - 1]
  }

  /** Joining non-empty parts that do not contain the separator leaves no
      separator at either end and never two in a row. */
  lemma {:induction false} JoinSingleSeparators(parts: seq<string>, sep: char)
    requires forall i :: 0 <= i < |parts| ==> |parts[i]| > 0 && sep !in parts[i]
    ensures var j := Join(parts, sep);
            (|j| == 0 <==> |parts| == 0)
            && (|j| > 0 ==> j[0] != sep && j[|j| - 1] != sep)
            && forall i :: 0 <= i < |j| - 1 && j[i] == sep ==> j[i + 1] != sep
    decreases |parts|
  {
    if |parts| > 1 {
      var init := parts[..|parts| - 1];
      var p := parts[|parts| - 1];
      JoinSingleSeparators(init, sep);
      var front := Join(init, sep);
      var j := Join(parts, sep);
      assert j == front + [sep] + p;
      assert p[0] != sep;
      forall i | 0 <= i < |j| - 1 && j[i] == sep
        ensures j[i + 1] != sep
      {
        if i < |front| - 1 {
          assert j[i] == front[i] && j[i + 1] == front[i + 1];
        } else if i == |front| {
          assert j[i + 1] == p[0];
        }
      }
    }
  }

  lemma {:induction false} JoinSplit(s: string, sep: char)
    ensures Join(Split(s, sep), sep) == s
  {
    if |s| > 0 {
      var pre := s[..|s| - 1];
      var c := s[|s| - 1];
      var p := Split(pre, sep);
      JoinSplit(pre, sep);
      SplitLast(s, sep);
      if c == sep {
        JoinAppendEmpty(p, sep);
        assert Split(s, sep) == p + [""];
      } else {
        JoinExtendLast(p, c, sep);
        assert Split(s, sep) == p[..|p| - 1] + [p[|p| - 1] + [c]];
      }
      assert Join(Split(s, sep), sep) == pre + [c];
      assert s == pre + [c];
    }
  }

  /** `Split` seen from its last character. */
  lemma SplitLast(s: string, sep: char)
    requires |s| > 0
    ensures var p := Split(s[..|s| - 1], sep);
            Split(s, sep) == if s[|s| - 1] == sep then p + [""] else p[..|p| - 1] + [p[|p| - 1] + [s[|s| - 1]]]
  {
  }

  /** A new empty last piece adds one separator. */
  lemma JoinAppendEmpty(p: seq<string>, sep: char)
    requires |p| >= 1
    ensures Join(p + [""], sep) == Join(p, sep) + [sep]
  {
    assert (p + [""])[..|p|] == p;
  }

  /** Growing the last piece by one character grows the text by it. */
  lemma JoinExtendLast(p: seq<string>, c: char, sep: char)
    requires |p| >= 1
    ensures Join(p[..|p| - 1] + [p[|p| - 1] + [c]], sep) == Join(p, sep) + [c]
  {
    var q := p[..|p| - 1] + [p[|p| - 1] + [c]];
    assert q[..|q| - 1] == p[..|p| - 1];
    if |p| > 1 {
      assert Join(p, sep) == Join(p[..|p| - 1], sep) + [sep] + p[|p| - 1];
    }
  }

  lemma {:induction false} SplitJoin(parts: seq<string>, sep: char)
    requires |parts| >= 1
    requires forall i :: 0 <= i < |parts| ==> sep !in parts[i]
    ensures Split(Join(parts, sep), sep) == parts
  {
    if |parts| == 1 {
      SplitNoSep(parts[0], sep);
    } else {
      var init := parts[..|parts| - 1];
      var last := parts[|parts| - 1];
      SplitJoin(init, sep);
      SplitAppend(Join(init, sep), last, sep);
      assert init + [last] == parts;
    }
  }

  lemma {:induction false} SplitNoSep(s: string, sep: char)
    requires sep !in s
    ensures Split(s, sep) == [s]
  {
    if |s| > 0 {
      SplitNoSep(s[..|s| - 1], sep);
      assert s[..|s| - 1] + [s[|s| - 1]] == s;
    }
  }

  /** Appending `sep + tail` (tail free of `sep`) adds exactly one piece. */
  lemma {:induction false} SplitAppend(head: string, tail: string, sep: char)
    requires sep !in tail
    ensures Split(head + [sep] + tail, sep) == Split(head, sep) + [tail]
  {
    if |tail| == 0 {
      assert head + [sep] + tail == head + [sep];
      assert (head + [sep])[..|head|] == head;
    } else {
      var t := tail[..|tail| - 1];
      var c := tail[|tail| - 1];
      SplitAppend(head, t, sep);
      assert head + [sep] + tail == (head + [sep] + t) + [c];
      assert (head + [sep] + tail)[..|head + [sep] + tail| - 1] == head + [sep] + t;
      assert t + [c] == tail;
    }
  }
}
