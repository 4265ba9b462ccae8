/** The companion-table generator: label normalisation, crop-name matching
    and the edge list it writes.

    The script reads a CSV of `(Source Node, Link, Destination Node)` rows
    and a crop catalogue, resolves each text to crop slugs, and writes the
    de-duplicated, sorted list of `(from, to, type)` edges. File reading,
    argument parsing, printing and the unmatched-rows report are not
    modelled; the catalogue, the aliases and the rows are parameters. */
module CompanionScript {
  import opened Strings
  import opened Seqs

  // ---------------------------------------------------------------------
  // norm

  /** `re.sub(r"\s+", " ", s)`: every run of whitespace becomes one space.
      `afterSpace` says the previous character was whitespace, so the run
      has already been written. */
  function Collapse(s: string, afterSpace: bool): (r: string)
    ensures |r| <= |s|
    ensures forall i :: 0 <= i < |r| && IsPySpace(r[i]) ==> r[i] == ' '
    ensures forall i :: 0 <= i < |r| - 1 && r[i] == ' ' ==> r[i + 1] != ' '
    ensures afterSpace && |r| > 0 ==> r[0] != ' '
    ensures |s| > 0 && !IsPySpace(s[0]) ==> |r| > 0 && r[0] == s[0]
    ensures |s| > 0 && !IsPySpace(s[|s| - 1]) ==> |r| > 0 && r[|r| - 1] == s[|s| - 1]
    ensures (forall i :: 0 <= i < |s| ==> !IsUpperAsciiLetter(s[i]))
            ==> forall i :: 0 <= i < |r| ==> !IsUpperAsciiLetter(r[i])
    decreases |s|
  {
    if |s| == 0 then ""
    else if IsPySpace(s[0]) then (if afterSpace then "" else " ") + Collapse(s[1..], true)
    else [s[0]] + Collapse(s[1..], false)
  }

  /** What `norm` produces: lower case, no whitespace but single inner
      spaces. */
  predicate Normalized(t: string) {
    (forall i :: 0 <= i < |t| ==> !IsUpperAsciiLetter(t[i]) && (IsPySpace(t[i]) ==> t[i] == ' '))
    && (forall i :: 0 <= i < |t| - 1 && t[i] == ' ' ==> t[i + 1] != ' ')
    && (|t| > 0 ==> t[0] != ' ' && t[|t| - 1] != ' ')
  }

  /** Lower-casing an ASCII letter never makes or removes whitespace. */
  lemma LowerKeepsSpaces(s: string)
    ensures forall i :: 0 <= i < |s| ==> IsPySpace(ToLower(s)[i]) == IsPySpace(s[i])
  {
  }

  /** `norm`: strip, lower-case, collapse whitespace runs. The result is
      normalised, and it is empty exactly when the text is all
      whitespace. */
  function Norm(s: string): (r: string)
    ensures Normalized(r)
    ensures r == "" <==> forall i :: 0 <= i < |s| ==> IsPySpace(s[i])
  {
    LoweredStripped(s);
    Collapse(ToLower(StripPy(s)), false)
  }

  /** The stripped, lower-cased label starts and ends with a non-space, and
      is empty exactly when the label is all whitespace. */
  lemma LoweredStripped(s: string)
    ensures var t := ToLower(StripPy(s));
            |t| > 0 ==> !IsPySpace(t[0]) && !IsPySpace(t[|t| - 1])
    ensures |ToLower(StripPy(s))| == 0 <==> forall i :: 0 <= i < |s| ==> IsPySpace(s[i])
  {
    var stripped := StripPy(s);
    LowerKeepsSpaces(stripped);
    if |stripped| == 0 {
      TrimIsInfix(s, IsPySpace);
    }
  }

  /** Collapsing a string that has no whitespace runs changes nothing. */
  lemma {:induction false} CollapseOfNormal(t: string, afterSpace: bool)
    requires forall i :: 0 <= i < |t| && IsPySpace(t[i]) ==> t[i] == ' '
    requires forall i :: 0 <= i < |t| - 1 && t[i] == ' ' ==> t[i + 1] != ' '
    requires afterSpace && |t| > 0 ==> t[0] != ' '
    ensures Collapse(t, afterSpace) == t
    decreases |t|
  {
    if |t| > 0 {
      CollapseOfNormal(t[1..], t[0] == ' ');
      assert t == [t[0]] + t[1..];
    }
  }

  /** A normalised label is its own `norm`. */
  lemma NormOfNormalized(t: string)
    requires Normalized(t)
    ensures Norm(t) == t
  {
    TrimOfTrimmed(t, IsPySpace);
    ToLowerOfLower(t);
    CollapseOfNormal(t, false);
  }

  /** `norm` is idempotent. */
  lemma NormIdempotent(s: string)
    ensures Norm(Norm(s)) == Norm(s)
  {
    NormOfNormalized(Norm(s));
  }

  // ---------------------------------------------------------------------
  // norm against Python's own words

  predicate AllSpace(x: string) {
    forall i :: 0 <= i < |x| ==> IsPySpace(x[i])
  }

  /** A word of `str.split()`: non-empty, without whitespace. */
  predicate IsPyWord(w: string) {
    |w| > 0 && forall i :: 0 <= i < |w| ==> !IsPySpace(w[i])
  }

  /** The length of the leading run of non-whitespace characters. */
  function WordLength(s: string): (n: nat)
    ensures n <= |s|
    ensures forall i :: 0 <= i < n ==> !IsPySpace(s[i])
    ensures n < |s| ==> IsPySpace(s[n])
  {
    if |s| == 0 || IsPySpace(s[0]) then 0 else 1 + WordLength(s[1..])
  }

  /** The leading word length is fixed by its two defining facts. */
  lemma WordLengthUnique(s: string, k: nat)
    requires k <= |s|
    requires forall i :: 0 <= i < k ==> !IsPySpace(s[i])
    requires k < |s| ==> IsPySpace(s[k])
    ensures WordLength(s) == k
  {
  }

  /** Python `s.split()`: the maximal runs of non-whitespace, in order. */
  function PyWords(s: string): (r: seq<string>)
    ensures forall i :: 0 <= i < |r| ==> IsPyWord(r[i])
    decreases |s|
  {
    if |s| == 0 then []
    else if IsPySpace(s[0]) then PyWords(s[1..])
    else
      var n := WordLength(s);
      [s[..n]] + PyWords(s[n..])
  }

  /** Leading whitespace adds no word. */
  lemma {:induction false} PyWordsSpaceLead(lead: string, x: string)
    requires AllSpace(lead)
    ensures PyWords(lead + x) == PyWords(x)
    decreases |lead|
  {
    if |lead| > 0 {
      assert IsPySpace((lead + x)[0]);
      assert (lead + x)[1..] == lead[1..] + x;
      PyWordsSpaceLead(lead[1..], x);
    } else {
      assert lead + x == x;
    }
  }

  /** Trailing whitespace adds no word. */
  lemma {:induction false} PyWordsSpaceTrail(x: string, trail: string)
    requires AllSpace(trail)
    ensures PyWords(x + trail) == PyWords(x)
    decreases |x|
  {
    if |x| == 0 {
      assert x + trail == trail + "";
      PyWordsSpaceLead(trail, "");
    } else if IsPySpace(x[0]) {
      assert (x + trail)[1..] == x[1..] + trail;
      PyWordsSpaceTrail(x[1..], trail);
    } else {
      var n := WordLength(x);
      WordLengthUnique(x + trail, n);
      assert (x + trail)[..n] == x[..n];
      assert (x + trail)[n..] == x[n..] + trail;
      PyWordsSpaceTrail(x[n..], trail);
    }
  }

  /** A word passes through `Collapse` unchanged. */
  lemma {:induction false} CollapseWord(w: string, x: string, b: bool)
    requires IsPyWord(w)
    ensures Collapse(w + x, b) == w + Collapse(x, false)
    decreases |w|
  {
    var init, last := w[..|w| - 1], w[|w| - 1];
    CollapseKeeps([last] + x, false);
    if |init| > 0 {
      assert w + x == init + ([last] + x);
      CollapseWord(init, [last] + x, b);
    } else {
      assert w + x == [last] + x;
      CollapseKeeps([last] + x, b);
    }
    assert w == init + [last];
  }

  /** A character that is not whitespace is copied, and the run is over. */
  lemma CollapseKeeps(s: string, b: bool)
    requires |s| > 0 && !IsPySpace(s[0])
    ensures Collapse(s, b) == [s[0]] + Collapse(s[1..], false)
  {
  }

  /** A whitespace run right after whitespace writes nothing. */
  lemma {:induction false} CollapseRunAfter(run: string, x: string)
    requires AllSpace(run)
    ensures Collapse(run + x, true) == Collapse(x, true)
    decreases |run|
  {
    if |run| > 0 {
      assert IsPySpace((run + x)[0]);
      assert (run + x)[1..] == run[1..] + x;
      CollapseRunAfter(run[1..], x);
    } else {
      assert run + x == x;
    }
  }

  /** A whitespace run after a word writes one space. */
  lemma CollapseRun(run: string, x: string)
    requires |run| > 0 && AllSpace(run)
    ensures Collapse(run + x, false) == " " + Collapse(x, true)
  {
    assert (run + x)[1..] == run[1..] + x;
    CollapseRunAfter(run[1..], x);
  }

  /** `Join` seen from the front. */
  lemma {:induction false} JoinCons(w: string, ws: seq<string>, sep: char)
    requires |ws| > 0
    ensures Join([w] + ws, sep) == w + [sep] + Join(ws, sep)
    decreases |ws|
  {
    var all := [w] + ws;
    if |ws| > 1 {
      assert all[..|all| - 1] == [w] + ws[..|ws| - 1];
      JoinCons(w, ws[..|ws| - 1], sep);
    } else {
      assert all[..|all| - 1] == [w];
    }
  }

  /** Text made of one word and then more text that starts and ends with
      a non-space: the words split off one at a time. */
  lemma PyWordsOfWordThen(t: string, n: nat, rest: string, run: string)
    requires 0 < n < |t| && n == WordLength(t)
    requires t[n..] == run + rest && AllSpace(run)
    requires |rest| > 0 && !IsPySpace(rest[0])
    ensures PyWords(t) == [t[..n]] + PyWords(rest)
    ensures PyWords(rest) != []
  {
    assert !IsPySpace(t[0]);
    PyWordsSpaceLead(run, rest);
  }

  /** Collapsing a word, a whitespace run and more text. */
  lemma CollapseOfWordThen(t: string, b: bool, n: nat, rest: string, run: string)
    requires 0 < n < |t| && n == WordLength(t)
    requires t[n..] == run + rest && AllSpace(run) && |run| > 0
    requires |rest| > 0 && !IsPySpace(rest[0])
    ensures Collapse(t, b) == t[..n] + " " + Collapse(rest, false)
  {
    assert t == t[..n] + t[n..];
    CollapseWord(t[..n], t[n..], b);
    CollapseRun(run, rest);
    CollapseKeeps(rest, true);
    CollapseKeeps(rest, false);
  }

  /** The text after the first word: a run of whitespace, then text that
      starts and ends with a non-space. */
  lemma SplitAfterWord(t: string, n: nat) returns (run: string, rest: string)
    requires 0 < n < |t| && n == WordLength(t) && !IsPySpace(t[|t| - 1])
    ensures t[n..] == run + rest && AllSpace(run) && |run| > 0
    ensures |rest| > 0 && !IsPySpace(rest[0]) && !IsPySpace(rest[|rest| - 1])
    ensures |rest| < |t|
  {
    var tail := t[n..];
    rest := TrimStart(tail, IsPySpace);
    run := tail[..|tail| - |rest|];
    assert tail == run + rest;
    assert |rest| > 0;
    assert rest[|rest| - 1] == tail[|tail| - 1];
  }

  /** For text that starts and ends with a non-space, collapsing whitespace
      runs is joining the words with single spaces. */
  lemma {:induction false} CollapseIsJoin(t: string, b: bool)
    requires |t| > 0 && !IsPySpace(t[0]) && !IsPySpace(t[|t| - 1])
    ensures Collapse(t, b) == Join(PyWords(t), ' ')
    decreases |t|
  {
    var n := WordLength(t);
    if n == |t| {
      assert t == t + "";
      CollapseWord(t, "", b);
      assert PyWords(t) == [t] + PyWords(t[n..]);
      assert PyWords(t) == [t];
    } else {
      var run, rest := SplitAfterWord(t, n);
      CollapseOfWordThen(t, b, n, rest, run);
      PyWordsOfWordThen(t, n, rest, run);
      CollapseIsJoin(rest, false);
      JoinCons(t[..n], PyWords(rest), ' ');
    }
  }

  /** Python's `strip` removes whitespace from both ends and keeps the
      middle. */
  lemma StripIsInfix(s: string) returns (a: nat, e: nat)
    ensures a <= e <= |s| && StripPy(s) == s[a..e]
    ensures AllSpace(s[..a]) && AllSpace(s[e..])
  {
    TrimIsInfix(s, IsPySpace);
    a := |s| - |TrimStart(s, IsPySpace)|;
    e := a + |StripPy(s)|;
    PrefixAllSpace(s, a);
    SuffixAllSpace(s, e);
  }

  /** A prefix of whitespace positions is whitespace. */
  lemma PrefixAllSpace(s: string, a: nat)
    requires a <= |s|
    requires forall i :: 0 <= i < a ==> IsPySpace(s[i])
    ensures AllSpace(s[..a])
  {
  }

  /** A suffix of whitespace positions is whitespace. */
  lemma SuffixAllSpace(s: string, e: nat)
    requires e <= |s|
    requires forall i :: e <= i < |s| ==> IsPySpace(s[i])
    ensures AllSpace(s[e..])
  {
  }

  /** Lower-casing works piece by piece. */
  lemma LowerSplit(s: string, a: nat, e: nat)
    requires a <= e <= |s|
    ensures ToLower(s) == ToLower(s[..a]) + ToLower(s[a..e]) + ToLower(s[e..])
  {
    var low := ToLower(s);
    assert low == low[..a] + low[a..e] + low[e..];
  }

  /** Lower-casing whitespace leaves whitespace. */
  lemma LowerAllSpace(x: string)
    requires AllSpace(x)
    ensures AllSpace(ToLower(x))
  {
    LowerKeepsSpaces(x);
  }

  /** The lower-cased label is its stripped, lower-cased core with
      whitespace on either side. */
  lemma LowerAroundStripped(s: string) returns (lead: string, trail: string)
    ensures ToLower(s) == lead + ToLower(StripPy(s)) + trail
    ensures AllSpace(lead) && AllSpace(trail)
  {
    var a, e := StripIsInfix(s);
    LowerSplit(s, a, e);
    LowerAllSpace(s[..a]);
    LowerAllSpace(s[e..]);
    lead, trail := ToLower(s[..a]), ToLower(s[e..]);
  }

  /** Whitespace around a text adds no word. */
  lemma PyWordsAround(lead: string, u: string, trail: string)
    requires AllSpace(lead) && AllSpace(trail)
    ensures PyWords(lead + u + trail) == PyWords(u)
  {
    assert lead + u + trail == lead + (u + trail);
    PyWordsSpaceLead(lead, u + trail);
    PyWordsSpaceTrail(u, trail);
  }

  /** Collapsing a stripped text is joining its words. */
  lemma CollapseCoreIsJoin(u: string)
    requires |u| > 0 ==> !IsPySpace(u[0]) && !IsPySpace(u[|u| - 1])
    ensures Collapse(u, false) == Join(PyWords(u), ' ')
  {
    if |u| > 0 {
      CollapseIsJoin(u, false);
    }
  }

  /** `norm` is Python's `" ".join(s.lower().split())`. */
  lemma NormIsPythonNorm(s: string)
    ensures Norm(s) == Join(PyWords(ToLower(s)), ' ')
  {
    LoweredStripped(s);
    var lead, trail := LowerAroundStripped(s);
    PyWordsAround(lead, ToLower(StripPy(s)), trail);
    CollapseCoreIsJoin(ToLower(StripPy(s)));
  }

  // ---------------------------------------------------------------------
  // slugify

  predicate IsSlugTextChar(c: char) {
    IsLowerAsciiLetter(c) || IsDigit(c) || c == ' '
  }

  predicate IsSlugChar(c: char) {
    IsLowerAsciiLetter(c) || IsDigit(c) || c == '-'
  }

  /** `re.sub(r"[^a-z0-9 ]", "", s)`: the characters kept, in order. */
  function KeepSlugText(s: string): (r: string)
    ensures |r| <= |s|
    ensures forall i :: 0 <= i < |r| ==> IsSlugTextChar(r[i])
    ensures (forall i :: 0 <= i < |s| ==> IsSlugTextChar(s[i])) ==> r == s
  {
    if |s| == 0 then ""
    else if IsSlugTextChar(s[0]) then [s[0]] + KeepSlugText(s[1..])
    else KeepSlugText(s[1..])
  }

  /** Dropping characters works piece by piece: a character outside
      `[a-z0-9 ]` vanishes, one inside stays, and the pieces of a text are
      filtered independently. In particular `-` is dropped. */
  lemma {:induction false} KeepSlugTextAppend(a: string, b: string)
    ensures KeepSlugText(a + b) == KeepSlugText(a) + KeepSlugText(b)
    ensures |a| == 1 ==> KeepSlugText(a) == (if IsSlugTextChar(a[0]) then a else "")
    decreases |a|
  {
    if |a| == 0 {
      assert a + b == b;
    } else {
      assert (a + b)[1..] == a[1..] + b;
      assert (a + b)[0] == a[0];
      KeepSlugTextAppend(a[1..], b);
      assert KeepSlugText(a) == (if IsSlugTextChar(a[0]) then [a[0]] else "") + KeepSlugText(a[1..]);
    }
  }

  /** `slugify`: normalise, drop every character outside `[a-z0-9 ]`, turn
      spaces into hyphens. Only `[a-z0-9-]` remains. */
  function Slugify(s: string): (r: string)
    ensures |r| <= |Norm(s)|
    ensures forall i :: 0 <= i < |r| ==> IsSlugChar(r[i])
  {
    Hyphenate(KeepSlugText(Norm(s)))
  }

  /** `.replace(" ", "-")`. */
  function Hyphenate(t: string): (r: string)
    ensures |r| == |t|
    ensures forall i :: 0 <= i < |t| ==> r[i] == if t[i] == ' ' then '-' else t[i]
    ensures (forall i :: 0 <= i < |t| ==> IsSlugTextChar(t[i])) ==> forall i :: 0 <= i < |r| ==> IsSlugChar(r[i])
  {
    seq(|t|, i requires 0 <= i < |t| => if t[i] == ' ' then '-' else t[i])
  }

  /** On a label whose normal form is already slug text, `slugify` only
      replaces the spaces. */
  lemma SlugifyOfSlugText(s: string)
    requires forall i :: 0 <= i < |Norm(s)| ==> IsSlugTextChar(Norm(s)[i])
    ensures |Slugify(s)| == |Norm(s)|
    ensures forall i :: 0 <= i < |Norm(s)| ==>
              Slugify(s)[i] == (if Norm(s)[i] == ' ' then '-' else Norm(s)[i])
  {
  }

  /** `slugify` sees only the normal form of its input. */
  lemma SlugifyOfNorm(s: string)
    ensures Slugify(Norm(s)) == Slugify(s)
  {
    NormIdempotent(s);
  }

  // ---------------------------------------------------------------------
  // singularize_token, singularize_phrase

  predicate EndsWith(s: string, suffix: string) {
    |suffix| <= |s| && s[|s| - |suffix|..] == suffix
  }

  /** `singularize_token`: on tokens longer than three characters a final
      "ies" becomes "y" and a final "s" not part of "ss" is dropped; every
      other token is kept. */
  function SingularizeToken(tok: string): (r: string)
    ensures |tok| <= 3 || !EndsWith(tok, "s") || EndsWith(tok, "ss") ==> r == tok
    ensures |tok| > 3 && EndsWith(tok, "ies")
            ==> |r| == |tok| - 2 && r[..|r| - 1] + "ies" == tok && r[|r| - 1] == 'y'
    ensures |tok| > 3 && EndsWith(tok, "s") && !EndsWith(tok, "ss") && !EndsWith(tok, "ies")
            ==> r + "s" == tok
    ensures |tok| > 0 ==> |r| > 0
    ensures ' ' !in tok ==> ' ' !in r
  {
    if EndsWith(tok, "ies") && |tok| > 3 then
      var stem := tok[..|tok| - 3];
      assert tok == stem + "ies";
      assert (stem + "y")[..|stem|] == stem;
      assert forall c :: c in stem + "y" ==> c in tok || c == 'y';
      assert tok[|tok| - 1..] == "s" && tok[|tok| - 2..] == "es";
      stem + "y"
    else if EndsWith(tok, "s") && !EndsWith(tok, "ss") && |tok| > 3 then tok[..|tok| - 1]
    else tok
  }

  /** A singular token stays singular: the rules never apply twice. */
  lemma SingularizeTokenIdempotent(tok: string)
    ensures SingularizeToken(SingularizeToken(tok)) == SingularizeToken(tok)
  {
    var r := SingularizeToken(tok);
    if EndsWith(tok, "ies") && |tok| > 3 {
      assert r[|r| - 1] == 'y';
      assert r[|r| - 1..] == ['y'];
    } else if EndsWith(tok, "s") && !EndsWith(tok, "ss") && |tok| > 3 {
      assert tok[|tok| - 2..] == [tok[|tok| - 2], 's'];
      assert r[|r| - 1..] == [tok[|tok| - 2]];
    }
  }

  /** The rules on sample words: "berries" and "peas" are singularised,
      "grass" and "bus" are kept. */
  lemma SingularizeTokenExamples()
    ensures SingularizeToken("berries") == "berry"
    ensures SingularizeToken("peas") == "pea"
    ensures SingularizeToken("grass") == "grass"
    ensures SingularizeToken("bus") == "bus"
  {
    assert EndsWith("berries", "ies");
    assert !EndsWith("peas", "ies") && EndsWith("peas", "s") && !EndsWith("peas", "ss");
  }

  /** The non-empty pieces of a list, in order: Python's `if p` filter. */
  function NonEmpty(parts: seq<string>): (r: seq<string>)
    ensures forall i :: 0 <= i < |r| ==> |r[i]| > 0
    ensures forall p :: p in r <==> p in parts && |p| > 0
    ensures (forall i :: 0 <= i < |parts| ==> |parts[i]| > 0) ==> r == parts
  {
    if |parts| == 0 then []
    else if |parts[0]| > 0 then [parts[0]] + NonEmpty(parts[1..])
    else NonEmpty(parts[1..])
  }

  /** The words of a phrase: `s.split(" ")` without the empty pieces. */
  function Words(s: string): (r: seq<string>)
    ensures forall i :: 0 <= i < |r| ==> |r[i]| > 0 && ' ' !in r[i]
  {
    NonEmpty(Split(s, ' '))
  }

  function SingularizeAll(words: seq<string>): (r: seq<string>)
    ensures |r| == |words|
    ensures forall i :: 0 <= i < |r| ==> r[i] == SingularizeToken(words[i])
  {
    seq(|words|, i requires 0 <= i < |words| => SingularizeToken(words[i]))
  }

  /** Joining words and splitting again gives the words back. */
  lemma WordsOfJoin(words: seq<string>)
    requires forall i :: 0 <= i < |words| ==> |words[i]| > 0 && ' ' !in words[i]
    ensures Words(Join(words, ' ')) == words
  {
    if |words| == 0 {
      assert Split("", ' ') == [""];
    } else {
      SplitJoin(words, ' ');
    }
  }

  /** `singularize_phrase`: every word singularised, joined with single
      spaces. Its words are exactly the singular forms of the input's
      words. */
  function SingularizePhrase(s: string): (r: string)
    ensures Words(r) == SingularizeAll(Words(s))
    ensures r == Join(Words(r), ' ')
    ensures r == "" <==> Words(s) == []
    ensures |r| > 0 ==> r[0] != ' ' && r[|r| - 1] != ' '
    ensures forall i :: 0 <= i < |r| - 1 && r[i] == ' ' ==> r[i + 1] != ' '
  {
    var singular := SingularizeAll(Words(s));
    WordsOfJoin(singular);
    JoinSingleSeparators(singular, ' ');
    Join(singular, ' ')
  }

  /** Singularising a phrase twice is singularising it once. */
  lemma SingularizePhraseIdempotent(s: string)
    ensures SingularizePhrase(SingularizePhrase(s)) == SingularizePhrase(s)
  {
    var once := SingularizeAll(Words(s));
    forall i | 0 <= i < |once|
      ensures SingularizeToken(once[i]) == once[i]
    {
      SingularizeTokenIdempotent(Words(s)[i]);
    }
    assert SingularizeAll(Words(SingularizePhrase(s))) == once;
  }

  // ---------------------------------------------------------------------
  // candidates

  /** The four spellings tried for one phrase: itself, its slug, its
      singular form and that form's slug. */
  function Variants(p: string): (r: seq<string>)
    ensures |r| == 4 && r[0] == p
  {
    [p, Slugify(p), SingularizePhrase(p), Slugify(SingularizePhrase(p))]
  }

  function StripAll(parts: seq<string>): (r: seq<string>)
    ensures |r| == |parts|
    ensures forall i :: 0 <= i < |r| ==> r[i] == StripPy(parts[i])
  {
    seq(|parts|, i requires 0 <= i < |parts| => StripPy(parts[i]))
  }

  /** `[p.strip() for p in key.split(",") if p.strip()]`. */
  function CommaParts(key: string): (r: seq<string>)
    ensures forall i :: 0 <= i < |r| ==> |r[i]| > 0 && ',' !in r[i]
  {
    NonEmpty(StripAll(Split(key, ',')))
  }

  function Reversed<T>(s: seq<T>): (r: seq<T>)
    ensures |r| == |s|
    ensures forall i :: 0 <= i < |s| ==> r[i] == s[|s| - 1 - i]
  {
    seq(|s|, i requires 0 <= i < |s| => s[|s| - 1 - i])
  }

  /** Every spelling `candidates` tries, before duplicates are dropped: the
      key's variants, then for a label with two or more comma-separated
      parts the variants of the parts joined in order and in reverse. */
  function Spellings(key: string): (r: seq<string>)
    ensures |r| > 0 && r[0] == key
    ensures ',' !in key ==> r == Variants(key)
    ensures !(',' in key && |CommaParts(key)| > 1) ==> r == Variants(key)
    ensures ',' in key && |CommaParts(key)| > 1 ==>
              Join(CommaParts(key), ' ') in r && Join(Reversed(CommaParts(key)), ' ') in r
    ensures ',' in key && |CommaParts(key)| > 1 ==>
              r == Variants(key) + Variants(Join(CommaParts(key), ' '))
                   + Variants(Join(Reversed(CommaParts(key)), ' '))
  {
    var parts := CommaParts(key);
    if ',' in key && |parts| > 1 then
      Variants(key) + Variants(Join(parts, ' ')) + Variants(Join(Reversed(parts), ' '))
    else
      if ',' !in key then CommaPartsWithoutComma(key); Variants(key)
      else Variants(key)
  }

  /** A key without a comma is its own single part, so no comma variants
      are added. */
  lemma CommaPartsWithoutComma(key: string)
    requires ',' !in key
    ensures |CommaParts(key)| <= 1
  {
    SplitNoSep(key, ',');
    var stripped := StripAll(Split(key, ','));
    assert stripped == [StripPy(key)];
    if |StripPy(key)| > 0 {
      assert NonEmpty(stripped) == stripped;
    } else {
      assert NonEmpty(stripped) == NonEmpty(stripped[1..]);
    }
  }

  /** `candidates`: nothing for an empty or `"` label; otherwise the
      spellings without repeats, in first-occurrence order, starting with
      the normalised label. */
  function Candidates(text: string): (r: seq<string>)
    ensures r == [] <==> Norm(text) == "" || Norm(text) == "\""
    ensures r != [] ==> r[0] == Norm(text)
    ensures NoDup(r)
    ensures r != [] ==> forall c :: c in r <==> c in Spellings(Norm(text))
    ensures InFirstOccurrenceOrder(Spellings(Norm(text)), r)
  {
    var key := Norm(text);
    if key == "" || key == "\"" then []
    else
      DistinctOrder(Spellings(key));
      Distinct(Spellings(key))
  }

  /** The order clause leaves no freedom: any list with the spellings'
      members in first-occurrence order is the candidate list. */
  lemma CandidatesUnique(text: string, r: seq<string>)
    requires Norm(text) != "" && Norm(text) != "\""
    requires forall c :: c in r <==> c in Spellings(Norm(text))
    requires InFirstOccurrenceOrder(Spellings(Norm(text)), r)
    ensures r == Candidates(text)
  {
    DistinctUnique(Spellings(Norm(text)), r);
  }

  /** Without a comma in the normalised label at most four spellings are
      tried. */
  lemma CandidatesWithoutComma(text: string)
    requires ',' !in Norm(text)
    ensures |Candidates(text)| <= 4
  {
  }

  /** A label such as "Pepper, Bell" is also tried as "pepper bell" and as
      "bell pepper". */
  lemma CandidatesTryBothOrders(text: string)
    requires Norm(text) != "\""
    requires ',' in Norm(text) && |CommaParts(Norm(text))| > 1
    ensures Join(CommaParts(Norm(text)), ' ') in Candidates(text)
    ensures Join(Reversed(CommaParts(Norm(text))), ' ') in Candidates(text)
  {
  }

  // ---------------------------------------------------------------------
  // resolve

  /** What `resolve` looks labels up in: the alias table (normalised label
      to slugs), the set of known slugs and the index from lower-cased crop
      name to slug. */
  datatype Catalogue = Catalogue(aliases: map<string, seq<string>>, slugs: set<string>, nameToSlug: map<string, string>)

  /** A spelling `resolve` accepts: a slug or a crop name. */
  predicate Known(cat: Catalogue, c: string) {
    c in cat.slugs || c in cat.nameToSlug
  }

  /** The slug a known spelling stands for; a slug wins over a name. */
  function Target(cat: Catalogue, c: string): string
    requires Known(cat, c)
  {
    if c in cat.slugs then c else cat.nameToSlug[c]
  }

  /** The scan over the candidates: the first known one decides. */
  function FirstKnown(cat: Catalogue, cands: seq<string>): (r: seq<string>)
    ensures r == [] <==> forall i :: 0 <= i < |cands| ==> !Known(cat, cands[i])
    ensures r == [] <==> forall c :: c in cands ==> !Known(cat, c)
  {
    if |cands| == 0 then []
    else if cands[0] in cat.slugs then [cands[0]]
    else if cands[0] in cat.nameToSlug then [cat.nameToSlug[cands[0]]]
    else FirstKnown(cat, cands[1..])
  }

  /** The first known candidate decides. */
  lemma {:induction false} FirstKnownFirst(cat: Catalogue, cands: seq<string>, i: nat)
    requires i < |cands| && Known(cat, cands[i])
    requires forall j :: 0 <= j < i ==> !Known(cat, cands[j])
    ensures FirstKnown(cat, cands) == [Target(cat, cands[i])]
  {
    if i > 0 {
      assert !Known(cat, cands[0]);
      FirstKnownFirst(cat, cands[1..], i - 1);
    }
  }

  /** `resolve`: an alias of the normalised label wins; otherwise the first
      candidate that is a slug or a crop name gives the one slug; otherwise
      nothing. */
  function Resolve(cat: Catalogue, text: string): (r: seq<string>)
    ensures Norm(text) in cat.aliases ==> r == cat.aliases[Norm(text)]
    ensures Norm(text) !in cat.aliases ==>
              (r == [] <==> forall c :: c in Candidates(text) ==> !Known(cat, c))
  {
    var key := Norm(text);
    if key in cat.aliases then cat.aliases[key]
    else
      var cands := Candidates(text);
      FirstKnown(cat, cands)
  }

  /** Without an alias, the first candidate that is a slug or a crop name
      gives the one slug, a slug winning over a name. */
  lemma ResolveFirstKnown(cat: Catalogue, text: string, i: nat)
    requires Norm(text) !in cat.aliases
    requires i < |Candidates(text)| && Known(cat, Candidates(text)[i])
    requires forall j :: 0 <= j < i ==> !Known(cat, Candidates(text)[j])
    ensures Resolve(cat, text) == [Target(cat, Candidates(text)[i])]
  {
    FirstKnownFirst(cat, Candidates(text), i);
  }

  /** A label whose normal form is a slug, and not an alias, resolves to
      that slug. */
  lemma ResolveSlug(cat: Catalogue, text: string)
    requires Norm(text) != "" && Norm(text) != "\""
    requires Norm(text) !in cat.aliases && Norm(text) in cat.slugs
    ensures Resolve(cat, text) == [Norm(text)]
  {
    ResolveFirstKnown(cat, text, 0);
  }

  /** Every alias target and every indexed name's slug is a known slug. */
  predicate WellFormed(cat: Catalogue) {
    (forall k :: k in cat.aliases ==> forall s :: s in cat.aliases[k] ==> s in cat.slugs)
    && (forall n :: n in cat.nameToSlug ==> cat.nameToSlug[n] in cat.slugs)
  }

  /** Over a well-formed catalogue the scan only yields known slugs. */
  lemma {:induction false} FirstKnownGivesSlugs(cat: Catalogue, cands: seq<string>)
    requires WellFormed(cat)
    ensures forall s :: s in FirstKnown(cat, cands) ==> s in cat.slugs
  {
    if |cands| > 0 && !Known(cat, cands[0]) {
      FirstKnownGivesSlugs(cat, cands[1..]);
    }
  }

  /** Over a well-formed catalogue everything `resolve` returns is a known
      slug. */
  lemma ResolveGivesSlugs(cat: Catalogue, text: string)
    requires WellFormed(cat)
    ensures forall s :: s in Resolve(cat, text) ==> s in cat.slugs
  {
    FirstKnownGivesSlugs(cat, Candidates(text));
  }

  // ---------------------------------------------------------------------
  // Building the catalogue

  /** One entry of the crop cache: its slug and display name. */
  datatype CropEntry = CropEntry(slug: string, name: string)

  function Slugs(crops: seq<CropEntry>): (r: set<string>)
    ensures forall i :: 0 <= i < |crops| ==> crops[i].slug in r
    ensures forall s :: s in r ==> exists i :: 0 <= i < |crops| && crops[i].slug == s
  {
    set i | 0 <= i < |crops| :: crops[i].slug
  }

  /** The key a crop name is indexed under: stripped and lower-cased, but
      its inner whitespace is not collapsed. */
  function NameKey(name: string): string {
    ToLower(StripPy(name))
  }

  /** A dict built from key/value pairs in order: every key is present,
      each value comes from a pair with that key, and the last pair with a
      key decides its value. */
  function LastWins<K, V>(pairs: seq<(K, V)>): (r: map<K, V>)
    ensures forall i :: 0 <= i < |pairs| ==> pairs[i].0 in r
    ensures forall k :: k in r ==> exists i :: 0 <= i < |pairs| && pairs[i].0 == k && pairs[i].1 == r[k]
  {
    if |pairs| == 0 then map[]
    else
      var init := pairs[..|pairs| - 1];
      var last := pairs[|pairs| - 1];
      var earlier := LastWins(init);
      LastWinsStep(pairs, earlier);
      earlier[last.0 := last.1]
  }

  /** Extending the dict of all pairs but the last with the last pair. */
  lemma LastWinsStep<K, V>(pairs: seq<(K, V)>, earlier: map<K, V>)
    requires |pairs| > 0
    requires forall k :: k in earlier ==> exists i :: 0 <= i < |pairs| - 1 && pairs[i].0 == k && pairs[i].1 == earlier[k]
    ensures var r := earlier[pairs[|pairs| - 1].0 := pairs[|pairs| - 1].1];
            forall k :: k in r ==> exists i :: 0 <= i < |pairs| && pairs[i].0 == k && pairs[i].1 == r[k]
  {
    var n := |pairs| - 1;
    var r := earlier[pairs[n].0 := pairs[n].1];
    forall k | k in r
      ensures exists i :: 0 <= i < |pairs| && pairs[i].0 == k && pairs[i].1 == r[k]
    {
      if k == pairs[n].0 {
        assert pairs[n].0 == k && pairs[n].1 == r[k];
      } else {
        var i :| 0 <= i < n && pairs[i].0 == k && pairs[i].1 == earlier[k];
        assert pairs[i].1 == r[k];
      }
    }
  }

  /** The last pair with a key decides its value. */
  lemma {:induction false} LastWinsLast<K, V>(pairs: seq<(K, V)>, i: nat)
    requires i < |pairs|
    requires forall j :: i < j < |pairs| ==> pairs[j].0 != pairs[i].0
    ensures pairs[i].0 in LastWins(pairs) && LastWins(pairs)[pairs[i].0] == pairs[i].1
  {
    var n := |pairs| - 1;
    if i < n {
      var init := pairs[..n];
      assert forall j :: i < j < |init| ==> init[j] == pairs[j];
      LastWinsLast(init, i);
      assert pairs[n].0 != pairs[i].0;
    }
  }

  /** `{c["name"].strip().lower(): c["slug"] for c in crops}`. */
  function NameIndex(crops: seq<CropEntry>): (r: map<string, string>)
    ensures forall k :: k in r ==> r[k] in Slugs(crops)
  {
    NameIndexSlugs(crops);
    LastWins(NamePairs(crops))
  }

  /** Each crop's name key paired with its slug, in catalogue order. */
  function NamePairs(crops: seq<CropEntry>): (r: seq<(string, string)>)
    ensures |r| == |crops| && forall i :: 0 <= i < |crops| ==> r[i] == (NameKey(crops[i].name), crops[i].slug)
  {
    seq(|crops|, i requires 0 <= i < |crops| => (NameKey(crops[i].name), crops[i].slug))
  }

  lemma NameIndexSlugs(crops: seq<CropEntry>)
    ensures var r := LastWins(NamePairs(crops));
            forall k :: k in r ==> r[k] in Slugs(crops)
  {
    var pairs := NamePairs(crops);
    assert forall i :: 0 <= i < |pairs| ==> pairs[i].1 in Slugs(crops);
    LastWinsValues(pairs, Slugs(crops));
  }

  /** Every value of the dict is the value of some pair. */
  lemma LastWinsValues<K, V>(pairs: seq<(K, V)>, values: set<V>)
    requires forall i :: 0 <= i < |pairs| ==> pairs[i].1 in values
    ensures forall k :: k in LastWins(pairs) ==> LastWins(pairs)[k] in values
  {
  }

  /** The alias targets that are known slugs, in order. */
  function KeepKnown(targets: seq<string>, slugs: set<string>): (r: seq<string>)
    ensures forall s :: s in r <==> s in targets && s in slugs
    ensures r == [] <==> forall s :: s in targets ==> s !in slugs
  {
    if |targets| == 0 then []
    else if targets[0] in slugs then [targets[0]] + KeepKnown(targets[1..], slugs)
    else KeepKnown(targets[1..], slugs)
  }

  /** Dropping alias targets that are not slugs, and aliases left with no
      target. */
  function FilterAliases(aliases: map<string, seq<string>>, slugs: set<string>): (r: map<string, seq<string>>)
    ensures forall k :: k in r <==> k in aliases && exists s :: s in aliases[k] && s in slugs
    ensures forall k :: k in r ==> forall s :: s in r[k] <==> s in aliases[k] && s in slugs
  {
    map k | k in aliases && |KeepKnown(aliases[k], slugs)| > 0 :: KeepKnown(aliases[k], slugs)
  }

  /** An alias file value: one slug or a list of slugs. */
  datatype AliasValue = OneSlug(slug: string) | SlugList(slugs: seq<string>)

  function AliasTargets(v: AliasValue): (r: seq<string>)
    ensures v.OneSlug? ==> r == [v.slug]
  {
    match v
    case OneSlug(s) => [s]
    case SlugList(ss) => ss
  }

  /** `load_aliases` over the decoded object's entries: keys are
      normalised, and of several entries with the same normalised key the
      last one wins. */
  function LoadAliases(entries: seq<(string, AliasValue)>): (r: map<string, seq<string>>)
    ensures forall k :: k in r ==> Normalized(k)
  {
    var pairs := seq(|entries|, i requires 0 <= i < |entries| => (Norm(entries[i].0), AliasTargets(entries[i].1)));
    LastWins(pairs)
  }

  /** The catalogue `main` builds from the crop cache and the alias table. */
  function BuildCatalogue(crops: seq<CropEntry>, aliases: map<string, seq<string>>): (r: Catalogue)
    ensures WellFormed(r)
    ensures r.slugs == Slugs(crops) && r.nameToSlug == NameIndex(crops)
    ensures forall k :: k in r.aliases ==> k in aliases && r.aliases[k] != []
  {
    var slugs := Slugs(crops);
    Catalogue(FilterAliases(aliases, slugs), slugs, NameIndex(crops))
  }

  /** An alias entry not overridden by a later one with the same
      normalised key gives that key its targets. */
  lemma LoadAliasesLastWins(entries: seq<(string, AliasValue)>, i: nat)
    requires i < |entries|
    requires forall j :: i < j < |entries| ==> Norm(entries[j].0) != Norm(entries[i].0)
    ensures Norm(entries[i].0) in LoadAliases(entries)
    ensures LoadAliases(entries)[Norm(entries[i].0)] == AliasTargets(entries[i].1)
  {
    var pairs := seq(|entries|, i requires 0 <= i < |entries| => (Norm(entries[i].0), AliasTargets(entries[i].1)));
    LastWinsLast(pairs, i);
  }

  /** A crop whose name key no later crop shares is found by its name. */
  lemma NameIndexLastWins(crops: seq<CropEntry>, i: nat)
    requires i < |crops|
    requires forall j :: i < j < |crops| ==> NameKey(crops[j].name) != NameKey(crops[i].name)
    ensures NameKey(crops[i].name) in NameIndex(crops)
    ensures NameIndex(crops)[NameKey(crops[i].name)] == crops[i].slug
  {
    var pairs := seq(|crops|, i requires 0 <= i < |crops| => (NameKey(crops[i].name), crops[i].slug));
    LastWinsLast(pairs, i);
  }

  // ---------------------------------------------------------------------
  // The edge list

  /** One CSV row. A column absent from the header reads as the empty
      string; a row shorter than the header is not modelled, because its
      missing fields are `None` and `norm` fails on them. */
  datatype Row = Row(source: string, link: string, destination: string)

  datatype Edge = Edge(from: string, to: string, kind: string)

  /** `--normalize-helped-by` and `--keep-helped-by`. */
  datatype Options = Options(normalizeHelpedBy: bool, keepHelpedBy: bool)

  /** Both ends of the row resolve to at least one slug. */
  predicate Matched(cat: Catalogue, row: Row) {
    Resolve(cat, row.source) != [] && Resolve(cat, row.destination) != []
  }

  /** A normalised `helped_by` link under `--normalize-helped-by` is read
      backwards. */
  predicate ReadBackwards(opts: Options, link: string) {
    link == "helped_by" && opts.normalizeHelpedBy
  }

  /** The edge type a normalised link produces. */
  function Kind(opts: Options, link: string): string {
    if ReadBackwards(opts, link) then "helps" else link
  }

  /** The edge types written out. */
  predicate KeptKind(opts: Options, kind: string) {
    kind == "helps" || kind == "avoid" || (opts.keepHelpedBy && kind == "helped_by")
  }

  /** The edges from one slug to each target other than itself. */
  function Fan(from: string, targets: seq<string>, kind: string): (r: seq<Edge>)
    ensures forall e :: e in r <==> e.from == from && e.to in targets && e.to != from && e.kind == kind
  {
    if |targets| == 0 then []
    else if targets[0] == from then Fan(from, targets[1..], kind)
    else [Edge(from, targets[0], kind)] + Fan(from, targets[1..], kind)
  }

  /** The nested loop over sources and destinations, self pairs skipped. */
  function Pairs(sources: seq<string>, targets: seq<string>, kind: string): (r: seq<Edge>)
    ensures forall e :: e in r <==> e.from in sources && e.to in targets && e.from != e.to && e.kind == kind
  {
    if |sources| == 0 then []
    else Fan(sources[0], targets, kind) + Pairs(sources[1..], targets, kind)
  }

  /** The body of the row loop once both ends are resolved: nothing when
      either end is unresolved or the link type is dropped; otherwise every
      pair of distinct slugs, the ends swapped for a link read backwards. */
  function LinkEdges(opts: Options, link: string, sources: seq<string>, targets: seq<string>): (r: seq<Edge>)
    ensures sources == [] || targets == [] || !KeptKind(opts, Kind(opts, link)) ==> r == []
    ensures forall e :: e in r ==> e.from != e.to && e.kind == Kind(opts, link) && KeptKind(opts, e.kind)
  {
    if sources == [] || targets == [] then []
    else if !KeptKind(opts, Kind(opts, link)) then []
    else if ReadBackwards(opts, link) then Pairs(targets, sources, Kind(opts, link))
    else Pairs(sources, targets, Kind(opts, link))
  }

  /** The edges one row adds. */
  function RowEdges(cat: Catalogue, opts: Options, row: Row): (r: seq<Edge>)
    ensures !Matched(cat, row) ==> r == []
    ensures forall e :: e in r ==> e.from != e.to && KeptKind(opts, e.kind)
  {
    LinkEdges(opts, Norm(row.link), Resolve(cat, row.source), Resolve(cat, row.destination))
  }

  /** The edges of resolved ends with a kept type: exactly the distinct
      pairs, reversed for a normalised `helped_by`. */
  lemma LinkEdgesMembers(opts: Options, link: string, sources: seq<string>, targets: seq<string>, e: Edge)
    requires sources != [] && targets != [] && KeptKind(opts, Kind(opts, link))
    ensures e in LinkEdges(opts, link, sources, targets) <==>
              e.from != e.to && e.kind == Kind(opts, link)
              && if ReadBackwards(opts, link)
                 then e.from in targets && e.to in sources
                 else e.from in sources && e.to in targets
  {
  }

  /** Under `--normalize-helped-by` no `helped_by` edge is written and
      `--keep-helped-by` makes no difference. */
  lemma NormalizeOverridesKeep(opts: Options, link: string, sources: seq<string>, targets: seq<string>)
    requires opts.normalizeHelpedBy
    ensures forall e :: e in LinkEdges(opts, link, sources, targets) ==> e.kind == "helps" || e.kind == "avoid"
    ensures LinkEdges(opts, link, sources, targets)
            == LinkEdges(opts.(keepHelpedBy := !opts.keepHelpedBy), link, sources, targets)
  {
    assert "helps" != "helped_by" by {
      assert "helps"[4] != "helped_by"[4];
    }
  }

  /** Without `--keep-helped-by` only `helps` and `avoid` edges are
      written. */
  lemma OnlyHelpsAndAvoid(opts: Options, link: string, sources: seq<string>, targets: seq<string>)
    requires !opts.keepHelpedBy
    ensures forall e :: e in LinkEdges(opts, link, sources, targets) ==> e.kind == "helps" || e.kind == "avoid"
  {
  }

  /** `f` applied to every element, the results concatenated in order. */
  function ConcatMap<T, U(!new)>(xs: seq<T>, f: T -> seq<U>): (r: seq<U>)
    ensures forall y :: y in r <==> exists i :: 0 <= i < |xs| && y in f(xs[i])
  {
    if |xs| == 0 then []
    else
      var init := xs[..|xs| - 1];
      var rest := ConcatMap(init, f);
      assert forall i :: 0 <= i < |init| ==> init[i] == xs[i];
      rest + f(xs[|xs| - 1])
  }

  /** All rows' edges, in row order, repeats included. */
  function AllEdges(cat: Catalogue, opts: Options, rows: seq<Row>): (r: seq<Edge>)
    ensures forall e :: e in r <==> exists i :: 0 <= i < |rows| && e in RowEdges(cat, opts, rows[i])
  {
    ConcatMap(rows, row => RowEdges(cat, opts, row))
  }

  // ---------------------------------------------------------------------
  // Sorting the edge set

  /** Python's tuple order on `(from, to, type)`. */
  predicate EdgeLess(a: Edge, b: Edge) {
    Less(a.from, b.from)
    || (a.from == b.from && (Less(a.to, b.to) || (a.to == b.to && Less(a.kind, b.kind))))
  }

  lemma EdgeLessIrreflexive(a: Edge)
    ensures !EdgeLess(a, a)
  {
    LessIrreflexive(a.from);
    LessIrreflexive(a.to);
    LessIrreflexive(a.kind);
  }

  lemma EdgeLessTransitive(a: Edge, b: Edge, c: Edge)
    requires EdgeLess(a, b) && EdgeLess(b, c)
    ensures EdgeLess(a, c)
  {
    if Less(a.from, b.from) && Less(b.from, c.from) {
      LessTransitive(a.from, b.from, c.from);
    } else if a.from == b.from && b.from == c.from {
      if Less(a.to, b.to) && Less(b.to, c.to) {
        LessTransitive(a.to, b.to, c.to);
      } else if a.to == b.to && b.to == c.to {
        LessTransitive(a.kind, b.kind, c.kind);
      }
    }
  }

  lemma EdgeLessTotal(a: Edge, b: Edge)
    ensures a == b || EdgeLess(a, b) || EdgeLess(b, a)
  {
    LessTotal(a.from, b.from);
    LessTotal(a.to, b.to);
    LessTotal(a.kind, b.kind);
  }

  lemma EdgeLessAsymmetric(a: Edge, b: Edge)
    requires EdgeLess(a, b)
    ensures !EdgeLess(b, a)
  {
    if EdgeLess(b, a) {
      EdgeLessTransitive(a, b, a);
      EdgeLessIrreflexive(a);
    }
  }

  /** Strictly increasing, hence free of repeats. */
  predicate StrictlySorted(s: seq<Edge>) {
    forall i, j :: 0 <= i < j < |s| ==> EdgeLess(s[i], s[j])
  }

  /** Adds one edge to a sorted list unless it is already there. */
  function InsertEdge(x: Edge, s: seq<Edge>): (r: seq<Edge>)
    ensures forall e :: e in r <==> e == x || e in s
  {
    if |s| == 0 then [x]
    else if x == s[0] then s
    else if EdgeLess(x, s[0]) then [x] + s
    else [s[0]] + InsertEdge(x, s[1..])
  }

  lemma {:induction false} InsertEdgeSorted(x: Edge, s: seq<Edge>)
    requires StrictlySorted(s)
    ensures StrictlySorted(InsertEdge(x, s))
  {
    if |s| > 0 && x != s[0] {
      if EdgeLess(x, s[0]) {
        forall j | 0 < j < |s|
          ensures EdgeLess(x, s[j])
        {
          EdgeLessTransitive(x, s[0], s[j]);
        }
      } else {
        EdgeLessTotal(x, s[0]);
        InsertEdgeSorted(x, s[1..]);
        var tail := InsertEdge(x, s[1..]);
        forall j | 0 <= j < |tail|
          ensures EdgeLess(s[0], tail[j])
        {
          if tail[j] != x {
            assert tail[j] in s[1..];
            var k :| 0 <= k < |s[1..]| && s[1..][k] == tail[j];
            assert s[k + 1] == tail[j];
          }
        }
      }
    }
  }

  /** `sorted(edges)` of the set of the given edges. */
  function SortedEdges(es: seq<Edge>): (r: seq<Edge>)
    ensures StrictlySorted(r)
    ensures forall e :: e in r <==> e in es
  {
    if |es| == 0 then []
    else
      var rest := SortedEdges(es[..|es| - 1]);
      InsertEdgeSorted(es[|es| - 1], rest);
      assert forall e :: e in es <==> e in es[..|es| - 1] || e == es[|es| - 1] by {
        assert es == es[..|es| - 1] + [es[|es| - 1]];
      }
      InsertEdge(es[|es| - 1], rest)
  }

  /** The first edge of a strictly sorted list is below every other one. */
  lemma HeadIsLeast(s: seq<Edge>, e: Edge)
    requires StrictlySorted(s) && e in s && e != s[0]
    ensures EdgeLess(s[0], e)
  {
    var k :| 0 <= k < |s| && s[k] == e;
  }

  /** Past the first element, members of a strictly sorted list are the
      other members. */
  lemma TailMembers(s: seq<Edge>, e: Edge)
    requires StrictlySorted(s) && |s| > 0
    ensures e in s[1..] <==> e in s && e != s[0]
  {
    assert s == [s[0]] + s[1..];
    if e in s[1..] {
      var k :| 0 <= k < |s[1..]| && s[1..][k] == e;
      assert EdgeLess(s[0], s[k + 1]);
      EdgeLessIrreflexive(s[0]);
    }
  }

  /** Two strictly sorted lists with the same edges are the same list: the
      sorted list of a set is unique. */
  lemma {:induction false} SortedUnique(a: seq<Edge>, b: seq<Edge>)
    requires StrictlySorted(a) && StrictlySorted(b)
    requires forall e :: e in a <==> e in b
    ensures a == b
  {
    if |a| > 0 && |b| > 0 {
      if a[0] != b[0] {
        HeadIsLeast(a, b[0]);
        HeadIsLeast(b, a[0]);
        EdgeLessAsymmetric(a[0], b[0]);
        assert false;
      }
      forall e
        ensures e in a[1..] <==> e in b[1..]
      {
        TailMembers(a, e);
        TailMembers(b, e);
      }
      SortedUnique(a[1..], b[1..]);
    } else if |a| > 0 {
      HasMember(a);
      assert false;
    } else if |b| > 0 {
      HasMember(b);
      assert false;
    }
  }

  lemma HasMember(s: seq<Edge>)
    requires |s| > 0
    ensures exists e :: e in s
  {
    assert s[0] in s;
  }

  /** The edge list the script writes: every edge some row adds, once, in
      `(from, to, type)` order. */
  function EdgeList(cat: Catalogue, opts: Options, rows: seq<Row>): (r: seq<Edge>)
    ensures StrictlySorted(r)
    ensures forall e :: e in r <==> exists i :: 0 <= i < |rows| && e in RowEdges(cat, opts, rows[i])
    ensures forall e :: e in r ==> e.from != e.to
  {
    SortedEdges(AllEdges(cat, opts, rows))
  }

  /** The edge list is the only sorted, repeat-free list of the rows'
      edges, so it is what sorting the script's edge set gives. */
  lemma EdgeListUnique(cat: Catalogue, opts: Options, rows: seq<Row>, other: seq<Edge>)
    requires StrictlySorted(other)
    requires forall e :: e in other <==> exists i :: 0 <= i < |rows| && e in RowEdges(cat, opts, rows[i])
    ensures other == EdgeList(cat, opts, rows)
  {
    SortedUnique(other, EdgeList(cat, opts, rows));
  }
}
