/** Display helpers for labels: first-letter capitalisation and truncation
    with an ellipsis. */
module TextUtils {
  import opened Strings
  import opened Numbers

  const Ellipsis: char := '…'
  const EllipsisUnit: CodeUnit := 0x2026

  /** `capitalize`: the first character upper-cased (ASCII letters only), the
      rest unchanged; the empty string stays empty. */
  function Capitalize(s: string): (r: string)
    ensures |r| == |s|
    ensures |s| > 0 ==> r[0] == ToUpperChar(s[0]) && r[1..] == s[1..]
  {
    if |s| == 0 then s
    else if |s| == 1 then [ToUpperChar(s[0])]
    else [ToUpperChar(s[0])] + s[1..]
  }

  lemma CapitalizeIdempotent(s: string)
    ensures Capitalize(Capitalize(s)) == Capitalize(s)
  {
  }

  /** A string that already starts with a non-lower-case character is left
      alone. */
  lemma CapitalizeNoOp(s: string)
    requires |s| > 0 ==> !IsLowerAsciiLetter(s[0])
    ensures Capitalize(s) == s
  {
  }

  /** `truncate(s, max)`. JavaScript measures and slices the string in
      UTF-16 code units, so the result is a code-unit sequence: the string
      itself when its length is at most `max`, otherwise `s.slice(0, max - 1)`
      and an ellipsis. The bound is any JavaScript number; the cut can fall
      between the two halves of a surrogate pair. */
  function Truncate(s: string, max: Number): (r: seq<CodeUnit>)
    ensures Le(Finite(JsLength(s) as real), max) ==> r == Utf16(s)
    ensures !Le(Finite(JsLength(s) as real), max) ==>
              0 < |r| <= JsLength(s) + 1 && r[|r| - 1] == EllipsisUnit && r[..|r| - 1] == Utf16(s)[..|r| - 1]
    ensures max.NaN? ==> r == [EllipsisUnit]
  {
    var end := if max.Finite? then Finite(max.x - 1.0) else max;
    if Le(Finite(JsLength(s) as real), max) then Utf16(s) else SlicePrefix(Utf16(s), end) + [EllipsisUnit]
  }

  /** For a whole bound of at least 1, a string that is too long keeps its
      first `max - 1` code units and the ellipsis, `max` units in all. */
  lemma TruncateWholeBound(s: string, max: int)
    requires max >= 1
    ensures JsLength(s) <= max ==> Truncate(s, Finite(max as real)) == Utf16(s)
    ensures JsLength(s) > max ==>
              Truncate(s, Finite(max as real)) == Utf16(s)[..max - 1] + [EllipsisUnit]
  {
    TruncateWhole(max - 1);
  }

  /** For a bound of at least 1 the result's JavaScript length never exceeds
      it, whether the bound is whole, fractional or infinite. */
  lemma TruncateFits(s: string, max: Number)
    requires Le(Finite(1.0), max)
    ensures Le(Finite(|Truncate(s, max)| as real), max)
  {
  }

  /** Without astral characters code units are characters, and truncation
      is the character-level cut followed by the ellipsis. */
  lemma TruncateBmp(s: string, max: int)
    requires forall i :: 0 <= i < |s| ==> !IsAstral(s[i])
    requires max >= 1
    ensures var t := if |s| <= max then s else s[..max - 1] + [Ellipsis];
            |Truncate(s, Finite(max as real))| == |t|
            && forall i :: 0 <= i < |t| ==> Truncate(s, Finite(max as real))[i] == t[i] as int
  {
    Utf16OfBmp(s);
    TruncateWholeBound(s, max);
  }

  /** Three emoji are six code units, so a bound of 4 keeps one emoji and
      the high half of the next before the ellipsis. */
  lemma TruncateSplitsSurrogatePair()
    ensures Truncate("\U{1F600}\U{1F600}\U{1F600}", Finite(4.0)) == [0xD83D, 0xDE00, 0xD83D, 0x2026]
  {
    var e := "\U{1F600}\U{1F600}\U{1F600}";
    assert e[..2] == "\U{1F600}\U{1F600}" && e[..1] == "\U{1F600}" && e[..0] == "";
    assert Utf16Char('\U{1F600}') == [0xD83D, 0xDE00];
    assert Utf16(e) == [0xD83D, 0xDE00, 0xD83D, 0xDE00, 0xD83D, 0xDE00];
    TruncateWholeBound(e, 4);
  }

  /** With a bound below one the result is still non-empty: the JavaScript
      slice with a negative end keeps a prefix and the ellipsis is always
      appended, so such a call can return more than `max` code units. */
  lemma TruncateZeroBound()
    ensures Truncate("abc", Finite(0.0)) == [97, 98, 0x2026]
  {
    Utf16OfBmp("abc");
    TruncateWhole(-1);
  }

  /** A fractional bound: `"abcd".slice(0, 1.5)` keeps one unit, so a
      bound of 2.5 gives "a…". */
  lemma TruncateFractionalBound()
    ensures Truncate("abcd", Finite(2.5)) == [97, 0x2026]
  {
    Utf16OfBmp("abcd");
  }

  /** A NaN bound fails the length test and slices nothing: only the
      ellipsis is left. */
  lemma TruncateNaNBound(s: string)
    ensures Truncate(s, NaN) == [EllipsisUnit]
  {
  }
}
