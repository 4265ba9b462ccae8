/** The plant identifier of the planning contexts: trimmed, lower-cased, at
    most 160 UTF-16 code units, matching `^[a-z0-9][a-z0-9-_]*$`. */
module PlantIds {
  import opened Results
  import opened Strings

  const MaxLength: nat := 160

  predicate IsIdHead(c: char) {
    IsLowerAsciiLetter(c) || IsDigit(c)
  }

  predicate IsIdChar(c: char) {
    IsIdHead(c) || c == '-' || c == '_'
  }

  /** The id regular expression. */
  predicate MatchesIdPattern(s: string) {
    |s| > 0 && IsIdHead(s[0]) && forall i :: 1 <= i < |s| ==> IsIdChar(s[i])
  }

  datatype PlantId = PlantId(value: string)

  /** What every id built by `Create` satisfies. */
  ghost predicate Valid(id: PlantId) {
    0 < |id.value| && JsLength(id.value) <= MaxLength && MatchesIdPattern(id.value)
  }

  /** `PlantId.create`: normalise, then reject empty, overlong and malformed
      values, in that order; the length is JavaScript's count of code
      units. */
  function Create(raw: string): (r: Result<PlantId>)
    ensures r.Ok? <==> 0 < |NormalizeJs(raw)| && JsLength(NormalizeJs(raw)) <= MaxLength && MatchesIdPattern(NormalizeJs(raw))
    ensures r.Ok? ==> r.value.value == NormalizeJs(raw) && Valid(r.value)
    ensures |NormalizeJs(raw)| == 0 ==> r == Err(InvalidPlantId(Empty))
    ensures JsLength(NormalizeJs(raw)) > MaxLength ==> r == Err(InvalidPlantId(TooLong))
    ensures r.Err? && 0 < |NormalizeJs(raw)| && JsLength(NormalizeJs(raw)) <= MaxLength ==> r == Err(InvalidPlantId(BadCharacters))
  {
    var normalized := NormalizeJs(raw);
    if |normalized| == 0 then Err(InvalidPlantId(Empty))
    else if JsLength(normalized) > MaxLength then Err(InvalidPlantId(TooLong))
    else if !MatchesIdPattern(normalized) then Err(InvalidPlantId(BadCharacters))
    else Ok(PlantId(normalized))
  }

  /** The id characters are ASCII, so an id's JavaScript length is its
      character count. */
  lemma IdLength(s: string)
    requires MatchesIdPattern(s)
    ensures JsLength(s) == |s|
  {
    assert forall i :: 0 <= i < |s| ==> IsIdChar(s[i]);
    Utf16OfBmp(s);
  }

  /** Eighty-one emoji are 162 code units: the length test rejects them
      before the character test is reached. */
  lemma AstralIdTooLong()
    ensures Create(seq(81, _ => '\U{1F600}')) == Err(InvalidPlantId(TooLong))
  {
    var s := seq(81, _ => '\U{1F600}');
    JsLengthAstral(s);
    NormalizeJsOfNormal(s);
  }

  /** Wraps stored id values back into ids. */
  function ToIds(values: seq<string>): (r: seq<PlantId>)
    ensures |r| == |values|
    ensures forall i :: 0 <= i < |r| ==> r[i] == PlantId(values[i])
  {
    seq(|values|, i requires 0 <= i < |values| => PlantId(values[i]))
  }

  function Equals(a: PlantId, b: PlantId): (r: bool)
    ensures r <==> a == b
  {
    a.value == b.value
  }

  /** Re-creating an id from its own value gives the same id. */
  lemma CreateRoundTrip(id: PlantId)
    requires Valid(id)
    ensures Create(id.value) == Ok(id)
  {
    var s := id.value;
    assert forall i :: 0 <= i < |s| ==> IsIdChar(s[i]);
    NormalizeJsOfNormal(s);
  }

  /** Every id `Create` accepts is a fixed point of `Create`. */
  lemma CreateIdempotent(raw: string)
    requires Create(raw).Ok?
    ensures Create(Create(raw).value.value) == Create(raw)
  {
    CreateRoundTrip(Create(raw).value);
  }

  /** Letter case of the input never matters. */
  lemma CreateIgnoresCase(raw: string)
    ensures Create(ToLower(raw)) == Create(raw)
  {
    NormalizeJsIgnoresCase(raw);
  }
}
