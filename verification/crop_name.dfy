/** The crop name of the crops context: trimmed, lower-cased, non-empty and
    at most 100 UTF-16 code units long; there is no character restriction. */
module CropNames {
  import opened Results
  import opened Strings

  const MaxLength: nat := 100

  datatype CropName = CropName(value: string)

  /** What every name built by `Create` satisfies. */
  ghost predicate Valid(n: CropName) {
    0 < |n.value| && JsLength(n.value) <= MaxLength
    && (forall i :: 0 <= i < |n.value| ==> !IsUpperAsciiLetter(n.value[i]))
    && !IsJsSpace(n.value[0]) && !IsJsSpace(n.value[|n.value| - 1])
  }

  /** `CropName.create`: normalise, then reject an empty and then an overlong
      result, the length being JavaScript's count of code units. */
  function Create(raw: string): (r: Result<CropName>)
    ensures r.Ok? <==> 0 < |NormalizeJs(raw)| && JsLength(NormalizeJs(raw)) <= MaxLength
    ensures r.Ok? ==> r.value.value == NormalizeJs(raw) && Valid(r.value)
    ensures (forall i :: 0 <= i < |raw| ==> IsJsSpace(raw[i])) ==> r == Err(InvalidCropName(Empty))
    ensures JsLength(NormalizeJs(raw)) > MaxLength ==> r == Err(InvalidCropName(TooLong))
  {
    var normalized := NormalizeJs(raw);
    if |normalized| == 0 then Err(InvalidCropName(Empty))
    else if JsLength(normalized) > MaxLength then Err(InvalidCropName(TooLong))
    else Ok(CropName(normalized))
  }

  function Equals(a: CropName, b: CropName): (r: bool)
    ensures r <==> a == b
  {
    a.value == b.value
  }

  lemma CreateRoundTrip(n: CropName)
    requires Valid(n)
    ensures Create(n.value) == Ok(n)
  {
    NormalizeJsOfNormal(n.value);
  }

  /** Two names are equal exactly when their inputs normalise to the same
      string, so case and surrounding whitespace are ignored. */
  lemma EqualsIffSameNormalForm(a: string, b: string)
    requires Create(a).Ok? && Create(b).Ok?
    ensures Equals(Create(a).value, Create(b).value) <==> NormalizeJs(a) == NormalizeJs(b)
  {
  }

  lemma CreateIgnoresCase(raw: string)
    ensures Create(ToLower(raw)) == Create(raw)
  {
    NormalizeJsIgnoresCase(raw);
  }

  /** Any length from 1 to 100 code units is accepted, whatever the
      characters. */
  lemma AnyCharactersAccepted(s: string)
    requires 0 < |s| && JsLength(s) <= MaxLength
    requires forall i :: 0 <= i < |s| ==> !IsUpperAsciiLetter(s[i])
    requires !IsJsSpace(s[0]) && !IsJsSpace(s[|s| - 1])
    ensures Create(s) == Ok(CropName(s))
  {
    NormalizeJsOfNormal(s);
  }

  /** Fifty-one emoji are 51 characters but 102 code units, so the name is
      too long. */
  lemma AstralNameTooLong()
    ensures var s := seq(51, _ => '\U{1F600}');
            |s| <= MaxLength && Create(s) == Err(InvalidCropName(TooLong))
  {
    var s := seq(51, _ => '\U{1F600}');
    JsLengthAstral(s);
    NormalizeJsOfNormal(s);
  }

  /** Mapping a name builder that accepts exactly the short names keeps
      every name, or fails. */
  lemma MapShortNames(names: seq<string>, f: string -> Result<CropName>)
    requires forall i :: 0 <= i < |names| ==>
               f(names[i]) == if JsLength(names[i]) <= MaxLength then Ok(CropName(names[i])) else Err(InvalidCropName(TooLong))
    ensures MapAll(names, f).Ok? <==> forall i :: 0 <= i < |names| ==> JsLength(names[i]) <= MaxLength
    ensures MapAll(names, f).Ok? ==> forall c :: c in MapAll(names, f).value <==> c.value in names
    ensures MapAll(names, f).Ok? ==>
              |MapAll(names, f).value| == |names| && forall i :: 0 <= i < |names| ==> MapAll(names, f).value[i].value == names[i]
  {
    var r := MapAll(names, f);
    if r.Ok? {
      forall c ensures c in r.value <==> c.value in names {
        if c.value in names {
          var i :| 0 <= i < |names| && names[i] == c.value;
          assert r.value[i] == c;
        }
      }
    }
  }
}
