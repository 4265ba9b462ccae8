/** The three named garden sizes and their side dimension. */
module GardenSizes {
  import opened Results

  datatype GardenSize = Small | Medium | Large

  /** The accepted spelling of each size. */
  function Value(g: GardenSize): string {
    match g
    case Small => "SMALL"
    case Medium => "MEDIUM"
    case Large => "LARGE"
  }

  /** `GardenSize.create`: exactly one of the three spellings (case matters). */
  function Create(value: string): (r: Result<GardenSize>)
    ensures r.Ok? <==> exists g: GardenSize :: Value(g) == value
    ensures r.Ok? ==> Value(r.value) == value
    ensures r.Err? ==> r.error == InvalidGardenSize
  {
    if value == "SMALL" then assert Value(Small) == value; Ok(Small)
    else if value == "MEDIUM" then assert Value(Medium) == value; Ok(Medium)
    else if value == "LARGE" then assert Value(Large) == value; Ok(Large)
    else
      assert forall g: GardenSize :: Value(g) != value;
      Err(InvalidGardenSize)
  }

  /** The side dimension of each size. */
  function Dimension(g: GardenSize): (d: nat)
    ensures d > 0
  {
    match g
    case Small => 7
    case Medium => 15
    case Large => 30
  }

  function Equals(a: GardenSize, b: GardenSize): (r: bool)
    ensures r <==> a == b
  {
    Value(a) == Value(b)
  }

  lemma CreateRoundTrip(g: GardenSize)
    ensures Create(Value(g)) == Ok(g)
  {
  }

  /** The sides are 7, 15 and 30 cells, so larger sizes have strictly
      larger dimensions. */
  lemma DimensionOrdered()
    ensures Dimension(Small) == 7 && Dimension(Medium) == 15 && Dimension(Large) == 30
    ensures Dimension(Small) < Dimension(Medium) < Dimension(Large)
  {
  }

  /** Lower-case spellings are rejected. */
  lemma CreateIsCaseSensitive()
    ensures Create("small") == Err(InvalidGardenSize)
  {
    assert "small" != "SMALL" by {
      assert "small"[0] != "SMALL"[0];
    }
    assert "small" != "MEDIUM" && "small" != "LARGE";
  }
}
