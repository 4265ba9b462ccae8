/** The seasons a crop grows in. */
module Seasons {
  /** The crop context's `Season` enum. */
  datatype Season = Spring | Summer | Fall | Winter
}

/** Sun, root depth and growing seasons of a crop. */
module GrowingRequirementsModel {
  import opened Results
  import opened Seasons

  datatype SunRequirement = FullSun | PartialShade | FullShade

  datatype RootDepth = Shallow | Medium | Deep

  datatype GrowingRequirements = GrowingRequirements(sun: SunRequirement, rootDepth: RootDepth, seasons: seq<Season>)

  /** `GrowingRequirements.create`: at least one season; values are kept as
      given (the season list is copied, which a value sequence is). */
  function Create(sun: SunRequirement, depth: RootDepth, seasons: seq<Season>): (r: Result<GrowingRequirements>)
    ensures r.Ok? <==> |seasons| > 0
    ensures r.Ok? ==> r.value.sun == sun && r.value.rootDepth == depth && r.value.seasons == seasons
    ensures r.Err? ==> r.error == InvalidGrowingRequirements(NoSeason)
  {
    if |seasons| == 0 then Err(InvalidGrowingRequirements(NoSeason))
    else Ok(GrowingRequirements(sun, depth, seasons))
  }

  /** `xs.some(s => ys.includes(s))`, scanned left to right. */
  function SharesSeason(xs: seq<Season>, ys: seq<Season>): (r: bool)
    ensures r <==> exists i, j :: 0 <= i < |xs| && 0 <= j < |ys| && xs[i] == ys[j]
  {
    if |xs| == 0 then false
    else if xs[0] in ys then
      var j :| 0 <= j < |ys| && ys[j] == xs[0];
      assert xs[0] == ys[j];
      true
    else
      var rest := SharesSeason(xs[1..], ys);
      assert forall i :: 1 <= i < |xs| ==> xs[i] == xs[1..][i - 1];
      rest
  }

  /** `isCompatibleWith`: same sun requirement and a common season. */
  function IsCompatibleWith(a: GrowingRequirements, b: GrowingRequirements): (r: bool)
    ensures r <==> a.sun == b.sun
                   && exists i, j :: 0 <= i < |a.seasons| && 0 <= j < |b.seasons| && a.seasons[i] == b.seasons[j]
  {
    a.sun == b.sun && SharesSeason(a.seasons, b.seasons)
  }

  lemma CompatibleSymmetric(a: GrowingRequirements, b: GrowingRequirements)
    ensures IsCompatibleWith(a, b) == IsCompatibleWith(b, a)
  {
    if IsCompatibleWith(a, b) {
      var i, j :| 0 <= i < |a.seasons| && 0 <= j < |b.seasons| && a.seasons[i] == b.seasons[j];
      assert b.seasons[j] == a.seasons[i];
    }
  }

  /** Requirements built by `Create` are compatible with themselves. */
  lemma CompatibleReflexive(a: GrowingRequirements)
    requires |a.seasons| > 0
    ensures IsCompatibleWith(a, a)
  {
    assert a.seasons[0] == a.seasons[0];
  }

  /** Root depth plays no part in compatibility. */
  lemma CompatibleIgnoresRootDepth(a: GrowingRequirements, b: GrowingRequirements, d: RootDepth, e: RootDepth)
    ensures IsCompatibleWith(a.(rootDepth := d), b.(rootDepth := e)) == IsCompatibleWith(a, b)
  {
  }
}
