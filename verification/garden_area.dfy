/** The garden surface in square metres and the plant capacity derived from
    it. */
module GardenAreas {
  import opened Results
  import opened Numbers

  datatype GardenArea = GardenArea(areaM2: real)

  ghost predicate Valid(a: GardenArea) {
    a.areaM2 >= 1.0
  }

  /** `GardenArea.create`: a non-finite value is rejected first, then a value
      below one square metre. */
  function Create(n: Number): (r: Result<GardenArea>)
    ensures r.Ok? <==> n.Finite? && n.x >= 1.0
    ensures r.Ok? ==> AreaM2(r.value) == n.x && Valid(r.value)
    ensures !n.Finite? ==> r == Err(InvalidGardenArea(NotFinite))
    ensures n.Finite? && n.x < 1.0 ==> r == Err(InvalidGardenArea(BelowMinimum))
  {
    if !n.Finite? then Err(InvalidGardenArea(NotFinite))
    else if n.x < 1.0 then Err(InvalidGardenArea(BelowMinimum))
    else Ok(GardenArea(n.x))
  }

  function AreaM2(a: GardenArea): real {
    a.areaM2
  }

  /** `getPlantCapacity`: the whole square metres, and at least one. The
      contract pins the value down as the largest integer that is at least 1
      and not above the area (or 1 when the area is below 2). */
  function PlantCapacity(a: GardenArea): (c: int)
    ensures c >= 1
    ensures c == 1 || c as real <= a.areaM2
    ensures a.areaM2 < (c + 1) as real
  {
    Max(1, a.areaM2.Floor)
  }

  /** For an area `Create` accepted, `1 <= capacity <= area`. */
  lemma CapacityWithinArea(a: GardenArea)
    requires Valid(a)
    ensures 1 <= PlantCapacity(a) && PlantCapacity(a) as real <= a.areaM2
  {
  }

  /** Capacity is monotone in the area. */
  lemma CapacityMonotone(a: GardenArea, b: GardenArea)
    requires a.areaM2 <= b.areaM2
    ensures PlantCapacity(a) <= PlantCapacity(b)
  {
  }
}
