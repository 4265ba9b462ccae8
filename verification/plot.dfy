/** A plot of the 5x5 simulation: a position and at most one plant.

    The plant is kept abstract: its type, the day it was planted and its
    growth stage. Its random id, health and fractional growth progress are
    outside the model. */
module Plots {
  import opened Results
  import opened GrowthStages
  import opened PlantTypes
  import opened Positions

  datatype Plant = Plant(kind: PlantType, plantedDay: int, stage: Stage)

  /** `Plant.create`: a known plant type, planted today, as a seed. */
  function NewPlant(typeName: string, day: int): (r: Result<Plant>)
    ensures r.Ok? <==> FromName(typeName).Ok?
    ensures r.Ok? ==> r.value.kind == FromName(typeName).value && r.value.plantedDay == day
                      && r.value.stage == Seed
    ensures r.Err? ==> r.error == UnknownPlantType
  {
    var kind :- FromName(typeName);
    Ok(Plant(kind, day, SeedStage()))
  }

  predicate PlantIsHarvestable(p: Plant) {
    IsHarvestable(p.stage)
  }

  datatype Plot = Plot(position: Position, plant: Option<Plant>)

  /** `Plot.create`: an empty plot at a validated position. */
  function Create(x: int, y: int): (r: Result<Plot>)
    ensures r.Ok? <==> InGrid(x, y)
    ensures r.Ok? ==> r.value.position == Position(x, y) && IsEmpty(r.value)
  {
    var position :- Positions.Create(x, y);
    Ok(Plot(position, None))
  }

  predicate IsEmpty(p: Plot) {
    p.plant.None?
  }

  predicate HasPlant(p: Plot) {
    p.plant.Some?
  }

  /** `plantSeed`: only an empty plot takes a plant. */
  function PlantSeed(p: Plot, plant: Plant): (r: Result<Plot>)
    ensures r.Ok? <==> IsEmpty(p)
    ensures r.Err? ==> r.error == PlotAlreadyPlanted
    ensures r.Ok? ==> r.value.position == p.position && r.value.plant == Some(plant)
  {
    if p.plant.Some? then Err(PlotAlreadyPlanted) else Ok(p.(plant := Some(plant)))
  }

  /** `removePlant`: the plot is left empty and its former plant (if any)
      is returned. */
  function RemovePlant(p: Plot): (r: (Plot, Option<Plant>))
    ensures r.0.position == p.position && IsEmpty(r.0)
    ensures r.1 == p.plant
  {
    (p.(plant := None), p.plant)
  }

  /** Exactly one of `isEmpty` and `hasPlant` holds. */
  lemma EmptyXorPlanted(p: Plot)
    ensures IsEmpty(p) != HasPlant(p)
  {
  }

  /** Planting into an empty plot and removing again returns the plant and
      restores the plot. */
  lemma PlantThenRemove(p: Plot, plant: Plant)
    requires IsEmpty(p)
    ensures PlantSeed(p, plant).Ok?
    ensures RemovePlant(PlantSeed(p, plant).value) == (p, Some(plant))
  {
  }

  /** A planted plot refuses a second plant and stays as it was. */
  lemma NoSecondPlant(p: Plot, first: Plant, second: Plant)
    requires IsEmpty(p)
    ensures PlantSeed(PlantSeed(p, first).value, second) == Err(PlotAlreadyPlanted)
  {
  }
}
