/** The planting-plan aggregate: allocations, grid positions and grid
    geometry, stored as given. */
module PlantingPlans {
  import opened PlantIds
  import opened GardenAreas

  /** Why a plant is in the plan: the user chose it, or it was added as a
      companion. There is no third source. */
  datatype AllocationSource = Selected | Companion

  datatype PlantAllocation = PlantAllocation(plantId: PlantId, quantity: int, source: AllocationSource)

  function Quantity(a: PlantAllocation): int {
    a.quantity
  }

  /** A placed plant: grid cell indices and the physical centre of the cell. */
  datatype PositionedPlant = PositionedPlant(plantId: PlantId, x: real, y: real, gridX: int, gridY: int)

  datatype PlantingPlan = PlantingPlan(
    area: GardenArea,
    allocations: seq<PlantAllocation>,
    positions: seq<PositionedPlant>,
    gridSide: int,
    cellSizeMeters: real)

  /** `PlantingPlan.create` performs no validation: every argument list gives
      a plan. */
  function Create(area: GardenArea, allocations: seq<PlantAllocation>, positions: seq<PositionedPlant>,
                  gridSide: int, cellSizeMeters: real): PlantingPlan
  {
    PlantingPlan(area, allocations, positions, gridSide, cellSizeMeters)
  }

  function GetArea(p: PlantingPlan): GardenArea {
    p.area
  }

  /** A copy of the stored list; a value sequence is its own copy. */
  function GetAllocations(p: PlantingPlan): seq<PlantAllocation> {
    p.allocations
  }

  function GetPositions(p: PlantingPlan): seq<PositionedPlant> {
    p.positions
  }

  function GetGridSide(p: PlantingPlan): int {
    p.gridSide
  }

  function GetCellSizeMeters(p: PlantingPlan): real {
    p.cellSizeMeters
  }

  /** Every accessor returns exactly what was passed to `Create`, whatever
      the arguments. */
  lemma CreateAccessors(area: GardenArea, allocations: seq<PlantAllocation>, positions: seq<PositionedPlant>,
                        gridSide: int, cellSizeMeters: real)
    ensures var p := Create(area, allocations, positions, gridSide, cellSizeMeters);
            GetArea(p) == area && GetAllocations(p) == allocations && GetPositions(p) == positions
            && GetGridSide(p) == gridSide && GetCellSizeMeters(p) == cellSizeMeters
  {
  }
}
