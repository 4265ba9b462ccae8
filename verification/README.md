# wimp garden planner in Dafny

This project models the planning core of the wimp garden planner, together
with the pure logic around it. It proves properties of that model.

At the centre are two greedy algorithms that run over an abstract
companion-knowledge oracle. The oracle (`Knowledge.Oracle`) answers three
questions about plants: their companion candidates, whether two of them are a
forbidden pair, and their integer compatibility score.

- The companion list optimizer (`CompanionListOptimizer`) turns a selection of
  plants and a garden area into plant allocations that fill the garden's
  capacity. `OptimizerProperties` states and proves the promises about its
  result.
- The layout planner (`LayoutPlanner`) places those allocations on a square,
  row-major grid. Each cell gets the plant that fits its left and upper
  neighbours best.

Around these sit the following:

- **Value objects:** `PlantIds`, `GardenAreas`, `CropNames`, `HarvestPeriods`,
  `GrowingRequirementsModel`, `GardenSizes` and `PlantingPlans`.
- **Two companion registries:**
  - `JsonKnowledge`: the JSON edge tables, built from a sequence of edges.
  - `CsvRegistry`: the quote-aware CSV parser and its directional queries.
- **Linear layout:** the older linear layout strategy (`LinearStrategy`).
- **Association rules:** the crop association rules (`Crops`).
- **Event queue:** the aggregate-root event queue (`AggregateRoots`).
- **Text helpers:** the UI helpers in `TextUtils`.
- **Companion script:** the label normalisation, label resolution and edge
  building of the companion-generation script (`CompanionScript`).
- **The older 5x5 garden simulation:** `GrowthStages`, `Positions`, `Plots`,
  `PlantTypes` and `Gardens`.

Shared foundations are `Results` (the error datatype and `Option`/`Result`),
`Numbers`, `Seqs`, `Strings`, `Sorting` and `Greedy`. `Greedy` holds the arg-max scan
with an id tie-break that both algorithms use.

Modelling conventions:

- **Exceptions.** Every thrown error is a `Result` error case.
- **JavaScript numbers.** Where a `number` can be fractional, infinite or
  NaN at the boundary of the core (harvest days, garden areas, the linear
  layout's slot count, the truncation bound), it is `Numbers.Number`, with
  the language's comparisons. Rounding to doubles is not modelled.
- **String lengths.** JavaScript's `length` and `slice` count UTF-16 code
  units: `Strings.JsLength` and `Strings.Utf16`. An astral character, such
  as an emoji, counts twice. Python's `len` counts code points.
- **Mutable maps keyed by id.** These are sequences with distinct keys, kept
  in insertion order.
- **Sorting.** Array sorts are sorts on an explicit key.
- **`localeCompare`.** Modelled as code-point order on strings (`Strings.Less`).
- **Case mapping.** `toLowerCase`, `toUpperCase` and Python's `lower()` act on
  ASCII letters.
- **Whitespace.** `trim()` and Python's `strip()` use the whitespace sets of
  their languages.
- **Physical measures.** The garden's side length and cell size are kept as
  uninterpreted reals, passed in as parameters.
- **Planner score.** The planner's floating score `quantity * 0.01 + Σ compat`
  is compared as the exact integer `quantity + 100 * Σ compat`.

## Model

| member | source | states |
|---|---|---|
| CompanionListOptimizer.Optimize | src/garden/domain/services/companionListOptimizer.ts:30-92 | an empty selection fails with InvalidPlantSelection; otherwise more distinct plants than capacity fails with GardenCapacityExceeded; otherwise a forbidden pair among the distinct plants fails with IncompatibleSelectedPlants; each error happens exactly under its condition and in that order; a successful result is sorted selected-first, then by quantity descending, then by id |
| CompanionListOptimizer.Deduplicate | src/garden/domain/services/companionListOptimizer.ts:94-100 | the result has no repeated id, holds exactly the ids of the input, is empty only for an empty input, and lists the ids in the order of their first occurrences |
| CompanionListOptimizer.ForbiddenWithAny | src/garden/domain/services/companionListOptimizer.ts:107-115 | the inner loop finds a conflict exactly when the first plant is forbidden with some later one |
| CompanionListOptimizer.EnsureNoForbiddenPairs | src/garden/domain/services/companionListOptimizer.ts:102-118 | fails with IncompatibleSelectedPlants exactly when some pair i < j of the plants is forbidden |
| CompanionListOptimizer.ScanScore | src/garden/domain/services/companionListOptimizer.ts:131-141 | the scan over the selected targets stops as forbidden exactly when some score is negative; otherwise it yields the start value plus the sum of the scores |
| CompanionListOptimizer.Contribution | src/garden/domain/services/companionListOptimizer.ts:128-143 | a discovered candidate counts exactly when it is not already selected, no selected plant scores negative against it, and 1 plus its scores exceeds 1; its contribution is that sum |
| CompanionListOptimizer.TallyStepAt | src/garden/domain/services/companionListOptimizer.ts:145-151 | one discovery adds its contribution to an existing entry or creates the entry, and leaves every other entry unchanged |
| CompanionListOptimizer.TallyClosedForm | src/garden/domain/services/companionListOptimizer.ts:126-153 | after all discoveries, a candidate has an entry exactly when it was discovered and counts, and its score is its discovery count times its contribution |
| CompanionListOptimizer.TallyOrderBound | src/garden/domain/services/companionListOptimizer.ts:124-153 | the tally has no more entries than there were discoveries |
| CompanionListOptimizer.RankingEntries | src/garden/domain/services/companionListOptimizer.ts:124-155 | the tallied candidates are pairwise distinct |
| CompanionListOptimizer.RankingEntriesSound | src/garden/domain/services/companionListOptimizer.ts:126-153 | every tallied entry was discovered, counts, and carries count times contribution |
| CompanionListOptimizer.RankingEntriesComplete | src/garden/domain/services/companionListOptimizer.ts:126-153 | every discovered candidate that counts has an entry |
| CompanionListOptimizer.RankCompanionCandidates | src/garden/domain/services/companionListOptimizer.ts:120-161 | the ranking is a permutation of the tally, sorted by score descending and then by id, with distinct ids |
| CompanionListOptimizer.RankedAtMostDiscoveries | src/garden/domain/services/companionListOptimizer.ts:126-153 | there are no more ranked candidates than discoveries |
| CompanionListOptimizer.RankedSound | src/garden/domain/services/companionListOptimizer.ts:120-161 | every ranked candidate was discovered, counts, and carries count times contribution |
| CompanionListOptimizer.RankedComplete | src/garden/domain/services/companionListOptimizer.ts:120-161 | every discovered candidate that counts is ranked |
| CompanionListOptimizer.RankedSingleQualifier | src/garden/domain/services/companionListOptimizer.ts:120-161 | when exactly one discovered candidate counts, the ranking is non-empty and holds only that candidate |
| CompanionListOptimizer.Seed | src/garden/domain/services/companionListOptimizer.ts:46-54 | one working entry per selected plant, in order, as selected with quantity 1 and score 100 |
| CompanionListOptimizer.Companions | src/garden/domain/services/companionListOptimizer.ts:56-66 | the first min(limit, ranked) ranked candidates become companions of quantity 1 that keep their ranking score |
| CompanionListOptimizer.InitialWorkingLength | src/garden/domain/services/companionListOptimizer.ts:46-66 | the working list holds the selected plants first, then min(min(capacity - n, 2n), ranked) companions of quantity 1; it never exceeds capacity |
| CompanionListOptimizer.InitialWorkingCompanions | src/garden/domain/services/companionListOptimizer.ts:56-66 | every companion in the working list was discovered from the selection and counts against every selected plant |
| CompanionListOptimizer.InitialWorkingTail | src/garden/domain/services/companionListOptimizer.ts:59-66 | the companions are the top of the ranking, in rank order |
| CompanionListOptimizer.InitialWorkingDistinct | src/garden/domain/services/companionListOptimizer.ts:46-66 | for a repeat-free selection, the working list has distinct ids |
| CompanionListOptimizer.FillBids | src/garden/domain/services/companionListOptimizer.ts:167-179 | each entry bids its score, plus 2 when selected, plus its positive compatibility with the other entries |
| CompanionListOptimizer.ExtraSlotTarget | src/garden/domain/services/companionListOptimizer.ts:163-197 | a target exists exactly when the working list is non-empty, and it is an index of the list |
| CompanionListOptimizer.ExtraSlotTargetIsBest | src/garden/domain/services/companionListOptimizer.ts:163-197 | no entry has a higher fill score than the target, and none with an equal score has a smaller id |
| CompanionListOptimizer.TargetIgnoresQuantity | src/garden/domain/services/companionListOptimizer.ts:167-179 | changing an entry's quantity does not change which entry wins the next slot |
| CompanionListOptimizer.FillStep | src/garden/domain/services/companionListOptimizer.ts:71-75 | one iteration of the fill loop raises the target's quantity by one, and the target stays the same |
| CompanionListOptimizer.FillExtraSlots | src/garden/domain/services/companionListOptimizer.ts:68-75 | the fill loop gives all remaining slots to the one target entry |
| CompanionListOptimizer.FillClosed | src/garden/domain/services/companionListOptimizer.ts:68-75 | filling keeps the number of working entries |
| CompanionListOptimizer.ToAllocationsQuantity | src/garden/domain/services/companionListOptimizer.ts:87-91 | projecting working entries to allocations keeps the total quantity |
| CompanionListOptimizer.Finalize | src/garden/domain/services/companionListOptimizer.ts:77-91 | the result is a permutation of the projected entries, sorted selected-first, then by quantity descending, then by id |
| OptimizerProperties.OptimizeOk | src/garden/domain/services/companionListOptimizer.ts:30-92 | a successful run worked on a repeat-free selection of 1 to capacity plants and returned the sorted, filled working list |
| OptimizerProperties.OptimizeSucceeds | src/garden/domain/services/companionListOptimizer.ts:30-44 | a non-empty selection that fits and has no forbidden pair always succeeds |
| OptimizerProperties.FilledShape | src/garden/domain/services/companionListOptimizer.ts:68-75 | after filling, the target holds all capacity - size extra slots and every other entry is unchanged |
| OptimizerProperties.FilledSum | src/garden/domain/services/companionListOptimizer.ts:56-75 | the filled quantities sum to exactly the capacity |
| OptimizerProperties.OptimizeFillsCapacity | src/garden/domain/services/companionListOptimizer.ts:56-75 | on success the quantities sum to exactly the garden's plant capacity |
| OptimizerProperties.FilledDistinct | src/garden/domain/services/companionListOptimizer.ts:46-75 | the filled allocations of a repeat-free selection have distinct ids |
| OptimizerProperties.PlanDistinct | src/garden/domain/services/companionListOptimizer.ts:46-91 | the sorted plan of a repeat-free selection has distinct ids |
| OptimizerProperties.OptimizeDistinctPlants | src/garden/domain/services/companionListOptimizer.ts:30-100 | on success no id appears twice |
| OptimizerProperties.WorkingSelection | src/garden/domain/services/companionListOptimizer.ts:46-66 | a working entry is selected exactly when its id is in the selection, and the k-th entry is the k-th selected plant |
| OptimizerProperties.FilledKeepsIds | src/garden/domain/services/companionListOptimizer.ts:68-75 | filling changes only quantities, never ids or sources |
| OptimizerProperties.FilledSelection | src/garden/domain/services/companionListOptimizer.ts:46-75 | after filling, an allocation is selected exactly when its id was selected, and the selected plants come first in selection order |
| OptimizerProperties.PlanSelectedIff | src/garden/domain/services/companionListOptimizer.ts:46-91 | in the sorted plan an allocation is selected exactly when its id was selected |
| OptimizerProperties.PlanHasSelected | src/garden/domain/services/companionListOptimizer.ts:46-91 | every selected plant appears in the plan as selected |
| OptimizerProperties.PlanHasAllocation | src/garden/domain/services/companionListOptimizer.ts:77-91 | sorting loses no allocation |
| OptimizerProperties.OptimizeKeepsRequested | src/garden/domain/services/companionListOptimizer.ts:30-100 | on success every requested plant appears as selected |
| OptimizerProperties.PlanHasMember | src/garden/domain/services/companionListOptimizer.ts:46-91 | any member of the selection appears in the plan as selected |
| OptimizerProperties.OptimizeSelectedAreRequested | src/garden/domain/services/companionListOptimizer.ts:30-100 | on success an allocation is marked selected exactly when its id was requested |
| OptimizerProperties.PlanCompanions | src/garden/domain/services/companionListOptimizer.ts:56-66 | the plan has n + min(min(capacity - n, 2n), ranked) entries, and each companion was discovered and counts against every selected plant |
| OptimizerProperties.OptimizeCompanions | src/garden/domain/services/companionListOptimizer.ts:56-66 | on success there are at most min(capacity - n, 2n) companions, each discovered from the selection, with no negative score against a selected plant and a per-discovery score above 1 |
| OptimizerProperties.InitialWorkingRanked | src/garden/domain/services/companionListOptimizer.ts:59-66 | the k-th taken companion sits right after the selected plants, at position n + k |
| OptimizerProperties.AllocationsHaveRanked | src/garden/domain/services/companionListOptimizer.ts:59-75 | the k-th taken companion keeps its place and source through filling |
| OptimizerProperties.PlanHasRanked | src/garden/domain/services/companionListOptimizer.ts:59-91 | each of the top ranked companions within the limit appears in the plan as a companion |
| OptimizerProperties.OptimizeIncludesTopRanked | src/garden/domain/services/companionListOptimizer.ts:56-91 | on success each of the top min(capacity - n, 2n) ranked candidates is in the result as a companion |
| OptimizerProperties.AllocationQuantities | src/garden/domain/services/companionListOptimizer.ts:68-75 | every allocation has quantity at least 1, and only the fill target can have more |
| OptimizerProperties.PlanQuantities | src/garden/domain/services/companionListOptimizer.ts:68-91 | the same holds after sorting |
| OptimizerProperties.OptimizeOnlyRequestedOrDiscovered | src/garden/domain/services/companionListOptimizer.ts:46-66 | a plant neither requested nor discovered from the selection never appears |
| OptimizerProperties.OptimizeExtraSlots | src/garden/domain/services/companionListOptimizer.ts:68-75 | on success all extra slots go to the single fill target, so of any two allocations at least one has quantity 1 |
| OptimizerProperties.OptimizeOrder | src/garden/domain/services/companionListOptimizer.ts:77-86 | on success the selected plants precede the companions, and within a source quantities do not increase |
| InMemoryKnowledge.CandidateNames | src/garden/domain/services/companionListOptimizer.test.ts:20-33 | the test knowledge's candidates are the plants linked to the id by a helps pair in either direction, each once |
| InMemoryKnowledge.Score | src/garden/domain/services/companionListOptimizer.test.ts:41-50 | the test score is -100 exactly for a forbidden pair and always lies in {-100, 0, 2, 4}; otherwise it is at least 2 exactly when a help is recorded in some direction, and 4 exactly when helps are recorded in both directions |
| InMemoryKnowledge.ScoreSymmetric | src/garden/domain/services/companionListOptimizer.test.ts:35-50 | the test score is symmetric |
| InMemoryKnowledge.RejectsEmptySelection | src/garden/domain/services/companionListOptimizer.test.ts:84-89 | an empty selection is rejected with InvalidPlantSelection |
| InMemoryKnowledge.RejectsIncompatibleSelection | src/garden/domain/services/companionListOptimizer.test.ts:74-82 | tomato with potato, which avoid each other, is rejected with IncompatibleSelectedPlants |
| InMemoryKnowledge.SinglePlantFillsGarden | src/garden/domain/services/companionListOptimizer.ts:68-75 | tomato alone in an area of 4 with no edges yields tomato with quantity 4 |
| InMemoryKnowledge.MixedDiscoveries | src/garden/domain/services/companionListOptimizer.test.ts:58-72 | in the test graph the selection tomato and carrot discovers basil and nothing beyond basil, carrot and tomato |
| InMemoryKnowledge.BasilContribution | src/garden/domain/services/companionListOptimizer.test.ts:58-72 | basil contributes 1 + 4 + 0 = 5 to the ranking for tomato and carrot |
| InMemoryKnowledge.TomatoCarrotAccepted | src/garden/domain/services/companionListOptimizer.test.ts:58-72 | tomato and carrot in an area of 6 are accepted |
| InMemoryKnowledge.BasilRankedFirst | src/garden/domain/services/companionListOptimizer.test.ts:58-72 | basil is the top-ranked companion of tomato and carrot |
| InMemoryKnowledge.NoPotato | src/garden/domain/services/companionListOptimizer.test.ts:58-72 | potato, reachable only by an avoid edge, is not in the result |
| InMemoryKnowledge.TomatoCarrotGetsBasil | src/garden/domain/services/companionListOptimizer.test.ts:58-72 | the test's expectation: 6 plants in total, basil included as a companion, no potato |
| InMemoryKnowledge.FilledWithTopCompanion | src/garden/domain/services/companionListOptimizer.ts:56-75 | for any knowledge, when the limit allows a companion, the top-ranked one is included, the total is the capacity, and an undiscovered plant is absent |
| InMemoryKnowledge.FourSelectedAccepted | src/garden/domain/services/companionListOptimizer.test.ts:91-105 | four compatible selected plants in an area of 8 are accepted |
| InMemoryKnowledge.FourSelectedPlantsFit | src/garden/domain/services/companionListOptimizer.test.ts:91-105 | the four plants are all present as selected, no other plant is marked selected, and the total is 8 |
| LayoutPlanner.CeilSqrt | src/garden/domain/services/layoutPlanner.ts:30 | the grid side g satisfies g * g >= n and (g - 1) * (g - 1) < n |
| LayoutPlanner.CeilSqrtIsLeast | src/garden/domain/services/layoutPlanner.ts:30 | no smaller side holds all n plants |
| LayoutPlanner.CeilSqrtPositive | src/garden/domain/services/layoutPlanner.ts:21-30 | for a positive total the grid side is at least 1 |
| LayoutPlanner.SetRemaining | src/garden/domain/services/layoutPlanner.ts:34-39 | setting an allocation overwrites the entry with the same id in place, or appends a new entry; ids stay distinct |
| LayoutPlanner.RemainingOf | src/garden/domain/services/layoutPlanner.ts:32-39 | the remaining map has distinct ids, exactly those of the allocations |
| LayoutPlanner.RemainingOfDistinct | src/garden/domain/services/layoutPlanner.ts:32-39 | for distinct ids the remaining map is the allocations' ids and quantities, in order |
| LayoutPlanner.RemainingOfLastWins | src/garden/domain/services/layoutPlanner.ts:34-39 | an allocation not overridden by a later one with the same id keeps its quantity |
| LayoutPlanner.AvailTotalOfDistinct | src/garden/domain/services/layoutPlanner.ts:20-39 | for distinct positive allocations the remaining quantities add up to the total |
| LayoutPlanner.DuplicateIdRunsOut | src/garden/domain/services/layoutPlanner.ts:32-39 | tomato twice, with quantities 2 and 1, totals 3 but leaves only 1 to place, so the plan fails |
| LayoutPlanner.Decrement | src/garden/domain/services/layoutPlanner.ts:117-126 | the chosen plant's remaining quantity drops by one and nothing else changes |
| LayoutPlanner.RemainingAfter | src/garden/domain/services/layoutPlanner.ts:117-126 | after a sequence of placements, each entry's quantity is its initial quantity minus how often it was placed |
| LayoutPlanner.DecrementAfter | src/garden/domain/services/layoutPlanner.ts:50-51 | one decrement extends the placement count by the chosen plant |
| LayoutPlanner.LeftNeighborSameRow | src/garden/domain/services/layoutPlanner.ts:74 | the guard on the left cell's column holds exactly when the left cell is in the same row |
| LayoutPlanner.NeighborsByCell | src/garden/domain/services/layoutPlanner.ts:69-85 | the neighbours of cell i are the left cell when i is not at a row start, then the upper cell when i is not in the first row |
| LayoutPlanner.PlacementBids | src/garden/domain/services/layoutPlanner.ts:91-97 | each remaining plant bids quantity + 100 * its compatibility with the neighbours, and only plants with quantity left are eligible |
| LayoutPlanner.PickIndex | src/garden/domain/services/layoutPlanner.ts:87-115 | no pick exactly when every remaining quantity is at most 0; a pick always has quantity left |
| LayoutPlanner.PickBestPlantForPosition | src/garden/domain/services/layoutPlanner.ts:87-115 | fails exactly when nothing remains; otherwise returns a plant with quantity left |
| LayoutPlanner.PickIsBest | src/garden/domain/services/layoutPlanner.ts:99-107 | no eligible plant scores higher than the pick, and none with an equal score has a smaller id |
| LayoutPlanner.PickIsUnique | src/garden/domain/services/layoutPlanner.ts:87-108 | the pick is the only entry with that property |
| LayoutPlanner.ExactCounts | src/garden/domain/services/layoutPlanner.ts:44-51 | when placement has consumed everything, each plant was placed exactly its quantity times |
| LayoutPlanner.ConsumeOne | src/garden/domain/services/layoutPlanner.ts:50-51 | placing a plant that still has quantity left keeps every count within its allocation |
| LayoutPlanner.ExhaustedAt | src/garden/domain/services/layoutPlanner.ts:44-51 | once no plant has quantity left, exactly the total has been placed |
| LayoutPlanner.GreedyExtend | src/garden/domain/services/layoutPlanner.ts:46-51 | appending the greedy pick keeps every placement the greedy pick for its cell |
| LayoutPlanner.FinishLayout | src/garden/domain/services/layoutPlanner.ts:44-60 | the layout the loop ends with is greedy in every cell and places no more than the total |
| LayoutPlanner.PlaceNext | src/garden/domain/services/layoutPlanner.ts:44-59 | one loop iteration places the greedy pick in the next cell and decrements it |
| LayoutPlanner.LayoutPlacesEachQuantity | src/garden/domain/services/layoutPlanner.ts:32-60 | with distinct ids and positive quantities, each plant is placed exactly its allocated quantity |
| LayoutPlanner.LayoutOnGrid | src/garden/domain/services/layoutPlanner.ts:44-60 | every position's grid coordinates lie in [0, g) |
| LayoutPlanner.LayoutCellsUnique | src/garden/domain/services/layoutPlanner.ts:44-60 | no two positions share a cell |
| LayoutPlanner.CellCentreInside | src/garden/domain/services/layoutPlanner.ts:57-58 | every cell centre lies strictly inside the garden's side |
| LayoutPlanner.Plan | src/garden/domain/services/layoutPlanner.ts:19-67 | a total of at most 0 gives no positions, side 0 and cell 0; otherwise it fails exactly when fewer plants remain than the total; on success side g is the ceiling square root, cell = side / g, there are exactly total positions, the i-th at (i mod g, i div g), each the greedy pick for its cell; distinct positive allocations never fail |
| PlantingPlans.CreateAccessors | src/planting-intelligence/domain/aggregates/plantingPlan.ts:41-69 | every accessor returns exactly what was passed to create |
| GardenAreas.Create | src/garden/domain/value-objects/gardenArea.ts:10-20 | accepts exactly finite areas of at least 1 and keeps the value; a non-finite value and a value below 1 fail with their own reasons |
| GardenAreas.PlantCapacity | src/garden/domain/value-objects/gardenArea.ts:30-32 | the capacity is at least 1, at most the area unless it is 1, and the area is below capacity + 1 |
| GardenAreas.CapacityWithinArea | src/garden/domain/value-objects/gardenArea.ts:10-32 | for a valid area, 1 <= capacity <= area |
| GardenAreas.CapacityMonotone | src/garden/domain/value-objects/gardenArea.ts:30-32 | a larger area never has a smaller capacity |
| PlantIds.Create | src/planting-intelligence/domain/value-objects/plantId.ts:12-28 | accepts exactly the trimmed, lower-cased values of 1 to 160 UTF-16 code units matching the id pattern, and stores that value; empty, too long and bad characters fail with their own reasons, the length test coming before the pattern |
| PlantIds.Equals | src/planting-intelligence/domain/value-objects/plantId.ts:34-36 | equality is value equality |
| PlantIds.CreateRoundTrip | src/planting-intelligence/domain/value-objects/plantId.ts:12-32 | creating from a valid id's value gives that id back |
| PlantIds.CreateIdempotent | src/planting-intelligence/domain/value-objects/plantId.ts:12-28 | creating from a created id's value gives the same result |
| PlantIds.CreateIgnoresCase | src/planting-intelligence/domain/value-objects/plantId.ts:12-13 | upper case in the input makes no difference |
| PlantIds.IdLength | src/planting-intelligence/domain/value-objects/plantId.ts:19-23 | a value matching the id pattern is ASCII, so its JavaScript length is its character count |
| PlantIds.AstralIdTooLong | src/planting-intelligence/domain/value-objects/plantId.ts:19-21 | 81 emoji are 162 code units, so the value fails as too long before the pattern is tried |
| CropNames.Create | src/crops/domain/value-objects/cropName.ts:10-22 | accepts exactly trimmed, lower-cased names of 1 to 100 UTF-16 code units; a whitespace-only or too long name fails with its own reason |
| CropNames.Equals | src/crops/domain/value-objects/cropName.ts:28-30 | equality is value equality |
| CropNames.CreateRoundTrip | src/crops/domain/value-objects/cropName.ts:10-26 | creating from a valid name's value gives that name back |
| CropNames.EqualsIffSameNormalForm | src/crops/domain/value-objects/cropName.ts:10-30 | two created names are equal exactly when their inputs agree after trimming and lower-casing |
| CropNames.CreateIgnoresCase | src/crops/domain/value-objects/cropName.ts:10-11 | upper case in the input makes no difference |
| CropNames.AnyCharactersAccepted | src/crops/domain/value-objects/cropName.ts:10-22 | any normalised string of 1 to 100 code units is accepted unchanged, whatever its characters |
| CropNames.AstralNameTooLong | src/crops/domain/value-objects/cropName.ts:17-19 | 51 emoji are only 51 characters but 102 code units, and fail as too long |
| HarvestPeriods.Create | src/crops/domain/value-objects/harvestPeriod.ts:14-30 | with JavaScript numbers and comparisons: without NaN, accepts exactly 0 <= first <= last <= lifespan and keeps the three days; negative days, first after last, and last after lifespan fail, checked in that order; a NaN last day is accepted whenever the other two are not negative |
| HarvestPeriods.Overlaps | src/crops/domain/value-objects/harvestPeriod.ts:44-46 | two periods that share a day overlap; for well-ordered periods with finite first days, overlapping means sharing a day |
| HarvestPeriods.OverlapsSymmetric | src/crops/domain/value-objects/harvestPeriod.ts:44-46 | overlapping is symmetric |
| HarvestPeriods.OverlapsReflexive | src/crops/domain/value-objects/harvestPeriod.ts:44-46 | a valid period overlaps itself, a single-day one included |
| HarvestPeriods.NaNDaysAccepted | src/crops/domain/value-objects/harvestPeriod.ts:14-30 | NaN days pass every test, and the period they make is not a valid window |
| HarvestPeriods.FractionalDaysAccepted | src/crops/domain/value-objects/harvestPeriod.ts:14-30 | fractional days are accepted like whole ones |
| HarvestPeriods.NaNOverlapsNothing | src/crops/domain/value-objects/harvestPeriod.ts:44-46 | a period with a NaN first or last day overlaps no period, itself included |
| Numbers.NaNUnordered | src/crops/domain/value-objects/harvestPeriod.ts:15-25 | every comparison the validation makes is false when NaN takes part |
| Numbers.LeTransitive | src/crops/domain/value-objects/harvestPeriod.ts:44-46 | `<=` on JavaScript numbers is transitive |
| Numbers.TruncateToInt | src/ui/utils/text.ts:9 | the integer `slice` takes from a number drops the fraction toward zero |
| GrowingRequirementsModel.Create | src/crops/domain/value-objects/growingRequirements.ts:33-39 | succeeds exactly for a non-empty season list and keeps sun, root depth and seasons |
| GrowingRequirementsModel.SharesSeason | src/crops/domain/value-objects/growingRequirements.ts:56 | true exactly when some season appears in both lists |
| GrowingRequirementsModel.IsCompatibleWith | src/crops/domain/value-objects/growingRequirements.ts:53-60 | compatible exactly when the sun requirement is equal and a season is shared |
| GrowingRequirementsModel.CompatibleSymmetric | src/crops/domain/value-objects/growingRequirements.ts:53-60 | compatibility is symmetric |
| GrowingRequirementsModel.CompatibleReflexive | src/crops/domain/value-objects/growingRequirements.ts:33-60 | requirements with a season are compatible with themselves |
| GrowingRequirementsModel.CompatibleIgnoresRootDepth | src/crops/domain/value-objects/growingRequirements.ts:53-60 | root depth never affects compatibility |
| GardenSizes.Create | src/garden/domain/value-objects/gardenSize.ts:19-24 | accepts exactly the three spellings SMALL, MEDIUM and LARGE, and keeps the value; anything else fails with InvalidGardenSize |
| GardenSizes.Dimension | src/garden/domain/value-objects/gardenSize.ts:30-32 | every dimension is positive |
| GardenSizes.Equals | src/garden/domain/value-objects/gardenSize.ts:34-36 | equality is value equality |
| GardenSizes.CreateRoundTrip | src/garden/domain/value-objects/gardenSize.ts:19-28 | creating from a size's value gives the size back |
| GardenSizes.DimensionOrdered | src/garden/domain/value-objects/gardenSize.ts:6-10 | the dimensions are 7, 15 and 30, strictly increasing with size |
| GardenSizes.CreateIsCaseSensitive | src/garden/domain/value-objects/gardenSize.ts:19-24 | lower-case "small" is rejected |
| AggregateRoots.New | src/shared/domain/aggregateRoot.ts:4 | a new aggregate has no pending events |
| AggregateRoots.AddDomainEvent | src/shared/domain/aggregateRoot.ts:6-8 | the event is appended at the end and the earlier events are kept |
| AggregateRoots.PullDomainEvents | src/shared/domain/aggregateRoot.ts:10-14 | returns all pending events and leaves none pending |
| AggregateRoots.AddAllThenPull | src/shared/domain/aggregateRoot.ts:6-14 | pulling after adding events returns the earlier events followed by the new ones, in insertion order |
| AggregateRoots.PullTwice | src/shared/domain/aggregateRoot.ts:10-14 | an immediate second pull is empty |
| TextUtils.Capitalize | src/ui/utils/text.ts:1-5 | keeps the length, upper-cases the first character, and keeps the rest |
| TextUtils.CapitalizeIdempotent | src/ui/utils/text.ts:1-5 | capitalising twice is capitalising once |
| TextUtils.CapitalizeNoOp | src/ui/utils/text.ts:1-5 | a string not starting with a lower-case letter is unchanged |
| TextUtils.Truncate | src/ui/utils/text.ts:7-10 | for any JavaScript number as bound, in UTF-16 code units: a string whose length is within the bound is returned whole; otherwise the result ends in an ellipsis after a prefix of the string's code units, and a NaN bound leaves only the ellipsis |
| TextUtils.TruncateFits | src/ui/utils/text.ts:7-10 | for a bound of at least 1, whole, fractional or infinite, the result's code-unit length is within the bound |
| TextUtils.TruncateZeroBound | src/ui/utils/text.ts:7-10 | with bound 0, slice(0, -1) keeps all but the last code unit, so "abc" becomes "ab…" |
| TextUtils.TruncateWholeBound | src/ui/utils/text.ts:7-10 | for a whole bound of at least 1, a too long string keeps its first max - 1 code units and the ellipsis |
| TextUtils.TruncateBmp | src/ui/utils/text.ts:7-10 | without astral characters, truncation is the character-level cut followed by the ellipsis |
| TextUtils.TruncateSplitsSurrogatePair | src/ui/utils/text.ts:7-10 | three emoji cut at bound 4 keep one emoji and the high surrogate of the next before the ellipsis |
| TextUtils.TruncateFractionalBound | src/ui/utils/text.ts:7-10 | bound 2.5 cuts "abcd" to "a…" |
| TextUtils.TruncateNaNBound | src/ui/utils/text.ts:7-10 | a NaN bound turns any string into "…" |
| Strings.NormalizeJs | src/planting-intelligence/domain/value-objects/plantId.ts:13 | trim() then toLowerCase(): no upper-case letter, no whitespace at either end, empty only for whitespace-only input |
| Strings.NormalizeJsIdempotent | src/crops/domain/value-objects/cropName.ts:11 | normalising twice is normalising once |
| Strings.JsLength | src/crops/domain/value-objects/cropName.ts:17 | JavaScript `length` counts one code unit per character and two per astral character, so it lies between the character count and twice it |
| Strings.Utf16 | src/ui/utils/text.ts:8-9 | the UTF-16 form has exactly JsLength code units |
| Strings.Utf16OfBmp | src/planting-intelligence/domain/value-objects/plantId.ts:19 | without astral characters, the JavaScript length is the character count and each code unit is its character |
| Strings.JsLengthAstral | src/crops/domain/value-objects/cropName.ts:17 | a string of astral characters has twice its character count as JavaScript length |
| JsonKnowledge.Resolve | src/crops/infrastructure/jsonCompanionKnowledge.ts:119-122 | an edge is resolved exactly when both of its ends are valid plant ids |
| JsonKnowledge.AddEdge | src/crops/infrastructure/jsonCompanionKnowledge.ts:119-149 | a helps edge adds from-to, a helped_by edge adds to-from, and an avoid edge adds the ordered pair; nothing else is added |
| JsonKnowledge.Build | src/crops/infrastructure/jsonCompanionKnowledge.ts:29-31 | the tables hold exactly the links the entries contribute |
| JsonKnowledge.LoadRecords | src/crops/infrastructure/jsonCompanionKnowledge.ts:119-149 | from raw edges, a help or avoid link is recorded exactly when some valid edge records it |
| JsonKnowledge.LoadWellFormed | src/crops/infrastructure/jsonCompanionKnowledge.ts:139-149 | every recorded id is a valid plant id |
| JsonKnowledge.InvalidEdgeSkipped | src/crops/infrastructure/jsonCompanionKnowledge.ts:119-122 | an edge with an invalid end changes nothing |
| JsonKnowledge.AvoidKeyInjective | src/crops/infrastructure/jsonCompanionKnowledge.ts:180-182 | for valid ids the "a>>b" key determines both ids |
| JsonKnowledge.Outgoing | src/crops/infrastructure/jsonCompanionKnowledge.ts:36 | the plants a plant helps, each once |
| JsonKnowledge.Incoming | src/crops/infrastructure/jsonCompanionKnowledge.ts:37 | the plants that help a plant, each once |
| JsonKnowledge.Candidates | src/crops/infrastructure/jsonCompanionKnowledge.ts:34-45 | the candidates are exactly the plants linked to it by a help in either direction |
| JsonKnowledge.CandidatesOrder | src/crops/infrastructure/jsonCompanionKnowledge.ts:36-43 | the candidates come in the order the union set first meets them: the plants it helps in insertion order, then the plants that help it |
| JsonKnowledge.CandidatesWellFormed | src/crops/infrastructure/jsonCompanionKnowledge.ts:38-44 | candidates are distinct, and each one is a valid plant id |
| JsonKnowledge.IsHelpful | src/crops/infrastructure/jsonCompanionKnowledge.ts:70-74 | true exactly when the crop helps the companion |
| JsonKnowledge.IsForbidden | src/crops/infrastructure/jsonCompanionKnowledge.ts:76-80 | for non-empty names, true exactly when the pair is avoided in either direction |
| JsonKnowledge.IsForbiddenSymmetric | src/crops/infrastructure/jsonCompanionKnowledge.ts:76-80 | isForbidden is symmetric |
| JsonKnowledge.AvoidPartners | src/crops/infrastructure/jsonCompanionKnowledge.ts:88-101 | the partners are collected without repeats |
| JsonKnowledge.AvoidPartnersMember | src/crops/infrastructure/jsonCompanionKnowledge.ts:88-101 | a partner is a non-empty name avoided together with the crop in either direction |
| JsonKnowledge.HelpfulCompanionsResult | src/crops/infrastructure/jsonCompanionKnowledge.ts:82-86 | fails exactly when a helped plant's id is too long for a crop name; otherwise it lists exactly the companions isHelpful accepts |
| JsonKnowledge.ForbiddenCompanionsResult | src/crops/infrastructure/jsonCompanionKnowledge.ts:88-104 | fails exactly when a partner's id is too long for a crop name; otherwise it lists exactly the crops isForbidden pairs with it |
| JsonKnowledge.IsForbiddenPair | src/crops/infrastructure/jsonCompanionKnowledge.ts:47-49 | a pair is forbidden exactly when the ids differ and it is avoided in either direction, so a plant is never forbidden with itself |
| JsonKnowledge.Score | src/crops/infrastructure/jsonCompanionKnowledge.ts:51-68 | -100 exactly for a forbidden pair; always in {-100, 0, 2, 4}; otherwise at least 2 exactly when a help is recorded in some direction, and 4 exactly when helps are recorded in both directions |
| JsonKnowledge.ScoreSymmetric | src/crops/infrastructure/jsonCompanionKnowledge.ts:51-68 | the score is symmetric |
| JsonKnowledge.CanAssociateShortIds | src/crops/infrastructure/jsonCompanionKnowledge.ts:151-170 | for distinct ids of at most 100 characters, the code as written agrees with the corrected rule |
| JsonKnowledge.CanAssociateLongId | src/crops/infrastructure/jsonCompanionKnowledge.ts:151-170 | for distinct ids where one is longer than 100 characters, the code as written throws InvalidCropName |
| JsonKnowledge.CanAssociateAsWrittenAgrees | src/crops/infrastructure/jsonCompanionKnowledge.ts:151-170 | the code as written fails exactly for distinct ids with one longer than 100 characters, and agrees with the corrected rule otherwise |
| JsonKnowledge.ScoreAsWrittenAgrees | src/crops/infrastructure/jsonCompanionKnowledge.ts:51-68 | the score as written fails exactly in those cases and agrees with the corrected score otherwise |
| JsonKnowledge.LongIdBreaksScore | src/crops/infrastructure/jsonCompanionKnowledge.ts:151-170 | scoring a valid 101-character id against basil throws as written; the corrected score is defined |
| JsonKnowledge.IsHelpfulDirectional | src/crops/infrastructure/jsonCompanionKnowledge.ts:70-74 | after a single helps edge a to b, a is helpful to b but not b to a |
| CsvRegistry.Fields | src/crops/infrastructure/csvLoader.ts:41-56 | a line splits into at least one field, and every field is trimmed |
| CsvRegistry.SplitFields | src/crops/infrastructure/csvLoader.ts:41-56 | the character loop computes the field list |
| CsvRegistry.ScanJoin | src/crops/infrastructure/csvLoader.ts:45-56 | joining the fields with commas gives the line with its quote characters removed |
| CsvRegistry.ScanQuoteParity | src/crops/infrastructure/csvLoader.ts:45-49 | the scan ends inside quotes exactly when the line has an odd number of quote characters |
| CsvRegistry.ScanWithoutQuotes | src/crops/infrastructure/csvLoader.ts:45-56 | without quote characters the scan splits at every comma |
| CsvRegistry.FieldsWithoutQuotes | src/crops/infrastructure/csvLoader.ts:41-56 | without quote characters the fields are the trimmed comma-separated pieces |
| CsvRegistry.QuotedCommaKept | src/crops/infrastructure/csvLoader.ts:47-54 | a comma inside quotes is kept in the field |
| CsvRegistry.SimpleLineFields | src/crops/infrastructure/csvLoader.ts:41-56 | a plain "a,rel,b" line gives the three trimmed fields |
| CsvRegistry.ParseFields | src/crops/infrastructure/csvLoader.ts:58-72 | a row is kept exactly when it has three non-empty fields and the relation is exactly "helps" or "avoid"; source and destination are lower-cased, the relation is not |
| CsvRegistry.HeaderOnly | src/crops/infrastructure/csvLoader.ts:33-39 | input whose trimmed text is a single line has no rows, and nothing is helpful or forbidden |
| CsvRegistry.FromCsvNormal | src/crops/infrastructure/csvLoader.ts:33-84 | every parsed source and destination is trimmed, lower-case and non-empty |
| CsvRegistry.LineRowNormal | src/crops/infrastructure/csvLoader.ts:58-72 | a kept row's source and destination are trimmed, lower-case and non-empty |
| CsvRegistry.Destinations | src/crops/infrastructure/csvLoader.ts:96-108 | the destinations are exactly those of the crop's rows of the given kind, no more of them than rows |
| CsvRegistry.ListedIffRow | src/crops/infrastructure/csvLoader.ts:96-108 | a crop is listed exactly when the file has the row crop, kind, crop name |
| CsvRegistry.DestinationsCount | src/crops/infrastructure/csvLoader.ts:96-108 | each destination occurs as often as its row does, so duplicates are kept |
| CsvRegistry.CompanionListsResult | src/crops/infrastructure/csvLoader.ts:96-108 | the companion lists fail exactly when a destination is longer than 100 UTF-16 code units; otherwise they are the destinations in file order |
| CsvRegistry.HelpfulCompanionsMembers | src/crops/infrastructure/csvLoader.ts:86-101 | the helpful companions are exactly the names isHelpful accepts |
| CsvRegistry.ForbiddenCompanionsMembers | src/crops/infrastructure/csvLoader.ts:91-108 | the forbidden companions are exactly the names isForbidden accepts |
| CsvRegistry.CsvCompanionListsResult | src/crops/infrastructure/csvLoader.ts:96-108 | the same holds for a registry parsed from any text |
| CsvRegistry.QueriesDirectional | src/crops/infrastructure/csvLoader.ts:86-94 | a single row "tomato helps basil" makes tomato helpful to basil but not basil to tomato, and forbids nothing |
| Crops.Create | src/crops/domain/aggregates/crop.ts:12-21 | a new crop keeps its name, harvest period and registry, and has no companions |
| Crops.Companions | src/crops/domain/aggregates/crop.ts:48-50 | the companion names in insertion order |
| Crops.CheckAssociation | src/crops/domain/specifications/companionAssociationSpecification.ts:9-20 | satisfied exactly when the names differ and the registry does not forbid crop to companion; the self check reports first |
| Crops.CanAssociateWith | src/crops/domain/aggregates/crop.ts:30-38 | true exactly when the names differ and the crop's registry does not forbid the pair in that order |
| Crops.AssociateCompanion | src/crops/domain/aggregates/crop.ts:23-28 | fails exactly when canAssociateWith is false, with the rule's error; otherwise adds the companion's name object unless already present |
| Crops.AssociateKeepsDistinct | src/crops/domain/aggregates/crop.ts:10-28 | the companion set never holds the same name object twice |
| Crops.ReassociateIdempotent | src/crops/domain/aggregates/crop.ts:23-28 | associating the same crop again changes nothing |
| Crops.SelfCheckFirst | src/crops/domain/specifications/companionAssociationSpecification.ts:9-20 | a self pair reports CannotAssociateCropToItself even when the registry forbids it |
| Crops.SameTextDifferentObjects | src/crops/domain/aggregates/crop.ts:10-28 | two crops with equal names but different name objects are both kept, because the set compares objects |
| Crops.JsonRuleSymmetric | src/crops/infrastructure/jsonCompanionKnowledge.ts:76-80 | over the JSON registry the association rule is symmetric |
| Crops.CsvRuleDirectional | src/crops/domain/specifications/notForbiddenCompanion.ts:12-16 | over the CSV registry the rule asks only crop to companion: tomato avoids basil forbids tomato with basil, but not basil with tomato |
| LinearStrategy.ClassifyPair | src/planting-intelligence/domain/services/plantingStrategy.ts:102-112 | incompatible exactly when the left crop cannot take the right; beneficial exactly when it can and either helps the other; neutral otherwise |
| LinearStrategy.NeighborStates | src/planting-intelligence/domain/services/plantingStrategy.ts:114-130 | one state per consecutive pair (i, i + 1), |placed| - 1 in all, each classified |
| LinearStrategy.NoIncompatibleNeighbors | src/planting-intelligence/domain/services/plantingStrategy.ts:114-130 | no neighbour state is incompatible exactly when every crop can take its right-hand neighbour |
| LinearStrategy.Rules | src/planting-intelligence/domain/services/plantingStrategy.ts:68-73 | the loop consults the last crop's canAssociateWith and the registry's two-way isBeneficial |
| LinearStrategy.ChooseSpec | src/planting-intelligence/domain/services/plantingStrategy.ts:65-82 | the next crop is the first beneficial one; failing that, the first compatible one; failing that, the first one |
| LinearStrategy.PickNext | src/planting-intelligence/domain/services/plantingStrategy.ts:61-84 | the scan with its three indices finds that crop |
| LinearStrategy.Round | src/planting-intelligence/domain/services/plantingStrategy.ts:58-88 | a round takes min(budget, remaining) crops from the copy, each at most as often as it occurs there, and all of them when the budget allows |
| LinearStrategy.Fill | src/planting-intelligence/domain/services/plantingStrategy.ts:49-89 | further rounds keep the placed prefix and fill the row to the total with crops from the list |
| LinearStrategy.FirstRound | src/planting-intelligence/domain/services/plantingStrategy.ts:50-88 | the first round starts with the first crop and, when slots allow, is a permutation of the crops |
| LinearStrategy.Layout | src/planting-intelligence/domain/services/plantingStrategy.ts:47-89 | exactly totalSlots crops, the first being crops[0], all from the list, the first |crops| a permutation when slots allow |
| LinearStrategy.PlanLinearLayout | src/planting-intelligence/domain/services/plantingStrategy.ts:42-94 | for a whole number of slots: empty crops or at most 0 slots give three empty lists; otherwise the row as in Layout, its neighbour states, and an empty unplaced list |
| LinearStrategy.PlanLinearLayoutNumber | src/planting-intelligence/domain/services/plantingStrategy.ts:42-49 | for any JavaScript number of slots: empty crops, NaN or at most 0 slots give three empty lists; +Infinity with crops never returns; a finite positive count fills the least whole number of slots at or above it |
| LinearStrategy.Ceil | src/planting-intelligence/domain/services/plantingStrategy.ts:49 | the least whole number at or above a real, where `placed.length < totalSlots` first fails |
| LinearStrategy.RunRound | src/planting-intelligence/domain/services/plantingStrategy.ts:58-88 | the inner loop computes the round |
| LinearStrategy.LayoutLoop | src/planting-intelligence/domain/services/plantingStrategy.ts:47-89 | the nested loops compute the layout |
| LinearStrategy.PlanLinearLayoutLoop | src/planting-intelligence/domain/services/plantingStrategy.ts:42-94 | the method with its loops computes PlanLinearLayoutNumber for any JavaScript number of slots |
| LinearStrategy.FractionalSlots | src/planting-intelligence/domain/services/plantingStrategy.ts:42-94 | 2.5 slots hold three crops |
| GrowthStages.SeedStage | src/domain/value-objects/GrowthStage.ts:16-18 | the seed stage has ordinal 0 |
| GrowthStages.Ordinal | src/domain/value-objects/GrowthStage.ts:36-38 | every stage has a place in the stage order, and that place holds it |
| GrowthStages.OrdinalIsIndexOf | src/domain/value-objects/GrowthStage.ts:36-38 | the ordinal is the stage's index in the order |
| GrowthStages.Next | src/domain/value-objects/GrowthStage.ts:20-26 | there is no next stage exactly at HARVESTABLE; otherwise the next stage's ordinal is one more |
| GrowthStages.Equals | src/domain/value-objects/GrowthStage.ts:40-42 | equality is value equality |
| GrowthStages.OrdinalsInOrder | src/domain/value-objects/GrowthStage.ts:3 | SEED, SPROUT, GROWING, MATURE and HARVESTABLE have ordinals 0 to 4 |
| GrowthStages.OrdinalInjective | src/domain/value-objects/GrowthStage.ts:36-38 | different stages have different ordinals |
| GrowthStages.HarvestableIsMature | src/domain/value-objects/GrowthStage.ts:28-34 | harvestable implies mature; mature means ordinal at least 3; harvestable means ordinal 4 |
| GrowthStages.AdvanceLands | src/domain/value-objects/GrowthStage.ts:20-26 | n steps of next land n places further while within the five stages |
| GrowthStages.AdvancePastEnd | src/domain/value-objects/GrowthStage.ts:20-26 | stepping past HARVESTABLE gives nothing |
| GrowthStages.ReachesHarvestable | src/domain/value-objects/GrowthStage.ts:20-26 | every stage reaches HARVESTABLE in 4 - ordinal steps |
| Positions.Create | src/domain/value-objects/Position.ts:12-15 | accepts exactly coordinates in 0..4 and keeps them; anything else fails with InvalidPosition |
| Positions.FromData | src/domain/value-objects/Position.ts:17-19 | keeps stored coordinates as they are |
| Positions.FromDataBypassesBounds | src/domain/value-objects/Position.ts:12-19 | (5, 0) is rejected by create but accepted from stored data |
| Positions.Equals | src/domain/value-objects/Position.ts:21-23 | equal exactly when both coordinates agree |
| Positions.IsAdjacent | src/domain/value-objects/Position.ts:25-29 | adjacent exactly when the positions differ and both coordinate distances are at most 1 |
| Positions.AdjacencyShape | src/domain/value-objects/Position.ts:25-29 | adjacency is symmetric and irreflexive, includes diagonals, and excludes distance 2 |
| Positions.ToKey | src/domain/value-objects/Position.ts:31-33 | the key contains the comma separator and reads back as the same position |
| Positions.ParseKeyOfKey | src/domain/value-objects/Position.ts:31-33 | the key "x,y" reads back as the position |
| Positions.ToKeyInjective | src/domain/value-objects/Position.ts:31-33 | different positions have different keys |
| Plots.NewPlant | src/domain/entities/Plant.ts:29-33 | a plant of a known type, planted on the given day, as a seed; an unknown type fails |
| Plots.Create | src/domain/entities/Plot.ts:14-16 | succeeds exactly on the grid, and the new plot is empty |
| Plots.PlantSeed | src/domain/entities/Plot.ts:36-39 | succeeds exactly on an empty plot, which then holds exactly that plant; an occupied plot fails |
| Plots.RemovePlant | src/domain/entities/Plot.ts:41-45 | returns the former occupant, if any, and leaves the plot empty |
| Plots.EmptyXorPlanted | src/domain/entities/Plot.ts:28-34 | exactly one of isEmpty and hasPlant holds |
| Plots.PlantThenRemove | src/domain/entities/Plot.ts:36-45 | planting and removing gives the plant back and restores the plot |
| Plots.NoSecondPlant | src/domain/entities/Plot.ts:36-39 | a planted plot refuses a second plant |
| PlantTypes.FromName | src/domain/value-objects/PlantType.ts:10-14 | succeeds exactly for a name whose lower case is a table key, giving that entry; otherwise Unknown plant type |
| PlantTypes.DaysToHarvest | src/domain/value-objects/PlantType.ts:24-26 | for a table entry, the days to the first harvest are positive |
| PlantTypes.GetEmoji | src/domain/value-objects/PlantType.ts:36-39 | never empty; a stage whose lower-cased name is not one of the five stage keys gives the question mark; an empty picture also falls back to it; otherwise the result is one of the plant's pictures |
| PlantTypes.TableKeys | src/domain/data/plants.ts:19-66 | the table's keys are the available plants, and each is its entry's lower-cased name |
| PlantTypes.KeyRoundTrip | src/domain/value-objects/PlantType.ts:10-22 | a type read by name has the lower-cased name as its key, and reading the key gives the same type |
| PlantTypes.FromNameIgnoresCase | src/domain/value-objects/PlantType.ts:10-14 | the lookup ignores ASCII case |
| PlantTypes.TableRelationsSymmetric | src/domain/value-objects/PlantType.ts:28-34 | within the table, isCompanion and isIncompatible are symmetric |
| PlantTypes.ListsSymmetric | src/domain/data/plants.ts:19-64 | within the table, b is on a's companion list exactly when a is on b's, and likewise for the incompatible lists |
| PlantTypes.ListsOf | src/domain/data/plants.ts:19-64 | which table keys each entry's companion and incompatible lists name |
| PlantTypes.EmojiOfStage | src/domain/value-objects/PlantType.ts:36-39 | each stage's name gives that stage's own picture |
| PlantTypes.FromNameAsWritten | src/domain/value-objects/PlantType.ts:10-14 | as written, the lookup also accepts names reaching an inherited property of the object literal |
| PlantTypes.ConstructorIsNotAPlant | src/domain/value-objects/PlantType.ts:10-14 | "Constructor" is accepted as written but is an unknown plant type in the corrected lookup |
| PlantTypes.AsWrittenAgreesOnOwnKeys | src/domain/value-objects/PlantType.ts:10-14 | on every other name the two lookups agree |
| Gardens.NextSeasonInOrder | src/domain/entities/Garden.ts:121-122 | the next season is the next entry of the season list, wrapping after WINTER |
| Gardens.GridPlots | src/domain/entities/Garden.ts:29-34 | the 25 cells, row by row, each with an empty plot |
| Gardens.Create | src/domain/entities/Garden.ts:27-36 | a new garden has 25 empty plots at distinct positions, day 1 and SPRING |
| Gardens.GetPlot | src/domain/entities/Garden.ts:59-61 | finds a plot exactly when one is at that position, and returns it |
| Gardens.CreateCoversGrid | src/domain/entities/Garden.ts:27-61 | in a new garden, getPlot finds an empty plot exactly on the cells of the grid |
| Gardens.Put | src/domain/entities/Garden.ts:42 | a plot replaces the one at its position, or is appended; positions stay distinct |
| Gardens.Load | src/domain/entities/Garden.ts:39-43 | the loaded plots have distinct positions |
| Gardens.LoadFromStored | src/domain/entities/Garden.ts:39-43 | every loaded plot is one of the stored plots |
| Gardens.LoadLastWins | src/domain/entities/Garden.ts:39-43 | where stored positions repeat, the last plot at a position wins |
| Gardens.LoadKeyed | src/domain/entities/Garden.ts:39-43 | stored plots without repeated positions load unchanged |
| Gardens.FromData | src/domain/entities/Garden.ts:38-45 | keeps the stored day and season, and its plots have distinct positions |
| Gardens.FromDataOfToData | src/domain/entities/Garden.ts:147-153 | saving and loading a garden gives it back |
| Gardens.ToDataOfFromData | src/domain/entities/Garden.ts:38-45 | stored data without repeated positions survives a load and save |
| Gardens.Collect | src/domain/entities/Garden.ts:94-112 | the names of matching plants, each once |
| Gardens.CollectOrder | src/domain/entities/Garden.ts:94-112 | each name sits where the plot scan first meets it: the list is the matching plots' names in map order without repeats |
| Gardens.CheckCompanions | src/domain/entities/Garden.ts:86-115 | scans the whole garden, skipping the plot's own position, empty plots and plants that are not harvestable; each flag is set exactly when some plot matches; names are listed once each |
| Gardens.FlagsMatchNames | src/domain/entities/Garden.ts:99-111 | each flag is set exactly when its name list is non-empty |
| Gardens.DistanceIgnored | src/domain/entities/Garden.ts:94-104 | a harvestable companion anywhere in the garden counts, however far away |
| Gardens.PlantSeed | src/domain/entities/Garden.ts:67-77 | a missing plot, an occupied plot, an unknown type and an off-grid position fail, in that order; otherwise only that plot changes, it holds a new seed planted today, and the companion result is computed before planting |
| Gardens.HarvestPlant | src/domain/entities/Garden.ts:79-84 | a missing plot fails; an empty plot or a plant that is not harvestable gives nothing and leaves the garden unchanged; otherwise the plant is returned and only its plot is emptied |
| Gardens.PlantSeedKeepsShape | src/domain/entities/Garden.ts:67-77 | planting keeps the set of plot positions, and they stay distinct |
| Gardens.HarvestKeepsShape | src/domain/entities/Garden.ts:79-84 | harvesting keeps the set of plot positions, and they stay distinct |
| Gardens.OffGridPlotCannotBePlanted | src/domain/entities/Garden.ts:67-77 | an off-grid plot from stored data is found, but planting there fails at the position check |
| Gardens.Tick | src/domain/entities/Garden.ts:117-124 | the day goes up by one; the season moves on exactly when the new day is above 1 and is 1 modulo 30 |
| Gardens.AdvanceDay | src/domain/entities/Garden.ts:117-124 | the calendar ticks and the plots are unchanged |
| Gardens.ShiftSeasonIndex | src/domain/entities/Garden.ts:121-122 | moving k seasons lands k places further in the list, modulo 4 |
| Gardens.RolloversClosedForm | src/domain/entities/Garden.ts:120 | from day d >= 1, the number of season changes over n days is the number of 30-day boundaries crossed |
| Gardens.SeasonsCycle | src/domain/entities/Garden.ts:117-124 | after n days the day is d + n and the season has moved once per boundary crossed |
| Gardens.NewGardenSeasons | src/domain/entities/Garden.ts:117-124 | a new garden spends 30 days in each season, in the cyclic order SPRING, SUMMER, FALL, WINTER |
| Gardens.RolloversFromDayOne | src/domain/entities/Garden.ts:120 | from day 1, n days cross n div 30 season boundaries |
| Gardens.ShiftFromSpring | src/domain/entities/Garden.ts:121-122 | k season changes from SPRING reach the entry k mod 4 of the season list |
| Gardens.FromFirstSpringDay | src/domain/entities/Garden.ts:117-124 | n days after day 1 of SPRING the day is 1 + n and the season is the entry (n div 30) mod 4 |
| CompanionScript.Norm | scripts/generate-companions.py:10-13 | the label is stripped, lower-cased and has single inner spaces; it is empty exactly for an all-whitespace input |
| CompanionScript.LoweredStripped | scripts/generate-companions.py:11 | after strip and lower, neither end is whitespace, and the text is empty exactly when the input was all whitespace |
| CompanionScript.Collapse | scripts/generate-companions.py:12 | each whitespace run becomes a single space, no space follows a space, the ends are kept when they are not whitespace, and no upper-case letter is introduced |
| CompanionScript.NormIsPythonNorm | scripts/generate-companions.py:10-13 | norm equals Python's `" ".join(s.lower().split())`: the maximal whitespace-free runs of the lower-cased label, joined with single spaces |
| CompanionScript.CollapseIsJoin | scripts/generate-companions.py:12 | on text that starts and ends with a non-space, replacing each whitespace run by one space is joining its words with single spaces |
| CompanionScript.NormOfNormalized | scripts/generate-companions.py:10-13 | a label already in normal form is its own normal form |
| CompanionScript.NormIdempotent | scripts/generate-companions.py:10-13 | norm is idempotent |
| CompanionScript.Slugify | scripts/generate-companions.py:16-19 | the slug has only [a-z0-9-] and is no longer than the normal form |
| CompanionScript.KeepSlugText | scripts/generate-companions.py:18 | only [a-z0-9 ] characters survive (a hyphen is removed), and a string made only of them is unchanged |
| CompanionScript.Hyphenate | scripts/generate-companions.py:19 | each space becomes a hyphen and every other character is kept, so slug text becomes a slug |
| CompanionScript.KeepSlugTextAppend | scripts/generate-companions.py:18 | the filter works piece by piece: a character in [a-z0-9 ] stays, any other vanishes, and the filtered text of a concatenation is the concatenation of the filtered pieces |
| CompanionScript.SlugifyOfSlugText | scripts/generate-companions.py:16-19 | on a normal form already made of slug text, slugify only turns spaces into hyphens |
| CompanionScript.SlugifyOfNorm | scripts/generate-companions.py:16-19 | slugify sees only the normal form of its input |
| CompanionScript.SingularizeToken | scripts/generate-companions.py:22-27 | for tokens longer than 3, a trailing "ies" becomes "y" and a trailing "s" not in "ss" is dropped; other tokens are unchanged |
| CompanionScript.SingularizeTokenIdempotent | scripts/generate-companions.py:22-27 | singularising a token twice is singularising it once |
| CompanionScript.SingularizeTokenExamples | scripts/generate-companions.py:22-27 | "berries" becomes "berry" and "peas" becomes "pea"; "grass" and "bus" are kept |
| CompanionScript.SingularizePhrase | scripts/generate-companions.py:30-32 | the words of the result are the singularised words of the input, joined by single spaces: no space at either end and never two in a row; the result is empty exactly when the input has no word |
| CompanionScript.Words | scripts/generate-companions.py:31 | the split words are non-empty and contain no space |
| CompanionScript.SingularizePhraseIdempotent | scripts/generate-companions.py:30-32 | singularising a phrase twice is singularising it once |
| CompanionScript.Spellings | scripts/generate-companions.py:40-63 | without a comma, or with fewer than two comma parts, the spellings are the key's four variants; with two or more parts they are the key's variants, then the variants of the parts joined in order, then those of the parts joined in reverse order |
| CompanionScript.CommaParts | scripts/generate-companions.py:49 | the comma parts are non-empty and contain no comma |
| CompanionScript.Candidates | scripts/generate-companions.py:35-71 | empty exactly for an empty or double-quote label; otherwise the normal form comes first, with no repeats, holds exactly the spellings, and keeps them in the order of their first occurrences |
| Seqs.DistinctOrder | scripts/generate-companions.py:65-71 | dropping repeats with a seen-set keeps each element at its first occurrence: the kept elements come in the order of their first occurrences |
| Seqs.DistinctUnique | scripts/generate-companions.py:65-71 | a list with the same members, in first-occurrence order, is the de-duplicated list |
| CompanionScript.CandidatesUnique | scripts/generate-companions.py:65-71 | any list holding exactly the spellings in first-occurrence order is the candidate list |
| CompanionScript.CandidatesWithoutComma | scripts/generate-companions.py:35-71 | without a comma there are at most four candidates |
| CompanionScript.CandidatesTryBothOrders | scripts/generate-companions.py:48-63 | "pepper, bell" is also tried as "pepper bell" and as "bell pepper" |
| CompanionScript.FirstKnownFirst | scripts/generate-companions.py:100-104 | the first known candidate decides the result |
| CompanionScript.FirstKnown | scripts/generate-companions.py:100-104 | nothing is found exactly when no candidate is a slug or a crop name |
| CompanionScript.Resolve | scripts/generate-companions.py:90-105 | an alias of the normal form wins; otherwise the result is empty exactly when no candidate is a slug or a crop name |
| CompanionScript.ResolveFirstKnown | scripts/generate-companions.py:90-105 | without an alias, the first candidate that is a slug or a crop name gives the result |
| CompanionScript.ResolveSlug | scripts/generate-companions.py:90-105 | a label whose normal form is a slug and not an alias resolves to that slug |
| CompanionScript.ResolveGivesSlugs | scripts/generate-companions.py:90-105 | over a built catalogue, everything resolve returns is a known slug |
| CompanionScript.Slugs | scripts/generate-companions.py:154 | exactly the slugs of the crop cache |
| CompanionScript.NameIndex | scripts/generate-companions.py:155 | every indexed name maps to a slug of the cache |
| CompanionScript.NameIndexLastWins | scripts/generate-companions.py:155 | a crop whose name key no later crop shares is found by that key |
| CompanionScript.LoadAliases | scripts/generate-companions.py:74-87 | every alias key is in normal form |
| CompanionScript.LoadAliasesLastWins | scripts/generate-companions.py:81-86 | an alias entry not overridden by a later one with the same normal key keeps its targets |
| CompanionScript.FilterAliases | scripts/generate-companions.py:158-162 | unknown targets are dropped, and an alias left with none is removed |
| CompanionScript.KeepKnown | scripts/generate-companions.py:160 | keeps exactly the targets that are known slugs, and is empty exactly when none is |
| CompanionScript.BuildCatalogue | scripts/generate-companions.py:153-162 | the catalogue's slugs and name index come from the cache, and its aliases are non-empty and point to known slugs |
| CompanionScript.Pairs | scripts/generate-companions.py:189-193 | exactly the source-target pairs with different ends, with the given type |
| CompanionScript.Fan | scripts/generate-companions.py:189-193 | exactly the edges from one source to its targets, other than itself, with the given type |
| CompanionScript.LinkEdges | scripts/generate-companions.py:182-193 | nothing for an unmatched row or a dropped type; every edge has different ends and a kept type |
| CompanionScript.RowEdges | scripts/generate-companions.py:171-193 | an unmatched row adds nothing; a matched row adds only edges with different ends and a kept type |
| CompanionScript.LinkEdgesMembers | scripts/generate-companions.py:182-193 | an edge is added exactly when its ends differ and come from the sources and the destinations, swapped for a helped_by link under --normalize-helped-by |
| CompanionScript.NormalizeOverridesKeep | scripts/generate-companions.py:182-187 | under --normalize-helped-by only helps and avoid edges are written, and --keep-helped-by makes no difference |
| CompanionScript.OnlyHelpsAndAvoid | scripts/generate-companions.py:186-187 | without --keep-helped-by only helps and avoid edges are written |
| CompanionScript.AllEdges | scripts/generate-companions.py:171-193 | all rows' edges, repeats included |
| CompanionScript.SortedEdges | scripts/generate-companions.py:195-198 | the edges once each, strictly sorted by (from, to, type) |
| CompanionScript.SortedUnique | scripts/generate-companions.py:195-198 | two strictly sorted lists with the same edges are equal |
| CompanionScript.EdgeList | scripts/generate-companions.py:167-198 | the written list holds exactly the edges some row adds, once each, sorted by (from, to, type), never a self edge |
| CompanionScript.EdgeListUnique | scripts/generate-companions.py:167-198 | it is the only such sorted, repeat-free list |
| Greedy.PickBest | src/garden/domain/services/companionListOptimizer.ts:163-197 | the arg-max scan finds nothing exactly when no bid is eligible; otherwise it finds an eligible bid that no eligible bid outbids, by score and then by smaller id |
| Greedy.PickBestUnique | src/garden/domain/services/layoutPlanner.ts:87-108 | with distinct ids, that bid is the only one no eligible bid outbids |

## Left out

- File and network I/O: reading the companions JSON file and its path fallback (`resolvePath`), the bundled data behind `CsvCompanionRegistry.create`, and the script's argparse, file reads and writes, the unmatched-rows report and its printed summary. The JSON knowledge is built from a sequence of edges, and the script's tables are parameters.
- `GardenArea.getSideLengthMeters` is a floating-point square root. The side length is a real parameter of `LayoutPlanner.Plan`, and the cell size and physical x/y are kept as uninterpreted reals.
- Plant growth, health and random ids (`Plant.grow`, `applyHealthModifier`, `isDead`, `Plot.advanceDay`, `getDisplayEmoji`, the growth multipliers of `Garden.advanceDay`) are floating-point or random. A plant is its type, planting day and stage; `Gardens.AdvanceDay` models only the day and season rollover.
- `Garden.getPlotByPosition` is `getPlot` under the position's key. `Positions.ToKeyInjective` shows that keying by `toKey` is keying by position, so it is not modelled separately.
- `Plant.toData` / `fromData`, `Plot.toData` / `fromData`, `Position.toData` and the zod schemas: stored data is the model's own datatype. The schema's rejection of fractional coordinates and the plot's `soilMoisture` field are outside the model.
- `JsonCompanionKnowledge.toCrop` caches crops by id. The cache only saves work, so each call builds the crop afresh.
- `PlantTypes.GetEmoji`: for a stage string naming an inherited property of the emoji object, the source returns that property rather than a picture. Such stage strings are outside the model.
- `LayoutPlanner.Decrement` keeps an exhausted entry at quantity 0 instead of deleting it. An entry at 0 is never eligible again, so the picks are the same.
- `LayoutPlanner.PlacementBids` compares the exact integer `quantity + 100 * Σ compat` instead of the floating score `quantity * 0.01 + Σ compat`. The two orders agree whenever the floating sum is exact.
- `Strings.Less` is code-point order, standing in for `localeCompare`. ICU collation orders `-`, `_` and digits differently.
- `LinearStrategy.PlanLinearLayoutNumber`: with +Infinity slots and at least one crop, the source's loop never ends; the model reports `Diverges` instead of a row.
- Counts, indices, grid positions, the days of the 5x5 simulation and compatibility scores are whole numbers. Their TypeScript type is `number`; fractional, infinite and NaN values of them are not modelled.
- Case mapping and trimming act on ASCII letters and on each language's whitespace set. Unicode case mapping is not modelled.
- `CompanionScript.Row`: a CSV row shorter than the header gets `None` for its missing fields, and `norm` then raises `AttributeError`. Such rows are outside the model; a column missing from the header reads as the empty string.
- Domain events, error classes beyond one error datatype, the use cases, the UI and the `Gardener` and `Crops` holders are thin wrappers or display code.

## Findings

| source | as written | input that shows it | evidently intended | confidence | as-written member | corrected member |
|---|---|---|---|---|---|---|
| src/crops/infrastructure/jsonCompanionKnowledge.ts:151-170 | `canAssociate` turns both plant ids into crop names. `CropName.create` rejects names over 100 characters, but plant ids may have up to 160, so scoring or checking such a pair throws `InvalidCropName`. | the valid 101-character id "aaa…a" scored against "basil" | any two valid plant ids can be scored and checked for a forbidden pair | not executed | JsonKnowledge.LongIdBreaksScore | JsonKnowledge.Score |
| src/domain/value-objects/PlantType.ts:10-14 | `fromName` indexes a plain object literal, so a name that lower-cases to an inherited property such as "constructor" finds the `Object` function and is accepted | "Constructor" | only the four table entries are plant types | not executed | PlantTypes.ConstructorIsNotAPlant | PlantTypes.FromName |
