/** End-to-end properties of `optimize`: the allocation fills the garden
    exactly, keeps every selected plant once, adds only qualifying companions
    up to the companion limit, and gives every extra slot to one plant. */
module OptimizerProperties {
  import opened Results
  import opened Seqs
  import opened Sorting
  import opened PlantIds
  import opened GardenAreas
  import opened PlantingPlans
  import opened Knowledge
  import opened CompanionListOptimizer

  /** What a successful `Optimize` returns. */
  lemma OptimizeOk(o: Oracle, ps: seq<PlantId>, area: GardenArea)
    requires Optimize(o, ps, area).Ok?
    ensures var sel := Deduplicate(ps);
            NoDup(sel) && 1 <= |sel| <= PlantCapacity(area)
            && Optimize(o, ps, area).value == Finalize(Filled(o, sel, PlantCapacity(area)))
            && Optimize(o, ps, area).value == Plan(o, sel, PlantCapacity(area))
  {
  }

  /** A non-empty selection that fits and has no forbidden pair is always
      allocated. */
  lemma OptimizeSucceeds(o: Oracle, ps: seq<PlantId>, area: GardenArea)
    requires |ps| > 0 && |Deduplicate(ps)| <= PlantCapacity(area)
    requires forall i, j :: 0 <= i < j < |Deduplicate(ps)| ==> !o.forbidden(Deduplicate(ps)[i], Deduplicate(ps)[j])
    ensures Optimize(o, ps, area).Ok?
  {
  }

  /** The filled list: the initial list with all free slots on its target. */
  lemma FilledShape(o: Oracle, sel: seq<PlantId>, cap: int)
    requires 1 <= |sel| <= cap
    ensures var w := InitialWorking(o, sel, cap);
            var fw := Filled(o, sel, cap);
            var t := Target(o, w);
            |w| <= cap && |fw| == |w|
            && fw[t] == w[t].(quantity := w[t].quantity + (cap - |w|))
            && forall i :: 0 <= i < |w| && i != t ==> fw[i] == w[i]
  {
    InitialWorkingLength(o, sel, cap);
  }

  /** The filled list's quantities add up to the capacity. */
  lemma FilledSum(o: Oracle, sel: seq<PlantId>, cap: int)
    requires 1 <= |sel| <= cap
    ensures Sum(Filled(o, sel, cap), WorkingQuantity) == cap
  {
    var w := InitialWorking(o, sel, cap);
    var fw := Filled(o, sel, cap);
    var t := Target(o, w);
    InitialWorkingLength(o, sel, cap);
    FilledShape(o, sel, cap);
    SumConstant(w, WorkingQuantity, 1);
    assert fw == w[t := fw[t]];
    SumUpdate(w, t, fw[t], WorkingQuantity);
  }

  /** The plan for a checked selection: the filled list, sorted. */
  function Plan(o: Oracle, sel: seq<PlantId>, cap: int): seq<PlantAllocation>
    requires 1 <= |sel| <= cap
  {
    Finalize(Filled(o, sel, cap))
  }

  /** The allocated quantities add up to exactly the plant capacity of the
      area. */
  lemma OptimizeFillsCapacity(o: Oracle, ps: seq<PlantId>, area: GardenArea)
    requires Optimize(o, ps, area).Ok?
    ensures Sum(Optimize(o, ps, area).value, Quantity) == PlantCapacity(area)
  {
    OptimizeOk(o, ps, area);
    var sel := Deduplicate(ps);
    var cap := PlantCapacity(area);
    var fw := Filled(o, sel, cap);
    FilledSum(o, sel, cap);
    ToAllocationsQuantity(fw);
    SumPermutation(ToAllocations(fw), Finalize(fw), Quantity);
  }

  function AllocatedPlant(a: PlantAllocation): PlantId {
    a.plantId
  }

  /** The projected filled list has every id once. */
  lemma FilledDistinct(o: Oracle, sel: seq<PlantId>, cap: int)
    requires NoDup(sel) && 1 <= |sel| <= cap
    ensures var allocs := ToAllocations(Filled(o, sel, cap));
            forall i, j :: 0 <= i < j < |allocs| ==> allocs[i].plantId != allocs[j].plantId
  {
    var w := InitialWorking(o, sel, cap);
    var fw := Filled(o, sel, cap);
    InitialWorkingDistinct(o, sel, cap);
    FilledShape(o, sel, cap);
    assert forall i :: 0 <= i < |fw| ==> fw[i].plantId == w[i].plantId;
  }

  /** The plan has every id once. */
  lemma PlanDistinct(o: Oracle, sel: seq<PlantId>, cap: int)
    requires NoDup(sel) && 1 <= |sel| <= cap
    ensures var r := Plan(o, sel, cap);
            forall i, j :: 0 <= i < j < |r| ==> r[i].plantId != r[j].plantId
  {
    var fw := Filled(o, sel, cap);
    FilledDistinct(o, sel, cap);
    PermutationKeepsDistinctKeys(ToAllocations(fw), Finalize(fw), AllocatedPlant);
  }

  /** No plant is allocated twice. */
  lemma OptimizeDistinctPlants(o: Oracle, ps: seq<PlantId>, area: GardenArea)
    requires Optimize(o, ps, area).Ok?
    ensures var r := Optimize(o, ps, area).value;
            forall i, j :: 0 <= i < j < |r| ==> r[i].plantId != r[j].plantId
  {
    OptimizeOk(o, ps, area);
    PlanDistinct(o, Deduplicate(ps), PlantCapacity(area));
  }

  /** An allocation is a selected one exactly when its plant is in `sel`. */
  predicate SelectedIffIn(sel: seq<PlantId>, a: PlantAllocation) {
    a.source == Selected <==> a.plantId in sel
  }

  lemma FilledSelection(o: Oracle, sel: seq<PlantId>, cap: int)
    requires 1 <= |sel| <= cap
    ensures var allocs := ToAllocations(Filled(o, sel, cap));
            (forall i :: 0 <= i < |allocs| ==> SelectedIffIn(sel, allocs[i]))
            && (forall k :: 0 <= k < |sel| ==> allocs[k].plantId == sel[k] && allocs[k].source == Selected)
  {
    WorkingSelection(o, sel, cap);
    FilledKeepsIds(o, sel, cap);
  }

  /** In the seeded list the selected plants come first, marked selected,
      and no companion is one of them. */
  lemma WorkingSelection(o: Oracle, sel: seq<PlantId>, cap: int)
    requires |sel| <= cap
    ensures var w := InitialWorking(o, sel, cap);
            (forall i :: 0 <= i < |w| ==> (w[i].source == Selected <==> w[i].plantId in sel))
            && (forall k :: 0 <= k < |sel| ==> w[k].plantId == sel[k] && w[k].source == Selected)
  {
    InitialWorkingLength(o, sel, cap);
    InitialWorkingCompanions(o, sel, cap);
  }

  /** Filling only changes quantities. */
  lemma FilledKeepsIds(o: Oracle, sel: seq<PlantId>, cap: int)
    requires 1 <= |sel| <= cap
    ensures var w := InitialWorking(o, sel, cap);
            var fw := Filled(o, sel, cap);
            |fw| == |w| && forall i :: 0 <= i < |fw| ==> fw[i].plantId == w[i].plantId && fw[i].source == w[i].source
  {
    FilledShape(o, sel, cap);
  }

  /** In the plan, the selected entries are exactly the plants of `sel`. */
  lemma PlanSelectedIff(o: Oracle, sel: seq<PlantId>, cap: int)
    requires 1 <= |sel| <= cap
    ensures var r := Plan(o, sel, cap);
            forall i :: 0 <= i < |r| ==> SelectedIffIn(sel, r[i])
  {
    FilledSelection(o, sel, cap);
    PermutationAll(ToAllocations(Filled(o, sel, cap)), Plan(o, sel, cap), (a: PlantAllocation) => SelectedIffIn(sel, a));
  }

  /** The plan holds the `k`-th plant of `sel` as a selected entry. */
  lemma PlanHasSelected(o: Oracle, sel: seq<PlantId>, cap: int, k: nat)
    requires 1 <= |sel| <= cap && k < |sel|
    ensures var r := Plan(o, sel, cap);
            exists i :: 0 <= i < |r| && r[i].plantId == sel[k] && r[i].source == Selected
  {
    var allocs := ToAllocations(Filled(o, sel, cap));
    FilledSelection(o, sel, cap);
    assert allocs[k].plantId == sel[k] && allocs[k].source == Selected;
    PlanHasAllocation(o, sel, cap, k);
  }

  /** Every entry of the unsorted allocation list is in the plan. */
  lemma PlanHasAllocation(o: Oracle, sel: seq<PlantId>, cap: int, j: nat)
    requires 1 <= |sel| <= cap && j < |ToAllocations(Filled(o, sel, cap))|
    ensures var r := Plan(o, sel, cap);
            exists i :: 0 <= i < |r| && r[i] == ToAllocations(Filled(o, sel, cap))[j]
  {
    PermutationHas(ToAllocations(Filled(o, sel, cap)), Plan(o, sel, cap), j);
  }

  /** Every requested plant is allocated as a selected plant. */
  lemma OptimizeKeepsRequested(o: Oracle, ps: seq<PlantId>, area: GardenArea, k: nat)
    requires Optimize(o, ps, area).Ok? && k < |ps|
    ensures var r := Optimize(o, ps, area).value;
            exists i :: 0 <= i < |r| && r[i].plantId == ps[k] && r[i].source == Selected
  {
    OptimizeOk(o, ps, area);
    assert ps[k] in Deduplicate(ps);
    PlanHasMember(o, Deduplicate(ps), PlantCapacity(area), ps[k]);
  }

  lemma PlanHasMember(o: Oracle, sel: seq<PlantId>, cap: int, x: PlantId)
    requires 1 <= |sel| <= cap && x in sel
    ensures var r := Plan(o, sel, cap);
            exists i :: 0 <= i < |r| && r[i].plantId == x && r[i].source == Selected
  {
    var m :| 0 <= m < |sel| && sel[m] == x;
    PlanHasSelected(o, sel, cap, m);
  }

  /** Only requested plants are allocated as selected plants; everything else
      is a companion. */
  lemma OptimizeSelectedAreRequested(o: Oracle, ps: seq<PlantId>, area: GardenArea)
    requires Optimize(o, ps, area).Ok?
    ensures var r := Optimize(o, ps, area).value;
            forall i :: 0 <= i < |r| ==> (r[i].source == Selected <==> r[i].plantId in ps)
  {
    OptimizeOk(o, ps, area);
    var sel := Deduplicate(ps);
    var r := Optimize(o, ps, area).value;
    PlanSelectedIff(o, sel, PlantCapacity(area));
    forall i | 0 <= i < |r|
      ensures r[i].source == Selected <==> r[i].plantId in ps
    {
      assert SelectedIffIn(sel, r[i]);
    }
  }

  /** A companion allocation is a qualifying discovered candidate. */
  predicate QualifiedCompanion(o: Oracle, sel: seq<PlantId>, a: PlantAllocation) {
    a.source == Companion ==>
      Contribution(o, sel, a.plantId).Some? && a.plantId in Discoveries(o, sel)
  }

  lemma PlanCompanions(o: Oracle, sel: seq<PlantId>, cap: int)
    requires 1 <= |sel| <= cap
    ensures var r := Plan(o, sel, cap);
            |r| == |sel| + Min(CompanionLimit(cap, |sel|), |RankCompanionCandidates(o, sel)|)
            && forall i :: 0 <= i < |r| ==> QualifiedCompanion(o, sel, r[i])
  {
    var w := InitialWorking(o, sel, cap);
    var fw := Filled(o, sel, cap);
    var allocs := ToAllocations(fw);
    InitialWorkingLength(o, sel, cap);
    InitialWorkingCompanions(o, sel, cap);
    FilledKeepsIds(o, sel, cap);
    forall i | 0 <= i < |allocs|
      ensures QualifiedCompanion(o, sel, allocs[i])
    {
      assert fw[i].plantId == w[i].plantId && fw[i].source == w[i].source;
    }
    PermutationAll(allocs, Plan(o, sel, cap), (a: PlantAllocation) => QualifiedCompanion(o, sel, a));
  }

  /** Companions are qualifying discovered candidates (never requested,
      never in conflict with a requested plant, with a positive total
      compatibility), and there are as many as the companion limit and the
      ranking allow. */
  lemma OptimizeCompanions(o: Oracle, ps: seq<PlantId>, area: GardenArea)
    requires Optimize(o, ps, area).Ok?
    ensures var r := Optimize(o, ps, area).value;
            var sel := Deduplicate(ps);
            var cap := PlantCapacity(area);
            |r| == |sel| + Min(CompanionLimit(cap, |sel|), |RankCompanionCandidates(o, sel)|)
    ensures var r := Optimize(o, ps, area).value;
            forall i :: 0 <= i < |r| ==> QualifiedCompanion(o, Deduplicate(ps), r[i])
  {
    OptimizeOk(o, ps, area);
    PlanCompanions(o, Deduplicate(ps), PlantCapacity(area));
  }

  /** In the seeded list the `k`-th ranked candidate sits right after the
      selection, as a companion. */
  lemma InitialWorkingRanked(o: Oracle, sel: seq<PlantId>, cap: int, k: nat)
    requires |sel| <= cap
    requires k < Min(CompanionLimit(cap, |sel|), |RankCompanionCandidates(o, sel)|)
    ensures var w := InitialWorking(o, sel, cap);
            |sel| + k < |w|
            && w[|sel| + k].plantId == RankCompanionCandidates(o, sel)[k].plantId
            && w[|sel| + k].source == Companion
  {
    var seed := Seed(sel);
    var comps := Companions(RankCompanionCandidates(o, sel), CompanionLimit(cap, |sel|));
    assert (seed + comps)[|sel| + k] == comps[k];
  }

  /** Before the final sort, the `k`-th ranked candidate sits right after
      the selection, as a companion. */
  lemma AllocationsHaveRanked(o: Oracle, sel: seq<PlantId>, cap: int, k: nat)
    requires 1 <= |sel| <= cap
    requires k < Min(CompanionLimit(cap, |sel|), |RankCompanionCandidates(o, sel)|)
    ensures var allocs := ToAllocations(Filled(o, sel, cap));
            |sel| + k < |allocs|
            && allocs[|sel| + k].plantId == RankCompanionCandidates(o, sel)[k].plantId
            && allocs[|sel| + k].source == Companion
  {
    var w := InitialWorking(o, sel, cap);
    var fw := Filled(o, sel, cap);
    InitialWorkingRanked(o, sel, cap, k);
    FilledShape(o, sel, cap);
    assert fw[|sel| + k].plantId == w[|sel| + k].plantId && fw[|sel| + k].source == w[|sel| + k].source;
  }

  /** Each of the first `CompanionLimit` ranked candidates is allocated as a
      companion. */
  lemma PlanHasRanked(o: Oracle, sel: seq<PlantId>, cap: int, k: nat)
    requires 1 <= |sel| <= cap
    requires k < Min(CompanionLimit(cap, |sel|), |RankCompanionCandidates(o, sel)|)
    ensures var r := Plan(o, sel, cap);
            exists i :: 0 <= i < |r| && r[i].plantId == RankCompanionCandidates(o, sel)[k].plantId
                        && r[i].source == Companion
  {
    AllocationsHaveRanked(o, sel, cap, k);
    PlanHasAllocation(o, sel, cap, |sel| + k);
  }

  /** The top-ranked candidates, up to the companion limit, are all in the
      allocation as companions. */
  lemma OptimizeIncludesTopRanked(o: Oracle, ps: seq<PlantId>, area: GardenArea, k: nat)
    requires Optimize(o, ps, area).Ok?
    requires var sel := Deduplicate(ps);
             k < Min(CompanionLimit(PlantCapacity(area), |sel|), |RankCompanionCandidates(o, sel)|)
    ensures var r := Optimize(o, ps, area).value;
            exists i :: 0 <= i < |r| && r[i].plantId == RankCompanionCandidates(o, Deduplicate(ps))[k].plantId
                        && r[i].source == Companion
  {
    OptimizeOk(o, ps, area);
    PlanHasRanked(o, Deduplicate(ps), PlantCapacity(area), k);
  }

  /** Every allocation has at least one plant, and only `plant` can have
      more. */
  predicate OneExtraHolder(plant: PlantId, a: PlantAllocation) {
    a.quantity >= 1 && (a.quantity > 1 ==> a.plantId == plant)
  }

  lemma AllocationQuantities(o: Oracle, sel: seq<PlantId>, cap: int)
    requires 1 <= |sel| <= cap
    ensures var w := InitialWorking(o, sel, cap);
            var allocs := ToAllocations(Filled(o, sel, cap));
            forall i :: 0 <= i < |allocs| ==> OneExtraHolder(w[Target(o, w)].plantId, allocs[i])
  {
    var w := InitialWorking(o, sel, cap);
    var fw := Filled(o, sel, cap);
    var t := Target(o, w);
    InitialWorkingLength(o, sel, cap);
    FilledShape(o, sel, cap);
    forall i | 0 <= i < |fw|
      ensures OneExtraHolder(w[t].plantId, ToAllocation(fw[i]))
    {
      if i != t {
        assert fw[i] == w[i];
      }
    }
  }

  lemma PlanQuantities(o: Oracle, sel: seq<PlantId>, cap: int)
    requires 1 <= |sel| <= cap
    ensures var w := InitialWorking(o, sel, cap);
            var r := Plan(o, sel, cap);
            forall i :: 0 <= i < |r| ==> OneExtraHolder(w[Target(o, w)].plantId, r[i])
  {
    var w := InitialWorking(o, sel, cap);
    var plant := w[Target(o, w)].plantId;
    AllocationQuantities(o, sel, cap);
    PermutationAll(ToAllocations(Filled(o, sel, cap)), Plan(o, sel, cap),
                   (a: PlantAllocation) => OneExtraHolder(plant, a));
  }

  /** An id that is neither requested nor discovered from the selection is
      never allocated. */
  lemma OptimizeOnlyRequestedOrDiscovered(o: Oracle, ps: seq<PlantId>, area: GardenArea, x: PlantId)
    requires Optimize(o, ps, area).Ok?
    requires x !in ps && x !in Discoveries(o, Deduplicate(ps))
    ensures var r := Optimize(o, ps, area).value;
            forall i :: 0 <= i < |r| ==> r[i].plantId != x
  {
    OptimizeCompanions(o, ps, area);
    OptimizeSelectedAreRequested(o, ps, area);
  }

  /** Each allocation holds at least one plant, and every slot beyond one per
      entry goes to a single plant: the extra-slot target of the list before
      filling. */
  lemma OptimizeExtraSlots(o: Oracle, ps: seq<PlantId>, area: GardenArea)
    requires Optimize(o, ps, area).Ok?
    ensures var r := Optimize(o, ps, area).value;
            var w := InitialWorking(o, Deduplicate(ps), PlantCapacity(area));
            forall i :: 0 <= i < |r| ==> OneExtraHolder(w[Target(o, w)].plantId, r[i])
    ensures var r := Optimize(o, ps, area).value;
            forall i, j :: 0 <= i < j < |r| ==> r[i].quantity == 1 || r[j].quantity == 1
  {
    OptimizeOk(o, ps, area);
    var sel := Deduplicate(ps);
    var cap := PlantCapacity(area);
    PlanQuantities(o, sel, cap);
    PlanDistinct(o, sel, cap);
  }

  /** The output lists selected plants before companions and, within each
      group, larger quantities first. */
  lemma OptimizeOrder(o: Oracle, ps: seq<PlantId>, area: GardenArea)
    requires Optimize(o, ps, area).Ok?
    ensures var r := Optimize(o, ps, area).value;
            forall i, j :: 0 <= i < j < |r| ==>
              (r[j].source == Selected ==> r[i].source == Selected)
              && (r[i].source == r[j].source ==> r[i].quantity >= r[j].quantity)
  {
    var r := Optimize(o, ps, area).value;
    forall i, j | 0 <= i < j < |r|
      ensures r[j].source == Selected ==> r[i].source == Selected
      ensures r[i].source == r[j].source ==> r[i].quantity >= r[j].quantity
    {
      assert !KeyLess(AllocationOrder(r[j]), AllocationOrder(r[i]));
    }
  }
}
