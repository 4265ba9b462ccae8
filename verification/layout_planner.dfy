/** The layout planner: places every allocated plant on a square grid, cell
    by cell in row-major order, each cell taking the remaining plant that
    scores best with its already placed left and upper neighbours. */
module LayoutPlanner {
  import opened Results
  import opened Seqs
  import opened Strings
  import opened Greedy
  import opened PlantIds
  import opened PlantingPlans
  import opened Knowledge

  datatype LayoutPlanResult = LayoutPlanResult(positions: seq<PositionedPlant>, gridSide: int, cellSizeMeters: real)

  /** An entry of the `remaining` map: a plant and how many of it are still
      to be placed. */
  datatype Remaining = Remaining(plantId: PlantId, quantity: int)

  /** The number of cells to fill: the sum of the allocated quantities. */
  function TotalPlants(allocations: seq<PlantAllocation>): int {
    Sum(allocations, Quantity)
  }

  // ---------------------------------------------------------------------
  // grid side

  /** The search behind `CeilSqrt`, starting from a candidate `g` whose
      predecessor is known to be too small. */
  function CeilSqrtFrom(n: nat, g: nat): (r: nat)
    requires g == 0 || (g - 1) * (g - 1) < n
    ensures r * r >= n
    ensures r == 0 || (r - 1) * (r - 1) < n
    decreases n - g
  {
    if g * g >= n then g
    else
      assert g < n by {
        if g > 0 {
          assert g <= g * g;
        }
      }
      CeilSqrtFrom(n, g + 1)
  }

  /** `Math.ceil(Math.sqrt(n))`: the side of the smallest square grid with
      at least `n` cells. */
  function CeilSqrt(n: nat): (g: nat)
    ensures g * g >= n
    ensures g == 0 || (g - 1) * (g - 1) < n
  {
    CeilSqrtFrom(n, 0)
  }

  lemma SquareMonotone(a: nat, b: nat)
    requires a <= b
    ensures a * a <= b * b
  {
    assert a * a <= a * b <= b * b;
  }

  /** No smaller grid holds `n` cells. */
  lemma CeilSqrtIsLeast(n: nat, h: nat)
    requires h * h >= n
    ensures CeilSqrt(n) <= h
  {
    var g := CeilSqrt(n);
    if h < g {
      SquareMonotone(h, g - 1);
    }
  }

  /** A positive count needs a grid of side at least one. */
  lemma CeilSqrtPositive(n: nat)
    requires n > 0
    ensures CeilSqrt(n) >= 1
  {
  }

  // ---------------------------------------------------------------------
  // the `remaining` map

  predicate DistinctIds(rem: seq<Remaining>) {
    forall i, j :: 0 <= i < j < |rem| ==> rem[i].plantId != rem[j].plantId
  }

  function RemainingIds(rem: seq<Remaining>): (r: seq<PlantId>)
    ensures |r| == |rem| && forall k :: 0 <= k < |rem| ==> r[k] == rem[k].plantId
  {
    seq(|rem|, k requires 0 <= k < |rem| => rem[k].plantId)
  }

  function AllocationIds(allocations: seq<PlantAllocation>): (r: seq<PlantId>)
    ensures |r| == |allocations| && forall k :: 0 <= k < |allocations| ==> r[k] == allocations[k].plantId
  {
    seq(|allocations|, k requires 0 <= k < |allocations| => allocations[k].plantId)
  }

  /** `remaining.set(id, …)` for one allocation: an id already in the map
      keeps its place and takes the new quantity, a new id is appended. */
  function SetRemaining(rem: seq<Remaining>, a: PlantAllocation): (r: seq<Remaining>)
    requires DistinctIds(rem)
    ensures DistinctIds(r)
    ensures forall x :: x in RemainingIds(r) <==> x in RemainingIds(rem) || x == a.plantId
    ensures |r| >= |rem|
    ensures forall k :: 0 <= k < |rem| ==>
              r[k] == if rem[k].plantId == a.plantId then Remaining(a.plantId, a.quantity) else rem[k]
    ensures a.plantId !in RemainingIds(rem) ==> r == rem + [Remaining(a.plantId, a.quantity)]
  {
    if a.plantId in RemainingIds(rem) then
      var r := seq(|rem|, k requires 0 <= k < |rem| =>
        if rem[k].plantId == a.plantId then Remaining(a.plantId, a.quantity) else rem[k]);
      assert RemainingIds(r) == RemainingIds(rem);
      r
    else
      assert RemainingIds(rem + [Remaining(a.plantId, a.quantity)]) == RemainingIds(rem) + [a.plantId];
      rem + [Remaining(a.plantId, a.quantity)]
  }

  /** The `remaining` map the loop over the allocations builds: ids in order
      of first occurrence, each with the quantity of its last allocation. */
  function RemainingOf(allocations: seq<PlantAllocation>): (r: seq<Remaining>)
    ensures DistinctIds(r)
    ensures forall x :: x in RemainingIds(r) <==> x in AllocationIds(allocations)
  {
    if |allocations| == 0 then []
    else
      var prefix := allocations[..|allocations| - 1];
      assert forall k :: 0 <= k < |prefix| ==> AllocationIds(prefix)[k] == AllocationIds(allocations)[k];
      assert AllocationIds(allocations) == AllocationIds(prefix) + [allocations[|allocations| - 1].plantId];
      SetRemaining(RemainingOf(prefix), allocations[|allocations| - 1])
  }

  /** With distinct ids, the map holds the allocations one for one. */
  lemma {:induction false} RemainingOfDistinct(allocations: seq<PlantAllocation>)
    requires forall i, j :: 0 <= i < j < |allocations| ==> allocations[i].plantId != allocations[j].plantId
    ensures var r := RemainingOf(allocations);
            |r| == |allocations|
            && forall k :: 0 <= k < |r| ==> r[k] == Remaining(allocations[k].plantId, allocations[k].quantity)
  {
    if |allocations| > 0 {
      var prefix := allocations[..|allocations| - 1];
      var last := allocations[|allocations| - 1];
      var prev := RemainingOf(prefix);
      RemainingOfDistinct(prefix);
      assert last.plantId !in AllocationIds(prefix) by {
        forall k | 0 <= k < |prefix|
          ensures AllocationIds(prefix)[k] != last.plantId
        {
          assert prefix[k] == allocations[k];
        }
      }
      var r := prev + [Remaining(last.plantId, last.quantity)];
      assert RemainingOf(allocations) == r;
      forall k | 0 <= k < |r|
        ensures r[k] == Remaining(allocations[k].plantId, allocations[k].quantity)
      {
        if k < |prev| {
          assert r[k] == prev[k] && prefix[k] == allocations[k];
        }
      }
    }
  }

  /** A repeated id keeps the quantity of its last allocation. */
  lemma {:induction false} RemainingOfLastWins(allocations: seq<PlantAllocation>, j: nat)
    requires j < |allocations|
    requires forall i :: j < i < |allocations| ==> allocations[i].plantId != allocations[j].plantId
    ensures exists k :: 0 <= k < |RemainingOf(allocations)|
                        && RemainingOf(allocations)[k] == Remaining(allocations[j].plantId, allocations[j].quantity)
  {
    var n := |allocations|;
    var prefix := allocations[..n - 1];
    var prev := RemainingOf(prefix);
    var a := allocations[n - 1];
    var r := RemainingOf(allocations);
    assert r == SetRemaining(prev, a);
    var want := Remaining(allocations[j].plantId, allocations[j].quantity);
    if j == n - 1 {
      if a.plantId in RemainingIds(prev) {
        var k :| 0 <= k < |prev| && RemainingIds(prev)[k] == a.plantId;
        assert r[k] == want;
      } else {
        assert r[|prev|] == want;
      }
    } else {
      RemainingOfLastWins(prefix, j);
      var k :| 0 <= k < |prev| && prev[k] == want;
      assert r[k] == want;
    }
  }

  /** How many plants of an entry can still be placed. */
  function Avail(e: Remaining): int {
    Max(e.quantity, 0)
  }

  function AvailTotal(rem: seq<Remaining>): int {
    Sum(rem, Avail)
  }

  /** With distinct ids and positive quantities, every planned plant is
      available: the map's total is the allocations' total. */
  lemma AvailTotalOfDistinct(allocations: seq<PlantAllocation>)
    requires forall i, j :: 0 <= i < j < |allocations| ==> allocations[i].plantId != allocations[j].plantId
    requires forall i :: 0 <= i < |allocations| ==> allocations[i].quantity > 0
    ensures AvailTotal(RemainingOf(allocations)) == TotalPlants(allocations)
  {
    RemainingOfDistinct(allocations);
    SumPointwise(RemainingOf(allocations), allocations, Avail, Quantity);
  }

  /** A repeated id keeps only its last quantity, so fewer plants are
      available than cells to fill: two allocations of tomato, of 2 and 1,
      make 3 cells but leave 1 tomato to place, and `Plan` fails. */
  lemma DuplicateIdRunsOut()
    ensures var a := PlantId("tomato");
            var allocations := [PlantAllocation(a, 2, Selected), PlantAllocation(a, 1, Selected)];
            TotalPlants(allocations) == 3 && RemainingOf(allocations) == [Remaining(a, 1)]
            && AvailTotal(RemainingOf(allocations)) == 1
  {
    var a := PlantId("tomato");
    var allocations := [PlantAllocation(a, 2, Selected), PlantAllocation(a, 1, Selected)];
    var first := [PlantAllocation(a, 2, Selected)];
    assert allocations[..1] == first;
    assert first[..0] == [];
    assert RemainingOf(first) == [Remaining(a, 2)];
    assert RemainingOf(allocations) == [Remaining(a, 1)];
    SumSingleton(PlantAllocation(a, 2, Selected), Quantity);
    assert TotalPlants(allocations) == 3;
    SumSingleton(Remaining(a, 1), Avail);
  }

  /** Two sums agree when their terms agree position by position. */
  lemma {:induction false} SumPointwise<S, T>(a: seq<S>, b: seq<T>, f: S -> int, g: T -> int)
    requires |a| == |b| && forall k :: 0 <= k < |a| ==> f(a[k]) == g(b[k])
    ensures Sum(a, f) == Sum(b, g)
  {
    if |a| > 0 {
      SumPointwise(a[..|a| - 1], b[..|b| - 1], f, g);
    }
  }

  /** `decrement`: the entry of `x` loses one plant; an unknown id changes
      nothing. An exhausted entry is kept with a quantity of zero or less
      instead of being deleted; such an entry is never picked again. */
  function Decrement(rem: seq<Remaining>, x: PlantId): (r: seq<Remaining>)
    ensures |r| == |rem|
    ensures forall k :: 0 <= k < |rem| ==>
              r[k] == if rem[k].plantId == x then rem[k].(quantity := rem[k].quantity - 1) else rem[k]
  {
    seq(|rem|, k requires 0 <= k < |rem| =>
      if rem[k].plantId == x then rem[k].(quantity := rem[k].quantity - 1) else rem[k])
  }

  /** The map after a sequence of placements: each entry lowered by the
      number of times its plant was placed. */
  function RemainingAfter(init: seq<Remaining>, placed: seq<PlantId>): (r: seq<Remaining>)
    ensures |r| == |init|
    ensures forall k :: 0 <= k < |init| ==>
              r[k] == Remaining(init[k].plantId, init[k].quantity - Count(placed, init[k].plantId))
  {
    seq(|init|, k requires 0 <= k < |init| =>
      Remaining(init[k].plantId, init[k].quantity - Count(placed, init[k].plantId)))
  }

  /** One more placement is one more decrement. */
  lemma DecrementAfter(init: seq<Remaining>, placed: seq<PlantId>, x: PlantId)
    ensures Decrement(RemainingAfter(init, placed), x) == RemainingAfter(init, placed + [x])
  {
    assert (placed + [x])[..|placed|] == placed;
  }

  // ---------------------------------------------------------------------
  // neighbours and scoring

  /** `getPlacedNeighbors` for the next cell, `|prefix|`: the left cell when
      it is in the same row, then the cell above when there is one. */
  function NeighborsOf(prefix: seq<PlantId>, g: nat): (r: seq<PlantId>)
    requires g > 0
  {
    var index := |prefix|;
    var left := if index - 1 >= 0 && (index - 1) % g != g - 1 then [prefix[index - 1]] else [];
    var up := if index - g >= 0 then [prefix[index - g]] else [];
    left + up
  }

  /** A positive multiple of `g` is at least `g`. */
  lemma MultipleAtLeast(d: int, g: int)
    requires d >= 1 && g > 0
    ensures d * g >= g
  {
    assert d * g == (d - 1) * g + g;
    assert (d - 1) * g >= 0;
  }

  /** Quotient and remainder are determined by `n == q * g + m` with
      `0 <= m < g`. */
  lemma DivModUnique(n: int, g: int, q: int, m: int)
    requires g > 0 && n == q * g + m && 0 <= m < g
    ensures n / g == q && n % g == m
  {
    var q' := n / g;
    var m' := n % g;
    assert n == q' * g + m';
    if q' > q {
      assert (q' - q) * g == q' * g - q * g;
      MultipleAtLeast(q' - q, g);
    } else if q' < q {
      assert (q - q') * g == q * g - q' * g;
      MultipleAtLeast(q - q', g);
    }
  }

  /** The left-neighbour test is exactly "the previous cell is in the same
      row". */
  lemma LeftNeighborSameRow(index: nat, g: nat)
    requires g > 0 && index >= 1
    ensures (index - 1) % g != g - 1 <==> (index - 1) / g == index / g
  {
    var q := (index - 1) / g;
    var m := (index - 1) % g;
    DivModUnique(index - 1, g, q, m);
    if m != g - 1 {
      DivModUnique(index, g, q, m + 1);
    } else {
      assert index == (q + 1) * g + 0;
      DivModUnique(index, g, q + 1, 0);
    }
  }

  /** The neighbours of the next cell in grid terms: the cell to its left
      unless it starts a row, then the cell above unless it is in the first
      row. */
  lemma NeighborsByCell(prefix: seq<PlantId>, g: nat)
    requires g > 0
    ensures var i := |prefix|;
            NeighborsOf(prefix, g)
            == (if i % g != 0 then [prefix[i - 1]] else []) + (if i / g > 0 then [prefix[i - g]] else [])
  {
    var i := |prefix|;
    if i >= 1 {
      LeftNeighborSameRow(i, g);
      var q := (i - 1) / g;
      var m := (i - 1) % g;
      DivModUnique(i - 1, g, q, m);
      if m != g - 1 {
        DivModUnique(i, g, q, m + 1);
      } else {
        assert i == (q + 1) * g + 0;
        DivModUnique(i, g, q + 1, 0);
      }
    }
    if i >= g {
      DivModUnique(i, g, i / g, i % g);
      assert i / g > 0;
    } else {
      DivModUnique(i, g, 0, i);
    }
  }

  /** The compatibility of `c` with every neighbour, summed. */
  function CompatSum(o: Oracle, c: PlantId, neighbors: seq<PlantId>): int {
    if |neighbors| == 0 then 0 else CompatSum(o, c, neighbors[..|neighbors| - 1]) + o.score(c, neighbors[|neighbors| - 1])
  }

  /** The placement score `quantity * 0.01 + Σ compat`, scaled by 100 so that
      it is an exact integer. */
  function PlacementScore(o: Oracle, e: Remaining, neighbors: seq<PlantId>): int {
    e.quantity + 100 * CompatSum(o, e.plantId, neighbors)
  }

  /** The candidates of `pickBestPlantForPosition`, in map order; exhausted
      entries are not eligible. */
  function PlacementBids(o: Oracle, rem: seq<Remaining>, neighbors: seq<PlantId>): (r: seq<Bid>)
    ensures |r| == |rem|
    ensures forall k :: 0 <= k < |rem| ==>
              r[k] == Bid(PlacementScore(o, rem[k], neighbors), rem[k].plantId.value, rem[k].quantity > 0)
  {
    seq(|rem|, k requires 0 <= k < |rem| =>
      Bid(PlacementScore(o, rem[k], neighbors), rem[k].plantId.value, rem[k].quantity > 0))
  }

  /** The map position of the plant `pickBestPlantForPosition` returns. */
  function PickIndex(o: Oracle, rem: seq<Remaining>, neighbors: seq<PlantId>): (r: Option<nat>)
    ensures r.None? <==> forall k :: 0 <= k < |rem| ==> rem[k].quantity <= 0
    ensures r.Some? ==> r.value < |rem| && rem[r.value].quantity > 0
  {
    var bids := PlacementBids(o, rem, neighbors);
    var p := PickBest(bids);
    if p.Some? then assert bids[p.value].eligible; p else p
  }

  /** `pickBestPlantForPosition`: `None` stands for the "no remaining
      allocation" error. */
  function PickBestPlantForPosition(o: Oracle, rem: seq<Remaining>, neighbors: seq<PlantId>): (r: Option<PlantId>)
    ensures r.None? <==> forall k :: 0 <= k < |rem| ==> rem[k].quantity <= 0
    ensures r.Some? ==> exists k :: 0 <= k < |rem| && rem[k].plantId == r.value && rem[k].quantity > 0
  {
    match PickIndex(o, rem, neighbors)
    case None => None
    case Some(k) => Some(rem[k].plantId)
  }

  /** The picked plant has the highest score among the plants still to
      place, and the smallest id among those with that score. */
  lemma PickIsBest(o: Oracle, rem: seq<Remaining>, neighbors: seq<PlantId>)
    requires PickIndex(o, rem, neighbors).Some?
    ensures var t := PickIndex(o, rem, neighbors).value;
            forall k :: 0 <= k < |rem| && rem[k].quantity > 0 ==>
              PlacementScore(o, rem[k], neighbors) < PlacementScore(o, rem[t], neighbors)
              || (PlacementScore(o, rem[k], neighbors) == PlacementScore(o, rem[t], neighbors)
                  && !Less(rem[k].plantId.value, rem[t].plantId.value))
  {
    var bids := PlacementBids(o, rem, neighbors);
    var t := PickIndex(o, rem, neighbors).value;
    forall k | 0 <= k < |rem| && rem[k].quantity > 0
      ensures !Outbids(bids[k], bids[t])
    {
      assert bids[k].eligible;
    }
  }

  /** Conversely, a best plant with distinct ids is the one picked. */
  lemma PickIsUnique(o: Oracle, rem: seq<Remaining>, neighbors: seq<PlantId>, t: nat)
    requires DistinctIds(rem) && t < |rem| && rem[t].quantity > 0
    requires forall k :: 0 <= k < |rem| && rem[k].quantity > 0 ==>
               PlacementScore(o, rem[k], neighbors) < PlacementScore(o, rem[t], neighbors)
               || (PlacementScore(o, rem[k], neighbors) == PlacementScore(o, rem[t], neighbors)
                   && !Less(rem[k].plantId.value, rem[t].plantId.value))
    ensures PickIndex(o, rem, neighbors) == Some(t)
  {
    var bids := PlacementBids(o, rem, neighbors);
    forall i, j | 0 <= i < j < |bids|
      ensures bids[i].id != bids[j].id
    {
      assert rem[i].plantId != rem[j].plantId;
    }
    PickBestUnique(bids, t);
  }

  // ---------------------------------------------------------------------
  // placement

  /** The cell of the `index`-th placement and its physical centre. */
  function Position(x: PlantId, index: nat, g: nat, cell: real): (p: PositionedPlant)
    requires g > 0
  {
    var gridX := index % g;
    var gridY := index / g;
    PositionedPlant(x, (gridX as real + 0.5) * cell, (gridY as real + 0.5) * cell, gridX, gridY)
  }

  function PlacedIds(positions: seq<PositionedPlant>): (r: seq<PlantId>)
    ensures |r| == |positions| && forall i :: 0 <= i < |positions| ==> r[i] == positions[i].plantId
  {
    seq(|positions|, i requires 0 <= i < |positions| => positions[i].plantId)
  }

  /** The `i`-th placement is the greedy pick for its cell, given the
      placements before it. */
  predicate GreedyAt(o: Oracle, init: seq<Remaining>, placed: seq<PlantId>, g: nat, i: nat)
    requires g > 0 && i < |placed|
  {
    PickBestPlantForPosition(o, RemainingAfter(init, placed[..i]), NeighborsOf(placed[..i], g)) == Some(placed[i])
  }

  /** Earlier placements stay greedy when one more is appended. */
  lemma GreedyExtend(o: Oracle, init: seq<Remaining>, placed: seq<PlantId>, x: PlantId, g: nat)
    requires g > 0
    requires forall i :: 0 <= i < |placed| ==> GreedyAt(o, init, placed, g, i)
    requires PickBestPlantForPosition(o, RemainingAfter(init, placed), NeighborsOf(placed, g)) == Some(x)
    ensures forall i :: 0 <= i < |placed| + 1 ==> GreedyAt(o, init, placed + [x], g, i)
  {
    var next := placed + [x];
    forall i | 0 <= i < |placed| + 1
      ensures GreedyAt(o, init, next, g, i)
    {
      if i < |placed| {
        assert next[..i] == placed[..i];
        assert GreedyAt(o, init, placed, g, i);
      } else {
        assert next[..i] == placed;
      }
    }
  }

  /** The positions so far: the `i`-th placement in the `i`-th cell. */
  predicate PositionsMatch(positions: seq<PositionedPlant>, placed: seq<PlantId>, g: nat, cell: real)
    requires g > 0
  {
    |positions| == |placed| && forall i :: 0 <= i < |placed| ==> positions[i] == Position(placed[i], i, g, cell)
  }

  lemma PositionsExtend(positions: seq<PositionedPlant>, placed: seq<PlantId>, x: PlantId, g: nat, cell: real)
    requires g > 0 && PositionsMatch(positions, placed, g, cell)
    ensures PositionsMatch(positions + [Position(x, |placed|, g, cell)], placed + [x], g, cell)
  {
  }

  /** What has been consumed so far: no plant beyond its availability, and
      one available plant per filled cell. */
  predicate Consumed(init: seq<Remaining>, placed: seq<PlantId>) {
    AvailTotal(RemainingAfter(init, placed)) == AvailTotal(init) - |placed|
    && forall k :: 0 <= k < |init| ==> Count(placed, init[k].plantId) <= Avail(init[k])
  }

  /** Placing the picked entry `t` keeps the consumption invariant. */
  lemma ConsumeOne(init: seq<Remaining>, placed: seq<PlantId>, t: nat)
    requires DistinctIds(init) && Consumed(init, placed)
    requires t < |init| && RemainingAfter(init, placed)[t].quantity > 0
    ensures Consumed(init, placed + [init[t].plantId])
  {
    var x := init[t].plantId;
    var rem := RemainingAfter(init, placed);
    var next := RemainingAfter(init, placed + [x]);
    DecrementAfter(init, placed, x);
    assert next == rem[t := rem[t].(quantity := rem[t].quantity - 1)];
    SumUpdate(rem, t, next[t], Avail);
    assert (placed + [x])[..|placed|] == placed;
  }

  /** Nothing left to pick means every available plant has been placed. */
  lemma ExhaustedAt(init: seq<Remaining>, placed: seq<PlantId>)
    requires Consumed(init, placed)
    requires forall k :: 0 <= k < |init| ==> RemainingAfter(init, placed)[k].quantity <= 0
    ensures |placed| == AvailTotal(init)
  {
    var rem := RemainingAfter(init, placed);
    SumConstant(rem, Avail, 0);
  }

  /** When every available plant is placed, each plant is placed exactly its
      availability. */
  lemma ExactCounts(init: seq<Remaining>, placed: seq<PlantId>)
    requires Consumed(init, placed) && |placed| == AvailTotal(init)
    ensures forall k :: 0 <= k < |init| ==> Count(placed, init[k].plantId) == Avail(init[k])
  {
    var rem := RemainingAfter(init, placed);
    SumZeroTerms(rem, Avail);
    forall k | 0 <= k < |init|
      ensures Count(placed, init[k].plantId) == Avail(init[k])
    {
      assert Avail(rem[k]) == 0;
    }
  }

  /** A layout built so far: each placement in its own cell, each the greedy
      pick for that cell, and the plants consumed accordingly. */
  predicate LaidOutPrefix(o: Oracle, init: seq<Remaining>, placed: seq<PlantId>, positions: seq<PositionedPlant>,
                          g: nat, cell: real)
    requires g > 0
  {
    PositionsMatch(positions, placed, g, cell)
    && (forall i :: 0 <= i < |placed| ==> GreedyAt(o, init, placed, g, i))
    && Consumed(init, placed)
  }

  /** A complete layout, read off its positions. */
  predicate LaidOut(o: Oracle, init: seq<Remaining>, positions: seq<PositionedPlant>, g: nat, cell: real)
    requires g > 0
  {
    LaidOutPrefix(o, init, PlacedIds(positions), positions, g, cell)
  }

  /** One iteration of the placement loop: the picked plant goes into the
      next cell and its entry is decremented. */
  lemma PlaceNext(o: Oracle, init: seq<Remaining>, placed: seq<PlantId>, positions: seq<PositionedPlant>,
                  g: nat, cell: real, t: nat)
    requires g > 0 && DistinctIds(init) && LaidOutPrefix(o, init, placed, positions, g, cell)
    requires PickIndex(o, RemainingAfter(init, placed), NeighborsOf(placed, g)) == Some(t)
    ensures t < |init|
    ensures var x := init[t].plantId;
            LaidOutPrefix(o, init, placed + [x], positions + [Position(x, |placed|, g, cell)], g, cell)
            && Decrement(RemainingAfter(init, placed), x) == RemainingAfter(init, placed + [x])
  {
    var x := init[t].plantId;
    ConsumeOne(init, placed, t);
    DecrementAfter(init, placed, x);
    GreedyExtend(o, init, placed, x, g);
    PositionsExtend(positions, placed, x, g, cell);
  }

  /** The loop's result is a complete layout that placed no more plants than
      were available. */
  lemma FinishLayout(o: Oracle, init: seq<Remaining>, placed: seq<PlantId>, positions: seq<PositionedPlant>,
                     g: nat, cell: real)
    requires g > 0 && LaidOutPrefix(o, init, placed, positions, g, cell)
    ensures LaidOut(o, init, positions, g, cell) && |placed| <= AvailTotal(init)
  {
    SumZeroTerms(RemainingAfter(init, placed), Avail);
    assert PlacedIds(positions) == placed;
  }

  /** Allocations as the optimizer returns them: one per plant, each with at
      least one plant. */
  predicate DistinctPositive(allocations: seq<PlantAllocation>) {
    (forall i, j :: 0 <= i < j < |allocations| ==> allocations[i].plantId != allocations[j].plantId)
    && forall i :: 0 <= i < |allocations| ==> allocations[i].quantity > 0
  }

  /** In a complete layout of distinct positive allocations, every plant is
      placed exactly its allocated quantity. */
  lemma LayoutPlacesEachQuantity(o: Oracle, allocations: seq<PlantAllocation>, positions: seq<PositionedPlant>,
                                 g: nat, cell: real)
    requires g > 0 && DistinctPositive(allocations)
    requires LaidOut(o, RemainingOf(allocations), positions, g, cell) && |positions| == TotalPlants(allocations)
    ensures forall k :: 0 <= k < |allocations| ==>
              Count(PlacedIds(positions), allocations[k].plantId) == allocations[k].quantity
  {
    var init := RemainingOf(allocations);
    AvailTotalOfDistinct(allocations);
    RemainingOfDistinct(allocations);
    ExactCounts(init, PlacedIds(positions));
    forall k | 0 <= k < |allocations|
      ensures Count(PlacedIds(positions), allocations[k].plantId) == allocations[k].quantity
    {
      assert init[k].plantId == allocations[k].plantId;
    }
  }

  /** Distinct indices fall in distinct cells. */
  lemma CellsDiffer(i: nat, j: nat, g: nat)
    requires g > 0 && i != j
    ensures (i % g, i / g) != (j % g, j / g)
  {
    assert i == (i / g) * g + i % g;
    assert j == (j / g) * g + j % g;
  }

  /** A cell index below `g * g` lies in one of the first `g` rows. */
  lemma RowInGrid(i: nat, g: nat)
    requires g > 0 && i < g * g
    ensures i / g < g
  { }

  /** Every position of a complete layout lies on the grid. */
  lemma LayoutOnGrid(o: Oracle, init: seq<Remaining>, positions: seq<PositionedPlant>, g: nat, cell: real)
    requires g > 0 && LaidOut(o, init, positions, g, cell) && |positions| <= g * g
    ensures forall i :: 0 <= i < |positions| ==>
              0 <= positions[i].gridX < g && 0 <= positions[i].gridY < g
  {
    var placed := PlacedIds(positions);
    forall i | 0 <= i < |positions|
      ensures 0 <= positions[i].gridX < g && 0 <= positions[i].gridY < g
    {
      assert positions[i] == Position(placed[i], i, g, cell);
      RowInGrid(i, g);
    }
  }

  /** No two positions of a complete layout share a cell. */
  lemma LayoutCellsUnique(o: Oracle, init: seq<Remaining>, positions: seq<PositionedPlant>, g: nat, cell: real)
    requires g > 0 && LaidOut(o, init, positions, g, cell)
    ensures forall i, j :: 0 <= i < j < |positions| ==>
              (positions[i].gridX, positions[i].gridY) != (positions[j].gridX, positions[j].gridY)
  {
    var placed := PlacedIds(positions);
    forall i, j | 0 <= i < j < |positions|
      ensures (positions[i].gridX, positions[i].gridY) != (positions[j].gridX, positions[j].gridY)
    {
      assert positions[i] == Position(placed[i], i, g, cell);
      assert positions[j] == Position(placed[j], j, g, cell);
      CellsDiffer(i, j, g);
    }
  }

  /** The centre of a grid cell lies strictly inside the garden square. */
  lemma CellCentreInside(k: nat, g: nat, sideLength: real)
    requires g > 0 && k < g && sideLength > 0.0
    ensures 0.0 < (k as real + 0.5) * (sideLength / g as real) < sideLength
  {
    var c := sideLength / g as real;
    var d := g as real - (k as real + 0.5);
    assert c > 0.0 && d > 0.0;
    assert d * c > 0.0;
    assert g as real * c == sideLength;
    assert (k as real + 0.5) * c == g as real * c - d * c;
  }

  /** `plan`. The physical side of the garden, the square root of its area,
      is a parameter. A total of zero or less gives an empty layout; running
      out of plants before every cell is filled is the "no remaining
      allocation" error. */
  method Plan(o: Oracle, allocations: seq<PlantAllocation>, sideLength: real) returns (r: Result<LayoutPlanResult>)
    ensures TotalPlants(allocations) <= 0 ==> r == Ok(LayoutPlanResult([], 0, 0.0))
    ensures TotalPlants(allocations) > 0 ==>
              (r.Err? <==> TotalPlants(allocations) > AvailTotal(RemainingOf(allocations)))
    ensures r.Err? ==> r.error == NoRemainingAllocation
    ensures r.Ok? && TotalPlants(allocations) > 0 ==>
              var n := TotalPlants(allocations);
              var g := CeilSqrt(n);
              var cell := sideLength / g as real;
              g > 0 && r.value.gridSide == g && r.value.cellSizeMeters == cell && |r.value.positions| == n
              && LaidOut(o, RemainingOf(allocations), r.value.positions, g, cell)
    ensures DistinctPositive(allocations) ==> r.Ok?
  {
    var n := TotalPlants(allocations);
    if n <= 0 {
      return Ok(LayoutPlanResult([], 0, 0.0));
    }
    if DistinctPositive(allocations) {
      AvailTotalOfDistinct(allocations);
    }
    var g := CeilSqrt(n);
    var cell := sideLength / g as real;
    var init := RemainingOf(allocations);
    var rem := init;
    var placed: seq<PlantId> := [];
    var positions: seq<PositionedPlant> := [];
    var index := 0;
    SumZeroTerms(init, Avail);
    assert RemainingAfter(init, []) == init;
    while index < n
      invariant 0 <= index <= n && |placed| == index
      invariant rem == RemainingAfter(init, placed)
      invariant LaidOutPrefix(o, init, placed, positions, g, cell)
    {
      var pick := PickIndex(o, rem, NeighborsOf(placed, g));
      if pick.None? {
        ExhaustedAt(init, placed);
        return Err(NoRemainingAllocation);
      }
      var t := pick.value;
      PlaceNext(o, init, placed, positions, g, cell, t);
      var chosen := init[t].plantId;
      placed := placed + [chosen];
      rem := Decrement(rem, chosen);
      positions := positions + [Position(chosen, index, g, cell)];
      index := index + 1;
    }
    FinishLayout(o, init, placed, positions, g, cell);
    r := Ok(LayoutPlanResult(positions, g, cell));
  }
}
