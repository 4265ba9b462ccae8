/** The companion list optimizer: turns the user's selection and the garden
    capacity into a list of plant allocations (selected plants, ranked
    companions, extra slots) whose quantities fill the garden. */
module CompanionListOptimizer {
  import opened Results
  import opened Seqs
  import opened Sorting
  import opened Greedy
  import opened PlantIds
  import opened GardenAreas
  import opened PlantingPlans
  import opened Knowledge
  import opened Strings

  /** Ranking score every selected plant is seeded with. */
  const SeedScore: int := 100
  /** Bonus a selected plant gets when competing for an extra slot. */
  const SelectedBonus: int := 2

  datatype WorkingAllocation = WorkingAllocation(plantId: PlantId, source: AllocationSource, quantity: int, score: int)

  datatype CandidateScore = CandidateScore(plantId: PlantId, score: int)

  /** `deduplicate`: the first occurrence of every id, in order. */
  function Deduplicate(items: seq<PlantId>): (r: seq<PlantId>)
    ensures NoDup(r)
    ensures forall i :: 0 <= i < |r| ==> r[i] in items
    ensures forall i :: 0 <= i < |items| ==> items[i] in r
    ensures |r| == 0 <==> |items| == 0
    ensures InFirstOccurrenceOrder(items, r)
  {
    DistinctOrder(items);
    Distinct(items)
  }

  // ---------------------------------------------------------------------
  // ensureNoForbiddenPairs

  /** `first` is forbidden with some plant of `rest` (the inner loop). */
  function ForbiddenWithAny(o: Oracle, first: PlantId, rest: seq<PlantId>): (r: bool)
    ensures r <==> exists j :: 0 <= j < |rest| && o.forbidden(first, rest[j])
  {
    if |rest| == 0 then false
    else if o.forbidden(first, rest[0]) then true
    else
      assert forall j :: 1 <= j < |rest| ==> rest[j] == rest[1..][j - 1];
      ForbiddenWithAny(o, first, rest[1..])
  }

  /** `ensureNoForbiddenPairs`: fails exactly when some pair `i < j` of the
      list is forbidden in that order. */
  function EnsureNoForbiddenPairs(o: Oracle, plants: seq<PlantId>): (r: Outcome)
    ensures r.Fail? <==> exists i, j :: 0 <= i < j < |plants| && o.forbidden(plants[i], plants[j])
    ensures r.Fail? ==> r.error == IncompatibleSelectedPlants
  {
    if |plants| == 0 then Pass
    else if ForbiddenWithAny(o, plants[0], plants[1..]) then
      var j :| 0 <= j < |plants[1..]| && o.forbidden(plants[0], plants[1..][j]);
      assert plants[1..][j] == plants[j + 1];
      Fail(IncompatibleSelectedPlants)
    else
      var rest := EnsureNoForbiddenPairs(o, plants[1..]);
      assert forall i :: 1 <= i < |plants| ==> plants[i] == plants[1..][i - 1];
      rest
  }

  // ---------------------------------------------------------------------
  // rankCompanionCandidates

  /** Reference total: the sum of the compatibility of `c` with each target. */
  function SumScores(o: Oracle, c: PlantId, targets: seq<PlantId>): int {
    if |targets| == 0 then 0 else o.score(c, targets[0]) + SumScores(o, c, targets[1..])
  }

  /** The inner scoring loop: starting from `acc`, add the compatibility
      with each target, and give up (forbidden) at the first negative one. */
  function ScanScore(o: Oracle, c: PlantId, targets: seq<PlantId>, acc: int): (r: Option<int>)
    ensures r.None? <==> exists k :: 0 <= k < |targets| && o.score(c, targets[k]) < 0
    ensures r.Some? ==> r.value == acc + SumScores(o, c, targets)
  {
    if |targets| == 0 then Some(acc)
    else
      var x := o.score(c, targets[0]);
      assert forall k :: 1 <= k < |targets| ==> targets[k] == targets[1..][k - 1];
      if x < 0 then None else ScanScore(o, c, targets[1..], acc + x)
  }

  /** What one discovery of candidate `c` adds to its ranking score: nothing
      when `c` is already selected, forbidden with a selected plant, or scores
      at most 1. */
  function Contribution(o: Oracle, selected: seq<PlantId>, c: PlantId): (r: Option<int>)
    ensures r.Some? <==> c !in selected
                         && (forall k :: 0 <= k < |selected| ==> o.score(c, selected[k]) >= 0)
                         && 1 + SumScores(o, c, selected) > 1
    ensures r.Some? ==> r.value == 1 + SumScores(o, c, selected) && r.value > 1
  {
    if c in selected then None
    else match ScanScore(o, c, selected, 1)
      case None => None
      case Some(v) => if v <= 1 then None else Some(v)
  }

  /** Every candidate id the ranking loop visits, in visiting order. */
  function Discoveries(o: Oracle, from: seq<PlantId>): seq<PlantId> {
    if |from| == 0 then [] else Discoveries(o, from[..|from| - 1]) + o.candidates(from[|from| - 1])
  }

  /** The insertion-ordered map of accumulated candidate scores. */
  datatype Tally = Tally(order: seq<PlantId>, scores: map<PlantId, int>)

  ghost predicate WellFormedTally(t: Tally) {
    NoDup(t.order) && forall c :: c in t.scores <==> c in t.order
  }

  /** One iteration of the ranking loop: a new candidate is appended, a known
      one has its score increased, a non-qualifying one is skipped. */
  function TallyStep(o: Oracle, selected: seq<PlantId>, prev: Tally, c: PlantId): (t: Tally)
    requires WellFormedTally(prev)
    ensures WellFormedTally(t)
  {
    match Contribution(o, selected, c)
    case None => prev
    case Some(v) =>
      if c in prev.scores then Tally(prev.order, prev.scores[c := prev.scores[c] + v])
      else
        var t := Tally(prev.order + [c], prev.scores[c := v]);
        assert forall i :: 0 <= i < |prev.order| ==> t.order[i] == prev.order[i];
        t
  }

  /** What one iteration does to the entry of a given id `x`. */
  lemma TallyStepAt(o: Oracle, selected: seq<PlantId>, prev: Tally, c: PlantId, x: PlantId)
    requires WellFormedTally(prev)
    ensures var t := TallyStep(o, selected, prev, c);
            var hit := x == c && Contribution(o, selected, c).Some?;
            (x in t.scores <==> x in prev.scores || hit)
            && (x in t.scores ==>
                  t.scores[x] == (if x in prev.scores then prev.scores[x] else 0)
                                 + (if hit then Contribution(o, selected, c).value else 0))
  {
  }

  /** The ranking loop over a sequence of discoveries. */
  function TallyOf(o: Oracle, selected: seq<PlantId>, discs: seq<PlantId>): (t: Tally)
    ensures WellFormedTally(t)
  {
    if |discs| == 0 then Tally([], map[])
    else TallyStep(o, selected, TallyOf(o, selected, discs[..|discs| - 1]), discs[|discs| - 1])
  }

  /** Closed form of the loop: an id has an entry exactly when it was
      discovered and qualifies, and its accumulated score is the per-discovery
      contribution times the number of discoveries. */
  lemma {:induction false} TallyClosedForm(o: Oracle, selected: seq<PlantId>, discs: seq<PlantId>, x: PlantId)
    ensures var t := TallyOf(o, selected, discs);
            (x in t.scores <==> Count(discs, x) > 0 && Contribution(o, selected, x).Some?)
            && (x in t.scores ==> t.scores[x] == Times(Count(discs, x), Contribution(o, selected, x).value))
  {
    if |discs| > 0 {
      var pre := discs[..|discs| - 1];
      var last := discs[|discs| - 1];
      var prev := TallyOf(o, selected, pre);
      TallyClosedForm(o, selected, pre, x);
      TallyStepAt(o, selected, prev, last, x);
    }
  }

  /** The loop adds at most one entry per discovery. */
  lemma {:induction false} TallyOrderBound(o: Oracle, selected: seq<PlantId>, discs: seq<PlantId>)
    ensures |TallyOf(o, selected, discs).order| <= |discs|
  {
    if |discs| > 0 {
      TallyOrderBound(o, selected, discs[..|discs| - 1]);
    }
  }

  /** `n * v` as repeated addition. */
  function Times(n: nat, v: int): int {
    if n == 0 then 0 else Times(n - 1, v) + v
  }

  /** The candidates of a tally, in insertion order. */
  function TallyEntries(t: Tally): (r: seq<CandidateScore>)
    requires forall c :: c in t.order ==> c in t.scores
    ensures |r| == |t.order|
    ensures forall i :: 0 <= i < |r| ==> r[i] == CandidateScore(t.order[i], t.scores[t.order[i]])
  {
    seq(|t.order|, i requires 0 <= i < |t.order| => CandidateScore(t.order[i], t.scores[t.order[i]]))
  }

  /** Ranking order: higher score first, then smaller id. */
  function CandidateKey(c: CandidateScore): SortKey {
    SortKey(-c.score, 0, c.plantId.value)
  }

  /** The tally of all discoveries, in insertion order, before sorting. */
  function RankingEntries(o: Oracle, selected: seq<PlantId>): (r: seq<CandidateScore>)
    ensures forall i, j :: 0 <= i < j < |r| ==> r[i].plantId != r[j].plantId
  {
    var t := TallyOf(o, selected, Discoveries(o, selected));
    TallyEntries(t)
  }

  /** A ranked entry is a qualifying discovered candidate whose score is its
      per-discovery contribution times its number of discoveries. */
  predicate RankedEntry(o: Oracle, selected: seq<PlantId>, e: CandidateScore) {
    var c := Contribution(o, selected, e.plantId);
    var discs := Discoveries(o, selected);
    c.Some? && e.plantId in discs && e.score == Times(Count(discs, e.plantId), c.value)
  }

  /** Every tallied entry is a ranked entry. */
  lemma RankingEntriesSound(o: Oracle, selected: seq<PlantId>)
    ensures var es := RankingEntries(o, selected);
            forall i :: 0 <= i < |es| ==> RankedEntry(o, selected, es[i])
  {
    var discs := Discoveries(o, selected);
    var t := TallyOf(o, selected, discs);
    var es := RankingEntries(o, selected);
    forall i | 0 <= i < |es|
      ensures RankedEntry(o, selected, es[i])
    {
      TallyClosedForm(o, selected, discs, t.order[i]);
      CountMember(discs, t.order[i]);
    }
  }

  /** Every qualifying discovered candidate has a tallied entry. */
  lemma RankingEntriesComplete(o: Oracle, selected: seq<PlantId>, c: PlantId)
    requires c in Discoveries(o, selected) && Contribution(o, selected, c).Some?
    ensures var es := RankingEntries(o, selected);
            exists i :: 0 <= i < |es| && es[i].plantId == c
  {
    var discs := Discoveries(o, selected);
    var t := TallyOf(o, selected, discs);
    var es := RankingEntries(o, selected);
    TallyClosedForm(o, selected, discs, c);
    CountMember(discs, c);
    var k :| 0 <= k < |t.order| && t.order[k] == c;
    assert es[k].plantId == c;
  }

  /** `rankCompanionCandidates`: every qualifying candidate once, with its
      accumulated score, best first. */
  function RankCompanionCandidates(o: Oracle, selected: seq<PlantId>): (r: seq<CandidateScore>)
    ensures SortedBy(r, CandidateKey)
    ensures multiset(r) == multiset(RankingEntries(o, selected))
    ensures forall i, j :: 0 <= i < j < |r| ==> r[i].plantId != r[j].plantId
  {
    var es := RankingEntries(o, selected);
    var r := SortByKey(es, CandidateKey);
    PermutationKeepsDistinctKeys(es, r, (e: CandidateScore) => e.plantId);
    r
  }

  /** There are never more ranked candidates than discoveries. */
  lemma RankedAtMostDiscoveries(o: Oracle, selected: seq<PlantId>)
    ensures |RankCompanionCandidates(o, selected)| <= |Discoveries(o, selected)|
  {
    TallyOrderBound(o, selected, Discoveries(o, selected));
  }

  /** The ranked list holds only ranked entries: qualifying discovered
      candidates with their accumulated score. */
  lemma RankedSound(o: Oracle, selected: seq<PlantId>)
    ensures var r := RankCompanionCandidates(o, selected);
            forall i :: 0 <= i < |r| ==> RankedEntry(o, selected, r[i])
  {
    RankingEntriesSound(o, selected);
    PermutationAll(RankingEntries(o, selected), RankCompanionCandidates(o, selected),
                   (e: CandidateScore) => RankedEntry(o, selected, e));
  }

  /** The ranked list misses no qualifying discovered candidate. */
  lemma RankedComplete(o: Oracle, selected: seq<PlantId>, c: PlantId)
    requires c in Discoveries(o, selected) && Contribution(o, selected, c).Some?
    ensures var r := RankCompanionCandidates(o, selected);
            exists i :: 0 <= i < |r| && r[i].plantId == c
  {
    var es := RankingEntries(o, selected);
    RankingEntriesComplete(o, selected, c);
    var k :| 0 <= k < |es| && es[k].plantId == c;
    PermutationHas(es, RankCompanionCandidates(o, selected), k);
  }

  /** When a single discovered candidate qualifies, the ranking holds it
      and nothing else. */
  lemma RankedSingleQualifier(o: Oracle, selected: seq<PlantId>, c: PlantId)
    requires c in Discoveries(o, selected) && Contribution(o, selected, c).Some?
    requires forall x :: x in Discoveries(o, selected) && Contribution(o, selected, x).Some? ==> x == c
    ensures var r := RankCompanionCandidates(o, selected);
            |r| > 0 && forall i :: 0 <= i < |r| ==> r[i].plantId == c
  {
    RankedComplete(o, selected, c);
    RankedSound(o, selected);
  }

  // ---------------------------------------------------------------------
  // the working list

  /** Every selected plant, seeded with quantity 1 and the seed score. */
  function Seed(selected: seq<PlantId>): (w: seq<WorkingAllocation>)
    ensures |w| == |selected|
    ensures forall i :: 0 <= i < |w| ==> w[i] == WorkingAllocation(selected[i], Selected, 1, SeedScore)
  {
    seq(|selected|, i requires 0 <= i < |selected| => WorkingAllocation(selected[i], Selected, 1, SeedScore))
  }

  /** How many ranked candidates become companions. */
  function CompanionLimit(capacity: int, selectedCount: int): int {
    Min(capacity - selectedCount, 2 * selectedCount)
  }

  /** The first `limit` ranked candidates, each as a companion of quantity 1
      keeping its ranking score. */
  function Companions(ranked: seq<CandidateScore>, limit: nat): (w: seq<WorkingAllocation>)
    ensures |w| == Min(limit, |ranked|)
    ensures forall i :: 0 <= i < |w| ==> w[i] == WorkingAllocation(ranked[i].plantId, Companion, 1, ranked[i].score)
  {
    var k := Min(limit, |ranked|);
    seq(k, i requires 0 <= i < k => WorkingAllocation(ranked[i].plantId, Companion, 1, ranked[i].score))
  }

  /** The working list in insertion order, before any extra slot is given. */
  function InitialWorking(o: Oracle, selected: seq<PlantId>, capacity: int): seq<WorkingAllocation>
    requires |selected| <= capacity
  {
    Seed(selected) + Companions(RankCompanionCandidates(o, selected), CompanionLimit(capacity, |selected|))
  }

  function Ids(w: seq<WorkingAllocation>): (r: seq<PlantId>)
    ensures |r| == |w| && forall i :: 0 <= i < |w| ==> r[i] == w[i].plantId
  {
    seq(|w|, i requires 0 <= i < |w| => w[i].plantId)
  }

  /** The seeded working list: the selected plants first, then at most
      `CompanionLimit` ranked companions, never more entries than capacity. */
  lemma InitialWorkingLength(o: Oracle, selected: seq<PlantId>, capacity: int)
    requires |selected| <= capacity
    ensures var w := InitialWorking(o, selected, capacity);
            |w| == |selected| + Min(CompanionLimit(capacity, |selected|), |RankCompanionCandidates(o, selected)|)
            && |w| <= capacity
            && (forall i :: 0 <= i < |selected| ==> w[i] == WorkingAllocation(selected[i], Selected, 1, SeedScore))
            && (forall i :: |selected| <= i < |w| ==> w[i].source == Companion && w[i].quantity == 1)
  {
  }

  /** Every companion of the seeded list is a qualifying discovered
      candidate. */
  lemma InitialWorkingCompanions(o: Oracle, selected: seq<PlantId>, capacity: int)
    requires |selected| <= capacity
    ensures var w := InitialWorking(o, selected, capacity);
            forall i :: |selected| <= i < |w| ==>
              Contribution(o, selected, w[i].plantId).Some? && w[i].plantId in Discoveries(o, selected)
  {
    var ranked := RankCompanionCandidates(o, selected);
    var w := InitialWorking(o, selected, capacity);
    RankedSound(o, selected);
    InitialWorkingTail(o, selected, capacity);
    forall i | |selected| <= i < |w|
      ensures Contribution(o, selected, w[i].plantId).Some? && w[i].plantId in Discoveries(o, selected)
    {
      assert RankedEntry(o, selected, ranked[i - |selected|]);
    }
  }

  /** The entries after the selected plants are the ranked candidates, in
      ranking order. */
  lemma InitialWorkingTail(o: Oracle, selected: seq<PlantId>, capacity: int)
    requires |selected| <= capacity
    ensures var w := InitialWorking(o, selected, capacity);
            var ranked := RankCompanionCandidates(o, selected);
            |w| - |selected| <= |ranked|
            && forall i :: |selected| <= i < |w| ==> w[i].plantId == ranked[i - |selected|].plantId
  {
    var ranked := RankCompanionCandidates(o, selected);
    var comps := Companions(ranked, CompanionLimit(capacity, |selected|));
    var w: seq<WorkingAllocation> := Seed(selected) + comps;
    assert InitialWorking(o, selected, capacity) == w;
    forall i | |selected| <= i < |w|
      ensures w[i].plantId == ranked[i - |selected|].plantId
    {
      assert w[i] == comps[i - |selected|];
    }
  }

  /** No id occurs twice in the seeded list: companions are never selected
      plants and the ranking has each candidate once. */
  lemma InitialWorkingDistinct(o: Oracle, selected: seq<PlantId>, capacity: int)
    requires NoDup(selected) && |selected| <= capacity
    ensures var w := InitialWorking(o, selected, capacity);
            forall i, j :: 0 <= i < j < |w| ==> w[i].plantId != w[j].plantId
  {
    var ranked := RankCompanionCandidates(o, selected);
    var w := InitialWorking(o, selected, capacity);
    var n := |selected|;
    InitialWorkingCompanions(o, selected, capacity);
    forall i, j | 0 <= i < j < |w|
      ensures w[i].plantId != w[j].plantId
    {
      if j < n {
      } else if i < n {
        assert w[i].plantId in selected;
      } else {
        assert w[i].plantId == ranked[i - n].plantId;
      }
    }
  }

  // ---------------------------------------------------------------------
  // pickBestPlantForExtraSlot and the fill loop

  /** The positive compatibilities of `c` with the ids of the list other
      than itself. */
  function PositiveCompat(o: Oracle, c: PlantId, others: seq<PlantId>): int {
    if |others| == 0 then 0
    else
      var x := others[|others| - 1];
      PositiveCompat(o, c, others[..|others| - 1])
      + (if x != c && o.score(c, x) > 0 then o.score(c, x) else 0)
  }

  /** The score an entry bids for an extra slot: its own score, the selected
      bonus, and its positive compatibilities with the rest of the list.
      Quantities play no part. */
  function FillScore(o: Oracle, w: seq<WorkingAllocation>, a: WorkingAllocation): int {
    a.score + (if a.source == Selected then SelectedBonus else 0) + PositiveCompat(o, a.plantId, Ids(w))
  }

  function FillBids(o: Oracle, w: seq<WorkingAllocation>): (r: seq<Bid>)
    ensures |r| == |w|
    ensures forall i :: 0 <= i < |w| ==> r[i] == Bid(FillScore(o, w, w[i]), w[i].plantId.value, true)
  {
    seq(|w|, i requires 0 <= i < |w| => Bid(FillScore(o, w, w[i]), w[i].plantId.value, true))
  }

  /** `pickBestPlantForExtraSlot`: the index of the winning entry; only an
      empty list has none (the source throws there). */
  function ExtraSlotTarget(o: Oracle, w: seq<WorkingAllocation>): (r: Option<nat>)
    ensures r.None? <==> |w| == 0
    ensures r.Some? ==> r.value < |w|
  {
    var bids := FillBids(o, w);
    var r := PickBest(bids);
    if |w| > 0 then
      assert bids[0].eligible;
      r
    else r
  }

  /** The extra-slot target has the highest fill score, and among equal
      scores the smallest id. */
  lemma ExtraSlotTargetIsBest(o: Oracle, w: seq<WorkingAllocation>)
    requires |w| > 0
    ensures var t := ExtraSlotTarget(o, w).value;
            forall i :: 0 <= i < |w| ==>
              FillScore(o, w, w[i]) < FillScore(o, w, w[t])
              || (FillScore(o, w, w[i]) == FillScore(o, w, w[t]) && !Less(w[i].plantId.value, w[t].plantId.value))
  {
    var t := ExtraSlotTarget(o, w).value;
    var bids := FillBids(o, w);
    forall i | 0 <= i < |w|
      ensures FillScore(o, w, w[i]) < FillScore(o, w, w[t])
              || (FillScore(o, w, w[i]) == FillScore(o, w, w[t]) && !Less(w[i].plantId.value, w[t].plantId.value))
    {
      assert bids[i].eligible && !Outbids(bids[i], bids[t]);
    }
  }

  /** The extra-slot target of a non-empty list. */
  function Target(o: Oracle, w: seq<WorkingAllocation>): (t: nat)
    requires |w| > 0
    ensures t < |w|
  {
    ExtraSlotTarget(o, w).value
  }

  /** The entry at `t` with its quantity set to `q`. */
  function WithQuantity(w: seq<WorkingAllocation>, t: nat, q: int): (r: seq<WorkingAllocation>)
    requires t < |w|
    ensures |r| == |w|
  {
    w[t := w[t].(quantity := q)]
  }

  /** Changing a quantity leaves every fill bid, hence the extra-slot target,
      as it was. */
  lemma TargetIgnoresQuantity(o: Oracle, w: seq<WorkingAllocation>, t: nat, q: int)
    requires t < |w|
    ensures ExtraSlotTarget(o, WithQuantity(w, t, q)) == ExtraSlotTarget(o, w)
  {
    var v := WithQuantity(w, t, q);
    assert Ids(v) == Ids(w);
    assert FillBids(o, v) == FillBids(o, w);
  }

  lemma SetTwice(w: seq<WorkingAllocation>, t: nat, p: int, q: int)
    requires t < |w|
    ensures var v := WithQuantity(w, t, p);
            v[t := v[t].(quantity := q)] == WithQuantity(w, t, q)
  {
  }

  /** What the fill loop computes: every remaining slot goes to the target of
      the list it starts from. */
  function FillClosed(o: Oracle, w: seq<WorkingAllocation>, remainingSlots: int): (r: seq<WorkingAllocation>)
    requires |w| > 0
    ensures |r| == |w|
  {
    var t := Target(o, w);
    WithQuantity(w, t, w[t].quantity + Max(remainingSlots, 0))
  }

  /** The `while (remainingSlots > 0)` loop of `optimize`: each iteration asks
      for the current extra-slot target and gives it one more plant. Since fill
      scores ignore quantities the target never changes, so the loop ends with
      all slots on the first target. */
  method FillExtraSlots(o: Oracle, w: seq<WorkingAllocation>, remainingSlots: int) returns (r: seq<WorkingAllocation>)
    requires |w| > 0
    ensures r == FillClosed(o, w, remainingSlots)
  {
    var t := Target(o, w);
    r := w;
    var remaining := remainingSlots;
    ghost var given := 0;
    assert WithQuantity(w, t, w[t].quantity) == w;
    while remaining > 0
      invariant 0 <= given && given + Max(remaining, 0) == Max(remainingSlots, 0)
      invariant r == WithQuantity(w, t, w[t].quantity + given)
      invariant Target(o, r) == t
    {
      var target := Target(o, r);
      FillStep(o, w, t, w[t].quantity + given);
      r := r[target := r[target].(quantity := r[target].quantity + 1)];
      remaining := remaining - 1;
      given := given + 1;
    }
  }

  /** One pass of the fill loop: the target gains a plant and stays the
      target. */
  lemma FillStep(o: Oracle, w: seq<WorkingAllocation>, t: nat, q: int)
    requires t < |w| && Target(o, w) == t
    ensures var v := WithQuantity(w, t, q);
            v[t := v[t].(quantity := v[t].quantity + 1)] == WithQuantity(w, t, q + 1)
            && Target(o, WithQuantity(w, t, q + 1)) == t
  {
    SetTwice(w, t, q, q + 1);
    TargetIgnoresQuantity(o, w, t, q + 1);
  }

  // ---------------------------------------------------------------------
  // final ordering and optimize

  function ToAllocation(a: WorkingAllocation): PlantAllocation {
    PlantAllocation(a.plantId, a.quantity, a.source)
  }

  function ToAllocations(w: seq<WorkingAllocation>): (r: seq<PlantAllocation>)
    ensures |r| == |w|
    ensures forall i :: 0 <= i < |w| ==> r[i] == ToAllocation(w[i])
  {
    seq(|w|, i requires 0 <= i < |w| => ToAllocation(w[i]))
  }

  function WorkingQuantity(a: WorkingAllocation): int {
    a.quantity
  }

  /** Projecting the working list keeps the total quantity. */
  lemma {:induction false} ToAllocationsQuantity(w: seq<WorkingAllocation>)
    ensures Sum(ToAllocations(w), Quantity) == Sum(w, WorkingQuantity)
  {
    if |w| > 0 {
      ToAllocationsQuantity(w[..|w| - 1]);
      assert ToAllocations(w)[..|w| - 1] == ToAllocations(w[..|w| - 1]);
    }
  }

  /** Output order: selected plants first, then larger quantities, then
      smaller ids. */
  function AllocationOrder(a: PlantAllocation): SortKey {
    SortKey(if a.source == Selected then 0 else 1, -a.quantity, a.plantId.value)
  }

  /** The final sort and projection of the working list. */
  function Finalize(w: seq<WorkingAllocation>): (r: seq<PlantAllocation>)
    ensures SortedBy(r, AllocationOrder)
    ensures multiset(r) == multiset(ToAllocations(w))
    ensures |r| == |w|
  {
    SortByKey(ToAllocations(w), AllocationOrder)
  }

  /** The working list after the fill loop, for a selection that passed every
      check. */
  function Filled(o: Oracle, selected: seq<PlantId>, capacity: int): seq<WorkingAllocation>
    requires 1 <= |selected| <= capacity
  {
    var w := InitialWorking(o, selected, capacity);
    FillClosed(o, w, capacity - |w|)
  }

  /** `optimize`: the selection is deduplicated and checked (non-empty, within
      capacity, no forbidden pair, in that order), then allocated. */
  function Optimize(o: Oracle, selectedPlants: seq<PlantId>, area: GardenArea): (r: Result<seq<PlantAllocation>>)
    ensures |selectedPlants| == 0 <==> r == Err(InvalidPlantSelection)
    ensures |selectedPlants| > 0 && |Deduplicate(selectedPlants)| > PlantCapacity(area)
            <==> r == Err(GardenCapacityExceeded)
    ensures r == Err(IncompatibleSelectedPlants)
            <==> |selectedPlants| > 0 && |Deduplicate(selectedPlants)| <= PlantCapacity(area)
                 && exists i, j :: 0 <= i < j < |Deduplicate(selectedPlants)|
                                   && o.forbidden(Deduplicate(selectedPlants)[i], Deduplicate(selectedPlants)[j])
    ensures r.Err? ==> r.error in {InvalidPlantSelection, GardenCapacityExceeded, IncompatibleSelectedPlants}
    ensures r.Ok? ==> SortedBy(r.value, AllocationOrder)
  {
    var selected := Deduplicate(selectedPlants);
    if |selected| < 1 then Err(InvalidPlantSelection)
    else
      var capacity := PlantCapacity(area);
      if |selected| > capacity then Err(GardenCapacityExceeded)
      else if EnsureNoForbiddenPairs(o, selected).Fail? then Err(IncompatibleSelectedPlants)
      else Ok(Finalize(Filled(o, selected, capacity)))
  }
}
