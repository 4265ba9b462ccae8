/** `GreedyPlantingStrategy.planLinearLayout`: crops are laid out in a row,
    in rounds. The first round starts with the first crop; every round goes
    through the crop list once more, each time taking, after the last
    placed crop, the first remaining crop that is beneficial to it, else the
    first it can associate with, else the first remaining one. Rounds repeat
    until the row holds `totalSlots` crops. */
module LinearStrategy {
  import opened Seqs
  import opened Crops
  import opened Numbers

  datatype CompanionState = Beneficial | Neutral | Incompatible

  datatype NeighborState = NeighborState(leftIndex: nat, rightIndex: nat, state: CompanionState)

  datatype LayoutResult = LayoutResult(cropsInOrder: seq<Crop>, neighborStates: seq<NeighborState>, unplacedCrops: seq<Crop>)

  /** `isBeneficial`: a helps relation in either direction, asked of the
      strategy's registry. */
  predicate IsBeneficial(left: Crop, right: Crop, reg: Registry) {
    Crops.IsHelpful(reg, left.name.name, right.name.name) || Crops.IsHelpful(reg, right.name.name, left.name.name)
  }

  /** `classifyPair`: incompatible when the left crop cannot take the right
      one (by its own registry), else beneficial or neutral. */
  function ClassifyPair(left: Crop, right: Crop, reg: Registry): (r: CompanionState)
    ensures r == Incompatible <==> left.name.name == right.name.name || Crops.IsForbidden(left.registry, left.name.name, right.name.name)
    ensures r == Beneficial <==> CanAssociateWith(left, right) && IsBeneficial(left, right, reg)
    ensures r == Neutral <==> CanAssociateWith(left, right) && !IsBeneficial(left, right, reg)
  {
    if !CanAssociateWith(left, right) then Incompatible
    else if IsBeneficial(left, right, reg) then Beneficial
    else Neutral
  }

  /** `computeNeighborStates`: one state per pair of consecutive crops. */
  function NeighborStates(crops: seq<Crop>, reg: Registry): (r: seq<NeighborState>)
    ensures |r| == if |crops| == 0 then 0 else |crops| - 1
    ensures forall i :: 0 <= i < |r| ==>
              r[i].leftIndex == i && r[i].rightIndex == i + 1 && r[i].state == ClassifyPair(crops[i], crops[i + 1], reg)
  {
    if |crops| <= 1 then []
    else seq(|crops| - 1, i requires 0 <= i < |crops| - 1 => NeighborState(i, i + 1, ClassifyPair(crops[i], crops[i + 1], reg)))
  }

  /** No neighbour pair is incompatible exactly when every crop can take
      its right-hand neighbour. */
  lemma NoIncompatibleNeighbors(crops: seq<Crop>, reg: Registry)
    ensures (forall k :: 0 <= k < |NeighborStates(crops, reg)| ==> NeighborStates(crops, reg)[k].state != Incompatible)
            <==> forall i :: 0 <= i < |crops| - 1 ==> CanAssociateWith(crops[i], crops[i + 1])
  {
    var states := NeighborStates(crops, reg);
    if forall k :: 0 <= k < |states| ==> states[k].state != Incompatible {
      forall i | 0 <= i < |crops| - 1 ensures CanAssociateWith(crops[i], crops[i + 1]) {
        assert states[i].state != Incompatible;
      }
    }
  }

  // ---------------------------------------------------------------------
  // Choosing the next crop

  /** The two relations the layout loop consults: whether the last placed
      crop can take a candidate, and whether the pair is beneficial. The loop
      is written over any crop type so that its proofs see only these. */
  datatype Relations<!T> = Relations(canAssociate: (T, T) -> bool, beneficial: (T, T) -> bool)

  /** The relations of `planLinearLayout`: the last crop's own
      `canAssociateWith` and the strategy registry's `isBeneficial`. */
  function Rules(reg: Registry): (r: Relations<Crop>)
    ensures forall a, b :: r.canAssociate(a, b) == CanAssociateWith(a, b)
    ensures forall a, b :: r.beneficial(a, b) == IsBeneficial(a, b, reg)
  {
    Relations((a, b) => CanAssociateWith(a, b), (a, b) => IsBeneficial(a, b, reg))
  }

  predicate Good<T>(rel: Relations<T>, last: T, candidate: T) {
    rel.canAssociate(last, candidate) && rel.beneficial(last, candidate)
  }

  /** The crop taken after `last`: the first beneficial one, else the first
      compatible one, else the first one. */
  function Choose<T>(rel: Relations<T>, last: T, remaining: seq<T>): (k: nat)
    requires |remaining| > 0
    ensures k < |remaining|
  {
    var b := FirstWhere(remaining, c => Good(rel, last, c));
    if b < |remaining| then b
    else
      var n := FirstWhere(remaining, c => rel.canAssociate(last, c));
      if n < |remaining| then n else 0
  }

  /** The choice in terms of the three preferences. */
  lemma ChooseSpec<T>(rel: Relations<T>, last: T, remaining: seq<T>)
    requires |remaining| > 0
    ensures var k := Choose(rel, last, remaining);
            ((exists i :: 0 <= i < |remaining| && Good(rel, last, remaining[i])) ==>
               Good(rel, last, remaining[k]) && forall i :: 0 <= i < k ==> !Good(rel, last, remaining[i]))
            && ((forall i :: 0 <= i < |remaining| ==> !Good(rel, last, remaining[i]))
                && (exists i :: 0 <= i < |remaining| && rel.canAssociate(last, remaining[i])) ==>
                  rel.canAssociate(last, remaining[k]) && forall i :: 0 <= i < k ==> !rel.canAssociate(last, remaining[i]))
            && ((forall i :: 0 <= i < |remaining| ==> !rel.canAssociate(last, remaining[i])) ==> k == 0)
  {
    var g := c => Good(rel, last, c);
    var a := c => rel.canAssociate(last, c);
    var b := FirstWhere(remaining, g);
    var n := FirstWhere(remaining, a);
    if exists i :: 0 <= i < |remaining| && Good(rel, last, remaining[i]) {
      var i :| 0 <= i < |remaining| && Good(rel, last, remaining[i]);
      assert g(remaining[i]);
      assert b < |remaining|;
    } else if exists i :: 0 <= i < |remaining| && rel.canAssociate(last, remaining[i]) {
      var i :| 0 <= i < |remaining| && rel.canAssociate(last, remaining[i]);
      assert a(remaining[i]);
      assert n < |remaining|;
    }
  }

  /** The scan of the inner loop: `bestBeneficialIndex`, `bestNeutralIndex`
      and `fallbackIndex` over the remaining crops, stopping at the first
      beneficial one. */
  method PickNext<T>(rel: Relations<T>, last: T, remaining: seq<T>) returns (next: nat)
    requires |remaining| > 0
    ensures next == Choose(rel, last, remaining)
  {
    var g := c => Good(rel, last, c);
    var a := c => rel.canAssociate(last, c);
    var bestBeneficial := -1;
    var bestNeutral := -1;
    var fallback := -1;
    var index := 0;
    while index < |remaining|
      invariant 0 <= index <= |remaining|
      invariant bestBeneficial == -1
      invariant forall i :: 0 <= i < index ==> !g(remaining[i])
      invariant bestNeutral == -1 ==> forall i :: 0 <= i < index ==> !a(remaining[i])
      invariant bestNeutral != -1 ==> 0 <= bestNeutral < index && a(remaining[bestNeutral])
                                      && forall i :: 0 <= i < bestNeutral ==> !a(remaining[i])
      invariant fallback == -1 ==> forall i :: 0 <= i < index ==> a(remaining[i])
      invariant fallback != -1 ==> 0 <= fallback < index && !a(remaining[fallback])
                                   && forall i :: 0 <= i < fallback ==> a(remaining[i])
    {
      var candidate := remaining[index];
      if !rel.canAssociate(last, candidate) {
        if fallback == -1 {
          fallback := index;
        }
      } else if rel.beneficial(last, candidate) {
        bestBeneficial := index;
        break;
      } else if bestNeutral == -1 {
        bestNeutral := index;
      }
      index := index + 1;
    }
    var b := FirstWhere(remaining, g);
    var n := FirstWhere(remaining, a);
    if bestBeneficial != -1 {
      assert b == bestBeneficial;
      next := bestBeneficial;
    } else if bestNeutral != -1 {
      assert b == |remaining|;
      assert n == bestNeutral;
      next := bestNeutral;
    } else {
      assert b == |remaining| && n == |remaining|;
      next := fallback;
    }
  }

  // ---------------------------------------------------------------------
  // Rounds and the whole layout

  /** One pass of the inner loop: up to `budget` crops taken from
      `remaining`, each chosen after the previous one. */
  function Round<T(==)>(rel: Relations<T>, last: T, remaining: seq<T>, budget: nat): (r: seq<T>)
    ensures |r| == if budget < |remaining| then budget else |remaining|
    ensures forall x :: x in r ==> x in remaining
    ensures multiset(r) <= multiset(remaining)
    ensures budget >= |remaining| ==> multiset(r) == multiset(remaining)
    decreases |remaining|
  {
    if budget == 0 || |remaining| == 0 then []
    else
      var k := Choose(rel, last, remaining);
      var next := remaining[k];
      var rest := RemoveAt(remaining, k);
      var tail := Round(rel, next, rest, budget - 1);
      assert forall x :: x in rest ==> x in multiset(remaining);
      [next] + tail
  }

  /** The outer loop after the first round: further rounds over the whole
      crop list, each starting after the last placed crop. */
  function Fill<T(==)>(rel: Relations<T>, crops: seq<T>, placed: seq<T>, total: nat): (r: seq<T>)
    requires |crops| > 0 && 0 < |placed| <= total
    ensures |r| == total
    ensures r[..|placed|] == placed
    ensures forall i :: |placed| <= i < total ==> r[i] in crops
    decreases total - |placed|
  {
    if |placed| == total then placed
    else
      var round := Round(rel, placed[|placed| - 1], crops, total - |placed|);
      var next := placed + round;
      var r := Fill(rel, crops, next, total);
      PrefixStep(placed, round, r, crops);
      r
  }

  lemma PrefixStep<T>(placed: seq<T>, round: seq<T>, r: seq<T>, crops: seq<T>)
    requires |placed| + |round| <= |r|
    requires r[..|placed| + |round|] == placed + round
    requires forall x :: x in round ==> x in crops
    requires forall i :: |placed| + |round| <= i < |r| ==> r[i] in crops
    ensures r[..|placed|] == placed
    ensures forall i :: |placed| <= i < |r| ==> r[i] in crops
  {
    assert r[..|placed|] == (placed + round)[..|placed|];
    forall i | |placed| <= i < |placed| + |round| ensures r[i] in crops {
      assert r[i] == (placed + round)[i] == round[i - |placed|];
    }
  }

  /** The first round: the first crop, then the others greedily. */
  function FirstRound<T(==)>(rel: Relations<T>, crops: seq<T>, totalSlots: nat): (r: seq<T>)
    requires |crops| > 0 && totalSlots > 0
    ensures |r| == if totalSlots < |crops| then totalSlots else |crops|
    ensures r[0] == crops[0]
    ensures forall i :: 0 <= i < |r| ==> r[i] in crops
    ensures totalSlots >= |crops| ==> multiset(r) == multiset(crops)
  {
    var rest := Round(rel, crops[0], crops[1..], totalSlots - 1);
    assert crops == [crops[0]] + crops[1..];
    assert forall x :: x in rest ==> x in crops[1..];
    [crops[0]] + rest
  }

  /** The row of crops: `totalSlots` of them, starting with the first crop,
      drawn from the list, the first `|crops|` a permutation of it. */
  function Layout<T(==)>(rel: Relations<T>, crops: seq<T>, totalSlots: nat): (r: seq<T>)
    requires |crops| > 0 && totalSlots > 0
    ensures |r| == totalSlots && r[0] == crops[0]
    ensures forall i :: 0 <= i < totalSlots ==> r[i] in crops
    ensures totalSlots >= |crops| ==> multiset(r[..|crops|]) == multiset(crops)
  {
    var first := FirstRound(rel, crops, totalSlots);
    var placed := Fill(rel, crops, first, totalSlots);
    PrefixKept(first, placed, crops);
    placed
  }

  lemma PrefixKept<T>(first: seq<T>, placed: seq<T>, crops: seq<T>)
    requires 0 < |first| <= |placed| && placed[..|first|] == first
    requires forall i :: 0 <= i < |first| ==> first[i] in crops
    requires forall i :: |first| <= i < |placed| ==> placed[i] in crops
    ensures placed[0] == first[0]
    ensures forall i :: 0 <= i < |placed| ==> placed[i] in crops
    ensures |first| == |crops| && multiset(first) == multiset(crops) ==> multiset(placed[..|crops|]) == multiset(crops)
  {
    forall i | 0 <= i < |first| ensures placed[i] in crops {
      assert placed[i] == placed[..|first|][i];
    }
    assert placed[0] == placed[..|first|][0];
  }

  /** `planLinearLayout`. */
  function PlanLinearLayout(crops: seq<Crop>, reg: Registry, totalSlots: int): (r: LayoutResult)
    ensures |crops| == 0 || totalSlots <= 0 ==> r == LayoutResult([], [], [])
    ensures r.unplacedCrops == []
    ensures r.neighborStates == NeighborStates(r.cropsInOrder, reg)
    ensures |crops| > 0 && totalSlots > 0 ==>
              |r.cropsInOrder| == totalSlots && r.cropsInOrder[0] == crops[0]
              && (forall i :: 0 <= i < totalSlots ==> r.cropsInOrder[i] in crops)
              && (totalSlots >= |crops| ==> multiset(r.cropsInOrder[..|crops|]) == multiset(crops))
  {
    if |crops| == 0 || totalSlots <= 0 then LayoutResult([], [], [])
    else
      var placed := Layout(Rules(reg), crops, totalSlots);
      LayoutResult(placed, NeighborStates(placed, reg), [])
  }

  /** The outcome of a call that may never return. */
  datatype Run<T> = Returns(value: T) | Diverges

  /** The least whole number at or above `x`: the length at which the
      test `placed.length < x` first fails. */
  function Ceil(x: real): (n: int)
    ensures n as real >= x && (n - 1) as real < x
  {
    if x.Floor as real == x then x.Floor else x.Floor + 1
  }

  /** `planLinearLayout` for a JavaScript number of slots. A NaN count
      passes the guard but fails every `placed.length < totalSlots` test, so
      nothing is placed; a fractional count fills the least whole number of
      slots above it; an infinite one never lets the loop stop. */
  function PlanLinearLayoutNumber(crops: seq<Crop>, reg: Registry, totalSlots: Number): (r: Run<LayoutResult>)
    ensures r.Diverges? <==> |crops| > 0 && totalSlots.PositiveInfinity?
    ensures |crops| == 0 || totalSlots.NaN? || Le(totalSlots, Zero) ==> r == Returns(LayoutResult([], [], []))
    ensures |crops| > 0 && totalSlots.Finite? && totalSlots.x > 0.0 ==>
              r.Returns? && r.value == PlanLinearLayout(crops, reg, |r.value.cropsInOrder|)
              && |r.value.cropsInOrder| as real >= totalSlots.x
              && (|r.value.cropsInOrder| - 1) as real < totalSlots.x
  {
    if |crops| == 0 || Le(totalSlots, Zero) || totalSlots.NaN? then Returns(LayoutResult([], [], []))
    else if totalSlots.PositiveInfinity? then Diverges
    else Returns(PlanLinearLayout(crops, reg, Ceil(totalSlots.x)))
  }

  /** Two and a half slots hold three crops. */
  lemma FractionalSlots(crops: seq<Crop>, reg: Registry)
    requires |crops| > 0
    ensures var r := PlanLinearLayoutNumber(crops, reg, Finite(2.5));
            r.Returns? && |r.value.cropsInOrder| == 3
  {
  }

  /** The row once the current round has run to its end. */
  function Extend<T(==)>(rel: Relations<T>, out: seq<T>, rest: seq<T>, totalSlots: nat): seq<T>
    requires 0 < |out| <= totalSlots
  {
    out + Round(rel, out[|out| - 1], rest, totalSlots - |out|)
  }

  /** One step of a round: the chosen crop, then the rest of the round from
      it. */
  lemma RoundStep<T>(rel: Relations<T>, last: T, rest: seq<T>, budget: nat, k: nat)
    requires budget > 0 && |rest| > 0 && k == Choose(rel, last, rest)
    ensures Round(rel, last, rest, budget) == [rest[k]] + Round(rel, rest[k], RemoveAt(rest, k), budget - 1)
  {
  }

  /** Moving the chosen crop to the row does not change where the round
      ends. */
  lemma ExtendStep<T>(rel: Relations<T>, out: seq<T>, rest: seq<T>, totalSlots: nat, k: nat)
    requires 0 < |out| < totalSlots && |rest| > 0 && k == Choose(rel, out[|out| - 1], rest)
    ensures Extend(rel, out + [rest[k]], RemoveAt(rest, k), totalSlots) == Extend(rel, out, rest, totalSlots)
  {
    var next := rest[k];
    var longer := out + [next];
    var budget := totalSlots - |out|;
    var tail := Round(rel, next, RemoveAt(rest, k), budget - 1);
    LastOfAppend(out, next);
    RoundStep(rel, out[|out| - 1], rest, budget, k);
    AppendAssoc(out, next, tail);
    assert Extend(rel, out, rest, totalSlots) == out + ([next] + tail);
    assert Extend(rel, longer, RemoveAt(rest, k), totalSlots) == longer + tail;
  }

  lemma LastOfAppend<T>(s: seq<T>, x: T)
    ensures (s + [x])[|s + [x]| - 1] == x && |s + [x]| == |s| + 1
  {
  }

  lemma AppendAssoc<T>(s: seq<T>, x: T, t: seq<T>)
    ensures (s + [x]) + t == s + ([x] + t)
  {
  }

  /** The inner loop of `planLinearLayout`: while crops remain and the row
      is not full, the chosen crop moves from the copy to the row. */
  method RunRound<T(==)>(rel: Relations<T>, placed: seq<T>, remaining: seq<T>, totalSlots: nat) returns (out: seq<T>)
    requires 0 < |placed| <= totalSlots
    ensures out == Extend(rel, placed, remaining, totalSlots)
  {
    out := placed;
    var rest := remaining;
    while |rest| > 0 && |out| < totalSlots
      invariant 0 < |out| <= totalSlots
      invariant Extend(rel, out, rest, totalSlots) == Extend(rel, placed, remaining, totalSlots)
      decreases |rest|
    {
      var k := PickNext(rel, out[|out| - 1], rest);
      ExtendStep(rel, out, rest, totalSlots, k);
      var next := rest[k];
      rest := RemoveAt(rest, k);
      out := out + [next];
    }
  }

  lemma FirstRoundEnds<T>(rel: Relations<T>, crops: seq<T>, totalSlots: nat)
    requires |crops| > 0 && totalSlots > 0
    ensures Extend(rel, [crops[0]], crops[1..], totalSlots) == FirstRound(rel, crops, totalSlots)
    ensures Fill(rel, crops, FirstRound(rel, crops, totalSlots), totalSlots) == Layout(rel, crops, totalSlots)
  {
  }

  lemma NextRoundEnds<T>(rel: Relations<T>, crops: seq<T>, placed: seq<T>, totalSlots: nat)
    requires |crops| > 0 && 0 < |placed| < totalSlots
    ensures Fill(rel, crops, Extend(rel, placed, crops, totalSlots), totalSlots) == Fill(rel, crops, placed, totalSlots)
  {
  }

  /** The loops of `planLinearLayout`: the outer loop starts a round over a
      fresh copy of the crop list (dropping the first crop in the very first
      round, where it is placed directly). */
  method LayoutLoop<T(==)>(rel: Relations<T>, crops: seq<T>, totalSlots: nat) returns (placed: seq<T>)
    requires |crops| > 0 && totalSlots > 0
    ensures placed == Layout(rel, crops, totalSlots)
  {
    placed := [];
    while |placed| < totalSlots
      invariant |placed| <= totalSlots
      invariant |placed| > 0 ==> Fill(rel, crops, placed, totalSlots) == Layout(rel, crops, totalSlots)
      decreases totalSlots - |placed|
    {
      var remaining := crops;
      if |placed| == 0 {
        placed := [remaining[0]];
        remaining := remaining[1..];
        placed := RunRound(rel, placed, remaining, totalSlots);
        FirstRoundEnds(rel, crops, totalSlots);
      } else {
        ghost var start := placed;
        placed := RunRound(rel, placed, remaining, totalSlots);
        NextRoundEnds(rel, crops, start, totalSlots);
      }
    }
  }

  /** `planLinearLayout` with its loops, for every JavaScript number of
      slots: the whole number of slots the loops fill is found first, and an
      unbounded row is reported instead of being built. */
  method PlanLinearLayoutLoop(crops: seq<Crop>, reg: Registry, totalSlots: Number) returns (result: Run<LayoutResult>)
    ensures result == PlanLinearLayoutNumber(crops, reg, totalSlots)
  {
    if |crops| == 0 || Le(totalSlots, Zero) {
      return Returns(LayoutResult([], [], []));
    }
    if totalSlots.NaN? {
      return Returns(LayoutResult([], [], []));
    }
    if totalSlots.PositiveInfinity? {
      return Diverges;
    }
    var slots := Ceil(totalSlots.x);
    var placed := LayoutLoop(Rules(reg), crops, slots);
    result := Returns(LayoutResult(placed, NeighborStates(placed, reg), []));
  }
}
