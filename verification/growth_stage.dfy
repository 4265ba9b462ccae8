/** The growth stages of a plant in the 5x5 simulation and their fixed
    order. */
module GrowthStages {
  import opened Results

  datatype Stage = Seed | Sprout | Growing | Mature | Harvestable

  /** `STAGE_ORDER`. */
  const StageOrder: seq<Stage> := [Seed, Sprout, Growing, Mature, Harvestable]

  /** The schema's spelling of a stage. */
  function StageName(s: Stage): string {
    match s
    case Seed => "SEED"
    case Sprout => "SPROUT"
    case Growing => "GROWING"
    case Mature => "MATURE"
    case Harvestable => "HARVESTABLE"
  }

  /** `Array.prototype.indexOf`: the first index holding `x`, or -1. */
  function IndexOf<T(==)>(s: seq<T>, x: T): (r: int)
    ensures -1 <= r < |s|
    ensures r == -1 <==> x !in s
    ensures r >= 0 ==> s[r] == x && forall j :: 0 <= j < r ==> s[j] != x
  {
    if |s| == 0 then -1
    else if s[0] == x then 0
    else
      var k := IndexOf(s[1..], x);
      if k == -1 then -1 else k + 1
  }

  /** `GrowthStage.seed()`. */
  function SeedStage(): (r: Stage)
    ensures Ordinal(r) == 0
  {
    Seed
  }

  /** `ordinal()`: the stage's place in the order, which every stage has.
      The source looks the stage up with `indexOf`; `OrdinalIsIndexOf`
      shows the two agree. */
  function Ordinal(s: Stage): (r: int)
    ensures 0 <= r < |StageOrder| && StageOrder[r] == s
  {
    match s
    case Seed => 0
    case Sprout => 1
    case Growing => 2
    case Mature => 3
    case Harvestable => 4
  }

  /** The ordinal is the stage's index in `STAGE_ORDER`. */
  lemma OrdinalIsIndexOf(s: Stage)
    ensures Ordinal(s) == IndexOf(StageOrder, s)
  {
    var k := IndexOf(StageOrder, s);
    assert s in StageOrder by {
      assert StageOrder[Ordinal(s)] == s;
    }
    assert k == 0 || k == 1 || k == 2 || k == 3 || k == 4;
  }

  /** `next()`: the following stage, none after the last. */
  function Next(s: Stage): (r: Option<Stage>)
    ensures r.None? <==> s == Harvestable
    ensures r.Some? ==> Ordinal(r.value) == Ordinal(s) + 1
  {
    var idx := Ordinal(s);
    if idx == -1 || idx >= |StageOrder| - 1 then None
    else Some(StageOrder[idx + 1])
  }

  predicate IsHarvestable(s: Stage) {
    s == Harvestable
  }

  predicate IsMature(s: Stage) {
    s == Mature || s == Harvestable
  }

  /** `equals` compares the stage values. */
  function Equals(a: Stage, b: Stage): (r: bool)
    ensures r <==> a == b
  {
    StageName(a) == StageName(b)
  }

  /** The order is SEED < SPROUT < GROWING < MATURE < HARVESTABLE, and the
      ordinals are 0 to 4. */
  lemma OrdinalsInOrder()
    ensures Ordinal(Seed) == 0 && Ordinal(Sprout) == 1 && Ordinal(Growing) == 2
    ensures Ordinal(Mature) == 3 && Ordinal(Harvestable) == 4
  {
  }

  /** Different stages have different ordinals. */
  lemma OrdinalInjective(a: Stage, b: Stage)
    requires Ordinal(a) == Ordinal(b)
    ensures a == b
  {
  }

  /** A harvestable stage is mature; maturity starts at the fourth stage. */
  lemma HarvestableIsMature(s: Stage)
    ensures IsHarvestable(s) ==> IsMature(s)
    ensures IsMature(s) <==> Ordinal(s) >= 3
    ensures IsHarvestable(s) <==> Ordinal(s) == 4
  {
  }

  /** `next` applied `n` times; none once past the last stage. */
  function Advance(s: Stage, n: nat): Option<Stage>
    decreases n
  {
    if n == 0 then Some(s)
    else
      match Next(s)
      case None => None
      case Some(t) => Advance(t, n - 1)
  }

  /** Advancing `n` stages lands on the stage `n` places later while that
      is within the five stages. */
  lemma {:induction false} AdvanceLands(s: Stage, n: nat)
    requires Ordinal(s) + n < 5
    ensures Advance(s, n) == Some(StageOrder[Ordinal(s) + n])
    decreases n
  {
    if n > 0 {
      var t := Next(s).value;
      assert Ordinal(t) == Ordinal(s) + 1;
      assert Advance(s, n) == Advance(t, n - 1);
      AdvanceLands(t, n - 1);
    }
  }

  /** Advancing past the last stage gives nothing. */
  lemma {:induction false} AdvancePastEnd(s: Stage, n: nat)
    requires Ordinal(s) + n >= 5
    ensures Advance(s, n) == None
    decreases n
  {
    if s == Harvestable {
      assert Advance(s, n) == None;
    } else {
      var t := Next(s).value;
      assert Ordinal(t) == Ordinal(s) + 1;
      assert Advance(s, n) == Advance(t, n - 1);
      AdvancePastEnd(t, n - 1);
    }
  }

  /** Every stage reaches HARVESTABLE, in `4 - ordinal` steps. */
  lemma ReachesHarvestable(s: Stage)
    ensures Advance(s, 4 - Ordinal(s)) == Some(Harvestable)
  {
    AdvanceLands(s, 4 - Ordinal(s));
  }
}
