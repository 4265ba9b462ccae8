/** The in-memory companion knowledge the optimizer's own tests are written
    against (`companionListOptimizer.test.ts`), and those tests restated as
    lemmas about the model. Relations are kept in insertion order, as the
    JavaScript `Set` iterates them. */
module InMemoryKnowledge {
  import opened Results
  import opened Seqs
  import opened PlantIds
  import opened GardenAreas
  import opened PlantingPlans
  import opened Knowledge
  import opened CompanionListOptimizer
  import opened OptimizerProperties

  /** One recorded `from>>to` relation. */
  datatype Relation = Relation(from: string, to: string)

  datatype Store = Store(helps: seq<Relation>, avoids: seq<Relation>)

  /** A relation that names `id` on one side and a non-empty partner on the
      other contributes that partner. */
  predicate Links(r: Relation, id: string, x: string) {
    r.from != "" && r.to != ""
    && ((r.from == id && r.to == x) || (r.to == id && r.from == x))
  }

  /** `getCompanionCandidates`: every partner of `id` over the help relations,
      first occurrence first; a relation with an empty side is skipped. */
  function CandidateNames(helps: seq<Relation>, id: string): (r: seq<string>)
    ensures NoDup(r)
    ensures forall x :: x in r <==> exists k :: 0 <= k < |helps| && Links(helps[k], id, x)
    decreases |helps|
  {
    if |helps| == 0 then []
    else
      var prefix := helps[..|helps| - 1];
      var last := helps[|helps| - 1];
      var acc := CandidateNames(prefix, id);
      assert forall k :: 0 <= k < |prefix| ==> prefix[k] == helps[k];
      if last.from == "" || last.to == "" then acc
      else
        var acc1 := if last.from == id then AddNew(acc, last.to) else acc;
        if last.to == id then AddNew(acc1, last.from) else acc1
  }

  /** `isForbiddenPair`: an avoid recorded in either direction. */
  predicate Forbidden(s: Store, a: PlantId, b: PlantId) {
    Relation(a.value, b.value) in s.avoids || Relation(b.value, a.value) in s.avoids
  }

  /** `getCompatibilityScore`: -100 for a forbidden pair, otherwise 2 for each
      direction in which a help is recorded. */
  function Score(s: Store, a: PlantId, b: PlantId): (r: int)
    ensures r == -100 <==> Forbidden(s, a, b)
    ensures r in {-100, 0, 2, 4}
    ensures r >= 0 ==> (r >= 2 <==> Relation(a.value, b.value) in s.helps || Relation(b.value, a.value) in s.helps)
    ensures r >= 0 ==> (r == 4 <==> Relation(a.value, b.value) in s.helps && Relation(b.value, a.value) in s.helps)
  {
    if Forbidden(s, a, b) then -100
    else
      (if Relation(a.value, b.value) in s.helps then 2 else 0)
      + (if Relation(b.value, a.value) in s.helps then 2 else 0)
  }

  function AsOracle(s: Store): Oracle {
    Oracle(
      (p: PlantId) => ToIds(CandidateNames(s.helps, p.value)),
      (a: PlantId, b: PlantId) => Forbidden(s, a, b),
      (a: PlantId, b: PlantId) => Score(s, a, b))
  }

  const Tomato := PlantId("tomato")
  const Basil := PlantId("basil")
  const Carrot := PlantId("carrot")
  const Potato := PlantId("potato")
  const Onion := PlantId("onion")

  /** An empty selection is rejected before anything else is looked at. */
  lemma RejectsEmptySelection()
    ensures Optimize(AsOracle(Store([], [])), [], GardenArea(4.0)) == Err(InvalidPlantSelection)
  {
  }

  /** Two selected plants with an avoid between them are incompatible. */
  lemma RejectsIncompatibleSelection()
    ensures Optimize(AsOracle(Store([], [Relation("tomato", "potato")])), [Tomato, Potato], GardenArea(4.0))
            == Err(IncompatibleSelectedPlants)
  {
    var o := AsOracle(Store([], [Relation("tomato", "potato")]));
    assert Deduplicate([Tomato, Potato]) == [Tomato, Potato];
    assert o.forbidden(Tomato, Potato);
  }

  /** The score does not depend on the order of the pair. */
  lemma ScoreSymmetric(s: Store, a: PlantId, b: PlantId)
    ensures Score(s, a, b) == Score(s, b, a)
  {
  }

  /** A single plant with no known companions takes the whole garden. */
  lemma SinglePlantFillsGarden()
    ensures Optimize(AsOracle(Store([], [])), [Tomato], GardenArea(4.0))
            == Ok([PlantAllocation(Tomato, 4, Selected)])
  {
    var o := AsOracle(Store([], []));
    var area := GardenArea(4.0);
    assert Deduplicate([Tomato]) == [Tomato];
    assert PlantCapacity(area) == 4;
    assert Discoveries(o, [Tomato]) == [];
    RankedAtMostDiscoveries(o, [Tomato]);
    assert Optimize(o, [Tomato], area).Ok?;
    var r := Optimize(o, [Tomato], area).value;
    OptimizeCompanions(o, [Tomato], area);
    OptimizeKeepsRequested(o, [Tomato], area, 0);
    OptimizeFillsCapacity(o, [Tomato], area);
    assert |r| == 1;
    assert r[0].plantId == Tomato && r[0].source == Selected;
    assert Sum(r, Quantity) == r[0].quantity;
  }

  /** The first test's store: tomato and basil help each other, carrot helps
      tomato, and tomato avoids potato. */
  function MixedStore(): Store {
    Store([Relation("tomato", "basil"), Relation("basil", "tomato"), Relation("carrot", "tomato")],
          [Relation("tomato", "potato")])
  }

  /** The example names start with different letters. */
  lemma NamesDiffer()
    ensures "basil" != "tomato" && "basil" != "carrot" && "tomato" != "carrot"
    ensures "potato" != "basil" && "potato" != "carrot" && "potato" != "tomato"
    ensures "onion" != "basil" && "onion" != "carrot" && "onion" != "tomato"
  {
    assert "basil"[0] != "tomato"[0] && "basil"[0] != "carrot"[0] && "tomato"[0] != "carrot"[0];
    assert "potato"[0] != "basil"[0] && "potato"[0] != "carrot"[0] && "potato"[0] != "tomato"[0];
    assert "onion"[0] != "basil"[0] && "onion"[0] != "carrot"[0] && "onion"[0] != "tomato"[0];
  }

  /** A partner of tomato or carrot in the mixed store is basil, carrot or
      tomato, and basil is a partner of tomato. */
  lemma MixedPartners(id: string, x: string)
    requires id == "tomato" || id == "carrot"
    ensures x in CandidateNames(MixedStore().helps, id) ==> x == "basil" || x == "carrot" || x == "tomato"
    ensures id == "tomato" ==> "basil" in CandidateNames(MixedStore().helps, id)
  {
    var helps := MixedStore().helps;
    if x in CandidateNames(helps, id) {
      var k :| 0 <= k < |helps| && Links(helps[k], id, x);
    }
    assert Links(helps[0], "tomato", "basil");
  }

  /** The plants discovered from tomato and carrot in the mixed store: basil,
      and otherwise only the two selected plants. */
  lemma MixedDiscoveries()
    ensures var d := Discoveries(AsOracle(MixedStore()), [Tomato, Carrot]);
            Basil in d && forall x :: x in d ==> x == Basil || x == Carrot || x == Tomato
  {
    var o := AsOracle(MixedStore());
    var helps := MixedStore().helps;
    assert [Tomato, Carrot][..1] == [Tomato];
    assert [Tomato][..0] == [];
    assert Discoveries(o, [Tomato]) == o.candidates(Tomato);
    assert Discoveries(o, [Tomato, Carrot]) == o.candidates(Tomato) + o.candidates(Carrot);
    forall x | x in Discoveries(o, [Tomato, Carrot])
      ensures x == Basil || x == Carrot || x == Tomato
    {
      if x in o.candidates(Tomato) {
        MixedPartners("tomato", x.value);
      } else {
        MixedPartners("carrot", x.value);
      }
    }
    MixedPartners("tomato", "basil");
    var names := CandidateNames(helps, "tomato");
    var i :| 0 <= i < |names| && names[i] == "basil";
    assert o.candidates(Tomato)[i] == Basil;
  }

  /** Basil helps tomato both ways and has no relation with carrot. */
  lemma BasilRelations()
    ensures Relation("basil", "tomato") in MixedStore().helps
    ensures Relation("tomato", "basil") in MixedStore().helps
    ensures Relation("basil", "carrot") !in MixedStore().helps
    ensures Relation("carrot", "basil") !in MixedStore().helps
    ensures Relation("basil", "tomato") !in MixedStore().avoids
    ensures Relation("tomato", "basil") !in MixedStore().avoids
    ensures Relation("basil", "carrot") !in MixedStore().avoids
    ensures Relation("carrot", "basil") !in MixedStore().avoids
  {
    NamesDiffer();
    assert MixedStore().helps[1] == Relation("basil", "tomato");
    assert MixedStore().helps[0] == Relation("tomato", "basil");
  }

  lemma BasilScores(o: Oracle)
    requires o == AsOracle(MixedStore())
    ensures o.score(Basil, Tomato) == 4 && o.score(Basil, Carrot) == 0
  {
    BasilRelations();
  }

  /** Basil's total compatibility with tomato and carrot is 1 + 4 + 0. */
  lemma BasilContribution(o: Oracle)
    requires o == AsOracle(MixedStore())
    ensures Contribution(o, [Tomato, Carrot], Basil) == Some(5)
  {
    BasilScores(o);
    ScoredBasilContribution(o);
  }

  /** The contribution follows from the two scores alone. */
  lemma ScoredBasilContribution(o: Oracle)
    requires o.score(Basil, Tomato) == 4 && o.score(Basil, Carrot) == 0
    ensures Contribution(o, [Tomato, Carrot], Basil) == Some(5)
  {
    BasilIsNew();
    PairContribution(o, Tomato, Carrot, Basil, 4, 0);
  }

  lemma BasilIsNew()
    ensures Basil != Tomato && Basil != Carrot
  {
    NamesDiffer();
  }

  /** The contribution of an unselected plant to a two-plant selection
      with which it has no conflict. */
  lemma PairContribution(o: Oracle, a: PlantId, b: PlantId, c: PlantId, sa: int, sb: int)
    requires c != a && c != b
    requires o.score(c, a) == sa && o.score(c, b) == sb
    requires sa >= 0 && sb >= 0 && sa + sb > 0
    ensures Contribution(o, [a, b], c) == Some(1 + sa + sb)
  {
    assert [a, b][1..] == [b];
    assert [b][1..] == [];
    assert SumScores(o, c, [b]) == sb;
    assert SumScores(o, c, [a, b]) == sa + sb;
  }

  /** Tomato and carrot are distinct and compatible, and fit in six square
      metres. */
  lemma TomatoCarrotAccepted(o: Oracle, ps: seq<PlantId>, area: GardenArea)
    requires o == AsOracle(MixedStore())
    requires ps == [Tomato, Carrot] && area == GardenArea(6.0)
    ensures Deduplicate(ps) == ps && PlantCapacity(area) == 6
    ensures Optimize(o, ps, area).Ok?
  {
    TomatoCarrotDistinct();
    TomatoCarrotCompatible();
    assert PlantCapacity(area) == 6;
    OptimizeSucceeds(o, ps, area);
  }

  lemma TomatoCarrotDistinct()
    ensures Deduplicate([Tomato, Carrot]) == [Tomato, Carrot]
  {
    NamesDiffer();
    DistinctOfNoDup([Tomato, Carrot]);
  }

  /** The mixed store records no avoid between tomato and carrot. */
  lemma TomatoCarrotCompatible()
    ensures !AsOracle(MixedStore()).forbidden(Tomato, Carrot)
  {
    NamesDiffer();
    assert MixedStore().avoids == [Relation("tomato", "potato")];
  }

  /** Basil is ranked, and as the only qualifying discovery it is ranked
      first. */
  lemma BasilRankedFirst(o: Oracle, ps: seq<PlantId>)
    requires o == AsOracle(MixedStore()) && ps == [Tomato, Carrot]
    ensures var ranked := RankCompanionCandidates(o, ps);
            |ranked| > 0 && ranked[0].plantId == Basil
  {
    MixedDiscoveries();
    BasilContribution(o);
    RankedSingleQualifier(o, ps, Basil);
  }

  /** No allocation for tomato and carrot names potato: it is neither
      selected nor discovered. */
  lemma NoPotato(o: Oracle, ps: seq<PlantId>, area: GardenArea)
    requires o == AsOracle(MixedStore())
    requires ps == [Tomato, Carrot] && area == GardenArea(6.0)
    ensures Optimize(o, ps, area).Ok?
    ensures var r := Optimize(o, ps, area).value;
            forall i :: 0 <= i < |r| ==> r[i].plantId != Potato
  {
    TomatoCarrotAccepted(o, ps, area);
    PotatoUnreached();
    OptimizeOnlyRequestedOrDiscovered(o, ps, area, Potato);
  }

  /** Potato is neither selected nor discovered from tomato and carrot. */
  lemma PotatoUnreached()
    ensures Potato !in [Tomato, Carrot]
    ensures Potato !in Discoveries(AsOracle(MixedStore()), [Tomato, Carrot])
  {
    MixedDiscoveries();
    NamesDiffer();
    assert Potato != Basil && Potato != Carrot && Potato != Tomato;
  }

  /** Tomato and carrot in six square metres: the garden is filled, basil is
      added as a companion and potato is not. */
  lemma TomatoCarrotGetsBasil(o: Oracle, ps: seq<PlantId>, area: GardenArea)
    requires o == AsOracle(MixedStore())
    requires ps == [Tomato, Carrot] && area == GardenArea(6.0)
    ensures Optimize(o, ps, area).Ok?
    ensures var r := Optimize(o, ps, area).value;
            Sum(r, Quantity) == 6
            && (exists i :: 0 <= i < |r| && r[i].plantId == Basil && r[i].source == Companion)
            && (forall i :: 0 <= i < |r| ==> r[i].plantId != Potato)
  {
    TomatoCarrotAccepted(o, ps, area);
    BasilRankedFirst(o, ps);
    PotatoUnreached();
    FilledWithTopCompanion(o, ps, area, Basil, Potato);
  }

  /** When there is room for a companion, the garden is filled, the
      top-ranked candidate is added as a companion, and a plant neither
      selected nor discovered stays out. */
  lemma FilledWithTopCompanion(o: Oracle, ps: seq<PlantId>, area: GardenArea, top: PlantId, absent: PlantId)
    requires Optimize(o, ps, area).Ok? && Deduplicate(ps) == ps
    requires CompanionLimit(PlantCapacity(area), |ps|) > 0
    requires var ranked := RankCompanionCandidates(o, ps); |ranked| > 0 && ranked[0].plantId == top
    requires absent !in ps && absent !in Discoveries(o, ps)
    ensures var r := Optimize(o, ps, area).value;
            Sum(r, Quantity) == PlantCapacity(area)
            && (exists i :: 0 <= i < |r| && r[i].plantId == top && r[i].source == Companion)
            && (forall i :: 0 <= i < |r| ==> r[i].plantId != absent)
  {
    OptimizeFillsCapacity(o, ps, area);
    OptimizeIncludesTopRanked(o, ps, area, 0);
    OptimizeOnlyRequestedOrDiscovered(o, ps, area, absent);
  }

  /** The second store: tomato helps basil and carrot helps onion. */
  function PairStore(): Store {
    Store([Relation("tomato", "basil"), Relation("carrot", "onion")], [])
  }

  lemma FourDistinct(ps: seq<PlantId>)
    requires ps == [Tomato, Carrot, Basil, Onion]
    ensures Deduplicate(ps) == ps
  {
    NamesDiffer();
    assert NoDup(ps);
    DistinctOfNoDup(ps);
  }

  /** Four distinct plants without avoids fit in eight square metres. */
  lemma FourSelectedAccepted(o: Oracle, ps: seq<PlantId>, area: GardenArea)
    requires o == AsOracle(PairStore())
    requires ps == [Tomato, Carrot, Basil, Onion] && area == GardenArea(8.0)
    ensures Optimize(o, ps, area).Ok?
  {
    FourDistinct(ps);
    assert PlantCapacity(area) == 8;
    assert forall a, b :: !o.forbidden(a, b);
    OptimizeSucceeds(o, ps, area);
  }

  /** Four plants selected for eight square metres: all four stay selected
      and the quantities add up to eight. */
  lemma FourSelectedPlantsFit(o: Oracle, ps: seq<PlantId>, area: GardenArea)
    requires o == AsOracle(PairStore())
    requires ps == [Tomato, Carrot, Basil, Onion] && area == GardenArea(8.0)
    ensures Optimize(o, ps, area).Ok?
    ensures var r := Optimize(o, ps, area).value;
            Sum(r, Quantity) == 8
            && (forall k :: 0 <= k < 4 ==>
                  exists i :: 0 <= i < |r| && r[i].plantId == ps[k] && r[i].source == Selected)
            && (forall i :: 0 <= i < |r| && r[i].source == Selected ==> r[i].plantId in ps)
  {
    FourSelectedAccepted(o, ps, area);
    assert PlantCapacity(area) == 8;
    OptimizeFillsCapacity(o, ps, area);
    OptimizeSelectedAreRequested(o, ps, area);
    forall k | 0 <= k < 4
      ensures var r := Optimize(o, ps, area).value;
              exists i :: 0 <= i < |r| && r[i].plantId == ps[k] && r[i].source == Selected
    {
      OptimizeKeepsRequested(o, ps, area, k);
    }
  }
}
