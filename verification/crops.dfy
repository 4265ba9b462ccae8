/** The `Crop` aggregate and the companion-association rule it enforces.

    A crop holds its name, its harvest period, the companion registry it
    consults and the set of companion names associated so far. The source's
    set holds `CropName` objects and so deduplicates by object identity: two
    distinct objects with the same text are both kept. A `NameRef` pairs a
    name with an identity token to model that. */
module Crops {
  import opened Results
  import opened Seqs
  import opened CropNames
  import opened HarvestPeriods
  import CsvRegistry
  import JsonKnowledge

  /** The two registry implementations behind the `CompanionRegistry`
      interface. */
  datatype Registry =
    | CsvSource(csv: CsvRegistry.Registry)
    | JsonSource(tables: JsonKnowledge.Tables)

  predicate IsHelpful(reg: Registry, crop: CropName, companion: CropName) {
    match reg
    case CsvSource(csv) => CsvRegistry.IsHelpful(csv, crop, companion)
    case JsonSource(t) => JsonKnowledge.IsHelpful(t, crop, companion)
  }

  predicate IsForbidden(reg: Registry, crop: CropName, companion: CropName) {
    match reg
    case CsvSource(csv) => CsvRegistry.IsForbidden(csv, crop, companion)
    case JsonSource(t) => JsonKnowledge.IsForbidden(t, crop, companion)
  }

  function HelpfulCompanions(reg: Registry, crop: CropName): Result<seq<CropName>> {
    match reg
    case CsvSource(csv) => CsvRegistry.HelpfulCompanions(csv, crop)
    case JsonSource(t) => JsonKnowledge.HelpfulCompanions(t, crop)
  }

  function ForbiddenCompanions(reg: Registry, crop: CropName): Result<seq<CropName>> {
    match reg
    case CsvSource(csv) => CsvRegistry.ForbiddenCompanions(csv, crop)
    case JsonSource(t) => JsonKnowledge.ForbiddenCompanions(t, crop)
  }

  /** A `CropName` object: its text and an identity token. */
  datatype NameRef = NameRef(id: nat, name: CropName)

  datatype Crop = Crop(name: NameRef, harvestPeriod: HarvestPeriod, registry: Registry, companions: seq<NameRef>)

  /** `Crop.create`: a new crop has no companions. */
  function Create(name: NameRef, harvestPeriod: HarvestPeriod, registry: Registry): (r: Crop)
    ensures r.name == name && r.harvestPeriod == harvestPeriod && r.registry == registry
    ensures Companions(r) == []
  {
    Crop(name, harvestPeriod, registry, [])
  }

  /** `getCompanions`: the names of the set in insertion order. */
  function Companions(c: Crop): (r: seq<CropName>)
    ensures |r| == |c.companions|
    ensures forall i :: 0 <= i < |r| ==> r[i] == c.companions[i].name
  {
    seq(|c.companions|, i requires 0 <= i < |c.companions| => c.companions[i].name)
  }

  // ---------------------------------------------------------------------
  // The association specification

  /** `CompanionAssociationSpecification.isSatisfiedBy`: the self check,
      then the forbidden check in crop-to-companion order, the first failing
      rule's error reported. */
  function CheckAssociation(reg: Registry, crop: CropName, companion: CropName): (r: Result<()>)
    ensures r.Ok? <==> crop != companion && !IsForbidden(reg, crop, companion)
    ensures crop == companion ==> r == Err(CannotAssociateCropToItself)
    ensures crop != companion && IsForbidden(reg, crop, companion) ==> r == Err(ForbiddenCompanionAssociation)
  {
    if CropNames.Equals(crop, companion) then Err(CannotAssociateCropToItself)
    else if IsForbidden(reg, crop, companion) then Err(ForbiddenCompanionAssociation)
    else Ok(())
  }

  /** `canAssociateWith`: the crop's own registry decides; nothing about
      the crop changes. */
  function CanAssociateWith(crop: Crop, companion: Crop): (r: bool)
    ensures r <==> crop.name.name != companion.name.name
                   && !IsForbidden(crop.registry, crop.name.name, companion.name.name)
  {
    CheckAssociation(crop.registry, crop.name.name, companion.name.name).Ok?
  }

  /** `associateCompanion`: fails exactly when `canAssociateWith` is false,
      otherwise adds the companion's name object (`Set.add`: an object
      already present is not added again) and changes nothing else. */
  function AssociateCompanion(crop: Crop, companion: Crop): (r: Result<Crop>)
    ensures r.Ok? <==> CanAssociateWith(crop, companion)
    ensures r.Err? ==> r.error == CheckAssociation(crop.registry, crop.name.name, companion.name.name).error
    ensures r.Ok? ==> r.value == crop.(companions := AddNew(crop.companions, companion.name))
  {
    var _ :- CheckAssociation(crop.registry, crop.name.name, companion.name.name);
    Ok(crop.(companions := AddNew(crop.companions, companion.name)))
  }

  /** The companion set never holds the same object twice. */
  lemma AssociateKeepsDistinct(crop: Crop, companion: Crop)
    requires NoDup(crop.companions)
    ensures AssociateCompanion(crop, companion).Ok? ==> NoDup(AssociateCompanion(crop, companion).value.companions)
  {
  }

  /** Associating the same companion again changes nothing. */
  lemma ReassociateIdempotent(crop: Crop, companion: Crop)
    requires AssociateCompanion(crop, companion).Ok?
    ensures AssociateCompanion(AssociateCompanion(crop, companion).value, companion) == AssociateCompanion(crop, companion)
  {
  }

  /** A self pair reports the self error even when the registry forbids it. */
  lemma SelfCheckFirst(reg: Registry, name: CropName)
    ensures CheckAssociation(reg, name, name) == Err(CannotAssociateCropToItself)
  {
  }

  /** Two different objects carrying the same text are both kept. */
  lemma SameTextDifferentObjects(crop: Crop, a: Crop, b: Crop)
    requires crop.companions == []
    requires a.name.name == b.name.name && a.name.id != b.name.id
    requires CanAssociateWith(crop, a)
    ensures AssociateCompanion(crop, a).Ok?
    ensures AssociateCompanion(AssociateCompanion(crop, a).value, b).Ok?
    ensures Companions(AssociateCompanion(AssociateCompanion(crop, a).value, b).value) == [a.name.name, a.name.name]
  {
    var once := AssociateCompanion(crop, a).value;
    assert once.companions == [a.name];
    assert b.name !in once.companions;
  }

  /** With a JSON registry the rule is symmetric: an avoid pair forbids both
      directions. */
  lemma JsonRuleSymmetric(t: JsonKnowledge.Tables, a: CropName, b: CropName)
    ensures CheckAssociation(JsonSource(t), a, b).Ok? == CheckAssociation(JsonSource(t), b, a).Ok?
  {
    JsonKnowledge.IsForbiddenSymmetric(t, a, b);
  }

  /** With a CSV registry the forbidden check is directional: a single
      `tomato avoid basil` row stops tomato taking basil, not the reverse. */
  lemma CsvRuleDirectional()
    ensures var reg := CsvSource(CsvRegistry.Registry([CsvRegistry.Relationship("tomato", CsvRegistry.AvoidRelation, "basil")]));
            CheckAssociation(reg, CropName("tomato"), CropName("basil")) == Err(ForbiddenCompanionAssociation)
            && CheckAssociation(reg, CropName("basil"), CropName("tomato")) == Ok(())
  {
    var csv := CsvRegistry.Registry([CsvRegistry.Relationship("tomato", CsvRegistry.AvoidRelation, "basil")]);
    assert csv.rows[0] == CsvRegistry.Relationship("tomato", CsvRegistry.AvoidRelation, "basil");
    assert "basil"[0] != "tomato"[0];
  }
}
