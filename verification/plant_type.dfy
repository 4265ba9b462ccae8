/** The plant catalogue of the 5x5 simulation and the `PlantType` value
    that wraps one entry. */
module PlantTypes {
  import opened Results
  import opened Strings
  import opened GrowthStages

  datatype Emojis = Emojis(seed: string, sprout: string, growing: string, mature: string, harvestable: string)

  datatype PlantConfig = PlantConfig(
    id: nat,
    name: string,
    daysToFirstHarvest: nat,
    daysToLastHarvest: nat,
    lifespan: nat,
    companions: seq<string>,
    incompatible: seq<string>,
    scientificName: string,
    emoji: Emojis)

  /** The four growing stages share their pictures; the harvest picture is
      the plant's own. */
  function StageEmojis(harvestable: string): Emojis {
    Emojis("\U{1F311}", "\U{1F331}", "\U{1F33F}", "\U{1FAB4}", harvestable)
  }

  const Tomato: PlantConfig := PlantConfig(216, "Tomato", 92, 126, 146, ["basil", "carrot", "chives"], ["potato"],
                                          "Solanum lycopersicum", StageEmojis("\U{1F345}"))
  const Carrot: PlantConfig := PlantConfig(37, "Carrot", 126, 161, 126, ["tomato", "lettuce", "onion"], ["dill"],
                                          "Daucus carota", StageEmojis("\U{1F955}"))
  const Lettuce: PlantConfig := PlantConfig(113, "Lettuce", 35, 105, 105, ["carrot", "radish", "strawberry"], [],
                                           "Lactuca sativa", StageEmojis("\U{1F96C}"))
  const Potato: PlantConfig := PlantConfig(164, "Potato", 84, 112, 140, ["beans", "corn", "cabbage"], ["tomato"],
                                          "Solanum tuberosum", StageEmojis("\U{1F954}"))

  /** `PLANT_DATA`, keyed by lower-case name. */
  const PlantData: map<string, PlantConfig> :=
    map["tomato" := Tomato, "carrot" := Carrot, "lettuce" := Lettuce, "potato" := Potato]

  /** `AVAILABLE_PLANTS`: the keys in declaration order. */
  const AvailablePlants: seq<string> := ["tomato", "carrot", "lettuce", "potato"]

  /** The picture shown when a stage has none. */
  const UnknownEmoji: string := "\U{2753}"

  datatype PlantType = PlantType(config: PlantConfig)

  /** `PlantType.fromName`: the entry under the lower-cased name, or
      `Unknown plant type`. */
  function FromName(name: string): (r: Result<PlantType>)
    ensures r.Ok? <==> ToLower(name) in AvailablePlants
    ensures r.Ok? ==> r.value.config == PlantData[ToLower(name)]
    ensures r.Err? ==> r.error == UnknownPlantType
  {
    var key := ToLower(name);
    if key in PlantData then Ok(PlantType(PlantData[key])) else Err(UnknownPlantType)
  }

  function Name(t: PlantType): string {
    t.config.name
  }

  /** `key`: the lower-cased display name. */
  function Key(t: PlantType): string {
    ToLower(t.config.name)
  }

  /** `daysToHarvest`: days to the first harvest. */
  function DaysToHarvest(t: PlantType): (r: nat)
    ensures t.config in PlantData.Values ==> r > 0
  {
    t.config.daysToFirstHarvest
  }

  /** `isCompanion`: the other plant's key is on this plant's companion
      list. */
  predicate IsCompanion(t: PlantType, other: PlantType) {
    Key(other) in t.config.companions
  }

  /** `isIncompatible`: the other plant's key is on this plant's
      incompatible list. */
  predicate IsIncompatible(t: PlantType, other: PlantType) {
    Key(other) in t.config.incompatible
  }

  /** `getEmoji`: the picture under the lower-cased stage name, and the
      question mark when there is none or it is empty. */
  function GetEmoji(t: PlantType, stage: string): (r: string)
    ensures r != ""
    ensures ToLower(stage) !in {"seed", "sprout", "growing", "mature", "harvestable"} ==> r == UnknownEmoji
    ensures ToLower(stage) == "seed" ==> r == (if t.config.emoji.seed != "" then t.config.emoji.seed else UnknownEmoji)
    ensures r == UnknownEmoji || r in {t.config.emoji.seed, t.config.emoji.sprout, t.config.emoji.growing,
                                       t.config.emoji.mature, t.config.emoji.harvestable}
  {
    var key := ToLower(stage);
    var e := t.config.emoji;
    var found :=
      if key == "seed" then e.seed
      else if key == "sprout" then e.sprout
      else if key == "growing" then e.growing
      else if key == "mature" then e.mature
      else if key == "harvestable" then e.harvestable
      else "";
    if found != "" then found else UnknownEmoji
  }

  /** The table's key for each entry is its name lower-cased. */
  lemma TableKeys()
    ensures forall k :: k in PlantData <==> k in AvailablePlants
    ensures forall k :: k in PlantData ==> ToLower(PlantData[k].name) == k
  {
    assert ToLower("Tomato") == "tomato";
    assert ToLower("Carrot") == "carrot";
    assert ToLower("Lettuce") == "lettuce";
    assert ToLower("Potato") == "potato";
  }

  /** A plant type read by name gives its key back, and reading that key
      again gives the same type. */
  lemma KeyRoundTrip(name: string)
    requires FromName(name).Ok?
    ensures Key(FromName(name).value) == ToLower(name)
    ensures FromName(Key(FromName(name).value)) == FromName(name)
  {
    TableKeys();
    ToLowerOfLower(ToLower(name));
  }

  /** Names are matched without regard to ASCII case. */
  lemma FromNameIgnoresCase(name: string)
    ensures FromName(ToLower(name)) == FromName(name)
  {
    ToLowerOfLower(ToLower(name));
  }

  /** Within the table both relations are symmetric: tomato and carrot,
      carrot and lettuce help each other; tomato and potato clash. */
  lemma TableRelationsSymmetric(a: string, b: string)
    requires a in PlantData && b in PlantData
    ensures IsCompanion(PlantType(PlantData[a]), PlantType(PlantData[b]))
            == IsCompanion(PlantType(PlantData[b]), PlantType(PlantData[a]))
    ensures IsIncompatible(PlantType(PlantData[a]), PlantType(PlantData[b]))
            == IsIncompatible(PlantType(PlantData[b]), PlantType(PlantData[a]))
  {
    TableKeys();
    assert Key(PlantType(PlantData[a])) == a && Key(PlantType(PlantData[b])) == b;
    ListsSymmetric(a, b);
  }

  /** The same on the raw lists, keyed by name. */
  lemma ListsSymmetric(a: string, b: string)
    requires a in PlantData && b in PlantData
    ensures (b in PlantData[a].companions) == (a in PlantData[b].companions)
    ensures (b in PlantData[a].incompatible) == (a in PlantData[b].incompatible)
  {
    if a == "tomato" {
      ListsOf(b);
    } else if a == "carrot" {
      ListsOf(b);
    } else if a == "lettuce" {
      ListsOf(b);
    } else {
      ListsOf(b);
    }
  }

  /** Which table keys each entry's lists name. */
  lemma ListsOf(b: string)
    requires b in PlantData
    ensures (b in Tomato.companions) == (b == "carrot") && (b in Tomato.incompatible) == (b == "potato")
    ensures (b in Carrot.companions) == (b == "tomato" || b == "lettuce") && b !in Carrot.incompatible
    ensures (b in Lettuce.companions) == (b == "carrot") && b !in Lettuce.incompatible
    ensures b !in Potato.companions && (b in Potato.incompatible) == (b == "tomato")
  {
  }

  /** Every stage of a catalogue plant has its own picture. */
  lemma EmojiOfStage(t: PlantType, s: Stage)
    requires t.config in PlantData.Values
    ensures GetEmoji(t, StageName(s)) == (match s
                                          case Seed => t.config.emoji.seed
                                          case Sprout => t.config.emoji.sprout
                                          case Growing => t.config.emoji.growing
                                          case Mature => t.config.emoji.mature
                                          case Harvestable => t.config.emoji.harvestable)
  {
    StageKey(s);
  }

  /** The lower-cased schema spelling of each stage. */
  lemma StageKey(s: Stage)
    ensures ToLower(StageName(s)) == match s
                                     case Seed => "seed"
                                     case Sprout => "sprout"
                                     case Growing => "growing"
                                     case Mature => "mature"
                                     case Harvestable => "harvestable"
  {
    match s
    case Seed => assert ToLower("SEED") == "seed";
    case Sprout => assert ToLower("SPROUT") == "sprout";
    case Growing => assert ToLower("GROWING") == "growing";
    case Mature => assert ToLower("MATURE") == "mature";
    case Harvestable => assert ToLower("HARVESTABLE") == "harvestable";
  }

  // ---------------------------------------------------------------------
  // `PLANT_DATA[key]` as JavaScript evaluates it

  /** What indexing the plain object literal yields: an own entry, a
      property inherited from `Object.prototype`, or `undefined`. */
  datatype Lookup = Own(config: PlantConfig) | Inherited(property: string)

  /** The `Object.prototype` properties whose names are all lower case,
      so that a lower-cased plant name can reach them. */
  const InheritedLowerCase: set<string> := {"constructor", "__proto__"}

  function IndexObject(key: string): Option<Lookup> {
    if key in PlantData then Some(Own(PlantData[key]))
    else if key in InheritedLowerCase then Some(Inherited(key))
    else None
  }

  /** `fromName` as written: any truthy lookup is accepted, inherited
      properties included. */
  function FromNameAsWritten(name: string): (r: Result<Lookup>)
    ensures r.Ok? <==> ToLower(name) in PlantData || ToLower(name) in InheritedLowerCase
  {
    match IndexObject(ToLower(name))
    case None => Err(UnknownPlantType)
    case Some(l) => Ok(l)
  }

  /** "constructor" is not a plant, yet `fromName` as written accepts it
      (the lookup yields the `Object` function); the corrected `FromName`
      reports an unknown plant type. */
  lemma ConstructorIsNotAPlant()
    ensures FromNameAsWritten("Constructor").Ok?
    ensures FromNameAsWritten("Constructor").value == Inherited("constructor")
    ensures FromName("Constructor") == Err(UnknownPlantType)
  {
    assert ToLower("Constructor") == "constructor";
  }

  /** On every other name the two agree. */
  lemma AsWrittenAgreesOnOwnKeys(name: string)
    requires ToLower(name) !in InheritedLowerCase
    ensures FromNameAsWritten(name).Ok? == FromName(name).Ok?
    ensures FromName(name).Ok? ==> FromNameAsWritten(name).value == Own(FromName(name).value.config)
  {
    TableKeys();
  }
}
