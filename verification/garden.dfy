/** The garden of the 5x5 simulation: its plots keyed by position, the day
    counter and the season.

    The source keys its plot map by `Position.toKey`, which is injective
    (`Positions.ToKeyInjective`), so here the map is a sequence of plots in
    insertion order whose positions are pairwise different. */
module Gardens {
  import opened Results
  import opened Seqs
  import opened GrowthStages
  import opened PlantTypes
  import opened Positions
  import opened Plots
  import Strings

  /** `DAYS_PER_SEASON`. */
  const DaysPerSeason: int := 30

  datatype Season = Spring | Summer | Fall | Winter

  /** `SeasonSchema.options`. */
  const SeasonOrder: seq<Season> := [Spring, Summer, Fall, Winter]

  /** The season's place in the schema's list. */
  function SeasonIndex(s: Season): (r: int)
    ensures 0 <= r < |SeasonOrder| && SeasonOrder[r] == s
  {
    match s
    case Spring => 0
    case Summer => 1
    case Fall => 2
    case Winter => 3
  }

  /** The season after `s`, wrapping from WINTER to SPRING. */
  function NextSeason(s: Season): (r: Season) {
    match s
    case Spring => Summer
    case Summer => Fall
    case Fall => Winter
    case Winter => Spring
  }

  /** The next season is the next place in the list, the first after the
      last. */
  lemma NextSeasonInOrder(m: int)
    requires 0 <= m < |SeasonOrder|
    ensures NextSeason(SeasonOrder[m]) == SeasonOrder[(m + 1) % 4]
    ensures SeasonIndex(SeasonOrder[m]) == m
  {
    assert m == 0 || m == 1 || m == 2 || m == 3;
  }

  /** The season `k` moves after `s`. */
  function ShiftSeason(s: Season, k: nat): Season {
    if k == 0 then s else NextSeason(ShiftSeason(s, k - 1))
  }

  datatype Garden = Garden(plots: seq<Plot>, currentDay: int, season: Season)

  /** What `toData` writes and `fromData` reads; the plots in map order. */
  datatype GardenData = GardenData(plots: seq<Plot>, currentDay: int, season: Season)

  /** No two plots share a position, as in a map keyed by position. */
  predicate Keyed(plots: seq<Plot>) {
    forall i, j :: 0 <= i < j < |plots| ==> plots[i].position != plots[j].position
  }

  /** The index of the plot at `p`, or -1. */
  function Find(plots: seq<Plot>, p: Position): (r: int)
    ensures -1 <= r < |plots|
    ensures r >= 0 ==> plots[r].position == p
    ensures r == -1 <==> forall i :: 0 <= i < |plots| ==> plots[i].position != p
    ensures forall i :: 0 <= i < r ==> plots[i].position != p
  {
    if |plots| == 0 then -1
    else if plots[0].position == p then 0
    else
      var k := Find(plots[1..], p);
      if k == -1 then -1 else k + 1
  }

  /** In a keyed sequence each plot is found at its own index. */
  lemma FindKeyed(plots: seq<Plot>, i: int)
    requires Keyed(plots) && 0 <= i < |plots|
    ensures Find(plots, plots[i].position) == i
  {
  }

  /** Replacing the plot found at a position by another at the same
      position leaves it found there. */
  lemma FindUpdated(plots: seq<Plot>, k: int, q: Plot)
    requires 0 <= k < |plots| && Find(plots, q.position) == k
    ensures Find(plots[k := q], q.position) == k
  {
    var u := plots[k := q];
    assert u[k].position == q.position;
    assert forall i :: 0 <= i < k ==> u[i] == plots[i];
  }

  // ---------------------------------------------------------------------
  // create, getPlot

  /** The 25 cells row by row, as `create`'s nested loops visit them. */
  function GridPlots(): (r: seq<Plot>)
    ensures |r| == GridSize * GridSize
    ensures forall i :: 0 <= i < |r| ==> r[i] == Plot(Position(i % GridSize, i / GridSize), None)
  {
    seq(GridSize * GridSize, i requires 0 <= i < GridSize * GridSize =>
      Plot(Position(i % GridSize, i / GridSize), None))
  }

  /** `Garden.create`: an empty plot on every cell, day 1, SPRING. */
  function Create(): (r: Garden)
    ensures Keyed(r.plots)
    ensures forall i :: 0 <= i < |r.plots| ==> IsEmpty(r.plots[i])
                                                && InGrid(r.plots[i].position.x, r.plots[i].position.y)
    ensures r.currentDay == 1 && r.season == Spring
  {
    var plots := GridPlots();
    assert Keyed(plots) by {
      forall i, j | 0 <= i < j < |plots|
        ensures plots[i].position != plots[j].position
      {
        assert i == GridSize * (i / GridSize) + i % GridSize;
        assert j == GridSize * (j / GridSize) + j % GridSize;
      }
    }
    Garden(plots, 1, Spring)
  }

  /** `getPlot`: the plot at `(x, y)`, if the map has one. */
  function GetPlot(g: Garden, x: int, y: int): (r: Option<Plot>)
    ensures r.Some? <==> exists i :: 0 <= i < |g.plots| && g.plots[i].position == Position(x, y)
    ensures r.Some? ==> r.value in g.plots && r.value.position == Position(x, y)
  {
    var k := Find(g.plots, Position(x, y));
    if k == -1 then None else Some(g.plots[k])
  }

  /** A new garden has an empty plot on exactly the cells of the grid. */
  lemma CreateCoversGrid(x: int, y: int)
    ensures GetPlot(Create(), x, y).Some? <==> InGrid(x, y)
    ensures InGrid(x, y) ==> GetPlot(Create(), x, y) == Some(Plot(Position(x, y), None))
  {
    var g := Create();
    if InGrid(x, y) {
      var i := y * GridSize + x;
      assert i % GridSize == x && i / GridSize == y;
      assert g.plots[i].position == Position(x, y);
      FindKeyed(g.plots, i);
    }
  }

  // ---------------------------------------------------------------------
  // fromData, toData

  /** `Map.set` keyed by position: an entry at the same position is replaced
      where it stands, a new one goes at the end. */
  function Put(plots: seq<Plot>, plot: Plot): (r: seq<Plot>)
    ensures Keyed(plots) ==> Keyed(r)
    ensures Find(plots, plot.position) == -1 ==> r == plots + [plot]
    ensures Find(plots, plot.position) >= 0 ==> r == plots[Find(plots, plot.position) := plot]
  {
    var k := Find(plots, plot.position);
    if k == -1 then plots + [plot] else plots[k := plot]
  }

  /** `fromData`'s loop: every stored plot set into the map in turn. */
  function Load(ds: seq<Plot>): (r: seq<Plot>)
    ensures Keyed(r)
  {
    if |ds| == 0 then [] else Put(Load(ds[..|ds| - 1]), ds[|ds| - 1])
  }

  /** Every loaded plot is one of the stored plots. */
  lemma {:induction false} LoadFromStored(ds: seq<Plot>)
    ensures forall q :: q in Load(ds) ==> q in ds
  {
    if |ds| > 0 {
      var init := ds[..|ds| - 1];
      LoadFromStored(init);
      forall q | q in Load(ds)
        ensures q in ds
      {
        var prev := Load(init);
        var k := Find(prev, ds[|ds| - 1].position);
        if q != ds[|ds| - 1] {
          if k >= 0 {
            var j :| 0 <= j < |Load(ds)| && Load(ds)[j] == q;
            assert q in prev by {
              assert prev[j] == q;
            }
          }
          assert q in init;
        }
      }
    }
  }

  /** Where stored data repeats a position, the last plot at it wins. */
  lemma {:induction false} LoadLastWins(ds: seq<Plot>, i: int)
    requires 0 <= i < |ds|
    requires forall j :: i < j < |ds| ==> ds[j].position != ds[i].position
    ensures ds[i] in Load(ds)
  {
    var prev := Load(ds[..|ds| - 1]);
    if i < |ds| - 1 {
      LoadLastWins(ds[..|ds| - 1], i);
      var k :| 0 <= k < |prev| && prev[k] == ds[i];
      var last := ds[|ds| - 1];
      assert last.position != ds[i].position;
      if Find(prev, last.position) >= 0 {
        assert Put(prev, last)[k] == ds[i];
      } else {
        assert Put(prev, last)[k] == ds[i];
      }
    } else {
      var k := Find(prev, ds[i].position);
      if k >= 0 {
        assert Put(prev, ds[i])[k] == ds[i];
      } else {
        assert Put(prev, ds[i])[|prev|] == ds[i];
      }
    }
  }

  /** Stored data without repeated positions loads unchanged. */
  lemma {:induction false} LoadKeyed(ds: seq<Plot>)
    requires Keyed(ds)
    ensures Load(ds) == ds
  {
    if |ds| > 0 {
      var init := ds[..|ds| - 1];
      assert Keyed(init);
      LoadKeyed(init);
      assert Find(init, ds[|ds| - 1].position) == -1;
      assert init + [ds[|ds| - 1]] == ds;
    }
  }

  /** `Garden.fromData`: no validation; the day and season as stored. */
  function FromData(d: GardenData): (r: Garden)
    ensures Keyed(r.plots)
    ensures r.currentDay == d.currentDay && r.season == d.season
  {
    Garden(Load(d.plots), d.currentDay, d.season)
  }

  /** `toData`: the plots in map order, the day and the season. */
  function ToData(g: Garden): (r: GardenData) {
    GardenData(g.plots, g.currentDay, g.season)
  }

  /** Saving and loading a garden gives it back. */
  lemma FromDataOfToData(g: Garden)
    requires Keyed(g.plots)
    ensures FromData(ToData(g)) == g
  {
    LoadKeyed(g.plots);
  }

  /** Stored data without repeated positions survives a load and save. */
  lemma ToDataOfFromData(d: GardenData)
    requires Keyed(d.plots)
    ensures ToData(FromData(d)) == d
  {
    LoadKeyed(d.plots);
  }

  // ---------------------------------------------------------------------
  // checkCompanions

  /** A plot that `checkCompanions` looks at: planted, elsewhere, and harvestable. */
  predicate Counts(plot: Plot, position: Position) {
    plot.plant.Some? && plot.position != position && PlantIsHarvestable(plot.plant.value)
  }

  /** The plot holds a counted plant that `plant` lists as a companion. */
  predicate HelpedBy(plot: Plot, position: Position, plant: Plant) {
    Counts(plot, position) && IsCompanion(plant.kind, plot.plant.value.kind)
  }

  /** The plot holds a counted plant that `plant` lists as incompatible. */
  predicate HinderedBy(plot: Plot, position: Position, plant: Plant) {
    Counts(plot, position) && IsIncompatible(plant.kind, plot.plant.value.kind)
  }

  /** The display name of the plot's plant. */
  function PlantName(plot: Plot): string {
    if plot.plant.Some? then Name(plot.plant.value.kind) else ""
  }

  /** Whether any plot is hit. */
  function AnyHit(plots: seq<Plot>, hit: Plot -> bool): (r: bool)
    ensures r <==> exists i :: 0 <= i < |plots| && hit(plots[i])
  {
    if |plots| == 0 then false
    else
      assert forall i :: 0 <= i < |plots| - 1 ==> plots[..|plots| - 1][i] == plots[i];
      AnyHit(plots[..|plots| - 1], hit) || hit(plots[|plots| - 1])
  }

  /** The names of the hit plots' plants, each once, in map order. */
  function Collect(plots: seq<Plot>, hit: Plot -> bool): (r: seq<string>)
    ensures NoDup(r)
    ensures forall n :: n in r <==> exists i :: 0 <= i < |plots| && hit(plots[i]) && PlantName(plots[i]) == n
  {
    if |plots| == 0 then []
    else
      var acc := Collect(plots[..|plots| - 1], hit);
      var last := plots[|plots| - 1];
      assert forall i :: 0 <= i < |plots| - 1 ==> plots[..|plots| - 1][i] == plots[i];
      if hit(last) then AddNew(acc, PlantName(last)) else acc
  }

  /** The names of the hit plots' plants in map order, repeats included. */
  function HitNames(plots: seq<Plot>, hit: Plot -> bool): seq<string> {
    if |plots| == 0 then []
    else
      var last := plots[|plots| - 1];
      HitNames(plots[..|plots| - 1], hit) + (if hit(last) then [PlantName(last)] else [])
  }

  /** `Collect` keeps the first occurrence of every hit name: it is the
      hit names without repeats, in the order the map first yields them. */
  lemma {:induction false} CollectOrder(plots: seq<Plot>, hit: Plot -> bool)
    ensures Collect(plots, hit) == Distinct(HitNames(plots, hit))
    ensures InFirstOccurrenceOrder(HitNames(plots, hit), Collect(plots, hit))
  {
    if |plots| > 0 {
      var prefix := plots[..|plots| - 1];
      var last := plots[|plots| - 1];
      CollectOrder(prefix, hit);
      var names := HitNames(plots, hit);
      if hit(last) {
        assert names[..|names| - 1] == HitNames(prefix, hit);
      } else {
        assert names == HitNames(prefix, hit);
      }
    }
    DistinctOrder(HitNames(plots, hit));
  }

  datatype CompanionResult = CompanionResult(
    hasCompanion: bool,
    hasIncompatible: bool,
    companionNames: seq<string>,
    incompatibleNames: seq<string>)

  /** `checkCompanions`: the whole garden is scanned, not only the
      neighbours of `position`; the own position, empty plots and plants
      that are not harvestable are skipped. */
  function CheckCompanions(g: Garden, position: Position, plant: Plant): (r: CompanionResult)
    ensures r.hasCompanion <==> exists i :: 0 <= i < |g.plots| && HelpedBy(g.plots[i], position, plant)
    ensures r.hasIncompatible <==> exists i :: 0 <= i < |g.plots| && HinderedBy(g.plots[i], position, plant)
    ensures NoDup(r.companionNames) && NoDup(r.incompatibleNames)
    ensures forall n :: n in r.companionNames <==>
              exists i :: 0 <= i < |g.plots| && HelpedBy(g.plots[i], position, plant) && PlantName(g.plots[i]) == n
    ensures forall n :: n in r.incompatibleNames <==>
              exists i :: 0 <= i < |g.plots| && HinderedBy(g.plots[i], position, plant) && PlantName(g.plots[i]) == n
  {
    var helped := p => HelpedBy(p, position, plant);
    var hindered := p => HinderedBy(p, position, plant);
    CompanionResult(AnyHit(g.plots, helped), AnyHit(g.plots, hindered),
                    Collect(g.plots, helped), Collect(g.plots, hindered))
  }

  /** Each flag is set exactly when its list of names is non-empty. */
  lemma FlagsMatchNames(g: Garden, position: Position, plant: Plant)
    ensures CheckCompanions(g, position, plant).hasCompanion
            <==> CheckCompanions(g, position, plant).companionNames != []
    ensures CheckCompanions(g, position, plant).hasIncompatible
            <==> CheckCompanions(g, position, plant).incompatibleNames != []
  {
    var r := CheckCompanions(g, position, plant);
    if r.hasCompanion {
      var i :| 0 <= i < |g.plots| && HelpedBy(g.plots[i], position, plant);
      assert PlantName(g.plots[i]) in r.companionNames;
    }
    if r.hasIncompatible {
      var i :| 0 <= i < |g.plots| && HinderedBy(g.plots[i], position, plant);
      assert PlantName(g.plots[i]) in r.incompatibleNames;
    }
    if r.companionNames != [] {
      assert r.companionNames[0] in r.companionNames;
    }
    if r.incompatibleNames != [] {
      assert r.incompatibleNames[0] in r.incompatibleNames;
    }
  }

  /** Distance plays no part: a harvestable companion in the far corner
      counts as much as one next door. */
  lemma DistanceIgnored(g: Garden, position: Position, plant: Plant, i: int)
    requires 0 <= i < |g.plots| && HelpedBy(g.plots[i], position, plant)
    ensures CheckCompanions(g, position, plant).hasCompanion
    ensures Name(g.plots[i].plant.value.kind) in CheckCompanions(g, position, plant).companionNames
  {
  }

  // ---------------------------------------------------------------------
  // plantSeed, harvestPlant

  /** `plantSeed`: the plot must exist ("Invalid position") and be empty,
      the plant type must be known, and the coordinates must pass
      `Position.create`, in that order. The companions are checked against
      the garden before the seed goes in; only the chosen plot changes. */
  function PlantSeed(g: Garden, x: int, y: int, typeName: string): (r: Result<(Garden, CompanionResult)>)
    ensures GetPlot(g, x, y).None? ==> r == Err(PlotNotFound)
    ensures GetPlot(g, x, y).Some? && !IsEmpty(GetPlot(g, x, y).value) ==> r == Err(PlotNotEmpty)
    ensures GetPlot(g, x, y).Some? && IsEmpty(GetPlot(g, x, y).value) && FromName(typeName).Err?
            ==> r == Err(UnknownPlantType)
    ensures GetPlot(g, x, y).Some? && IsEmpty(GetPlot(g, x, y).value) && FromName(typeName).Ok? && !InGrid(x, y)
            ==> r == Err(InvalidPosition)
    ensures r.Ok? <==> GetPlot(g, x, y).Some? && IsEmpty(GetPlot(g, x, y).value)
                       && FromName(typeName).Ok? && InGrid(x, y)
    ensures r.Ok? ==> var plant := Plant(FromName(typeName).value, g.currentDay, Seed);
                      && GetPlot(r.value.0, x, y) == Some(Plot(Position(x, y), Some(plant)))
                      && r.value.1 == CheckCompanions(g, Position(x, y), plant)
    ensures r.Ok? ==> |r.value.0.plots| == |g.plots|
                      && r.value.0.currentDay == g.currentDay && r.value.0.season == g.season
                      && forall i :: 0 <= i < |g.plots| && g.plots[i].position != Position(x, y)
                                     ==> r.value.0.plots[i] == g.plots[i]
  {
    var k := Find(g.plots, Position(x, y));
    if k == -1 then Err(PlotNotFound)
    else if !IsEmpty(g.plots[k]) then Err(PlotNotEmpty)
    else
      var plant :- NewPlant(typeName, g.currentDay);
      var position :- Positions.Create(x, y);
      var result := CheckCompanions(g, position, plant);
      var planted :- Plots.PlantSeed(g.plots[k], plant);
      var plots := g.plots[k := planted];
      FindUpdated(g.plots, k, planted);
      Ok((g.(plots := plots), result))
  }

  /** `harvestPlant`: a missing plot is an error ("Invalid position"); an
      empty plot or one whose plant is not harvestable yields nothing and
      leaves the garden alone; otherwise the plant is taken out. */
  function HarvestPlant(g: Garden, x: int, y: int): (r: Result<(Garden, Option<Plant>)>)
    ensures GetPlot(g, x, y).None? <==> r == Err(PlotNotFound)
    ensures r.Ok? && r.value.1.None? ==> r.value.0 == g
    ensures r.Ok? ==> (r.value.1.Some? <==> GetPlot(g, x, y).value.plant.Some?
                                             && PlantIsHarvestable(GetPlot(g, x, y).value.plant.value))
    ensures r.Ok? && r.value.1.Some? ==>
              r.value.1 == GetPlot(g, x, y).value.plant
              && GetPlot(r.value.0, x, y) == Some(Plot(Position(x, y), None))
              && |r.value.0.plots| == |g.plots|
              && r.value.0.currentDay == g.currentDay && r.value.0.season == g.season
              && forall i :: 0 <= i < |g.plots| && g.plots[i].position != Position(x, y)
                             ==> r.value.0.plots[i] == g.plots[i]
  {
    var k := Find(g.plots, Position(x, y));
    if k == -1 then Err(PlotNotFound)
    else
      var plot := g.plots[k];
      if IsEmpty(plot) || !PlantIsHarvestable(plot.plant.value) then Ok((g, None))
      else
        var (emptied, removed) := RemovePlant(plot);
        var plots := g.plots[k := emptied];
        FindUpdated(g.plots, k, emptied);
        Ok((g.(plots := plots), removed))
  }

  /** The garden's shape (which positions have plots) is kept by planting
      and harvesting. */
  predicate SamePositions(a: Garden, b: Garden) {
    |a.plots| == |b.plots| && forall i :: 0 <= i < |a.plots| ==> a.plots[i].position == b.plots[i].position
  }

  lemma PlantSeedKeepsShape(g: Garden, x: int, y: int, typeName: string)
    requires Keyed(g.plots)
    requires PlantSeed(g, x, y, typeName).Ok?
    ensures SamePositions(g, PlantSeed(g, x, y, typeName).value.0)
    ensures Keyed(PlantSeed(g, x, y, typeName).value.0.plots)
  {
    var h := PlantSeed(g, x, y, typeName).value.0;
    OnePlotChanged(g.plots, h.plots, Position(x, y));
  }

  lemma HarvestKeepsShape(g: Garden, x: int, y: int)
    requires Keyed(g.plots)
    requires HarvestPlant(g, x, y).Ok?
    ensures SamePositions(g, HarvestPlant(g, x, y).value.0)
    ensures Keyed(HarvestPlant(g, x, y).value.0.plots)
  {
    var h := HarvestPlant(g, x, y).value.0;
    if HarvestPlant(g, x, y).value.1.Some? {
      OnePlotChanged(g.plots, h.plots, Position(x, y));
    }
  }

  /** Replacing the plot at one position by another plot at that position
      keeps the positions, and so keeps them distinct. */
  lemma OnePlotChanged(a: seq<Plot>, b: seq<Plot>, p: Position)
    requires Keyed(a) && |b| == |a|
    requires exists i :: 0 <= i < |b| && b[i].position == p
    requires forall i :: 0 <= i < |a| && a[i].position != p ==> b[i] == a[i]
    ensures forall i :: 0 <= i < |a| ==> b[i].position == a[i].position
    ensures Keyed(b)
  {
    var j :| 0 <= j < |b| && b[j].position == p;
    if a[j].position != p {
      assert false;
    }
    forall i | 0 <= i < |a|
      ensures b[i].position == a[i].position
    {
      if a[i].position != p {
        assert b[i] == a[i];
      } else {
        assert i == j;
      }
    }
  }

  /** A plot that stored data places off the grid is found, but planting
      there fails at `Position.create`. */
  lemma OffGridPlotCannotBePlanted()
    ensures var g := FromData(GardenData([Plot(Position(5, 0), None)], 1, Spring));
            GetPlot(g, 5, 0).Some? && PlantSeed(g, 5, 0, "tomato") == Err(InvalidPosition)
  {
    var g := FromData(GardenData([Plot(Position(5, 0), None)], 1, Spring));
    LoadKeyed([Plot(Position(5, 0), None)]);
    assert g.plots[0].position == Position(5, 0);
    assert FromName("tomato").Ok? by {
      assert Strings.ToLower("tomato") == "tomato";
    }
  }

  // ---------------------------------------------------------------------
  // advanceDay: the calendar

  /** The day counter and the season. */
  datatype Calendar = Calendar(day: int, season: Season)

  /** `advanceDay`'s calendar step: the day goes up by one and, on every
      day 30k + 1 after the first, the season moves to the next place in
      the schema's list. Dafny's `%` agrees with JavaScript's here, since
      the test also asks for a day above 1. */
  function Tick(c: Calendar): (r: Calendar)
    ensures r.day == c.day + 1
    ensures r.season == (if r.day > 1 && r.day % DaysPerSeason == 1 then NextSeason(c.season) else c.season)
  {
    var day := c.day + 1;
    if day % DaysPerSeason == 1 && day > 1 then
      var idx := IndexOf(SeasonOrder, c.season);
      assert c.season in SeasonOrder by {
        assert SeasonOrder[SeasonIndex(c.season)] == c.season;
      }
      NextSeasonInOrder(idx);
      Calendar(day, SeasonOrder[(idx + 1) % 4])
    else Calendar(day, c.season)
  }

  /** `advanceDay` on the garden's calendar; the plots are untouched here
      (their growth is outside the model). */
  function AdvanceDay(g: Garden): (r: Garden)
    ensures r.plots == g.plots
    ensures Calendar(r.currentDay, r.season) == Tick(Calendar(g.currentDay, g.season))
  {
    var c := Tick(Calendar(g.currentDay, g.season));
    g.(currentDay := c.day, season := c.season)
  }

  /** `Tick` applied `n` times. */
  function Ticks(c: Calendar, n: nat): Calendar
    decreases n
  {
    if n == 0 then c else Tick(Ticks(c, n - 1))
  }

  /** Among the days after `m - 1`, day `m` starts a season exactly when it
      completes a block of 30. */
  lemma SeasonBoundary(m: int)
    requires m >= 1
    ensures m / DaysPerSeason - (m - 1) / DaysPerSeason == (if (m + 1) % DaysPerSeason == 1 then 1 else 0)
  {
  }

  /** Moving `k` seasons on lands `k` places further in the list, modulo
      its length. */
  lemma {:induction false} ShiftSeasonIndex(s: Season, k: nat)
    ensures ShiftSeason(s, k) == SeasonOrder[(SeasonIndex(s) + k) % 4]
  {
    if k > 0 {
      ShiftSeasonIndex(s, k - 1);
      var m := (SeasonIndex(s) + k - 1) % 4;
      NextSeasonInOrder(m);
      assert (m + 1) % 4 == (SeasonIndex(s) + k) % 4;
    }
  }

  /** How many of the days `d + 1` to `d + n` start a new season. */
  function Rollovers(d: int, n: nat): nat {
    if n == 0 then 0
    else Rollovers(d, n - 1) + (if d + n > 1 && (d + n) % DaysPerSeason == 1 then 1 else 0)
  }

  /** From day `d >= 1` the count has a closed form: the blocks of 30 days
      completed. */
  lemma {:induction false} RolloversClosedForm(d: int, n: nat)
    requires d >= 1
    ensures Rollovers(d, n) == (d + n - 1) / DaysPerSeason - (d - 1) / DaysPerSeason
  {
    if n > 0 {
      RolloversClosedForm(d, n - 1);
      SeasonBoundary(d + n - 1);
    }
  }

  /** After `n` days the season has moved on once for every day that
      started a season, cycling through the four seasons. */
  lemma {:induction false} SeasonsCycle(c: Calendar, n: nat)
    ensures Ticks(c, n).day == c.day + n
    ensures Ticks(c, n).season == ShiftSeason(c.season, Rollovers(c.day, n))
  {
    if n > 0 {
      SeasonsCycle(c, n - 1);
    }
  }

  /** A new garden spends 30 days in each season: after `n` days it is in
      season number `(n / 30) mod 4`. */
  lemma NewGardenSeasons(n: nat)
    ensures Ticks(Calendar(Create().currentDay, Create().season), n) == Calendar(1 + n, SeasonOrder[(n / DaysPerSeason) % 4])
  {
    assert Calendar(Create().currentDay, Create().season) == Calendar(1, Spring);
    FromFirstSpringDay(n);
  }

  lemma RolloversFromDayOne(n: nat)
    ensures Rollovers(1, n) == n / DaysPerSeason
  {
    RolloversClosedForm(1, n);
    assert 1 + n - 1 == n && (1 - 1) / DaysPerSeason == 0;
  }

  lemma ShiftFromSpring(k: nat)
    ensures ShiftSeason(Spring, k) == SeasonOrder[k % 4]
  {
    ShiftSeasonIndex(Spring, k);
  }

  /** From day 1 of spring, after `n` days. */
  lemma FromFirstSpringDay(n: nat)
    ensures Ticks(Calendar(1, Spring), n) == Calendar(1 + n, SeasonOrder[(n / DaysPerSeason) % 4])
  {
    var k := n / DaysPerSeason;
    RolloversFromDayOne(n);
    SeasonsCycle(Calendar(1, Spring), n);
    ShiftFromSpring(k);
    var t := Ticks(Calendar(1, Spring), n);
    assert t.day == 1 + n && t.season == SeasonOrder[k % 4];
  }
}
