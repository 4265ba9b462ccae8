/** The harvest window of a crop, in days since planting. The days are
    JavaScript numbers, so they may be fractional, infinite or NaN. */
module HarvestPeriods {
  import opened Results
  import opened Numbers

  datatype HarvestPeriod = HarvestPeriod(firstHarvestDay: Number, lastHarvestDay: Number, lifespan: Number)

  /** The window the validation is meant to guarantee:
      `0 <= first <= last <= lifespan`. */
  ghost predicate Valid(p: HarvestPeriod) {
    Le(Zero, p.firstHarvestDay) && Le(p.firstHarvestDay, p.lastHarvestDay) && Le(p.lastHarvestDay, p.lifespan)
  }

  predicate HasNaN(first: Number, last: Number, lifespan: Number) {
    first.NaN? || last.NaN? || lifespan.NaN?
  }

  /** `HarvestPeriod.create`: negative days, then ordering, then lifespan,
      each test a JavaScript comparison. Without NaN it accepts exactly the
      valid windows; a NaN day slips through every test it takes part in. */
  function Create(first: Number, last: Number, lifespan: Number): (r: Result<HarvestPeriod>)
    ensures r.Ok? ==> r.value == HarvestPeriod(first, last, lifespan)
    ensures !HasNaN(first, last, lifespan) ==> (r.Ok? <==> Valid(HarvestPeriod(first, last, lifespan)))
    ensures last.NaN? ==> (r.Ok? <==> !Lt(first, Zero) && !Lt(lifespan, Zero))
    ensures Lt(first, Zero) || Lt(last, Zero) || Lt(lifespan, Zero) ==> r == Err(InvalidHarvestPeriod(NegativeDay))
    ensures Le(Zero, first) && Le(Zero, last) && Le(Zero, lifespan) && Lt(last, first)
            ==> r == Err(InvalidHarvestPeriod(FirstAfterLast))
    ensures Le(Zero, first) && Le(first, last) && Le(Zero, lifespan) && Lt(lifespan, last)
            ==> r == Err(InvalidHarvestPeriod(LastAfterLifespan))
  {
    if Lt(first, Zero) || Lt(last, Zero) || Lt(lifespan, Zero) then Err(InvalidHarvestPeriod(NegativeDay))
    else if Lt(last, first) then Err(InvalidHarvestPeriod(FirstAfterLast))
    else if Lt(lifespan, last) then Err(InvalidHarvestPeriod(LastAfterLifespan))
    else Ok(HarvestPeriod(first, last, lifespan))
  }

  /** All-NaN days pass every test, and the period they make is not a
      valid window. */
  lemma NaNDaysAccepted()
    ensures Create(NaN, NaN, NaN) == Ok(HarvestPeriod(NaN, NaN, NaN))
    ensures !Valid(HarvestPeriod(NaN, NaN, NaN))
  {
  }

  /** Fractional days are accepted like whole ones. */
  lemma FractionalDaysAccepted()
    ensures Create(Finite(0.5), Finite(1.5), Finite(2.0)).Ok?
  {
  }

  /** Day `d` lies in the closed window. */
  predicate Contains(p: HarvestPeriod, d: real) {
    Le(p.firstHarvestDay, Finite(d)) && Le(Finite(d), p.lastHarvestDay)
  }

  /** `overlaps`: the two closed windows share a day (touching ends count). */
  function Overlaps(a: HarvestPeriod, b: HarvestPeriod): (r: bool)
    ensures (exists d :: Contains(a, d) && Contains(b, d)) ==> r
    ensures r && a.firstHarvestDay.Finite? && b.firstHarvestDay.Finite?
            && Le(a.firstHarvestDay, a.lastHarvestDay) && Le(b.firstHarvestDay, b.lastHarvestDay)
            ==> exists d :: Contains(a, d) && Contains(b, d)
  {
    var r := Le(a.firstHarvestDay, b.lastHarvestDay) && Le(b.firstHarvestDay, a.lastHarvestDay);
    if r && a.firstHarvestDay.Finite? && b.firstHarvestDay.Finite?
       && Le(a.firstHarvestDay, a.lastHarvestDay) && Le(b.firstHarvestDay, b.lastHarvestDay) then
      var d := if a.firstHarvestDay.x <= b.firstHarvestDay.x then b.firstHarvestDay.x else a.firstHarvestDay.x;
      assert Contains(a, d) && Contains(b, d);
      r
    else r
  }

  lemma OverlapsSymmetric(a: HarvestPeriod, b: HarvestPeriod)
    ensures Overlaps(a, b) == Overlaps(b, a)
  {
  }

  /** A valid window overlaps itself, including a single-day window. */
  lemma OverlapsReflexive(a: HarvestPeriod)
    requires Valid(a)
    ensures Overlaps(a, a)
  {
  }

  /** A window with a NaN end overlaps nothing, not even itself. */
  lemma NaNOverlapsNothing(a: HarvestPeriod, b: HarvestPeriod)
    requires a.firstHarvestDay.NaN? || a.lastHarvestDay.NaN?
    ensures !Overlaps(a, b) && !Overlaps(b, a)
  {
  }
}
