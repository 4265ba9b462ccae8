/** Failure-compatible result types and the one error taxonomy shared by every
    component: each exception class the system throws becomes a constructor. */
module Results {

  datatype Option<+T> = None | Some(value: T)

  /** Which validation rule a rejected value broke (the distinct messages of
      the validation errors). */
  datatype Violation =
    | Empty
    | TooLong
    | BadCharacters
    | NotFinite
    | BelowMinimum
    | NegativeDay
    | FirstAfterLast
    | LastAfterLifespan
    | NoSeason

  /** The errors the domain raises, one constructor per exception class. */
  datatype Error =
    // planting-intelligence / garden planning
    | InvalidPlantId(reason: Violation)
    | InvalidGardenArea(reason: Violation)
    | InvalidPlantSelection
    | GardenCapacityExceeded
    | IncompatibleSelectedPlants
    | NoRemainingAllocation
    | InvalidGardenSize
    // crops bounded context
    | InvalidCropName(reason: Violation)
    | InvalidHarvestPeriod(reason: Violation)
    | InvalidGrowingRequirements(reason: Violation)
    | CannotAssociateCropToItself
    | ForbiddenCompanionAssociation
    // legacy 5x5 simulation
    | InvalidPosition
    | PlotNotFound
    | PlotNotEmpty
    | PlotAlreadyPlanted
    | UnknownPlantType

  datatype Result<+T> = Ok(value: T) | Err(error: Error) {
    predicate IsFailure() {
      Err?
    }

    function PropagateFailure<U>(): Result<U>
      requires Err?
    {
      Err(error)
    }

    function Extract(): T
      requires Ok?
    {
      value
    }
  }

  /** Pass/fail outcome of a check that carries no value. */
  datatype Outcome = Pass | Fail(error: Error) {
    predicate IsFailure() {
      Fail?
    }

    function PropagateFailure<U>(): Result<U>
      requires Fail?
    {
      Err(error)
    }
  }

  /** `xs.map(f)` where `f` may throw: the first failure propagates. */
  function MapAll<T, U>(xs: seq<T>, f: T -> Result<U>): (r: Result<seq<U>>)
    ensures r.Ok? <==> forall i :: 0 <= i < |xs| ==> f(xs[i]).Ok?
    ensures r.Ok? ==> |r.value| == |xs| && forall i :: 0 <= i < |xs| ==> r.value[i] == f(xs[i]).value
    ensures r.Err? ==> exists i :: 0 <= i < |xs| && f(xs[i]) == Err(r.error)
    decreases |xs|
  {
    if |xs| == 0 then Ok([])
    else
      var head := f(xs[0]);
      var rest := MapAll(xs[1..], f);
      if head.Err? then Err(head.error)
      else if rest.Err? then Err(rest.error)
      else
        assert forall i :: 1 <= i < |xs| ==> xs[1..][i - 1] == xs[i];
        Ok([head.value] + rest.value)
  }

  /** The present values of a sequence of options, in order. */
  function Somes<T(!new)>(xs: seq<Option<T>>): (r: seq<T>)
    ensures |r| <= |xs|
    ensures forall x :: x in r <==> Some(x) in xs
    decreases |xs|
  {
    if |xs| == 0 then []
    else
      var prefix := xs[..|xs| - 1];
      var last := xs[|xs| - 1];
      assert xs == prefix + [last];
      if last.Some? then Somes(prefix) + [last.value] else Somes(prefix)
  }

  function Min(a: int, b: int): int {
    if a <= b then a else b
  }

  function Max(a: int, b: int): int {
    if a >= b then a else b
  }
}
