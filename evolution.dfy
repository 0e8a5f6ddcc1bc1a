/**
  What the engine's state does over time, as functions: one `doTick`, a
  run of ticks, and the outcome of a fast-forward request with its guards.
  The methods of class GameOfLife.Engine are proved to follow these.
 */
module Evolution {
  import opened Rules

  /** Go's `uint`, taken as 64 bits wide. */
  const UintLimit: nat := 0x1_0000_0000_0000_0000
  type Uint = x: nat | x < UintLimit

  /** Go's `uint8`, the type of the ticks-per-second setting. */
  type Uint8 = x: nat | x < 256

  /** `a * b` in Go's `uint` arithmetic, which wraps modulo 2^64. */
  function MulUint(a: Uint, b: Uint): (r: Uint)
    ensures a * b < UintLimit ==> r == a * b
  {
    (a * b) % UintLimit
  }

  /** The two fields a tick reads and writes. */
  datatype EngineState = EngineState(state: Grid, lifeIsDead: bool)

  /** A tick of this state cannot index an empty row. */
  predicate CanTick(e: EngineState)
  {
    e.lifeIsDead || LookupsInBounds(e.state)
  }

  /**
    One `doTick`: nothing once life is dead; otherwise the next generation,
    and life is marked dead when the grid it started from (not the new one)
    held fewer than 3 live cells.
   */
  function Step(e: EngineState): (r: EngineState)
    requires CanTick(e)
    ensures CanTick(r)
    ensures SameShape(r.state, e.state)
  {
    if e.lifeIsDead then e
    else EngineState(Tick(e.state), Census(e.state) < 3)
  }

  /** `n` ticks in a row. */
  function Run(e: EngineState, n: nat): (r: EngineState)
    requires n == 0 || CanTick(e)
    ensures CanTick(e) ==> CanTick(r)
    decreases n
  {
    if n == 0 then e else Run(Step(e), n - 1)
  }

  /** One more tick after a run of `n` is a run of `n + 1`. */
  lemma {:induction false} RunSucc(e: EngineState, n: nat)
    requires CanTick(e)
    ensures Run(e, n + 1) == Step(Run(e, n))
    decreases n
  {
    if n > 0 {
      RunSucc(Step(e), n - 1);
    }
  }

  /** A run of `m + n` ticks is a run of `m` followed by a run of `n`. */
  lemma {:induction false} RunAdd(e: EngineState, m: nat, n: nat)
    requires CanTick(e)
    ensures Run(e, m + n) == Run(Run(e, m), n)
    decreases m
  {
    if m > 0 {
      RunAdd(Step(e), m - 1, n);
    }
  }

  /** Ticks change neither the number of rows nor the length of any row. */
  lemma {:induction false} RunKeepsShape(e: EngineState, n: nat)
    requires n == 0 || CanTick(e)
    ensures SameShape(Run(e, n).state, e.state)
    decreases n
  {
    if n > 0 {
      RunKeepsShape(Step(e), n - 1);
    }
  }

  /** Once life is dead, any number of ticks leaves the state exactly as it is. */
  lemma {:induction false} FrozenRun(e: EngineState, n: nat)
    requires e.lifeIsDead
    ensures Run(e, n) == e
    decreases n
  {
    if n > 0 {
      FrozenRun(e, n - 1);
    }
  }

  /**
    A tick of a grid with fewer than 3 live cells marks life dead, and every
    later tick then returns that same grid.
   */
  lemma ExtinctionFreezes(e: EngineState, n: nat)
    requires LookupsInBounds(e.state) && !e.lifeIsDead && Census(e.state) < 3
    requires n >= 1
    ensures Step(e).lifeIsDead
    ensures Run(e, n) == Step(e)
  {
    FrozenRun(Step(e), n - 1);
  }

  /** The errors of the engine's operations. */
  datatype Error =
    | StateAlreadySet   // SetInitialState on an engine whose state has a row
    | ListenersActive   // a fast-forward while listeners are registered
    | EmptyState        // a fast-forward or ListenState before any row is set

  datatype Result<T> = Ok(value: T) | Err(error: Error)

  datatype Outcome = Pass | Fail(error: Error)

  /** A fast-forward by `ticks` from `e` cannot index an empty row. */
  predicate AdvanceSafe(e: EngineState, listening: bool, ticks: nat)
  {
    listening || |e.state| == 0 || ticks == 0 || CanTick(e)
  }

  /**
    The result of a fast-forward and the state it leaves: the listener guard
    first, then the empty-state guard, then `ticks` ticks.
   */
  function AfterTicks(e: EngineState, listening: bool, ticks: nat): (r: (Result<Grid>, EngineState))
    requires AdvanceSafe(e, listening, ticks)
    ensures listening ==> r.0 == Err(ListenersActive)
    ensures !listening && |e.state| == 0 ==> r.0 == Err(EmptyState)
    ensures r.0.Err? <==> listening || |e.state| == 0
    ensures r.0.Err? ==> r.1 == e
    ensures r.0.Ok? ==> r.0.value == r.1.state && |r.1.state| > 0
  {
    if listening then (Err(ListenersActive), e)
    else if |e.state| == 0 then (Err(EmptyState), e)
    else
      RunKeepsShape(e, ticks);
      var e' := Run(e, ticks);
      (Ok(e'.state), e')
  }

  /** Fast-forwarding by 0 ticks returns the grid unchanged. */
  lemma ZeroTicksIsIdentity(e: EngineState)
    requires |e.state| > 0
    ensures AfterTicks(e, false, 0) == (Ok(e.state), e)
  {
  }

  /** Once life is dead, every fast-forward returns the same grid and changes nothing. */
  lemma FrozenFastForward(e: EngineState, ticks: nat)
    requires e.lifeIsDead && |e.state| > 0
    ensures AfterTicks(e, false, ticks) == (Ok(e.state), e)
  {
    FrozenRun(e, ticks);
  }

  /** Fast-forwarding by `m` and then by `n` is fast-forwarding by `m + n`. */
  lemma FastForwardsCompose(e: EngineState, m: nat, n: nat)
    requires CanTick(e)
    ensures AdvanceSafe(AfterTicks(e, false, m).1, false, n)
    ensures AfterTicks(AfterTicks(e, false, m).1, false, n) == AfterTicks(e, false, m + n)
  {
    if |e.state| > 0 {
      RunAdd(e, m, n);
    }
  }
}
