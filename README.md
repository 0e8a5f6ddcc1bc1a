# Game of Life engine, modelled and verified in Dafny

This project models the engine of the Go package `gameoflife`
(`gameoflife.go`). The engine runs Conway's Game of Life, rule B3/S23, on a
toroidal grid of booleans whose rows may differ in length. An `Engine` holds:

- the grid (`state`), which can be set only while it has no row;
- the flag `lifeIsDead`, set by a tick of a grid with fewer than 3 live cells;
  after that every tick does nothing;
- the ticks-per-second setting (`uint8`, 10 by default);
- the registered listeners.

A caller fast-forwards by a number of ticks or by a number of seconds. This
is refused while a listener is registered, and refused while the grid has no
row.

Files:

- `rules.dfy`, module `Rules`: the rule as functions. It has the index wrap,
  the neighbour lookup, the neighbour count in the engine's scan order with a
  reference eight-term sum, one generation (`Tick`) and the live-cell census.
- `evolution.dfy`, module `Evolution`: one `doTick` on the two fields it
  touches (`Step`), a run of `n` ticks (`Run`), and a fast-forward with its
  two guards (`AfterTicks`). It also has the lemmas relating these and Go's
  `uint`/`uint8` types.
- `engine.dfy`, module `GameOfLife`: the class `Engine`, whose fields the
  methods update in place. It also has the loops of `countLiveNeighbours`,
  `copyState` and the per-row part of `doTick`, each proved against the
  functions of `Rules`.
- `regression.dfy`, module `Regression`: the grids of `gameoflife_test.go`
  and a few more, worked out on the model. Verified client methods restate
  `TestStateChange`, `TestTicksOnEmptyState`, `TestDoTick`,
  `TestListenEmptyState`, `TestGetStateAfterSeconds` and
  `TestChangeWithListeners` against the engine's contracts.

Behaviour of the code worth knowing; the model follows the code:

- **Column wrap.** The column index wraps against the length of the wrapped
  row. Only a step of one past either end wraps. Every column at or past the
  end of a shorter row maps to column 0, which is not arithmetic modulo the
  row length (`Rules.Wrap`, `Rules.WrapIsModulo`).
- **Seconds to ticks.** `seconds * TicksPerSecond` is `uint` arithmetic. It
  wraps modulo 2^64; it is not the exact product (`Evolution.MulUint`).
- **Ticks per second of 0.** This setting is not rejected. A fast-forward by
  seconds then runs no tick.
- **Extinction.** Extinction is judged on the census of the grid before the
  tick. On small tori a tick can bring many cells alive and still freeze the
  engine: `[[T,F,F]]` becomes `[[T,T,T]]` with `lifeIsDead` set
  (`Regression.ExtinctionUsesOldCensus`).

## Model

| member | source | states |
|---|---|---|
| `Rules.LookupsInBounds` | gameoflife.go:127-135 | definition: every row that holds a cell has non-empty wrapped rows above and below it, which is exactly when no neighbour lookup indexes an empty row |
| `Rules.Neighbour` | gameoflife.go:119-135 | definition: the cell at one offset, its row index wrapped against the number of rows and its column index against the length of that wrapped row |
| `Rules.NeighbourCount` | gameoflife.go:110-142 | definition: the live cells met by the scan of the 3 x 3 block row by row, skipping the centre offset |
| `Rules.NextCell` | gameoflife.go:150-160 | definition of B3/S23: a live cell stays alive with 2 or 3 live neighbours, a dead cell comes alive with exactly 3 |
| `Rules.TickRow` | gameoflife.go:148-161 | one row of the next generation, as long as the old row, each cell decided by `NextCell` on the old grid |
| `Rules.Census` | gameoflife.go:143-151 | definition: the live cells of the grid, summed row by row as the tick counts them |
| `Rules.Wrap` | gameoflife.go:119-133 | the wrapped index is always inside the row or column it indexes, and an index already inside is kept |
| `Rules.WrapIsModulo` | gameoflife.go:119-133 | for indices at most one step outside the range the wrap is arithmetic modulo the length (toroidal) |
| `Rules.RowsNonEmptyInBounds` | gameoflife.go:127-135 | a grid without empty rows never makes a neighbour lookup index an empty row |
| `Rules.SameShapeInBounds` | gameoflife.go:119-135 | whether every lookup stays in bounds depends only on the number of rows and their lengths |
| `Rules.NeighbourCountIsEightNeighbours` | gameoflife.go:110-142 | the scan of the 3 x 3 block, skipping the centre, counts each of the eight wrapped neighbours exactly once, so the count lies in 0..8 |
| `Rules.Tick` | gameoflife.go:144-163 | the next generation has the same number of rows and every row keeps its length; its lookups stay in bounds as well |
| `Rules.TickAt` | gameoflife.go:147-163 | each new cell is the B3/S23 rule applied to the old cell and its neighbour count in the old grid |
| `Rules.CountRow` | gameoflife.go:150-151 | a row has at most as many live cells as cells |
| `Rules.CountRowIsMultiplicity` | gameoflife.go:150-151 | the live-cell count of a row is the multiplicity of `true` in it |
| `Rules.CensusZeroIffAllDead` | gameoflife.go:143-151 | the census of a grid is 0 exactly when every cell is dead (both directions) |
| `Rules.DeadNeighbourCount` | gameoflife.go:110-142 | in a grid with no live cell every neighbour count is 0 |
| `Rules.DeadGridIsFixedPoint` | gameoflife.go:147-163 | a generation leaves a grid without live cells unchanged: no cell is born |
| `GameOfLife.CountLiveNeighbours` | gameoflife.go:110-142 | the nested loop with its row and column wrap returns the neighbour count of the cell; every lookup is inside the grid |
| `GameOfLife.CopyState` | gameoflife.go:170-177 | the row-by-row, cell-by-cell copy equals the source grid |
| `GameOfLife.UpdateRow` | gameoflife.go:148-161 | editing the copied row in place gives exactly that row of the next generation, and the live cells of the old row are counted |
| `GameOfLife.Engine.constructor` | gameoflife.go:29-36 | a new engine has no state, 10 ticks per second, no listeners and life not dead |
| `GameOfLife.Engine.SetInitialState` | gameoflife.go:39-46 | fails and keeps the state when it already has a row; otherwise stores the argument as given |
| `GameOfLife.Engine.DoTick` | gameoflife.go:105-168 | the new state is one `Step` of the old: unchanged once life is dead, else the next generation, with life marked dead when the old grid had fewer than 3 live cells |
| `GameOfLife.Engine.GetStateAfterTicks` | gameoflife.go:58-71 | result and new state are `AfterTicks`: listener error, then empty-state error (nothing changed on either), else `ticks` ticks and the new grid |
| `GameOfLife.Engine.GetStateAfterSeconds` | gameoflife.go:51-53 | behaves exactly like a fast-forward by `seconds * ticksPerSecond` ticks in wrapping 64-bit arithmetic, errors included |
| `GameOfLife.Engine.ListenState` | gameoflife.go:75-102 | fails and registers nothing when the state has no row; otherwise adds the context to the (then non-empty) listener set |
| `Evolution.MulUint` | gameoflife.go:52 | the product of Go `uint`s is the exact product whenever that fits in 64 bits |
| `Evolution.Step` | gameoflife.go:105-168 | a tick keeps the grid's shape and leaves a state that can be ticked again |
| `Evolution.Run` | gameoflife.go:65-68 | a run of ticks from a tickable state ends in a tickable state |
| `Evolution.RunSucc` | gameoflife.go:65-68 | one more tick after a run of `n` ticks is the run of `n + 1` |
| `Evolution.RunAdd` | gameoflife.go:65-68 | a run of `m + n` ticks is a run of `m` followed by a run of `n` |
| `Evolution.RunKeepsShape` | gameoflife.go:144-145 | any number of ticks keeps the number of rows and every row's length |
| `Evolution.FrozenRun` | gameoflife.go:106-108 | once life is dead, any number of ticks leaves grid and flag unchanged |
| `Evolution.ExtinctionFreezes` | gameoflife.go:143-167 | a tick of a grid with fewer than 3 live cells marks life dead, and every later tick returns that same grid |
| `Evolution.AfterTicks` | gameoflife.go:58-71 | a fast-forward fails exactly when listeners are registered (`ListenersActive`, checked first) or the state has no row (`EmptyState`), and then changes nothing; on success it returns the new, non-empty state |
| `Evolution.ZeroTicksIsIdentity` | gameoflife.go:65-70 | a fast-forward by 0 ticks returns the grid unchanged |
| `Evolution.FrozenFastForward` | gameoflife.go:106-108 | after extinction every fast-forward returns the same grid and changes nothing |
| `Evolution.FastForwardsCompose` | gameoflife.go:58-71 | fast-forwarding by `m` and then by `n` ticks equals fast-forwarding by `m + n` |
| `Regression.ColumnBecomesAllLive` | gameoflife_test.go:56-73 | three live cells in a column of a 3 x 3 grid become the all-live grid after one tick |
| `Regression.LonelyCellDies` | gameoflife.go:147-163 | a single live cell in a 3 x 3 grid dies and nothing is born |
| `Regression.EmptyRowAboveCellFails` | gameoflife.go:127-135 | the grid `[[], [T]]` is outside `LookupsInBounds`: the lookup above its live cell indexes the empty row 0 |
| `Regression.ExtinctionUsesOldCensus` | gameoflife.go:143-167 | `[[T,F,F]]` becomes `[[T,T,T]]` and is frozen there, because extinction is judged on the grid before the tick |

## Left out

- The streaming driver of `ListenState` (gameoflife.go:79-98) is concurrency
  and wall-clock timing. It covers the goroutine, the `time.Ticker` and its
  floating-point interval, the channel sends and closes, and the removal of
  cancelled listeners on `ctx.Done()`. Only the empty-state guard and the
  registration are modelled, so the modelled listener set never shrinks.
- The channel that `ListenState` returns is not modelled. A context is
  represented by a number that stands for its identity.
- The timing test `TestTicksPerSecondRespected` (gameoflife_test.go:34-54)
  depends on the clock. cmd/main.go is not part of this model: command-line
  flags, a random initial grid and console printing.
- Aliasing is not modelled. Grids are values here. In Go, `SetInitialState`
  keeps the caller's slice and `GetStateAfterTicks` returns the engine's own
  slice, so later writes through either would be shared.
- GameOfLife.Engine.GetStateAfterTicks: requires that a tick which really
  runs cannot index an empty row (`LookupsInBounds`). In Go that case is an
  index-out-of-range panic, not an error value.
- GameOfLife.Engine.GetStateAfterSeconds: requires the same
  `LookupsInBounds` condition, for the same reason.
- GameOfLife.Engine.DoTick: requires the same `LookupsInBounds` condition,
  for the same reason.
- Go `int` overflow of the neighbour and live-cell counters is not modelled.
  Counts are unbounded here; a grid would need more than 2^63 cells to reach
  it.
- Go's `uint` is taken as 64 bits wide. On a 32-bit platform the product in
  `GetStateAfterSeconds` would wrap modulo 2^32 instead.
