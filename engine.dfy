/**
  The engine of gameoflife.go: an object holding the grid, the extinction
  flag, the ticks-per-second setting and the registered listeners, with
  the operations that read and update them in place.
 */
module GameOfLife {
  import opened Rules
  import opened Evolution

  /** The identity of the `context.Context` value a listener is keyed by. */
  type Context = nat

  /**
    The `countLiveNeighbours` closure of `doTick`: visits the 3 x 3 block
    around (row, col) row by row, skips the centre, wraps the row index
    against the number of rows and the column index against the length of
    the wrapped row, and counts the live cells it finds.
   */
  method CountLiveNeighbours(state: Grid, row: nat, col: nat) returns (alive: nat)
    requires LookupsInBounds(state) && row < |state| && col < |state[row]|
    ensures alive == NeighbourCount(state, row, col)
  {
    alive := 0;
    var i: int := row - 1;
    while i <= row + 1
      invariant row - 1 <= i <= row + 2
      invariant alive == Scanned(state, row, col, i - row + 1)
    {
      var j: int := col - 1;
      while j <= col + 1
        invariant col - 1 <= j <= col + 2
        invariant alive == Scanned(state, row, col, i - row + 1) + ScannedInRow(state, row, col, i - row, j - col + 1)
      {
        // the `continue` on the centre cell
        if !(i == row && j == col) {
          var x: int, y: int;
          if i < 0 {
            x := |state| - 1;
          } else if i >= |state| {
            x := 0;
          } else {
            x := i;
          }
          assert x == Wrap(|state|, i) && RowLookupsInBounds(state, row);
          if j < 0 {
            y := |state[x]| - 1;
          } else if j >= |state[x]| {
            y := 0;
          } else {
            y := j;
          }
          if state[x][y] {
            alive := alive + 1;
          }
        }
        j := j + 1;
      }
      i := i + 1;
    }
  }

  /**
    `copyState`: rebuilds the grid row by row, cell by cell.
   */
  method CopyState(src: Grid) returns (dest: Grid)
    ensures dest == src
  {
    dest := seq(|src|, _ => []);
    for i := 0 to |src|
      invariant |dest| == |src|
      invariant forall k :: 0 <= k < i ==> dest[k] == src[k]
    {
      var row: Row := seq(|src[i]|, _ => false);
      for j := 0 to |src[i]|
        invariant |row| == |src[i]|
        invariant row[..j] == src[i][..j]
      {
        row := row[j := src[i][j]];
      }
      assert row == row[..|src[i]|];
      dest := dest[i := row];
    }
  }

  /**
    The inner loop of `doTick` over the cells of row `i`: `row` starts as
    the copy of that row and is edited in place; a live cell is cleared
    unless it has 2 or 3 live neighbours and a dead cell is set when it has
    exactly 3, each decided on the old grid `s`. Also counts the live cells
    of the old row.
   */
  method UpdateRow(s: Grid, i: nat, row: Row) returns (updated: Row, alive: nat)
    requires LookupsInBounds(s) && i < |s| && row == s[i]
    ensures updated == TickRow(s, i)
    ensures alive == CountRow(s[i])
  {
    updated, alive := row, 0;
    for j := 0 to |s[i]|
      invariant |updated| == |s[i]|
      invariant forall m :: 0 <= m < j ==> updated[m] == TickRow(s, i)[m]
      invariant forall m :: j <= m < |s[i]| ==> updated[m] == s[i][m]
      invariant alive == CountRow(s[i][..j])
    {
      var aliveNeighbours := CountLiveNeighbours(s, i, j);
      assert s[i][..j + 1] == s[i][..j] + [s[i][j]];
      if s[i][j] {
        alive := alive + 1;
        if aliveNeighbours < 2 || aliveNeighbours > 3 {
          updated := updated[j := false];
        }
      } else {
        if aliveNeighbours == 3 {
          updated := updated[j := true];
        }
      }
    }
    assert s[i][..|s[i]|] == s[i];
  }

  class Engine {
    var ticksPerSecond: Uint8
    var state: Grid
    var lifeIsDead: bool
    var listeners: set<Context>

    /** The fields a tick reads and writes. */
    function Snapshot(): EngineState
      reads this
    {
      EngineState(state, lifeIsDead)
    }

    /** `NewEngine`: no state, 10 ticks per second, no listeners, life not dead. */
    constructor ()
      ensures ticksPerSecond == 10 && state == [] && !lifeIsDead && listeners == {}
    {
      ticksPerSecond := 10;
      state := [];
      lifeIsDead := false;
      listeners := {};
    }

    /** Stores the grid as given, unless the engine's state already has a row. */
    method SetInitialState(s: Grid) returns (res: Outcome)
      modifies this`state
      ensures |old(state)| > 0 ==> res == Fail(StateAlreadySet) && state == old(state)
      ensures |old(state)| == 0 ==> res == Pass && state == s
    {
      if |state| > 0 {
        return Fail(StateAlreadySet);
      }
      state := s;
      return Pass;
    }

    /** A fast-forward by `seconds * ticksPerSecond` ticks, in Go's wrapping `uint` arithmetic. */
    method GetStateAfterSeconds(seconds: Uint) returns (res: Result<Grid>)
      requires AdvanceSafe(Snapshot(), listeners != {}, MulUint(seconds, ticksPerSecond))
      modifies this`state, this`lifeIsDead
      ensures (res, Snapshot()) == AfterTicks(old(Snapshot()), listeners != {}, MulUint(seconds, ticksPerSecond))
    {
      res := GetStateAfterTicks(MulUint(seconds, ticksPerSecond));
    }

    /**
      Refuses while listeners are registered, then refuses on a state
      without rows; otherwise ticks `ticks` times and returns the state.
     */
    method GetStateAfterTicks(ticks: Uint) returns (res: Result<Grid>)
      requires AdvanceSafe(Snapshot(), listeners != {}, ticks)
      modifies this`state, this`lifeIsDead
      ensures (res, Snapshot()) == AfterTicks(old(Snapshot()), listeners != {}, ticks)
    {
      if listeners != {} {
        return Err(ListenersActive);
      }
      if |state| == 0 {
        return Err(EmptyState);
      }
      var i: nat := 0;
      while i < ticks
        invariant i <= ticks
        invariant ticks > 0 ==> CanTick(old(Snapshot()))
        invariant Snapshot() == Run(old(Snapshot()), i)
      {
        RunSucc(old(Snapshot()), i);
        DoTick();
        i := i + 1;
      }
      return Ok(state);
    }

    /**
      The registration half of `ListenState`: refuses on a state without
      rows, otherwise registers `ctx` as a listener.
     */
    method ListenState(ctx: Context) returns (res: Outcome)
      modifies this`listeners
      ensures |state| == 0 ==> res == Fail(EmptyState) && listeners == old(listeners)
      ensures |state| > 0 ==> res == Pass && listeners == old(listeners) + {ctx}
    {
      if |state| == 0 {
        return Fail(EmptyState);
      }
      listeners := listeners + {ctx};
      return Pass;
    }

    /**
      `doTick`: nothing once life is dead; otherwise computes every cell of
      a copy of the grid from the old grid, counting the old grid's live
      cells on the way, installs the copy and marks life dead when that
      count is below 3.
     */
    method DoTick()
      requires CanTick(Snapshot())
      modifies this`state, this`lifeIsDead
      ensures Snapshot() == Step(old(Snapshot()))
    {
      if lifeIsDead {
        return;
      }
      var s := state;
      var totalAliveCells := 0;
      var nextState := CopyState(s);
      for i := 0 to |s|
        invariant Snapshot() == old(Snapshot())
        invariant |nextState| == |s|
        invariant forall k :: 0 <= k < i ==> nextState[k] == TickRow(s, k)
        invariant forall k :: i <= k < |s| ==> nextState[k] == s[k]
        invariant totalAliveCells == Census(s[..i])
      {
        var row, alive := UpdateRow(s, i, nextState[i]);
        nextState := nextState[i := row];
        totalAliveCells := totalAliveCells + alive;
        assert s[..i + 1][..i] == s[..i];
      }
      assert s[..|s|] == s;
      assert nextState == Tick(s);
      state := nextState;
      if totalAliveCells < 3 {
        lifeIsDead := true;
      }
    }
  }
}
