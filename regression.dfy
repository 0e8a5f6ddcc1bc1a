/**
  The cases of gameoflife_test.go, and a few more small grids, worked out
  on the model: lemmas for the rule and client methods for the engine.
 */
module Regression {
  import opened Rules
  import opened Evolution
  import opened GameOfLife

  const T := true
  const F := false

  /** Three live cells in the first column of a 3 x 3 grid. */
  const Column: Grid := [[T, F, F], [T, F, F], [T, F, F]]
  const AllLive: Grid := [[T, T, T], [T, T, T], [T, T, T]]

  /** Every cell of the column grid sees exactly 3 live cells around it, so the whole grid comes alive. */
  lemma ColumnBecomesAllLive()
    ensures LookupsInBounds(Column)
    ensures Tick(Column) == AllLive
  {
    RowsNonEmptyInBounds(Column);
    forall i, j | 0 <= i < 3 && 0 <= j < 3 ensures NeighbourCount(Column, i, j) == (if j == 0 then 2 else 3) {
      NeighbourCountIsEightNeighbours(Column, i, j);
    }
    forall i | 0 <= i < 3 ensures Tick(Column)[i] == AllLive[i] {
      forall j | 0 <= j < 3 ensures Tick(Column)[i][j] {
        TickAt(Column, i, j);
      }
    }
  }

  const Lonely: Grid := [[F, F, F], [F, T, F], [F, F, F]]
  const AllDead3: Grid := [[F, F, F], [F, F, F], [F, F, F]]

  /** A single live cell in a 3 x 3 grid has no live neighbour and dies; no cell has 3 and none is born. */
  lemma LonelyCellDies()
    ensures LookupsInBounds(Lonely)
    ensures Tick(Lonely) == AllDead3
  {
    RowsNonEmptyInBounds(Lonely);
    forall i, j | 0 <= i < 3 && 0 <= j < 3 ensures NeighbourCount(Lonely, i, j) == (if i == 1 && j == 1 then 0 else 1) {
      NeighbourCountIsEightNeighbours(Lonely, i, j);
    }
    forall i | 0 <= i < 3 ensures Tick(Lonely)[i] == AllDead3[i] {
      forall j | 0 <= j < 3 ensures !Tick(Lonely)[i][j] {
        TickAt(Lonely, i, j);
      }
    }
  }

  /**
    Extinction is judged on the grid before the tick: on a 1 x 3 grid one
    live cell is seen 3 times by each other cell through the wrap, so the
    grid comes fully alive, and yet life is marked dead and stays so.
   */
  lemma ExtinctionUsesOldCensus(n: nat)
    requires n >= 1
    ensures Run(EngineState([[T, F, F]], false), n) == EngineState([[T, T, T]], true)
  {
    var g: Grid := [[T, F, F]];
    RowsNonEmptyInBounds(g);
    forall j | 0 <= j < 3 ensures NeighbourCount(g, 0, j) == (if j == 0 then 2 else 3) {
      NeighbourCountIsEightNeighbours(g, 0, j);
    }
    forall j | 0 <= j < 3 ensures Tick(g)[0][j] {
      TickAt(g, 0, j);
    }
    assert Tick(g)[0] == [T, T, T];
    assert Tick(g) == [[T, T, T]];
    assert Census(g) == 1 by {
      assert CountRow([T]) == 1 by { assert [T][..0] == []; }
      assert CountRow([T, F]) == 1 by { assert [T, F][..1] == [T]; }
      assert CountRow([T, F, F]) == 1 by { assert [T, F, F][..2] == [T, F]; }
      assert g[..0] == [];
    }
    ExtinctionFreezes(EngineState(g, false), n);
  }

  /** A live cell below an empty row: the lookup above it indexes that empty row, so the tick would panic. */
  lemma EmptyRowAboveCellFails()
    ensures !LookupsInBounds([[], [T]])
  {
    assert !RowLookupsInBounds([[], [T]], 1);
  }

  /** Setting the state twice: the second call fails and the first grid stays. */
  method StateChange()
  {
    var en := new Engine();
    var grid: Grid := [[T, T], [T, T]];
    var r1 := en.SetInitialState(grid);
    var r2 := en.SetInitialState(grid);
    assert r1 == Pass;
    assert r2 == Fail(StateAlreadySet) && en.state == grid;
  }

  /** A fast-forward on an engine without state fails and changes nothing. */
  method TicksOnEmptyState()
  {
    var en := new Engine();
    var r := en.GetStateAfterTicks(1);
    assert r == Err(EmptyState) && en.state == [];
  }

  /** One tick of the column grid through the engine gives the all-live grid. */
  method DoTickThroughEngine()
  {
    var en := new Engine();
    var _ := en.SetInitialState(Column);
    ColumnBecomesAllLive();
    var r := en.GetStateAfterTicks(1);
    assert r == Ok(AllLive);
  }

  /** Listening on an engine without state fails and registers nothing. */
  method ListenEmptyState()
  {
    var en := new Engine();
    var r := en.ListenState(0);
    assert r == Fail(EmptyState) && en.listeners == {};
  }

  const Sample: Grid := [[F, T, F], [F, T, T], [F, T, F]]

  /** One second at 3 ticks per second gives the grid of 3 ticks. */
  method SecondsMatchTicks()
  {
    var en1 := new Engine();
    var en2 := new Engine();
    var _ := en1.SetInitialState(Sample);
    var _ := en2.SetInitialState(Sample);
    en1.ticksPerSecond := 3;
    RowsNonEmptyInBounds(Sample);
    var r1 := en1.GetStateAfterSeconds(1);
    var r2 := en2.GetStateAfterTicks(3);
    assert r1 == r2 && r1.Ok?;
  }

  /** With a listener registered, a fast-forward is refused and the state is kept. */
  method ChangeWithListeners()
  {
    var en := new Engine();
    var _ := en.SetInitialState(Sample);
    var l := en.ListenState(0);
    assert l == Pass;
    var r := en.GetStateAfterSeconds(1);
    assert r == Err(ListenersActive) && en.state == Sample;
  }
}
