/**
  The B3/S23 rule of Conway's Game of Life as the engine applies it: on a
  toroidal grid whose rows may differ in length. These functions are the
  specification that the engine's loops (module GameOfLife) are proved
  against.
 */
module Rules {

  /** One row of cells; `true` is a live cell. */
  type Row = seq<bool>

  /** The engine's state: rows of cells, not necessarily of equal length. */
  type Grid = seq<Row>

  /**
    The index wrap the engine uses for rows and for columns alike: an index
    below 0 goes to the last index, an index at or past the end goes to 0.
    For indices at most one step outside the range this is wrap-around
    modulo `n`; further out it is not (every index past the end goes to 0).
   */
  function Wrap(n: nat, k: int): (r: nat)
    requires n > 0 && k >= -1
    ensures r < n
    ensures 0 <= k < n ==> r == k
  {
    if k < 0 then n - 1 else if k >= n then 0 else k
  }

  /** Within one step of the range, the wrap is toroidal: arithmetic modulo `n`. */
  lemma WrapIsModulo(n: nat, k: int)
    requires n > 0 && -1 <= k <= n
    ensures Wrap(n, k) == k % n
  {
  }

  /**
    Every lookup made while counting neighbours is inside the grid: the
    rows above and below (wrapped) any row that holds a cell are themselves
    non-empty. When it fails, the engine indexes an empty row and panics.
   */
  predicate LookupsInBounds(g: Grid)
  {
    forall i :: 0 <= i < |g| ==> RowLookupsInBounds(g, i)
  }

  /** If row `i` holds a cell, the rows above and below it (wrapped) are non-empty. */
  predicate RowLookupsInBounds(g: Grid, i: nat)
    requires i < |g|
  {
    |g[i]| > 0 ==> |g[Wrap(|g|, i - 1)]| > 0 && |g[Wrap(|g|, i + 1)]| > 0
  }

  predicate RowsNonEmpty(g: Grid)
  {
    forall i :: 0 <= i < |g| ==> |g[i]| > 0
  }

  /** A grid without empty rows never makes the neighbour lookup fail. */
  lemma RowsNonEmptyInBounds(g: Grid)
    requires RowsNonEmpty(g)
    ensures LookupsInBounds(g)
  {
  }

  /** Cells of the same shape: as many rows, each of the same length. */
  predicate SameShape(a: Grid, b: Grid)
  {
    |a| == |b| && forall i :: 0 <= i < |a| ==> |a[i]| == |b[i]|
  }

  /** `LookupsInBounds` depends on the shape of the grid alone. */
  lemma SameShapeInBounds(a: Grid, b: Grid)
    requires SameShape(a, b) && LookupsInBounds(a)
    ensures LookupsInBounds(b)
  {
    forall i | 0 <= i < |b|
      ensures RowLookupsInBounds(b, i)
    {
      assert RowLookupsInBounds(a, i);
    }
  }

  /**
    The cell at offset (di, dj) from cell (row, col): the row index wraps
    against the number of rows, the column index against the length of the
    wrapped row (not of row `row`).
   */
  function Neighbour(g: Grid, row: nat, col: nat, di: int, dj: int): bool
    requires LookupsInBounds(g) && row < |g| && col < |g[row]|
    requires -1 <= di <= 1 && -1 <= dj <= 1
  {
    assert RowLookupsInBounds(g, row);
    var x := Wrap(|g|, row + di);
    g[x][Wrap(|g[x]|, col + dj)]
  }

  function Bit(b: bool): nat
  {
    if b then 1 else 0
  }

  /**
    Live neighbours of (row, col) among the first `n` column offsets
    (-1, 0, 1 in that order) of row offset `di`, skipping the cell itself.
   */
  function ScannedInRow(g: Grid, row: nat, col: nat, di: int, n: nat): nat
    requires LookupsInBounds(g) && row < |g| && col < |g[row]|
    requires -1 <= di <= 1 && n <= 3
  {
    if n == 0 then 0
    else
      var centre := di == 0 && n == 2;
      ScannedInRow(g, row, col, di, n - 1) + (if centre then 0 else Bit(Neighbour(g, row, col, di, n - 2)))
  }

  /** Live neighbours of (row, col) in the first `m` row offsets (-1, 0, 1 in that order). */
  function Scanned(g: Grid, row: nat, col: nat, m: nat): nat
    requires LookupsInBounds(g) && row < |g| && col < |g[row]|
    requires m <= 3
  {
    if m == 0 then 0 else Scanned(g, row, col, m - 1) + ScannedInRow(g, row, col, m - 2, 3)
  }

  /** Number of live neighbours of (row, col), in the order the engine visits them. */
  function NeighbourCount(g: Grid, row: nat, col: nat): nat
    requires LookupsInBounds(g) && row < |g| && col < |g[row]|
  {
    Scanned(g, row, col, 3)
  }

  /** Number of live cells among the eight cells around (row, col), one term per offset. */
  function EightNeighbours(g: Grid, row: nat, col: nat): nat
    requires LookupsInBounds(g) && row < |g| && col < |g[row]|
  {
    Bit(Neighbour(g, row, col, -1, -1)) + Bit(Neighbour(g, row, col, -1, 0)) + Bit(Neighbour(g, row, col, -1, 1))
    + Bit(Neighbour(g, row, col, 0, -1)) + Bit(Neighbour(g, row, col, 0, 1))
    + Bit(Neighbour(g, row, col, 1, -1)) + Bit(Neighbour(g, row, col, 1, 0)) + Bit(Neighbour(g, row, col, 1, 1))
  }

  /** A full row of offsets counts its three cells, or two in the centre row. */
  lemma ScannedRow(g: Grid, row: nat, col: nat, di: int)
    requires LookupsInBounds(g) && row < |g| && col < |g[row]|
    requires -1 <= di <= 1
    ensures ScannedInRow(g, row, col, di, 3)
      == Bit(Neighbour(g, row, col, di, -1))
       + (if di == 0 then 0 else Bit(Neighbour(g, row, col, di, 0)))
       + Bit(Neighbour(g, row, col, di, 1))
  {
    assert ScannedInRow(g, row, col, di, 1) == Bit(Neighbour(g, row, col, di, -1));
  }

  /**
    The scan visits each of the eight neighbours exactly once and never the
    cell itself; in particular between 0 and 8 neighbours are live.
   */
  lemma NeighbourCountIsEightNeighbours(g: Grid, row: nat, col: nat)
    requires LookupsInBounds(g) && row < |g| && col < |g[row]|
    ensures NeighbourCount(g, row, col) == EightNeighbours(g, row, col)
    ensures NeighbourCount(g, row, col) <= 8
  {
    ScannedRow(g, row, col, -1);
    ScannedRow(g, row, col, 0);
    ScannedRow(g, row, col, 1);
    assert Scanned(g, row, col, 1) == ScannedInRow(g, row, col, -1, 3);
    assert Scanned(g, row, col, 2) == Scanned(g, row, col, 1) + ScannedInRow(g, row, col, 0, 3);
    assert Scanned(g, row, col, 3) == Scanned(g, row, col, 2) + ScannedInRow(g, row, col, 1, 3);
  }

  /** B3/S23: a live cell survives with 2 or 3 live neighbours, a dead cell is born with exactly 3. */
  function NextCell(alive: bool, n: nat): bool
  {
    if alive then n == 2 || n == 3 else n == 3
  }

  /** Row `i` of the next generation. */
  function TickRow(g: Grid, i: nat): (r: Row)
    requires LookupsInBounds(g) && i < |g|
    ensures |r| == |g[i]|
  {
    seq(|g[i]|, j requires 0 <= j < |g[i]| => NextCell(g[i][j], NeighbourCount(g, i, j)))
  }

  /** One generation: every cell follows the rule, reading only the old grid. */
  function Tick(g: Grid): (r: Grid)
    requires LookupsInBounds(g)
    ensures SameShape(r, g)
    ensures LookupsInBounds(r)
  {
    var r := seq(|g|, i requires 0 <= i < |g| => TickRow(g, i));
    SameShapeInBounds(g, r);
    r
  }

  /** Number of live cells in a row. */
  function CountRow(r: Row): (n: nat)
    ensures n <= |r|
  {
    if r == [] then 0 else CountRow(r[..|r| - 1]) + Bit(r[|r| - 1])
  }

  /** Number of live cells in a grid, counted row by row as the engine scans it. */
  function Census(g: Grid): nat
  {
    if g == [] then 0 else Census(g[..|g| - 1]) + CountRow(g[|g| - 1])
  }

  /** The row count is the multiplicity of `true` among the row's cells. */
  lemma {:induction false} CountRowIsMultiplicity(r: Row)
    ensures CountRow(r) == multiset(r)[true]
  {
    if r != [] {
      var init := r[..|r| - 1];
      CountRowIsMultiplicity(init);
      assert r == init + [r[|r| - 1]];
    }
  }

  /** A grid counts no live cell exactly when every cell is dead. */
  lemma {:induction false} CensusZeroIffAllDead(g: Grid)
    ensures Census(g) == 0 <==> AllDead(g)
  {
    if g != [] {
      var init, last := g[..|g| - 1], g[|g| - 1];
      CensusZeroIffAllDead(init);
      CountRowIsMultiplicity(last);
      if Census(g) == 0 {
        forall i, j | 0 <= i < |g| && 0 <= j < |g[i]| ensures !g[i][j] {
          if i < |g| - 1 {
            assert g[i] == init[i];
          } else {
            assert last[j] in multiset(last);
          }
        }
      } else if CountRow(last) > 0 {
        assert true in multiset(last);
        var j :| 0 <= j < |last| && last[j];
        assert g[|g| - 1][j];
      } else {
        var i, j :| 0 <= i < |init| && 0 <= j < |init[i]| && init[i][j];
        assert g[i][j];
      }
    }
  }

  /** Every cell of the grid is dead. */
  predicate AllDead(g: Grid)
  {
    forall i, j :: 0 <= i < |g| && 0 <= j < |g[i]| ==> !g[i][j]
  }

  /**
    Each cell of the next generation follows the rule applied to the cell
    and its neighbour count in the old grid, and to nothing else.
   */
  lemma TickAt(g: Grid, i: nat, j: nat)
    requires LookupsInBounds(g) && i < |g| && j < |g[i]|
    ensures j < |Tick(g)[i]|
    ensures Tick(g)[i][j] == NextCell(g[i][j], NeighbourCount(g, i, j))
  {
  }

  /** In a grid with no live cell every cell counts no live neighbour. */
  lemma DeadNeighbourCount(g: Grid, row: nat, col: nat)
    requires LookupsInBounds(g) && row < |g| && col < |g[row]|
    requires AllDead(g)
    ensures NeighbourCount(g, row, col) == 0
  {
    NeighbourCountIsEightNeighbours(g, row, col);
  }

  /** A grid with no live cell is left unchanged by a generation: nothing is born. */
  lemma DeadGridIsFixedPoint(g: Grid)
    requires LookupsInBounds(g) && AllDead(g)
    ensures Tick(g) == g
  {
    var r := Tick(g);
    forall i | 0 <= i < |g| ensures r[i] == g[i] {
      forall j | 0 <= j < |g[i]| ensures r[i][j] == g[i][j] {
        DeadNeighbourCount(g, i, j);
        TickAt(g, i, j);
      }
    }
  }
}
