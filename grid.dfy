/** The heatmap counters as a value: the grid allocated at main.py:29, the
    coordinate-to-cell mapping and bounds check of `update_heatmap`
    (main.py:81-87), and the sum of all counters. */
module Grid {
  import opened Config

  /** Counters, row-major: `Counts[row][col]`. */
  type Counts = seq<seq<nat>>

  /** `heatmap.shape`: (HEIGHT // HEATMAP_RESOLUTION, WIDTH // HEATMAP_RESOLUTION). */
  const ROWS: int := FloorDiv(HEIGHT, HEATMAP_RESOLUTION)
  const COLS: int := FloorDiv(WIDTH, HEATMAP_RESOLUTION)

  datatype Cell = Cell(row: int, col: int)

  datatype Option<T> = None | Some(value: T)

  predicate InGrid(cell: Cell)
  {
    0 <= cell.row < ROWS && 0 <= cell.col < COLS
  }

  /** g has the heatmap's shape. */
  predicate IsGrid(g: Counts)
  {
    |g| == ROWS && forall r :: 0 <= r < |g| ==> |g[r]| == COLS
  }

  /** Every counter of g is zero. */
  predicate AllZero(g: Counts)
  {
    forall r, c :: 0 <= r < |g| && 0 <= c < |g[r]| ==> g[r][c] == 0
  }

  /** The freshly allocated heatmap: ROWS x COLS zeros. */
  function Zeros(): (g: Counts)
    ensures IsGrid(g) && AllZero(g)
  {
    seq(ROWS, _ => seq(COLS, _ => 0))
  }

  /** The shipped grid is 140 rows of 200 columns. */
  lemma ShippedShape()
    ensures ROWS == 140 && COLS == 200
  {
  }

  /** `int(v // HEATMAP_RESOLUTION)` for a float coordinate v: the index of the
      band of width HEATMAP_RESOLUTION that holds v (flooring, so any v in
      (-5, 0) gives -1). */
  function GridIndex(v: real): (i: int)
    ensures (i * HEATMAP_RESOLUTION) as real <= v < ((i + 1) * HEATMAP_RESOLUTION) as real
  {
    (v / HEATMAP_RESOLUTION as real).Floor
  }

  /** The cell `update_heatmap` increments for an impact at (x, y), or None
      when the bounds check discards it. The impact is kept exactly when it
      lies on the screen, and then the cell's square holds it. */
  function CellOf(x: real, y: real): (cell: Option<Cell>)
    ensures cell.Some? <==> 0.0 <= x < WIDTH as real && 0.0 <= y < HEIGHT as real
    ensures cell.Some? ==> (InGrid(cell.value)
      && (cell.value.col * HEATMAP_RESOLUTION) as real <= x < ((cell.value.col + 1) * HEATMAP_RESOLUTION) as real
      && (cell.value.row * HEATMAP_RESOLUTION) as real <= y < ((cell.value.row + 1) * HEATMAP_RESOLUTION) as real)
  {
    var gridX := GridIndex(x);
    var gridY := GridIndex(y);
    if 0 <= gridX < COLS && 0 <= gridY < ROWS then Some(Cell(gridY, gridX)) else None
  }

  /** The boundary cases of the mapping: the bottom-right pixel is the last
      cell; a pixel just left of the screen, and y == HEIGHT, are discarded. */
  lemma CellOfEdges(x: real, y: real)
    ensures CellOf(999.0, 699.0) == Some(Cell(139, 199))
    ensures -5.0 < x < 0.0 ==> GridIndex(x) == -1 && CellOf(x, y) == None
    ensures GridIndex(HEIGHT as real) == ROWS && CellOf(x, HEIGHT as real) == None
    ensures CellOf(-1.0, 50.0) == None
  {
  }

  /** g with one counter increased by one. */
  function Increment(g: Counts, cell: Cell): (g': Counts)
    requires 0 <= cell.row < |g| && 0 <= cell.col < |g[cell.row]|
    ensures |g'| == |g| && forall r :: 0 <= r < |g| ==> |g'[r]| == |g[r]|
    ensures forall r, c :: 0 <= r < |g| && 0 <= c < |g[r]| ==>
      g'[r][c] == if Cell(r, c) == cell then g[r][c] + 1 else g[r][c]
  {
    g[cell.row := g[cell.row][cell.col := g[cell.row][cell.col] + 1]]
  }

  /** The counters after `update_heatmap` records an impact at (x, y): the
      impact's cell grows by one, every other counter is unchanged, and an
      impact off the screen changes nothing. */
  function Record(g: Counts, x: real, y: real): (g': Counts)
    requires IsGrid(g)
    ensures IsGrid(g')
    ensures CellOf(x, y) == None ==> g' == g
    ensures forall r, c :: 0 <= r < ROWS && 0 <= c < COLS ==>
      g'[r][c] == if CellOf(x, y) == Some(Cell(r, c)) then g[r][c] + 1 else g[r][c]
  {
    match CellOf(x, y)
    case None => g
    case Some(cell) => Increment(g, cell)
  }

  function RowTotal(row: seq<nat>): nat
  {
    if row == [] then 0 else row[0] + RowTotal(row[1..])
  }

  /** The sum of all counters. */
  function Total(g: Counts): nat
  {
    if g == [] then 0 else RowTotal(g[0]) + Total(g[1..])
  }

  lemma {:induction false} RowTotalIncrement(row: seq<nat>, c: int)
    requires 0 <= c < |row|
    ensures RowTotal(row[c := row[c] + 1]) == RowTotal(row) + 1
  {
    var row' := row[c := row[c] + 1];
    if c == 0 {
      assert row'[1..] == row[1..];
    } else {
      assert row'[1..] == row[1..][c - 1 := row[c] + 1];
      RowTotalIncrement(row[1..], c - 1);
    }
  }

  /** Incrementing one counter adds exactly one to the sum. */
  lemma {:induction false} TotalIncrement(g: Counts, cell: Cell)
    requires 0 <= cell.row < |g| && 0 <= cell.col < |g[cell.row]|
    ensures Total(Increment(g, cell)) == Total(g) + 1
  {
    var g' := Increment(g, cell);
    if cell.row == 0 {
      assert g'[0] == g[0][cell.col := g[0][cell.col] + 1];
      RowTotalIncrement(g[0], cell.col);
      assert g'[1..] == g[1..];
    } else {
      assert g'[0] == g[0];
      assert g'[1..] == Increment(g[1..], Cell(cell.row - 1, cell.col));
      TotalIncrement(g[1..], Cell(cell.row - 1, cell.col));
    }
  }

  /** One `update_heatmap` call adds one to the sum of the counters when the
      impact is on the screen and nothing otherwise. */
  lemma RecordTotal(g: Counts, x: real, y: real)
    requires IsGrid(g)
    ensures Total(Record(g, x, y)) == Total(g) + if CellOf(x, y).Some? then 1 else 0
  {
    match CellOf(x, y)
    case None =>
    case Some(cell) => TotalIncrement(g, cell);
  }
}
