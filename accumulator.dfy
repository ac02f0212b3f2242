/** The module-level `heatmap` array (main.py:29) with the two routines that
    touch it: `update_heatmap` (main.py:81-87), which increments one counter
    in place, and the scan of `draw_heatmap` (main.py:89-95), which reads
    every counter to pick a colour. */
module Accumulator {
  import opened Grid
  import opened Shading

  class Heatmap {
    /** The counter array, `heatmap[row, col]`. */
    const cells: array2<nat>
    /** The counters as a value. */
    ghost var Contents: Counts

    ghost predicate Valid()
      reads this, cells
    {
      && cells.Length0 == ROWS && cells.Length1 == COLS
      && IsGrid(Contents)
      && forall r, c :: 0 <= r < ROWS && 0 <= c < COLS ==> cells[r, c] == Contents[r][c]
    }

    /** `np.zeros((HEIGHT // HEATMAP_RESOLUTION, WIDTH // HEATMAP_RESOLUTION))`. */
    constructor ()
      ensures Valid() && fresh(cells)
      ensures Contents == Zeros()
      ensures forall r, c :: 0 <= r < ROWS && 0 <= c < COLS ==> cells[r, c] == 0
    {
      cells := new nat[ROWS, COLS]((r, c) => 0);
      Contents := Zeros();
    }

    /** `update_heatmap`: increment the counter of the impact's cell when that
        cell is inside the array; otherwise leave every counter as it was. */
    method Update(x: real, y: real)
      requires Valid()
      modifies this, cells
      ensures Valid()
      ensures Contents == Record(old(Contents), x, y)
      ensures forall r, c :: 0 <= r < ROWS && 0 <= c < COLS ==>
        cells[r, c] == if CellOf(x, y) == Some(Cell(r, c)) then old(cells[r, c]) + 1 else old(cells[r, c])
      ensures CellOf(x, y) == None ==> unchanged(cells)
    {
      var gridX := GridIndex(x);
      var gridY := GridIndex(y);
      if 0 <= gridX < cells.Length1 && 0 <= gridY < cells.Length0 {
        cells[gridY, gridX] := cells[gridY, gridX] + 1;
        Contents := Increment(Contents, Cell(gridY, gridX));
      }
    }

    /** `np.max(heatmap) or 1`, by scanning every counter. */
    method MaxValue() returns (maxValue: nat)
      requires Valid()
      ensures maxValue == Normaliser(Contents)
    {
      var top := 0;
      var r := 0;
      while r < cells.Length0
        invariant 0 <= r <= ROWS
        invariant forall i, j :: 0 <= i < r && 0 <= j < COLS ==> Contents[i][j] <= top
        invariant top == 0 || exists i, j :: 0 <= i < r && 0 <= j < COLS && Contents[i][j] == top
      {
        var c := 0;
        while c < cells.Length1
          invariant 0 <= c <= COLS
          invariant forall i, j :: 0 <= i < r && 0 <= j < COLS ==> Contents[i][j] <= top
          invariant forall j :: 0 <= j < c ==> Contents[r][j] <= top
          invariant top == 0
            || (exists i, j :: 0 <= i < r && 0 <= j < COLS && Contents[i][j] == top)
            || (exists j :: 0 <= j < c && Contents[r][j] == top)
        {
          if cells[r, c] > top {
            top := cells[r, c];
          }
          c := c + 1;
        }
        r := r + 1;
      }
      GridMaxUnique(Contents, top);
      maxValue := if top == 0 then 1 else top;
    }

    /** The colours `draw_heatmap` paints, cell by cell: each counter scaled
        by the normaliser, red-tinted, every channel within its range. */
    method Draw() returns (colours: seq<seq<Colour>>)
      requires Valid()
      ensures |colours| == ROWS && forall r :: 0 <= r < ROWS ==> |colours[r]| == COLS
      ensures forall r, c :: 0 <= r < ROWS && 0 <= c < COLS ==> colours[r][c] == CellColour(Contents, r, c)
      ensures forall r, c :: 0 <= r < ROWS && 0 <= c < COLS ==>
        0 <= colours[r][c].red <= 255 && 0 <= colours[r][c].green <= 50 && 0 <= colours[r][c].blue <= 50
    {
      var maxValue := MaxValue();
      colours := [];
      var r := 0;
      while r < cells.Length0
        invariant 0 <= r <= ROWS && |colours| == r
        invariant forall i :: 0 <= i < r ==> |colours[i]| == COLS
        invariant forall i, j :: 0 <= i < r && 0 <= j < COLS ==> colours[i][j] == CellColour(Contents, i, j)
      {
        var row := [];
        var c := 0;
        while c < cells.Length1
          invariant 0 <= c <= COLS && |row| == c
          invariant forall j :: 0 <= j < c ==> row[j] == CellColour(Contents, r, j)
        {
          var intensity := Intensity(cells[r, c], maxValue);
          row := row + [Shade(intensity)];
          c := c + 1;
        }
        colours := colours + [row];
        r := r + 1;
      }
      forall r, c | 0 <= r < ROWS && 0 <= c < COLS
        ensures 0 <= colours[r][c].red <= 255 && 0 <= colours[r][c].green <= 50 && 0 <= colours[r][c].blue <= 50
      {
        CellColourBounds(Contents, r, c);
      }
    }
  }
}
