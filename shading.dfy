/** The normalisation arithmetic of `draw_heatmap` (main.py:89-95): the
    largest counter (or 1 when every counter is zero) scales each counter to
    an intensity in [0, 1], which becomes a red-tinted colour. Reals are exact
    here; floating-point rounding is not modelled. */
module Shading {
  import opened Grid

  datatype Colour = Colour(red: int, green: int, blue: int)

  function Max(a: nat, b: nat): nat
  {
    if a < b then b else a
  }

  function RowMax(row: seq<nat>): nat
  {
    if row == [] then 0 else Max(row[0], RowMax(row[1..]))
  }

  /** `np.max(heatmap)` (0 for a grid with no counters): no row's largest
      counter exceeds it. */
  function GridMax(g: Counts): (m: nat)
    ensures forall r :: 0 <= r < |g| ==> RowMax(g[r]) <= m
  {
    if g == [] then 0 else Max(RowMax(g[0]), GridMax(g[1..]))
  }

  /** `np.max(heatmap) or 1`: the largest counter, or 1 when it is zero, so
      it is never a zero divisor. */
  function Normaliser(g: Counts): (norm: nat)
    ensures norm >= 1
  {
    var top := GridMax(g);
    if top == 0 then 1 else top
  }

  lemma {:induction false} RowMaxIsMax(row: seq<nat>)
    ensures forall c :: 0 <= c < |row| ==> row[c] <= RowMax(row)
    ensures RowMax(row) == 0 || exists c :: 0 <= c < |row| && row[c] == RowMax(row)
  {
    if row != [] {
      RowMaxIsMax(row[1..]);
      assert forall c :: 1 <= c < |row| ==> row[c] == row[1..][c - 1];
      if RowMax(row) != row[0] && RowMax(row) != 0 {
        var c :| 0 <= c < |row[1..]| && row[1..][c] == RowMax(row[1..]);
        assert row[c + 1] == RowMax(row);
      }
    }
  }

  /** GridMax bounds every counter and, unless it is zero, is one of them. */
  lemma {:induction false} GridMaxIsMax(g: Counts)
    ensures forall r, c :: 0 <= r < |g| && 0 <= c < |g[r]| ==> g[r][c] <= GridMax(g)
    ensures GridMax(g) == 0 || exists r, c :: 0 <= r < |g| && 0 <= c < |g[r]| && g[r][c] == GridMax(g)
  {
    if g != [] {
      RowMaxIsMax(g[0]);
      GridMaxIsMax(g[1..]);
      assert forall r :: 1 <= r < |g| ==> g[r] == g[1..][r - 1];
      if GridMax(g) != RowMax(g[0]) && GridMax(g) != 0 {
        var r, c :| 0 <= r < |g[1..]| && 0 <= c < |g[1..][r]| && g[1..][r][c] == GridMax(g[1..]);
        assert g[r + 1][c] == GridMax(g);
      }
    }
  }

  /** The normaliser is at least 1 and at least every counter; it is 1 for
      an all-zero grid and otherwise the value of some counter. */
  lemma NormaliserIsMax(g: Counts)
    ensures Normaliser(g) >= 1
    ensures forall r, c :: 0 <= r < |g| && 0 <= c < |g[r]| ==> g[r][c] <= Normaliser(g)
    ensures AllZero(g) ==> Normaliser(g) == 1
    ensures !AllZero(g) ==> exists r, c :: 0 <= r < |g| && 0 <= c < |g[r]| && g[r][c] == Normaliser(g)
  {
    GridMaxIsMax(g);
  }

  /** A bound that holds every counter and, unless it is zero, is attained
      is the largest counter: the loop that scans the grid may rely on this. */
  lemma GridMaxUnique(g: Counts, m: nat)
    requires forall r, c :: 0 <= r < |g| && 0 <= c < |g[r]| ==> g[r][c] <= m
    requires m == 0 || exists r, c :: 0 <= r < |g| && 0 <= c < |g[r]| && g[r][c] == m
    ensures m == GridMax(g)
  {
    GridMaxIsMax(g);
  }

  /** Python's `int(v)`: truncation toward zero. */
  function Trunc(v: real): (n: int)
    ensures 0.0 <= v ==> n as real <= v < n as real + 1.0
    ensures v < 0.0 ==> n as real - 1.0 < v <= n as real
  {
    if 0.0 <= v then v.Floor else -((-v).Floor)
  }

  /** `heatmap[y, x] / max_value`. */
  function Intensity(count: nat, norm: nat): (i: real)
    requires norm >= 1
    ensures 0.0 <= i
    ensures count <= norm ==> i <= 1.0
    ensures i == 0.0 <==> count == 0
    ensures i == 1.0 <==> count == norm
  {
    var i := count as real / norm as real;
    assert i * norm as real == count as real;
    i
  }

  /** `(int(255 * intensity), int(50 * intensity), int(50 * intensity))`. */
  function Shade(i: real): (colour: Colour)
    ensures 0.0 <= i <= 1.0 ==> 0 <= colour.red <= 255 && 0 <= colour.green <= 50 && 0 <= colour.blue <= 50
    ensures i == 0.0 ==> colour == Colour(0, 0, 0)
    ensures i == 1.0 ==> colour == Colour(255, 50, 50)
  {
    Colour(Trunc(255.0 * i), Trunc(50.0 * i), Trunc(50.0 * i))
  }

  /** The colour `draw_heatmap` paints for the cell at (r, c): red in
      [0, 255], green and blue in [0, 50]. */
  function CellColour(g: Counts, r: nat, c: nat): (colour: Colour)
    requires r < |g| && c < |g[r]|
    ensures 0 <= colour.red <= 255 && 0 <= colour.green <= 50 && 0 <= colour.blue <= 50
  {
    NormaliserIsMax(g);
    Shade(Intensity(g[r][c], Normaliser(g)))
  }

  /** Every cell's colour has red in [0, 255] and green and blue in [0, 50];
      a cell holding the largest non-zero counter is full (255, 50, 50), and
      an empty cell is black. */
  lemma CellColourBounds(g: Counts, r: nat, c: nat)
    requires r < |g| && c < |g[r]|
    ensures var colour := CellColour(g, r, c);
      0 <= colour.red <= 255 && 0 <= colour.green <= 50 && 0 <= colour.blue <= 50
    ensures g[r][c] == 0 ==> CellColour(g, r, c) == Colour(0, 0, 0)
    ensures g[r][c] == GridMax(g) > 0 ==> CellColour(g, r, c) == Colour(255, 50, 50)
  {
    NormaliserIsMax(g);
  }

  /** An all-zero grid divides by 1, not 0, and paints every cell black. */
  lemma AllZeroIsBlack(g: Counts)
    requires AllZero(g)
    ensures Normaliser(g) == 1
    ensures forall r, c :: 0 <= r < |g| && 0 <= c < |g[r]| ==> CellColour(g, r, c) == Colour(0, 0, 0)
  {
    NormaliserIsMax(g);
  }

  /** A cell holding more impacts is never painted a darker red. */
  lemma CellColourMonotone(g: Counts, r: nat, c: nat, r': nat, c': nat)
    requires r < |g| && c < |g[r]| && r' < |g| && c' < |g[r']|
    requires g[r][c] <= g[r'][c']
    ensures CellColour(g, r, c).red <= CellColour(g, r', c').red
    ensures CellColour(g, r, c).green <= CellColour(g, r', c').green
  {
    NormaliserIsMax(g);
    var i, i' := Intensity(g[r][c], Normaliser(g)), Intensity(g[r'][c'], Normaliser(g));
    IntensityMonotone(g[r][c], g[r'][c'], Normaliser(g));
    TruncMonotone(255.0 * i, 255.0 * i');
    TruncMonotone(50.0 * i, 50.0 * i');
  }

  lemma IntensityMonotone(a: nat, b: nat, norm: nat)
    requires a <= b && norm >= 1
    ensures Intensity(a, norm) <= Intensity(b, norm)
  {
    var n := norm as real;
    var i, j := Intensity(a, norm), Intensity(b, norm);
    assert i * n == a as real && j * n == b as real;
    assert (j - i) * n == (b - a) as real;
    NonNegativeFactor(j - i, n);
  }

  /** A product that is not negative, with a positive factor, has a
      non-negative other factor. */
  lemma NonNegativeFactor(x: real, y: real)
    requires y > 0.0 && x * y >= 0.0
    ensures x >= 0.0
  {
  }

  lemma TruncMonotone(u: real, v: real)
    requires 0.0 <= u <= v
    ensures Trunc(u) <= Trunc(v)
  {
  }
}
