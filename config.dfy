/** Configuration constants of the double-slit simulation (main.py:10-17) and
    the integer rounding the script applies to them. */
module Config {

  const WIDTH: int := 1000
  const HEIGHT: int := 700
  /** Particles sampled per frame: the `range(10)` of the frame loop. */
  const PARTICLES_PER_FRAME: nat := 10
  const SLIT_WIDTH: int := 50
  const SLIT_SEPARATION: int := 200
  const WAVELENGTH: int := 100
  const HEATMAP_RESOLUTION: int := 5

  /** Python's `a // b` on integers for a positive divisor: the quotient
      rounded toward negative infinity. (Dafny's `/` is Euclidean, which
      agrees with flooring exactly when the divisor is positive.) */
  function FloorDiv(a: int, b: int): (q: int)
    requires b > 0
    ensures q * b <= a < q * b + b
  {
    a / b
  }

  /** `WIDTH // 2`, the horizontal centre of the screen. */
  const CENTER_X: int := FloorDiv(WIDTH, 2)

  /** `[-SLIT_SEPARATION // 2, SLIT_SEPARATION // 2]`: the horizontal offsets
      of the two slits from the centre, in the order the script lists them.
      (Unary minus binds tighter than `//` in Python.) */
  const SLIT_OFFSETS: seq<int> := [FloorDiv(-SLIT_SEPARATION, 2), FloorDiv(SLIT_SEPARATION, 2)]
}
