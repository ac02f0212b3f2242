/** The position arithmetic of `simulate_particle` (main.py:45-65), with every
    random draw passed in as a parameter. */
module Particle {
  import opened Config

  /** Where a particle lands on the detection plane. */
  datatype Impact = Impact(x: real, y: real)

  /** The draws one call of `simulate_particle` may consume:
      - `spread`, `perturb`, `height`: the `random.random()` values behind the
        `random.uniform` calls (horizontal offset, perturbation, y);
      - `rightSlit`: the outcome of `random.choice` over the two slit offsets;
      - `narrow`: the outcome of `random.random() < probability`, i.e. whether
        the tight perturbation range is used.
      `narrow` and `perturb` are used only with the detector off. */
  datatype Draws = Draws(spread: real, rightSlit: bool, narrow: bool, perturb: real, height: real)

  /** A `random.random()` value: Python promises [0, 1). */
  predicate IsRandom(t: real)
  {
    0.0 <= t < 1.0
  }

  /** A draw behind one of the horizontal `uniform` calls, admitted in the
      closed [0, 1]. The float additions that then shift x (main.py:52, 60,
      62, 65) can round up to the end points 625 and 725, which exact reals
      reach only at 1; the closed range covers those results. */
  predicate IsUnit(t: real)
  {
    0.0 <= t <= 1.0
  }

  /** The draws the `random` module can produce. The y draw is used only by
      `uniform(0, HEIGHT)`, whose float result never reaches HEIGHT, so it
      keeps the half-open range. */
  predicate ValidDraws(d: Draws)
  {
    IsUnit(d.spread) && IsUnit(d.perturb) && IsRandom(d.height)
  }

  /** `random.uniform(a, b)`, computed as Python computes it from a unit draw. */
  function Uniform(a: int, b: int, t: real): (v: real)
    requires a <= b
    ensures IsUnit(t) ==> a as real <= v <= b as real
    ensures IsRandom(t) && a < b ==> a as real <= v < b as real
  {
    var width := (b - a) as real;
    assert IsUnit(t) ==> 0.0 <= width * t <= width && (t < 1.0 && 0.0 < width ==> width * t < width) by {
      if IsUnit(t) { ScaleWithin(width, t); }
    }
    a as real + width * t
  }

  /** Scaling a non-negative width by a unit draw stays within the width,
      and strictly below a positive width when the draw is below 1. */
  lemma ScaleWithin(width: real, t: real)
    requires 0.0 <= width && IsUnit(t)
    ensures 0.0 <= width * t <= width
    ensures t < 1.0 && 0.0 < width ==> width * t < width
  {
    assert width * t + width * (1.0 - t) == width;
  }

  /** The slit offset `random.choice` picks: left of centre or right of it. */
  function SlitOffset(rightSlit: bool): (offset: int)
    ensures offset == -100 || offset == 100
    ensures rightSlit <==> offset > 0
  {
    SLIT_OFFSETS[if rightSlit then 1 else 0]
  }

  /** One particle: a horizontal offset within the slit width; with the
      detector on, shifted to the chosen slit; with it off, perturbed by up to
      one or two wavelengths instead; y anywhere on the screen height. For
      draws in range every impact lies in [0, HEIGHT) vertically, and
      horizontally within [275, 725], well inside [0, WIDTH). */
  function SimulateParticle(d: Draws, detector: bool): (p: Impact)
    ensures ValidDraws(d) ==>
      0.0 <= p.y < HEIGHT as real && 275.0 <= p.x <= 725.0 && 0.0 <= p.x < WIDTH as real
  {
    var x := Uniform(FloorDiv(-SLIT_WIDTH, 2), FloorDiv(SLIT_WIDTH, 2), d.spread);
    var shifted :=
      if detector then x + SlitOffset(d.rightSlit) as real
      else if d.narrow then x + Uniform(-WAVELENGTH, WAVELENGTH, d.perturb)
      else x + Uniform(-2 * WAVELENGTH, 2 * WAVELENGTH, d.perturb);
    var y := Uniform(0, HEIGHT, d.height);
    Impact(CENTER_X as real + shifted, y)
  }

  /** With the detector on, the particle lands within half a slit width of the
      chosen slit's column: x in [375, 425] or [575, 625]. The interference
      branch is never taken, so neither its outcome nor the perturbation draw
      affects the impact. */
  lemma DetectorOn(d: Draws)
    requires ValidDraws(d)
    ensures forall n: bool, t: real :: SimulateParticle(d.(narrow := n, perturb := t), true) == SimulateParticle(d, true)
    ensures var p := SimulateParticle(d, true);
      var column := (CENTER_X + SlitOffset(d.rightSlit)) as real;
      column - 25.0 <= p.x <= column + 25.0
      && (if d.rightSlit then 575.0 <= p.x <= 625.0 else 375.0 <= p.x <= 425.0)
  {
  }

  /** With the detector off, the chosen slit plays no part in the position,
      and x lies in [375, 625] on the narrow branch and in [275, 725] on the
      wide one. The slit's independence is not only a consequence of `narrow`
      being a free draw here: in the script the slit enters only through the
      branch probability 0.5 + 0.5 cos(2π/WAVELENGTH · (x - offset)), and since
      both offsets are ±WAVELENGTH the cosine shifts by a whole period, so (for
      exact reals) both slits give the narrow branch the same probability. */
  lemma DetectorOff(d: Draws)
    requires ValidDraws(d)
    ensures SimulateParticle(d, false) == SimulateParticle(d.(rightSlit := !d.rightSlit), false)
    ensures var p := SimulateParticle(d, false);
      if d.narrow then 375.0 <= p.x <= 625.0 else 275.0 <= p.x <= 725.0
  {
  }

  /** Conversely, every point of the two detector-on strips is reached by some
      draws, so the strips are exactly the detector-on impacts. */
  lemma DetectorOnCovers(x: real, y: real)
    requires (375.0 <= x <= 425.0 || 575.0 <= x <= 625.0) && 0.0 <= y < HEIGHT as real
    ensures exists d :: ValidDraws(d) && SimulateParticle(d, true) == Impact(x, y)
  {
    var right := x >= 575.0;
    var column := if right then 600.0 else 400.0;
    var d := Draws((x - column + 25.0) / 50.0, right, false, 0.0, y / 700.0);
    assert SLIT_OFFSETS == [-100, 100];
    assert SimulateParticle(d, true) == Impact(x, y);
  }

  /** Conversely, with the detector off every x of the branch's range is
      reached, whichever slit was drawn. */
  lemma DetectorOffCovers(x: real, y: real, narrow: bool, rightSlit: bool)
    requires (if narrow then 375.0 <= x <= 625.0 else 275.0 <= x <= 725.0) && 0.0 <= y < HEIGHT as real
    ensures exists d :: (ValidDraws(d) && d.narrow == narrow && d.rightSlit == rightSlit
                         && SimulateParticle(d, false) == Impact(x, y))
  {
    // Split the distance from the centre between the offset and the
    // perturbation in proportion to their ranges.
    var dx := x - 500.0;
    var reach := if narrow then 100.0 else 200.0;
    var u := dx * 25.0 / (25.0 + reach);
    var q := dx * reach / (25.0 + reach);
    var d := Draws((u + 25.0) / 50.0, rightSlit, narrow, (q + reach) / (2.0 * reach), y / 700.0);
    assert ValidDraws(d);
    assert SimulateParticle(d, false) == Impact(x, y);
  }
}
