/** One frame's sampling step (main.py:124-126): PARTICLES_PER_FRAME particles
    are simulated and each is recorded in the heatmap, in order. */
module Simulation {
  import opened Config
  import opened Particle
  import opened Grid
  import opened Accumulator

  /** The impacts of a frame, one per set of draws, each within the bounds
      of a single particle. */
  function Impacts(draws: seq<Draws>, detector: bool): (impacts: seq<Impact>)
    ensures |impacts| == |draws|
    ensures forall k :: 0 <= k < |impacts| && ValidDraws(draws[k]) ==>
      0.0 <= impacts[k].y < HEIGHT as real && 275.0 <= impacts[k].x <= 725.0
  {
    seq(|draws|, k requires 0 <= k < |draws| => SimulateParticle(draws[k], detector))
  }

  /** The counters after recording the impacts one after another. */
  function RecordAll(g: Counts, impacts: seq<Impact>): (g': Counts)
    requires IsGrid(g)
    ensures IsGrid(g')
  {
    if impacts == [] then g
    else
      var last := impacts[|impacts| - 1];
      Record(RecordAll(g, impacts[..|impacts| - 1]), last.x, last.y)
  }

  /** How many of the impacts land on the screen. */
  function Landed(impacts: seq<Impact>): nat
  {
    if impacts == [] then 0
    else
      var last := impacts[|impacts| - 1];
      Landed(impacts[..|impacts| - 1]) + if CellOf(last.x, last.y).Some? then 1 else 0
  }

  /** At most every impact lands, and exactly every impact when each is on
      the screen. */
  lemma {:induction false} LandedBound(impacts: seq<Impact>)
    ensures Landed(impacts) <= |impacts|
    ensures (forall k :: 0 <= k < |impacts| ==> CellOf(impacts[k].x, impacts[k].y).Some?)
      ==> Landed(impacts) == |impacts|
  {
    if impacts != [] {
      var prefix := impacts[..|impacts| - 1];
      assert forall k :: 0 <= k < |prefix| ==> prefix[k] == impacts[k];
      LandedBound(prefix);
    }
  }

  /** Recording a sequence of impacts adds to the sum of the counters exactly
      the number that land. */
  lemma {:induction false} RecordAllTotal(g: Counts, impacts: seq<Impact>)
    requires IsGrid(g)
    ensures Total(RecordAll(g, impacts)) == Total(g) + Landed(impacts)
  {
    if impacts != [] {
      var last := impacts[|impacts| - 1];
      RecordAllTotal(g, impacts[..|impacts| - 1]);
      RecordTotal(RecordAll(g, impacts[..|impacts| - 1]), last.x, last.y);
    }
  }

  /** Counters never decrease. */
  lemma {:induction false} RecordAllGrows(g: Counts, impacts: seq<Impact>)
    requires IsGrid(g)
    ensures forall r, c :: 0 <= r < ROWS && 0 <= c < COLS ==> g[r][c] <= RecordAll(g, impacts)[r][c]
  {
    if impacts != [] {
      RecordAllGrows(g, impacts[..|impacts| - 1]);
    }
  }

  /** Every simulated particle lands in the grid: the bounds check of
      `update_heatmap` never discards one. */
  lemma ParticleInGrid(d: Draws, detector: bool)
    requires ValidDraws(d)
    ensures var p := SimulateParticle(d, detector);
      && 0 <= GridIndex(p.x) < COLS
      && 0 <= GridIndex(p.y) < ROWS
      && CellOf(p.x, p.y) == Some(Cell(GridIndex(p.y), GridIndex(p.x)))
  {
  }

  /** A frame adds exactly PARTICLES_PER_FRAME to the sum of the counters. */
  lemma FrameTotal(g: Counts, draws: seq<Draws>, detector: bool)
    requires IsGrid(g) && |draws| == PARTICLES_PER_FRAME
    requires forall k :: 0 <= k < |draws| ==> ValidDraws(draws[k])
    ensures Total(RecordAll(g, Impacts(draws, detector))) == Total(g) + PARTICLES_PER_FRAME
  {
    var impacts := Impacts(draws, detector);
    RecordAllTotal(g, impacts);
    LandedBound(impacts);
    forall k | 0 <= k < |draws|
      ensures CellOf(impacts[k].x, impacts[k].y).Some?
    {
      ParticleInGrid(draws[k], detector);
    }
  }

  /** The sampling loop of one frame: simulate and record PARTICLES_PER_FRAME
      particles into the heatmap. */
  method SimulateFrame(h: Heatmap, draws: seq<Draws>, detector: bool)
    requires h.Valid() && |draws| == PARTICLES_PER_FRAME
    modifies h, h.cells
    ensures h.Valid()
    ensures h.Contents == RecordAll(old(h.Contents), Impacts(draws, detector))
    ensures Total(old(h.Contents)) <= Total(h.Contents) <= Total(old(h.Contents)) + PARTICLES_PER_FRAME
    ensures (forall k :: 0 <= k < |draws| ==> ValidDraws(draws[k]))
      ==> Total(h.Contents) == Total(old(h.Contents)) + PARTICLES_PER_FRAME
  {
    var k := 0;
    while k < PARTICLES_PER_FRAME
      invariant 0 <= k <= PARTICLES_PER_FRAME && h.Valid()
      invariant h.Contents == RecordAll(old(h.Contents), Impacts(draws, detector)[..k])
    {
      var particle := SimulateParticle(draws[k], detector);
      assert Impacts(draws, detector)[..k + 1][..k] == Impacts(draws, detector)[..k];
      h.Update(particle.x, particle.y);
      k := k + 1;
    }
    assert Impacts(draws, detector)[..k] == Impacts(draws, detector);
    RecordAllTotal(old(h.Contents), Impacts(draws, detector));
    LandedBound(Impacts(draws, detector));
    if forall k :: 0 <= k < |draws| ==> ValidDraws(draws[k]) {
      FrameTotal(old(h.Contents), draws, detector);
    }
  }
}
