/** The slit geometry of `generate_slits` (main.py:36-43): one integer point
    per row of each of the two vertical slits, first slit first. */
module Slits {
  import opened Config

  datatype Point = Point(x: int, y: int)

  /** The bounds of `range(HEIGHT // 2 - SLIT_WIDTH // 2, HEIGHT // 2 + SLIT_WIDTH // 2)`. */
  const Y_LO: int := FloorDiv(HEIGHT, 2) - FloorDiv(SLIT_WIDTH, 2)
  const Y_HI: int := FloorDiv(HEIGHT, 2) + FloorDiv(SLIT_WIDTH, 2)
  /** Points per slit. */
  const RUN_LENGTH: nat := Y_HI - Y_LO

  /** The k-th point of the slit list: slit `k / RUN_LENGTH`, row `k % RUN_LENGTH` of it. */
  function SlitPoint(k: nat): Point
    requires k < |SLIT_OFFSETS| * RUN_LENGTH
  {
    Point(CENTER_X + SLIT_OFFSETS[k / RUN_LENGTH], Y_LO + k % RUN_LENGTH)
  }

  /** The slit list described point by point, independently of the loops
      that build it. */
  function SlitList(): seq<Point>
  {
    seq(|SLIT_OFFSETS| * RUN_LENGTH, k requires 0 <= k < |SLIT_OFFSETS| * RUN_LENGTH => SlitPoint(k))
  }

  /** Strict lexicographic order on points: by x, then by y. */
  predicate Before(p: Point, q: Point)
  {
    p.x < q.x || (p.x == q.x && p.y < q.y)
  }

  /** `generate_slits`: the nested loops appending one point per slit row. */
  method GenerateSlits() returns (slits: seq<Point>)
    ensures slits == SlitList()
  {
    slits := [];
    var run := 0;
    while run < |SLIT_OFFSETS|
      invariant 0 <= run <= |SLIT_OFFSETS|
      invariant slits == SlitList()[..run * RUN_LENGTH]
    {
      var offset := SLIT_OFFSETS[run];
      var y := Y_LO;
      while y < Y_HI
        invariant Y_LO <= y <= Y_HI
        invariant slits == SlitList()[..run * RUN_LENGTH + (y - Y_LO)]
      {
        ghost var k := run * RUN_LENGTH + (y - Y_LO);
        assert k / RUN_LENGTH == run && k % RUN_LENGTH == y - Y_LO;
        assert SlitList()[..k + 1] == SlitList()[..k] + [SlitPoint(k)];
        slits := slits + [Point(CENTER_X + offset, y)];
        y := y + 1;
      }
      run := run + 1;
    }
  }

  /** With the shipped constants the list holds 100 points: x = 400 for
      y = 325..374, then x = 600 for the same rows. */
  lemma ShippedSlits()
    ensures |SlitList()| == 100
    ensures forall i :: 0 <= i < 50 ==> SlitList()[i] == Point(400, 325 + i)
    ensures forall i :: 50 <= i < 100 ==> SlitList()[i] == Point(600, 275 + i)
  {
  }

  /** The list is strictly increasing in (x, y) order, so no point repeats. */
  lemma SlitListSorted()
    ensures forall i, j :: 0 <= i < j < |SlitList()| ==> Before(SlitList()[i], SlitList()[j])
  {
  }

  /** A point is in the list exactly when it lies on the column of one of
      the slit offsets, within the rows `range(Y_LO, Y_HI)`; with the shipped
      constants, on x = 400 or x = 600 with 325 <= y < 375. */
  lemma SlitListMembership(p: Point)
    ensures p in SlitList() <==>
      (exists i :: 0 <= i < |SLIT_OFFSETS| && p.x == CENTER_X + SLIT_OFFSETS[i]) && Y_LO <= p.y < Y_HI
    ensures p in SlitList() <==> (p.x == 400 || p.x == 600) && 325 <= p.y < 375
  {
    if p in SlitList() {
      var k :| 0 <= k < |SlitList()| && SlitList()[k] == p;
      assert p.x == CENTER_X + SLIT_OFFSETS[k / RUN_LENGTH];
    }
    if (exists i :: 0 <= i < |SLIT_OFFSETS| && p.x == CENTER_X + SLIT_OFFSETS[i]) && Y_LO <= p.y < Y_HI {
      var i :| 0 <= i < |SLIT_OFFSETS| && p.x == CENTER_X + SLIT_OFFSETS[i];
      var k := i * RUN_LENGTH + (p.y - Y_LO);
      assert k / RUN_LENGTH == i && k % RUN_LENGTH == p.y - Y_LO;
      assert SlitList()[k] == p;
    }
    // The shipped columns are the two offsets' columns.
    assert SLIT_OFFSETS == [-100, 100] && CENTER_X == 500 && Y_LO == 325 && Y_HI == 375;
    if p.x == 400 { assert p.x == CENTER_X + SLIT_OFFSETS[0]; }
    if p.x == 600 { assert p.x == CENTER_X + SLIT_OFFSETS[1]; }
  }
}
