# Double-slit simulation: a Dafny model of its sampling and heatmap core

The program is a pygame script. It draws an interference pattern, samples
particle impacts with a simple probability rule, and accumulates the impacts
in a heatmap of counters. A "detector" toggle switches off the interference.
This project models the parts of the script that carry logic:

- **Slit geometry** (`generate_slits`). The two slits are runs of integer
  points at `x = WIDTH//2 ± SLIT_SEPARATION//2`, one point per row from
  `HEIGHT//2 - SLIT_WIDTH//2` up to but excluding `HEIGHT//2 + SLIT_WIDTH//2`.
  `Slits.GenerateSlits` keeps the script's nested loops. It is proved equal to
  `Slits.SlitList`, a closed-form description of the list. Lemmas give that
  list's length, order and exact contents.
- **Particle positions** (`simulate_particle`). All randomness is passed in as
  a `Draws` value. The script has four `random.uniform` calls (main.py:47, 60,
  62, 64). Each particle makes two of them with the detector on and three with
  it off: the calls on lines 60 and 62 are alternatives on the detector-off
  path and share the `perturb` draw. Each call
  becomes a unit draw `t`, and `Uniform(a, b, t) = a + (b - a) * t` is how
  Python computes `uniform`. The
  slit choice becomes a boolean. The outcome of `random.random() < probability`
  becomes the `narrow` flag. The lemmas bound every impact, and they show the
  bounds are tight: every point of the stated ranges is reachable. Every
  simulated impact lands in the heatmap, so each frame adds exactly ten.
- **Heatmap accumulator** (the array at line 29 and `update_heatmap`).
  `Grid` describes the counters as a value. `CellOf` is the float-floor cell
  mapping with its bounds check, `Record` is one update, and `Total` is the sum
  of all counters. `Accumulator.Heatmap` is a class over an `array2<nat>`. Its
  `Update` method increments in place and is proved to agree with `Record`.
- **Normalisation** (the arithmetic of `draw_heatmap`). The normaliser is the
  largest counter, or 1 when every counter is zero. Each counter is divided by
  it, and the result becomes `(int(255·i), int(50·i), int(50·i))`. Reals are
  exact here.
- **Frame step** (the `range(10)` loop). `Simulation.SimulateFrame` samples and
  records ten particles. Lemmas bound how much the counters can grow in one
  frame.

The code applies Python's `//` to float coordinates, which floors rather than
truncates: an x or y in (-5, 0) maps to index -1, and that impact is
discarded.

## Model

| member | source | states |
|---|---|---|
| Config.FloorDiv | main.py:39-41 | Python `//` on ints with a positive divisor: `q*b <= a < q*b + b`, i.e. rounding toward negative infinity |
| Slits.GenerateSlits | main.py:36-43 | the nested loops return exactly the closed-form slit list: the point of index k is at slit `k / RUN_LENGTH`, row `Y_LO + k % RUN_LENGTH` |
| Slits.ShippedSlits | main.py:38-42 | with the shipped constants the list has 100 points: the first 50 are (400, 325..374) in ascending y, the last 50 are (600, 325..374) |
| Slits.SlitListSorted | main.py:40-42 | the list is strictly increasing in (x, y) order, so no point repeats |
| Slits.SlitListMembership | main.py:39-42 | a point is in the list if and only if its x is `WIDTH//2` plus one of the slit offsets and `Y_LO <= y < Y_HI`; with the shipped constants, x is 400 or 600 and 325 <= y < 375 |
| Particle.Uniform | main.py:47 | `random.uniform(a, b)` computed from a unit draw lies in [a, b], and in [a, b) when the draw is below 1 and a < b |
| Particle.SlitOffset | main.py:48 | `random.choice([-SLIT_SEPARATION // 2, SLIT_SEPARATION // 2])` picks -100 or 100, positive exactly for the right slit |
| Particle.SimulateParticle | main.py:45-65 | the impact of one particle from its draws; for draws in range, y lies in [0, HEIGHT) and x in [275, 725], which is inside [0, WIDTH); the branch-specific bounds are in DetectorOn and DetectorOff |
| Particle.DetectorOn | main.py:47-52 | with the detector on, the interference branch's outcome and perturbation draw do not affect the impact, and x is within 25 of the chosen slit's column: [375, 425] for the left slit, [575, 625] for the right |
| Particle.DetectorOff | main.py:53-62 | with the detector off, the chosen slit does not affect the impact, and x lies in [375, 625] on the narrow branch and [275, 725] on the wide one |
| Particle.DetectorOnCovers | main.py:47-65 | every (x, y) with x in [375, 425] or [575, 625] and y in [0, HEIGHT) is the impact of some detector-on draws |
| Particle.DetectorOffCovers | main.py:53-65 | every x in the branch's range, with any y in [0, HEIGHT), is the impact of some detector-off draws, for either slit choice |
| Grid.Zeros | main.py:29 | the initial heatmap has the grid's shape and every counter is 0 |
| Grid.ShippedShape | main.py:29 | the grid has 140 rows and 200 columns |
| Grid.GridIndex | main.py:84-85 | `int(v // 5)` on a float is the index i with 5i <= v < 5i + 5 |
| Grid.CellOf | main.py:83-86 | an impact gets a cell if and only if 0 <= x < WIDTH and 0 <= y < HEIGHT; that cell is inside the grid and its 5×5 square holds the impact |
| Grid.CellOfEdges | main.py:84-86 | (999, 699) maps to row 139, column 199; any x in (-5, 0) gives index -1 and is discarded; y = HEIGHT gives row 140 and is discarded; (-1, 50) is discarded |
| Grid.Increment | main.py:87 | incrementing a cell keeps the shape, adds 1 to that cell and leaves every other counter unchanged |
| Grid.Record | main.py:81-87 | one update keeps the grid shape; the impact's cell grows by 1 and every other counter is unchanged; an impact off the screen changes nothing |
| Grid.TotalIncrement | main.py:87 | incrementing one counter adds exactly 1 to the sum of all counters |
| Grid.RecordTotal | main.py:86-87 | one update adds 1 to the sum of the counters when the impact is on the screen and 0 otherwise |
| Shading.GridMax | main.py:91 | `np.max(heatmap)` is at least the largest counter of every row; that it bounds every counter and, unless 0, equals one is stated by GridMaxIsMax |
| Shading.Normaliser | main.py:91 | `np.max(heatmap) or 1` is at least 1, so the division on line 94 never divides by zero; the rest is in NormaliserIsMax |
| Shading.GridMaxIsMax | main.py:91 | `np.max` bounds every counter and, unless it is 0, equals some counter |
| Shading.GridMaxUnique | main.py:91 | any bound on all counters that is 0 or equals some counter is the maximum, so the maximum is uniquely determined |
| Shading.NormaliserIsMax | main.py:91 | `np.max(heatmap) or 1` is at least 1 and at least every counter; it is 1 for an all-zero grid and otherwise equals some counter |
| Shading.Trunc | main.py:95 | Python `int()` on a real truncates toward zero |
| Shading.Intensity | main.py:94 | `count / max_value` is non-negative; it is at most 1 when the count is at most the normaliser; it is 0 exactly for a zero count and 1 exactly when the count equals the normaliser |
| Shading.Shade | main.py:95 | an intensity in [0, 1] gives red in [0, 255] and green and blue in [0, 50]; intensity 0 gives (0, 0, 0) and intensity 1 gives (255, 50, 50) |
| Shading.CellColour | main.py:94-95 | the colour painted for one cell has red in [0, 255] and green and blue in [0, 50]; the black and full-red cases are in CellColourBounds |
| Shading.CellColourBounds | main.py:91-95 | every cell's colour is within those ranges; an empty cell is black; a cell holding the non-zero maximum is (255, 50, 50) |
| Shading.AllZeroIsBlack | main.py:91-95 | an all-zero grid divides by 1, not 0, and every cell is (0, 0, 0) |
| Shading.CellColourMonotone | main.py:94-95 | a cell with more impacts never gets less red or green than one with fewer |
| Accumulator.Heatmap.constructor | main.py:29 | allocates a ROWS × COLS array with every counter 0 |
| Accumulator.Heatmap.Update | main.py:81-87 | the counters become `Record` of the old counters; in the array, exactly the impact's cell grows by 1, and an impact off the grid leaves the array unchanged |
| Accumulator.Heatmap.MaxValue | main.py:91 | the scan over every counter returns the normaliser, `np.max(heatmap) or 1` |
| Accumulator.Heatmap.Draw | main.py:89-95 | the colour grid has the heatmap's shape; each colour is that cell's normalised colour, and every channel is within its range |
| Simulation.Impacts | main.py:124-125 | a frame yields one impact per particle, each within the single-particle bounds of SimulateParticle |
| Simulation.RecordAll | main.py:124-126 | recording the frame's impacts in order keeps the grid's shape; its growth is stated by RecordAllTotal and RecordAllGrows |
| Simulation.LandedBound | main.py:124-126 | at most all of a frame's impacts land in the grid, and all of them do when each is on the screen |
| Simulation.RecordAllTotal | main.py:124-126 | recording a sequence of impacts adds exactly the number that land to the sum of the counters |
| Simulation.RecordAllGrows | main.py:86-87 | no counter ever decreases, however many impacts are recorded |
| Simulation.ParticleInGrid | main.py:84-86 | every simulated impact falls in the grid cell given by its floored coordinates, so the bounds check never discards one |
| Simulation.FrameTotal | main.py:124-126 | one frame raises the sum of the counters by exactly 10 |
| Simulation.SimulateFrame | main.py:124-126 | the loop records the frame's ten impacts in order into the heatmap, and the sum of the counters grows by 0 to 10 for any draws, and by exactly 10 for draws the `random` module can produce |

## Left out

- pygame: `pygame.init`, the window and clock, `draw_slits`, the line drawing of `simulate_wave`, the `pygame.draw.rect` calls of `draw_heatmap`, the font and status text, the event loop and frame pacing (main.py:7, 24-26, 67-70, 79, 96-99, 104-123, 127-141). This is presentation and I/O through a library whose code is not part of this model. `Accumulator.Heatmap.Draw` returns the colours instead of painting rectangles.
- `gaussian` and the intensity sum of `simulate_wave` (main.py:32-34, 72-78). These are floating-point `exp`/`sqrt` numerics used only for the background picture.
- The phase difference and `0.5 + 0.5*cos(...)` probability (main.py:55-56). These are trigonometry. The comparison `random.random() < probability` (main.py:59) is the `narrow` field of `Draws`. As a result, the worked cases where cos equals 1 or -1 are not stated.
- The `random` module. Its draws are parameters. The y draw lies in [0, 1), as `random.random()` promises, so `uniform(0, HEIGHT)` stays below HEIGHT. The two horizontal draws are admitted in the closed [0, 1]. This over-approximates Python's [0, 1): the float additions that shift x (main.py:52, 60, 62, 65) can round up to the end points 625 and 725, and exact reals reach those only with a draw of 1.
- The `DETECTOR_ACTIVE` toggle on a key press (main.py:115). The detector flag is a parameter of `SimulateParticle` and `SimulateFrame`.
- Floating point. Coordinates and intensities are exact reals. The counters are naturals; numpy stores them as float64, which is exact only up to 2^53. `int(255 * intensity)` is modelled as exact truncation of an exact product.
