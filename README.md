# CreateCircle in Dafny

A model of the two circle generators of `CreateCircle/main.cpp`. Both fill
a caller-owned buffer of `2N` floating-point values with the `N` points of
the unit circle, interleaved as `x0, y0, x1, y1, ...`, in triangle-strip
order. Neither calls `sin`/`cos` per point: each computes the cosine and
sine of the angle increment `2*pi/N` once, then rotates a seed point step by
step with

    x' = cos(a) * x + sin(a) * y
    y' = sin(a) * -x + cos(a) * y

- `CreateCircle` (half symmetry) writes each rotated point together with its
  mirror image. For odd `N` it starts at the top `(0, 1)` and mirrors across
  the vertical axis. For even `N` it starts at the right-most point `(1, 0)`,
  mirrors across the horizontal axis and ends with the left-most point
  `(-1, 0)`.
- `CreateCircle2` (quarter symmetry) does the same for odd `N`. For even
  `N` it rotates only `N/2/2` times. It then scans the points already
  written, backwards over odd indices from `startIndex` down to 1, and
  writes `(-x, y)` and `(-x, -y)` of each.
- `IsOdd` selects the branch.

The model lives in four modules:

- `Rotation` (`rotation.dfy`) holds points, the increment `Turn(cos, sin)`,
  the rotation kernel `Rotate`/`Rotations` and their algebra. Points are
  read as complex numbers (`Times`) to prove that, under an exact half turn,
  `h - k` steps mirror `k` steps.
- `Parity` (`parity.dfy`) holds `IsOdd`, the C++ truncating remainder, and
  the finding below.
- `Layout` (`layout.dfy`) holds the specification of the output:
  - the points of each layout, one by one (`HalfPoint`, `QuarterPoint`),
    the sequences `HalfCircle`/`QuarterCircle` and the buffers
    `HalfBuffer`/`QuarterBuffer`;
  - the index arithmetic of the backward scan;
  - the shapes the loops rely on;
  - how the two layouts agree, how the winding flag mirrors them, and when
    the points lie on the unit circle.
- `Generators` (`generators.dfy`) holds the two routines as methods over
  `array?<real>`, with the loops of main.cpp and their invariants.

Coordinates are exact reals. The cosine and sine of the clockwise angle are
parameters (`cosTurn`, `sinTurn`). The winding flag either keeps them or
negates the sine (`Increment`).

## Model

| member | source | states |
|---|---|---|
| `Generators.CreateCircle` | CreateCircle/main.cpp:40-105 | A null buffer gives `NullOutput` and nothing is written. Otherwise every one of the `2N` slots is overwritten, and the buffer is exactly the half-symmetry layout for the increment the winding flag selects. |
| `Generators.CreateCircle2` | CreateCircle/main.cpp:113-191 | A null buffer gives `NullOutput`. Otherwise the buffer is exactly the quarter-symmetry layout, including the points the backward scan reads back from the buffer itself. |
| `Generators.FillOdd` | CreateCircle/main.cpp:55-77 | The odd branch of both routines. Starting from Top, after `N/2` loop steps it has written every point of any target with the odd loop's shape. It returns the final index `2N`, which fits in `unsigned int` (the assert at main.cpp:76). Every write is in bounds. |
| `Generators.FillEvenHalf` | CreateCircle/main.cpp:78-104 | The even branch of `CreateCircle`: `N/2 - 1` forward steps, then Left in the last slot pair. All `N` points of the target are written. It returns the index of the last point, with `arrayIndex + 2 == 2N` (the assert at main.cpp:103). |
| `Generators.FillEvenQuarter` | CreateCircle/main.cpp:151-190 | The even branch of `CreateCircle2`: `N/2/2` forward steps, the scan from `startIndex`, then Left. It returns the `startIndex` it computes, which is `Layout.StartIndex(N/2)`. It also returns the index of the last point, with `arrayIndex + 2 == 2N` (the assert at main.cpp:189). All `N` points are written. |
| `Generators.RotateFromRight` | CreateCircle/main.cpp:155-171 | The forward loop shared by both even branches. Its loop keeps the running point equal to `Rotations(t, i, Right)`. The first `2*steps + 1` points hold the rotated points and their `(x, -y)` mirrors. It returns the next free slot `2*(2*steps + 1)`, and the slots from there on keep their old values. |
| `Generators.ReflectBackward` | CreateCircle/main.cpp:173-184 | The backward scan. Each read index is odd, positive and below the write position, so it is always a slot already written. The body also proves that the reads' `int` index arithmetic `i * 2 + 1` cannot overflow. After `b = (startIndex + 1)/2` iterations, every point below `w + 2b` holds the target: the forward pass's points still, and the `2b` reflected ones after them. The slots from the returned index on keep their old values. |
| `Rotation.Increment` | CreateCircle/main.cpp:47-49 | The increment a generator works with: the given cosine and sine of the clockwise angle when the flag is set, and otherwise the same cosine with the sine negated. Its two `ensures` only unfold this definition. Its relation across the two flag settings is `FlagsReverse`, and the trigonometric assumption behind it is the `Rotation.Increment` line under "## Left out". |
| `Rotation.FlagsReverse` | CreateCircle/main.cpp:47-49 | The two settings of the winding flag give increments that are each other's `Reverse`: same cosine, opposite sine. Reversing twice gives back the increment. |
| `Rotation.Rotate` | CreateCircle/main.cpp:65-67 | One step of the loops' update, read as complex numbers, multiplies the point by `cos - i*sin`. That is a rotation by the increment's angle. |
| `Rotation.RotateScalesNorm` | CreateCircle/main.cpp:65-67 | One rotation step multiplies the squared distance from the origin by `cos^2 + sin^2`. |
| `Rotation.RotationsKeepNorm` | CreateCircle/main.cpp:63-75 | With `cos^2 + sin^2 == 1`, any number of steps keeps a point's distance from the origin. |
| `Rotation.RotationsCompose` | CreateCircle/main.cpp:63-75 | `a` steps after `b` steps are `a + b` steps. |
| `Rotation.ReverseMirrorsX` | CreateCircle/main.cpp:120-122 | Rotating the mirror image (across the vertical axis) with the reversed increment gives the mirror image of the forward rotation. |
| `Rotation.ReverseMirrorsY` | CreateCircle/main.cpp:120-122 | The same for the mirror across the horizontal axis. |
| `Rotation.ReverseFromTop` | CreateCircle/main.cpp:59-67 | From Top, the reversed winding reaches the mirror (`-x, y`) of the forward rotation. |
| `Rotation.ReverseFromRight` | CreateCircle/main.cpp:82-90 | From Right, the reversed winding reaches the mirror (`x, -y`) of the forward rotation. |
| `Rotation.RotationsAreProducts` | CreateCircle/main.cpp:161-163 | `k` rotation steps of any point are the complex product of that point with `k` steps of Right. |
| `Rotation.RemainingStepsMirror` | CreateCircle/main.cpp:172-184 | If `h` steps take Right exactly to Left with a unit increment, then `h - k` steps from Right reach `(-x, y)` of `k` steps from Right. This is the geometric fact the backward scan relies on. |
| `Parity.TruncatedRem2` | CreateCircle/main.cpp:31 | C++'s `% 2`: the remainder has the sign of the dividend and differs from it by a multiple of 2. |
| `Parity.IsOdd` | CreateCircle/main.cpp:28-32 | `n` is odd exactly when it is `2*(n/2) + 1`, and even exactly when it is `2*(n/2)`. On non-negative numbers it answers what the C++ helper answers. |
| `Parity.IsOddAsWritten` | CreateCircle/main.cpp:31 | With C++'s truncating `%`, the helper as written recognises exactly the non-negative odd numbers. |
| `Parity.AsWrittenMissesNegativeOdd` | CreateCircle/main.cpp:28-32 | For the signed value -3, which is odd, the helper as written answers false. |
| `Parity.AsWrittenMissesAllNegativeOdd` | CreateCircle/main.cpp:28-32 | For every negative odd number the helper as written answers false. |
| `Layout.Flatten` | CreateCircle/main.cpp:69-73 | The buffer interleaves the points: point `p` occupies slot `2p` (x) and slot `2p + 1` (y), and there are twice as many slots as points. |
| `Layout.HalfCircle` | CreateCircle/main.cpp:55-104 | The half-symmetry layout has exactly `N` points, one per point the generator writes. What each point is, is stated by `HalfOddShape` and `HalfEvenShape`. |
| `Layout.HalfBuffer` | CreateCircle/main.cpp:54-104 | The half-symmetry buffer has `2N` slots. |
| `Layout.QuarterCircle` | CreateCircle/main.cpp:128-190 | The quarter-symmetry layout has exactly `N` points. What each point is, is stated by `HalfOddShape`, `QuarterForwardShape` and `QuarterScanShape`. |
| `Layout.QuarterBuffer` | CreateCircle/main.cpp:127-190 | The quarter-symmetry buffer has `2N` slots. |
| `Layout.OddSlots` | CreateCircle/main.cpp:63-75 | For odd `N`, loop step `k` writes the points at `2k+1` and `2k+2`, both below `N`. They are the point `k+1` rotations from Top and its `(-x, y)` mirror. |
| `Layout.EvenSlots` | CreateCircle/main.cpp:86-98 | For even `N`, loop step `k < N/2 - 1` writes the points at `2k+1` and `2k+2`, both before the last point. They are `k+1` rotations from Right and its `(x, -y)` mirror. |
| `Layout.EvenEnds` | CreateCircle/main.cpp:82-102 | The even half layout starts at Right and ends at Left. |
| `Layout.ForwardEnd` | CreateCircle/main.cpp:159-171 | The first point after the quarter forward pass is at an odd index. |
| `Layout.StartIndex` | CreateCircle/main.cpp:172 | `startIndex` is odd and at least -1. When `N/2` is odd it is the last rotated point of the forward pass. When `N/2` is even it is the one before: the last rotated point, at point `N/2 - 1`, is then the pole a quarter turn from Right. It is not reflected at all: skipping it keeps the pole and its mirror at point `N/2` from being written a second time. |
| `Layout.StepsCoverHalf` | CreateCircle/main.cpp:159-184 | The forward steps plus the backward iterations are the `N/2 - 1` steps of the half layout. Seed plus forward pairs plus backward pairs plus Left fill exactly `N` points. |
| `Layout.ScanSource` | CreateCircle/main.cpp:173-176 | The index the scan reads for an output point is odd, positive, and inside the forward pass, before the point being written. |
| `Layout.QuarterEnds` | CreateCircle/main.cpp:153-189 | The even quarter layout starts at Right and ends at Left. |
| `Layout.QuarterForwardSlots` | CreateCircle/main.cpp:159-171 | Forward step `k` of `CreateCircle2` writes `k+1` rotations from Right and its `(x, -y)` mirror, before the scan region. |
| `Layout.ScanIndices` | CreateCircle/main.cpp:173-184 | Iteration `k` of the scan reads the odd index `startIndex - 2k > 0`. It writes the point pair at `w + 2k`, after the read index and before the last point. The first write of the pair is `(-x, y)` and the second `(-x, -y)`. |
| `Layout.ScanStep` | CreateCircle/main.cpp:173-184 | Iteration `k` of the scan writes `(-x, y)` and `(-x, -y)` of the layout's own point at the read index. |
| `Layout.ScanReflectsEarlierPoint` | CreateCircle/main.cpp:173-184 | Every point after the quarter forward pass, except the last, is a sign flip of an earlier point that is a rotation of Right. |
| `Layout.HalfOddShape` | CreateCircle/main.cpp:57-75 | The odd-count half layout is what the odd loop builds. |
| `Layout.HalfEvenShape` | CreateCircle/main.cpp:80-103 | The even-count half layout is `N/2 - 1` forward pairs from Right, then Left. |
| `Layout.QuarterForwardShape` | CreateCircle/main.cpp:153-171 | The even quarter layout begins with `N/2/2` forward pairs from Right. |
| `Layout.QuarterScanShape` | CreateCircle/main.cpp:172-189 | Every iteration of the backward scan reflects a point of the quarter layout, and the layout ends at Left. |
| `Layout.OddLayoutsAgree` | CreateCircle/main.cpp:128-150 | For odd `N` the two generators fill identical buffers. |
| `Layout.EvenLayoutsAgreeOnForwardPass` | CreateCircle/main.cpp:153-171 | For even `N` the two layouts agree on the seed, on the quarter layout's forward pass, and on the final point. |
| `Layout.ExactLayoutsAgree` | CreateCircle/main.cpp:113-191 | For odd `N` the two generators always fill identical buffers. For even `N` they do too, provided the increment is an exact unit half turn in `N/2` steps. |
| `Layout.ScanRotationCounts` | CreateCircle/main.cpp:172-184 | The rotation count of a reflected output point and that of the point it reads add up to `N/2`. |
| `Layout.ScanPointRotated` | CreateCircle/main.cpp:173-184 | A reflected point is `(-x, y)` (odd index) or `(-x, -y)` (even index) of the rotation from Right it reads. |
| `Layout.EvenInterior` | CreateCircle/main.cpp:86-98 | An interior point of the even half layout is a rotation from Right (odd index) or its `(x, -y)` mirror (even index). |
| `Layout.ExactReflection` | CreateCircle/main.cpp:173-184 | Under an exact half turn, each reflected point equals the point the half-symmetry generator computes by rotation. |
| `Layout.HalfReversed` | CreateCircle/main.cpp:47 | Flipping the winding flag mirrors every point of the half layout: across the vertical axis for odd `N`, across the horizontal axis for even `N`. |
| `Layout.OddReversed` | CreateCircle/main.cpp:47-75 | Flipping the winding flag mirrors the odd layout across the vertical axis. |
| `Layout.EvenReversed` | CreateCircle/main.cpp:47-103 | Flipping the winding flag mirrors the even half layout across the horizontal axis. |
| `Layout.QuarterReversed` | CreateCircle/main.cpp:120 | The same mirror relation for the quarter layout, reflected points included. |
| `Layout.FlagMirrorsHalf` | CreateCircle/main.cpp:47-49 | For the same cosine and sine, the other setting of the winding flag mirrors every point of `CreateCircle`'s layout, by the axis `DirectionMirror` picks from the parity of `N`. |
| `Layout.FlagMirrorsQuarter` | CreateCircle/main.cpp:120-122 | The same for every point of `CreateCircle2`'s layout. |
| `Layout.RotatedOnUnitCircle` | CreateCircle/main.cpp:10-13 | From a seed on the unit circle, with a unit increment, every rotation lies on the unit circle, and so do its mirror images. |
| `Layout.HalfOnUnitCircle` | CreateCircle/main.cpp:34-38 | With `cos^2 + sin^2 == 1`, every point of the half layout lies exactly on the unit circle. |
| `Layout.QuarterOnUnitCircle` | CreateCircle/main.cpp:107-111 | The same for every point of the quarter layout. |

## Left out

- Trigonometry: the cosine and sine of `±2*pi/N` (main.cpp:47-49,
  120-122) are parameters. The constants `PI` and `PI_MUL_2`
  (main.cpp:25-26) are not modelled.
- Rotation.Increment: negating the angle is taken to keep the cosine and
  negate the sine, because cos is even and sin is odd. This is assumed from
  trigonometry, not proved.
- Distinctness and winding sense: main.cpp:37 and 110 promise N distinct
  points in triangle-strip order, wound in the direction the flag asks for.
  Whether the points are distinct, and whether `clockwise = true` really
  winds clockwise, depends on the real values of cos(2*pi/N) and
  sin(2*pi/N), which are parameters here. So neither is stated. The model
  states instead:
  - the exact slot order of every point (`HalfBuffer`, `QuarterBuffer`);
  - that the points lie on the unit circle when cos^2 + sin^2 == 1
    (`HalfOnUnitCircle`, `QuarterOnUnitCircle`);
  - that flipping the flag mirrors every point (`FlagMirrorsHalf`,
    `FlagMirrorsQuarter`).
- The default argument `clockwise = true` (main.cpp:40, 113): the
  methods take the flag explicitly.
- Floating point: coordinates are exact reals. Rounding, and the
  difference it makes between the reflected and the rotated points, are not
  modelled. Where the two generators agree for even `N` is proved under an
  exact half-turn hypothesis (`Layout.ExactLayoutsAgree`).
- The generic `FloatType`: the model fixes the element type to `real`.
  The `enable_if` template constraints and the compiler pragmas are not
  modelled.
- `main` (main.cpp:193-225): argument parsing, allocation and printing are
  I/O and are not modelled.
- `N == 0`: both routines write the first point pair past the end of the
  empty buffer. In `CreateCircle` the unsigned `halfNrOfPoints - 1`
  (main.cpp:86) also wraps around. `CreateCircle2`'s `halfNrOfPoints` is a
  signed `int` (main.cpp:123) and does not wrap. The model requires
  `N >= 1`.
- `N > 0x7FFF_FFFF`: the model bounds `N` so that `N * 2` fits in
  `unsigned int` and the scan's `i * 2 + 1` fits in `int`. In that range
  the `unsigned long long` `arrayIndex` never wraps, and `halfNrOfPoints`
  fits in `int`, so no width is modelled below that bound.
- The `assert`s of main.cpp (lines 76, 103, 149, 189) are proved `ensures`
  of the branch methods, not runtime checks.
- `Generators.FillOdd`, `FillEvenHalf`, `FillEvenQuarter`, `RotateFromRight`
  and `ReflectBackward`: main.cpp writes each branch inline in one
  function. The model splits the branches and loops into methods, each
  stated over a ghost target sequence of points of the shape its loop
  builds.
- `Parity.IsOdd` is modelled on mathematical integers, with the C++
  remainder as written in `Parity.IsOddAsWritten`. Only the non-negative
  `unsigned int` counts reach it from the generators.

## Findings

| source | as written | input that shows it | evidently intended | confidence | as-written member | corrected member |
|---|---|---|---|---|---|---|
| CreateCircle/main.cpp:28-32 | `IsOdd` accepts any integral type and tests `number % 2 == 1`. C++'s `%` truncates toward zero, so a negative odd value gives remainder -1 (modelled by `Parity.IsOddAsWritten`). | `IsOdd(-3)` with a signed type answers false. | true for every odd integer | not executed; the generators pass only unsigned counts, where both agree | `Parity.AsWrittenMissesNegativeOdd` | `Parity.IsOdd` |
