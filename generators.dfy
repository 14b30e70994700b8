/**
 * The two circle generators: they fill a caller-owned buffer of 2N reals
 * with N interleaved (x, y) points in triangle-strip order.
 *
 * CreateCircle mirrors each rotated point across one axis, so it computes
 * about N / 2 rotations. CreateCircle2 computes about N / 4 rotations for
 * even N and derives the rest by reading rotated points back and flipping
 * their signs. The cosine and sine of the clockwise angle 2*pi/N are inputs;
 * the winding flag selects that angle or its negation.
 *
 * Each parity branch of the two routines is a method of its own; the odd
 * branch, which both routines spell out identically, is written once. Each
 * branch method is stated for a ghost target sequence of points ps of the
 * shape its loops build (Layout.OddShape, RightShape, ScanShape) and keeps
 * the invariant that every point written so far holds the coordinates of
 * ps; the generators then show that their layout has that shape.
 */
module Generators {
  import opened Rotation
  import opened Parity
  import opened Layout

  /** How a call ends: the C++ code throws when the output pointer is null. */
  datatype Status = Done | NullOutput

  /**
   * The half-symmetry generator. A null buffer is refused before anything
   * is written; otherwise every slot of the buffer is overwritten and the
   * buffer is exactly the half-symmetry layout, whatever it held before.
   */
  method CreateCircle(n: nat, points: array?<real>, clockwise: bool, cosTurn: real, sinTurn: real)
    returns (status: Status)
    requires ValidCount(n)
    requires points != null ==> points.Length == 2 * n
    modifies points
    ensures status == NullOutput <==> points == null
    ensures points != null ==> points[..] == HalfBuffer(n, Increment(clockwise, cosTurn, sinTurn))
  {
    if points == null {
      return NullOutput;
    }
    var t := Increment(clockwise, cosTurn, sinTurn);
    if IsOdd(n) {
      HalfOddShape(n, t);
      var arrayIndex := FillOdd(n, points, t, HalfCircle(n, t));
    } else {
      HalfEvenShape(n, t);
      var arrayIndex := FillEvenHalf(n, points, t, HalfCircle(n, t));
    }
    FlattenUnique(points[..], HalfCircle(n, t));
    return Done;
  }

  /**
   * The quarter-symmetry generator. For odd n it runs the same loop as
   * CreateCircle, so both fill the same buffer; for even n it rotates only
   * half / 2 times and reflects the rest (FillEvenQuarter).
   */
  method CreateCircle2(n: nat, points: array?<real>, clockwise: bool, cosTurn: real, sinTurn: real)
    returns (status: Status)
    requires ValidCount(n)
    requires points != null ==> points.Length == 2 * n
    modifies points
    ensures status == NullOutput <==> points == null
    ensures points != null ==> points[..] == QuarterBuffer(n, Increment(clockwise, cosTurn, sinTurn))
  {
    if points == null {
      return NullOutput;
    }
    var t := Increment(clockwise, cosTurn, sinTurn);
    if IsOdd(n) {
      HalfOddShape(n, t);
      var arrayIndex := FillOdd(n, points, t, HalfCircle(n, t));
      FlattenUnique(points[..], HalfCircle(n, t));
      OddLayoutsAgree(n, t);
    } else {
      QuarterForwardShape(n, t);
      QuarterScanShape(n, t);
      var startIndex, arrayIndex := FillEvenQuarter(n, points, t, QuarterCircle(n, t));
      FlattenUnique(points[..], QuarterCircle(n, t));
    }
    return Done;
  }

  /**
   * The odd branch of both routines: from the top, down the right half,
   * each rotated point followed by its mirror (-x, y) on the left half. It
   * is stated for any target ps of the odd loop's shape.
   */
  method FillOdd(n: nat, points: array<real>, t: Turn, ghost ps: seq<Point>) returns (arrayIndex: nat)
    requires ValidCount(n) && IsOdd(n)
    requires points.Length == 2 * n
    requires OddShape(ps, n, t)
    modifies points
    ensures arrayIndex == n * 2 <= UIntMax
    ensures forall p :: 0 <= p < n ==> points[2 * p] == ps[p].x && points[2 * p + 1] == ps[p].y
  {
    var half := n / 2;
    var x: real, y: real;
    arrayIndex := 2;
    // First (top) point.
    x, y := 0.0, 1.0;
    points[0], points[1] := x, y;
    var i := 0;
    while i < half
      invariant 0 <= i <= half
      invariant arrayIndex == 2 + 4 * i
      invariant Point(x, y) == Rotations(t, i, Top)
      invariant forall p :: 0 <= p < 1 + 2 * i ==> points[2 * p] == ps[p].x && points[2 * p + 1] == ps[p].y
    {
      var next := Rotate(t, Point(x, y));
      var xNew := next.x;
      y := next.y;
      x := xNew;
      assert TopPair(ps, t, i);
      points[arrayIndex] := x;
      points[arrayIndex + 1] := y;
      // Mirror point.
      points[arrayIndex + 2] := -x;
      points[arrayIndex + 3] := y;
      arrayIndex := arrayIndex + 4;
      i := i + 1;
    }
  }

  /**
   * The even branch of CreateCircle: the forward pass from the right-most
   * point for half - 1 steps, then the left-most point once. It is stated
   * for any target ps of that shape.
   */
  method FillEvenHalf(n: nat, points: array<real>, t: Turn, ghost ps: seq<Point>) returns (arrayIndex: nat)
    requires ValidCount(n) && !IsOdd(n)
    requires points.Length == 2 * n
    requires |ps| == n && RightShape(ps, t, n / 2 - 1) && ps[n - 1] == Left
    modifies points
    ensures arrayIndex + 2 == n * 2 <= UIntMax
    ensures forall p :: 0 <= p < n ==> points[2 * p] == ps[p].x && points[2 * p + 1] == ps[p].y
  {
    var half := n / 2;
    arrayIndex := RotateFromRight(points, t, ps, half - 1);
    // Last (left-most) point.
    points[arrayIndex] := -1.0;
    points[arrayIndex + 1] := 0.0;
  }

  /**
   * The even branch of CreateCircle2: the forward pass from the right-most
   * point for only half / 2 steps, then the backward scan (ReflectBackward)
   * from StartIndex(half), then the left-most point once. It is stated for
   * any target ps of that shape.
   */
  method FillEvenQuarter(n: nat, points: array<real>, t: Turn, ghost ps: seq<Point>)
    returns (startIndex: int, arrayIndex: nat)
    requires ValidCount(n) && !IsOdd(n)
    requires points.Length == 2 * n
    requires RightShape(ps, t, ForwardSteps(n / 2)) && ScanShape(ps, n)
    modifies points
    ensures startIndex == StartIndex(n / 2)
    ensures arrayIndex + 2 == n * 2 <= UIntMax
    ensures forall p :: 0 <= p < n ==> points[2 * p] == ps[p].x && points[2 * p + 1] == ps[p].y
  {
    var half: int := n / 2;
    arrayIndex := RotateFromRight(points, t, ps, half / 2);
    startIndex := if half % 2 != 0 then half - 2 else half - 3;
    StepsCoverHalf(half);
    arrayIndex := ReflectBackward(points, ps, startIndex, arrayIndex, ForwardEnd(half), BackwardSteps(half));
    // Last (left-most) point.
    points[arrayIndex] := -1.0;
    points[arrayIndex + 1] := 0.0;
  }

  /**
   * The forward pass shared by both even branches: from the right-most
   * point, along the bottom half, each rotated point followed by its mirror
   * (x, -y). It is stated for any target ps of that shape and returns the
   * next free slot.
   */
  method RotateFromRight(points: array<real>, t: Turn, ghost ps: seq<Point>, steps: nat)
    returns (arrayIndex: nat)
    requires points.Length == 2 * |ps|
    requires RightShape(ps, t, steps)
    modifies points
    ensures arrayIndex == 2 * (2 * steps + 1)
    ensures forall p :: 0 <= p < 2 * steps + 1 ==> points[2 * p] == ps[p].x && points[2 * p + 1] == ps[p].y
    ensures forall q :: arrayIndex <= q < points.Length ==> points[q] == old(points[q])
  {
    var x: real, y: real;
    arrayIndex := 2;
    // First (right-most) point.
    x, y := 1.0, 0.0;
    points[0], points[1] := x, y;
    var i := 0;
    while i < steps
      invariant 0 <= i <= steps
      invariant arrayIndex == 2 + 4 * i
      invariant Point(x, y) == Rotations(t, i, Right)
      invariant forall p :: 0 <= p < 1 + 2 * i ==> points[2 * p] == ps[p].x && points[2 * p + 1] == ps[p].y
      invariant forall q :: arrayIndex <= q < points.Length ==> points[q] == old(points[q])
    {
      var next := Rotate(t, Point(x, y));
      var xNew := next.x;
      y := next.y;
      x := xNew;
      assert RightPair(ps, t, i);
      points[arrayIndex] := x;
      points[arrayIndex + 1] := y;
      // Mirror point.
      points[arrayIndex + 2] := x;
      points[arrayIndex + 3] := -y;
      arrayIndex := arrayIndex + 4;
      i := i + 1;
    }
  }

  /**
   * The backward scan of CreateCircle2: over the odd point indices from
   * startIndex down to 1, it reads each point back (always one already in
   * place) and writes (-x, y) and (-x, -y) of it after the points already
   * in place. It is stated for any target ps of the scan's shape, with the
   * forward pass ending at point w and b = (startIndex + 1) / 2 iterations;
   * it returns the next free slot.
   */
  method ReflectBackward(points: array<real>, ghost ps: seq<Point>, startIndex: int, arrayIndex0: nat,
                         ghost w: nat, ghost b: nat)
    returns (arrayIndex: nat)
    requires points.Length == 2 * |ps| && |ps| <= MaxPoints
    requires startIndex + 1 == 2 * b && startIndex < w && w + 2 * b + 1 == |ps|
    requires arrayIndex0 == 2 * w
    requires forall k :: 0 <= k < b ==> ReflectsPair(ps, w, startIndex, k)
    requires forall p :: 0 <= p < w ==> points[2 * p] == ps[p].x && points[2 * p + 1] == ps[p].y
    modifies points
    ensures arrayIndex == 2 * (w + 2 * b)
    ensures forall p :: 0 <= p < w + 2 * b ==> points[2 * p] == ps[p].x && points[2 * p + 1] == ps[p].y
    ensures forall q :: arrayIndex <= q < points.Length ==> points[q] == old(points[q])
  {
    arrayIndex := arrayIndex0;
    var x: real, y: real;
    var i := startIndex;
    ghost var k := 0;
    while i > 0
      invariant 0 <= k <= b && i == startIndex - 2 * k
      invariant arrayIndex == 2 * (w + 2 * k)
      invariant forall p :: 0 <= p < w + 2 * k ==> points[2 * p] == ps[p].x && points[2 * p + 1] == ps[p].y
      invariant forall q :: arrayIndex <= q < points.Length ==> points[q] == old(points[q])
      decreases i
    {
      assert ReflectsPair(ps, w, startIndex, k);
      assert i * 2 + 1 <= IntMax;
      x := points[i * 2];
      y := points[i * 2 + 1];
      points[arrayIndex] := -x;
      points[arrayIndex + 1] := y;
      // Mirror point.
      points[arrayIndex + 2] := -x;
      points[arrayIndex + 3] := -y;
      arrayIndex := arrayIndex + 4;
      i := i - 2;
      k := k + 1;
    }
  }
}
