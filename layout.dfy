/**
 * What the generators write: the specification of the output buffer, point
 * by point, for both the half-symmetry and the quarter-symmetry layouts, and
 * the properties of those layouts.
 *
 * Point index p occupies buffer slots 2p (x) and 2p + 1 (y). With
 * h = N / 2 (integer division):
 *   odd N:  point 0 is Top; rotated point k (k >= 1) is at 2k - 1 and its
 *           mirror across the vertical axis at 2k;
 *   even N: point 0 is Right; rotated point k is at 2k - 1 and its mirror
 *           across the horizontal axis at 2k; point N - 1 is Left.
 * The quarter-symmetry layout for even N computes only the first h / 2
 * rotated pairs and fills the points after them, up to N - 2, by reading
 * rotated points back and negating their coordinates.
 */
module Layout {
  import opened Rotation
  import opened Parity

  /**
   * The largest point count the model admits: the C++ code doubles the count
   * in unsigned int (the asserts) and doubles scan indices in int.
   */
  const MaxPoints: int := 0x7FFF_FFFF
  /** The largest value of C++'s 32-bit `int`. */
  const IntMax: int := 0x7FFF_FFFF
  /** The largest value of C++'s 32-bit `unsigned int`. */
  const UIntMax: int := 0xFFFF_FFFF

  predicate ValidCount(n: int) { 1 <= n <= MaxPoints }

  /** Interleave points as x0, y0, x1, y1, ...: point p sits in slots 2p and 2p + 1. */
  function Flatten(ps: seq<Point>): (r: seq<real>)
    ensures |r| == 2 * |ps|
    ensures forall p :: 0 <= p < |ps| ==> r[2 * p] == ps[p].x && r[2 * p + 1] == ps[p].y
  {
    seq(2 * |ps|, q requires 0 <= q < 2 * |ps| => if q % 2 == 0 then ps[q / 2].x else ps[q / 2].y)
  }

  /** A buffer holding every point's coordinates in its two slots is the flattened points. */
  lemma FlattenUnique(buf: seq<real>, ps: seq<Point>)
    requires |buf| == 2 * |ps|
    requires forall p :: 0 <= p < |ps| ==> buf[2 * p] == ps[p].x && buf[2 * p + 1] == ps[p].y
    ensures buf == Flatten(ps)
  {
    var r := Flatten(ps);
    forall q | 0 <= q < |buf|
      ensures buf[q] == r[q]
    {
      var p := q / 2;
      assert q == 2 * p || q == 2 * p + 1;
    }
  }

  // ----- Half symmetry -----

  /** Point p of the odd-count layout. */
  function OddPoint(t: Turn, p: nat): Point
  {
    if p == 0 then Top
    else
      var r := Rotations(t, (p + 1) / 2, Top);
      if p % 2 == 1 then r else FlipX(r)
  }

  /** Point p of the even-count half-symmetry layout of n points. */
  function EvenPoint(n: nat, t: Turn, p: nat): Point
    requires p < n
  {
    if p == 0 then Right
    else if p == n - 1 then Left
    else
      var r := Rotations(t, (p + 1) / 2, Right);
      if p % 2 == 1 then r else FlipY(r)
  }

  /** Point p of the half-symmetry layout; the parity of n picks the branch. */
  function HalfPoint(n: nat, t: Turn, p: nat): Point
    requires p < n
  {
    if IsOdd(n) then OddPoint(t, p) else EvenPoint(n, t, p)
  }

  function HalfCircle(n: nat, t: Turn): (ps: seq<Point>)
    ensures |ps| == n
    ensures forall p :: 0 <= p < n ==> ps[p] == HalfPoint(n, t, p)
  {
    seq(n, p requires 0 <= p < n => HalfPoint(n, t, p))
  }

  /** The whole buffer the half-symmetry generator fills. */
  function HalfBuffer(n: nat, t: Turn): (buf: seq<real>)
    ensures |buf| == 2 * n
  {
    Flatten(HalfCircle(n, t))
  }

  /**
   * The odd-count layout as the loop builds it, step k < n / 2: the point
   * k + 1 rotations from Top, then its mirror across the vertical axis.
   */
  lemma OddSlots(n: nat, t: Turn, k: nat)
    requires IsOdd(n) && k < n / 2
    ensures 2 * k + 2 < n
    ensures OddPoint(t, 2 * k + 1) == Rotations(t, k + 1, Top)
    ensures OddPoint(t, 2 * k + 2) == FlipX(Rotations(t, k + 1, Top))
  {
    assert (2 * k + 2) / 2 == k + 1 && (2 * k + 3) / 2 == k + 1;
    assert (2 * k + 1) % 2 == 1 && (2 * k + 2) % 2 == 0;
  }

  /**
   * The even-count half layout as the loop builds it, step k < n / 2 - 1:
   * the point k + 1 rotations from Right, then its mirror across the
   * horizontal axis; the seed is Right and the last point Left.
   */
  lemma EvenSlots(n: nat, t: Turn, k: nat)
    requires !IsOdd(n) && k + 1 < n / 2
    ensures 2 * k + 2 < n - 1
    ensures EvenPoint(n, t, 2 * k + 1) == Rotations(t, k + 1, Right)
    ensures EvenPoint(n, t, 2 * k + 2) == FlipY(Rotations(t, k + 1, Right))
  {
    assert (2 * k + 2) / 2 == k + 1 && (2 * k + 3) / 2 == k + 1;
    assert (2 * k + 1) % 2 == 1 && (2 * k + 2) % 2 == 0;
  }

  /** The seed of the even half layout, and its last point. */
  lemma EvenEnds(n: nat, t: Turn)
    requires n >= 2 && !IsOdd(n)
    ensures EvenPoint(n, t, 0) == Right && EvenPoint(n, t, n - 1) == Left
  {
  }

  // ----- Quarter symmetry (even n) -----

  /** The number of rotation steps of the quarter-symmetry forward pass. */
  function ForwardSteps(h: nat): nat { h / 2 }

  /** The first point index after the forward pass. */
  function ForwardEnd(h: nat): (w: nat)
    ensures w % 2 == 1
  {
    2 * ForwardSteps(h) + 1
  }

  /**
   * The point index the backward scan starts reading at: the last rotated
   * point when h is odd, the one before it when h is even. For even h the
   * last forward step reaches the pole a quarter turn from Right, at point
   * h - 1, and the scan does not reflect it: that keeps the pole and its
   * mirror at point h from being written a second time. It is
   * odd, at least -1, and below ForwardEnd(h) - 1, so every index the scan
   * reads holds a rotated point the forward pass wrote.
   */
  function StartIndex(h: int): (s: int)
    requires h >= 1
    ensures s % 2 == 1
    ensures -1 <= s <= 2 * (h / 2) - 1
    ensures h >= 2 && h % 2 == 1 ==> s == 2 * ForwardSteps(h) - 1
    ensures h >= 2 && h % 2 == 0 ==> s == 2 * ForwardSteps(h) - 3
  {
    if h % 2 != 0 then h - 2 else h - 3
  }

  /** The number of iterations of the scan `for (i = s; i > 0; i -= 2)`. */
  function BackwardSteps(h: int): nat
    requires h >= 1
  {
    (StartIndex(h) + 1) / 2
  }

  /** Forward and backward steps together are the h - 1 steps of the half layout. */
  lemma StepsCoverHalf(h: int)
    requires h >= 1
    ensures ForwardSteps(h) + BackwardSteps(h) == h - 1
    ensures ForwardEnd(h) + 2 * BackwardSteps(h) + 1 == 2 * h
  {
  }

  /**
   * The point index the backward scan reads for output point p, for
   * ForwardEnd(h) <= p < n - 1: each read index yields two output points. It
   * is an odd index, so it holds a rotated point and not a mirror, and it lies
   * inside the forward pass, below p.
   */
  function ScanSource(n: nat, p: nat): (i: int)
    requires n >= 2 && !IsOdd(n)
    requires ForwardEnd(n / 2) <= p < n - 1
    ensures i % 2 == 1
    ensures 1 <= i < ForwardEnd(n / 2) <= p
  {
    var h := n / 2;
    StepsCoverHalf(h);
    StartIndex(h) - 2 * ((p - ForwardEnd(h)) / 2)
  }

  /** Point p of the quarter-symmetry layout. */
  function QuarterPoint(n: nat, t: Turn, p: nat): Point
    requires p < n
  {
    if IsOdd(n) then OddPoint(t, p)
    else
      var w := ForwardEnd(n / 2);
      if p < w || p == n - 1 then EvenPoint(n, t, p)
      else
        var r := EvenPoint(n, t, ScanSource(n, p));
        if (p - w) % 2 == 0 then FlipX(r) else FlipX(FlipY(r))
  }

  function QuarterCircle(n: nat, t: Turn): (ps: seq<Point>)
    ensures |ps| == n
    ensures forall p :: 0 <= p < n ==> ps[p] == QuarterPoint(n, t, p)
  {
    seq(n, p requires 0 <= p < n => QuarterPoint(n, t, p))
  }

  /** The whole buffer the quarter-symmetry generator fills. */
  function QuarterBuffer(n: nat, t: Turn): (buf: seq<real>)
    ensures |buf| == 2 * n
  {
    Flatten(QuarterCircle(n, t))
  }

  /** The seed of the even quarter layout, and its last point. */
  lemma QuarterEnds(n: nat, t: Turn)
    requires n >= 2 && !IsOdd(n)
    ensures QuarterPoint(n, t, 0) == Right && QuarterPoint(n, t, n - 1) == Left
  {
  }

  /** The forward pass of the quarter layout, as the loop builds it, step k. */
  lemma QuarterForwardSlots(n: nat, t: Turn, k: nat)
    requires n >= 2 && !IsOdd(n)
    requires k < ForwardSteps(n / 2)
    ensures 2 * k + 2 < ForwardEnd(n / 2) <= n - 1
    ensures QuarterPoint(n, t, 2 * k + 1) == Rotations(t, k + 1, Right)
    ensures QuarterPoint(n, t, 2 * k + 2) == FlipY(Rotations(t, k + 1, Right))
  {
    assert (2 * k + 2) / 2 == k + 1;
  }

  /**
   * The indices of iteration k of the backward scan: it reads odd point
   * index j = s - 2k, below the points p = w + 2k and p + 1 it writes, which
   * come before the last point; ScanSource names j for both.
   */
  lemma ScanIndices(n: nat, k: nat)
    requires n >= 2 && !IsOdd(n)
    requires k < BackwardSteps(n / 2)
    ensures var j, p := StartIndex(n / 2) - 2 * k, ForwardEnd(n / 2) + 2 * k;
      0 < j < p && p + 1 < n - 1 && j % 2 == 1
      && ScanSource(n, p) == j && ScanSource(n, p + 1) == j
      && (p - ForwardEnd(n / 2)) % 2 == 0 && (p + 1 - ForwardEnd(n / 2)) % 2 == 1
  {
    StepsCoverHalf(n / 2);
    OddStepsDown(StartIndex(n / 2), k);
    assert (2 * k) / 2 == k && (2 * k + 1) / 2 == k;
  }

  /**
   * Iteration k of the backward scan writes (-x, y) and (-x, -y) of the
   * point it reads.
   */
  lemma ScanStep(n: nat, t: Turn, k: nat)
    requires n >= 2 && !IsOdd(n)
    requires k < BackwardSteps(n / 2)
    ensures var j, p := StartIndex(n / 2) - 2 * k, ForwardEnd(n / 2) + 2 * k;
      0 < j < p && p + 1 < n - 1 && j % 2 == 1
      && QuarterPoint(n, t, p) == FlipX(QuarterPoint(n, t, j))
      && QuarterPoint(n, t, p + 1) == FlipX(FlipY(QuarterPoint(n, t, j)))
  {
    ScanIndices(n, k);
    ScanReflectsEarlierPoint(n, t, ForwardEnd(n / 2) + 2 * k);
    ScanReflectsEarlierPoint(n, t, ForwardEnd(n / 2) + 2 * k + 1);
  }

  /**
   * Each point after the forward pass (except the last) is an exact sign
   * flip of an earlier point of the same layout that is a rotated point:
   * (-x, y) for the first of each pair, (-x, -y) for the second.
   */
  lemma ScanReflectsEarlierPoint(n: nat, t: Turn, p: nat)
    requires n >= 2 && !IsOdd(n)
    requires ForwardEnd(n / 2) <= p < n - 1
    ensures var i := ScanSource(n, p);
      0 < i < p
      && QuarterPoint(n, t, i) == Rotations(t, (i + 1) / 2, Right)
      && QuarterPoint(n, t, p) ==
           if (p - ForwardEnd(n / 2)) % 2 == 0 then FlipX(QuarterPoint(n, t, i))
           else FlipX(FlipY(QuarterPoint(n, t, i)))
  {
  }

  // ----- What the loops rely on -----

  /**
   * Iteration k of the odd-count loop: the points it writes, at 2k + 1 and
   * 2k + 2, are the point k + 1 rotations from Top and its mirror (-x, y).
   */
  ghost predicate TopPair(ps: seq<Point>, t: Turn, k: int)
  {
    0 <= k && 2 * k + 2 < |ps|
    && ps[2 * k + 1] == Rotations(t, k + 1, Top) && ps[2 * k + 2] == FlipX(Rotations(t, k + 1, Top))
  }

  /**
   * Iteration k of an even-count forward loop: the points it writes, at
   * 2k + 1 and 2k + 2, are the point k + 1 rotations from Right and its
   * mirror (x, -y).
   */
  ghost predicate RightPair(ps: seq<Point>, t: Turn, k: int)
  {
    0 <= k && 2 * k + 2 < |ps|
    && ps[2 * k + 1] == Rotations(t, k + 1, Right) && ps[2 * k + 2] == FlipY(Rotations(t, k + 1, Right))
  }

  /** The shape the odd-count loop builds: Top, then n / 2 pairs mirrored (-x, y). */
  ghost predicate OddShape(ps: seq<Point>, n: nat, t: Turn)
  {
    |ps| == n == 2 * (n / 2) + 1 && ps[0] == Top
    && forall k :: 0 <= k < n / 2 ==> TopPair(ps, t, k)
  }

  /** The shape an even-count forward loop of the given number of steps builds: Right, then pairs mirrored (x, -y). */
  ghost predicate RightShape(ps: seq<Point>, t: Turn, steps: nat)
  {
    2 * steps + 1 <= |ps| && ps[0] == Right
    && forall k :: 0 <= k < steps ==> RightPair(ps, t, k)
  }

  /** The odd-count half layout has the odd loop's shape. */
  lemma HalfOddShape(n: nat, t: Turn)
    requires IsOdd(n)
    ensures OddShape(HalfCircle(n, t), n, t)
  {
    forall k | 0 <= k < n / 2
      ensures TopPair(HalfCircle(n, t), t, k)
    {
      OddSlots(n, t, k);
    }
  }

  /** The even-count half layout: n / 2 - 1 forward steps, then Left. */
  lemma HalfEvenShape(n: nat, t: Turn)
    requires n >= 2 && !IsOdd(n)
    ensures RightShape(HalfCircle(n, t), t, n / 2 - 1) && |HalfCircle(n, t)| == n
    ensures HalfCircle(n, t)[n - 1] == Left
  {
    EvenEnds(n, t);
    forall k | 0 <= k < n / 2 - 1
      ensures RightPair(HalfCircle(n, t), t, k)
    {
      EvenSlots(n, t, k);
    }
  }

  /** The even-count quarter layout: ForwardSteps(n / 2) forward steps. */
  lemma QuarterForwardShape(n: nat, t: Turn)
    requires n >= 2 && !IsOdd(n)
    ensures RightShape(QuarterCircle(n, t), t, ForwardSteps(n / 2))
  {
    QuarterEnds(n, t);
    forall k | 0 <= k < ForwardSteps(n / 2)
      ensures RightPair(QuarterCircle(n, t), t, k)
    {
      QuarterForwardSlots(n, t, k);
    }
  }

  /**
   * What iteration k of the backward scan relies on, when the forward pass
   * ends at point w and the scan starts reading at s: the index it reads,
   * j = s - 2k, is odd and positive; the two points it writes, at
   * p = w + 2k and p + 1, come after j and before the last point; and they
   * are (-x, y) and (-x, -y) of point j.
   */
  ghost predicate ReflectsPair(ps: seq<Point>, w: int, s: int, k: int)
  {
    var j, p := s - 2 * k, w + 2 * k;
    0 < j < p && p + 1 < |ps| - 1 && j % 2 == 1
    && ps[p] == FlipX(ps[j]) && ps[p + 1] == FlipX(FlipY(ps[j]))
  }

  /** The shape the backward scan relies on: every iteration reflects, and the last point is Left. */
  ghost predicate ScanShape(ps: seq<Point>, n: nat)
    requires n >= 2
  {
    |ps| == n && ps[n - 1] == Left
    && forall k :: 0 <= k < BackwardSteps(n / 2) ==>
         ReflectsPair(ps, ForwardEnd(n / 2), StartIndex(n / 2), k)
  }

  /** The quarter layout has the shape the backward scan relies on. */
  lemma QuarterScanShape(n: nat, t: Turn)
    requires n >= 2 && !IsOdd(n)
    ensures ScanShape(QuarterCircle(n, t), n)
  {
    var h := n / 2;
    QuarterEnds(n, t);
    StepsCoverHalf(h);
    forall k | 0 <= k < BackwardSteps(h)
      ensures ReflectsPair(QuarterCircle(n, t), ForwardEnd(h), StartIndex(h), k)
    {
      ScanStep(n, t, k);
    }
  }

  // ----- How the two layouts agree -----

  /** For odd n the two generators fill identical buffers. */
  lemma OddLayoutsAgree(n: nat, t: Turn)
    requires IsOdd(n)
    ensures QuarterBuffer(n, t) == HalfBuffer(n, t)
  {
    assert QuarterCircle(n, t) == HalfCircle(n, t);
  }

  /**
   * For even n the two generators agree on the seed, on every point of the
   * quarter layout's forward pass, and on the final Left point.
   */
  lemma EvenLayoutsAgreeOnForwardPass(n: nat, t: Turn, p: nat)
    requires n >= 2 && !IsOdd(n)
    requires p < ForwardEnd(n / 2) || p == n - 1
    ensures p < n && QuarterPoint(n, t, p) == HalfPoint(n, t, p)
  {
  }

  /**
   * For odd n the two generators always fill identical buffers. For even n,
   * with an increment that is an exact half turn in h = n / 2 steps, the
   * reflected points of the quarter layout are exactly the rotations the
   * half layout computes, so again the buffers are identical.
   */
  lemma ExactLayoutsAgree(n: nat, t: Turn)
    requires n >= 1
    requires !IsOdd(n) ==> ExactHalfTurn(t, n / 2)
    ensures QuarterBuffer(n, t) == HalfBuffer(n, t)
  {
    if IsOdd(n) {
      OddLayoutsAgree(n, t);
    } else {
      forall p | 0 <= p < n
        ensures QuarterPoint(n, t, p) == HalfPoint(n, t, p)
      {
        if ForwardEnd(n / 2) <= p < n - 1 {
          ExactReflection(n, t, p);
        }
      }
      assert QuarterCircle(n, t) == HalfCircle(n, t);
    }
  }

  /**
   * The index arithmetic behind ExactLayoutsAgree: the rotation count of
   * output point p and that of the point the scan reads for it add up to h.
   */
  lemma ScanRotationCounts(n: nat, p: nat)
    requires n >= 2 && !IsOdd(n)
    requires ForwardEnd(n / 2) <= p < n - 1
    ensures (p + 1) / 2 + (ScanSource(n, p) + 1) / 2 == n / 2
  {
    var h := n / 2;
    var j := (p - ForwardEnd(h)) / 2;
    StepsCoverHalf(h);
    assert (p + 1) / 2 == ForwardSteps(h) + 1 + j;
    assert (ScanSource(n, p) + 1) / 2 == BackwardSteps(h) - j;
  }

  /** A reflected point of the quarter layout, in terms of the rotation it reflects. */
  lemma ScanPointRotated(n: nat, t: Turn, p: nat)
    requires n >= 2 && !IsOdd(n)
    requires ForwardEnd(n / 2) <= p < n - 1
    ensures var u := Rotations(t, (ScanSource(n, p) + 1) / 2, Right);
      QuarterPoint(n, t, p) == if p % 2 == 1 then FlipX(u) else FlipX(FlipY(u))
  {
    ScanReflectsEarlierPoint(n, t, p);
    OddDifference(ForwardEnd(n / 2), p);
  }

  /** An interior point of the even half layout, in terms of its rotation. */
  lemma EvenInterior(n: nat, t: Turn, p: nat)
    requires !IsOdd(n) && 0 < p < n - 1
    ensures var r := Rotations(t, (p + 1) / 2, Right);
      HalfPoint(n, t, p) == if p % 2 == 1 then r else FlipY(r)
  {
  }

  /** One reflected point of ExactLayoutsAgree. */
  lemma ExactReflection(n: nat, t: Turn, p: nat)
    requires n >= 2 && !IsOdd(n)
    requires ExactHalfTurn(t, n / 2)
    requires ForwardEnd(n / 2) <= p < n - 1
    ensures QuarterPoint(n, t, p) == HalfPoint(n, t, p)
  {
    var k := (ScanSource(n, p) + 1) / 2;
    ScanPointRotated(n, t, p);
    EvenInterior(n, t, p);
    ScanRotationCounts(n, p);
    assert (p + 1) / 2 == n / 2 - k;
    RemainingStepsMirror(t, n / 2, k);
  }

  // ----- Winding direction -----

  /** The mirror that relates the two winding directions: vertical axis for odd n, horizontal for even n. */
  function DirectionMirror(n: nat, q: Point): Point
  {
    if IsOdd(n) then FlipX(q) else FlipY(q)
  }

  /**
   * Reversing the winding direction mirrors every point of the half layout:
   * across the vertical axis for odd n (each rotated point trades places
   * with its mirror), across the horizontal axis for even n.
   */
  lemma HalfReversed(n: nat, t: Turn, p: nat)
    requires p < n
    ensures HalfPoint(n, Reverse(t), p) == DirectionMirror(n, HalfPoint(n, t, p))
  {
    if IsOdd(n) {
      OddReversed(t, p);
    } else {
      EvenReversed(n, t, p);
    }
  }

  lemma OddReversed(t: Turn, p: nat)
    ensures OddPoint(Reverse(t), p) == FlipX(OddPoint(t, p))
  {
    if p > 0 {
      ReverseFromTop(t, (p + 1) / 2);
    }
  }

  lemma EvenReversed(n: nat, t: Turn, p: nat)
    requires p < n
    ensures EvenPoint(n, Reverse(t), p) == FlipY(EvenPoint(n, t, p))
  {
    if 0 < p < n - 1 {
      ReverseFromRight(t, (p + 1) / 2);
    }
  }

  /** The same for the quarter layout. */
  lemma QuarterReversed(n: nat, t: Turn, p: nat)
    requires p < n
    ensures QuarterPoint(n, Reverse(t), p) == DirectionMirror(n, QuarterPoint(n, t, p))
  {
    if IsOdd(n) || p < ForwardEnd(n / 2) || p == n - 1 {
      HalfReversed(n, t, p);
    } else {
      HalfReversed(n, t, ScanSource(n, p));
    }
  }

  /**
   * The winding flag as the generators receive it: with the same cosine and
   * sine, the other flag setting mirrors every point of the half layout.
   */
  lemma FlagMirrorsHalf(n: nat, clockwise: bool, cosTurn: real, sinTurn: real, p: nat)
    requires p < n
    ensures HalfPoint(n, Increment(!clockwise, cosTurn, sinTurn), p)
         == DirectionMirror(n, HalfPoint(n, Increment(clockwise, cosTurn, sinTurn), p))
  {
    FlagsReverse(clockwise, cosTurn, sinTurn);
    HalfReversed(n, Increment(clockwise, cosTurn, sinTurn), p);
  }

  /** The same for the quarter layout. */
  lemma FlagMirrorsQuarter(n: nat, clockwise: bool, cosTurn: real, sinTurn: real, p: nat)
    requires p < n
    ensures QuarterPoint(n, Increment(!clockwise, cosTurn, sinTurn), p)
         == DirectionMirror(n, QuarterPoint(n, Increment(clockwise, cosTurn, sinTurn), p))
  {
    FlagsReverse(clockwise, cosTurn, sinTurn);
    QuarterReversed(n, Increment(clockwise, cosTurn, sinTurn), p);
  }

  // ----- Unit circle -----

  lemma MirrorsKeepNorm(r: Point)
    ensures SquaredNorm(FlipX(r)) == SquaredNorm(r)
    ensures SquaredNorm(FlipY(r)) == SquaredNorm(r)
    ensures SquaredNorm(FlipX(FlipY(r))) == SquaredNorm(r)
  {
  }

  /** A rotation from a seed on the circle, or a mirror of one, is on the circle. */
  lemma RotatedOnUnitCircle(t: Turn, k: nat, seed: Point)
    requires IsUnit(t) && OnUnitCircle(seed)
    ensures OnUnitCircle(Rotations(t, k, seed))
    ensures OnUnitCircle(FlipX(Rotations(t, k, seed)))
    ensures OnUnitCircle(FlipY(Rotations(t, k, seed)))
    ensures OnUnitCircle(FlipX(FlipY(Rotations(t, k, seed))))
  {
    RotationsKeepNorm(t, k, seed);
    MirrorsKeepNorm(Rotations(t, k, seed));
  }

  /**
   * With cos^2 + sin^2 == 1 every point of the half layout lies exactly on
   * the unit circle.
   */
  lemma HalfOnUnitCircle(n: nat, t: Turn, p: nat)
    requires IsUnit(t)
    requires p < n
    ensures OnUnitCircle(HalfPoint(n, t, p))
  {
    var k := (p + 1) / 2;
    if IsOdd(n) {
      RotatedOnUnitCircle(t, k, Top);
    } else {
      RotatedOnUnitCircle(t, k, Right);
    }
  }

  /** The same for the quarter layout. */
  lemma QuarterOnUnitCircle(n: nat, t: Turn, p: nat)
    requires IsUnit(t)
    requires p < n
    ensures OnUnitCircle(QuarterPoint(n, t, p))
  {
    if IsOdd(n) || p < ForwardEnd(n / 2) || p == n - 1 {
      HalfOnUnitCircle(n, t, p);
    } else {
      var i := ScanSource(n, p);
      RotatedOnUnitCircle(t, (i + 1) / 2, Right);
    }
  }
}
