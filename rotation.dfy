/**
 * The incremental rotation kernel shared by both circle generators.
 *
 * A point is advanced along the circle by a fixed angle increment a, given by
 * its cosine and sine:
 *   x' = cos(a) * x + sin(a) * y
 *   y' = sin(a) * -x + cos(a) * y
 * Coordinates are exact reals; cos(a) and sin(a) are inputs.
 */
module Rotation {

  datatype Point = Point(x: real, y: real)

  /** The precomputed cosine and sine of the angle increment. */
  datatype Turn = Turn(cos: real, sin: real)

  /** The seed of the odd-count layout: the top of the circle. */
  const Top := Point(0.0, 1.0)
  /** The seed of the even-count layout: the right-most point. */
  const Right := Point(1.0, 0.0)
  /** The fixed last point of the even-count layout: the left-most point. */
  const Left := Point(-1.0, 0.0)

  /** Mirror across the vertical axis. */
  function FlipX(p: Point): Point { Point(-p.x, p.y) }

  /** Mirror across the horizontal axis. */
  function FlipY(p: Point): Point { Point(p.x, -p.y) }

  function SquaredNorm(p: Point): real { p.x * p.x + p.y * p.y }

  predicate OnUnitCircle(p: Point) { SquaredNorm(p) == 1.0 }

  /** An increment whose cosine and sine satisfy cos^2 + sin^2 == 1. */
  predicate IsUnit(t: Turn) { t.cos * t.cos + t.sin * t.sin == 1.0 }

  /**
   * The increment for the other winding direction. The generators negate the
   * angle; since cos is even and sin is odd, that negates only the sine.
   */
  function Reverse(t: Turn): Turn { Turn(t.cos, -t.sin) }

  /**
   * The increment a generator works with, from the cosine and sine of the
   * clockwise angle 2*pi/N and the winding flag.
   */
  function Increment(clockwise: bool, cosTurn: real, sinTurn: real): (t: Turn)
    ensures clockwise ==> Reverse(t) == Turn(cosTurn, -sinTurn)
    ensures !clockwise ==> Reverse(t) == Turn(cosTurn, sinTurn)
  {
    var forward := Turn(cosTurn, sinTurn);
    if clockwise then forward else Reverse(forward)
  }

  /**
   * The two settings of the winding flag give increments that are each
   * other's reverse, and reversing twice is the identity.
   */
  lemma FlagsReverse(clockwise: bool, cosTurn: real, sinTurn: real)
    ensures Increment(!clockwise, cosTurn, sinTurn) == Reverse(Increment(clockwise, cosTurn, sinTurn))
    ensures Reverse(Reverse(Increment(clockwise, cosTurn, sinTurn))) == Increment(clockwise, cosTurn, sinTurn)
  {
  }

  /**
   * One rotation step. The new y is computed from the OLD x, which is what the
   * temporary xNew of the generators provides. Read as complex numbers, the
   * step multiplies the point by cos - i*sin; it scales the squared norm by
   * cos^2 + sin^2, so a unit increment keeps a point on the circle.
   */
  function Rotate(t: Turn, p: Point): (r: Point)
    ensures r == Times(Point(t.cos, -t.sin), p)
  {
    Point(t.cos * p.x + t.sin * p.y, t.sin * -p.x + t.cos * p.y)
  }

  lemma RotateScalesNorm(t: Turn, p: Point)
    ensures SquaredNorm(Rotate(t, p)) == (t.cos * t.cos + t.sin * t.sin) * SquaredNorm(p)
  {
  }

  /** The point reached from p after k rotation steps. */
  function Rotations(t: Turn, k: nat, p: Point): Point
    decreases k
  {
    if k == 0 then p else Rotate(t, Rotations(t, k - 1, p))
  }

  /** With a unit increment, any number of steps keeps the squared norm. */
  lemma {:induction false} RotationsKeepNorm(t: Turn, k: nat, p: Point)
    requires IsUnit(t)
    ensures SquaredNorm(Rotations(t, k, p)) == SquaredNorm(p)
    decreases k
  {
    if k > 0 {
      RotationsKeepNorm(t, k - 1, p);
      RotateScalesNorm(t, Rotations(t, k - 1, p));
    }
  }

  /** a steps after b steps are a + b steps. */
  lemma {:induction false} RotationsCompose(t: Turn, a: nat, b: nat, p: Point)
    ensures Rotations(t, a + b, p) == Rotations(t, a, Rotations(t, b, p))
    decreases a
  {
    if a > 0 {
      RotationsCompose(t, a - 1, b, p);
    }
  }

  /** One step of ReverseMirrorsX. */
  lemma ReverseStepX(t: Turn, q: Point)
    ensures Rotate(Reverse(t), FlipX(q)) == FlipX(Rotate(t, q))
  {
    var c, s := t.cos, t.sin;
    assert c * -q.x + -s * q.y == -(c * q.x + s * q.y);
    assert -s * --q.x + c * q.y == s * -q.x + c * q.y;
  }

  /** One step of ReverseMirrorsY. */
  lemma ReverseStepY(t: Turn, q: Point)
    ensures Rotate(Reverse(t), FlipY(q)) == FlipY(Rotate(t, q))
  {
    var c, s := t.cos, t.sin;
    assert c * q.x + -s * -q.y == c * q.x + s * q.y;
    assert -s * -q.x + c * -q.y == -(s * -q.x + c * q.y);
  }

  /**
   * Rotating the other way is rotating the mirror image: turning FlipX(p)
   * backwards for k steps mirrors p turned forwards for k steps.
   */
  lemma {:induction false} ReverseMirrorsX(t: Turn, k: nat, p: Point)
    ensures Rotations(Reverse(t), k, FlipX(p)) == FlipX(Rotations(t, k, p))
    decreases k
  {
    if k > 0 {
      ReverseMirrorsX(t, k - 1, p);
      ReverseStepX(t, Rotations(t, k - 1, p));
    }
  }

  /** The same as ReverseMirrorsX for the mirror across the horizontal axis. */
  lemma {:induction false} ReverseMirrorsY(t: Turn, k: nat, p: Point)
    ensures Rotations(Reverse(t), k, FlipY(p)) == FlipY(Rotations(t, k, p))
    decreases k
  {
    if k > 0 {
      ReverseMirrorsY(t, k - 1, p);
      ReverseStepY(t, Rotations(t, k - 1, p));
    }
  }

  /** Top is its own mirror, so turning it back mirrors turning it forward. */
  lemma ReverseFromTop(t: Turn, k: nat)
    ensures Rotations(Reverse(t), k, Top) == FlipX(Rotations(t, k, Top))
  {
    ReverseMirrorsX(t, k, Top);
    assert FlipX(Top) == Top;
  }

  /** Right is its own mirror across the horizontal axis. */
  lemma ReverseFromRight(t: Turn, k: nat)
    ensures Rotations(Reverse(t), k, Right) == FlipY(Rotations(t, k, Right))
  {
    ReverseMirrorsY(t, k, Right);
    assert FlipY(Right) == Right;
  }

  /**
   * Points read as complex numbers x + i*y: Times(z, p) is z * p. Rotating
   * by one step is multiplying by the image of Right.
   */
  function Times(z: Point, p: Point): Point
  {
    Point(z.x * p.x - z.y * p.y, z.y * p.x + z.x * p.y)
  }

  /** The polynomial identities behind RotateTimes, on the coordinates alone. */
  lemma RotateTimesAlgebra(c: real, s: real, zx: real, zy: real, px: real, py: real)
    ensures c * (zx * px - zy * py) + s * (zy * px + zx * py)
         == (c * zx + s * zy) * px - (s * -zx + c * zy) * py
    ensures s * -(zx * px - zy * py) + c * (zy * px + zx * py)
         == (s * -zx + c * zy) * px + (c * zx + s * zy) * py
  {
  }

  /** One step commutes with multiplication: rotating z * p is rotating z, times p. */
  lemma RotateTimes(t: Turn, z: Point, p: Point)
    ensures Rotate(t, Times(z, p)) == Times(Rotate(t, z), p)
  {
    RotateTimesAlgebra(t.cos, t.sin, z.x, z.y, p.x, p.y);
  }

  /** k rotation steps multiply by the image of Right after k steps. */
  lemma {:induction false} RotationsAreProducts(t: Turn, k: nat, p: Point)
    ensures Rotations(t, k, p) == Times(Rotations(t, k, Right), p)
    decreases k
  {
    if k > 0 {
      RotationsAreProducts(t, k - 1, p);
      var z := Rotations(t, k - 1, Right);
      var q := Rotations(t, k - 1, p);
      assert q == Times(z, p);
      RotateTimes(t, z, p);
    }
  }

  /**
   * An increment that takes Right to Left in h steps: an exact half turn, as
   * cos and sin of pi/h would be without rounding.
   */
  predicate ExactHalfTurn(t: Turn, h: nat)
  {
    IsUnit(t) && Rotations(t, h, Right) == Left
  }

  /**
   * In complex terms: if w * u == -1 and |u| == 1, then w == -conj(u), the
   * mirror image of u across the vertical axis.
   */
  lemma UnitInverse(w: Point, u: Point)
    requires SquaredNorm(u) == 1.0
    requires Times(w, u) == Left
    ensures w == FlipX(u)
  {
    var re, im := w.x * u.x - w.y * u.y, w.y * u.x + w.x * u.y;
    assert re == -1.0 && im == 0.0;
    calc {
      w.x;
      w.x * (u.x * u.x + u.y * u.y);
      u.x * re + u.y * im;
      -u.x;
    }
    calc {
      w.y;
      w.y * (u.x * u.x + u.y * u.y);
      u.x * im - u.y * re;
      u.y;
    }
  }

  /**
   * Under an exact half turn, h - k steps from Right reach the mirror image
   * (across the vertical axis) of k steps from Right.
   */
  lemma RemainingStepsMirror(t: Turn, h: nat, k: nat)
    requires ExactHalfTurn(t, h)
    requires k <= h
    ensures Rotations(t, h - k, Right) == FlipX(Rotations(t, k, Right))
  {
    var u := Rotations(t, k, Right);
    var w := Rotations(t, h - k, Right);
    RotationsCompose(t, h - k, k, Right);
    RotationsAreProducts(t, h - k, u);
    assert Times(w, u) == Left;
    RotationsKeepNorm(t, k, Right);
    UnitInverse(w, u);
  }
}
