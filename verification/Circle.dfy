/** Angles in degrees on a circle, clockwise positive. */
module Circle {

  function Turns(x: real): int {
    (x / 360.0).Floor
  }

  /** The angle as a point of [0, 360). */
  function Norm(x: real): (r: real)
    ensures 0.0 <= r < 360.0
  {
    x - 360.0 * (Turns(x) as real)
  }

  /** Two angles that name the same point: they differ by whole turns. */
  ghost predicate SamePoint(a: real, b: real) {
    Norm(a) == Norm(b)
  }

  lemma NormUnique(x: real, r: real, k: int)
    requires 0.0 <= r < 360.0 && x == r + 360.0 * (k as real)
    ensures Norm(x) == r
  {
    assert x / 360.0 == r / 360.0 + k as real;
    assert Turns(x) == k;
  }

  /** Whole turns do not move a point. */
  lemma AddTurns(x: real, y: real, k: int)
    requires x == y + 360.0 * (k as real)
    ensures Norm(x) == Norm(y)
  {
    var t := k + Turns(y);
    assert t as real == k as real + Turns(y) as real;
    NormUnique(x, Norm(y), t);
  }

  /** Points that coincide differ by whole turns. */
  lemma TurnsBetween(a: real, b: real) returns (k: int)
    requires SamePoint(a, b)
    ensures a == b + 360.0 * (k as real)
  {
    k := Turns(a) - Turns(b);
    assert k as real == Turns(a) as real - Turns(b) as real;
  }

  /** Rotating a normalized angle is rotating the angle. */
  lemma NormAdd(x: real, y: real)
    ensures Norm(Norm(x) + y) == Norm(x + y)
    ensures Norm(y - Norm(x)) == Norm(y - x)
  {
    AddTurns(x + y, Norm(x) + y, Turns(x));
    AddTurns(y - Norm(x), y - x, Turns(x));
  }

  /** A difference of points only depends on the points. */
  lemma NormDifference(a: real, b: real)
    ensures Norm(Norm(b) - Norm(a)) == Norm(b - a)
  {
    NormAdd(a, Norm(b));
    NormAdd(b, -a);
  }

  // ---- products and quotients ----------------------------------------------

  lemma NonNegative(a: real, b: real)
    requires a >= 0.0 && b >= 0.0
    ensures a * b >= 0.0
  {
  }

  lemma QuotientExceeds(a: real, b: real, c: real)
    requires b > 0.0
    ensures a / b > c <==> a > c * b
  {
    var q := a / b;
    assert q * b == a;
    if q > c { Scaled(c, q, b); }
    if q <= c { Scaled(q, c, b); }
  }

  lemma Scaled(x: real, y: real, b: real)
    requires x <= y && b > 0.0
    ensures x * b <= y * b && (x < y ==> x * b < y * b)
  {
    NonNegative(y - x, b);
    assert (y - x) * b == y * b - x * b;
    if x < y { Positive(y - x, b); }
  }

  lemma Positive(a: real, b: real)
    requires a > 0.0 && b > 0.0
    ensures a * b > 0.0
  {
  }

  // ---- rotations -----------------------------------------------------------

  /** The signed rotation from one angle to another, never more than half a turn. */
  function ShortestDelta(current: real, target: real): (d: real)
    ensures -180.0 < d <= 180.0
    ensures SamePoint(current + d, target)
  {
    var d := Norm(target - current);
    AddTurns(current + d, target, -Turns(target - current));
    AddTurns(current + (d - 360.0), current + d, -1);
    if d > 180.0 then d - 360.0 else d
  }

  function Abs(x: real): real {
    if x < 0.0 then -x else x
  }

  /** No rotation between the two points is shorter. */
  lemma ShortestIsShortest(current: real, target: real, other: real)
    requires SamePoint(current + other, target)
    ensures Abs(ShortestDelta(current, target)) <= Abs(other)
  {
    var d := ShortestDelta(current, target);
    var k := TurnsBetween(current + other, current + d);
    assert other == d + 360.0 * (k as real);
    if k >= 1 {
      assert 360.0 * (k as real) >= 360.0;
    } else if k <= -1 {
      assert 360.0 * (k as real) <= -360.0;
    }
  }

  /** The length of the shorter arc between two points. */
  function Distance(a: real, b: real): (d: real)
    ensures 0.0 <= d <= 180.0
  {
    Abs(ShortestDelta(a, b))
  }

  lemma DistanceSymmetric(a: real, b: real)
    ensures Distance(a, b) == Distance(b, a)
  {
    Reverse(a, b);
    Reverse(b, a);
    ShortestIsShortest(b, a, -ShortestDelta(a, b));
    ShortestIsShortest(a, b, -ShortestDelta(b, a));
  }

  lemma Reverse(a: real, b: real)
    ensures SamePoint(b - ShortestDelta(a, b), a)
  {
    var d := ShortestDelta(a, b);
    var k := TurnsBetween(a + d, b);
    AddTurns(a, b - d, k);
  }

  lemma DistanceTriangle(a: real, b: real, c: real)
    ensures Distance(a, c) <= Distance(a, b) + Distance(b, c)
  {
    var d := ShortestDelta(a, b);
    var e := ShortestDelta(b, c);
    var k := TurnsBetween(a + d, b);
    AddTurns(a + (d + e), b + e, k);
    ShortestIsShortest(a, c, d + e);
  }

  /** Whether travelling from a to b passes the mark, as the code decides it. */
  predicate Crosses(a: real, b: real, mark: real) {
    var a, b, mark := Norm(a), Norm(b), Norm(mark);
    if a <= b then a < mark <= b else mark > a || mark <= b
  }

  /** It always reads the journey clockwise: the mark lies in (a, b] on the
      clockwise arc, whichever way the chute turned. */
  lemma CrossesClockwise(a: real, b: real, mark: real)
    ensures Crosses(a, b, mark) <==> 0.0 < Norm(mark - a) <= Norm(b - a)
  {
    ArcLength(a, b);
    ArcLength(a, mark);
  }

  /** The clockwise arc between two points. */
  lemma ArcLength(a: real, b: real)
    ensures Norm(b - a) == if Norm(a) <= Norm(b) then Norm(b) - Norm(a) else Norm(b) - Norm(a) + 360.0
  {
    NormDifference(a, b);
    if Norm(a) <= Norm(b) {
      NormUnique(Norm(b) - Norm(a), Norm(b) - Norm(a), 0);
    } else {
      NormUnique(Norm(b) - Norm(a), Norm(b) - Norm(a) + 360.0, -1);
    }
  }
}
