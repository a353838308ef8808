/** Points, squared distances, headings and the C/C++ integer conversions
    shared by the detection, pairing and simulation code. */
module Geometry {
  /** An integer pixel position (an OpenCV centroid after `int(m10/m00)`). */
  datatype Pt = Pt(x: int, y: int)

  /** A real-valued position (window coordinates, filtered points, vehicle points). */
  datatype RPt = RPt(x: real, y: real)

  function Abs(a: int): nat { if a < 0 then -a else a }
  function AbsR(a: real): real { if a < 0.0 then -a else a }
  function Min(a: int, b: int): int { if a <= b then a else b }
  function Max(a: int, b: int): int { if a >= b then a else b }
  function MinR(a: real, b: real): real { if a <= b then a else b }
  function MaxR(a: real, b: real): real { if a >= b then a else b }

  lemma SquareZero(d: int)
    ensures d * d >= 0
    ensures d * d == 0 <==> d == 0
  {
    if d < 0 {
      assert d * d == (-d) * (-d);
    }
  }

  /** Squared Euclidean distance: comparing it replaces every `sqrt`
      comparison of the source (`d < 200` is `SqDist < 40000`). */
  function SqDist(a: Pt, b: Pt): (r: nat)
    ensures r == 0 <==> a == b
  {
    SquareZero(a.x - b.x);
    SquareZero(a.y - b.y);
    (a.x - b.x) * (a.x - b.x) + (a.y - b.y) * (a.y - b.y)
  }

  lemma SqDistSymmetric(a: Pt, b: Pt)
    ensures SqDist(a, b) == SqDist(b, a)
  {
    assert (a.x - b.x) * (a.x - b.x) == (b.x - a.x) * (b.x - a.x);
    assert (a.y - b.y) * (a.y - b.y) == (b.y - a.y) * (b.y - a.y);
  }

  /** Squared distance of real points. */
  function SqDistR(a: RPt, b: RPt): (r: real)
    ensures r >= 0.0
  {
    (a.x - b.x) * (a.x - b.x) + (a.y - b.y) * (a.y - b.y)
  }

  function ToReal(p: Pt): RPt { RPt(p.x as real, p.y as real) }

  /** `dist < t` for a Euclidean distance `dist = sqrt(sq)`, without the root. */
  predicate DistBelow(sq: real, t: real)
    requires sq >= 0.0
  {
    t > 0.0 && sq < t * t
  }

  /** `dist > t` for a Euclidean distance `dist = sqrt(sq)`, without the root. */
  predicate DistAbove(sq: real, t: real)
    requires sq >= 0.0
  {
    t < 0.0 || sq > t * t
  }

  lemma {:induction false} BelowNotAbove(sq: real, t: real)
    requires sq >= 0.0
    ensures DistBelow(sq, t) ==> !DistAbove(sq, t)
    ensures DistAbove(sq, t) ==> !DistBelow(sq, t)
  {
  }

  /** `math.degrees(math.atan2(y, x))` (or `atan2f(...) * 180 / PI`) is not computed here:
      it is a parameter of every heading computation. */
  type Atan2Deg = (real, real) -> real

  /** The only fact used about the arc tangent: its value in degrees lies in (-180, 180]. */
  ghost predicate Atan2Range(atan2: Atan2Deg)
  {
    forall y: real, x: real :: -180.0 < atan2(y, x) <= 180.0
  }

  /** `if angle < 0: angle += 360`: the representative of the angle in [0, 360)
      for every angle the arc tangent can produce. */
  function NormaliseDegrees(a: real): (r: real)
    ensures r - a == 0.0 || r - a == 360.0
    ensures -360.0 <= a < 360.0 ==> 0.0 <= r < 360.0
  {
    if a < 0.0 then a + 360.0 else a
  }

  /** The heading from `from` to `to` in the camera convention shared by every copy
      in the system: `atan2(dx, -dy)` in degrees (0 = image up, clockwise positive),
      normalised into [0, 360). */
  function Heading(atan2: Atan2Deg, from: RPt, to: RPt): (r: real)
    requires Atan2Range(atan2)
    ensures 0.0 <= r < 360.0
    ensures r - atan2(to.x - from.x, -(to.y - from.y)) in {0.0, 360.0}
  {
    NormaliseDegrees(atan2(to.x - from.x, -(to.y - from.y)))
  }

  /** The midpoint of two points: equally far from both. */
  function Midpoint(a: RPt, b: RPt): (r: RPt)
    ensures SqDistR(a, r) == SqDistR(r, b)
    ensures r.x + r.x == a.x + b.x && r.y + r.y == a.y + b.y
  {
    RPt((a.x + b.x) / 2.0, (a.y + b.y) / 2.0)
  }

  /** C/C++ integer division, which truncates toward zero
      (Dafny's `/` is Euclidean). */
  function TruncDiv(a: int, b: int): (r: int)
    requires b != 0
    ensures Abs(a - r * b) < Abs(b)
    ensures a - r * b == 0 || (a - r * b < 0 <==> a < 0)
    ensures a >= 0 && b > 0 ==> r == a / b
  {
    if a >= 0 && b > 0 then a / b
    else if a >= 0 then -(a / -b)
    else if b > 0 then -((-a) / b)
    else (-a) / (-b)
  }

  /** A C cast `(int)x` of a floating value: truncation toward zero. */
  function TruncReal(x: real): (r: int)
    ensures AbsR(x - r as real) < 1.0
    ensures r == 0 || (r < 0 <==> x < 0.0)
    ensures AbsR(r as real) <= AbsR(x)
    ensures x >= 0.0 ==> r == x.Floor
  {
    if x >= 0.0 then x.Floor else -((-x).Floor)
  }

  /** `std::max(lo, std::min(v, hi))`. */
  function Clamp(v: int, lo: int, hi: int): (r: int)
    ensures lo <= r
    ensures lo <= hi ==> r <= hi
    ensures lo <= v <= hi ==> r == v
  {
    Max(lo, Min(v, hi))
  }

  function ClampR(v: real, lo: real, hi: real): (r: real)
    ensures lo <= r
    ensures lo <= hi ==> r <= hi
    ensures lo <= v <= hi ==> r == v
  {
    MaxR(lo, MinR(v, hi))
  }
}
