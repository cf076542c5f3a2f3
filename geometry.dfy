/**
 * Pixel geometry shared by both tracker variants: detections (bounding
 * boxes with a contour area), their centroids, the Euclidean distance of
 * VAR1.py's `calculate_distance`, and the greedy first-match scan of the
 * registry against the 50-pixel threshold.
 */
module Geometry {
  import opened Wrappers

  datatype Point = Point(x: int, y: int)

  /** A detection: the bounding box `x, y, w, h` and the area of its contour. */
  datatype Box = Box(x: int, y: int, w: int, h: int, area: real)

  /** Contours with an area of at most this many square pixels are ignored. */
  const MinContourArea: real := 1000.0

  /** A detection matches a registry entry strictly closer than this many pixels. */
  const MatchRadius: nat := 50

  predicate Considered(b: Box)
  {
    b.area > MinContourArea
  }

  /** `cx, cy = x + w // 2, y + h // 2`: Python's floor division by 2. */
  function Centroid(b: Box): (c: Point)
    ensures 2 * (c.x - b.x) <= b.w < 2 * (c.x - b.x) + 2
    ensures 2 * (c.y - b.y) <= b.h < 2 * (c.y - b.y) + 2
  {
    Point(b.x + b.w / 2, b.y + b.h / 2)
  }

  function Square(n: int): (s: nat)
    ensures s == 0 <==> n == 0
  {
    if n < 0 then (-n) * (-n) else n * n
  }

  /** The squared Euclidean distance, exact on integer pixels. */
  function SqDist(p: Point, q: Point): (d: nat)
    ensures d == 0 <==> p == q
  {
    Square(q.x - p.x) + Square(q.y - p.y)
  }

  lemma SqDistSymmetric(p: Point, q: Point)
    ensures SqDist(p, q) == SqDist(q, p)
  {
    assert Square(q.x - p.x) == Square(p.x - q.x);
    assert Square(q.y - p.y) == Square(p.y - q.y);
  }

  /**
   * The square root of the maths library, taken as a parameter of the
   * model: `sqrt` is a square root when it maps every non-negative real to
   * its non-negative root.
   */
  ghost predicate IsSqrt(sqrt: real -> real)
  {
    forall x: real {:trigger sqrt(x)} :: 0.0 <= x ==> 0.0 <= sqrt(x) && sqrt(x) * sqrt(x) == x
  }

  /** `calculate_distance(x1, y1, x2, y2)` of VAR1.py. */
  function CalculateDistance(sqrt: real -> real, x1: int, y1: int, x2: int, y2: int): (d: real)
    ensures IsSqrt(sqrt) ==> 0.0 <= d && d * d == SqDist(Point(x1, y1), Point(x2, y2)) as real
  {
    sqrt(SqDist(Point(x1, y1), Point(x2, y2)) as real)
  }

  function Distance(sqrt: real -> real, p: Point, q: Point): real
  {
    CalculateDistance(sqrt, p.x, p.y, q.x, q.y)
  }

  lemma DistanceSymmetric(sqrt: real -> real, x1: int, y1: int, x2: int, y2: int)
    ensures CalculateDistance(sqrt, x1, y1, x2, y2) == CalculateDistance(sqrt, x2, y2, x1, y1)
  {
    SqDistSymmetric(Point(x1, y1), Point(x2, y2));
  }

  lemma DistanceZeroIff(sqrt: real -> real, x1: int, y1: int, x2: int, y2: int)
    requires IsSqrt(sqrt)
    ensures CalculateDistance(sqrt, x1, y1, x2, y2) == 0.0 <==> x1 == x2 && y1 == y2
  {
    var s := SqDist(Point(x1, y1), Point(x2, y2));
    var d := sqrt(s as real);
    if s == 0 && d != 0.0 {
      calc {
        0.0;
      <  d * d;
      == s as real;
      == 0.0;
      }
    }
    if d == 0.0 {
      calc {
        s as real;
      == d * d;
      == 0.0;
      }
    }
  }

  /** For non-negative reals, comparing two values is comparing their squares. */
  lemma SquareMonotone(d: real, t: real)
    requires 0.0 <= d && 0.0 <= t
    ensures d < t <==> d * d < t * t
  {
    if d < t {
      calc {
        d * d;
      <= d * t;
      <  t * t;
      }
    } else {
      calc {
        t * t;
      <= t * d;
      <= d * d;
      }
    }
  }

  /** `distance < t` holds exactly when the squared distance is below `t * t`. */
  lemma DistanceBelowIff(sqrt: real -> real, p: Point, q: Point, t: nat)
    requires IsSqrt(sqrt)
    ensures Distance(sqrt, p, q) < t as real <==> SqDist(p, q) < t * t
  {
    var d := Distance(sqrt, p, q);
    SquareMonotone(d, t as real);
    assert (t * t) as real == (t as real) * (t as real);
  }

  /** `distance > t` holds exactly when the squared distance is above `t * t`. */
  lemma DistanceAboveIff(sqrt: real -> real, p: Point, q: Point, t: nat)
    requires IsSqrt(sqrt)
    ensures Distance(sqrt, p, q) > t as real <==> SqDist(p, q) > t * t
  {
    var d := Distance(sqrt, p, q);
    SquareMonotone(t as real, d);
    assert (t * t) as real == (t as real) * (t as real);
  }

  /** A coordinate difference of at least `m` in size squares to at least `m * m`. */
  lemma SquareAtLeast(n: int, m: nat)
    ensures n >= m || n <= -(m as int) ==> Square(n) >= m * m
  {
    var a: nat := if n < 0 then -n else n;
    assert Square(n) == a * a;
    if a >= m {
      MulLe(m, a, a);
      MulLe(m, a, m);
    }
  }

  lemma {:induction false} MulLe(x: nat, y: nat, z: nat)
    requires x <= y
    ensures x * z <= y * z
    decreases z
  {
    if z > 0 {
      MulLe(x, y, z - 1);
      assert x * z == x * (z - 1) + x;
      assert y * z == y * (z - 1) + y;
    }
  }

  /** The matching rule on exact integers: strictly closer than 50 pixels. */
  predicate Near(prev: Point, c: Point): (b: bool)
    ensures prev == c ==> b
    ensures b ==> -(MatchRadius as int) < c.x - prev.x < MatchRadius && -(MatchRadius as int) < c.y - prev.y < MatchRadius
  {
    SquareAtLeast(c.x - prev.x, MatchRadius);
    SquareAtLeast(c.y - prev.y, MatchRadius);
    SqDist(prev, c) < MatchRadius * MatchRadius
  }

  /** The source's `distance < 50` test agrees with the exact `Near`. */
  lemma NearIffDistanceBelowRadius(sqrt: real -> real, prev: Point, c: Point)
    requires IsSqrt(sqrt)
    ensures Near(prev, c) <==> Distance(sqrt, prev, c) < MatchRadius as real
  {
    DistanceBelowIff(sqrt, prev, c, MatchRadius);
  }

  /**
   * The position of the first registry entry (in insertion order) whose
   * centroid is near `c`, or None when no entry is.
   */
  function FirstMatch(cs: seq<Point>, c: Point): (r: Option<nat>)
    ensures r.Some? ==> r.value < |cs| && Near(cs[r.value], c)
    ensures r.Some? ==> forall j :: 0 <= j < r.value ==> !Near(cs[j], c)
    ensures r.None? <==> forall j :: 0 <= j < |cs| ==> !Near(cs[j], c)
  {
    if cs == [] then None
    else if Near(cs[0], c) then Some(0)
    else match FirstMatch(cs[1..], c)
      case None => None
      case Some(k) => Some(k + 1)
  }

  /** An entry exactly 50 pixels away is never the match, in any registry. */
  lemma BoundaryDoesNotMatch(cs: seq<Point>, c: Point)
    ensures FirstMatch(cs, c).Some? ==> SqDist(cs[FirstMatch(cs, c).value], c) != MatchRadius * MatchRadius
    ensures (forall j :: 0 <= j < |cs| ==> SqDist(cs[j], c) >= MatchRadius * MatchRadius) ==> FirstMatch(cs, c) == None
  {
  }

  /** The registry scan `for obj_id, data in object_data.items(): ... break`. */
  method FindMatch(cs: seq<Point>, c: Point) returns (r: Option<nat>)
    ensures r == FirstMatch(cs, c)
  {
    var i := 0;
    while i < |cs|
      invariant 0 <= i <= |cs|
      invariant forall j :: 0 <= j < i ==> !Near(cs[j], c)
    {
      if SqDist(cs[i], c) < MatchRadius * MatchRadius {
        return Some(i);
      }
      i := i + 1;
    }
    return None;
  }
}
