/**
 * Geometry value types of the fishing bot: points, axis-aligned boxes and the
 * distance between box centers. Coordinates are exact reals, not floats.
 */
module Geometry {

  /** A pair of coordinates, as produced by `Rect.center()`. */
  datatype Coord = Coord(x: real, y: real)

  const Origin := Coord(0.0, 0.0)

  /** The all-zero box, which the bot uses to mean "no detection yet". */
  const Sentinel := Rect(0.0, 0.0, 0.0, 0.0)

  function Min(a: real, b: real): (m: real)
    ensures m <= a && m <= b && (m == a || m == b)
  {
    if b < a then b else a
  }

  function Max(a: real, b: real): (m: real)
    ensures m >= a && m >= b && (m == a || m == b)
  {
    if b > a then b else a
  }

  /** An axis-aligned box (x1, y1) - (x2, y2); nothing forces x1 <= x2 or y1 <= y2. */
  datatype Rect = Rect(x1: real, y1: real, x2: real, y2: real) {

    /** The horizontal extent: the right edge is the left edge moved by the width. */
    function Width(): (w: real)
      ensures x1 + w == x2
    {
      x2 - x1
    }

    /** The vertical extent: the bottom edge is the top edge moved by the height. */
    function Height(): (h: real)
      ensures y1 + h == y2
    {
      y2 - y1
    }

    /** Emptiness is the sentinel test, not a zero-area test. */
    function IsEmpty(): (empty: bool)
      ensures empty <==> this == Sentinel
    {
      x1 == 0.0 && y1 == 0.0 && x2 == 0.0 && y2 == 0.0
    }

    /**
     * The sentinel has center (0, 0) by a special case; every other box has
     * x1 + width / 2. Both branches give the midpoint of the corners.
     */
    function Center(): (c: Coord)
      ensures c == Coord((x1 + x2) / 2.0, (y1 + y2) / 2.0)
    {
      if IsEmpty() then Coord(0.0, 0.0)
      else Coord(x1 + Width() / 2.0, y1 + Height() / 2.0)
    }

    /** The smallest box whose corners bound the corners of both boxes. */
    function Union(target: Rect): (u: Rect)
      ensures u.x1 <= x1 && u.x1 <= target.x1 && (u.x1 == x1 || u.x1 == target.x1)
      ensures u.y1 <= y1 && u.y1 <= target.y1 && (u.y1 == y1 || u.y1 == target.y1)
      ensures u.x2 >= x2 && u.x2 >= target.x2 && (u.x2 == x2 || u.x2 == target.x2)
      ensures u.y2 >= y2 && u.y2 >= target.y2 && (u.y2 == y2 || u.y2 == target.y2)
    {
      Rect(Min(x1, target.x1), Min(y1, target.y1), Max(x2, target.x2), Max(y2, target.y2))
    }

    /** A square of half-side `expand` around `p`; a negative `expand` is not rejected. */
    static function FromPoint(p: Coord, expand: real): (r: Rect)
      ensures r.Width() == 2.0 * expand && r.Height() == 2.0 * expand
      ensures r.Center() == p
    {
      Rect(p.x - expand, p.y - expand, p.x + expand, p.y + expand)
    }
  }

  lemma UnionCommutative(a: Rect, b: Rect)
    ensures a.Union(b) == b.Union(a)
  {
  }

  lemma UnionIdempotent(a: Rect)
    ensures a.Union(a) == a
  {
  }

  lemma UnionAssociative(a: Rect, b: Rect, c: Rect)
    ensures a.Union(b).Union(c) == a.Union(b.Union(c))
  {
  }

  /** The union is at least as wide and as high as either box, whatever their orientation. */
  lemma UnionGrows(a: Rect, b: Rect)
    ensures a.Union(b).Width() >= a.Width() && a.Union(b).Width() >= b.Width()
    ensures a.Union(b).Height() >= a.Height() && a.Union(b).Height() >= b.Height()
  {
  }

  lemma CenterExamples()
    ensures Sentinel.Center() == Origin
    ensures Rect(0.0, 0.0, 10.0, 10.0).Center() == Coord(5.0, 5.0)
  {
  }

  /**
   * The square of a real. The second factor is wrapped in `Id` so that the
   * solver sees a product of two distinct terms rather than `a * a`: written
   * as `a * a`, `SqPositive` and `SqGrows` below are not proved.
   */
  function Sq(a: real): real
  {
    a * Id(a)
  }

  function Id(a: real): real
  {
    a
  }

  lemma SqNonNegative(a: real)
    ensures Sq(a) >= 0.0
  {
  }

  lemma SqPositive(a: real)
    requires a != 0.0
    ensures Sq(a) > 0.0
  {
  }

  lemma MulStrict(x: real, y: real, z: real)
    requires x > y && z > 0.0
    ensures x * z > y * z
  {
  }

  lemma MulMonotone(x: real, y: real, z: real)
    requires x >= 0.0 && y >= z
    ensures x * y >= x * z
  {
  }

  /** Squaring is strictly increasing on the non-negative reals. */
  lemma SqGrows(a: real, b: real)
    requires a > b >= 0.0
    ensures Sq(a) > Sq(b)
  {
    calc {
      Sq(a);
    ==
      a * Id(a);
    >  { MulStrict(a, b, Id(a)); }
      b * Id(a);
    >= { MulMonotone(b, Id(a), Id(b)); }
      b * Id(b);
    ==
      Sq(b);
    }
  }

  /** A non-negative real has exactly one non-negative square root. */
  lemma RootUnique(a: real, b: real)
    requires a >= 0.0 && b >= 0.0 && Sq(a) == Sq(b)
    ensures a == b
  {
    if a > b {
      SqGrows(a, b);
    } else if b > a {
      SqGrows(b, a);
    }
  }

  /** Squared Euclidean distance. */
  function SqDist(p: Coord, q: Coord): real
  {
    Sq(p.x - q.x) + Sq(p.y - q.y)
  }

  lemma SqDistPositive(p: Coord, q: Coord)
    requires p != q
    ensures SqDist(p, q) > 0.0
  {
    if p.x != q.x {
      SqPositive(p.x - q.x);
      SqNonNegative(p.y - q.y);
    } else {
      SqPositive(p.y - q.y);
      SqNonNegative(p.x - q.x);
    }
  }

  /**
   * `sqrt` returns the non-negative square root of every non-negative real.
   * Dafny has no square root of its own, so the one `Point.dist` applies is a parameter.
   */
  ghost predicate IsSquareRoot(sqrt: real -> real) {
    forall v :: v >= 0.0 ==> sqrt(v) >= 0.0 && Sq(sqrt(v)) == v
  }

  /** Euclidean distance between two positions. */
  function Distance(p: Coord, q: Coord, sqrt: real -> real): real
  {
    sqrt(SqDist(p, q))
  }

  lemma DistanceSymmetric(p: Coord, q: Coord, sqrt: real -> real)
    ensures Distance(p, q, sqrt) == Distance(q, p, sqrt)
  {
    assert SqDist(p, q) == SqDist(q, p);
  }

  lemma DistanceNonNegative(p: Coord, q: Coord, sqrt: real -> real)
    requires IsSquareRoot(sqrt)
    ensures Distance(p, q, sqrt) >= 0.0
  {
    SqNonNegative(p.x - q.x);
    SqNonNegative(p.y - q.y);
  }

  lemma DistanceToSelf(p: Coord, sqrt: real -> real)
    requires IsSquareRoot(sqrt)
    ensures Distance(p, p, sqrt) == 0.0
  {
    assert SqDist(p, p) == 0.0;
    RootUnique(sqrt(0.0), 0.0);
  }

  lemma DistancePositive(p: Coord, q: Coord, sqrt: real -> real)
    requires IsSquareRoot(sqrt) && p != q
    ensures Distance(p, q, sqrt) > 0.0
  {
    SqDistPositive(p, q);
  }

  /** The distance between two points is zero exactly when they coincide. */
  lemma DistanceZeroIff(p: Coord, q: Coord, sqrt: real -> real)
    requires IsSquareRoot(sqrt)
    ensures Distance(p, q, sqrt) == 0.0 <==> p == q
  {
    if p == q {
      DistanceToSelf(p, sqrt);
    } else {
      DistancePositive(p, q, sqrt);
    }
  }

  /** Moving a point by `dy >= 0` along the y axis moves it a distance of `dy`. */
  lemma DistanceAlongAxis(p: Coord, dy: real, sqrt: real -> real)
    requires IsSquareRoot(sqrt) && dy >= 0.0
    ensures Distance(p, Coord(p.x, p.y + dy), sqrt) == dy
  {
    var q := Coord(p.x, p.y + dy);
    assert SqDist(q, p) == Sq(dy);
    SqNonNegative(dy);
    RootUnique(sqrt(Sq(dy)), dy);
    DistanceSymmetric(p, q, sqrt);
  }

  lemma DistanceExample(sqrt: real -> real)
    requires IsSquareRoot(sqrt)
    ensures Distance(Coord(3.0, 0.0), Coord(0.0, 4.0), sqrt) == 5.0
  {
    assert SqDist(Coord(3.0, 0.0), Coord(0.0, 4.0)) == 25.0;
    RootUnique(sqrt(25.0), 5.0);
  }

  /**
   * What `Point.dist` returns for a receiver at `p`: a receiver at the origin
   * first takes `q`'s coordinates, so the distance is measured from `q` itself.
   */
  function DistFrom(p: Coord, q: Coord, sqrt: real -> real): (d: real)
    ensures p == Origin ==> d == Distance(q, q, sqrt)
    ensures p != Origin ==> d == Distance(p, q, sqrt)
  {
    Distance(if p == Origin then q else p, q, sqrt)
  }

  lemma DistFromCases(p: Coord, q: Coord, sqrt: real -> real)
    requires IsSquareRoot(sqrt)
    ensures p == Origin ==> DistFrom(p, q, sqrt) == 0.0
    ensures p != Origin ==> DistFrom(p, q, sqrt) == Distance(p, q, sqrt)
    ensures DistFrom(p, q, sqrt) >= 0.0
  {
    if p == Origin {
      DistanceToSelf(q, sqrt);
    } else {
      DistanceNonNegative(p, q, sqrt);
    }
  }

  /** A mutable point; `Dist` may move it. */
  class Point {
    var x: real
    var y: real

    constructor (x: real, y: real)
      ensures this.x == x && this.y == y
    {
      this.x := x;
      this.y := y;
    }

    function At(): Coord
      reads this
    {
      Coord(x, y)
    }

    /**
     * Euclidean distance to `dest`. A receiver at the origin is treated as
     * uninitialised: it is first overwritten with `dest`'s coordinates, so the
     * result is 0.
     */
    method Dist(dest: Point, sqrt: real -> real) returns (d: real)
      requires IsSquareRoot(sqrt)
      modifies this
      ensures old(At()) == Origin ==> At() == old(dest.At()) && d == 0.0
      ensures old(At()) != Origin ==> At() == old(At()) && d == Distance(At(), dest.At(), sqrt)
      ensures d == DistFrom(old(At()), old(dest.At()), sqrt) && d >= 0.0
    {
      ghost var from, to := At(), dest.At();
      if x == 0.0 && y == 0.0 {
        x := dest.x;
        y := dest.y;
      }
      d := sqrt(SqDist(At(), dest.At()));
      DistFromCases(from, to, sqrt);
    }
  }
}
