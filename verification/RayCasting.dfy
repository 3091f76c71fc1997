/** Even-odd ray casting over a ring of (lat, lon) vertices, and the geofence check built on it. */
module RayCasting {
  import opened EvenOdd

  datatype Point = Point(lat: real, lon: real)

  datatype Fence = Unreadable | Ring(vertices: seq<Point>)

  /** The loop's edge test: `a` is the current vertex, `b` the one before it. */
  predicate Crosses(q: Point, a: Point, b: Point) {
    (a.lon > q.lon) != (b.lon > q.lon) &&
    q.lat < (b.lat - a.lat) * (q.lon - a.lon) / (b.lon - a.lon) + a.lat
  }

  function CrossedBy(q: Point): (Point, Point) -> bool {
    (a, b) => Crosses(q, a, b)
  }

  /** The even-odd rule: inside means an odd number of edges crossed by the ray. */
  predicate Inside(q: Point, ring: seq<Point>) {
    OddCycle(CrossedBy(q), ring)
  }

  method PointInPolygon(q: Point, ring: seq<Point>) returns (inside: bool)
    ensures inside == Inside(q, ring)
  {
    var n := |ring|;
    inside := false;
    var j := n - 1;
    for i := 0 to n
      invariant i < n ==> j == Prev(n, i)
      invariant inside == (|MarkedBelow(CrossedBy(q), ring, i)| % 2 == 1)
    {
      MarkedStep(CrossedBy(q), ring, i);
      if Crosses(q, ring[i], ring[j]) {
        inside := !inside;
      }
      j := i;
    }
  }

  /** Indices of the points outside the fence; an unreadable fence passes everything. */
  method AllPointsInGeofence(points: seq<Point>, fence: Fence) returns (ok: bool, violations: seq<nat>)
    ensures ok <==> violations == []
    ensures fence.Unreadable? ==> violations == []
    ensures forall k, l :: 0 <= k < l < |violations| ==> violations[k] < violations[l]
    ensures fence.Ring? ==>
              forall i: nat :: i in violations <==> i < |points| && !Inside(points[i], fence.vertices)
  {
    violations := [];
    if fence.Unreadable? {
      return true, [];
    }
    for i := 0 to |points|
      invariant forall k, l :: 0 <= k < l < |violations| ==> violations[k] < violations[l]
      invariant forall k :: 0 <= k < |violations| ==> violations[k] < i
      invariant forall k: nat :: k in violations <==> k < i && !Inside(points[k], fence.vertices)
    {
      var inside := PointInPolygon(points[i], fence.vertices);
      if !inside {
        violations := violations + [i];
      }
    }
    ok := |violations| == 0;
  }

  // ----- The edge test does not depend on the direction of the edge -----

  lemma QuotientTimes(x: real, y: real)
    requires y != 0.0
    ensures x / y * y == x
  {
  }

  lemma TimesInjective(x: real, y: real, d: real)
    requires d != 0.0 && x * d == y * d
    ensures x == y
  {
    assert (x - y) * d == 0.0;
  }

  lemma CrossingPointSymmetric(q: Point, a: Point, b: Point)
    requires a.lon != b.lon
    ensures (b.lat - a.lat) * (q.lon - a.lon) / (b.lon - a.lon) + a.lat
         == (a.lat - b.lat) * (q.lon - b.lon) / (a.lon - b.lon) + b.lat
  {
    var d := b.lon - a.lon;
    var e := a.lon - b.lon;
    var u := (b.lat - a.lat) * (q.lon - a.lon);
    var w := (a.lat - b.lat) * (q.lon - b.lon);
    QuotientTimes(u, d);
    QuotientTimes(w, e);
    var x1 := u / d + a.lat;
    var x2 := w / e + b.lat;
    assert x1 * d == u + a.lat * d;
    assert x2 * e == w + b.lat * e;
    assert x2 * d == -(x2 * e);
    assert x2 * d == -w + b.lat * d;
    assert u + a.lat * d == -w + b.lat * d;
    TimesInjective(x1, x2, d);
  }

  lemma CrossesSymmetric(q: Point, a: Point, b: Point)
    ensures Crosses(q, a, b) == Crosses(q, b, a)
  {
    if (a.lon > q.lon) != (b.lon > q.lon) {
      CrossingPointSymmetric(q, a, b);
    }
  }

  lemma CrossedBySymmetric(q: Point)
    ensures Symmetric(CrossedBy(q))
  {
    forall a, b
      ensures CrossedBy(q)(a, b) == CrossedBy(q)(b, a)
    {
      CrossesSymmetric(q, a, b);
    }
  }

  // ----- Symmetries of the ring -----

  /** Repeating the first vertex at the end changes nothing. */
  lemma ClosingRing(q: Point, ring: seq<Point>)
    requires ring != []
    ensures Inside(q, ring + [ring[0]]) == Inside(q, ring)
  {
    CloseCycle(CrossedBy(q), ring);
  }

  /**
   * Cutting a ring along the chord between any two of its vertices: a point is inside the
   * whole exactly when it is inside one of the two parts and not the other.
   */
  lemma ChordSplit(q: Point, ring: seq<Point>, a: nat, b: nat)
    requires a <= b < |ring|
    ensures Inside(q, ring) == (Inside(q, ring[a..b + 1]) != Inside(q, ring[b..] + ring[..a + 1]))
  {
    CrossedBySymmetric(q);
    SplitCycle(CrossedBy(q), ring, a, b);
  }

  lemma RotateRing(q: Point, ring: seq<Point>, k: nat)
    requires k <= |ring|
    ensures Inside(q, ring[k..] + ring[..k]) == Inside(q, ring)
  {
    if k == |ring| {
      assert ring[k..] + ring[..k] == ring;
    } else {
      // the degenerate chord from a vertex to itself cuts off an empty part
      ChordSplit(q, ring, k, k);
      NoneMarked(CrossedBy(q), ring[k..k + 1]);
      var turned := ring[k..] + ring[..k];
      assert ring[k..] + ring[..k + 1] == turned + [turned[0]];
      ClosingRing(q, turned);
    }
  }

  lemma ReverseRing(q: Point, ring: seq<Point>)
    ensures Inside(q, Reversed(ring)) == Inside(q, ring)
  {
    CrossedBySymmetric(q);
    ReverseCycle(CrossedBy(q), ring);
  }

  // ----- Points outside the bounding box -----

  ghost predicate Straddles(q: Point, a: Point, b: Point) {
    (a.lon > q.lon) != (b.lon > q.lon)
  }

  lemma QuotientInUnit(x: real, y: real)
    requires (y > 0.0 && 0.0 <= x <= y) || (y < 0.0 && y <= x <= 0.0)
    ensures 0.0 <= x / y <= 1.0
  {
  }

  /** A straddling edge meets the ray's line between its own two latitudes. */
  lemma CrossingPointBetween(q: Point, a: Point, b: Point, lo: real, hi: real)
    requires Straddles(q, a, b)
    requires lo <= a.lat <= hi && lo <= b.lat <= hi
    ensures lo <= (b.lat - a.lat) * (q.lon - a.lon) / (b.lon - a.lon) + a.lat <= hi
  {
    var d := b.lon - a.lon;
    var r := (q.lon - a.lon) / d;
    QuotientInUnit(q.lon - a.lon, d);
    assert (b.lat - a.lat) * (q.lon - a.lon) / d == (b.lat - a.lat) * r by {
      QuotientTimes(q.lon - a.lon, d);
      QuotientTimes((b.lat - a.lat) * (q.lon - a.lon), d);
      assert (b.lat - a.lat) * r * d == (b.lat - a.lat) * (r * d);
      TimesInjective((b.lat - a.lat) * (q.lon - a.lon) / d, (b.lat - a.lat) * r, d);
    }
    Blend(a.lat, b.lat, r, lo, hi);
  }

  lemma Blend(x: real, y: real, r: real, lo: real, hi: real)
    requires 0.0 <= r <= 1.0 && lo <= x <= hi && lo <= y <= hi
    ensures lo <= (y - x) * r + x <= hi
  {
    Scale(y - lo, r);
    Scale(x - lo, 1.0 - r);
    Scale(hi - y, r);
    Scale(hi - x, 1.0 - r);
    assert (y - x) * r + x - lo == (y - lo) * r + (x - lo) * (1.0 - r);
    assert hi - ((y - x) * r + x) == (hi - y) * r + (hi - x) * (1.0 - r);
  }

  lemma Scale(x: real, r: real)
    requires x >= 0.0 && r >= 0.0
    ensures x * r >= 0.0
  {
  }

  lemma AboveCrosses(q: Point, a: Point, b: Point)
    requires a.lat > q.lat && b.lat > q.lat
    ensures Crosses(q, a, b) == Straddles(q, a, b)
  {
    if Straddles(q, a, b) {
      var lo := if a.lat < b.lat then a.lat else b.lat;
      var hi := if a.lat < b.lat then b.lat else a.lat;
      CrossingPointBetween(q, a, b, lo, hi);
    }
  }

  lemma BelowNeverCrosses(q: Point, a: Point, b: Point)
    requires a.lat <= q.lat && b.lat <= q.lat
    ensures !Crosses(q, a, b)
  {
    if Straddles(q, a, b) {
      var lo := if a.lat < b.lat then a.lat else b.lat;
      CrossingPointBetween(q, a, b, lo, q.lat);
    }
  }

  ghost predicate OutsideBox(q: Point, ring: seq<Point>) {
    || (forall v :: v in ring ==> v.lat > q.lat)
    || (forall v :: v in ring ==> v.lat <= q.lat)
    || (forall v :: v in ring ==> v.lon > q.lon)
    || (forall v :: v in ring ==> v.lon <= q.lon)
  }

  /**
   * A point on one side of every vertex is outside. North of all of them the ray leaves the
   * ring alone; south of all of them it crosses every straddling edge, evenly many in a cycle.
   */
  lemma OutsideBoxIsOutside(q: Point, ring: seq<Point>)
    requires OutsideBox(q, ring)
    ensures !Inside(q, ring)
  {
    if forall v :: v in ring ==> v.lat > q.lat {
      forall i, j | 0 <= i < |ring| && 0 <= j < |ring|
        ensures CrossedBy(q)(ring[i], ring[j]) == ((ring[i].lon > q.lon) != (ring[j].lon > q.lon))
      {
        AboveCrosses(q, ring[i], ring[j]);
      }
      ChangesAreEven(CrossedBy(q), (v: Point) => v.lon > q.lon, ring);
    } else {
      forall i, j | 0 <= i < |ring| && 0 <= j < |ring|
        ensures !CrossedBy(q)(ring[i], ring[j])
      {
        if forall v :: v in ring ==> v.lat <= q.lat {
          BelowNeverCrosses(q, ring[i], ring[j]);
        } else {
          assert !Straddles(q, ring[i], ring[j]);
        }
      }
      NoneMarked(CrossedBy(q), ring);
    }
  }

  // ----- Where the ray meets an edge -----

  /** The point a fraction r of the way from a to b. */
  function Along(a: Point, b: Point, r: real): Point {
    Point(a.lat + (b.lat - a.lat) * r, a.lon + (b.lon - a.lon) * r)
  }

  ghost predicate Between(x: real, u: real, v: real) {
    (u <= x < v) || (v <= x < u)
  }

  lemma FractionOf(x: real, d: real, r: real)
    requires d != 0.0 && x == d * r
    ensures r == x / d
  {
    QuotientTimes(x, d);
    TimesInjective(r, x / d, d);
  }

  lemma TimesQuotient(k: real, x: real, d: real)
    requires d != 0.0
    ensures k * x / d == k * (x / d)
  {
    QuotientTimes(x, d);
    QuotientTimes(k * x, d);
    assert k * (x / d) * d == k * (x / d * d);
    TimesInjective(k * x / d, k * (x / d), d);
  }

  /**
   * An edge is crossed exactly when its longitudes enclose the point's, the larger one excluded,
   * and the edge has a point of that longitude further north.
   */
  lemma CrossesIff(q: Point, a: Point, b: Point)
    ensures Crosses(q, a, b)
       <==> Between(q.lon, a.lon, b.lon)
            && exists r: real :: 0.0 <= r <= 1.0 && Along(a, b, r).lon == q.lon && Along(a, b, r).lat > q.lat
  {
    if Between(q.lon, a.lon, b.lon) {
      var d := b.lon - a.lon;
      var x := q.lon - a.lon;
      var r := x / d;
      QuotientInUnit(x, d);
      QuotientTimes(x, d);
      TimesQuotient(b.lat - a.lat, x, d);
      assert Along(a, b, r).lon == q.lon;
      assert Along(a, b, r).lat == (b.lat - a.lat) * x / d + a.lat;
      forall r' | Along(a, b, r').lon == q.lon
        ensures r' == r
      {
        FractionOf(x, d, r');
      }
    }
  }

  // ----- Triangles -----

  /** Twice the signed area of the triangle a, b, q. */
  function Turn(a: Point, b: Point, q: Point): real {
    (b.lon - a.lon) * (q.lat - a.lat) - (b.lat - a.lat) * (q.lon - a.lon)
  }

  /** q is no point of the line through a and b. */
  ghost predicate OffLine(q: Point, a: Point, b: Point) {
    Turn(a, b, q) != 0.0
  }

  lemma QuotientLess(y: real, u: real, d: real)
    requires d != 0.0
    ensures y < u / d <==> if d > 0.0 then y * d < u else y * d > u
  {
    QuotientTimes(u, d);
    var z := u / d - y;
    assert u - y * d == z * d;
    SignTimes(z, d);
  }

  lemma SignTimes(z: real, d: real)
    requires d != 0.0
    ensures z > 0.0 <==> if d > 0.0 then z * d > 0.0 else z * d < 0.0
  {
    if z > 0.0 {
    } else if z < 0.0 {
    } else {
      assert z * d == 0.0;
    }
  }

  /** A straddling edge is crossed when the point lies on its southern side. */
  lemma CrossesBySide(q: Point, a: Point, b: Point)
    requires Straddles(q, a, b)
    ensures Crosses(q, a, b) <==> if b.lon > a.lon then Turn(a, b, q) < 0.0 else Turn(a, b, q) > 0.0
  {
    var d := b.lon - a.lon;
    var u := (b.lat - a.lat) * (q.lon - a.lon);
    QuotientLess(q.lat - a.lat, u, d);
    assert Turn(a, b, q) == (q.lat - a.lat) * d - u;
  }

  /** The same turn, seen from q. */
  lemma TurnFrom(q: Point, a: Point, b: Point)
    ensures Turn(a, b, q) == (b.lat - q.lat) * (a.lon - q.lon) - (b.lon - q.lon) * (a.lat - q.lat)
  {
    var u, v := a.lon - q.lon, a.lat - q.lat;
    var x, y := b.lon - q.lon, b.lat - q.lat;
    assert Turn(a, b, q) == (x - u) * (-v) - (y - v) * (-u);
    assert (x - u) * (-v) == -(x * v) + u * v;
    assert (y - v) * (-u) == -(y * u) + v * u;
  }

  lemma Cancel(u: real, v: real, x: real, y: real, m: real, n: real)
    ensures m * (y * u - x * v) + u * (n * x - m * y) + x * (v * m - u * n) == 0.0
  {
    assert m * (y * u - x * v) == m * y * u - m * x * v;
    assert u * (n * x - m * y) == u * n * x - u * m * y;
    assert x * (v * m - u * n) == x * v * m - x * u * n;
  }

  /** The three turns around q, weighted by the opposite corners' offsets from q, cancel out. */
  lemma TurnsCancel(q: Point, a: Point, b: Point, c: Point)
    ensures (c.lon - q.lon) * Turn(a, b, q) + (a.lon - q.lon) * Turn(b, c, q) + (b.lon - q.lon) * Turn(c, a, q) == 0.0
    ensures (c.lat - q.lat) * Turn(a, b, q) + (a.lat - q.lat) * Turn(b, c, q) + (b.lat - q.lat) * Turn(c, a, q) == 0.0
  {
    TurnFrom(q, a, b);
    TurnFrom(q, b, c);
    TurnFrom(q, c, a);
    Cancel(a.lon - q.lon, a.lat - q.lat, b.lon - q.lon, b.lat - q.lat, c.lon - q.lon, c.lat - q.lat);
    Cancel(a.lat - q.lat, a.lon - q.lon, b.lat - q.lat, b.lon - q.lon, c.lat - q.lat, c.lon - q.lon);
  }

  ghost predicate SameSide(x: real, y: real, z: real) {
    (x > 0.0 && y > 0.0 && z > 0.0) || (x < 0.0 && y < 0.0 && z < 0.0)
  }

  lemma Positive(x: real, y: real)
    requires (x > 0.0 && y > 0.0) || (x < 0.0 && y < 0.0)
    ensures x * y > 0.0
  {
  }

  /** Of three numbers that cancel with these weights, two of one sign force the third to it. */
  lemma Forced(u: real, v: real, w: real, k: real, m: real, n: real)
    requires k * u + m * v + n * w == 0.0 && u != 0.0 && v != 0.0 && w != 0.0
    requires (k > 0.0 && m > 0.0 && n <= 0.0) || (k <= 0.0 && m <= 0.0 && n > 0.0)
    ensures SameSide(u, v, w) <==> (u > 0.0) == (v > 0.0)
  {
    SignedTimes(k, u);
    SignedTimes(m, v);
    SignedTimes(n, w);
  }

  /** Weights that are not all zero and of one sign cannot cancel numbers of one sign. */
  lemma NoCancel(u: real, v: real, w: real, k: real, m: real, n: real)
    requires (k >= 0.0 && m >= 0.0 && n >= 0.0) || (k <= 0.0 && m <= 0.0 && n <= 0.0)
    requires k != 0.0 || m != 0.0 || n != 0.0
    requires SameSide(u, v, w)
    ensures k * u + m * v + n * w != 0.0
  {
    SignedTimes(k, u);
    SignedTimes(m, v);
    SignedTimes(n, w);
  }

  lemma SignedTimes(k: real, u: real)
    requires u != 0.0
    ensures k * u == 0.0 <==> k == 0.0
    ensures k * u > 0.0 <==> (k > 0.0 && u > 0.0) || (k < 0.0 && u < 0.0)
  {
    if k == 0.0 {
    } else if (k > 0.0 && u > 0.0) || (k < 0.0 && u < 0.0) {
      Positive(k, u);
    } else {
      Positive(k, -u);
      assert k * (-u) == -(k * u);
    }
  }

  ghost predicate OffSides(q: Point, a: Point, b: Point, c: Point) {
    OffLine(q, a, b) && OffLine(q, b, c) && OffLine(q, c, a)
  }

  lemma TriangleEdges(q: Point, a: Point, b: Point, c: Point)
    ensures Inside(q, [a, b, c]) == (Crosses(q, a, c) != (Crosses(q, b, a) != Crosses(q, c, b)))
  {
    hide Crosses;
    var ring := [a, b, c];
    var edge := CrossedBy(q);
    InsideByPath(edge, ring);
    assert ring[1..] == [b, c] && ring[1..][1..] == [c];
    assert !PathOdd(edge, [c]);
    assert PathOdd(edge, [b, c]) == edge(c, b);
  }

  /** One corner on its own side of the ray's line: of its two edges exactly one is crossed from inside. */
  lemma LoneCorner(q: Point, a: Point, b: Point, c: Point)
    requires OffSides(q, a, b, c)
    requires (a.lon > q.lon) != (b.lon > q.lon) && (b.lon > q.lon) == (c.lon > q.lon)
    ensures Crosses(q, b, a) != Crosses(q, a, c) <==> SameSide(Turn(a, b, q), Turn(b, c, q), Turn(c, a, q))
  {
    CrossesSymmetric(q, b, a);
    CrossesSymmetric(q, a, c);
    CrossesBySide(q, a, b);
    CrossesBySide(q, c, a);
    TurnsCancel(q, a, b, c);
    hide Crosses, Turn;
    Forced(Turn(a, b, q), Turn(c, a, q), Turn(b, c, q), c.lon - q.lon, b.lon - q.lon, a.lon - q.lon);
  }

  /** With no corner on its own, no edge is crossed and the turns have no common sign. */
  lemma NoLoneCorner(q: Point, a: Point, b: Point, c: Point)
    requires OffSides(q, a, b, c)
    requires (a.lon > q.lon) == (b.lon > q.lon) == (c.lon > q.lon)
    ensures !SameSide(Turn(a, b, q), Turn(b, c, q), Turn(c, a, q))
  {
    TurnsCancel(q, a, b, c);
    if SameSide(Turn(a, b, q), Turn(b, c, q), Turn(c, a, q)) {
      assert a.lon != q.lon || b.lon != q.lon by {
        if a.lon == q.lon && b.lon == q.lon {
          TurnFrom(q, a, b);
        }
      }
      NoCancel(Turn(a, b, q), Turn(b, c, q), Turn(c, a, q), c.lon - q.lon, a.lon - q.lon, b.lon - q.lon);
    }
  }

  lemma TriangleBySides(q: Point, a: Point, b: Point, c: Point)
    requires OffSides(q, a, b, c)
    ensures Inside(q, [a, b, c]) <==> SameSide(Turn(a, b, q), Turn(b, c, q), Turn(c, a, q))
  {
    TriangleEdges(q, a, b, c);
    CrossesSymmetric(q, a, c);
    CrossesSymmetric(q, b, a);
    CrossesSymmetric(q, c, b);
    var x, y, z := a.lon > q.lon, b.lon > q.lon, c.lon > q.lon;
    assert x == y ==> !Crosses(q, b, a);
    assert y == z ==> !Crosses(q, c, b);
    assert z == x ==> !Crosses(q, a, c);
    hide Crosses, Turn;
    if x == y == z {
      NoLoneCorner(q, a, b, c);
    } else if y == z {
      LoneCorner(q, a, b, c);
    } else if z == x {
      LoneCorner(q, b, c, a);
    } else {
      LoneCorner(q, c, a, b);
    }
  }

  /** The mixture of three corners with weights u, v and 1 - u - v. */
  function Mixed(a: Point, b: Point, c: Point, u: real, v: real): Point {
    Point(a.lat * u + b.lat * v + c.lat * (1.0 - u - v), a.lon * u + b.lon * v + c.lon * (1.0 - u - v))
  }

  /** q lies strictly inside the triangle: it is a mixture of the corners with positive weights. */
  ghost predicate InTriangle(q: Point, a: Point, b: Point, c: Point) {
    exists u: real, v: real :: u > 0.0 && v > 0.0 && u + v < 1.0 && Mixed(a, b, c, u, v) == q
  }

  lemma Expand(x: real, y: real, z: real, u: real, v: real)
    ensures x * u + y * v + z * (1.0 - u - v) - y == u * (x - y) + (1.0 - u - v) * (z - y)
  {
    assert z * (1.0 - u - v) == z - z * u - z * v;
    assert (1.0 - u - v) * (z - y) == (z - y) - u * (z - y) - v * (z - y);
  }

  lemma Linear(d: real, e: real, x: real, y: real, u: real, w: real)
    ensures d * (u * y + w * e) - e * (u * x + w * d) == u * (d * y - e * x)
  {
    assert d * (u * y + w * e) == u * (d * y) + w * d * e;
    assert e * (u * x + w * d) == u * (e * x) + w * d * e;
  }

  lemma TurnMixed(a: Point, b: Point, c: Point, u: real, v: real)
    ensures Turn(b, c, Mixed(a, b, c, u, v)) == u * Turn(b, c, a)
  {
    Expand(a.lat, b.lat, c.lat, u, v);
    Expand(a.lon, b.lon, c.lon, u, v);
    Linear(c.lon - b.lon, c.lat - b.lat, a.lon - b.lon, a.lat - b.lat, u, 1.0 - u - v);
  }

  lemma TurnRotates(a: Point, b: Point, c: Point)
    ensures Turn(b, c, a) == Turn(a, b, c)
  {
    TurnFrom(a, b, c);
    assert Turn(a, b, c) == (b.lon - a.lon) * (c.lat - a.lat) - (b.lat - a.lat) * (c.lon - a.lon);
  }

  lemma MixedRotates(a: Point, b: Point, c: Point, u: real, v: real)
    ensures Mixed(a, b, c, u, v) == Mixed(b, c, a, v, 1.0 - u - v)
  {
    assert 1.0 - v - (1.0 - u - v) == u;
  }

  /** Positive weights put all three turns on the side of the triangle's own turn. */
  lemma MixedTurns(q: Point, a: Point, b: Point, c: Point, u: real, v: real)
    requires u > 0.0 && v > 0.0 && u + v < 1.0 && Mixed(a, b, c, u, v) == q && OffSides(q, a, b, c)
    ensures SameSide(Turn(a, b, q), Turn(b, c, q), Turn(c, a, q))
  {
    var w := 1.0 - u - v;
    var whole := Turn(a, b, c);
    TurnMixed(a, b, c, u, v);
    MixedRotates(a, b, c, u, v);
    TurnMixed(b, c, a, v, w);
    MixedRotates(b, c, a, v, w);
    assert 1.0 - v - w == u;
    TurnMixed(c, a, b, w, u);
    TurnRotates(a, b, c);
    TurnRotates(b, c, a);
    assert Turn(b, c, q) == u * whole && Turn(c, a, q) == v * whole && Turn(a, b, q) == w * whole;
    hide Turn, Mixed;
    assert whole != 0.0;
    SignedTimes(u, whole);
    SignedTimes(v, whole);
    SignedTimes(w, whole);
  }

  lemma WeightOf(x: real, d: real)
    requires (x > 0.0 && d > x) || (x < 0.0 && d < x)
    ensures 0.0 < x / d < 1.0
  {
    var r := x / d;
    QuotientTimes(x, d);
    SignTimes(r, d);
    SignTimes(1.0 - r, d);
    assert (1.0 - r) * d == d - r * d;
  }

  lemma SumOfQuotients(k: real, m: real, d: real)
    requires d != 0.0
    ensures (k + m) / d == k / d + m / d
  {
    QuotientTimes(k, d);
    QuotientTimes(m, d);
    QuotientTimes(k + m, d);
    TimesInjective((k + m) / d, k / d + m / d, d);
  }

  lemma Weighted(x: real, y: real, z: real, o: real, k: real, m: real, n: real)
    requires k + m + n != 0.0
    requires (x - o) * k + (y - o) * m + (z - o) * n == 0.0
    ensures var d := k + m + n; x * (k / d) + y * (m / d) + z * (1.0 - k / d - m / d) == o
  {
    var d := k + m + n;
    var u, v := k / d, m / d;
    QuotientTimes(k, d);
    QuotientTimes(m, d);
    assert k == u * d && m == v * d && n == (1.0 - u - v) * d;
    var w := 1.0 - u - v;
    var s := x * u + y * v + z * w - o;
    assert x * u * d + y * v * d + z * w * d - o * d == 0.0 by {
      assert (x - o) * k == x * u * d - o * k;
      assert (y - o) * m == y * v * d - o * m;
      assert (z - o) * n == z * w * d - o * n;
      assert o * d == o * k + o * m + o * n;
    }
    assert s * d == 0.0;
    TimesInjective(s, 0.0, d);
  }

  /** Three turns of one sign are, up to their sum, the weights. */
  lemma TurnsWeigh(q: Point, a: Point, b: Point, c: Point)
    requires SameSide(Turn(a, b, q), Turn(b, c, q), Turn(c, a, q))
    ensures InTriangle(q, a, b, c)
  {
    hide Turn;
    var k, m, n := Turn(b, c, q), Turn(c, a, q), Turn(a, b, q);
    var d := k + m + n;
    TurnsCancel(q, a, b, c);
    WeightOf(k, d);
    WeightOf(m, d);
    WeightOf(k + m, d);
    SumOfQuotients(k, m, d);
    WeightedCorners(q, a, b, c, k, m, n);
    hide Mixed;
    assert k / d > 0.0 && m / d > 0.0 && k / d + m / d < 1.0 && Mixed(a, b, c, k / d, m / d) == q;
  }

  lemma WeightedCorners(q: Point, a: Point, b: Point, c: Point, k: real, m: real, n: real)
    requires k + m + n != 0.0
    requires (c.lon - q.lon) * n + (a.lon - q.lon) * k + (b.lon - q.lon) * m == 0.0
    requires (c.lat - q.lat) * n + (a.lat - q.lat) * k + (b.lat - q.lat) * m == 0.0
    ensures var d := k + m + n; Mixed(a, b, c, k / d, m / d) == q
  {
    Weighted(a.lat, b.lat, c.lat, q.lat, k, m, n);
    Weighted(a.lon, b.lon, c.lon, q.lon, k, m, n);
  }

  /** A triangle contains exactly the strict mixtures of its corners, for every point on none of its lines. */
  lemma TriangleIff(q: Point, a: Point, b: Point, c: Point)
    requires OffSides(q, a, b, c)
    ensures Inside(q, [a, b, c]) <==> InTriangle(q, a, b, c)
  {
    TriangleBySides(q, a, b, c);
    if SameSide(Turn(a, b, q), Turn(b, c, q), Turn(c, a, q)) {
      TurnsWeigh(q, a, b, c);
    }
    if u, v :| u > 0.0 && v > 0.0 && u + v < 1.0 && Mixed(a, b, c, u, v) == q {
      MixedTurns(q, a, b, c, u, v);
    }
  }

  // ----- Rings of any size -----

  /** q lies on no line through the first vertex and another, nor through two neighbours. */
  ghost predicate OffFan(q: Point, ring: seq<Point>) {
    forall i :: 0 < i < |ring| - 1 ==> OffSides(q, ring[i], ring[i + 1], ring[0])
  }

  /** An odd number of the triangles fanning out from the first vertex contain q. */
  ghost predicate InOddTriangles(q: Point, ring: seq<Point>)
    decreases |ring|
  {
    |ring| >= 3 &&
    var m := |ring| - 1;
    InTriangle(q, ring[m - 1], ring[m], ring[0]) != InOddTriangles(q, ring[..m])
  }

  lemma ShortRing(q: Point, ring: seq<Point>)
    requires |ring| <= 2
    ensures !Inside(q, ring)
  {
    if |ring| == 2 {
      InsideByPath(CrossedBy(q), ring);
      CrossesSymmetric(q, ring[0], ring[1]);
      assert |ring[1..]| == 1;
    } else {
      NoneMarked(CrossedBy(q), ring);
    }
  }

  /**
   * Any ring, self-crossing ones included: a point is inside exactly when an odd number of the
   * triangles of its fan contain it.
   */
  lemma {:induction false} FanParity(q: Point, ring: seq<Point>)
    requires OffFan(q, ring)
    ensures Inside(q, ring) <==> InOddTriangles(q, ring)
    decreases |ring|
  {
    if |ring| < 3 {
      ShortRing(q, ring);
    } else {
      var m := |ring| - 1;
      FanParity(q, ring[..m]);
      ChordSplit(q, ring, 0, m - 1);
      assert ring[0..m - 1 + 1] == ring[..m];
      assert ring[m - 1..] + ring[..1] == [ring[m - 1], ring[m], ring[0]];
      TriangleIff(q, ring[m - 1], ring[m], ring[0]);
    }
  }
}
