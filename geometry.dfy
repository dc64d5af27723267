/** The geometry helpers of src/utils/geometry.ts: point-in-zone tests, the
    segment/zone crossing tests and the two parking-lot searches.

    Coordinates are exact reals, so the ray-casting test and the parametric
    segment test are computed exactly. The two computations that need
    transcendental floating-point functions, the haversine distance and the
    square-root based projection of a circle's centre onto a segment, are
    uninterpreted: they are the fields of a `Metric`, and every result here holds
    for any choice of them. */
module Geometry {
  import opened Types

  /** `distance(p, q)` stands for getDistance; `closestOnSegment(start, end, c)`
      for the clamped projection of `c` onto the segment that lineIntersectsCircle
      computes before its final distance test. */
  datatype Metric = Metric(
    distance: (LatLng, LatLng) -> real,
    closestOnSegment: (LatLng, LatLng, LatLng) -> LatLng)

  // ---------------------------------------------------------------------------
  // Points in zones

  /** isPointInCircle: the circle contains the points whose distance from its
      centre is at most its radius, the boundary included. */
  function IsPointInCircle(m: Metric, point: LatLng, center: LatLng, radius: real): (r: bool)
    ensures r <==> m.distance(point, center) <= radius
  {
    m.distance(point, center) <= radius
  }

  /** The index `j` that the ray-casting loop pairs with `i`: the vertex before
      `i`, wrapping from the first vertex to the last. */
  function Prev(i: nat, n: nat): (j: nat)
    requires i < n
    ensures j < n
    ensures i == 0 <==> j == n - 1
    ensures i > 0 ==> j == i - 1
  {
    if i == 0 then n - 1 else i - 1
  }

  /** The test isPointInPolygon applies to the edge from `cur` (points[i]) to
      `prev` (points[j]): the ray cast from `point` towards increasing longitude
      crosses the edge. The division is evaluated only when the end points lie on
      opposite sides of the ray's latitude, so its divisor is never zero, and an
      edge of constant latitude (horizontal or of length zero) never counts. */
  function EdgeCrosses(point: LatLng, cur: LatLng, prev: LatLng): (r: bool)
    ensures cur.lat == prev.lat ==> !r
  {
    ((cur.lat > point.lat) != (prev.lat > point.lat))
    && (point.lng < (prev.lng - cur.lng) * (point.lat - cur.lat) / (prev.lat - cur.lat) + cur.lng)
  }

  /** The number of edges among the first `k` visited by the ray-casting loop
      whose crossing test holds: none exactly when no such edge crosses, all `k`
      exactly when every one does. */
  function Crossings(point: LatLng, points: seq<LatLng>, k: nat): (c: nat)
    requires k <= |points|
    ensures c <= k
  {
    if k == 0 then 0
    else
      Crossings(point, points, k - 1)
      + (if EdgeCrosses(point, points[k - 1], points[Prev(k - 1, |points|)]) then 1 else 0)
  }

  /** The count is zero exactly when none of the first `k` edges crosses the
      ray, and `k` exactly when all of them do. */
  lemma {:induction false} CrossingsExtremes(point: LatLng, points: seq<LatLng>, k: nat)
    requires k <= |points|
    ensures Crossings(point, points, k) == 0
            <==> forall e :: 0 <= e < k ==> !EdgeCrosses(point, points[e], points[Prev(e, |points|)])
    ensures Crossings(point, points, k) == k
            <==> forall e :: 0 <= e < k ==> EdgeCrosses(point, points[e], points[Prev(e, |points|)])
  {
    if k > 0 {
      CrossingsExtremes(point, points, k - 1);
    }
  }

  /** Even-odd rule: inside when an odd number of edges cross the ray. */
  predicate InPolygon(point: LatLng, points: seq<LatLng>)
  {
    Crossings(point, points, |points|) % 2 == 1
  }

  /** Visiting edge `i` flips the parity of the count exactly when the edge
      crosses the ray. */
  lemma ParityStep(point: LatLng, points: seq<LatLng>, i: nat, inside: bool)
    requires i < |points|
    requires inside <==> Crossings(point, points, i) % 2 == 1
    ensures (if EdgeCrosses(point, points[i], points[Prev(i, |points|)]) then !inside else inside)
            <==> Crossings(point, points, i + 1) % 2 == 1
  {
  }

  /** The loop of isPointInPolygon: `inside` is flipped once per crossing edge. */
  method IsPointInPolygon(point: LatLng, points: seq<LatLng>) returns (inside: bool)
    ensures inside <==> InPolygon(point, points)
  {
    inside := false;
    var i, j := 0, |points| - 1;
    while i < |points|
      invariant 0 <= i <= |points|
      invariant j == if i == 0 then |points| - 1 else i - 1
      invariant inside <==> Crossings(point, points, i) % 2 == 1
    {
      var intersect := EdgeCrosses(point, points[i], points[j]);
      assert j == Prev(i, |points|);
      ParityStep(point, points, i, inside);
      if intersect {
        inside := !inside;
      }
      j, i := i, i + 1;
    }
  }

  /** isPointInZone: a circle contains the points whose distance from its centre
      is at most its radius, boundary included; a polygon uses the even-odd rule. */
  function IsPointInZone(m: Metric, point: LatLng, zone: Zone): (r: bool)
    ensures zone.Circle? ==> (r <==> m.distance(point, zone.center) <= zone.radius)
    ensures zone.Polygon? ==> (r <==> InPolygon(point, zone.points))
  {
    match zone
    case Circle(_, center, radius) => IsPointInCircle(m, point, center, radius)
    case Polygon(_, points) => InPolygon(point, points)
  }

  /** No edge crosses the ray of a point that lies on or north of every vertex,
      or strictly south of every vertex. */
  lemma {:induction false} NoCrossingsBeyondLatitudes(point: LatLng, points: seq<LatLng>, k: nat)
    requires k <= |points|
    requires (forall q :: q in points ==> q.lat <= point.lat)
             || (forall q :: q in points ==> q.lat > point.lat)
    ensures Crossings(point, points, k) == 0
  {
    if k > 0 {
      NoCrossingsBeyondLatitudes(point, points, k - 1);
      assert points[k - 1] in points && points[Prev(k - 1, |points|)] in points;
    }
  }

  /** An edge whose end points both lie on or west of `point` does not cross
      its ray: the longitude at which the edge meets the ray's latitude lies
      between the longitudes of its end points. */
  lemma EdgeWestOfPoint(point: LatLng, cur: LatLng, prev: LatLng)
    requires cur.lng <= point.lng && prev.lng <= point.lng
    ensures !EdgeCrosses(point, cur, prev)
  {
    if (cur.lat > point.lat) != (prev.lat > point.lat) {
      var a, b, d := prev.lng - cur.lng, point.lat - cur.lat, prev.lat - cur.lat;
      var t := b / d;
      assert 0.0 <= t <= 1.0;
      assert a * b / d == a * t by {
        assert (a * b / d) * d == a * b;
        assert (a * t) * d == a * (t * d) == a * b;
        CancelFactor(a * b / d, a * t, d);
      }
      if cur.lng < prev.lng {
        assert a * t <= a;
      } else {
        assert a * t <= 0.0;
      }
    }
  }

  /** No edge crosses the ray of a point that lies on or east of every vertex:
      the ray starts beyond the whole ring. */
  lemma {:induction false} NoCrossingsEastOfRing(point: LatLng, points: seq<LatLng>, k: nat)
    requires k <= |points|
    requires forall q :: q in points ==> q.lng <= point.lng
    ensures Crossings(point, points, k) == 0
  {
    if k > 0 {
      NoCrossingsEastOfRing(point, points, k - 1);
      var cur, prev := points[k - 1], points[Prev(k - 1, |points|)];
      assert cur in points && prev in points;
      EdgeWestOfPoint(point, cur, prev);
    }
  }

  /** A point outside the latitude band of a ring, or east of all of it, is
      outside the polygon. */
  lemma OutsideBoundingBox(point: LatLng, points: seq<LatLng>)
    requires || (forall q :: q in points ==> q.lat <= point.lat)
             || (forall q :: q in points ==> q.lat > point.lat)
             || (forall q :: q in points ==> q.lng <= point.lng)
    ensures !InPolygon(point, points)
  {
    if forall q :: q in points ==> q.lng <= point.lng {
      NoCrossingsEastOfRing(point, points, |points|);
    } else {
      NoCrossingsBeyondLatitudes(point, points, |points|);
    }
  }

  /** The unit square contains its centre and not the point (2, 2). */
  lemma UnitSquareExample()
    ensures InPolygon(LatLng(0.5, 0.5), [LatLng(0.0, 0.0), LatLng(0.0, 1.0), LatLng(1.0, 1.0), LatLng(1.0, 0.0)])
    ensures !InPolygon(LatLng(2.0, 2.0), [LatLng(0.0, 0.0), LatLng(0.0, 1.0), LatLng(1.0, 1.0), LatLng(1.0, 0.0)])
  {
    var sq := [LatLng(0.0, 0.0), LatLng(0.0, 1.0), LatLng(1.0, 1.0), LatLng(1.0, 0.0)];
    assert Crossings(LatLng(0.5, 0.5), sq, 4) == 1;
    OutsideBoundingBox(LatLng(2.0, 2.0), sq);
  }

  // ---------------------------------------------------------------------------
  // Segment against segment

  function Denominator(x1: real, y1: real, x2: real, y2: real,
                       x3: real, y3: real, x4: real, y4: real): real
  {
    ((x2 - x1) * (y4 - y3)) - ((y2 - y1) * (x4 - x3))
  }

  /** The point at parameter `t` of segment (x1,y1)-(x2,y2) is the point at
      parameter `s` of segment (x3,y3)-(x4,y4). */
  ghost predicate MeetAt(x1: real, y1: real, x2: real, y2: real,
                         x3: real, y3: real, x4: real, y4: real, t: real, s: real)
  {
    && x1 + t * (x2 - x1) == x3 + s * (x4 - x3)
    && y1 + t * (y2 - y1) == y3 + s * (y4 - y3)
  }

  lemma CancelFactor(x: real, y: real, k: real)
    requires k != 0.0 && x * k == y * k
    ensures x == y
  {
  }

  /** When the lines are not parallel, `ua` and `ub` of lineSegmentsIntersect are
      the parameters of their one common point (Cramer's rule). */
  lemma CramerSolution(x1: real, y1: real, x2: real, y2: real,
                       x3: real, y3: real, x4: real, y4: real, ua: real, ub: real)
    requires Denominator(x1, y1, x2, y2, x3, y3, x4, y4) != 0.0
    requires ua == (((x4 - x3) * (y1 - y3)) - ((y4 - y3) * (x1 - x3))) / Denominator(x1, y1, x2, y2, x3, y3, x4, y4)
    requires ub == (((x2 - x1) * (y1 - y3)) - ((y2 - y1) * (x1 - x3))) / Denominator(x1, y1, x2, y2, x3, y3, x4, y4)
    ensures MeetAt(x1, y1, x2, y2, x3, y3, x4, y4, ua, ub)
    ensures forall t, s {:trigger MeetAt(x1, y1, x2, y2, x3, y3, x4, y4, t, s)} ::
              MeetAt(x1, y1, x2, y2, x3, y3, x4, y4, t, s) ==> t == ua && s == ub
  {
  }

  /** lineSegmentsIntersect: true exactly when the segments are not parallel
      (parallel and collinear pairs are never reported) and they share a point. */
  function LineSegmentsIntersect(x1: real, y1: real, x2: real, y2: real,
                                 x3: real, y3: real, x4: real, y4: real): (r: bool)
    ensures Denominator(x1, y1, x2, y2, x3, y3, x4, y4) == 0.0 ==> !r
    ensures r <==> Denominator(x1, y1, x2, y2, x3, y3, x4, y4) != 0.0
                   && exists t, s :: 0.0 <= t <= 1.0 && 0.0 <= s <= 1.0
                                     && MeetAt(x1, y1, x2, y2, x3, y3, x4, y4, t, s)
  {
    var denominator := Denominator(x1, y1, x2, y2, x3, y3, x4, y4);
    if denominator == 0.0 then false
    else
      var ua := (((x4 - x3) * (y1 - y3)) - ((y4 - y3) * (x1 - x3))) / denominator;
      var ub := (((x2 - x1) * (y1 - y3)) - ((y2 - y1) * (x1 - x3))) / denominator;
      CramerSolution(x1, y1, x2, y2, x3, y3, x4, y4, ua, ub);
      ua >= 0.0 && ua <= 1.0 && ub >= 0.0 && ub <= 1.0
  }

  /** The diagonals of the unit square meet at its centre and are reported;
      two overlapping pieces of one line share points but are not. */
  lemma SegmentExamples()
    ensures LineSegmentsIntersect(0.0, 0.0, 1.0, 1.0, 0.0, 1.0, 1.0, 0.0)
    ensures MeetAt(0.0, 0.0, 2.0, 0.0, 1.0, 0.0, 3.0, 0.0, 0.5, 0.0)
    ensures !LineSegmentsIntersect(0.0, 0.0, 2.0, 0.0, 1.0, 0.0, 3.0, 0.0)
  {
  }

  // ---------------------------------------------------------------------------
  // Segment against zone

  /** Edge `i` of a closed ring, as lineIntersectsPolygon walks it: from
      points[i] to points[(i + 1) % n]. */
  predicate EdgeHit(start: LatLng, end: LatLng, points: seq<LatLng>, i: nat)
    requires i < |points|
  {
    var j := (i + 1) % |points|;
    LineSegmentsIntersect(start.lng, start.lat, end.lng, end.lat,
                          points[i].lng, points[i].lat, points[j].lng, points[j].lat)
  }

  /** What lineIntersectsPolygon decides: some edge meets the segment, or an end
      point of the segment is inside the polygon. */
  predicate SegmentCrossesPolygon(start: LatLng, end: LatLng, points: seq<LatLng>)
  {
    || (exists i :: 0 <= i < |points| && EdgeHit(start, end, points, i))
    || InPolygon(start, points)
    || InPolygon(end, points)
  }

  /** The loop of lineIntersectsPolygon, returning at the first edge that meets
      the segment and falling back on the two end-point containment tests. */
  method LineIntersectsPolygon(start: LatLng, end: LatLng, points: seq<LatLng>) returns (r: bool)
    ensures r <==> SegmentCrossesPolygon(start, end, points)
  {
    var i := 0;
    while i < |points|
      invariant 0 <= i <= |points|
      invariant forall k :: 0 <= k < i ==> !EdgeHit(start, end, points, k)
    {
      var j := (i + 1) % |points|;
      if LineSegmentsIntersect(start.lng, start.lat, end.lng, end.lat,
                               points[i].lng, points[i].lat, points[j].lng, points[j].lat) {
        assert EdgeHit(start, end, points, i);
        return true;
      }
      i := i + 1;
    }
    r := IsPointInPolygon(start, points);
    if !r {
      r := IsPointInPolygon(end, points);
    }
  }

  /** lineIntersectsCircle: the point of the segment closest to the centre (an
      uninterpreted projection) lies within the radius. */
  function LineIntersectsCircle(m: Metric, start: LatLng, end: LatLng, center: LatLng, radius: real): (r: bool)
    ensures r <==> IsPointInCircle(m, m.closestOnSegment(start, end, center), center, radius)
  {
    m.distance(m.closestOnSegment(start, end, center), center) <= radius
  }

  /** routeIntersectsZone: dispatch on the zone's shape. */
  function RouteIntersectsZone(m: Metric, start: LatLng, end: LatLng, zone: Zone): (r: bool)
    ensures zone.Circle? ==> (r <==> LineIntersectsCircle(m, start, end, zone.center, zone.radius))
    ensures zone.Polygon? ==> (r <==> SegmentCrossesPolygon(start, end, zone.points))
  {
    match zone
    case Circle(_, center, radius) => LineIntersectsCircle(m, start, end, center, radius)
    case Polygon(_, points) => SegmentCrossesPolygon(start, end, points)
  }

  /** routeIntersectsAnyZone: `zones.some(...)`, scanning from the front. */
  function RouteIntersectsAnyZone(m: Metric, start: LatLng, end: LatLng, zones: seq<Zone>): (r: bool)
    ensures r <==> exists z :: z in zones && RouteIntersectsZone(m, start, end, z)
  {
    if zones == [] then false
    else RouteIntersectsZone(m, start, end, zones[0]) || RouteIntersectsAnyZone(m, start, end, zones[1..])
  }

  // ---------------------------------------------------------------------------
  // filter and reduce, as the parking-lot searches use them

  /** `s.filter(keep)`: the kept elements, in their original order. */
  function Filter<T(!new)>(keep: T -> bool, s: seq<T>): (r: seq<T>)
    ensures |r| <= |s|
    ensures forall x :: x in r <==> x in s && keep(x)
  {
    if s == [] then []
    else
      assert s == s[..|s| - 1] + [s[|s| - 1]];
      Filter(keep, s[..|s| - 1]) + (if keep(s[|s| - 1]) then [s[|s| - 1]] else [])
  }

  /** Filtering a concatenation filters each part and keeps them in order. */
  lemma {:induction false} FilterConcat<T(!new)>(keep: T -> bool, a: seq<T>, b: seq<T>)
    ensures Filter(keep, a + b) == Filter(keep, a) + Filter(keep, b)
    decreases |b|
  {
    if b != [] {
      var b', y := b[..|b| - 1], b[|b| - 1];
      assert a + b == (a + b') + [y];
      assert (a + b)[..|a + b| - 1] == a + b';
      assert b[..|b| - 1] == b';
      FilterConcat(keep, a, b');
      var tail := if keep(y) then [y] else [];
      assert Filter(keep, a + b) == Filter(keep, a + b') + tail;
      assert Filter(keep, b) == Filter(keep, b') + tail;
      assert Filter(keep, a + b) == Filter(keep, a) + (Filter(keep, b') + tail);
    } else {
      assert a + b == a;
    }
  }

  /** A single element is kept exactly when it satisfies the predicate; with
      `FilterConcat` this pins the result down, order and repetitions included. */
  lemma FilterSingleton<T(!new)>(keep: T -> bool, x: T)
    ensures Filter(keep, [x]) == if keep(x) then [x] else []
  {
    assert [x][..0] == [];
  }

  /** `s.reduce((best, current) => key(current) < key(best) ? current : best, init)`:
      a left-to-right scan in which a later element replaces the running best
      only when it is strictly better. */
  function ReduceMin<T(!new)>(key: T -> real, init: T, s: seq<T>): (r: T)
    ensures r == init || r in s
    ensures key(r) <= key(init)
    ensures forall x :: x in s ==> key(r) <= key(x)
  {
    if s == [] then init
    else
      assert s == s[..|s| - 1] + [s[|s| - 1]];
      var best := ReduceMin(key, init, s[..|s| - 1]);
      if key(s[|s| - 1]) < key(best) then s[|s| - 1] else best
  }

  /** `s[i]` is kept, no kept element is smaller, and every kept element before
      it is strictly larger: it is where a first-wins minimum search stops. */
  ghost predicate FirstMinimumAt<T>(key: T -> real, keep: T -> bool, s: seq<T>, i: int)
  {
    && 0 <= i < |s|
    && keep(s[i])
    && (forall j :: 0 <= j < |s| && keep(s[j]) ==> key(s[i]) <= key(s[j]))
    && (forall j :: 0 <= j < i && keep(s[j]) ==> key(s[i]) < key(s[j]))
  }

  /** Filtering and then reducing from the first kept element finds the first
      minimum of the kept elements, counted by position in the unfiltered list. */
  lemma {:induction false} FilterReduceFirstMinimum<T(!new)>(key: T -> real, keep: T -> bool, s: seq<T>)
    requires Filter(keep, s) != []
    ensures exists i :: FirstMinimumAt(key, keep, s, i)
                        && s[i] == ReduceMin(key, Filter(keep, s)[0], Filter(keep, s))
  {
    var p, x := s[..|s| - 1], s[|s| - 1];
    assert s == p + [x];
    if Filter(keep, p) == [] {
      FirstKept(key, keep, p, x);
    } else {
      FilterReduceFirstMinimum(key, keep, p);
      var i :| FirstMinimumAt(key, keep, p, i)
               && p[i] == ReduceMin(key, Filter(keep, p)[0], Filter(keep, p));
      LaterElement(key, keep, p, x, i);
    }
  }

  /** Inductive step when no element before `x` is kept. */
  lemma {:induction false} FirstKept<T(!new)>(key: T -> real, keep: T -> bool, p: seq<T>, x: T)
    requires Filter(keep, p) == []
    requires Filter(keep, p + [x]) != []
    ensures FirstMinimumAt(key, keep, p + [x], |p|)
    ensures ReduceMin(key, Filter(keep, p + [x])[0], Filter(keep, p + [x])) == x
  {
    var s := p + [x];
    assert s[..|s| - 1] == p;
    assert Filter(keep, s) == [x];
    assert [x][..0] == [];
    forall j | 0 <= j < |p| ensures !keep(s[j]) {
      assert s[j] == p[j] && p[j] in p;
    }
  }

  /** Inductive step when some element before `x` is kept and `p[i]` is the
      first minimum so far. */
  lemma {:induction false} LaterElement<T(!new)>(key: T -> real, keep: T -> bool, p: seq<T>, x: T, i: int)
    requires Filter(keep, p) != []
    requires FirstMinimumAt(key, keep, p, i)
    requires p[i] == ReduceMin(key, Filter(keep, p)[0], Filter(keep, p))
    ensures exists k :: FirstMinimumAt(key, keep, p + [x], k)
                        && (p + [x])[k] == ReduceMin(key, Filter(keep, p + [x])[0], Filter(keep, p + [x]))
  {
    var s := p + [x];
    assert s[..|s| - 1] == p;
    var fp, fs := Filter(keep, p), Filter(keep, s);
    if !keep(x) {
      assert fs == fp;
      FirstMinimumExtend(key, keep, p, x, i);
      assert s[i] == p[i];
    } else {
      assert fs == fp + [x];
      assert fs[0] == fp[0];
      assert fs[..|fs| - 1] == fp;
      if key(x) < key(p[i]) {
        assert ReduceMin(key, fs[0], fs) == x;
        assert FirstMinimumAt(key, keep, s, |p|);
      } else {
        assert ReduceMin(key, fs[0], fs) == p[i];
        FirstMinimumExtend(key, keep, p, x, i);
        assert s[i] == p[i];
      }
    }
  }

  /** A first minimum stays one when an element that is dropped, or no smaller,
      is appended. */
  lemma FirstMinimumExtend<T>(key: T -> real, keep: T -> bool, p: seq<T>, x: T, i: int)
    requires FirstMinimumAt(key, keep, p, i)
    requires keep(x) ==> key(p[i]) <= key(x)
    ensures FirstMinimumAt(key, keep, p + [x], i)
  {
  }

  function KeepAll<T>(): T -> bool
  {
    _ => true
  }

  lemma {:induction false} FilterKeepAll<T(!new)>(s: seq<T>)
    ensures Filter(KeepAll(), s) == s
  {
    if s != [] {
      FilterKeepAll(s[..|s| - 1]);
      assert s == s[..|s| - 1] + [s[|s| - 1]];
    }
  }

  // ---------------------------------------------------------------------------
  // Parking-lot searches

  function DistanceFrom(m: Metric, point: LatLng): ParkingLot -> real
  {
    (lot: ParkingLot) => m.distance(point, lot.position)
  }

  /** findNearestParkingLot: null exactly for an empty list, otherwise a lot of
      the list. */
  function FindNearestParkingLot(m: Metric, point: LatLng, lots: seq<ParkingLot>): (r: Option<ParkingLot>)
    ensures r.None? <==> lots == []
    ensures r.Some? ==> r.value in lots
  {
    if |lots| == 0 then None
    else Some(ReduceMin(DistanceFrom(m, point), lots[0], lots))
  }

  /** The lot findNearestParkingLot returns is no farther than any lot, and is
      the earliest of the lots at that distance. */
  lemma NearestParkingLotIsFirstMinimum(m: Metric, point: LatLng, lots: seq<ParkingLot>)
    ensures FindNearestParkingLot(m, point, lots).Some? ==>
      exists i :: NearestAt(m, point, lots, i) && FindNearestParkingLot(m, point, lots) == Some(lots[i])
  {
    if lots != [] {
      var key, keep := DistanceFrom(m, point), KeepAll();
      assert exists i :: FirstMinimumAt(key, keep, lots, i) && lots[i] == ReduceMin(key, lots[0], lots) by {
        FilterKeepAll(lots);
        FilterReduceFirstMinimum(key, keep, lots);
      }
      var i :| FirstMinimumAt(key, keep, lots, i) && lots[i] == ReduceMin(key, lots[0], lots);
      assert FindNearestParkingLot(m, point, lots) == Some(lots[i]);
      NearestLotFirstMinimum(m, point, lots, i);
    }
  }

  /** Lot `i` is no farther from `point` than any lot, and strictly nearer than
      every lot before it. */
  ghost predicate NearestAt(m: Metric, point: LatLng, lots: seq<ParkingLot>, i: int)
  {
    && 0 <= i < |lots|
    && (forall j :: 0 <= j < |lots| ==> m.distance(point, lots[i].position) <= m.distance(point, lots[j].position))
    && (forall j :: 0 <= j < i ==> m.distance(point, lots[i].position) < m.distance(point, lots[j].position))
  }

  /** The first minimum of the distance from `point` over all lots, spelled out
      in terms of the distance. */
  lemma NearestLotFirstMinimum(m: Metric, point: LatLng, lots: seq<ParkingLot>, i: int)
    requires FirstMinimumAt(DistanceFrom(m, point), KeepAll(), lots, i)
    ensures NearestAt(m, point, lots, i)
  {
    var key, keep := DistanceFrom(m, point), KeepAll<ParkingLot>();
    forall j | 0 <= j < |lots|
      ensures key(lots[i]) <= key(lots[j])
    {
      assert keep(lots[j]);
    }
    forall j | 0 <= j < i
      ensures key(lots[i]) < key(lots[j])
    {
      assert keep(lots[j]);
    }
  }

  /** A lot is a feasible detour when neither leg, start to lot and lot to end,
      crosses any zone. */
  function LegsClear(m: Metric, start: LatLng, end: LatLng, zones: seq<Zone>, lot: ParkingLot): (r: bool)
    ensures r <==> forall z :: z in zones ==>
                     !RouteIntersectsZone(m, start, lot.position, z) && !RouteIntersectsZone(m, lot.position, end, z)
  {
    && !RouteIntersectsAnyZone(m, start, lot.position, zones)
    && !RouteIntersectsAnyZone(m, lot.position, end, zones)
  }

  function Feasible(m: Metric, start: LatLng, end: LatLng, zones: seq<Zone>): ParkingLot -> bool
  {
    (lot: ParkingLot) => LegsClear(m, start, end, zones, lot)
  }

  function DetourLength(m: Metric, start: LatLng, end: LatLng): (f: ParkingLot -> real)
    ensures forall lot :: f(lot) == m.distance(start, lot.position) + m.distance(lot.position, end)
  {
    (lot: ParkingLot) => m.distance(start, lot.position) + m.distance(lot.position, end)
  }

  /** findBestParkingLot: null exactly when no lot has both legs clear;
      otherwise a lot of the list whose legs are clear. */
  function FindBestParkingLot(m: Metric, start: LatLng, end: LatLng,
                              lots: seq<ParkingLot>, zones: seq<Zone>): (r: Option<ParkingLot>)
    ensures r.None? <==> forall lot :: lot in lots ==> !LegsClear(m, start, end, zones, lot)
    ensures r.Some? ==> r.value in lots && LegsClear(m, start, end, zones, r.value)
  {
    if |lots| == 0 then None
    else
      var valid := Filter(Feasible(m, start, end, zones), lots);
      if |valid| == 0 then None
      else
        var best := ReduceMin(DetourLength(m, start, end), valid[0], valid);
        assert best in valid;
        Some(best)
  }

  /** Among the lots with both legs clear, the one findBestParkingLot returns has
      the shortest total detour, and is the earliest of those that tie. */
  lemma BestParkingLotIsFirstMinimum(m: Metric, start: LatLng, end: LatLng,
                                     lots: seq<ParkingLot>, zones: seq<Zone>)
    ensures FindBestParkingLot(m, start, end, lots, zones).Some? ==>
      exists i :: ShortestClearAt(m, start, end, lots, zones, i)
                  && FindBestParkingLot(m, start, end, lots, zones) == Some(lots[i])
  {
    var key, keep := DetourLength(m, start, end), Feasible(m, start, end, zones);
    var valid := Filter(keep, lots);
    if lots != [] && valid != [] {
      assert exists i :: FirstMinimumAt(key, keep, lots, i) && lots[i] == ReduceMin(key, valid[0], valid) by {
        FilterReduceFirstMinimum(key, keep, lots);
      }
      var i :| FirstMinimumAt(key, keep, lots, i) && lots[i] == ReduceMin(key, valid[0], valid);
      assert FindBestParkingLot(m, start, end, lots, zones) == Some(lots[i]);
      ClearLotFirstMinimum(m, start, end, lots, zones, i);
    }
  }

  /** Lot `i` has both legs clear; its two legs together are no longer than
      those of any lot with clear legs, and strictly shorter than those of every
      such lot before it. */
  ghost predicate ShortestClearAt(m: Metric, start: LatLng, end: LatLng,
                                  lots: seq<ParkingLot>, zones: seq<Zone>, i: int)
  {
    && 0 <= i < |lots| && LegsClear(m, start, end, zones, lots[i])
    && (forall j :: 0 <= j < |lots| && LegsClear(m, start, end, zones, lots[j]) ==>
          m.distance(start, lots[i].position) + m.distance(lots[i].position, end)
          <= m.distance(start, lots[j].position) + m.distance(lots[j].position, end))
    && (forall j :: 0 <= j < i && LegsClear(m, start, end, zones, lots[j]) ==>
          m.distance(start, lots[i].position) + m.distance(lots[i].position, end)
          < m.distance(start, lots[j].position) + m.distance(lots[j].position, end))
  }

  /** The first minimum of the detour length among the feasible lots, spelled
      out in terms of the two legs. */
  lemma ClearLotFirstMinimum(m: Metric, start: LatLng, end: LatLng,
                             lots: seq<ParkingLot>, zones: seq<Zone>, i: int)
    requires FirstMinimumAt(DetourLength(m, start, end), Feasible(m, start, end, zones), lots, i)
    ensures ShortestClearAt(m, start, end, lots, zones, i)
  {
    var key, keep := DetourLength(m, start, end), Feasible(m, start, end, zones);
    assert keep(lots[i]);
    forall j | 0 <= j < |lots| && LegsClear(m, start, end, zones, lots[j])
      ensures key(lots[i]) <= key(lots[j])
    {
      assert keep(lots[j]);
    }
    forall j | 0 <= j < i && LegsClear(m, start, end, zones, lots[j])
      ensures key(lots[i]) < key(lots[j])
    {
      assert keep(lots[j]);
    }
  }
}
