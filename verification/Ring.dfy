/** Ring points, the sorted lookup, and the clockwise scan it must agree with. */
module Ring {
  import opened Core
  import opened Arith
  import opened Sorting

  datatype Point = Point(position: u64, ownerHash: u64, replica: nat, index: nat)

  predicate PointLeq(a: Point, b: Point) {
    a.position < b.position || (a.position == b.position && TieLeq(a, b))
  }

  /** Order among points that collide on the ring. */
  predicate TieLeq(a: Point, b: Point) {
    a.ownerHash < b.ownerHash || (a.ownerHash == b.ownerHash &&
      (a.replica < b.replica || (a.replica == b.replica && a.index <= b.index)))
  }

  /** How far clockwise a position lies from a request, around the 64-bit circle. */
  function Clockwise(request: u64, position: u64): u64 {
    (position - request) % U64_LIMIT
  }

  lemma ClockwiseValue(request: u64, position: u64)
    ensures Clockwise(request, position) ==
      if position >= request then position - request else position - request + U64_LIMIT
  {
    if position >= request {
      DivModUnique(position - request, U64_LIMIT, 0, position - request);
    } else {
      DivModUnique(position - request, U64_LIMIT, -1, position - request + U64_LIMIT);
    }
  }

  predicate Nearer(request: u64, a: Point, b: Point) {
    || Clockwise(request, a.position) < Clockwise(request, b.position)
    || (a.position == b.position && TieLeq(a, b))
  }

  /** The first point met going clockwise from the request, ties resolved by owner, replica, index. */
  ghost predicate IsNearest(points: seq<Point>, request: u64, p: Point) {
    p in points && forall q :: q in points ==> Nearer(request, p, q)
  }

  lemma NearestIsUnique(points: seq<Point>, request: u64, p: Point, q: Point)
    requires IsNearest(points, request, p) && IsNearest(points, request, q)
    ensures p == q
  {
    ClockwiseValue(request, p.position);
    ClockwiseValue(request, q.position);
  }

  lemma NearerIsTransitive(request: u64, a: Point, b: Point, c: Point)
    requires Nearer(request, a, b) && Nearer(request, b, c)
    ensures Nearer(request, a, c)
  {
  }

  lemma NearerIsTotal(request: u64, a: Point, b: Point)
    ensures Nearer(request, a, b) || Nearer(request, b, a)
  {
    ClockwiseValue(request, a.position);
    ClockwiseValue(request, b.position);
  }

  /** The naive lookup: walk every point and keep the nearest. */
  ghost function ClockwiseScan(points: seq<Point>, request: u64): (p: Point)
    requires points != []
    ensures IsNearest(points, request, p)
  {
    var last := points[|points| - 1];
    if |points| == 1 then
      NearerIsTotal(request, last, last);
      last
    else
      var rest := points[..|points| - 1];
      var best := ClockwiseScan(rest, request);
      NearerIsTotal(request, last, best);
      NearerIsTotal(request, last, last);
      assert points == rest + [last];
      if Nearer(request, best, last) then best
      else
        assert forall q :: q in rest ==> Nearer(request, last, q) by {
          forall q | q in rest
            ensures Nearer(request, last, q)
          {
            NearerIsTransitive(request, last, best, q);
          }
        }
        last
  }

  lemma PointLeqIsTotalPreorder()
    ensures TotalPreorder(PointLeq)
  {
  }

  /** The standard library's partition search over a sorted slice. */
  method PartitionPoint(points: seq<Point>, request: u64) returns (cut: nat)
    requires Sorted(points, PointLeq)
    ensures cut <= |points|
    ensures forall i :: 0 <= i < cut ==> points[i].position < request
    ensures forall i :: cut <= i < |points| ==> points[i].position >= request
  {
    var lo, hi := 0, |points|;
    while lo < hi
      invariant 0 <= lo <= hi <= |points|
      invariant forall i :: 0 <= i < lo ==> points[i].position < request
      invariant forall i :: hi <= i < |points| ==> points[i].position >= request
    {
      var mid := (lo + hi) / 2;
      if points[mid].position < request {
        assert forall i :: 0 <= i < mid ==> PointLeq(points[i], points[mid]);
        lo := mid + 1;
      } else {
        assert forall i :: mid < i < |points| ==> PointLeq(points[mid], points[i]);
        hi := mid;
      }
    }
    return lo;
  }

  /** First point at or after the request, else wrap to the first point: that is the clockwise-nearest. */
  lemma CutIsNearest(points: seq<Point>, request: u64, cut: nat)
    requires Sorted(points, PointLeq) && points != [] && cut <= |points|
    requires forall i :: 0 <= i < cut ==> points[i].position < request
    requires forall i :: cut <= i < |points| ==> points[i].position >= request
    ensures IsNearest(points, request, if cut < |points| then points[cut] else points[0])
  {
    var at := if cut < |points| then cut else 0;
    forall q | q in points
      ensures Nearer(request, points[at], q)
    {
      var i :| 0 <= i < |points| && points[i] == q;
      ClockwiseValue(request, q.position);
      ClockwiseValue(request, points[at].position);
      if i > at {
        assert PointLeq(points[at], points[i]);
      } else if i == at {
        assert TieLeq(q, q);
      }
    }
  }

  lemma NearestIgnoresOrder(a: seq<Point>, b: seq<Point>, request: u64, p: Point)
    requires (forall q :: q in a <==> q in b) && IsNearest(a, request, p)
    ensures IsNearest(b, request, p)
  {
  }
}
