/** Scanline even-odd fill of a closed polygon, over exact reals. */
module Polygon {

  datatype Point = Point(x: real, y: real)

  /** The vertical centre of pixel row y. */
  function RowCentre(y: int): real {
    y as real + 0.5
  }

  predicate Crosses(p: Point, q: Point, yf: real) {
    (p.y <= yf && q.y > yf) || (q.y <= yf && p.y > yf)
  }

  /** The x of the point a fraction t of the way from p to q. */
  function Along(p: Point, q: Point, t: real): real {
    p.x + t * (q.x - p.x)
  }

  function CrossX(p: Point, q: Point, yf: real): real
    requires Crosses(p, q, yf)
  {
    Along(p, q, (yf - p.y) / (q.y - p.y))
  }

  /** The index after i around the polygon (see AfterIsModulo). */
  function After(i: nat, n: nat): nat
    requires i < n
  {
    if i + 1 == n then 0 else i + 1
  }

  lemma AfterIsModulo(i: nat, n: nat)
    requires i < n
    ensures After(i, n) == (i + 1) % n
  {
  }

  /** Where the first k edges of the closed polygon cross the row. */
  function Crossings(pts: seq<Point>, yf: real, k: nat): seq<real>
    requires k <= |pts|
  {
    if k == 0 then []
    else
      var p, q := pts[k - 1], pts[After(k - 1, |pts|)];
      if Crosses(p, q, yf) then Crossings(pts, yf, k - 1) + [CrossX(p, q, yf)] else Crossings(pts, yf, k - 1)
  }

  /** The crossing is the point of the edge at the height of the row. */
  lemma CrossingOnEdge(p: Point, q: Point, yf: real)
    requires Crosses(p, q, yf)
    ensures var t := (yf - p.y) / (q.y - p.y);
            && 0.0 <= t <= 1.0
            && yf == p.y + t * (q.y - p.y)
            && CrossX(p, q, yf) == p.x + t * (q.x - p.x)
  {
    var d, e := q.y - p.y, yf - p.y;
    var t := e / d;
    assert t * d == e;
    if d > 0.0 {
      assert 0.0 <= e <= d;
      DivBounds(e, d);
    } else {
      assert d <= e <= 0.0 && t == (-e) / (-d);
      DivBounds(-e, -d);
    }
  }

  lemma DivBounds(e: real, d: real)
    requires d > 0.0 && 0.0 <= e <= d
    ensures 0.0 <= e / d <= 1.0
  {
  }

  /** An open walk from the first vertex crosses the row an even number of times iff it ends on the same side. */
  lemma {:induction false} CrossingParity(pts: seq<Point>, yf: real, k: nat)
    requires pts != [] && k <= |pts|
    ensures var end := if k == |pts| then pts[0] else pts[k];
            |Crossings(pts, yf, k)| % 2 == 0 <==> (pts[0].y <= yf <==> end.y <= yf)
  {
    if k > 0 {
      CrossingParity(pts, yf, k - 1);
    }
  }

  /** Every row has an even number of crossings with a closed polygon. */
  lemma CrossingsEven(pts: seq<Point>, yf: real)
    requires pts != []
    ensures |Crossings(pts, yf, |pts|)| % 2 == 0
  {
    CrossingParity(pts, yf, |pts|);
  }

  // ----- sorting

  ghost predicate Sorted(xs: seq<real>) {
    forall i, j :: 0 <= i < j < |xs| ==> xs[i] <= xs[j]
  }

  function Insert(v: real, xs: seq<real>): seq<real> {
    if xs == [] || v <= xs[0] then [v] + xs else [xs[0]] + Insert(v, xs[1..])
  }

  function Sort(xs: seq<real>): seq<real> {
    if xs == [] then [] else Insert(xs[0], Sort(xs[1..]))
  }

  /** How many of the crossings lie strictly left of x. */
  function CountLeft(xs: seq<real>, x: real): nat {
    if xs == [] then 0 else (if xs[0] < x then 1 else 0) + CountLeft(xs[1..], x)
  }

  lemma {:induction false} InsertCounts(v: real, xs: seq<real>, x: real)
    ensures |Insert(v, xs)| == |xs| + 1
    ensures CountLeft(Insert(v, xs), x) == CountLeft(xs, x) + if v < x then 1 else 0
  {
    if xs == [] || v <= xs[0] {
      assert Insert(v, xs)[1..] == xs;
    } else {
      InsertCounts(v, xs[1..], x);
      assert Insert(v, xs)[1..] == Insert(v, xs[1..]);
    }
  }

  lemma {:induction false} InsertMembers(v: real, xs: seq<real>)
    ensures forall u :: u in Insert(v, xs) <==> u == v || u in xs
  {
    if xs != [] && v > xs[0] {
      InsertMembers(v, xs[1..]);
      assert xs == [xs[0]] + xs[1..];
    }
  }

  lemma {:induction false} InsertSorts(v: real, xs: seq<real>)
    requires Sorted(xs)
    ensures Sorted(Insert(v, xs))
  {
    if xs != [] && v > xs[0] {
      var r := Insert(v, xs[1..]);
      InsertSorts(v, xs[1..]);
      InsertMembers(v, xs[1..]);
      forall j | 0 <= j < |r|
        ensures xs[0] <= r[j]
      {
        assert r[j] in r;
      }
    }
  }

  lemma {:induction false} SortKeeps(xs: seq<real>, x: real)
    ensures Sorted(Sort(xs)) && |Sort(xs)| == |xs|
    ensures forall u :: u in Sort(xs) <==> u in xs
    ensures CountLeft(Sort(xs), x) == CountLeft(xs, x)
  {
    if xs != [] {
      SortKeeps(xs[1..], x);
      InsertCounts(xs[0], Sort(xs[1..]), x);
      InsertMembers(xs[0], Sort(xs[1..]));
      InsertSorts(xs[0], Sort(xs[1..]));
      assert xs == [xs[0]] + xs[1..];
    }
  }

  // ----- pairs of sorted crossings against the even-odd rule

  /** x lies between two crossings that the fill pairs up. */
  ghost predicate Covered(xs: seq<real>, x: real) {
    exists i :: 0 <= i && 2 * i + 1 < |xs| && xs[2 * i] <= x <= xs[2 * i + 1]
  }

  lemma {:induction false} NoneLeft(xs: seq<real>, x: real)
    requires forall i :: 0 <= i < |xs| ==> x <= xs[i]
    ensures CountLeft(xs, x) == 0
  {
    if xs != [] {
      NoneLeft(xs[1..], x);
    }
  }

  lemma CoveredTail(xs: seq<real>, x: real)
    requires |xs| >= 2
    ensures Covered(xs, x) <==> xs[0] <= x <= xs[1] || Covered(xs[2..], x)
  {
    if xs[0] <= x <= xs[1] {
      assert xs[2 * 0] <= x <= xs[2 * 0 + 1];
    } else {
      if Covered(xs, x) {
        var i :| 0 <= i && 2 * i + 1 < |xs| && xs[2 * i] <= x <= xs[2 * i + 1];
        assert xs[2..][2 * (i - 1)] == xs[2 * i] && xs[2..][2 * (i - 1) + 1] == xs[2 * i + 1];
      }
      if Covered(xs[2..], x) {
        var i :| 0 <= i && 2 * i + 1 < |xs[2..]| && xs[2..][2 * i] <= x <= xs[2..][2 * i + 1];
        assert xs[2 * (i + 1)] == xs[2..][2 * i] && xs[2 * (i + 1) + 1] == xs[2..][2 * i + 1];
      }
    }
  }

  lemma FirstTwo(xs: seq<real>, x: real)
    requires |xs| >= 2
    ensures CountLeft(xs, x) == (if xs[0] < x then 1 else 0) + (if xs[1] < x then 1 else 0) + CountLeft(xs[2..], x)
    ensures x in xs <==> x == xs[0] || x == xs[1] || x in xs[2..]
  {
    assert xs[1..][1..] == xs[2..] && xs[1..][0] == xs[1];
    assert xs == [xs[0], xs[1]] + xs[2..];
  }

  /** Pairing sorted crossings fills exactly the points on a crossing or with an odd number to their left. */
  lemma {:induction false} PairsAreEvenOdd(xs: seq<real>, x: real)
    requires Sorted(xs) && |xs| % 2 == 0
    ensures Covered(xs, x) <==> x in xs || CountLeft(xs, x) % 2 == 1
    decreases |xs|
  {
    if xs != [] {
      var a, b, rest := xs[0], xs[1], xs[2..];
      PairsAreEvenOdd(rest, x);
      CoveredTail(xs, x);
      FirstTwo(xs, x);
      if x <= b {
        NoneLeft(rest, x);
        assert x in rest ==> x == b;
      }
    }
  }

  /** What the fill adds at pixel (x, y), said of the polygon's edges alone. */
  ghost predicate Inside(pts: seq<Point>, x: int, y: int) {
    var xs := Crossings(pts, RowCentre(y), |pts|);
    x as real in xs || CountLeft(xs, x as real) % 2 == 1
  }

  lemma SortedCoverIsInside(pts: seq<Point>, x: int, y: int)
    requires pts != []
    ensures Covered(Sort(Crossings(pts, RowCentre(y), |pts|)), x as real) <==> Inside(pts, x, y)
  {
    var xs := Crossings(pts, RowCentre(y), |pts|);
    SortKeeps(xs, x as real);
    CrossingsEven(pts, RowCentre(y));
    PairsAreEvenOdd(Sort(xs), x as real);
  }

  // ----- the same, edge by edge

  /** Edge i crosses the row left of x. */
  predicate MeetsLeft(pts: seq<Point>, i: nat, yf: real, x: real)
    requires i < |pts|
  {
    var p, q := pts[i], pts[(i + 1) % |pts|];
    (p.y <= yf < q.y || q.y <= yf < p.y) && p.x + (yf - p.y) / (q.y - p.y) * (q.x - p.x) < x
  }

  ghost function LeftEdges(pts: seq<Point>, k: nat, yf: real, x: real): set<nat>
    requires k <= |pts|
  {
    set i: nat | i < k && MeetsLeft(pts, i, yf, x)
  }

  lemma {:induction false} CountLeftAppend(xs: seq<real>, v: real, x: real)
    ensures CountLeft(xs + [v], x) == CountLeft(xs, x) + if v < x then 1 else 0
  {
    if xs != [] {
      CountLeftAppend(xs[1..], v, x);
      assert (xs + [v])[1..] == xs[1..] + [v];
    }
  }

  lemma EdgeMeets(pts: seq<Point>, i: nat, yf: real, x: real)
    requires i < |pts|
    ensures var p, q := pts[i], pts[After(i, |pts|)];
            MeetsLeft(pts, i, yf, x) <==> Crosses(p, q, yf) && CrossX(p, q, yf) < x
  {
    AfterIsModulo(i, |pts|);
  }

  lemma LeftEdgesStep(pts: seq<Point>, k: nat, yf: real, x: real)
    requires k < |pts|
    ensures |LeftEdges(pts, k + 1, yf, x)| == |LeftEdges(pts, k, yf, x)| + if MeetsLeft(pts, k, yf, x) then 1 else 0
  {
    var before := LeftEdges(pts, k, yf, x);
    assert LeftEdges(pts, k + 1, yf, x) == if MeetsLeft(pts, k, yf, x) then before + {k} else before;
  }

  /** The crossings left of x are as many as the edges that cross the row there. */
  lemma {:induction false} CountsEdges(pts: seq<Point>, k: nat, yf: real, x: real)
    requires k <= |pts|
    ensures CountLeft(Crossings(pts, yf, k), x) == |LeftEdges(pts, k, yf, x)|
  {
    if k > 0 {
      var p, q := pts[k - 1], pts[After(k - 1, |pts|)];
      CountsEdges(pts, k - 1, yf, x);
      LeftEdgesStep(pts, k - 1, yf, x);
      EdgeMeets(pts, k - 1, yf, x);
      if Crosses(p, q, yf) {
        CountLeftAppend(Crossings(pts, yf, k - 1), CrossX(p, q, yf), x);
      }
    }
  }

  /** A pixel no edge meets is inside exactly when an odd number of edges cross its row's centre to its left. */
  lemma InsideIff(pts: seq<Point>, x: int, y: int)
    requires x as real !in Crossings(pts, RowCentre(y), |pts|)
    ensures Inside(pts, x, y) <==> |LeftEdges(pts, |pts|, y as real + 0.5, x as real)| % 2 == 1
  {
    CountsEdges(pts, |pts|, RowCentre(y), x as real);
  }

  // ----- the fill

  /** The horizontal position of pixel column u. */
  function At(u: int): real {
    u as real
  }

  function Ceil(r: real): int {
    -((-r).Floor)
  }

  lemma PixelBounds(r: real, x: int)
    ensures x >= Ceil(r) <==> x as real >= r
    ensures x <= r.Floor <==> x as real <= r
  {
  }

  method RowCrossings(pts: seq<Point>, yf: real) returns (xs: seq<real>)
    ensures xs == Crossings(pts, yf, |pts|)
  {
    xs := [];
    for i := 0 to |pts|
      invariant xs == Crossings(pts, yf, i)
    {
      AfterIsModulo(i, |pts|);
      var p, q := pts[i], pts[(i + 1) % |pts|];
      if (p.y <= yf && q.y > yf) || (q.y <= yf && p.y > yf) {
        var t := (yf - p.y) / (q.y - p.y);
        xs := xs + [Along(p, q, t)];
      }
    }
  }

  /** Set the pixels of row y between two crossings, clamped to the mask. */
  method FillSpan(mask: array2<bool>, y: nat, left: real, right: real)
    requires y < mask.Length0
    modifies mask
    ensures forall v, u :: 0 <= v < mask.Length0 && 0 <= u < mask.Length1 ==>
      (mask[v, u] <==> old(mask[v, u]) || (v == y && left <= At(u) <= right))
  {
    var start, end := Ceil(left), right.Floor;
    if start < 0 {
      start := 0;
    }
    if end > mask.Length1 - 1 {
      end := mask.Length1 - 1;
    }
    var x := start;
    while x <= end
      invariant start <= x
      invariant forall v, u :: 0 <= v < mask.Length0 && 0 <= u < mask.Length1 ==>
        (mask[v, u] <==> old(mask[v, u]) || (v == y && start <= u < x && u <= end))
      decreases end - x
    {
      mask[y, x] := true;
      x := x + 1;
    }
    forall u | 0 <= u < mask.Length1
      ensures start <= u <= end <==> left <= At(u) <= right
    {
      PixelBounds(left, u);
      PixelBounds(right, u);
    }
  }

  /** x lies between the crossings of one of the first k pairs. */
  ghost predicate CoveredBy(xs: seq<real>, k: nat, x: real) {
    exists i :: 0 <= i < k && 2 * i + 1 < |xs| && xs[2 * i] <= x <= xs[2 * i + 1]
  }

  lemma CoveredByNext(xs: seq<real>, k: nat, x: real)
    requires 2 * k + 1 < |xs|
    ensures CoveredBy(xs, k + 1, x) <==> CoveredBy(xs, k, x) || xs[2 * k] <= x <= xs[2 * k + 1]
  {
  }

  method FillRow(mask: array2<bool>, y: nat, xs: seq<real>)
    requires y < mask.Length0
    modifies mask
    ensures forall v, u :: 0 <= v < mask.Length0 && 0 <= u < mask.Length1 ==>
      (mask[v, u] <==> old(mask[v, u]) || (v == y && Covered(xs, At(u))))
  {
    var k: nat := 0;
    while 2 * k + 1 < |xs|
      invariant 2 * k <= |xs| + 1
      invariant forall v, u :: 0 <= v < mask.Length0 && 0 <= u < mask.Length1 ==>
        (mask[v, u] <==> old(mask[v, u]) || (v == y && CoveredBy(xs, k, At(u))))
      decreases |xs| - k
    {
      FillSpan(mask, y, xs[2 * k], xs[2 * k + 1]);
      forall u | 0 <= u < mask.Length1
        ensures CoveredBy(xs, k + 1, At(u)) <==>
                CoveredBy(xs, k, At(u)) || xs[2 * k] <= At(u) <= xs[2 * k + 1]
      {
        CoveredByNext(xs, k, At(u));
      }
      k := k + 1;
    }
    forall u | 0 <= u < mask.Length1
      ensures CoveredBy(xs, k, At(u)) <==> Covered(xs, At(u))
    {
      if Covered(xs, At(u)) {
        var i :| 0 <= i && 2 * i + 1 < |xs| && xs[2 * i] <= At(u) <= xs[2 * i + 1];
        assert i < k;
      }
    }
  }

  function Project(poly: seq<(real, real)>, project: (real, real) -> Point): (pts: seq<Point>)
    ensures |pts| == |poly| && forall i :: 0 <= i < |poly| ==> pts[i] == project(poly[i].0, poly[i].1)
  {
    seq(|poly|, i requires 0 <= i < |poly| => project(poly[i].0, poly[i].1))
  }

  /** Afterwards a pixel is set iff it was, or lies on a crossing, or has an odd number of crossings to its left. */
  method FillPolygon(mask: array2<bool>, poly: seq<(real, real)>, project: (real, real) -> Point)
    modifies mask
    ensures forall y, x :: 0 <= y < mask.Length0 && 0 <= x < mask.Length1 ==>
      (mask[y, x] <==> old(mask[y, x]) || (|poly| >= 3 && Inside(Project(poly, project), x, y)))
  {
    if mask.Length0 == 0 || |poly| < 3 {
      return;
    }
    var pts := Project(poly, project);
    for y := 0 to mask.Length0
      invariant forall v, u :: 0 <= v < mask.Length0 && 0 <= u < mask.Length1 ==>
        (mask[v, u] <==> old(mask[v, u]) || (v < y && Inside(pts, u, v)))
    {
      var xs := RowCrossings(pts, y as real + 0.5);
      FillRow(mask, y, Sort(xs));
      forall u | 0 <= u < mask.Length1
        ensures Covered(Sort(xs), At(u)) <==> Inside(pts, u, y)
      {
        SortedCoverIsInside(pts, u, y);
      }
    }
  }
}
