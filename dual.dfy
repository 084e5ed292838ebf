/** The Voronoi dual of the finished triangulation (`_computeVoronoi` of
    app/lib/voronoi.js; app/classes/Voronoi.js and js/city.js carry the same
    loop). Every live triangle is visited in live order, and each of its three
    edges in order. The neighbour across the edge decides the outcome. A live
    neighbour later in the list gives an edge between the two circumcentres. A
    neighbour that is null or no longer live gives an edge from the circumcentre
    to the border of the area, along the perpendicular bisector of the
    triangle's edge, and the stale link is cleared. An earlier live neighbour
    gives nothing, because its own visit already produced the edge. */
module Dual {
  import opened Wrappers
  import opened Geometry
  import opened Vertices
  import opened Edges
  import opened Triangles
  import opened Mesh

  // ---------------------------------------------------------------------
  // Clipping a perimeter edge at the border

  /** A line `y = a·x + b`, or, when the slope `a` is null, the vertical
      line `x = b`. */
  datatype Line = Line(a: Option<real>, b: real)

  predicate OnLine(l: Line, x: real, y: real)
  {
    if l.a.Some? then y == l.a.value * x + l.b else x == l.b
  }

  /** Which side of the line through `e` the point lies on: the sign of the
      cross product of `e` and the vector from `e.v1` to the point. */
  function Side(e: Edge, x: real, y: real): real
  {
    (e.v2.x - e.v1.x) * (y - e.v1.y) - (e.v2.y - e.v1.y) * (x - e.v1.x)
  }

  /** The line through the two ends of the edge. The denominator is checked
      first, and a vertical edge gives the line `x = v1.x`. */
  function EdgeLine(e: Edge): (l: Line)
    ensures l.a.None? <==> e.v1.x == e.v2.x
  {
    var denom := e.v1.x - e.v2.x;
    if denom != 0.0 then
      var a1 := (e.v1.y - e.v2.y) / denom;
      Line(Some(a1), e.v1.y - a1 * e.v1.x)
    else
      Line(None, e.v1.x)
  }

  /** Both ends of the edge are on its line, whose slope is zero exactly
      for a horizontal edge. */
  lemma EdgeLineThrough(e: Edge)
    ensures OnLine(EdgeLine(e), e.v1.x, e.v1.y) && OnLine(EdgeLine(e), e.v2.x, e.v2.y)
    ensures EdgeLine(e).a.Some? ==> (EdgeLine(e).a.value == 0.0 <==> e.v1.y == e.v2.y)
    ensures EdgeLine(e).a.Some? ==> EdgeLine(e).a.value * (e.v1.x - e.v2.x) == e.v1.y - e.v2.y
  {
    var denom := e.v1.x - e.v2.x;
    if denom != 0.0 {
      var a1 := (e.v1.y - e.v2.y) / denom;
      assert a1 * denom == e.v1.y - e.v2.y;
      assert a1 * e.v1.x - a1 * e.v2.x == e.v1.y - e.v2.y;
    }
  }

  function MidX(e: Edge): real { e.v1.x + (e.v2.x - e.v1.x) / 2.0 }

  function MidY(e: Edge): real { e.v1.y + (e.v2.y - e.v1.y) / 2.0 }

  /** The line through the middle of the edge, perpendicular to it. A
      horizontal edge gives a vertical line and a vertical edge a horizontal
      one. */
  function Perpendicular(e: Edge): (l: Line)
  {
    var l1 := EdgeLine(e);
    if l1.a.Some? then
      if l1.a.value != 0.0 then
        var a2 := -1.0 / l1.a.value;
        Line(Some(a2), MidY(e) - a2 * MidX(e))
      else
        Line(None, MidX(e))
    else
      Line(Some(0.0), MidY(e))
  }

  /** The perpendicular goes through the middle of the edge, and it is
      vertical exactly for a horizontal edge of two different points. */
  lemma PerpendicularThroughMid(e: Edge)
    ensures OnLine(Perpendicular(e), MidX(e), MidY(e))
    ensures Perpendicular(e).a.None? <==> e.v1.x != e.v2.x && e.v1.y == e.v2.y
  {
    EdgeLineThrough(e);
  }

  /** The difference of the squared distances to the two ends of `e` is
      twice the dot product of the offset from the middle of the edge with
      the edge. */
  lemma Difference(e: Edge, x: real, y: real)
    ensures Dist2(x, y, e.v1.x, e.v1.y) - Dist2(x, y, e.v2.x, e.v2.y)
         == -2.0 * ((x - MidX(e)) * (e.v1.x - e.v2.x) + (y - MidY(e)) * (e.v1.y - e.v2.y))
  {
    Expand(e.v1.x, e.v2.x, x);
    Expand(e.v1.y, e.v2.y, y);
  }

  /** `y = a·x + (k − a·m)` is the line of slope `a` through (m, k). */
  lemma Through(a: real, x: real, y: real, m: real, k: real)
    ensures y == a * x + (k - a * m) <==> y - k == a * (x - m)
  {
  }

  /** The negated inverse of a nonzero slope, times the slope, is -1. */
  lemma NegInverse(a: real)
    requires a != 0.0
    ensures (-1.0 / a) * a == -1.0
  {
  }

  /** A product with a nonzero factor is zero only when the other factor is. */
  lemma ZeroProduct(a: real, b: real)
    requires b != 0.0
    ensures a * b == 0.0 <==> a == 0.0
  {
    if a * b == 0.0 {
      Cancel(a, 0.0, b);
    }
  }

  /** For an edge of slope `a1 = dy/dx` that is neither horizontal nor
      vertical, and the perpendicular slope `a2`, an offset (u, w) is
      orthogonal to the edge exactly when `w = a2·u`. */
  lemma Orthogonal(dx: real, dy: real, a1: real, a2: real, u: real, w: real)
    requires dx != 0.0 && a1 != 0.0 && a1 * dx == dy && a2 * a1 == -1.0
    ensures w == a2 * u <==> u * dx + w * dy == 0.0
  {
    assert dy != 0.0;
    assert a2 * dy == -dx by {
      assert a2 * dy == a2 * (a1 * dx) == (a2 * a1) * dx;
    }
    if w == a2 * u {
      assert w * dy == u * (a2 * dy);
    }
    if u * dx + w * dy == 0.0 {
      assert w * dy == (a2 * u) * dy;
      Cancel(w, a2 * u, dy);
    }
  }

  /** The bisector of a sloped edge: the line of slope -1/a1 through the middle. */
  lemma BisectsSloped(e: Edge, x: real, y: real)
    requires EdgeLine(e).a.Some? && EdgeLine(e).a.value != 0.0
    ensures OnLine(Perpendicular(e), x, y) <==> (x - MidX(e)) * (e.v1.x - e.v2.x) + (y - MidY(e)) * (e.v1.y - e.v2.y) == 0.0
  {
    EdgeLineThrough(e);
    var a1 := EdgeLine(e).a.value;
    var a2 := -1.0 / a1;
    NegInverse(a1);
    Through(a2, x, y, MidX(e), MidY(e));
    Orthogonal(e.v1.x - e.v2.x, e.v1.y - e.v2.y, a1, a2, x - MidX(e), y - MidY(e));
  }

  /** The bisector of a horizontal edge: the vertical line through the middle. */
  lemma BisectsLevel(e: Edge, x: real, y: real)
    requires EdgeLine(e).a.Some? && EdgeLine(e).a.value == 0.0
    ensures OnLine(Perpendicular(e), x, y) <==> (x - MidX(e)) * (e.v1.x - e.v2.x) + (y - MidY(e)) * (e.v1.y - e.v2.y) == 0.0
  {
    EdgeLineThrough(e);
    assert e.v1.y - e.v2.y == 0.0;
    ZeroProduct(x - MidX(e), e.v1.x - e.v2.x);
  }

  /** The bisector of a vertical edge: the horizontal line through the
      middle, which every point satisfies when the ends coincide. */
  lemma BisectsUpright(e: Edge, x: real, y: real)
    requires EdgeLine(e).a.None?
    ensures OnLine(Perpendicular(e), x, y) ==> (x - MidX(e)) * (e.v1.x - e.v2.x) + (y - MidY(e)) * (e.v1.y - e.v2.y) == 0.0
    ensures e.v1.y != e.v2.y ==>
      (OnLine(Perpendicular(e), x, y) <==> (x - MidX(e)) * (e.v1.x - e.v2.x) + (y - MidY(e)) * (e.v1.y - e.v2.y) == 0.0)
  {
    assert e.v1.x - e.v2.x == 0.0;
    if e.v1.y != e.v2.y {
      ZeroProduct(y - MidY(e), e.v1.y - e.v2.y);
    }
  }

  /** The perpendicular is the bisector of the edge. Each of its points is as
      far from one end as from the other. When the ends are different points,
      every such point is on it. */
  lemma Bisects(e: Edge, x: real, y: real)
    ensures OnLine(Perpendicular(e), x, y) ==> Dist2(x, y, e.v1.x, e.v1.y) == Dist2(x, y, e.v2.x, e.v2.y)
    ensures (e.v1.x != e.v2.x || e.v1.y != e.v2.y) ==>
      (OnLine(Perpendicular(e), x, y) <==> Dist2(x, y, e.v1.x, e.v1.y) == Dist2(x, y, e.v2.x, e.v2.y))
  {
    Difference(e, x, y);
    var l1 := EdgeLine(e);
    if l1.a.Some? && l1.a.value != 0.0 {
      BisectsSloped(e, x, y);
    } else if l1.a.Some? {
      BisectsLevel(e, x, y);
    } else {
      BisectsUpright(e, x, y);
    }
  }

  /** A slope and the negated inverse of a nonzero slope always differ, so
      the edge line and a parallel to the bisector meet. */
  lemma NotParallel(a1: real)
    requires a1 != 0.0
    ensures a1 - (-1.0 / a1) != 0.0
  {
    var a3 := -1.0 / a1;
    assert a3 * a1 == -1.0;
    assert (a1 - a3) * a1 == a1 * a1 + 1.0;
  }

  /** The abscissa at which the line of slope `a3` through (ox, oy) meets
      the line `y = a1·x + b1`. */
  function Meet(a1: real, b1: real, a3: real, ox: real, oy: real): (px: real)
    requires a1 - a3 != 0.0
    ensures a1 * px + b1 == a3 * px + (oy - a3 * ox)
  {
    var b3 := oy - a3 * ox;
    var px := (b3 - b1) / (a1 - a3);
    assert px * (a1 - a3) == b3 - b1;
    px
  }

  /** For a bisector that is not vertical: the abscissa where the parallel
      to it through the opposite vertex meets the edge line (for a vertical
      edge, the abscissa of the edge). */
  function Projection(e: Edge, opp: Vertex): real
    requires Perpendicular(e).a.Some?
  {
    var l1 := EdgeLine(e);
    if l1.a.Some? then
      NotParallel(l1.a.value);
      Meet(l1.a.value, l1.b, Perpendicular(e).a.value, opp.x, opp.y)
    else l1.b
  }

  /** The far end of the clipped Voronoi edge of perimeter edge `e`, whose
      triangle has `opp` as third vertex. It is taken on the bisector of `e`.
      A bisector that is not vertical is cut at x = width when the opposite
      vertex lies left of its projection, and at x = 0 otherwise. A vertical
      bisector is cut at y = height when the opposite vertex lies below the
      middle of the edge, and at y = 0 otherwise. */
  function Far(e: Edge, opp: Vertex, width: real, height: real): (p: (real, real))
    ensures OnLine(Perpendicular(e), p.0, p.1)
    ensures Perpendicular(e).a.Some? ==> p.0 == 0.0 || p.0 == width
    ensures Perpendicular(e).a.None? ==> p.0 == MidX(e) && (p.1 == 0.0 || p.1 == height)
  {
    var l2 := Perpendicular(e);
    if l2.a.Some? then
      var coeff := if opp.x < Projection(e, opp) then width else 0.0;
      (coeff, l2.a.value * coeff + l2.b)
    else
      (l2.b, if opp.y < MidY(e) then height else 0.0)
  }

  /** The far end is as far from one end of the edge as from the other. */
  lemma FarEquidistant(e: Edge, opp: Vertex, width: real, height: real)
    ensures var p := Far(e, opp, width, height);
      Dist2(p.0, p.1, e.v1.x, e.v1.y) == Dist2(p.0, p.1, e.v2.x, e.v2.y)
  {
    var p := Far(e, opp, width, height);
    Bisects(e, p.0, p.1);
  }

  /** Moving along a line of slope `k` changes the side measure linearly. */
  lemma SideAlong(e: Edge, x: real, y: real, px: real, py: real, k: real)
    requires y - py == k * (x - px)
    ensures Side(e, x, y) == Side(e, px, py) + (x - px) * ((e.v2.x - e.v1.x) * k - (e.v2.y - e.v1.y))
  {
    var A, B := e.v2.x - e.v1.x, e.v2.y - e.v1.y;
    assert Side(e, x, y) - Side(e, px, py) == A * (y - py) - B * (x - px);
    assert A * (y - py) == A * (k * (x - px)) == (x - px) * (A * k);
  }

  /** The points of the edge line, its middle included, are on neither side. */
  lemma OnEdgeLine(e: Edge, x: real, y: real)
    requires OnLine(EdgeLine(e), x, y)
    ensures Side(e, x, y) == 0.0
    ensures Side(e, MidX(e), MidY(e)) == 0.0
  {
    EdgeLineThrough(e);
    var l1 := EdgeLine(e);
    var A, B := e.v2.x - e.v1.x, e.v2.y - e.v1.y;
    if l1.a.Some? {
      var a1 := l1.a.value;
      assert A * a1 == B;
      Through(a1, x, y, e.v1.x, e.v1.y);
      SideAlong(e, x, y, e.v1.x, e.v1.y, a1);
    }
    assert Side(e, MidX(e), MidY(e)) == A * (B / 2.0) - B * (A / 2.0);
  }

  /** How fast the side measure changes along a bisector that is not
      vertical, per unit of x. */
  function Factor(e: Edge): real
    requires Perpendicular(e).a.Some?
  {
    (e.v2.x - e.v1.x) * Perpendicular(e).a.value - (e.v2.y - e.v1.y)
  }

  /** `v` is the offset of `p` from `pivot`, scaled by `s`. */
  predicate Scaled(v: real, p: real, pivot: real, s: real)
  {
    v == (p - pivot) * s
  }

  /** Along a bisector that is not vertical, the side of a point is its
      distance in x from the middle of the edge, times a fixed factor. */
  lemma SideOfBisector(e: Edge, x: real, y: real)
    requires Perpendicular(e).a.Some? && OnLine(Perpendicular(e), x, y)
    ensures Scaled(Side(e, x, y), x, MidX(e), Factor(e))
  {
    var a2 := Perpendicular(e).a.value;
    EdgeLineThrough(e);
    OnEdgeLine(e, e.v1.x, e.v1.y);
    assert Perpendicular(e).b == MidY(e) - a2 * MidX(e);
    Through(a2, x, y, MidX(e), MidY(e));
    SideAlong(e, x, y, MidX(e), MidY(e), a2);
  }

  /** For a sloped edge line, the projection is on it, and the opposite
      vertex is reached from there along the bisector's slope. */
  lemma ProjectionSloped(e: Edge, opp: Vertex)
    requires Perpendicular(e).a.Some? && EdgeLine(e).a.Some?
    ensures var px := Projection(e, opp);
      Side(e, opp.x, opp.y) == (opp.x - px) * Factor(e)
  {
    var l1 := EdgeLine(e);
    var a2 := Perpendicular(e).a.value;
    var px := Projection(e, opp);
    var py := l1.a.value * px + l1.b;
    assert py == a2 * px + (opp.y - a2 * opp.x);
    OnEdgeLine(e, px, py);
    Through(a2, px, py, opp.x, opp.y);
    SideAlong(e, opp.x, opp.y, px, py, a2);
  }

  /** For a vertical edge line the bisector is horizontal, and the side of
      the opposite vertex is its offset from the edge. */
  lemma ProjectionUpright(e: Edge, opp: Vertex)
    requires EdgeLine(e).a.None?
    ensures Perpendicular(e).a.Some? && Perpendicular(e).a.value == 0.0
    ensures Side(e, opp.x, opp.y) == (opp.x - Projection(e, opp)) * (-(e.v2.y - e.v1.y))
  {
    assert e.v2.x - e.v1.x == 0.0 && Projection(e, opp) == e.v1.x;
  }

  /** The side of the opposite vertex is its distance in x from its
      projection, times the same factor. */
  lemma SideOfOpposite(e: Edge, opp: Vertex)
    requires Perpendicular(e).a.Some?
    ensures Scaled(Side(e, opp.x, opp.y), opp.x, Projection(e, opp), Factor(e))
  {
    if EdgeLine(e).a.Some? {
      ProjectionSloped(e, opp);
    } else {
      ProjectionUpright(e, opp);
      assert e.v2.x - e.v1.x == 0.0;
    }
  }

  /** Two side measures that do not put their points strictly on the same
      side of the line. */
  predicate Apart(s1: real, s2: real)
  {
    s1 * s2 <= 0.0
  }

  /** Two multiples of the same factor, by the offsets of two points on
      opposite sides of their pivots, have a product that is not positive. */
  lemma OppositeSigns(sp: real, so: real, p: real, pm: real, q: real, qm: real, s: real)
    requires Scaled(sp, p, pm, s) && Scaled(so, q, qm, s)
    requires (p >= pm && q <= qm) || (p <= pm && q >= qm)
    ensures Apart(sp, so)
  {
    assert (p - pm) * (q - qm) <= 0.0;
    assert sp * so == ((p - pm) * (q - qm)) * (s * s);
    assert s * s >= 0.0;
  }

  /** A point of a bisector that is not vertical, cut at the border away
      from the opposite vertex's projection, is not on the vertex's side. */
  lemma CutApart(e: Edge, opp: Vertex, f0: real, f1: real, width: real)
    requires 0.0 <= MidX(e) <= width
    requires Perpendicular(e).a.Some? && OnLine(Perpendicular(e), f0, f1)
    requires f0 == if opp.x < Projection(e, opp) then width else 0.0
    ensures Apart(Side(e, f0, f1), Side(e, opp.x, opp.y))
  {
    assert (f0 >= MidX(e) && opp.x <= Projection(e, opp)) || (f0 <= MidX(e) && opp.x >= Projection(e, opp)) by {
      if opp.x < Projection(e, opp) {
        assert f0 == width;
      } else {
        assert f0 == 0.0;
      }
    }
    SideOfBisector(e, f0, f1);
    SideOfOpposite(e, opp);
    OppositeSigns(Side(e, f0, f1), Side(e, opp.x, opp.y), f0, MidX(e), opp.x, Projection(e, opp), Factor(e));
  }

  lemma FarAwaySloped(e: Edge, opp: Vertex, width: real, height: real)
    requires 0.0 <= MidX(e) <= width
    requires Perpendicular(e).a.Some?
    ensures var p := Far(e, opp, width, height);
      Apart(Side(e, p.0, p.1), Side(e, opp.x, opp.y))
  {
    var p := Far(e, opp, width, height);
    CutApart(e, opp, p.0, p.1, width);
  }

  /** A vertical bisector belongs to a horizontal edge, and is cut on the
      far side of the edge from the opposite vertex. */
  lemma FarAwayUpright(e: Edge, opp: Vertex, width: real, height: real)
    requires 0.0 <= MidY(e) <= height
    requires Perpendicular(e).a.None?
    ensures var p := Far(e, opp, width, height);
      Apart(Side(e, p.0, p.1), Side(e, opp.x, opp.y))
  {
    var p := Far(e, opp, width, height);
    PerpendicularThroughMid(e);
    var A := e.v2.x - e.v1.x;
    assert e.v2.y - e.v1.y == 0.0 && MidY(e) == e.v1.y;
    assert Side(e, p.0, p.1) == (p.1 - MidY(e)) * A;
    assert Side(e, opp.x, opp.y) == (opp.y - MidY(e)) * A;
    OppositeSigns(Side(e, p.0, p.1), Side(e, opp.x, opp.y), p.1, MidY(e), opp.y, MidY(e), e.v2.x - e.v1.x);
  }

  /** When the middle of the edge lies in the area, the far end and the
      opposite vertex are not strictly on the same side of the edge line: the
      clipped edge leaves the triangle through the perimeter edge. */
  lemma FarAway(e: Edge, opp: Vertex, width: real, height: real)
    requires 0.0 <= MidX(e) <= width && 0.0 <= MidY(e) <= height
    ensures var p := Far(e, opp, width, height);
      Apart(Side(e, p.0, p.1), Side(e, opp.x, opp.y))
  {
    if Perpendicular(e).a.Some? {
      FarAwaySloped(e, opp, width, height);
    } else {
      FarAwayUpright(e, opp, width, height);
    }
  }

  // ---------------------------------------------------------------------
  // The pass over the live triangles

  /** The first of the vertices that is neither end of `e` (the search for
      the opposite vertex), or `None` when there is none. */
  function Opposite(vs: seq<Vertex>, e: Edge): (r: Option<Vertex>)
    ensures r.Some? ==> r.value in vs && r.value != e.v1 && r.value != e.v2
    ensures r.None? <==> forall v :: v in vs ==> v == e.v1 || v == e.v2
    ensures r.Some? ==> exists k :: (0 <= k < |vs| && vs[k] == r.value &&
      forall m :: 0 <= m < k ==> vs[m] == e.v1 || vs[m] == e.v2)
  {
    if |vs| == 0 then None
    else if vs[0] != e.v1 && vs[0] != e.v2 then Some(vs[0])
    else
      var r := Opposite(vs[1..], e);
      assert forall v :: v in vs ==> v == vs[0] || v in vs[1..];
      if r.Some? then
        var k :| 0 <= k < |vs[1..]| && vs[1..][k] == r.value &&
          forall m :: 0 <= m < k ==> vs[1..][m] == e.v1 || vs[1..][m] == e.v2;
        assert vs[k + 1] == r.value;
        assert forall m :: 0 <= m < k + 1 ==> vs[m] == e.v1 || vs[m] == e.v2 by {
          forall m | 0 <= m < k + 1
            ensures vs[m] == e.v1 || vs[m] == e.v2
          {
            if m > 0 {
              assert vs[m] == vs[1..][m - 1];
            }
          }
        }
        r
      else r
  }

  /** The circumcentre of a triangle, when its vertices are not collinear. */
  function Centre(t: Tri): (c: Option<(real, real)>)
    requires |t.vertices| == 3
    ensures c.Some? <==> Circumcircle3(t).Circle?
    ensures c.Some? ==> c.value == (Circumcircle3(t).cx, Circumcircle3(t).cy)
  {
    var k := Circumcircle3(t);
    if k.Circle? then Some((k.cx, k.cy)) else None
  }

  /** What the pass works on: the arena, whose stale links it clears, the
      Voronoi edges so far, and the vertex and edge counters. */
  datatype Dual = Dual(tris: Arena, edges: seq<Edge>, vcount: nat, ecount: nat)

  /** The state reached by a part of the pass, and the error that stopped
      it, if any. */
  datatype Run = Run(d: Dual, failure: Option<string>)

  const NotFinite := "circumcentre is not finite"

  /** The error of reading a property of the missing opposite vertex. */
  function NullRead(property: string): string
  {
    "Cannot read properties of null (reading '" + property + "')"
  }

  /** The position in the live list of the neighbour across `t.edges[j]`:
      -1 for null and for a triangle that is no longer live. */
  function Across(tris: Arena, live: seq<nat>, i: nat, j: nat): (idx: int)
    requires i < |live| && j < 3 && KeyedIn(live, tris)
    ensures -1 <= idx < |live|
  {
    var t := tris[live[i]];
    var n := GetNeighbour(t, t.edges[j]);
    if n.None? then -1 else IndexOf(live, n.value)
  }

  /** Does visiting `t.edges[j]` of `live[i]` give a Voronoi edge? */
  predicate Emits(tris: Arena, live: seq<nat>, i: nat, j: nat)
    requires i < |live| && j < 3 && KeyedIn(live, tris)
  {
    var idx := Across(tris, live, i, j);
    idx > i || idx == -1
  }

  /** The visit of an edge shared with a later live triangle `live[idx]`:
      the edge between the two circumcentres. */
  function Joined(d: Dual, live: seq<nat>, i: nat, idx: nat): (r: Run)
    requires i < |live| && idx < |live| && KeyedIn(live, d.tris)
    ensures r.d.tris == d.tris
  {
    match (Centre(d.tris[live[i]]), Centre(d.tris[live[idx]]))
    case (Some(c), Some(cn)) =>
      var a := Vertex(d.vcount, c.0, c.1);
      var b := Vertex(d.vcount + 1, cn.0, cn.1);
      Run(Dual(d.tris, d.edges + [Edge(d.ecount, a, b)], d.vcount + 2, d.ecount + 1), None)
    case _ => Run(d, Some(NotFinite))
  }

  /** The visit of a perimeter edge `t.edges[j]` of `t = live[i]`: the
      stale link is cleared, and the edge runs from the circumcentre to the
      far point of the bisector on the border. Without an opposite vertex the
      read of its coordinate fails. */
  function Clipped(d: Dual, live: seq<nat>, i: nat, j: nat, width: real, height: real): (r: Run)
    requires i < |live| && j < 3 && KeyedIn(live, d.tris)
    ensures KeyedIn(live, r.d.tris) && r.d.tris.Keys == d.tris.Keys
  {
    var t := d.tris[live[i]];
    var e := t.edges[j];
    var tris := d.tris[live[i] := SetNeighbour(t, e, None)];
    var opp := Opposite(t.vertices, e);
    if opp.None? then
      var read := if Perpendicular(e).a.Some? && EdgeLine(e).a.None? then "x" else "y";
      Run(d.(tris := tris), Some(NullRead(read)))
    else if Centre(t).None? then
      Run(d.(tris := tris), Some(NotFinite))
    else
      var far := Far(e, opp.value, width, height);
      var c := Centre(t).value;
      var fv := Vertex(d.vcount, far.0, far.1);
      var cv := Vertex(d.vcount + 1, c.0, c.1);
      Run(Dual(tris, d.edges + [Edge(d.ecount, cv, fv)], d.vcount + 2, d.ecount + 1), None)
  }

  /** One visit: triangle `live[i]`, its edge `j`. */
  function Slot(d: Dual, live: seq<nat>, i: nat, j: nat, width: real, height: real): (r: Run)
    requires i < |live| && j < 3 && KeyedIn(live, d.tris)
    ensures KeyedIn(live, r.d.tris) && r.d.tris.Keys == d.tris.Keys
  {
    var idx := Across(d.tris, live, i, j);
    if idx > i then Joined(d, live, i, idx)
    else if idx == -1 then Clipped(d, live, i, j, width, height)
    else Run(d, None)
  }

  /** The first `k` visits, three per live triangle, stopping at the first
      error. */
  function Slots(d: Dual, live: seq<nat>, k: nat, width: real, height: real): (r: Run)
    requires k <= 3 * |live| && KeyedIn(live, d.tris)
    ensures KeyedIn(live, r.d.tris) && r.d.tris.Keys == d.tris.Keys
    decreases k, 0
  {
    if k == 0 then Run(d, None) else After(d, live, k - 1, width, height)
  }

  /** The run up to and including visit `k` (counting from 0): triangle
      `live[k / 3]`, its edge `k % 3`, unless an earlier visit failed. */
  function After(d: Dual, live: seq<nat>, k: nat, width: real, height: real): (r: Run)
    requires k < 3 * |live| && KeyedIn(live, d.tris)
    ensures KeyedIn(live, r.d.tris) && r.d.tris.Keys == d.tris.Keys
    decreases k, 1
  {
    var prev := Slots(d, live, k, width, height);
    if prev.failure.Some? then prev else Slot(prev.d, live, k / 3, k % 3, width, height)
  }

  /** Once a visit has failed, the rest of the pass changes nothing. */
  lemma {:induction false} FailureStops(d: Dual, live: seq<nat>, k: nat, m: nat, width: real, height: real)
    requires k <= m <= 3 * |live| && KeyedIn(live, d.tris)
    requires Slots(d, live, k, width, height).failure.Some?
    ensures Slots(d, live, m, width, height) == Slots(d, live, k, width, height)
    decreases m
  {
    if m > k {
      FailureStops(d, live, k, m - 1, width, height);
    }
  }

  /** The visit of an edge shared with the later live triangle
      `live[idx]`. */
  method VisitJoined(tris: Arena, live: seq<nat>, edges: seq<Edge>, i: nat, idx: nat,
                     vf: VertexFactory, ef: EdgeFactory)
    returns (edges': seq<Edge>, failure: Option<string>)
    requires i < |live| && idx < |live| && KeyedIn(live, tris) && vf.Valid() && ef.Valid()
    modifies vf, ef
    ensures vf.Valid() && ef.Valid()
    ensures Joined(Dual(tris, edges, old(vf.count), old(ef.count)), live, i, idx)
         == Run(Dual(tris, edges', vf.count, ef.count), failure)
  {
    var c, cn := Centre(tris[live[i]]), Centre(tris[live[idx]]);
    if c.None? || cn.None? {
      return edges, Some(NotFinite);
    }
    var a := vf.Create(c.value.0, c.value.1);
    var b := vf.Create(cn.value.0, cn.value.1);
    var e := ef.Create(a, b);
    return edges + [e], None;
  }

  /** The visit of a perimeter edge, with the search for the opposite
      vertex. */
  method VisitClipped(tris: Arena, live: seq<nat>, edges: seq<Edge>, i: nat, j: nat, width: real, height: real,
                      vf: VertexFactory, ef: EdgeFactory)
    returns (tris': Arena, edges': seq<Edge>, failure: Option<string>)
    requires i < |live| && j < 3 && KeyedIn(live, tris) && vf.Valid() && ef.Valid()
    modifies vf, ef
    ensures vf.Valid() && ef.Valid()
    ensures Clipped(Dual(tris, edges, old(vf.count), old(ef.count)), live, i, j, width, height)
         == Run(Dual(tris', edges', vf.count, ef.count), failure)
  {
    var t := tris[live[i]];
    var e := t.edges[j];
    tris', edges', failure := tris[live[i] := SetNeighbour(t, e, None)], edges, None;
    var opp: Option<Vertex> := None;
    var k := 0;
    while k < 3
      invariant 0 <= k <= 3
      invariant opp.None? ==> Opposite(t.vertices, e) == Opposite(t.vertices[k..], e)
      invariant opp.Some? ==> opp == Opposite(t.vertices, e)
    {
      var v := t.vertices[k];
      if e.v1 != v && e.v2 != v {
        assert t.vertices[k..][0] == v;
        opp := Some(v);
        break;
      }
      assert t.vertices[k..][1..] == t.vertices[k + 1..];
      k := k + 1;
    }
    if opp.None? {
      assert t.vertices[3..] == [];
      var read := if Perpendicular(e).a.Some? && EdgeLine(e).a.None? then "x" else "y";
      failure := Some(NullRead(read));
      return;
    }
    var c := Centre(t);
    if c.None? {
      failure := Some(NotFinite);
      return;
    }
    var far := Far(e, opp.value, width, height);
    var fv := vf.Create(far.0, far.1);
    var cv := vf.Create(c.value.0, c.value.1);
    var ne := ef.Create(cv, fv);
    edges' := edges + [ne];
  }

  /** One visit of `_computeVoronoi`: edge `j` of triangle `live[i]`, which
      takes the pass from `d0` from visit `k` to the next. It creates the vertices and
      the edge through the factories, and clears the link of a perimeter edge
      in the arena. */
  method Visit(tris: Arena, live: seq<nat>, edges: seq<Edge>, i: nat, j: nat, width: real, height: real,
               vf: VertexFactory, ef: EdgeFactory, ghost d0: Dual, ghost k: nat)
    returns (tris': Arena, edges': seq<Edge>, failure: Option<string>)
    requires i < |live| && j < 3 && k == 3 * i + j && KeyedIn(live, d0.tris) && vf.Valid() && ef.Valid()
    requires Slots(d0, live, k, width, height) == Run(Dual(tris, edges, vf.count, ef.count), None)
    modifies vf, ef
    ensures vf.Valid() && ef.Valid()
    ensures Slots(d0, live, k + 1, width, height) == Run(Dual(tris', edges', vf.count, ef.count), failure)
  {
    assert k / 3 == i && k % 3 == j;
    var t := tris[live[i]];
    var n := GetNeighbour(t, t.edges[j]);
    var nIndex := if n.None? then -1 else IndexOf(live, n.value);
    if nIndex > i {
      tris' := tris;
      edges', failure := VisitJoined(tris, live, edges, i, nIndex, vf, ef);
    } else if nIndex == -1 {
      tris', edges', failure := VisitClipped(tris, live, edges, i, j, width, height, vf, ef);
    } else {
      tris', edges', failure := tris, edges, None;
    }
  }

  /** `_computeVoronoi`, apart from its state check: the pass over every
      edge of every live triangle. It stops at the first error, with what it
      had changed by then. */
  method ComputeVoronoi(tris: Arena, live: seq<nat>, edges: seq<Edge>, width: real, height: real,
                        vf: VertexFactory, ef: EdgeFactory)
    returns (tris': Arena, edges': seq<Edge>, failure: Option<string>)
    requires KeyedIn(live, tris) && vf.Valid() && ef.Valid()
    modifies vf, ef
    ensures vf.Valid() && ef.Valid()
    ensures var r := Slots(Dual(tris, edges, old(vf.count), old(ef.count)), live, 3 * |live|, width, height);
      tris' == r.d.tris && edges' == r.d.edges && failure == r.failure &&
      vf.count == r.d.vcount && ef.count == r.d.ecount
  {
    ghost var d0 := Dual(tris, edges, vf.count, ef.count);
    ghost var k := 0;
    tris', edges', failure := tris, edges, None;
    for i := 0 to |live|
      invariant vf.Valid() && ef.Valid() && failure.None? && k == 3 * i
      invariant Slots(d0, live, k, width, height) == Run(Dual(tris', edges', vf.count, ef.count), None)
    {
      for j := 0 to 3
        invariant vf.Valid() && ef.Valid() && failure.None? && k == 3 * i + j
        invariant Slots(d0, live, k, width, height) == Run(Dual(tris', edges', vf.count, ef.count), None)
      {
        tris', edges', failure := Visit(tris', live, edges', i, j, width, height, vf, ef, d0, k);
        k := k + 1;
        if failure.Some? {
          FailureStops(d0, live, k, 3 * |live|, width, height);
          return;
        }
      }
    }
  }

  // ---------------------------------------------------------------------
  // What the pass produces

  /** A visit gives one edge exactly when the neighbour is null, not live or
      later in the list. Between live triangles the edge joins the two
      circumcentres. On the perimeter the link is cleared, and the edge joins
      the circumcentre to the far point of the edge's bisector on the border. */
  lemma SlotEmits(d: Dual, live: seq<nat>, i: nat, j: nat, width: real, height: real)
    requires i < |live| && j < 3 && KeyedIn(live, d.tris)
    ensures var r := Slot(d, live, i, j, width, height);
      r.failure.None? ==> (|r.d.edges| == |d.edges| + (if Emits(d.tris, live, i, j) then 1 else 0) &&
        r.d.edges[..|d.edges|] == d.edges)
    ensures var r := Slot(d, live, i, j, width, height);
      var t := d.tris[live[i]];
      var idx := Across(d.tris, live, i, j);
      r.failure.None? && idx > i ==>
        r.d.tris == d.tris &&
        r.d.edges[|d.edges|].v1 == Vertex(d.vcount, Circumcircle3(t).cx, Circumcircle3(t).cy) &&
        r.d.edges[|d.edges|].v2 == Vertex(d.vcount + 1, Circumcircle3(d.tris[live[idx]]).cx, Circumcircle3(d.tris[live[idx]]).cy)
    ensures var r := Slot(d, live, i, j, width, height);
      var t := d.tris[live[i]];
      var e := t.edges[j];
      Across(d.tris, live, i, j) == -1 ==>
        r.d.tris == d.tris[live[i] := SetNeighbour(t, e, None)] &&
        (r.failure.None? ==>
          var opp := Opposite(t.vertices, e).value;
          var far := Far(e, opp, width, height);
          r.d.edges[|d.edges|].v1 == Vertex(d.vcount + 1, Circumcircle3(t).cx, Circumcircle3(t).cy) &&
          r.d.edges[|d.edges|].v2 == Vertex(d.vcount, far.0, far.1))
    ensures var r := Slot(d, live, i, j, width, height);
      var idx := Across(d.tris, live, i, j);
      0 <= idx <= i ==> r == Run(d, None)
  {
  }

  /** Clearing links on the way does not change what later visits decide:
      every visit reads the same neighbour position as in the arena the
      pass started from. */
  lemma SlotKeepsAcross(d: Dual, live: seq<nat>, i: nat, j: nat, width: real, height: real, i2: nat, j2: nat)
    requires i < |live| && j < 3 && KeyedIn(live, d.tris) && i2 < |live| && j2 < 3
    ensures Across(Slot(d, live, i, j, width, height).d.tris, live, i2, j2) == Across(d.tris, live, i2, j2)
  {
    var t := d.tris[live[i]];
    var e := t.edges[j];
    var r := Slot(d, live, i, j, width, height);
    if Across(d.tris, live, i, j) == -1 && live[i2] == live[i] {
      GetSet(t, e, t.edges[j2], None);
    }
  }

  /** Across a whole run, every visit reads the neighbour position of the
      starting arena. */
  lemma {:induction false} SlotsKeepAcross(d: Dual, live: seq<nat>, k: nat, width: real, height: real, i2: nat, j2: nat)
    requires k <= 3 * |live| && KeyedIn(live, d.tris) && i2 < |live| && j2 < 3
    ensures Across(Slots(d, live, k, width, height).d.tris, live, i2, j2) == Across(d.tris, live, i2, j2)
  {
    if k > 0 {
      SlotsKeepAcross(d, live, k - 1, width, height, i2, j2);
      var prev := Slots(d, live, k - 1, width, height);
      if prev.failure.None? {
        SlotKeepsAcross(prev.d, live, (k - 1) / 3, (k - 1) % 3, width, height, i2, j2);
      }
    }
  }

  /** The pass changes links only: every triangle keeps its vertices. */
  lemma {:induction false} SlotsKeepVertices(d: Dual, live: seq<nat>, k: nat, width: real, height: real, x: nat)
    requires k <= 3 * |live| && KeyedIn(live, d.tris) && x in d.tris
    ensures Slots(d, live, k, width, height).d.tris[x].vertices == d.tris[x].vertices
  {
    if k > 0 {
      SlotsKeepVertices(d, live, k - 1, width, height, x);
    }
  }

  /** The number of visits among the first `k` that give an edge, judged on
      the arena as it was before the pass. */
  function Count(tris: Arena, live: seq<nat>, k: nat): nat
    requires k <= 3 * |live| && KeyedIn(live, tris)
  {
    if k == 0 then 0
    else Count(tris, live, k - 1) + (if Emits(tris, live, (k - 1) / 3, (k - 1) % 3) then 1 else 0)
  }

  /** One visit adds what its neighbour position decides, and that position
      is the same as on the starting arena. */
  lemma VisitCount(d0: Dual, d: Dual, live: seq<nat>, i: nat, j: nat, width: real, height: real, c: nat)
    requires i < |live| && j < 3 && KeyedIn(live, d0.tris) && KeyedIn(live, d.tris)
    requires Across(d.tris, live, i, j) == Across(d0.tris, live, i, j)
    requires |d.edges| == |d0.edges| + c && d.edges[..|d0.edges|] == d0.edges
    ensures var r := Slot(d, live, i, j, width, height);
      r.failure.None? ==>
        |r.d.edges| == |d0.edges| + c + (if Emits(d0.tris, live, i, j) then 1 else 0) &&
        r.d.edges[..|d0.edges|] == d0.edges
  {
    SlotEmits(d, live, i, j, width, height);
    var r := Slot(d, live, i, j, width, height);
    if r.failure.None? {
      assert r.d.edges[..|d0.edges|] == r.d.edges[..|d.edges|][..|d0.edges|];
    }
  }

  /** A run that has not failed holds the edges of `d`, followed by `c`
      new ones. */
  predicate Extends(r: Run, d: Dual, c: nat)
  {
    r.failure.None? ==> |r.d.edges| == |d.edges| + c && r.d.edges[..|d.edges|] == d.edges
  }

  /** Visit `k` of a run that has not failed extends its count by what the
      visit decides on the starting arena. */
  lemma CountStep(d: Dual, live: seq<nat>, k: nat, width: real, height: real)
    requires k < 3 * |live| && KeyedIn(live, d.tris)
    requires Extends(Slots(d, live, k, width, height), d, Count(d.tris, live, k))
    ensures Extends(After(d, live, k, width, height), d, Count(d.tris, live, k + 1))
  {
    var prev := Slots(d, live, k, width, height);
    if prev.failure.None? {
      SlotsKeepAcross(d, live, k, width, height, k / 3, k % 3);
      VisitCount(d, prev.d, live, k / 3, k % 3, width, height, Count(d.tris, live, k));
    }
  }

  /** A pass that completes adds one Voronoi edge per visit that emits, as
      judged on the starting arena, and keeps the edges it started with. */
  lemma {:induction false} EdgeCount(d: Dual, live: seq<nat>, k: nat, width: real, height: real)
    requires k <= 3 * |live| && KeyedIn(live, d.tris)
    ensures Extends(Slots(d, live, k, width, height), d, Count(d.tris, live, k))
  {
    if k > 0 {
      EdgeCount(d, live, k - 1, width, height);
      CountStep(d, live, k - 1, width, height);
    }
  }

  /** Two different live triangles that point at each other give exactly one
      Voronoi edge between them: the visit from the earlier one emits and the
      visit from the later one does not. */
  lemma PairOnce(tris: Arena, live: seq<nat>, p: nat, jp: nat, q: nat, jq: nat)
    requires p < |live| && q < |live| && p != q && jp < 3 && jq < 3
    requires KeyedIn(live, tris) && NoDuplicates(live)
    requires GetNeighbour(tris[live[p]], tris[live[p]].edges[jp]) == Some(live[q])
    requires GetNeighbour(tris[live[q]], tris[live[q]].edges[jq]) == Some(live[p])
    ensures Emits(tris, live, p, jp) <==> !Emits(tris, live, q, jq)
    ensures Emits(tris, live, p, jp) <==> p < q
  {
  }

  /** A Voronoi edge between two live neighbours lies on the bisector of
      the Delaunay edge they share: both of its ends are as far from one end
      of that edge as from the other. */
  lemma LinkedOnBisector(d: Dual, live: seq<nat>, i: nat, j: nat, width: real, height: real)
    requires i < |live| && j < 3 && KeyedIn(live, d.tris)
    requires Across(d.tris, live, i, j) > i
    requires var t := d.tris[live[i]]; var u := d.tris[live[Across(d.tris, live, i, j)]];
      var e := t.edges[j];
      e.v1 in t.vertices && e.v2 in t.vertices && e.v1 in u.vertices && e.v2 in u.vertices
    ensures var r := Slot(d, live, i, j, width, height);
      var e := d.tris[live[i]].edges[j];
      r.failure.None? ==>
        var ve := r.d.edges[|d.edges|];
        Dist2(ve.v1.x, ve.v1.y, e.v1.x, e.v1.y) == Dist2(ve.v1.x, ve.v1.y, e.v2.x, e.v2.y) &&
        Dist2(ve.v2.x, ve.v2.y, e.v1.x, e.v1.y) == Dist2(ve.v2.x, ve.v2.y, e.v2.x, e.v2.y)
  {
    var t := d.tris[live[i]];
    var u := d.tris[live[Across(d.tris, live, i, j)]];
    var r := Slot(d, live, i, j, width, height);
    if r.failure.None? {
      SlotEmits(d, live, i, j, width, height);
      VerticesOnCircle(t);
      VerticesOnCircle(u);
    }
  }

  /** A clipped Voronoi edge lies on the bisector of the perimeter edge too,
      and its far end is on the border of the area. */
  lemma ClippedOnBisector(d: Dual, live: seq<nat>, i: nat, j: nat, width: real, height: real)
    requires i < |live| && j < 3 && KeyedIn(live, d.tris)
    requires Across(d.tris, live, i, j) == -1
    requires var t := d.tris[live[i]]; var e := t.edges[j];
      e.v1 in t.vertices && e.v2 in t.vertices
    ensures var r := Slot(d, live, i, j, width, height);
      var e := d.tris[live[i]].edges[j];
      r.failure.None? ==>
        var ve := r.d.edges[|d.edges|];
        Dist2(ve.v1.x, ve.v1.y, e.v1.x, e.v1.y) == Dist2(ve.v1.x, ve.v1.y, e.v2.x, e.v2.y) &&
        Dist2(ve.v2.x, ve.v2.y, e.v1.x, e.v1.y) == Dist2(ve.v2.x, ve.v2.y, e.v2.x, e.v2.y) &&
        (ve.v2.x == 0.0 || ve.v2.x == width || ve.v2.y == 0.0 || ve.v2.y == height)
  {
    var t := d.tris[live[i]];
    var e := t.edges[j];
    var r := Slot(d, live, i, j, width, height);
    if r.failure.None? {
      SlotEmits(d, live, i, j, width, height);
      VerticesOnCircle(t);
      FarEquidistant(e, Opposite(t.vertices, e).value, width, height);
    }
  }
}
