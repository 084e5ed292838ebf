/** The circumcircle arithmetic of a triangle, over exact reals
    (app/lib/triangle.js, js/graph.js). */
module Geometry {

  /** The circumcircle of a triangle: its centre and its squared radius.
      `Collinear` stands for three collinear vertices, where the closed form
      divides by zero. In the source's floating point such a division yields
      infinite centre coordinates when both numerators are nonzero (`unbounded`:
      the radius is then infinite too and every point tests as inside) and NaN
      otherwise (no point tests as inside). */
  datatype Circle = Circle(cx: real, cy: real, r2: real) | Collinear(unbounded: bool)

  function Sq(a: real): real { a * a }

  /** Squared distance between (px, py) and (qx, qy). */
  function Dist2(px: real, py: real, qx: real, qy: real): real
  {
    Sq(px - qx) + Sq(py - qy)
  }

  /** The shape shared by the numerators and denominators of the closed form. */
  function Weighted(a: real, b: real, c: real, p: real, q: real, r: real): real
  {
    a * p + b * q + c * r
  }

  /** Denominator of the x coordinate of the centre; zero iff the vertices are collinear. */
  function DenX(x1: real, y1: real, x2: real, y2: real, x3: real, y3: real): real
  {
    Weighted(x1, x2, x3, y3 - y2, y1 - y3, y2 - y1)
  }

  /** Denominator of the y coordinate of the centre. */
  function DenY(x1: real, y1: real, x2: real, y2: real, x3: real, y3: real): real
  {
    y1 * (x3 - x2) + y2 * (x1 - x3) + y3 * (x2 - x1)
  }

  function NumX(x1: real, y1: real, x2: real, y2: real, x3: real, y3: real): real
  {
    Weighted(Sq(x1) + Sq(y1), Sq(x2) + Sq(y2), Sq(x3) + Sq(y3), y3 - y2, y1 - y3, y2 - y1)
  }

  function NumY(x1: real, y1: real, x2: real, y2: real, x3: real, y3: real): real
  {
    Weighted(Sq(x1) + Sq(y1), Sq(x2) + Sq(y2), Sq(x3) + Sq(y3), x3 - x2, x1 - x3, x2 - x1)
  }

  /** The circumcircle of (x1, y1), (x2, y2), (x3, y3): the closed form of the
      centre, and the radius measured to the first vertex. */
  function Circumcircle(x1: real, y1: real, x2: real, y2: real, x3: real, y3: real): (c: Circle)
    ensures c.Circle? <==> DenX(x1, y1, x2, y2, x3, y3) != 0.0
    ensures c.Circle? ==> c.r2 == Dist2(x1, y1, c.cx, c.cy)
    ensures c.Collinear? ==> (c.unbounded <==> NumX(x1, y1, x2, y2, x3, y3) != 0.0 && NumY(x1, y1, x2, y2, x3, y3) != 0.0)
  {
    var dx := DenX(x1, y1, x2, y2, x3, y3);
    var dy := DenY(x1, y1, x2, y2, x3, y3);
    DenYNegated(x1, y1, x2, y2, x3, y3);
    if dx == 0.0 then
      Collinear(NumX(x1, y1, x2, y2, x3, y3) != 0.0 && NumY(x1, y1, x2, y2, x3, y3) != 0.0)
    else
      var cx := NumX(x1, y1, x2, y2, x3, y3) / dx / 2.0;
      var cy := NumY(x1, y1, x2, y2, x3, y3) / dy / 2.0;
      Circle(cx, cy, Dist2(x1, y1, cx, cy))
  }

  /** The inclusive containment test: the squared distance to the centre is at
      most the squared radius (the source compares the square roots, which
      orders the same way); for collinear vertices, whether the infinite radius
      admits every point. */
  predicate Contains(c: Circle, px: real, py: real)
  {
    if c.Circle? then Dist2(px, py, c.cx, c.cy) <= c.r2 else c.unbounded
  }

  /** A point exactly on the circle counts as contained. */
  lemma OnCircleIsContained(c: Circle, px: real, py: real)
    requires c.Circle? && Dist2(px, py, c.cx, c.cy) == c.r2
    ensures Contains(c, px, py)
  {
  }

  /** For non-collinear vertices the centre is at the same distance from the
      three vertices, so each of them lies on the circle. */
  lemma CircumcircleEquidistant(x1: real, y1: real, x2: real, y2: real, x3: real, y3: real)
    requires DenX(x1, y1, x2, y2, x3, y3) != 0.0
    ensures var c := Circumcircle(x1, y1, x2, y2, x3, y3);
      c.Circle? && Dist2(x2, y2, c.cx, c.cy) == c.r2 && Dist2(x3, y3, c.cx, c.cy) == c.r2
  {
    var c := Circumcircle(x1, y1, x2, y2, x3, y3);
    var d := DenX(x1, y1, x2, y2, x3, y3);
    var nx, ny := NumX(x1, y1, x2, y2, x3, y3), NumY(x1, y1, x2, y2, x3, y3);
    DenYNegated(x1, y1, x2, y2, x3, y3);
    assert c.cx == nx / d / 2.0 && c.cy == ny / (-d) / 2.0;
    SecondOnCircle(x1, y1, x2, y2, x3, y3, d, nx, ny, c.cx, c.cy);
    SwapNegates(x1, y1, x2, y2, x3, y3);
    NegatedQuotient(nx, d);
    NegatedQuotient(-ny, d);
    SecondOnCircle(x1, y1, x3, y3, x2, y2, -d, -nx, -ny, c.cx, c.cy);
  }

  lemma NegatedQuotient(a: real, b: real)
    requires b != 0.0
    ensures (-a) / (-b) == a / b
  {
    var q := a / b;
    assert (-b) * q == -a;
  }

  /** The second vertex is as far from the centre as the first. */
  lemma SecondOnCircle(x1: real, y1: real, x2: real, y2: real, x3: real, y3: real,
                       d: real, nx: real, ny: real, cx: real, cy: real)
    requires d == DenX(x1, y1, x2, y2, x3, y3) && d != 0.0
    requires nx == NumX(x1, y1, x2, y2, x3, y3) && ny == NumY(x1, y1, x2, y2, x3, y3)
    requires (cx == nx / d / 2.0 && cy == ny / (-d) / 2.0) || (cx == (-nx) / (-d) / 2.0 && cy == (-ny) / d / 2.0)
    ensures Dist2(x2, y2, cx, cy) == Dist2(x1, y1, cx, cy)
  {
    var ab, cd, ef := Sq(x1) + Sq(y1), Sq(x2) + Sq(y2), Sq(x3) + Sq(y3);
    var l := cd - ab;
    Bisector(ab, cd, ef, x1, y1, x2, y2, x3, y3);
    Scaled(nx, ny, d, cx, cy);
    OnBisector(x1, y1, x2, y2, d, nx, ny, cx, cy, l);
  }

  lemma DenYNegated(x1: real, y1: real, x2: real, y2: real, x3: real, y3: real)
    ensures DenY(x1, y1, x2, y2, x3, y3) == -DenX(x1, y1, x2, y2, x3, y3)
  {
  }

  /** Exchanging the last two vertices negates the denominator and both numerators. */
  lemma SwapNegates(x1: real, y1: real, x2: real, y2: real, x3: real, y3: real)
    ensures DenX(x1, y1, x3, y3, x2, y2) == -DenX(x1, y1, x2, y2, x3, y3)
    ensures NumX(x1, y1, x3, y3, x2, y2) == -NumX(x1, y1, x2, y2, x3, y3)
    ensures NumY(x1, y1, x3, y3, x2, y2) == -NumY(x1, y1, x2, y2, x3, y3)
  {
    SwapWeighted(Sq(x1) + Sq(y1), Sq(x2) + Sq(y2), Sq(x3) + Sq(y3), y1, y2, y3);
    SwapWeighted(Sq(x1) + Sq(y1), Sq(x2) + Sq(y2), Sq(x3) + Sq(y3), x1, x2, x3);
  }

  lemma SwapWeighted(a: real, b: real, c: real, t1: real, t2: real, t3: real)
    ensures a * (t2 - t3) + c * (t1 - t2) + b * (t3 - t1) == -(a * (t3 - t2) + b * (t1 - t3) + c * (t2 - t1))
  {
  }

  /** A point whose coordinates solve the bisector equation of (x1, y1) and
      (x2, y2), written with the closed-form numerators, is equidistant from them. */
  lemma OnBisector(x1: real, y1: real, x2: real, y2: real, d: real, nx: real, ny: real, cx: real, cy: real, l: real)
    requires d != 0.0
    requires l == (Sq(x2) + Sq(y2)) - (Sq(x1) + Sq(y1))
    requires nx * (x2 - x1) - ny * (y2 - y1) == l * d
    requires 2.0 * cx * d == nx && 2.0 * cy * d == -ny
    ensures Dist2(x2, y2, cx, cy) == Dist2(x1, y1, cx, cy)
  {
    Solve(cx, cy, x2 - x1, y2 - y1, d, nx, ny, l);
    Balanced(x1, y1, x2, y2, cx, cy, l);
  }

  /** Solving the bisector equation for the doubled centre. */
  lemma Solve(cx: real, cy: real, a: real, b: real, d: real, nx: real, ny: real, l: real)
    requires d != 0.0 && 2.0 * cx * d == nx && 2.0 * cy * d == -ny && nx * a - ny * b == l * d
    ensures 2.0 * cx * a + 2.0 * cy * b == l
  {
    var k := 2.0 * cx * a + 2.0 * cy * b;
    assert k * d == (2.0 * cx * d) * a + (2.0 * cy * d) * b;
    Cancel(k, l, d);
  }

  /** Equal squared-norm difference and bisector product mean equal distances. */
  lemma Balanced(x1: real, y1: real, x2: real, y2: real, cx: real, cy: real, l: real)
    requires 2.0 * cx * (x2 - x1) + 2.0 * cy * (y2 - y1) == l
    requires l == (Sq(x2) + Sq(y2)) - (Sq(x1) + Sq(y1))
    ensures Dist2(x2, y2, cx, cy) == Dist2(x1, y1, cx, cy)
  {
    Expand(x1, x2, cx);
    Expand(y1, y2, cy);
  }

  lemma Expand(p1: real, p2: real, c: real)
    ensures Sq(p2 - c) - Sq(p1 - c) == Sq(p2) - Sq(p1) - 2.0 * c * (p2 - p1)
  {
  }

  /** Undoing the two divisions of the closed form. */
  lemma Scaled(nx: real, ny: real, d: real, cx: real, cy: real)
    requires d != 0.0
    requires (cx == nx / d / 2.0 && cy == ny / (-d) / 2.0) || (cx == (-nx) / (-d) / 2.0 && cy == (-ny) / d / 2.0)
    ensures 2.0 * cx * d == nx && 2.0 * cy * d == -ny
  {
  }

  /** Cancelling a nonzero factor. */
  lemma Cancel(a: real, b: real, d: real)
    requires d != 0.0 && a * d == b * d
    ensures a == b
  {
    assert (a - b) * d == 0.0;
  }

  /** The numerators, combined along the first side, give the squared-norm
      difference times the denominator: a polynomial identity in the three
      squared norms and the six coordinates. */
  lemma Bisector(ab: real, cd: real, ef: real, x1: real, y1: real, x2: real, y2: real, x3: real, y3: real)
    ensures Weighted(ab, cd, ef, y3 - y2, y1 - y3, y2 - y1) * (x2 - x1)
          - Weighted(ab, cd, ef, x3 - x2, x1 - x3, x2 - x1) * (y2 - y1)
         == (cd - ab) * DenX(x1, y1, x2, y2, x3, y3)
  {
  }

}
