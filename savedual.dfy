/** The Voronoi pass of js/voronoi_save.js (`computeVoronoi`): one Voronoi
    edge between the circumcentres of every pair of live neighbours, and one
    from the circumcentre of every perimeter triangle to the nearest point
    where the bisector of its perimeter edge crosses a border line of the
    city. Distances are compared by their squares, which order the same way
    as the square roots the source compares. */
module SaveDual {
  import opened Wrappers
  import opened Geometry
  import Edges
  import Dual
  import Mesh
  import opened SaveMesh

  datatype Point = Point(x: real, y: real)

  /** A Voronoi edge: from the circumcentre of live triangle `from` to that
      of live triangle `to`, or from the circumcentre of the perimeter
      triangle `from` to `end`, where `None` stands for the undefined
      `minShop`. */
  datatype VEdge = Inner(from: nat, to: nat) | Border(from: nat, end: Option<Point>)

  // ---------------------------------------------------------------------
  // The border point of a perimeter edge

  /** The line through the middle of `e`, perpendicular to it (`y = a2·x +
      b2`, or `x = b2` when `a2` is null). The computation reads only the two
      shops of the edge. */
  function Bisector(e: Edge): Dual.Line
  {
    Dual.Perpendicular(Edges.Edge(0, e.s1, e.s2))
  }

  /** Where a bisector that is not horizontal crosses the horizontal line at
      height `y`. */
  function AtY(l: Dual.Line, y: real): (x: real)
    requires l.a != Some(0.0)
    ensures Dual.OnLine(l, x, y)
  {
    if l.a.Some? then
      var x := (y - l.b) / l.a.value;
      assert l.a.value * x == y - l.b;
      x
    else l.b
  }

  /** Where a bisector that is not vertical crosses the vertical line at
      abscissa `x`. */
  function AtX(l: Dual.Line, x: real): (y: real)
    requires l.a.Some?
    ensures Dual.OnLine(l, x, y)
  {
    l.a.value * x + l.b
  }

  predicate OnBorder(p: Point, width: real, height: real)
  {
    p.x == 0.0 || p.x == width || p.y == 0.0 || p.y == height
  }

  /** The candidate border points of perimeter edge `e`, in the order the
      source visits them: the crossings with y = 0 and y = height unless the
      bisector is horizontal, then those with x = 0 and x = width unless it
      is vertical. Each lies on a border line and is as far from one shop of
      the edge as from the other. */
  function Crossings(e: Edge, width: real, height: real): (ps: seq<Point>)
    ensures 2 <= |ps| <= 4
    ensures forall p :: p in ps ==>
      && OnBorder(p, width, height) && Dual.OnLine(Bisector(e), p.x, p.y)
      && Dist2(p.x, p.y, e.s1.x, e.s1.y) == Dist2(p.x, p.y, e.s2.x, e.s2.y)
  {
    var l := Bisector(e);
    var horizontal := if l.a != Some(0.0) then [Point(AtY(l, 0.0), 0.0), Point(AtY(l, height), height)] else [];
    var vertical := if l.a.Some? then [Point(0.0, AtX(l, 0.0)), Point(width, AtX(l, width))] else [];
    var ps := horizontal + vertical;
    forall p | p in ps
      ensures Dist2(p.x, p.y, e.s1.x, e.s1.y) == Dist2(p.x, p.y, e.s2.x, e.s2.y)
    {
      Dual.Bisects(Edges.Edge(0, e.s1, e.s2), p.x, p.y);
    }
    ps
  }

  /** Squared distance from `p` to (cx, cy). */
  function Far2(p: Point, cx: real, cy: real): real
  {
    Dist2(p.x, p.y, cx, cy)
  }

  /** The candidate the scan keeps: among those nearer than the bound, the
      first of the nearest (the comparison is strict); -1 when none is
      nearer than the bound. */
  function Best(ps: seq<Point>, cx: real, cy: real, bound2: real): (i: int)
    ensures -1 <= i < |ps|
    ensures i == -1 <==> forall k :: 0 <= k < |ps| ==> bound2 <= Far2(ps[k], cx, cy)
    ensures i >= 0 ==> Far2(ps[i], cx, cy) < bound2
    ensures i >= 0 ==> forall k :: 0 <= k < |ps| ==> Far2(ps[i], cx, cy) <= Far2(ps[k], cx, cy)
    ensures i >= 0 ==> forall k :: 0 <= k < i ==> Far2(ps[i], cx, cy) < Far2(ps[k], cx, cy)
  {
    if |ps| == 0 then -1
    else
      var n := |ps| - 1;
      assert forall k :: 0 <= k < n ==> ps[..n][k] == ps[k];
      var b := Best(ps[..n], cx, cy, bound2);
      var cur := if b == -1 then bound2 else Far2(ps[b], cx, cy);
      if Far2(ps[n], cx, cy) < cur then n else b
  }

  /** The end of the Voronoi edge of perimeter edge `e` in a triangle with
      circumcircle `c`, when the end found for the previous perimeter edge
      was `last`: the candidate `Best` keeps, with width + height as the
      bound. When no candidate is nearer than the bound, and always for a
      triangle with collinear shops (whose centre is not finite, so no
      comparison succeeds), `minShop` keeps its previous value: `var` does
      not reset it. */
  function BorderEnd(e: Edge, c: Circle, width: real, height: real, last: Option<Point>): Option<Point>
  {
    if c.Collinear? then last
    else
      var ps := Crossings(e, width, height);
      var i := Best(ps, c.cx, c.cy, Sq(width + height));
      if i >= 0 then Some(ps[i]) else last
  }

  /** The end found is a candidate of `e` strictly nearer to the centre
      than width + height and no farther than any other candidate, so it
      lies on a border line and on the bisector of `e`; otherwise it is the
      previous end. */
  lemma BorderEndNearest(e: Edge, c: Circle, width: real, height: real, last: Option<Point>)
    ensures var r := BorderEnd(e, c, width, height, last);
      var ps := Crossings(e, width, height);
      r == last || (
        && c.Circle? && r.Some? && r.value in ps
        && OnBorder(r.value, width, height)
        && Dist2(r.value.x, r.value.y, e.s1.x, e.s1.y) == Dist2(r.value.x, r.value.y, e.s2.x, e.s2.y)
        && Far2(r.value, c.cx, c.cy) < Sq(width + height)
        && forall q :: q in ps ==> Far2(r.value, c.cx, c.cy) <= Far2(q, c.cx, c.cy))
    ensures c.Circle? && (exists q :: q in Crossings(e, width, height) && Far2(q, c.cx, c.cy) < Sq(width + height)) ==>
      BorderEnd(e, c, width, height, last).Some? && BorderEnd(e, c, width, height, last).value in Crossings(e, width, height)
  {
  }

  /** What the scan holds after the first `k` candidates. */
  predicate Scanned(ps: seq<Point>, c: Circle, bound2: real, last: Option<Point>, k: nat, minD2: real, end: Option<Point>)
    requires k <= |ps|
  {
    if c.Collinear? then end == last
    else
      var i := Best(ps[..k], c.cx, c.cy, bound2);
      if i >= 0 then end == Some(ps[i]) && minD2 == Far2(ps[i], c.cx, c.cy)
      else end == last && minD2 == bound2
  }

  /** One more candidate: it replaces the kept one exactly when it is
      nearer. */
  lemma ScanStep(ps: seq<Point>, c: Circle, bound2: real, last: Option<Point>, k: nat, minD2: real, end: Option<Point>)
    requires k < |ps| && Scanned(ps, c, bound2, last, k, minD2, end)
    ensures c.Circle? && Far2(ps[k], c.cx, c.cy) < minD2 ==>
      Scanned(ps, c, bound2, last, k + 1, Far2(ps[k], c.cx, c.cy), Some(ps[k]))
    ensures !(c.Circle? && Far2(ps[k], c.cx, c.cy) < minD2) ==> Scanned(ps, c, bound2, last, k + 1, minD2, end)
  {
    assert ps[..k + 1][..k] == ps[..k];
  }

  /** The number of crossings with the horizontal border lines. */
  function Rows(e: Edge): nat
  {
    if Bisector(e).a != Some(0.0) then 2 else 0
  }

  /** The loop over the horizontal border lines, y = 0 and y = height. */
  method ScanRows(e: Edge, c: Circle, width: real, height: real, last: Option<Point>, minD2: real, minShop: Option<Point>)
    returns (minD2': real, minShop': Option<Point>)
    requires 0.0 < height && Rows(e) == 2
    requires Scanned(Crossings(e, width, height), c, Sq(width + height), last, 0, minD2, minShop)
    ensures Scanned(Crossings(e, width, height), c, Sq(width + height), last, 2, minD2', minShop')
  {
    var l := Bisector(e);
    ghost var ps := Crossings(e, width, height);
    minD2', minShop' := minD2, minShop;
    var b0 := 0.0;
    ghost var m := 0;
    while b0 <= height
      invariant (m == 0 && b0 == 0.0) || (m == 1 && b0 == height) || (m == 2 && b0 == height + height)
      invariant Scanned(ps, c, Sq(width + height), last, m, minD2', minShop')
      decreases 2 - m
    {
      var p := Point(AtY(l, b0), b0);
      assert p == ps[m];
      ScanStep(ps, c, Sq(width + height), last, m, minD2', minShop');
      if c.Circle? && Far2(p, c.cx, c.cy) < minD2' {
        minD2' := Far2(p, c.cx, c.cy);
        minShop' := Some(p);
      }
      b0 := b0 + height;
      m := m + 1;
    }
  }

  /** The loop over the vertical border lines, x = 0 and x = width, after
      the `Rows(e)` horizontal ones. */
  method ScanColumns(e: Edge, c: Circle, width: real, height: real, last: Option<Point>, minD2: real, minShop: Option<Point>)
    returns (minD2': real, minShop': Option<Point>)
    requires 0.0 < width && Bisector(e).a.Some?
    requires Scanned(Crossings(e, width, height), c, Sq(width + height), last, Rows(e), minD2, minShop)
    ensures Scanned(Crossings(e, width, height), c, Sq(width + height), last, Rows(e) + 2, minD2', minShop')
  {
    var l := Bisector(e);
    ghost var ps := Crossings(e, width, height);
    ghost var k0 := Rows(e);
    minD2', minShop' := minD2, minShop;
    var b0 := 0.0;
    ghost var m := 0;
    while b0 <= width
      invariant (m == 0 && b0 == 0.0) || (m == 1 && b0 == width) || (m == 2 && b0 == width + width)
      invariant Scanned(ps, c, Sq(width + height), last, k0 + m, minD2', minShop')
      decreases 2 - m
    {
      var p := Point(b0, AtX(l, b0));
      assert p == ps[k0 + m];
      ScanStep(ps, c, Sq(width + height), last, k0 + m, minD2', minShop');
      if c.Circle? && Far2(p, c.cx, c.cy) < minD2' {
        minD2' := Far2(p, c.cx, c.cy);
        minShop' := Some(p);
      }
      b0 := b0 + width;
      m := m + 1;
    }
  }

  /** The border search of `computeVoronoi` for perimeter edge `e` of a
      triangle with circumcircle `c`: the loops over the horizontal and the
      vertical border lines, keeping the nearest crossing. */
  method BorderPoint(e: Edge, c: Circle, width: real, height: real, last: Option<Point>)
    returns (minShop: Option<Point>)
    requires 0.0 < width && 0.0 < height
    ensures minShop == BorderEnd(e, c, width, height, last)
  {
    var l := Bisector(e);
    ghost var ps := Crossings(e, width, height);
    var minD2 := Sq(width + height);
    minShop := last;
    assert ps[..0] == [];
    if l.a != Some(0.0) {
      minD2, minShop := ScanRows(e, c, width, height, last, minD2, minShop);
    }
    if l.a.Some? {
      minD2, minShop := ScanColumns(e, c, width, height, last, minD2, minShop);
    }
    assert ps[..|ps|] == ps;
  }

  // ---------------------------------------------------------------------
  // The pass over the live triangles

  /** What the pass updates: the arena (links to deleted triangles are
      cleared), the Voronoi edges, and `minShop`. */
  datatype Sweep = Sweep(tris: Arena, edges: seq<VEdge>, last: Option<Point>)

  /** `delaunayTriangles.indexOf(t.neighbours[j])` for `t = live[i]`: -1
      for null and for a triangle that is no longer live. */
  function Across(tris: Arena, live: seq<nat>, i: nat, j: nat): (idx: int)
    requires Closed(tris) && KeyedIn(live, tris) && i < |live| && j < 3
    ensures -1 <= idx < |live|
    ensures idx == -1 <==> Outside(tris[live[i]].neighbours[j], live)
    ensures idx >= 0 ==> tris[live[i]].neighbours[j] == Some(live[idx])
  {
    var n := tris[live[i]].neighbours[j];
    if n.None? then -1 else Mesh.IndexOf(live, n.value)
  }

  /** The visit of slot `j` of `live[i]`. A later live neighbour gives the
      edge between the two circumcentres; a null or deleted neighbour is
      cleared and gives the edge to the border; an earlier live neighbour
      has already given its edge. */
  function Visit(p: Sweep, live: seq<nat>, i: nat, j: nat, width: real, height: real): (r: Sweep)
    requires Closed(p.tris) && KeyedIn(live, p.tris) && i < |live| && j < 3
    ensures Closed(r.tris) && r.tris.Keys == p.tris.Keys
  {
    var idx := Across(p.tris, live, i, j);
    if idx > i then Sweep(p.tris, p.edges + [Inner(live[i], live[idx])], p.last)
    else if idx == -1 then
      var t := p.tris[live[i]];
      var end := BorderEnd(t.edges[j], t.circle, width, height, p.last);
      Sweep(p.tris[live[i] := SetNeighbour(t, j, None)], p.edges + [Border(live[i], end)], end)
    else p
  }

  /** The visits of the first `j` slots of `live[i]`. */
  function Slots(p: Sweep, live: seq<nat>, i: nat, j: nat, width: real, height: real): (r: Sweep)
    requires Closed(p.tris) && KeyedIn(live, p.tris) && i < |live| && j <= 3
    ensures Closed(r.tris) && r.tris.Keys == p.tris.Keys
  {
    if j == 0 then p
    else Visit(Slots(p, live, i, j - 1, width, height), live, i, j - 1, width, height)
  }

  /** The visits of every slot of the first `i` live triangles. */
  function Upto(p: Sweep, live: seq<nat>, i: nat, width: real, height: real): (r: Sweep)
    requires Closed(p.tris) && KeyedIn(live, p.tris) && i <= |live|
    ensures Closed(r.tris) && r.tris.Keys == p.tris.Keys
  {
    if i == 0 then p
    else Slots(Upto(p, live, i - 1, width, height), live, i - 1, 3, width, height)
  }

  /** The visit of one slot, with the border search. */
  method VisitSlot(p: Sweep, live: seq<nat>, i: nat, j: nat, width: real, height: real) returns (r: Sweep)
    requires Closed(p.tris) && KeyedIn(live, p.tris) && i < |live| && j < 3
    requires 0.0 < width && 0.0 < height
    ensures r == Visit(p, live, i, j, width, height)
  {
    var t := p.tris[live[i]];
    var n := t.neighbours[j];
    var nIndex := if n.None? then -1 else Mesh.IndexOf(live, n.value);
    r := p;
    if nIndex > i {
      r := p.(edges := p.edges + [Inner(live[i], live[nIndex])]);
    } else if nIndex == -1 {
      var minShop := BorderPoint(t.edges[j], t.circle, width, height, p.last);
      r := Sweep(p.tris[live[i] := SetNeighbour(t, j, None)], p.edges + [Border(live[i], minShop)], minShop);
    }
  }

  /** `computeVoronoi`, apart from its run-once guard: every slot of every
      live triangle, in order, starting from `voronoiEdges` and an undefined
      `minShop`. */
  method ComputeVoronoi(tris: Arena, live: seq<nat>, edges: seq<VEdge>, width: real, height: real)
    returns (tris': Arena, edges': seq<VEdge>)
    requires Closed(tris) && KeyedIn(live, tris) && 0.0 < width && 0.0 < height
    ensures var r := Upto(Sweep(tris, edges, None), live, |live|, width, height);
      tris' == r.tris && edges' == r.edges
  {
    ghost var p0 := Sweep(tris, edges, None);
    var sw := Sweep(tris, edges, None);
    for i := 0 to |live|
      invariant sw == Upto(p0, live, i, width, height)
    {
      for j := 0 to 3
        invariant sw == Slots(Upto(p0, live, i, width, height), live, i, j, width, height)
      {
        sw := VisitSlot(sw, live, i, j, width, height);
      }
    }
    tris', edges' := sw.tris, sw.edges;
  }

  // ---------------------------------------------------------------------
  // What the pass does to the links

  /** Slot `k` of triangle `x` has been visited once the pass has done the
      first `i` live triangles and the first `j` slots of `live[i]`. */
  predicate Done(live: seq<nat>, i: nat, j: nat, x: nat, k: nat)
    requires i <= |live|
  {
    x in live[..i] || (i < |live| && x == live[i] && k < j)
  }

  /** The arena `t` is `t0` with exactly the visited slots that pointed at
      null or at a deleted triangle cleared; shapes are kept. */
  ghost predicate ClearedUpTo(t0: Arena, t: Arena, live: seq<nat>, i: nat, j: nat)
    requires i <= |live|
  {
    && t.Keys == t0.Keys && Kept(t0, t)
    && forall x, k :: x in t0 && 0 <= k < |t0[x].neighbours| ==>
         t[x].neighbours[k] == if Done(live, i, j, x, k) && Outside(t0[x].neighbours[k], live) then None else t0[x].neighbours[k]
  }

  /** One visit clears its own slot when it points outside the live list,
      and touches nothing else. */
  lemma VisitClears(t0: Arena, p: Sweep, live: seq<nat>, i: nat, j: nat, width: real, height: real)
    requires Closed(t0) && Closed(p.tris) && KeyedIn(live, p.tris) && i < |live| && j < 3
    requires ClearedUpTo(t0, p.tris, live, i, j)
    ensures ClearedUpTo(t0, Visit(p, live, i, j, width, height).tris, live, i, j + 1)
  {
    var x0 := live[i];
    var t := Visit(p, live, i, j, width, height).tris;
    assert Outside(p.tris[x0].neighbours[j], live) <==> Outside(t0[x0].neighbours[j], live);
    KeptTrans(t0, p.tris, t);
    forall x, k | x in t0 && 0 <= k < |t0[x].neighbours|
      ensures t[x].neighbours[k] == if Done(live, i, j + 1, x, k) && Outside(t0[x].neighbours[k], live) then None else t0[x].neighbours[k]
    {
      if x != x0 || k != j {
        assert Done(live, i, j + 1, x, k) == Done(live, i, j, x, k);
      }
    }
  }

  /** The visits of the first `j` slots of `live[i]`. */
  lemma {:induction false} SlotsClear(t0: Arena, p: Sweep, live: seq<nat>, i: nat, j: nat, width: real, height: real)
    requires Closed(t0) && Closed(p.tris) && KeyedIn(live, p.tris) && i < |live| && j <= 3
    requires ClearedUpTo(t0, p.tris, live, i, 0)
    ensures ClearedUpTo(t0, Slots(p, live, i, j, width, height).tris, live, i, j)
  {
    if j > 0 {
      SlotsClear(t0, p, live, i, j - 1, width, height);
      VisitClears(t0, Slots(p, live, i, j - 1, width, height), live, i, j - 1, width, height);
    }
  }

  /** Having done every slot of `live[i]` is having done the first `i + 1`
      triangles. */
  lemma DoneNext(t0: Arena, t: Arena, live: seq<nat>, i: nat)
    requires Closed(t0) && i < |live| && ClearedUpTo(t0, t, live, i, 3)
    ensures ClearedUpTo(t0, t, live, i + 1, 0)
  {
    assert live[..i + 1] == live[..i] + [live[i]];
    forall x, k | x in t0 && 0 <= k < |t0[x].neighbours|
      ensures Done(live, i + 1, 0, x, k) == Done(live, i, 3, x, k)
    {
    }
  }

  /** The visits of the three slots of `live[i]`. */
  lemma TriangleClears(p: Sweep, live: seq<nat>, i: nat, width: real, height: real)
    requires Closed(p.tris) && KeyedIn(live, p.tris) && i < |live|
    requires ClearedUpTo(p.tris, Upto(p, live, i, width, height).tris, live, i, 0)
    ensures ClearedUpTo(p.tris, Upto(p, live, i + 1, width, height).tris, live, i + 1, 0)
  {
    var q := Upto(p, live, i, width, height);
    SlotsClear(p.tris, q, live, i, 3, width, height);
    DoneNext(p.tris, Slots(q, live, i, 3, width, height).tris, live, i);
  }

  /** Before the pass nothing is cleared. */
  lemma NothingCleared(t0: Arena, live: seq<nat>)
    ensures ClearedUpTo(t0, t0, live, 0, 0)
  {
    KeptTrans(t0, t0, t0);
  }

  /** The visits of every slot of the first `n` live triangles. */
  lemma UptoClears(p: Sweep, live: seq<nat>, n: nat, width: real, height: real)
    requires Closed(p.tris) && KeyedIn(live, p.tris) && n <= |live|
    ensures ClearedUpTo(p.tris, Upto(p, live, n, width, height).tris, live, n, 0)
  {
    NothingCleared(p.tris, live);
    for i := 0 to n
      invariant ClearedUpTo(p.tris, Upto(p, live, i, width, height).tris, live, i, 0)
    {
      TriangleClears(p, live, i, width, height);
    }
  }

  /** After the pass, a slot of a live triangle that pointed at null or at
      a deleted triangle is null, and every other slot of every triangle is
      as it was; shapes are kept. So every link of a live triangle is null
      or a live triangle. */
  lemma PassClears(p: Sweep, live: seq<nat>, width: real, height: real)
    requires Closed(p.tris) && KeyedIn(live, p.tris)
    ensures var t := Upto(p, live, |live|, width, height).tris;
      && t.Keys == p.tris.Keys && Kept(p.tris, t)
      && (forall x, k :: x in p.tris && 0 <= k < 3 ==>
            t[x].neighbours[k] == if x in live && Outside(p.tris[x].neighbours[k], live) then None else p.tris[x].neighbours[k])
      && forall x, k :: x in live && 0 <= k < 3 ==> t[x].neighbours[k].None? || t[x].neighbours[k].value in live
  {
    UptoClears(p, live, |live|, width, height);
    assert live[..|live|] == live;
  }

  // ---------------------------------------------------------------------
  // Which Voronoi edges the pass emits

  /** An edge the pass may emit, judged on the arena `t0` it started from:
      between a live triangle and a live neighbour with a larger reference,
      or from a live triangle with a link to null or to a deleted triangle. */
  predicate Justified(t0: Arena, live: seq<nat>, e: VEdge)
  {
    match e
    case Inner(a, b) => a in live && b in live && a < b && a in t0 && Some(b) in t0[a].neighbours
    case Border(a, _) =>
      a in live && a in t0 && exists k :: 0 <= k < |t0[a].neighbours| && Outside(t0[a].neighbours[k], live)
  }

  /** The edge slot `j` of `live[i]` calls for is among `es`: the edge to
      a later live neighbour, or an edge to the border for a link to null or
      to a deleted triangle. */
  ghost predicate Produced(t0: Arena, live: seq<nat>, i: nat, j: nat, es: seq<VEdge>)
    requires Closed(t0) && KeyedIn(live, t0) && i < |live| && j < 3
  {
    var idx := Across(t0, live, i, j);
    (idx > i ==> Inner(live[i], live[idx]) in es) && (idx == -1 ==> exists end :: Border(live[i], end) in es)
  }

  /** The edges after the visits before slot `j` of `live[i]`: those the
      pass started with, then only justified edges, and every edge the
      visited slots call for. */
  ghost predicate EmittedUpTo(t0: Arena, edges0: seq<VEdge>, live: seq<nat>, es: seq<VEdge>, i: nat, j: nat)
    requires Closed(t0) && KeyedIn(live, t0)
  {
    && |edges0| <= |es| && es[..|edges0|] == edges0
    && (forall n :: |edges0| <= n < |es| ==> Justified(t0, live, es[n]))
    && forall i', j' :: 0 <= i' < |live| && 0 <= j' < 3 && (i' < i || (i' == i && j' < j)) ==> Produced(t0, live, i', j', es)
  }

  /** A visit decides on its slot as the starting arena would: the slots it
      reads have not been cleared yet, or were cleared from a link that
      already pointed outside the live list. */
  lemma SameAcross(t0: Arena, t: Arena, live: seq<nat>, i: nat, j: nat)
    requires Closed(t0) && Closed(t) && KeyedIn(live, t0) && i < |live| && j < 3
    requires ClearedUpTo(t0, t, live, i, j)
    ensures KeyedIn(live, t) && Across(t, live, i, j) == Across(t0, live, i, j)
  {
  }

  /** What one visit appends, decided on the starting arena. */
  lemma VisitAdds(t0: Arena, p: Sweep, live: seq<nat>, i: nat, j: nat, width: real, height: real)
    requires Closed(t0) && Closed(p.tris) && KeyedIn(live, t0) && i < |live| && j < 3
    requires ClearedUpTo(t0, p.tris, live, i, j)
    ensures var r := Visit(p, live, i, j, width, height);
      var idx := Across(t0, live, i, j);
      && (idx > i ==> r.edges == p.edges + [Inner(live[i], live[idx])])
      && (idx == -1 ==> r.edges == p.edges + [Border(live[i], r.last)])
      && (0 <= idx <= i ==> r.edges == p.edges)
  {
    SameAcross(t0, p.tris, live, i, j);
  }

  /** The edge a visit appends is justified, and it is the one its slot
      calls for. */
  lemma NewEdge(t0: Arena, live: seq<nat>, i: nat, j: nat, es: seq<VEdge>, e: VEdge)
    requires Closed(t0) && KeyedIn(live, t0) && Mesh.Increasing(live) && i < |live| && j < 3
    requires var idx := Across(t0, live, i, j);
      (idx > i && e == Inner(live[i], live[idx])) || (idx == -1 && e.Border? && e.from == live[i])
    ensures Justified(t0, live, e) && Produced(t0, live, i, j, es + [e])
  {
    var idx := Across(t0, live, i, j);
    if idx > i {
      assert live[i] < live[idx];
    } else {
      assert Outside(t0[live[i]].neighbours[j], live);
      assert Border(live[i], e.end) in es + [e];
    }
  }

  /** One visit keeps the edges emitted so far and adds the one its slot
      calls for, if any. */
  lemma VisitEmits(t0: Arena, edges0: seq<VEdge>, p: Sweep, live: seq<nat>, i: nat, j: nat, width: real, height: real)
    requires Closed(t0) && Closed(p.tris) && KeyedIn(live, t0) && Mesh.Increasing(live) && i < |live| && j < 3
    requires ClearedUpTo(t0, p.tris, live, i, j) && EmittedUpTo(t0, edges0, live, p.edges, i, j)
    ensures EmittedUpTo(t0, edges0, live, Visit(p, live, i, j, width, height).edges, i, j + 1)
  {
    VisitAdds(t0, p, live, i, j, width, height);
    var r := Visit(p, live, i, j, width, height);
    var idx := Across(t0, live, i, j);
    if 0 <= idx <= i {
      assert Produced(t0, live, i, j, p.edges);
    } else {
      var e := r.edges[|p.edges|];
      assert r.edges == p.edges + [e];
      NewEdge(t0, live, i, j, p.edges, e);
      Extend(t0, edges0, live, p.edges, e, i, j);
    }
  }

  /** Appending an edge keeps what the earlier visits produced. */
  lemma Extend(t0: Arena, edges0: seq<VEdge>, live: seq<nat>, es: seq<VEdge>, e: VEdge, i: nat, j: nat)
    requires Closed(t0) && KeyedIn(live, t0) && i < |live| && j < 3
    requires EmittedUpTo(t0, edges0, live, es, i, j) && Justified(t0, live, e) && Produced(t0, live, i, j, es + [e])
    ensures EmittedUpTo(t0, edges0, live, es + [e], i, j + 1)
  {
    assert (es + [e])[..|edges0|] == es[..|edges0|];
    forall i', j' | 0 <= i' < |live| && 0 <= j' < 3 && (i' < i || (i' == i && j' < j))
      ensures Produced(t0, live, i', j', es + [e])
    {
      assert Produced(t0, live, i', j', es);
      var idx := Across(t0, live, i', j');
      if idx == -1 {
        var end :| Border(live[i'], end) in es;
        assert Border(live[i'], end) in es + [e];
      } else if idx > i' {
        assert Inner(live[i'], live[idx]) in es + [e];
      }
    }
  }

  /** The visits of the first `j` slots of `live[i]`. */
  lemma {:induction false} SlotsEmit(t0: Arena, edges0: seq<VEdge>, p: Sweep, live: seq<nat>, i: nat, j: nat, width: real, height: real)
    requires Closed(t0) && Closed(p.tris) && KeyedIn(live, t0) && KeyedIn(live, p.tris) && Mesh.Increasing(live)
    requires i < |live| && j <= 3
    requires ClearedUpTo(t0, p.tris, live, i, 0) && EmittedUpTo(t0, edges0, live, p.edges, i, 0)
    ensures EmittedUpTo(t0, edges0, live, Slots(p, live, i, j, width, height).edges, i, j)
  {
    if j > 0 {
      SlotsEmit(t0, edges0, p, live, i, j - 1, width, height);
      SlotsClear(t0, p, live, i, j - 1, width, height);
      VisitEmits(t0, edges0, Slots(p, live, i, j - 1, width, height), live, i, j - 1, width, height);
    }
  }

  /** The visits of the three slots of `live[i]`. */
  lemma TriangleEmits(p: Sweep, live: seq<nat>, i: nat, width: real, height: real)
    requires Closed(p.tris) && KeyedIn(live, p.tris) && Mesh.Increasing(live) && i < |live|
    requires EmittedUpTo(p.tris, p.edges, live, Upto(p, live, i, width, height).edges, i, 0)
    ensures EmittedUpTo(p.tris, p.edges, live, Upto(p, live, i + 1, width, height).edges, i + 1, 0)
  {
    var q := Upto(p, live, i, width, height);
    UptoClears(p, live, i, width, height);
    SlotsEmit(p.tris, p.edges, q, live, i, 3, width, height);
  }

  /** The visits of every slot of the first `n` live triangles. */
  lemma UptoEmits(p: Sweep, live: seq<nat>, n: nat, width: real, height: real)
    requires Closed(p.tris) && KeyedIn(live, p.tris) && Mesh.Increasing(live) && n <= |live|
    ensures EmittedUpTo(p.tris, p.edges, live, Upto(p, live, n, width, height).edges, n, 0)
  {
    assert p.edges[..|p.edges|] == p.edges;
    for i := 0 to n
      invariant EmittedUpTo(p.tris, p.edges, live, Upto(p, live, i, width, height).edges, i, 0)
    {
      TriangleEmits(p, live, i, width, height);
    }
  }

  /** After the pass the Voronoi edges are those it started with, followed
      by justified edges only; and every slot of every live triangle has
      given the edge it calls for: the edge to each later live neighbour,
      and an edge to the border for each link to null or to a deleted
      triangle. */
  lemma PassEmits(p: Sweep, live: seq<nat>, width: real, height: real)
    requires Closed(p.tris) && KeyedIn(live, p.tris) && Mesh.Increasing(live)
    ensures var es := Upto(p, live, |live|, width, height).edges;
      && |p.edges| <= |es| && es[..|p.edges|] == p.edges
      && (forall n :: |p.edges| <= n < |es| ==> Justified(p.tris, live, es[n]))
      && forall i, j :: 0 <= i < |live| && 0 <= j < 3 ==> Produced(p.tris, live, i, j, es)
  {
    UptoEmits(p, live, |live|, width, height);
  }

  /** Two live triangles linked to each other give exactly one Voronoi
      edge between them: the visit from the earlier one calls for it and the
      visit from the later one does not. */
  lemma PairOnce(t0: Arena, live: seq<nat>, a: nat, ja: nat, b: nat, jb: nat)
    requires Closed(t0) && KeyedIn(live, t0) && Mesh.Increasing(live)
    requires a < |live| && b < |live| && a != b && ja < 3 && jb < 3
    requires t0[live[a]].neighbours[ja] == Some(live[b]) && t0[live[b]].neighbours[jb] == Some(live[a])
    ensures Across(t0, live, a, ja) == b && Across(t0, live, b, jb) == a
    ensures Across(t0, live, a, ja) > a <==> !(Across(t0, live, b, jb) > b)
  {
    Mesh.IncreasingNoDuplicates(live);
  }
}
