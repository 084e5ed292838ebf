/** The city of js/city.js: shops placed at random on a grid, then the same
    Bowyer-Watson triangulation and dual pass as app/lib/voronoi.js, over the
    graph primitives of js/graph.js. Those primitives number their objects
    from one, and `Graph.IdInjective` shows that keying the arena by those
    numbers is keying it by the string ids. */
module City {
  import opened Wrappers
  import opened Vertices
  import opened Edges
  import opened Triangles
  import opened Mesh
  import opened Seeds
  import Insertion
  import Dual
  import Engine

  // ---------------------------------------------------------------------
  // Placing the shops

  /** `Math.round(x)`: the floor of `x + 1/2`. */
  function Round(x: real): int
  {
    (x + 0.5).Floor
  }

  /** Rounding never reverses an order. */
  lemma RoundMonotone(x: real, y: real)
    requires x <= y
    ensures Round(x) <= Round(y)
  {
  }

  /** A draw in [0, 1) scales `x` to a value between 0 and `x`. */
  lemma ScaledBetween(d: real, x: real)
    requires 0.0 <= d < 1.0
    ensures 0.0 <= x ==> 0.0 <= d * x <= x
    ensures x < 0.0 ==> x <= d * x <= 0.0
  {
    assert d * x + (1.0 - d) * x == x;
    if 0.0 <= x {
      NonNegProduct(d, x);
      NonNegProduct(1.0 - d, x);
    } else {
      NonNegProduct(d, -x);
      NonNegProduct(1.0 - d, -x);
    }
  }

  /** Division by a positive number keeps an order. */
  lemma DivideMonotone(a: real, b: real, s: real)
    requires a <= b && 0.0 < s
    ensures a / s <= b / s
  {
    var qa, qb := a / s, b / s;
    assert qa * s == a && qb * s == b;
    if qa > qb {
      PositiveProduct(qa - qb, s);
    }
  }

  /** The largest grid index along an extent `n` with spacing `s`. */
  function Last(n: int, s: int): int
    requires 0 < s
  {
    Round(n as real / s as real)
  }

  /** A coordinate of the grid: a multiple of the spacing whose index lies
      between 0 and the last index of the extent. */
  predicate Snapped(c: int, n: int, s: int)
    requires 0 < s
  {
    c % s == 0 && (if 0 <= n then 0 <= c / s <= Last(n, s) else Last(n, s) <= c / s <= 0)
  }

  /** A multiple of `s` has remainder zero and quotient its factor. */
  lemma Multiple(k: int, s: int)
    requires 0 < s
    ensures (k * s) % s == 0 && (k * s) / s == k
  {
    var q, r := (k * s) / s, (k * s) % s;
    assert k * s == q * s + r && 0 <= r < s;
    var m := k - q;
    assert m * s == r by {
      assert m * s == k * s - q * s;
    }
    if m >= 1 {
      assert m * s == s + (m - 1) * s;
      NonNegFactor(m - 1, s);
    } else if m <= -1 {
      assert m * s == -s - (-m - 1) * s;
      NonNegFactor(-m - 1, s);
    }
  }

  lemma NonNegFactor(a: int, b: int)
    requires 0 <= a && 0 < b
    ensures 0 <= a * b
  {
  }

  /** Rounded quotients by a positive number keep an order. */
  lemma IndexBetween(a: real, x: real, b: real, s: int)
    requires a <= x <= b && 0 < s
    ensures Round(a / s as real) <= Round(x / s as real) <= Round(b / s as real)
  {
    DivideMonotone(a, x, s as real);
    DivideMonotone(x, b, s as real);
    RoundMonotone(a / s as real, x / s as real);
    RoundMonotone(x / s as real, b / s as real);
  }

  /** A draw scaled to the extent and rounded to a grid index lands on the
      grid: a multiple of the spacing within the extent. */
  lemma SnapOnGrid(d: real, n: int, s: int)
    requires 0.0 <= d < 1.0 && 0 < s
    ensures Snapped(Round(d * n as real / s as real) * s, n, s)
  {
    var x := d * n as real;
    ScaledBetween(d, n as real);
    assert 0.0 / s as real == 0.0 && Round(0.0) == 0;
    if 0 <= n {
      assert 0.0 <= n as real;
      IndexBetween(0.0, x, n as real, s);
    } else {
      assert n as real < 0.0;
      assert n as real <= x <= 0.0;
      IndexBetween(n as real, x, 0.0, s);
    }
    Multiple(Round(x / s as real), s);
  }

  /** `Math.round(draw * n / s) * s`: the draw scaled to the extent and
      snapped to the grid. */
  function Snap(d: real, n: int, s: int): (c: int)
    requires 0.0 <= d < 1.0 && 0 < s
    ensures Snapped(c, n, s)
  {
    SnapOnGrid(d, n, s);
    Round(d * n as real / s as real) * s
  }

  /** A shop at a grid point of the city. */
  predicate OnGrid(v: Vertex, width: int, height: int, spacing: int)
    requires 0 < spacing
  {
    v.x == v.x.Floor as real && v.y == v.y.Floor as real &&
    Snapped(v.x.Floor, width, spacing) && Snapped(v.y.Floor, height, spacing)
  }

  /** The shop loop of the `City` constructor: `count` shops, each at a grid
      point not yet in `positions`, a retry consuming two draws; running out
      of draws (the source retries forever) is a failure. The shops are
      pairwise apart and numbered in order. */
  method Place(width: int, height: int, spacing: int, count: int, draws: seq<real>, vf: VertexFactory)
    returns (r: Result<seq<Vertex>>)
    requires 0 < spacing && Draws(draws) && vf.Valid()
    modifies vf
    ensures vf.Valid()
    ensures r.Err? ==> r.msg == "random draws exhausted"
    ensures r.Ok? ==> |r.value| == (if 0 < count then count else 0) && Distinct(r.value)
    ensures r.Ok? ==> forall i :: 0 <= i < |r.value| ==> OnGrid(r.value[i], width, height, spacing)
    ensures r.Ok? ==> forall i :: 0 <= i < |r.value| ==> r.value[i].id == old(vf.count) + i
  {
    var shops: seq<Vertex> := [];
    var positions: set<(int, int)> := {};
    var k := 0;
    var i := 0;
    while i < count
      invariant |shops| == i && (if 0 < count then i <= count else i == 0) && Distinct(shops) && vf.Valid()
      invariant vf.count == old(vf.count) + i
      invariant forall j :: 0 <= j < i ==> OnGrid(shops[j], width, height, spacing)
      invariant forall j :: 0 <= j < i ==> shops[j].id == old(vf.count) + j
      invariant forall a, b :: (a, b) in positions <==> Occupied(shops, a, b)
    {
      var x, y := 0, 0;
      while true
        invariant Snapped(x, width, spacing) && Snapped(y, height, spacing)
        decreases |draws| - k
      {
        if k + 2 > |draws| {
          return Err("random draws exhausted");
        }
        x, y := Snap(draws[k], width, spacing), Snap(draws[k + 1], height, spacing);
        k := k + 2;
        if (x, y) !in positions {
          break;
        }
      }
      positions := positions + {(x, y)};
      var v := vf.Create(x as real, y as real);
      OccupiedAppend(shops, v);
      DistinctAppend(shops, v, x, y);
      shops := shops + [v];
      i := i + 1;
    }
    r := Ok(shops);
  }

  // ---------------------------------------------------------------------
  // Inserting a shop

  /** The insertion of shop `s` into the live triangles of `tris`, with the
      counters at `E0` and `T0`, gives the arena `tris'` and the live list
      `live'`: the cavity is the live triangles whose circumcircle contains
      the shop, a new triangle is built on each side of the cavity, and the
      cavity leaves the live list, the new triangles following the rest. */
  ghost predicate Inserted(tris: Arena, live: seq<nat>, s: Vertex, E0: nat, T0: nat, tris': Arena, live': seq<nat>)
  {
    Closed(tris) && KeyedIn(live, tris) &&
    var cavity := CavityOf(tris, live, s);
    Engine.Hollowed(tris, live, cavity) && Insertion.AllAcross(Insertion.Boundary(tris, cavity, |cavity|), tris) &&
    var b := Engine.Inserting(tris, cavity, s, E0, T0);
    tris' == b.tris && live' == Without(live, Elems(cavity)) + b.newTris
  }

  /** The body of the insertion branch on the values of the city; the arena
      stays closed with fresh counters and the live list an increasing list
      of its triangles. */
  method Insert(tris: Arena, live: seq<nat>, s: Vertex, ef: EdgeFactory, tf: TriangleFactory)
    returns (tris': Arena, live': seq<nat>)
    requires ef.Valid() && tf.Valid()
    requires Closed(tris) && Fresh(tris, tf.count, ef.count) && KeyedIn(live, tris) && Increasing(live)
    modifies ef, tf
    ensures ef.Valid() && tf.Valid()
    ensures Inserted(tris, live, s, old(ef.count), old(tf.count), tris', live')
    ensures Closed(tris') && Fresh(tris', tf.count, ef.count) && KeyedIn(live', tris') && Increasing(live')
  {
    var cavity := Mesh.IdentifyCavity(tris, live, s);
    Engine.CavityInArena(tris, live, s);
    var cavityEdges, newTris;
    tris', live', cavityEdges, newTris := Engine.Insert(tris, live, cavity, s, ef, tf);
  }

  // ---------------------------------------------------------------------
  // The city

  /** How far the city has got: shops placed, triangulating, triangulation
      complete. */
  datatype Stage = Placed | Running | Done

  class City {
    const width: int
    const height: int
    /** The id counters of js/graph.js, each starting at one. */
    const vf: VertexFactory
    const ef: EdgeFactory
    const tf: TriangleFactory

    var shops: seq<Vertex>
    var tris: Arena
    /** `delaunayTriangles`, by id. */
    var live: seq<nat>
    /** `delaunayComplete` and `delaunayIndex`. */
    var complete: bool
    var index: nat
    var voronoiComplete: bool
    var voronoiEdges: seq<Edge>
    /** `initialVertices`: the corners of the wrapper. */
    var initial: seq<Vertex>
    /** The shops as placed, without the corners of the wrapper. */
    ghost var placed: seq<Vertex>
    ghost var stage: Stage

    /** The arena is closed with fresh counters, and the live list is an
        increasing list of its triangles. */
    ghost predicate Meshed()
      reads this, ef, tf
    {
      Closed(tris) && Fresh(tris, tf.count, ef.count) && KeyedIn(live, tris) && Increasing(live)
    }

    /** During the insertions the shop list is the placed shops followed by
        the three corners of the wrapper. */
    ghost predicate Extended()
      reads this
    {
      |initial| == 3 && shops == placed + initial
    }

    /** No live triangle has a corner of the wrapper. */
    ghost predicate Cleared()
      reads this
      requires KeyedIn(live, tris)
    {
      forall x :: x in live ==> !Touches(tris[x], Engine.Ids(initial))
    }

    ghost predicate Valid()
      reads this, vf, ef, tf
    {
      vf.Valid() && ef.Valid() && tf.Valid() && KeyedIn(live, tris) &&
      match stage
      case Placed => Meshed() && live == [] && index == 0 && !complete && shops == placed
      case Running => Meshed() && Extended() && !complete && index <= |placed|
      case Done => complete && shops == placed && index == |placed| && Cleared()
    }

    /** A bound on the steps left: one per shop still to insert, and the
        clean-up. */
    ghost function Rank(): nat
      reads this
    {
      if stage != Running || |placed| < index then 0 else |placed| - index + 1
    }

    /** `new City(ctx, width, height, settings)` once its shops are placed:
        no triangle, the index at the first shop, no Voronoi edge. */
    constructor (width: int, height: int, shops: seq<Vertex>, vf: VertexFactory, ef: EdgeFactory, tf: TriangleFactory)
      requires vf.Valid() && ef.Valid() && tf.Valid()
      ensures Valid() && stage == Placed && this.shops == shops && placed == shops
      ensures this.width == width && this.height == height && this.vf == vf && this.ef == ef && this.tf == tf
      ensures live == [] && !complete && index == 0 && !voronoiComplete && voronoiEdges == []
    {
      this.width := width;
      this.height := height;
      this.vf := vf;
      this.ef := ef;
      this.tf := tf;
      this.shops := shops;
      tris := map[];
      live := [];
      complete := false;
      index := 0;
      voronoiComplete := false;
      voronoiEdges := [];
      initial := [];
      placed := shops;
      stage := Placed;
    }

    /** `initDelaunay()`: one live triangle with corners (-4w, -4h),
        (10w, -4h) and (-4w, 10h) and no neighbours, its vertices appended to
        the shops. */
    method InitDelaunay()
      requires Valid() && stage == Placed
      modifies this, vf, ef, tf
      ensures Valid() && stage == Running && placed == old(placed) && index == 0
      ensures initial == [Vertex(old(vf.count), (-width * 4) as real, (-height * 4) as real),
                          Vertex(old(vf.count) + 1, (width * 10) as real, (-height * 4) as real),
                          Vertex(old(vf.count) + 2, (-width * 4) as real, (height * 10) as real)]
      ensures shops == old(shops) + initial && live == [old(tf.count)]
      ensures tris[live[0]].vertices == initial && forall k :: k in tris[live[0]].links ==> tris[live[0]].links[k].None?
    {
      ghost var tc, ec := tf.count, ef.count;
      var t := Wrap((-width * 4) as real, (-height * 4) as real, (width * 10) as real, (-height * 4) as real,
                    (-width * 4) as real, (height * 10) as real, vf, ef, tf);
      Insertion.AddClosed(tris, t, tc, ec, ef.count);
      tris := tris[t.id := t];
      live := live + [t.id];
      initial := t.vertices;
      shops := shops + t.vertices;
      stage := Running;
    }

    /** The insertion branch of `nextDelaunayStep`: the shop at the index is
        picked, the index moves on and the shop is inserted. */
    method InsertShop()
      requires Valid() && stage == Running && index < |placed|
      modifies this`tris, this`live, this`index, ef, tf
      ensures Valid() && stage == Running && index == old(index) + 1
      ensures Inserted(old(tris), old(live), shops[old(index)], old(ef.count), old(tf.count), tris, live)
    {
      var s := shops[index];
      tris, live := Insert(tris, live, s, ef, tf);
      index := index + 1;
    }

    /** `cleanUpDelaunay()`: the triangulation is complete; every live
        triangle with a corner of the wrapper is deleted, and the three
        corners leave the shops. */
    method CleanUp()
      requires KeyedIn(live, tris) && Increasing(live) && 3 <= |shops|
      modifies this`complete, this`live, this`shops
      ensures complete && shops == old(shops)[..|old(shops)| - 3]
      ensures live == Without(old(live), Elems(PerimeterOf(tris, old(live), Engine.Ids(initial))))
      ensures KeyedIn(live, tris) && Increasing(live)
      ensures forall x :: x in live <==> x in old(live) && !Touches(tris[x], Engine.Ids(initial))
    {
      complete := true;
      live := Engine.Unwrap(tris, live, Engine.Ids(initial));
      shops := shops[..|shops| - 3];
    }

    /** `nextDelaunayStep()`: the clean-up once the index reaches the corners
        of the wrapper, otherwise the insertion of the next shop. Each call
        brings the end of the triangulation closer. */
    method NextStep()
      requires Valid() && stage == Running
      modifies this`tris, this`live, this`index, this`complete, this`shops, this`stage, ef, tf
      ensures Valid() && placed == old(placed) && Rank() < old(Rank())
      ensures stage == Running || stage == Done
      ensures stage == Done <==> complete
      ensures old(index) == |placed| ==>
                complete && tris == old(tris) && forall x :: x in live <==> x in old(live) && !Touches(tris[x], Engine.Ids(initial))
      ensures old(index) < |placed| ==> !complete && index == old(index) + 1
    {
      if index >= |shops| - 3 {
        CleanUp();
        assert (placed + initial)[..|placed|] == placed;
        stage := Done;
      } else {
        InsertShop();
      }
    }

    /** `computeVoronoi()`: the dual pass over the live triangles, with the
        Voronoi edges appended to those already there. */
    method ComputeVoronoi() returns (r: Outcome)
      requires Valid() && stage == Done
      modifies this`tris, this`voronoiEdges, this`voronoiComplete, vf, ef
      ensures Valid() && voronoiComplete
      ensures var run := Dual.Slots(Dual.Dual(old(tris), old(voronoiEdges), old(vf.count), old(ef.count)), live,
                                    3 * |live|, width as real, height as real);
        tris == run.d.tris && voronoiEdges == run.d.edges &&
        (r.Pass? <==> run.failure.None?) && (r.Fail? ==> Some(r.msg) == run.failure)
    {
      voronoiComplete := true;
      ghost var d0 := Dual.Dual(tris, voronoiEdges, vf.count, ef.count);
      var failure;
      tris, voronoiEdges, failure := Dual.ComputeVoronoi(tris, live, voronoiEdges, width as real, height as real, vf, ef);
      forall x | x in live
        ensures tris[x].vertices == d0.tris[x].vertices
      {
        Dual.SlotsKeepVertices(d0, live, 3 * |live|, width as real, height as real, x);
      }
      r := if failure.Some? then Fail(failure.value) else Pass;
    }

    /** `voronoi()`: the wrapper, the triangulation step by step until
        complete, and the dual pass. The loop ends, every shop is inserted,
        the shops are those placed and no triangle of the wrapper remains. */
    method Voronoi() returns (r: Outcome)
      requires Valid() && stage == Placed
      modifies this, vf, ef, tf
      ensures Valid() && stage == Done && complete && voronoiComplete
      ensures shops == old(shops) && index == |shops| && Cleared()
    {
      InitDelaunay();
      while !complete
        invariant Valid() && placed == old(shops) && (stage == Running || stage == Done)
        invariant stage == Done <==> complete
        decreases Rank()
      {
        NextStep();
      }
      r := ComputeVoronoi();
    }
  }
}
