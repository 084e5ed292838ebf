/** The city of js/voronoi_save.js: shops scattered at random over the
    city, a Delaunay triangulation grown one shop per `repeat` call inside
    an initial triangle whose three shops are removed at the end, and the
    Voronoi pass run once the triangulation is complete. */
module SaveCity {
  import opened Wrappers
  import opened Vertices
  import opened Seeds
  import Mesh
  import opened SaveMesh
  import SaveDual

  // ---------------------------------------------------------------------
  // Scattering the shops

  /** `Math.floor(d * n)` for a draw `d` of `Math.random()`. */
  function Spot(d: real, n: int): real
  {
    (d * n as real).Floor as real
  }

  /** A spot is a whole number, and for a positive extent it lies in
      [0, n): every shop is inside the city. */
  lemma SpotInside(d: real, n: int)
    requires 0.0 <= d < 1.0
    ensures Spot(d, n) == Spot(d, n).Floor as real
    ensures 0 < n ==> 0.0 <= Spot(d, n) < n as real
  {
    if 0 < n {
      ScaledDraw(d, n);
    }
  }

  /** The shop loop of the constructor: shop `i` is built from the draws
      `2i` and `2i + 1`, one per coordinate, and numbered in order by the
      shop counter. A negative count places no shop. */
  method Scatter(count: int, width: int, height: int, draws: seq<real>, sf: VertexFactory)
    returns (shops: seq<Shop>)
    requires Draws(draws) && 2 * count <= |draws| && sf.Valid()
    modifies sf
    ensures sf.Valid() && |shops| == (if count < 0 then 0 else count) && sf.count == old(sf.count) + |shops|
    ensures forall i :: 0 <= i < |shops| ==>
      shops[i] == Vertex(old(sf.count) + i, Spot(draws[2 * i], width), Spot(draws[2 * i + 1], height))
  {
    shops := [];
    var i := 0;
    while i < count
      invariant 0 <= i && (i <= count || i == 0) && |shops| == i
      invariant sf.Valid() && sf.count == old(sf.count) + i
      invariant forall k :: 0 <= k < i ==>
        shops[k] == Vertex(old(sf.count) + k, Spot(draws[2 * k], width), Spot(draws[2 * k + 1], height))
    {
      var randX := Spot(draws[2 * i], width);
      var randY := Spot(draws[2 * i + 1], height);
      var s := sf.Create(randX, randY);
      shops := shops + [s];
      i := i + 1;
    }
  }

  // ---------------------------------------------------------------------
  // Shops and the triangles that use them

  /** Shop ids increase along the list; its shops are therefore distinct. */
  predicate Ascending(ss: seq<Shop>)
  {
    forall i, j :: 0 <= i < j < |ss| ==> ss[i].id < ss[j].id
  }

  /** Every shop of the list was numbered before the counter reached `count`. */
  predicate Issued(ss: seq<Shop>, count: nat)
  {
    forall i :: 0 <= i < |ss| ==> ss[i].id < count
  }

  /** Every shop of `t` is one of `pool`. */
  predicate Within(t: Triangle, pool: seq<Shop>)
  {
    forall k :: 0 <= k < |t.shops| ==> t.shops[k] in pool
  }

  /** Every shop of a live triangle is one of `pool`. */
  predicate Uses(tris: Arena, live: seq<nat>, pool: seq<Shop>)
  {
    forall x :: x in live && x in tris ==> Within(tris[x], pool)
  }

  /** Some shop of `t` is one of `fake`. */
  predicate Touches(t: Triangle, fake: seq<Shop>)
  {
    exists k :: 0 <= k < |t.shops| && t.shops[k] in fake
  }

  /** No live triangle has a shop of `fake`. */
  predicate Cleared(tris: Arena, live: seq<nat>, fake: seq<Shop>)
  {
    forall x :: x in live && x in tris ==> !Touches(tris[x], fake)
  }

  /** `live'` is `live` without the triangles that have a shop of `fake`. */
  ghost predicate Unwrapped(tris: Arena, live: seq<nat>, live': seq<nat>, fake: seq<Shop>)
    requires KeyedIn(live, tris)
  {
    forall x :: x in live' <==> x in live && !Touches(tris[x], fake)
  }

  /** Shops numbered from `c` on, in order, may follow shops numbered
      below `c`. */
  lemma AscendingAppend(a: seq<Shop>, b: seq<Shop>, c: nat)
    requires Ascending(a) && Issued(a, c) && Ascending(b)
    requires forall i :: 0 <= i < |b| ==> c <= b[i].id
    ensures Ascending(a + b)
  {
  }

  /** Every link of a live triangle is null or a live triangle. */
  predicate Pruned(tris: Arena, live: seq<nat>)
  {
    forall x :: x in live && x in tris ==> LinksLive(tris[x], live)
  }

  /** Every link of `t` is null or a live triangle. */
  predicate LinksLive(t: Triangle, live: seq<nat>)
  {
    forall k :: 0 <= k < |t.neighbours| ==> t.neighbours[k].None? || t.neighbours[k].value in live
  }

  /** The ends of a boundary edge of the cavity are shops of a cavity
      triangle. */
  lemma BoundaryUses(tris: Arena, live: seq<nat>, olds: seq<nat>, e: Edge, pool: seq<Shop>)
    requires Closed(tris) && KeyedIn(live, tris) && Uses(tris, live, pool)
    requires forall r :: r in olds ==> r in live
    requires e in Boundary(tris, olds, olds)
    ensures e.s1 in pool && e.s2 in pool
  {
    BoundaryMembers(tris, olds, olds, e);
    var r, j :| r in olds && 0 <= j < 3 && tris[r].edges[j] == e && Outside(tris[r].neighbours[j], olds);
    assert e.s1 == tris[r].shops[if j == 2 then 1 else 0];
    assert e.s2 == tris[r].shops[if j == 0 then 1 else 2];
  }

  /** An insertion of a shop of `pool` into a mesh using only shops of
      `pool` gives a mesh using only shops of `pool`: each new triangle is
      made of the shop and the two ends of an edge of a cavity triangle. */
  lemma InsertedUses(tris: Arena, live: seq<nat>, s: Shop, count: nat, tris': Arena, live': seq<nat>, count': nat, pool: seq<Shop>)
    requires Closed(tris) && KeyedIn(live, tris) && Uses(tris, live, pool) && s in pool
    requires Inserted(tris, live, s, count, tris', live', count')
    ensures Uses(tris', live', pool)
  {
    var olds := OldOf(tris, live, s);
    var ce := Boundary(tris, olds, olds);
    var kept := Mesh.Without(live, Mesh.Elems(olds));
    var nt := live'[|kept|..];
    assert live' == live'[..|kept|] + nt == kept + nt;
    assert Numbered(tris', count, ce, nt, s) && Kept(tris, tris');
    Mesh.WithoutMembers(live, Mesh.Elems(olds));
    forall x, k | x in live' && x in tris' && 0 <= k < |tris'[x].shops|
      ensures tris'[x].shops[k] in pool
    {
      if x in kept {
        assert x in live && tris'[x].shops == tris[x].shops;
      } else {
        var n :| 0 <= n < |nt| && nt[n] == x;
        assert Spawned(tris'[x], ce[n], s);
        BoundaryUses(tris, live, olds, ce[n], pool);
      }
    }
  }

  /** The insertion of a shop, on the values of the city: the mesh stays
      closed and fresh with an increasing live list, and keeps to the shops
      of `pool` when the shop is one of them. */
  method InsertInto(tris: Arena, live: seq<nat>, s: Shop, count: nat, ghost pool: seq<Shop>)
    returns (tris': Arena, live': seq<nat>, count': nat)
    requires Closed(tris) && Fresh(tris, count) && KeyedIn(live, tris) && Mesh.Increasing(live)
    ensures Closed(tris') && Fresh(tris', count') && KeyedIn(live', tris') && Mesh.Increasing(live')
    ensures Inserted(tris, live, s, count, tris', live', count')
    ensures Uses(tris, live, pool) && s in pool ==> Uses(tris', live', pool)
  {
    var olds, cavityEdges, newTris;
    tris', live', count', olds, cavityEdges, newTris := Insert(tris, live, s, count);
    if Uses(tris, live, pool) && s in pool {
      InsertedUses(tris, live, s, count, tris', live', count', pool);
    }
  }

  /** The initial triangle on `a`, `b` and `c`, allocated as `count`, as the
      one live triangle of the arena. */
  method Start(tris: Arena, count: nat, a: Shop, b: Shop, c: Shop, ghost pool: seq<Shop>)
    returns (tris': Arena, live': seq<nat>, count': nat)
    requires Closed(tris) && Fresh(tris, count) && a in pool && b in pool && c in pool
    ensures Closed(tris') && Fresh(tris', count') && KeyedIn(live', tris') && Mesh.Increasing(live')
    ensures tris' == tris[count := NewTriangle(count, Edge(a, b), None, c)] && live' == [count] && count' == count + 1
    ensures Uses(tris', live', pool)
  {
    var t := NewTriangle(count, Edge(a, b), None, c);
    tris' := tris[count := t];
    live' := [count];
    count' := count + 1;
  }

  // ---------------------------------------------------------------------
  // The perimeter

  /** `that.shops.indexOf(t.shops[j]) >= fakeStart` for some `j`. */
  predicate HasFake(t: Triangle, shops: seq<Shop>, fakeStart: int)
  {
    exists k :: 0 <= k < |t.shops| && Mesh.IndexOf(shops, t.shops[k]) >= fakeStart
  }

  /** `perimeterTriangles`: the live triangles with a fake shop, in live
      order. */
  function Perimeter(tris: Arena, live: seq<nat>, shops: seq<Shop>, fakeStart: int): (p: seq<nat>)
    requires KeyedIn(live, tris)
    ensures forall x :: x in p <==> x in live && HasFake(tris[x], shops, fakeStart)
    ensures Mesh.Increasing(live) ==> Mesh.Increasing(p)
  {
    if |live| == 0 then []
    else
      var n := |live| - 1;
      assert forall i :: 0 <= i < n ==> live[..n][i] == live[i];
      assert forall x :: x in live <==> x in live[..n] || x == live[n];
      var prev := Perimeter(tris, live[..n], shops, fakeStart);
      if !HasFake(tris[live[n]], shops, fakeStart) then prev
      else
        Mesh.KeepLast(live, prev);
        prev + [live[n]]
  }

  /** The inner loop of the perimeter test: the shops of `t` in order,
      stopping at the first whose position in the city's shops is at least
      `fakeStart`. */
  method FindFake(t: Triangle, shops: seq<Shop>, fakeStart: int) returns (hasFakeShop: bool)
    requires Formed(t)
    ensures hasFakeShop == HasFake(t, shops, fakeStart)
  {
    hasFakeShop := false;
    var j := 0;
    while j < 3
      invariant 0 <= j <= 3
      invariant hasFakeShop ==> HasFake(t, shops, fakeStart)
      invariant !hasFakeShop ==> forall k :: 0 <= k < j ==> Mesh.IndexOf(shops, t.shops[k]) < fakeStart
    {
      if Mesh.IndexOf(shops, t.shops[j]) >= fakeStart {
        hasFakeShop := true;
        break;
      }
      j := j + 1;
    }
  }

  /** The perimeter loop of the clean-up: each live triangle is tested once
      and pushed when it has a fake shop. */
  method FindPerimeter(tris: Arena, live: seq<nat>, shops: seq<Shop>, fakeStart: int) returns (p: seq<nat>)
    requires Closed(tris) && KeyedIn(live, tris)
    ensures p == Perimeter(tris, live, shops, fakeStart)
  {
    p := [];
    for i := 0 to |live|
      invariant p == Perimeter(tris, live[..i], shops, fakeStart)
    {
      assert live[..i + 1][..i] == live[..i];
      var hasFakeShop := FindFake(tris[live[i]], shops, fakeStart);
      if hasFakeShop {
        p := p + [live[i]];
      }
    }
    assert live[..|live|] == live;
  }

  /** With distinct shops, `indexOf` reaches `fakeStart` exactly for the
      shops from `fakeStart` on. */
  lemma FakeIndex(shops: seq<Shop>, fakeStart: int, v: Shop)
    requires Ascending(shops) && 0 <= fakeStart <= |shops|
    ensures Mesh.IndexOf(shops, v) >= fakeStart <==> v in shops[fakeStart..]
  {
    if v in shops[fakeStart..] {
      var m :| fakeStart <= m < |shops| && shops[m] == v;
      assert shops[Mesh.IndexOf(shops, v)] == shops[m];
    }
  }

  /** So a triangle is on the perimeter exactly when it has one of the
      last shops. */
  lemma HasFakeTouches(t: Triangle, shops: seq<Shop>, fakeStart: int)
    requires Ascending(shops) && 0 <= fakeStart <= |shops|
    ensures HasFake(t, shops, fakeStart) <==> Touches(t, shops[fakeStart..])
  {
    forall k | 0 <= k < |t.shops|
      ensures Mesh.IndexOf(shops, t.shops[k]) >= fakeStart <==> t.shops[k] in shops[fakeStart..]
    {
      FakeIndex(shops, fakeStart, t.shops[k]);
    }
  }

  // ---------------------------------------------------------------------
  // The city

  /** How far the city has got: shops placed, triangulating, triangulation
      complete, Voronoi pass done. */
  datatype Stage = Placed | Running | Complete | Drawn

  /** The values of a city: its fields and, as `stage`, `placed` and
      `fake`, how far it has got, the shops as scattered and the three
      shops of the initial triangle. */
  datatype State = State(stage: Stage, shops: seq<Shop>, tris: Arena, live: seq<nat>, built: nat, index: nat,
                         delaunayComplete: bool, voronoiComplete: bool, voronoiEdges: seq<SaveDual.VEdge>,
                         placed: seq<Shop>, fake: seq<Shop>)

  /** What holds of a city between calls, `count` being the shop counter:
      the arena is closed with a fresh allocation count and the live list an
      increasing list of its triangles; the shops have increasing ids; while
      triangulating the shops are the scattered ones followed by the three
      of the initial triangle and the mesh uses only them; once complete
      the shops are the scattered ones, the mesh uses only them and no live
      triangle has a shop of the initial triangle; after the Voronoi pass
      every link of a live triangle is null or live. */
  ghost predicate Good(s: State, count: nat)
  {
    && Closed(s.tris) && Fresh(s.tris, s.built) && KeyedIn(s.live, s.tris) && Mesh.Increasing(s.live)
    && match s.stage
       case Placed =>
         s.live == [] && s.index == 0 && !s.delaunayComplete && !s.voronoiComplete && s.voronoiEdges == []
         && s.shops == s.placed && s.fake == [] && Ascending(s.shops) && Issued(s.shops, count)
       case Running =>
         |s.fake| == 3 && s.shops == s.placed + s.fake && s.index <= |s.placed| && !s.delaunayComplete
         && !s.voronoiComplete && s.voronoiEdges == [] && Ascending(s.shops) && Uses(s.tris, s.live, s.shops)
       case Complete =>
         |s.fake| == 3 && s.shops == s.placed && s.index == |s.placed| && s.delaunayComplete && !s.voronoiComplete
         && s.voronoiEdges == [] && Uses(s.tris, s.live, s.placed) && Cleared(s.tris, s.live, s.fake)
       case Drawn =>
         |s.fake| == 3 && s.shops == s.placed && s.index == |s.placed| && s.delaunayComplete && s.voronoiComplete
         && Uses(s.tris, s.live, s.placed) && Cleared(s.tris, s.live, s.fake) && Pruned(s.tris, s.live)
  }

  /** A city just scattered, its shops numbered from `start` on. */
  lemma ScatteredGood(shops: seq<Shop>, start: nat, count: nat)
    requires count == start + |shops| && forall i :: 0 <= i < |shops| ==> shops[i].id == start + i
    ensures Good(State(Placed, shops, map[], [], 0, 0, false, false, [], shops, []), count)
  {
  }

  /** `computeDelaunay` keeps a city good: three shops numbered from the
      counter on, and a mesh of them. */
  lemma StartGood(s: State, count: nat, a: Shop, b: Shop, c: Shop, tris: Arena, live: seq<nat>, built: nat, count': nat)
    requires Good(s, count) && s.stage == Placed
    requires count <= a.id && b.id == a.id + 1 && c.id == a.id + 2
    requires Closed(tris) && Fresh(tris, built) && KeyedIn(live, tris) && Mesh.Increasing(live)
    requires Uses(tris, live, s.shops + [a, b, c])
    ensures Good(s.(stage := Running, shops := s.shops + [a, b, c], tris := tris, live := live, built := built,
                    fake := [a, b, c]), count')
  {
    AscendingAppend(s.shops, [a, b, c], a.id);
  }

  /** An insertion keeps a city good. */
  lemma InsertGood(s: State, count: nat, tris: Arena, live: seq<nat>, built: nat)
    requires Good(s, count) && s.stage == Running && s.index < |s.placed|
    requires Closed(tris) && Fresh(tris, built) && KeyedIn(live, tris) && Mesh.Increasing(live)
    requires Uses(tris, live, s.shops)
    ensures Good(s.(tris := tris, live := live, built := built, index := s.index + 1), count)
  {
  }

  /** The clean-up keeps a city good. */
  lemma CleanGood(s: State, count: nat, live: seq<nat>, shops: seq<Shop>)
    requires Good(s, count) && s.stage == Running && s.index == |s.placed|
    requires KeyedIn(live, s.tris) && Mesh.Increasing(live) && shops == s.placed
    requires Uses(s.tris, live, s.placed) && Cleared(s.tris, live, s.fake)
    ensures Good(s.(stage := Complete, delaunayComplete := true, live := live, shops := shops), count)
  {
  }

  /** The Voronoi pass keeps a city good. */
  lemma DrawGood(s: State, count: nat, tris: Arena, edges: seq<SaveDual.VEdge>)
    requires Good(s, count) && s.stage == Complete
    requires Closed(tris) && Fresh(tris, s.built) && KeyedIn(s.live, tris) && Pruned(tris, s.live)
    requires Uses(tris, s.live, s.placed) && Cleared(tris, s.live, s.fake)
    ensures Good(s.(stage := Drawn, voronoiComplete := true, tris := tris, voronoiEdges := edges), count)
  {
  }

  class City {
    const shopsCount: int
    const width: int
    const height: int
    /** The counter that numbers every `new Shop`. */
    const sf: VertexFactory

    var shops: seq<Shop>
    /** Every triangle constructed so far, by reference. */
    var tris: Arena
    /** `delaunayTriangles`, by reference. */
    var live: seq<nat>
    /** The number of triangles constructed so far. */
    var built: nat
    var index: nat
    var delaunayComplete: bool
    var voronoiComplete: bool
    var voronoiEdges: seq<SaveDual.VEdge>
    ghost var placed: seq<Shop>
    ghost var fake: seq<Shop>
    ghost var stage: Stage

    ghost function Now(): State
      reads this
    {
      State(stage, shops, tris, live, built, index, delaunayComplete, voronoiComplete, voronoiEdges, placed, fake)
    }

    ghost predicate Valid()
      reads this, sf
    {
      sf.Valid() && Good(Now(), sf.count)
    }

    /** A bound on the calls to `repeat` left: one per shop still to
        insert, the clean-up and the Voronoi pass. */
    ghost function Rank(): nat
      reads this
    {
      match stage
      case Placed => 0
      case Running => if |placed| < index then 0 else |placed| - index + 2
      case Complete => 1
      case Drawn => 0
    }

    /** `new City(shopsCount, width, height)`: the shops scattered, no
        triangle, the index at the first shop, no Voronoi edge. */
    constructor (shopsCount: int, width: int, height: int, draws: seq<real>, sf: VertexFactory)
      requires Draws(draws) && 2 * shopsCount <= |draws| && sf.Valid()
      modifies sf
      ensures Valid() && stage == Placed && placed == shops
      ensures this.shopsCount == shopsCount && this.width == width && this.height == height && this.sf == sf
      ensures |shops| == (if shopsCount < 0 then 0 else shopsCount) && sf.count == old(sf.count) + |shops|
      ensures forall i :: 0 <= i < |shops| ==>
        shops[i] == Vertex(old(sf.count) + i, Spot(draws[2 * i], width), Spot(draws[2 * i + 1], height))
      ensures tris == map[] && live == [] && built == 0
      ensures index == 0 && !delaunayComplete && !voronoiComplete && voronoiEdges == []
    {
      ghost var start := sf.count;
      var scattered := Scatter(shopsCount, width, height, draws, sf);
      this.shopsCount := shopsCount;
      this.width := width;
      this.height := height;
      this.sf := sf;
      shops := scattered;
      tris := map[];
      live := [];
      built := 0;
      index := 0;
      delaunayComplete := false;
      voronoiComplete := false;
      voronoiEdges := [];
      placed := scattered;
      fake := [];
      stage := Placed;
      ScatteredGood(scattered, start, sf.count);
    }

    /** `computeDelaunay()`: the initial triangle on the shops (0, 0),
        (2w, 0) and (0, 2h), built in that order, with no neighbour; its
        shops are appended to the city's and it is the one live triangle. */
    method ComputeDelaunay()
      requires Valid() && stage == Placed
      modifies this`shops, this`tris, this`live, this`built, this`fake, this`stage, sf
      ensures Valid() && stage == Running && placed == old(placed) && index == 0
      ensures fake == [Vertex(old(sf.count), 0.0, 0.0), Vertex(old(sf.count) + 1, (width * 2) as real, 0.0),
                       Vertex(old(sf.count) + 2, 0.0, (height * 2) as real)]
      ensures shops == old(shops) + fake && built == old(built) + 1 && live == [old(built)]
      ensures tris == old(tris)[old(built) := NewTriangle(old(built), Edge(fake[0], fake[1]), None, fake[2])]
    {
      ghost var s0, c0 := Now(), sf.count;
      var a := sf.Create(0.0, 0.0);
      var b := sf.Create((width * 2) as real, 0.0);
      var c := sf.Create(0.0, (height * 2) as real);
      shops := shops + [a, b, c];
      tris, live, built := Start(tris, built, a, b, c, shops);
      fake := [a, b, c];
      stage := Running;
      StartGood(s0, c0, a, b, c, tris, live, built, sf.count);
      assert Now() == s0.(stage := Running, shops := s0.shops + [a, b, c], tris := tris, live := live,
                          built := built, fake := [a, b, c]);
    }

    /** The insertion branch of `repeat`: the shop at the index is picked,
        the index moves on and the shop is inserted. */
    method InsertShop()
      requires Valid() && stage == Running && index < |placed|
      modifies this`tris, this`live, this`built, this`index
      ensures Valid() && stage == Running && index == old(index) + 1
      ensures Inserted(old(tris), old(live), shops[old(index)], old(built), tris, live, built)
    {
      ghost var s0 := Now();
      var s := shops[index];
      index := index + 1;
      tris, live, built := InsertInto(tris, live, s, built, shops);
      InsertGood(s0, sf.count, tris, live, built);
      assert Now() == s0.(tris := tris, live := live, built := built, index := s0.index + 1);
    }

    /** The clean-up branch of `repeat`: the triangulation is complete;
        every live triangle with one of the last three shops is deleted, and
        those shops leave the city. */
    method CleanUp()
      requires Valid() && stage == Running && index == |placed|
      modifies this`delaunayComplete, this`live, this`shops, this`stage
      ensures Valid() && stage == Complete && tris == old(tris)
      ensures shops == old(shops)[..|old(shops)| - 3]
      ensures live == Mesh.Without(old(live), Mesh.Elems(Perimeter(tris, old(live), old(shops), |old(shops)| - 3)))
      ensures Unwrapped(tris, old(live), live, fake)
    {
      ghost var s0 := Now();
      delaunayComplete := true;
      live, shops := Unwrap(tris, live, shops, placed, fake);
      stage := Complete;
      CleanGood(s0, sf.count, live, shops);
      assert Now() == s0.(stage := Complete, delaunayComplete := true, live := live, shops := shops);
    }

    /** `computeVoronoi()`: the first call runs the dual pass over the live
        triangles and marks it done; later calls change nothing. The pass
        leaves every link of a live triangle null or live; each Voronoi
        edge is justified by the triangulation the pass started from, and
        every slot of every live triangle has given the edge it calls for. */
    method ComputeVoronoi()
      requires Valid() && (stage == Complete || stage == Drawn) && 0 < width && 0 < height
      modifies this`tris, this`voronoiEdges, this`voronoiComplete, this`stage
      ensures Valid() && voronoiComplete && stage == Drawn
      ensures old(voronoiComplete) ==> tris == old(tris) && voronoiEdges == old(voronoiEdges)
      ensures !old(voronoiComplete) ==>
        var r := SaveDual.Upto(SaveDual.Sweep(old(tris), [], None), live, |live|, width as real, height as real);
        tris == r.tris && voronoiEdges == r.edges
      ensures !old(voronoiComplete) ==>
        && (forall e :: e in voronoiEdges ==> SaveDual.Justified(old(tris), live, e))
        && forall i, j :: 0 <= i < |live| && 0 <= j < 3 ==> SaveDual.Produced(old(tris), live, i, j, voronoiEdges)
    {
      if !voronoiComplete {
        ghost var s0 := Now();
        voronoiComplete := true;
        tris, voronoiEdges := Dualize(tris, live, built, width as real, height as real, placed, fake);
        stage := Drawn;
        DrawGood(s0, sf.count, tris, voronoiEdges);
        assert Now() == s0.(stage := Drawn, voronoiComplete := true, tris := tris, voronoiEdges := voronoiEdges);
      }
    }

    /** `repeat()`: the insertion of the next shop while shops remain, then
        the clean-up, then the Voronoi pass. Each call that is not a no-op
        brings the end closer. */
    method Repeat()
      requires Valid() && stage != Placed && 0 < width && 0 < height
      modifies this`tris, this`live, this`built, this`index, this`delaunayComplete, this`shops, this`stage,
               this`voronoiEdges, this`voronoiComplete
      ensures Valid() && stage != Placed && placed == old(placed) && fake == old(fake)
      ensures old(Rank()) > 0 ==> Rank() < old(Rank())
      ensures old(stage) == Running && old(index) < |placed| ==>
        stage == Running && index == old(index) + 1 &&
        Inserted(old(tris), old(live), placed[old(index)], old(built), tris, live, built)
      ensures old(stage) == Running && old(index) == |placed| ==>
        stage == Complete && tris == old(tris) && Unwrapped(tris, old(live), live, fake)
      ensures old(stage) == Complete || old(stage) == Drawn ==> stage == Drawn && live == old(live)
    {
      if !delaunayComplete && index < |shops| - 3 {
        assert shops[index] == placed[index];
        InsertShop();
      } else if !delaunayComplete {
        CleanUp();
      } else {
        ComputeVoronoi();
      }
    }

    /** The page's start-up: `computeDelaunay()`, then `repeat()` until the
        Voronoi diagram is complete. The loop ends; every scattered shop has
        been inserted, the shops are those scattered, the triangulation uses
        only them and has none of the initial triangle, and every link of a
        live triangle is null or live. */
    method Run()
      requires Valid() && stage == Placed && 0 < width && 0 < height
      modifies this`shops, this`tris, this`live, this`built, this`index, this`delaunayComplete, this`fake,
               this`stage, this`voronoiEdges, this`voronoiComplete, sf
      ensures Valid() && stage == Drawn && voronoiComplete
      ensures shops == old(shops) && index == |shops|
      ensures Uses(tris, live, shops) && Cleared(tris, live, fake) && Pruned(tris, live)
    {
      ComputeDelaunay();
      while !voronoiComplete
        invariant Valid() && stage != Placed && placed == old(shops)
        decreases Rank()
      {
        Repeat();
      }
    }
  }

  /** The clean-up on the values of the city: the live triangles with one
      of the last three shops are deleted and those shops dropped. What
      remains is the live triangles without a fake shop, and it uses only
      the scattered shops. */
  method Unwrap(tris: Arena, live: seq<nat>, shops: seq<Shop>, ghost placed: seq<Shop>, ghost fake: seq<Shop>)
    returns (live': seq<nat>, shops': seq<Shop>)
    requires Closed(tris) && KeyedIn(live, tris) && Mesh.Increasing(live)
    requires shops == placed + fake && |fake| == 3 && Ascending(shops) && Uses(tris, live, shops)
    ensures shops' == shops[..|shops| - 3] == placed
    ensures live' == Mesh.Without(live, Mesh.Elems(Perimeter(tris, live, shops, |shops| - 3)))
    ensures KeyedIn(live', tris) && Mesh.Increasing(live')
    ensures Unwrapped(tris, live, live', fake) && Uses(tris, live', placed) && Cleared(tris, live', fake)
  {
    var fakeStart := |shops| - 3;
    var perimeter := FindPerimeter(tris, live, shops, fakeStart);
    Mesh.IncreasingNoDuplicates(perimeter);
    Mesh.DeleteExactly(live, perimeter);
    live' := Mesh.DeleteTriangles(live, perimeter);
    Mesh.WithoutMembers(live, Mesh.Elems(perimeter));
    Mesh.WithoutIncreasing(live, Mesh.Elems(perimeter));
    assert shops[fakeStart..] == fake;
    forall x | x in live
      ensures HasFake(tris[x], shops, fakeStart) <==> Touches(tris[x], fake)
    {
      HasFakeTouches(tris[x], shops, fakeStart);
    }
    assert shops[..fakeStart] == placed;
    shops' := shops[..fakeStart] + shops[fakeStart + 3..];
    assert shops' == placed;
    forall x, k | x in live' && x in tris && 0 <= k < |tris[x].shops|
      ensures tris[x].shops[k] in placed
    {
      assert tris[x].shops[k] in placed + fake && tris[x].shops[k] !in fake;
    }
  }

  /** `computeVoronoi`'s pass on the values of the city, starting with no
      Voronoi edge: every link of a live triangle ends null or live, the
      triangles keep their shapes, each edge is justified by the arena the
      pass started from, and every slot of every live triangle has given
      the edge it calls for. */
  method Dualize(tris: Arena, live: seq<nat>, count: nat, width: real, height: real,
                 ghost pool: seq<Shop>, ghost fake: seq<Shop>)
    returns (tris': Arena, edges: seq<SaveDual.VEdge>)
    requires Closed(tris) && Fresh(tris, count) && KeyedIn(live, tris) && Mesh.Increasing(live)
    requires 0.0 < width && 0.0 < height
    ensures var r := SaveDual.Upto(SaveDual.Sweep(tris, [], None), live, |live|, width, height);
      tris' == r.tris && edges == r.edges
    ensures Closed(tris') && Fresh(tris', count) && KeyedIn(live, tris') && Pruned(tris', live)
    ensures Uses(tris, live, pool) ==> Uses(tris', live, pool)
    ensures Cleared(tris, live, fake) ==> Cleared(tris', live, fake)
    ensures forall e :: e in edges ==> SaveDual.Justified(tris, live, e)
    ensures forall i, j :: 0 <= i < |live| && 0 <= j < 3 ==> SaveDual.Produced(tris, live, i, j, edges)
  {
    var p := SaveDual.Sweep(tris, [], None);
    SaveDual.PassClears(p, live, width, height);
    SaveDual.PassEmits(p, live, width, height);
    tris', edges := SaveDual.ComputeVoronoi(tris, live, [], width, height);
    PassKeepsClosed(tris, tris');
    forall e | e in edges
      ensures SaveDual.Justified(tris, live, e)
    {
      var n :| 0 <= n < |edges| && edges[n] == e;
    }
    assert forall x :: x in tris ==> tris'[x].shops == tris[x].shops;
  }

  /** A pass that keeps every triangle's shape and sets some links to null
      keeps the arena closed. */
  lemma PassKeepsClosed(t0: Arena, t: Arena)
    requires Closed(t0) && t.Keys == t0.Keys && Kept(t0, t)
    requires forall x, k :: x in t0 && 0 <= k < 3 ==> t[x].neighbours[k].None? || t[x].neighbours[k] == t0[x].neighbours[k]
    ensures Closed(t)
  {
  }
}
