/** Inserting one seed into the triangulation: the cavity boundary, the new
    triangles over it, the shared seed-to-vertex edges and the neighbour
    links on both sides (`_addSeed` of app/lib/voronoi.js). */
module Insertion {
  import opened Wrappers
  import opened Vertices
  import opened Edges
  import opened Triangles
  import opened Mesh

  /** A boundary edge of the cavity with the triangle across it, `None` for
      null. `across` is never a cavity triangle. */
  datatype Side = Side(edge: Edge, across: Option<nat>)

  /** Does the neighbour link `n` close the cavity (null, or a triangle that
      is not in the cavity)? */
  predicate Closes(n: Option<nat>, cavity: seq<nat>)
  {
    n.None? || n.value !in cavity
  }

  /** The boundary sides among the first `j` edges of cavity triangle `t`, in
      edge order. */
  function SidesOf(t: Tri, cavity: seq<nat>, j: nat): (r: seq<Side>)
    requires Keyed(t) && j <= 3
    ensures |r| <= j
  {
    if j == 0 then []
    else
      var e := t.edges[j - 1];
      var n := t.links[e.id];
      SidesOf(t, cavity, j - 1) + (if Closes(n, cavity) then [Side(e, n)] else [])
  }

  /** All cavity triangles, read from the arena, keyed. */
  predicate CavityIn(tris: Arena, cavity: seq<nat>)
  {
    forall i :: 0 <= i < |cavity| ==> cavity[i] in tris && Keyed(tris[cavity[i]])
  }

  /** The boundary sides of the first `k` cavity triangles, triangle by
      triangle in cavity order and edge by edge within a triangle. */
  function Boundary(tris: Arena, cavity: seq<nat>, k: nat): seq<Side>
    requires CavityIn(tris, cavity) && k <= |cavity|
  {
    if k == 0 then []
    else Boundary(tris, cavity, k - 1) + SidesOf(tris[cavity[k - 1]], cavity, 3)
  }

  /** The insertion's state after a number of boundary sides: the arena, the
      `newEdges` table (vertex id to the seed edge through it), the
      `newEdgesToNewTriangles` table (edge id to the new triangle that made
      it), both counters, and the `cavityEdges` and `newTriangles` lists. */
  datatype Build = Build(tris: Arena, newEdges: map<nat, Edge>, owner: map<nat, nat>,
                         ecount: nat, tcount: nat, cavityEdges: seq<Edge>, newTris: seq<nat>)

  /** Every edge of `newEdges` has its triangle, and that triangle is in the
      arena: the lookups of a step always succeed. */
  predicate Ready(b: Build)
  {
    (forall k :: k in b.newEdges ==> b.newEdges[k].id in b.owner) &&
    (forall k :: k in b.owner ==> b.owner[k] in b.tris)
  }

  /** The triangle across a side, if any, is in the arena. */
  predicate Across(s: Side, tris: Arena)
  {
    s.across.Some? ==> s.across.value in tris
  }

  predicate AllAcross(sides: seq<Side>, tris: Arena)
  {
    forall i :: 0 <= i < |sides| ==> Across(sides[i], tris)
  }

  /** The two seed edges of the new triangle over `e`: seed to `e.v1` and
      `e.v2` to seed, each taken from `newEdges` when that vertex already has
      one and made otherwise; both lookups happen before either edge is made. */
  datatype Spokes = Spokes(s1: Edge, s2: Edge, made1: bool, made2: bool,
                           newEdges: map<nat, Edge>, ecount: nat)

  function MakeSpokes(newEdges: map<nat, Edge>, ecount: nat, seed: Vertex, e: Edge): Spokes
  {
    var made1 := e.v1.id !in newEdges;
    var made2 := e.v2.id !in newEdges;
    var s1 := if made1 then Edge(ecount, seed, e.v1) else newEdges[e.v1.id];
    var c1 := if made1 then ecount + 1 else ecount;
    var m1 := if made1 then newEdges[e.v1.id := s1] else newEdges;
    var s2 := if made2 then Edge(c1, e.v2, seed) else newEdges[e.v2.id];
    var c2 := if made2 then c1 + 1 else c1;
    var m2 := if made2 then m1[e.v2.id := s2] else m1;
    Spokes(s1, s2, made1, made2, m2, c2)
  }

  /** The neighbour update for one seed edge of new triangle `id`: a made
      edge is recorded as belonging to `id`; a reused one links `id` and the
      triangle that made it to each other across it. */
  function Join(tris: Arena, owner: map<nat, nat>, id: nat, spoke: Edge, made: bool): (r: (Arena, map<nat, nat>))
    requires id in tris && (!made ==> spoke.id in owner && owner[spoke.id] in tris)
  {
    if made then (tris, owner[spoke.id := id])
    else
      var n := owner[spoke.id];
      var t1 := tris[id := SetNeighbour(tris[id], spoke, Some(n))];
      (t1[n := SetNeighbour(t1[n], spoke, Some(id))], owner)
  }

  /** The new triangle over side `s`: vertices [seed, e.v1, e.v2], edges
      [seed edge, e, seed edge], neighbours [null, across, null]. */
  function NewTri(id: nat, seed: Vertex, s: Side, p: Spokes): Tri
  {
    var e := s.edge;
    Tri(id, [seed, e.v1, e.v2], [p.s1, e, p.s2],
        map[p.s1.id := None][e.id := s.across][p.s2.id := None])
  }

  /** One boundary side of `_addSeed`: record the edge, make or reuse the
      seed edges, make the triangle, point the old neighbour at it, join it to
      the new triangles it shares seed edges with, and push it. */
  function Step(b: Build, seed: Vertex, s: Side): (r: Build)
    requires Ready(b) && Across(s, b.tris)
    ensures Ready(r) && r.tris.Keys == b.tris.Keys + {b.tcount}
    ensures r.tcount == b.tcount + 1 && r.newTris == b.newTris + [b.tcount]
    ensures r.cavityEdges == b.cavityEdges + [s.edge]
  {
    var e := s.edge;
    var p := MakeSpokes(b.newEdges, b.ecount, seed, e);
    var id := b.tcount;
    var tr0 := b.tris[id := NewTri(id, seed, s, p)];
    var tr1 := if s.across.Some? then tr0[s.across.value := SetNeighbour(tr0[s.across.value], e, Some(id))] else tr0;
    var j1 := Join(tr1, b.owner, id, p.s1, p.made1);
    var j2 := Join(j1.0, j1.1, id, p.s2, p.made2);
    Build(j2.0, p.newEdges, j2.1, p.ecount, id + 1, b.cavityEdges + [e], b.newTris + [id])
  }

  /** The state after the given sides, one step each in order. */
  function Steps(b: Build, seed: Vertex, sides: seq<Side>): (r: Build)
    requires Ready(b) && AllAcross(sides, b.tris)
    ensures Ready(r) && b.tris.Keys <= r.tris.Keys
  {
    if |sides| == 0 then b
    else
      var n := |sides| - 1;
      assert forall i :: 0 <= i < n ==> sides[..n][i] == sides[i];
      var prev := Steps(b, seed, sides[..n]);
      assert Across(sides[n], prev.tris) by {
        assert Across(sides[n], b.tris);
      }
      Step(prev, seed, sides[n])
  }

  /** The state before the first side: empty tables and lists, the counters as given. */
  function Start(tris: Arena, ecount: nat, tcount: nat): Build
  {
    Build(tris, map[], map[], ecount, tcount, [], [])
  }

  /** One more side is one more step. */
  lemma StepsSnoc(b: Build, seed: Vertex, sides: seq<Side>, s: Side)
    requires Ready(b) && AllAcross(sides + [s], b.tris)
    ensures AllAcross(sides, b.tris)
    ensures Steps(b, seed, sides + [s]) == Step(Steps(b, seed, sides), seed, s)
  {
    assert (sides + [s])[..|sides|] == sides;
    assert forall i :: 0 <= i < |sides| ==> sides[i] == (sides + [s])[i];
  }

  lemma AllAcrossAppend(a: seq<Side>, c: seq<Side>, tris: Arena)
    ensures AllAcross(a + c, tris) <==> AllAcross(a, tris) && AllAcross(c, tris)
  {
    assert forall i :: 0 <= i < |a| ==> (a + c)[i] == a[i];
    assert forall i :: 0 <= i < |c| ==> (a + c)[|a| + i] == c[i];
  }

  /** The sides of a triangle that links into the arena lie against the arena. */
  lemma {:induction false} SidesAcross(t: Tri, cavity: seq<nat>, j: nat, tris: Arena)
    requires Keyed(t) && j <= 3 && LinksInto(t, tris)
    ensures AllAcross(SidesOf(t, cavity, j), tris)
  {
    if j > 0 {
      SidesAcross(t, cavity, j - 1, tris);
      var e := t.edges[j - 1];
      AllAcrossAppend(SidesOf(t, cavity, j - 1), if Closes(t.links[e.id], cavity) then [Side(e, t.links[e.id])] else [], tris);
    }
  }

  lemma {:induction false} BoundaryAcross(tris: Arena, cavity: seq<nat>, k: nat)
    requires Closed(tris) && CavityIn(tris, cavity) && k <= |cavity|
    ensures AllAcross(Boundary(tris, cavity, k), tris)
  {
    if k > 0 {
      BoundaryAcross(tris, cavity, k - 1);
      SidesAcross(tris[cavity[k - 1]], cavity, 3, tris);
      AllAcrossAppend(Boundary(tris, cavity, k - 1), SidesOf(tris[cavity[k - 1]], cavity, 3), tris);
    }
  }

  /** `Step` spelled out from its intermediate states. */
  lemma StepUnfolds(b: Build, seed: Vertex, s: Side, tr1: Arena, j1: (Arena, map<nat, nat>), j2: (Arena, map<nat, nat>))
    requires Ready(b) && Across(s, b.tris)
    requires var p := MakeSpokes(b.newEdges, b.ecount, seed, s.edge);
      var tr0 := b.tris[b.tcount := NewTri(b.tcount, seed, s, p)];
      tr1 == (if s.across.Some? then tr0[s.across.value := SetNeighbour(tr0[s.across.value], s.edge, Some(b.tcount))] else tr0) &&
      j1 == Join(tr1, b.owner, b.tcount, p.s1, p.made1) &&
      j2 == Join(j1.0, j1.1, b.tcount, p.s2, p.made2)
    ensures var p := MakeSpokes(b.newEdges, b.ecount, seed, s.edge);
      Step(b, seed, s) == Build(j2.0, p.newEdges, j2.1, p.ecount, b.tcount + 1, b.cavityEdges + [s.edge], b.newTris + [b.tcount])
  {
  }

  /** The handling of one seed edge of new triangle `id` in `_addSeed`. */
  method JoinSpoke(tris: Arena, owner: map<nat, nat>, id: nat, spoke: Edge, made: bool)
    returns (tris': Arena, owner': map<nat, nat>)
    requires id in tris && (!made ==> spoke.id in owner && owner[spoke.id] in tris)
    ensures (tris', owner') == Join(tris, owner, id, spoke, made)
  {
    tris', owner' := tris, owner;
    if made {
      owner' := owner'[spoke.id := id];
    } else {
      var n := owner'[spoke.id];
      tris' := tris'[id := SetNeighbour(tris'[id], spoke, Some(n))];
      tris' := tris'[n := SetNeighbour(tris'[n], spoke, Some(id))];
    }
  }

  /** The first half of `_addSeed`'s inner loop for a boundary side: the
      seed edges are looked up or made, the new triangle is made and the old
      neighbour is pointed at it. */
  method MakeTriangle(b: Build, seed: Vertex, side: Side, ef: EdgeFactory, tf: TriangleFactory)
    returns (nt: Tri, newEdges': map<nat, Edge>, tris': Arena)
    requires ef.Valid() && tf.Valid() && b.ecount == ef.count && b.tcount == tf.count
    requires Across(side, b.tris)
    modifies ef, tf
    ensures ef.Valid() && tf.Valid() && tf.count == b.tcount + 1
    ensures var p := MakeSpokes(b.newEdges, b.ecount, seed, side.edge);
      var tr0 := b.tris[b.tcount := NewTri(b.tcount, seed, side, p)];
      ef.count == p.ecount && newEdges' == p.newEdges && nt == NewTri(b.tcount, seed, side, p) &&
      tris' == (if side.across.Some? then tr0[side.across.value := SetNeighbour(tr0[side.across.value], side.edge, Some(b.tcount))] else tr0)
  {
    ghost var p := MakeSpokes(b.newEdges, b.ecount, seed, side.edge);
    var e, neighbour := side.edge, side.across;
    newEdges' := b.newEdges;
    var s1, s2: Edge;
    if e.v1.id !in b.newEdges {
      s1 := ef.Create(seed, e.v1);
      newEdges' := newEdges'[e.v1.id := s1];
    } else {
      s1 := newEdges'[e.v1.id];
    }
    if e.v2.id !in b.newEdges {
      s2 := ef.Create(e.v2, seed);
      newEdges' := newEdges'[e.v2.id := s2];
    } else {
      s2 := newEdges'[e.v2.id];
    }
    assert p == Spokes(s1, s2, e.v1.id !in b.newEdges, e.v2.id !in b.newEdges, newEdges', ef.count);
    nt := tf.Create([seed, e.v1, e.v2], [s1, e, s2], [None, neighbour, None]);
    Links3(s1, e, s2, None, neighbour, None);
    tris' := b.tris[nt.id := nt];
    if neighbour.Some? {
      tris' := tris'[neighbour.value := SetNeighbour(tris'[neighbour.value], e, Some(nt.id))];
    }
  }

  /** The body of `_addSeed`'s inner loop for a boundary side, on the
      insertion's locals `b`: the state afterwards is one `Step` on. */
  method InsertSide(b: Build, live: seq<nat>, seed: Vertex, side: Side, ef: EdgeFactory, tf: TriangleFactory)
    returns (b': Build, live': seq<nat>)
    requires ef.Valid() && tf.Valid() && b.ecount == ef.count && b.tcount == tf.count
    requires Ready(b) && Across(side, b.tris)
    modifies ef, tf
    ensures ef.Valid() && tf.Valid() && b'.ecount == ef.count && b'.tcount == tf.count
    ensures b' == Step(b, seed, side)
    ensures live' == live + [b.tcount]
  {
    var made1, made2 := side.edge.v1.id !in b.newEdges, side.edge.v2.id !in b.newEdges;
    var nt, newEdges', tris' := MakeTriangle(b, seed, side, ef, tf);
    ghost var tr1 := tris';
    var owner': map<nat, nat>;
    tris', owner' := JoinSpoke(tris', b.owner, nt.id, nt.edges[0], made1);
    ghost var j1 := (tris', owner');
    tris', owner' := JoinSpoke(tris', owner', nt.id, nt.edges[2], made2);
    ghost var j2 := (tris', owner');
    b' := Build(tris', newEdges', owner', ef.count, tf.count, b.cavityEdges + [side.edge], b.newTris + [nt.id]);
    live' := live + [nt.id];
    StepUnfolds(b, seed, side, tr1, j1, j2);
  }

  lemma AllAcrossGrow(sides: seq<Side>, t1: Arena, t2: Arena)
    requires AllAcross(sides, t1) && t1.Keys <= t2.Keys
    ensures AllAcross(sides, t2)
  {
    assert forall i :: 0 <= i < |sides| ==> Across(sides[i], t1);
  }

  /** Steps over two lists in a row are steps over their concatenation. */
  lemma {:induction false} StepsAppend(b: Build, seed: Vertex, a: seq<Side>, c: seq<Side>)
    requires Ready(b) && AllAcross(a + c, b.tris)
    ensures AllAcross(a, b.tris) && AllAcross(c, Steps(b, seed, a).tris)
    ensures Steps(b, seed, a + c) == Steps(Steps(b, seed, a), seed, c)
    decreases |c|
  {
    AllAcrossAppend(a, c, b.tris);
    var m := Steps(b, seed, a);
    AllAcrossGrow(c, b.tris, m.tris);
    if |c| == 0 {
      assert a + c == a;
    } else {
      var n := |c| - 1;
      var c', x := c[..n], c[n];
      assert c == c' + [x];
      assert a + c == (a + c') + [x];
      StepsSnoc(b, seed, a + c', x);
      StepsAppend(b, seed, a, c');
      StepsSnoc(m, seed, c', x);
    }
  }

  /** Pushing onto the live list pushes onto its new triangles. */
  lemma PushAssoc(base: seq<nat>, xs: seq<nat>, x: nat)
    ensures (base + xs) + [x] == base + (xs + [x])
  {
  }

  /** One more edge of a cavity triangle: a boundary side is one more step,
      any other edge none. */
  lemma SidesNext(t: Tri, cavity: seq<nat>, j: nat, b: Build, seed: Vertex)
    requires Keyed(t) && j < 3 && LinksInto(t, b.tris) && Ready(b)
    ensures AllAcross(SidesOf(t, cavity, j), b.tris) && AllAcross(SidesOf(t, cavity, j + 1), b.tris)
    ensures var e := t.edges[j];
      var n := t.links[e.id];
      if Closes(n, cavity) then
        Across(Side(e, n), Steps(b, seed, SidesOf(t, cavity, j)).tris) &&
        Steps(b, seed, SidesOf(t, cavity, j + 1)) == Step(Steps(b, seed, SidesOf(t, cavity, j)), seed, Side(e, n))
      else Steps(b, seed, SidesOf(t, cavity, j + 1)) == Steps(b, seed, SidesOf(t, cavity, j))
  {
    SidesAcross(t, cavity, j, b.tris);
    SidesAcross(t, cavity, j + 1, b.tris);
    var e := t.edges[j];
    var n := t.links[e.id];
    if Closes(n, cavity) {
      var side := Side(e, n);
      assert SidesOf(t, cavity, j + 1) == SidesOf(t, cavity, j) + [side];
      StepsSnoc(b, seed, SidesOf(t, cavity, j), side);
      AllAcrossAppend(SidesOf(t, cavity, j), [side], b.tris);
    }
  }

  /** The inner loop of `_addSeed` over the three edges of one cavity
      triangle `t`, and the pushes of its new triangles onto the live list. */
  method InsertTriangle(t: Tri, cavity: seq<nat>, b: Build, live: seq<nat>, ghost base: seq<nat>,
                        seed: Vertex, ef: EdgeFactory, tf: TriangleFactory)
    returns (b': Build, live': seq<nat>)
    requires Keyed(t) && LinksInto(t, b.tris) && Ready(b) && live == base + b.newTris
    requires ef.Valid() && tf.Valid() && b.ecount == ef.count && b.tcount == tf.count
    modifies ef, tf
    ensures ef.Valid() && tf.Valid() && b'.ecount == ef.count && b'.tcount == tf.count
    ensures AllAcross(SidesOf(t, cavity, 3), b.tris)
    ensures b' == Steps(b, seed, SidesOf(t, cavity, 3))
    ensures live' == base + b'.newTris
  {
    SidesAcross(t, cavity, 3, b.tris);
    b', live' := b, live;
    for j := 0 to 3
      invariant AllAcross(SidesOf(t, cavity, j), b.tris)
      invariant b' == Steps(b, seed, SidesOf(t, cavity, j))
      invariant live' == base + b'.newTris
      invariant ef.Valid() && tf.Valid() && b'.ecount == ef.count && b'.tcount == tf.count
    {
      var e := t.edges[j];
      var neighbour := GetNeighbour(t, e);
      SidesNext(t, cavity, j, b, seed);
      if Closes(neighbour, cavity) {
        ghost var before := b'.newTris;
        b', live' := InsertSide(b', live', seed, Side(e, neighbour), ef, tf);
        PushAssoc(base, before, b'.newTris[|b'.newTris| - 1]);
      }
    }
  }

  /** One more cavity triangle: its boundary sides are steps after those of
      the triangles before it. */
  lemma BoundaryNext(tris: Arena, cavity: seq<nat>, i: nat, b0: Build, seed: Vertex)
    requires Closed(tris) && CavityIn(tris, cavity) && i < |cavity| && Ready(b0) && b0.tris == tris
    ensures AllAcross(Boundary(tris, cavity, i), tris) && AllAcross(Boundary(tris, cavity, i + 1), tris)
    ensures Keyed(tris[cavity[i]]) && LinksInto(tris[cavity[i]], tris)
    ensures LinksInto(tris[cavity[i]], Steps(b0, seed, Boundary(tris, cavity, i)).tris)
    ensures AllAcross(SidesOf(tris[cavity[i]], cavity, 3), Steps(b0, seed, Boundary(tris, cavity, i)).tris)
    ensures Steps(b0, seed, Boundary(tris, cavity, i + 1))
         == Steps(Steps(b0, seed, Boundary(tris, cavity, i)), seed, SidesOf(tris[cavity[i]], cavity, 3))
  {
    var t := tris[cavity[i]];
    BoundaryAcross(tris, cavity, i + 1);
    BoundaryAcross(tris, cavity, i);
    SidesAcross(t, cavity, 3, tris);
    var done := Boundary(tris, cavity, i);
    assert Boundary(tris, cavity, i + 1) == done + SidesOf(t, cavity, 3);
    StepsAppend(b0, seed, done, SidesOf(t, cavity, 3));
  }

  lemma LinksGrow(t: Tri, t1: Arena, t2: Arena)
    requires LinksInto(t, t1) && t1.Keys <= t2.Keys
    ensures LinksInto(t, t2)
  {
  }

  /** The state after the boundary sides of the first `k` cavity triangles,
      triangle by triangle. */
  function Inserted(tris: Arena, cavity: seq<nat>, seed: Vertex, E0: nat, T0: nat, k: nat): (r: Build)
    requires Closed(tris) && CavityIn(tris, cavity) && k <= |cavity|
    ensures Ready(r) && tris.Keys <= r.tris.Keys
  {
    if k == 0 then Start(tris, E0, T0)
    else
      var prev := Inserted(tris, cavity, seed, E0, T0, k - 1);
      var t := tris[cavity[k - 1]];
      LinksGrow(t, tris, prev.tris);
      SidesAcross(t, cavity, 3, prev.tris);
      Steps(prev, seed, SidesOf(t, cavity, 3))
  }

  /** Triangle by triangle is side by side along the boundary. */
  lemma {:induction false} InsertedBoundary(tris: Arena, cavity: seq<nat>, seed: Vertex, E0: nat, T0: nat, k: nat)
    requires Closed(tris) && CavityIn(tris, cavity) && k <= |cavity|
    ensures AllAcross(Boundary(tris, cavity, k), tris)
    ensures Inserted(tris, cavity, seed, E0, T0, k) == Steps(Start(tris, E0, T0), seed, Boundary(tris, cavity, k))
  {
    if k == 0 {
    } else {
      InsertedBoundary(tris, cavity, seed, E0, T0, k - 1);
      BoundaryNext(tris, cavity, k - 1, Start(tris, E0, T0), seed);
    }
  }

  /** The outer loop of `_addSeed`: for each cavity triangle in turn and each
      of its edges, a boundary edge gets a new triangle (see `Step`) pushed
      onto the live list. Cavity triangles are read as they were when the
      cavity was identified. */
  method InsertCavity(tris: Arena, live: seq<nat>, cavity: seq<nat>, seed: Vertex,
                      ef: EdgeFactory, tf: TriangleFactory)
    returns (b: Build, live': seq<nat>)
    requires Closed(tris) && CavityIn(tris, cavity)
    requires ef.Valid() && tf.Valid()
    modifies ef, tf
    ensures ef.Valid() && tf.Valid() && b.ecount == ef.count && b.tcount == tf.count
    ensures b == Inserted(tris, cavity, seed, old(ef.count), old(tf.count), |cavity|)
    ensures live' == live + b.newTris
  {
    b := Start(tris, ef.count, tf.count);
    live' := live;
    for i := 0 to |cavity|
      invariant b == Inserted(tris, cavity, seed, old(ef.count), old(tf.count), i)
      invariant live' == live + b.newTris
      invariant ef.Valid() && tf.Valid() && b.ecount == ef.count && b.tcount == tf.count
    {
      var t := tris[cavity[i]];
      LinksGrow(t, tris, b.tris);
      ghost var prev := b;
      b, live' := InsertTriangle(t, cavity, b, live', live, seed, ef, tf);
      assert b == Steps(prev, seed, SidesOf(t, cavity, 3));
      assert prev == Inserted(tris, cavity, seed, old(ef.count), old(tf.count), i);
      assert b == Inserted(tris, cavity, seed, old(ef.count), old(tf.count), i + 1);
    }
  }

  /** `_addSeed`: the new triangles over the cavity boundary, then the cavity
      triangles deleted from the live list. From a closed arena whose ids are
      below the counters: one new triangle per boundary side, numbered on
      from the triangle counter and shaped after its side; old triangles only
      relinked to the new ones; the arena still closed and below the
      counters; and, for an increasing live list holding the cavity, the
      cavity gone from it and the new triangles appended in order. */
  method AddSeed(tris: Arena, live: seq<nat>, cavity: seq<nat>, seed: Vertex,
                 ef: EdgeFactory, tf: TriangleFactory)
    returns (tris': Arena, live': seq<nat>, cavityEdges: seq<Edge>, newTris: seq<nat>)
    requires Closed(tris) && CavityIn(tris, cavity)
    requires ef.Valid() && tf.Valid() && Fresh(tris, tf.count, ef.count)
    modifies ef, tf
    ensures ef.Valid() && tf.Valid()
    ensures AllAcross(Boundary(tris, cavity, |cavity|), tris)
    ensures var r := Steps(Start(tris, old(ef.count), old(tf.count)), seed, Boundary(tris, cavity, |cavity|));
      tris' == r.tris && cavityEdges == r.cavityEdges && newTris == r.newTris &&
      ef.count == r.ecount && tf.count == r.tcount
    ensures live' == DeleteAll(live + newTris, cavity)
    ensures Rebuilt(Steps(Start(tris, old(ef.count), old(tf.count)), seed, Boundary(tris, cavity, |cavity|)),
                    tris, cavity, seed, old(ef.count), old(tf.count))
    ensures Increasing(live) && KeyedIn(live, tris) && Increasing(cavity) && (forall x :: x in cavity ==> x in live) ==>
      live' == Without(live, Elems(cavity)) + newTris && Increasing(live')
  {
    ghost var E0, T0 := ef.count, tf.count;
    Insertion(tris, cavity, seed, E0, T0);
    var b, all := InsertCavity(tris, live, cavity, seed, ef, tf);
    tris', cavityEdges, newTris := b.tris, b.cavityEdges, b.newTris;
    live' := DeleteTriangles(all, cavity);
    LiveAfterIf(tris, live, cavity, T0, E0, newTris);
  }

  // ---------------------------------------------------------------------
  // What the steps build

  /** `sp` joins the seed and a vertex with id `k`, in either direction. */
  predicate SpokeOf(sp: Edge, seed: Vertex, k: nat)
  {
    (sp.v1 == seed && sp.v2.id == k) || (sp.v2 == seed && sp.v1.id == k)
  }

  /** The bookkeeping of an insertion that started from arena `tris0` with
      counters `E0` and `T0`: new triangle ids run from `T0` up, the table
      of new edges holds seed edges with distinct new ids, each filed under
      its far vertex, and each made by a new triangle. */
  predicate Inv(b: Build, tris0: Arena, T0: nat, E0: nat, seed: Vertex)
  {
    T0 <= b.tcount && E0 <= b.ecount &&
    (forall k :: k in b.tris ==> k in tris0 || T0 <= k < b.tcount) &&
    (forall k :: k in b.owner ==> T0 <= b.owner[k] < b.tcount) &&
    Table(b.newEdges, seed, E0, b.ecount)
  }

  /** No two vertices share a seed edge. */
  predicate Injective(m: map<nat, Edge>)
  {
    forall k1, k2 :: k1 in m && k2 in m && k1 != k2 ==> m[k1].id != m[k2].id
  }

  /** Filing an edge with an id above all others keeps the table injective. */
  lemma FileFresh(m: map<nat, Edge>, k: nat, sp: Edge)
    requires Injective(m) && forall q :: q in m ==> m[q].id < sp.id
    ensures Injective(m[k := sp])
  {
  }

  /** The seed edges of a step: each is the one `newEdges` already files
      under that vertex, or a fresh edge with the next id from the seed to
      it; afterwards both endpoints of `e` have a seed edge filed, the one
      made last for `e.v2` winning when the two ids coincide. */
  lemma SpokesChosen(newEdges: map<nat, Edge>, ecount: nat, seed: Vertex, e: Edge)
    ensures var p := MakeSpokes(newEdges, ecount, seed, e);
      (p.made1 <==> e.v1.id !in newEdges) && (p.made2 <==> e.v2.id !in newEdges) &&
      p.s1 == (if p.made1 then Edge(ecount, seed, e.v1) else newEdges[e.v1.id]) &&
      p.s2 == (if p.made2 then Edge(if p.made1 then ecount + 1 else ecount, e.v2, seed) else newEdges[e.v2.id]) &&
      p.ecount == ecount + (if p.made1 then 1 else 0) + (if p.made2 then 1 else 0) &&
      p.newEdges.Keys == newEdges.Keys + {e.v1.id, e.v2.id} &&
      p.newEdges[e.v2.id] == p.s2 && (e.v1.id != e.v2.id ==> p.newEdges[e.v1.id] == p.s1) &&
      forall k :: k in newEdges && k != e.v1.id && k != e.v2.id ==> p.newEdges[k] == newEdges[k]
  {
  }

  /** Old arena ids are below the new ones. */
  predicate Below(tris0: Arena, T0: nat)
  {
    forall k :: k in tris0 ==> k < T0
  }

  /** The parts of a step's result, by the pieces it is made of. */
  lemma StepParts(b: Build, seed: Vertex, s: Side)
    requires Ready(b) && Across(s, b.tris)
    ensures var p := MakeSpokes(b.newEdges, b.ecount, seed, s.edge);
      var r := Step(b, seed, s);
      r.newEdges == p.newEdges && r.ecount == p.ecount &&
      r.owner.Keys == b.owner.Keys + (if p.made1 then {p.s1.id} else {}) + (if p.made2 then {p.s2.id} else {}) &&
      forall k :: k in r.owner ==> r.owner[k] == (if (p.made1 && k == p.s1.id) || (p.made2 && k == p.s2.id) then b.tcount else b.owner[k])
  {
  }

  /** The seed-edge table of an insertion: seed edges with ids in
      `[E0, ecount)`, each filed under its far vertex, no two alike. */
  predicate Table(m: map<nat, Edge>, seed: Vertex, E0: nat, ecount: nat)
  {
    (forall k :: k in m ==> E0 <= m[k].id < ecount && SpokeOf(m[k], seed, k)) && Injective(m)
  }

  /** Choosing the seed edges of a step keeps the table well formed, and
      both chosen edges are in it afterwards. */
  lemma SpokesTable(m: map<nat, Edge>, ecount: nat, seed: Vertex, e: Edge, E0: nat)
    requires Table(m, seed, E0, ecount) && E0 <= ecount
    ensures var p := MakeSpokes(m, ecount, seed, e);
      Table(p.newEdges, seed, E0, p.ecount) && ecount <= p.ecount &&
      E0 <= p.s1.id < p.ecount && E0 <= p.s2.id < p.ecount &&
      SpokeOf(p.s1, seed, e.v1.id) && SpokeOf(p.s2, seed, e.v2.id)
  {
    SpokesChosen(m, ecount, seed, e);
    var p := MakeSpokes(m, ecount, seed, e);
    var m1 := if p.made1 then m[e.v1.id := p.s1] else m;
    var c1 := if p.made1 then ecount + 1 else ecount;
    if p.made1 {
      FileFresh(m, e.v1.id, p.s1);
    }
    assert Table(m1, seed, E0, c1);
    if p.made2 {
      FileFresh(m1, e.v2.id, p.s2);
      assert p.newEdges == m1[e.v2.id := p.s2];
    } else {
      assert p.newEdges == m1;
    }
  }

  /** A step keeps the bookkeeping invariant. */
  lemma StepInv(b: Build, seed: Vertex, s: Side, tris0: Arena, T0: nat, E0: nat)
    requires Ready(b) && Across(s, b.tris) && Inv(b, tris0, T0, E0, seed)
    ensures Inv(Step(b, seed, s), tris0, T0, E0, seed)
  {
    StepParts(b, seed, s);
    SpokesTable(b.newEdges, b.ecount, seed, s.edge, E0);
  }

  /** A join changes only the new triangle and the one that made the edge. */
  lemma JoinElsewhere(tris: Arena, owner: map<nat, nat>, id: nat, spoke: Edge, made: bool, k: nat)
    requires id in tris && (!made ==> spoke.id in owner && owner[spoke.id] in tris)
    requires k in tris && k != id && (!made ==> k != owner[spoke.id])
    ensures Join(tris, owner, id, spoke, made).0[k] == tris[k]
  {
  }

  /** A step changes a triangle of the old arena only by pointing it, across
      the side's edge, at the new triangle when it is the one across. */
  lemma StepOld(b: Build, seed: Vertex, s: Side, tris0: Arena, T0: nat, E0: nat, k: nat)
    requires Ready(b) && Across(s, b.tris) && Inv(b, tris0, T0, E0, seed)
    requires k in b.tris && k < T0
    ensures Step(b, seed, s).tris[k]
         == if s.across == Some(k) then SetNeighbour(b.tris[k], s.edge, Some(b.tcount)) else b.tris[k]
  {
    var e := s.edge;
    var p := MakeSpokes(b.newEdges, b.ecount, seed, e);
    var id := b.tcount;
    var tr0 := b.tris[id := NewTri(id, seed, s, p)];
    var tr1 := if s.across.Some? then tr0[s.across.value := SetNeighbour(tr0[s.across.value], e, Some(id))] else tr0;
    var j1 := Join(tr1, b.owner, id, p.s1, p.made1);
    var j2 := Join(j1.0, j1.1, id, p.s2, p.made2);
    assert tr1[k] == if s.across == Some(k) then SetNeighbour(b.tris[k], e, Some(id)) else b.tris[k];
    JoinElsewhere(tr1, b.owner, id, p.s1, p.made1, k);
    JoinElsewhere(j1.0, j1.1, id, p.s2, p.made2, k);
    assert Step(b, seed, s).tris == j2.0;
  }

  /** `t2` is `t1` with at most its links at edge ids `E0` and above changed. */
  predicate SameBelow(t1: Tri, t2: Tri, E0: nat)
  {
    t2.id == t1.id && t2.vertices == t1.vertices && t2.edges == t1.edges &&
    t1.links.Keys <= t2.links.Keys &&
    forall q :: q in t1.links && q < E0 ==> t2.links[q] == t1.links[q]
  }

  /** Setting a link across an edge with a new id changes nothing below `E0`. */
  lemma SetAbove(t: Tri, sp: Edge, n: Option<nat>, E0: nat)
    requires E0 <= sp.id
    ensures SameBelow(t, SetNeighbour(t, sp, n), E0)
  {
  }

  /** A join touches links at its seed edge's id only. */
  lemma JoinAbove(tris: Arena, owner: map<nat, nat>, id: nat, spoke: Edge, made: bool, k: nat, E0: nat)
    requires id in tris && (!made ==> spoke.id in owner && owner[spoke.id] in tris)
    requires k in tris && E0 <= spoke.id
    ensures SameBelow(tris[k], Join(tris, owner, id, spoke, made).0[k], E0)
  {
    if !made {
      var n := owner[spoke.id];
      var t1 := tris[id := SetNeighbour(tris[id], spoke, Some(n))];
      SetAbove(tris[id], spoke, Some(n), E0);
      SetAbove(t1[n], spoke, Some(id), E0);
    }
  }

  /** A step leaves the triangles of earlier steps as they were, except for
      links across seed edges. */
  lemma StepKeepsNew(b: Build, seed: Vertex, s: Side, tris0: Arena, T0: nat, E0: nat, k: nat)
    requires Ready(b) && Across(s, b.tris) && Inv(b, tris0, T0, E0, seed)
    requires Below(tris0, T0) && (s.across.Some? ==> s.across.value in tris0)
    requires k in b.tris && T0 <= k
    ensures SameBelow(b.tris[k], Step(b, seed, s).tris[k], E0)
  {
    var e := s.edge;
    SpokesTable(b.newEdges, b.ecount, seed, e, E0);
    var p := MakeSpokes(b.newEdges, b.ecount, seed, e);
    var id := b.tcount;
    var tr0 := b.tris[id := NewTri(id, seed, s, p)];
    var tr1 := if s.across.Some? then tr0[s.across.value := SetNeighbour(tr0[s.across.value], e, Some(id))] else tr0;
    var j1 := Join(tr1, b.owner, id, p.s1, p.made1);
    var j2 := Join(j1.0, j1.1, id, p.s2, p.made2);
    assert tr1[k] == b.tris[k];
    JoinAbove(tr1, b.owner, id, p.s1, p.made1, k, E0);
    JoinAbove(j1.0, j1.1, id, p.s2, p.made2, k, E0);
    assert Step(b, seed, s).tris == j2.0;
  }

  /** The neighbour map of a triangle built over three edges. */
  lemma Links3(a: Edge, c: Edge, d: Edge, x: Option<nat>, y: Option<nat>, z: Option<nat>)
    ensures Links([a, c, d], [x, y, z]) == map[a.id := x][c.id := y][d.id := z]
  {
    assert [a][..0] == [] && [x][..0] == [];
    assert Links([a], [x]) == map[a.id := x];
    assert [a, c][..1] == [a] && [x, y][..1] == [x];
    assert Links([a, c], [x, y]) == map[a.id := x][c.id := y];
    assert [a, c, d][..2] == [a, c] && [x, y, z][..2] == [x, y];
  }

  /** The shape of the new triangle for side `s` made as triangle `id`:
      vertices [seed, e.v1, e.v2]; edges [a seed edge to e.v1, e, a seed
      edge from e.v2], both new; neighbour `across` over `e`; the
      circumcircle of its vertices. */
  predicate Shaped(t: Tri, id: nat, seed: Vertex, s: Side, E0: nat)
  {
    t.id == id && Keyed(t) && t.vertices == [seed, s.edge.v1, s.edge.v2] &&
    t.edges[1] == s.edge && s.edge.id in t.links && t.links[s.edge.id] == s.across &&
    E0 <= t.edges[0].id && E0 <= t.edges[2].id &&
    SpokeOf(t.edges[0], seed, s.edge.v1.id) && SpokeOf(t.edges[2], seed, s.edge.v2.id)
  }

  /** A new triangle has the shape of its side, and no neighbours across its
      seed edges. */
  lemma NewTriShaped(id: nat, seed: Vertex, s: Side, p: Spokes, E0: nat)
    requires s.edge.id < E0 && E0 <= p.s1.id && E0 <= p.s2.id
    requires SpokeOf(p.s1, seed, s.edge.v1.id) && SpokeOf(p.s2, seed, s.edge.v2.id)
    ensures var t := NewTri(id, seed, s, p);
      Shaped(t, id, seed, s, E0) && t.links[p.s1.id] == None && t.links[p.s2.id] == None
  {
  }

  lemma ShapedBelow(t1: Tri, t2: Tri, id: nat, seed: Vertex, s: Side, E0: nat)
    requires Shaped(t1, id, seed, s, E0) && SameBelow(t1, t2, E0) && s.edge.id < E0
    ensures Shaped(t2, id, seed, s, E0)
  {
  }

  /** The two seed edges of a step share an id only when both are reused. */
  lemma SpokesDistinct(m: map<nat, Edge>, ecount: nat, seed: Vertex, e: Edge, E0: nat)
    requires Table(m, seed, E0, ecount)
    ensures var p := MakeSpokes(m, ecount, seed, e);
      p.s1.id == p.s2.id ==> !p.made1 && !p.made2
  {
  }

  /** The two joins of a step, for a new triangle `id` with no neighbours
      across its seed edges yet. */
  lemma TwoJoins(tr: Arena, owner: map<nat, nat>, id: nat, s1: Edge, s2: Edge, made1: bool, made2: bool)
    requires id in tr && s1.id in tr[id].links && s2.id in tr[id].links
    requires tr[id].links[s1.id] == None && tr[id].links[s2.id] == None
    requires !made1 ==> s1.id in owner && owner[s1.id] in tr && owner[s1.id] != id
    requires !made2 ==> s2.id in owner && owner[s2.id] in tr && owner[s2.id] != id
    requires s1.id == s2.id ==> !made1 && !made2
    ensures var j1 := Join(tr, owner, id, s1, made1);
      var j2 := Join(j1.0, j1.1, id, s2, made2);
      (made1 ==> j2.0[id].links[s1.id] == None) &&
      (made2 ==> j2.0[id].links[s2.id] == None) &&
      (!made1 ==> j2.0[id].links[s1.id] == Some(owner[s1.id]) &&
                  j2.0[owner[s1.id]].links[s1.id] == Some(id)) &&
      (!made2 ==> j2.0[id].links[s2.id] == Some(owner[s2.id]) &&
                  j2.0[owner[s2.id]].links[s2.id] == Some(id))
  {
  }

  /** The triangle a step makes has the shape of its side. */
  lemma StepShape(b: Build, seed: Vertex, s: Side, tris0: Arena, T0: nat, E0: nat)
    requires Ready(b) && Across(s, b.tris) && Inv(b, tris0, T0, E0, seed)
    requires Below(tris0, T0) && s.edge.id < E0
    ensures var p := MakeSpokes(b.newEdges, b.ecount, seed, s.edge);
      var r := Step(b, seed, s);
      Shaped(r.tris[b.tcount], b.tcount, seed, s, E0) &&
      r.tris[b.tcount].edges == [p.s1, s.edge, p.s2]
  {
    var e := s.edge;
    SpokesTable(b.newEdges, b.ecount, seed, e, E0);
    var p := MakeSpokes(b.newEdges, b.ecount, seed, e);
    var id := b.tcount;
    var nt := NewTri(id, seed, s, p);
    NewTriShaped(id, seed, s, p, E0);
    assert id !in b.tris;
    var tr0 := b.tris[id := nt];
    var tr1 := if s.across.Some? then tr0[s.across.value := SetNeighbour(tr0[s.across.value], e, Some(id))] else tr0;
    assert tr1[id] == nt;
    var j1 := Join(tr1, b.owner, id, p.s1, p.made1);
    var j2 := Join(j1.0, j1.1, id, p.s2, p.made2);
    assert Step(b, seed, s).tris == j2.0;
    JoinAbove(tr1, b.owner, id, p.s1, p.made1, id, E0);
    JoinAbove(j1.0, j1.1, id, p.s2, p.made2, id, E0);
    ShapedBelow(nt, j1.0[id], id, seed, s, E0);
    ShapedBelow(j1.0[id], j2.0[id], id, seed, s, E0);
  }

  /** A seed edge a step makes is recorded as the new triangle's and has no
      neighbour yet; across a reused one, the new triangle and the triangle
      that made it point at each other. */
  lemma StepJoins(b: Build, seed: Vertex, s: Side, tris0: Arena, T0: nat, E0: nat)
    requires Ready(b) && Across(s, b.tris) && Inv(b, tris0, T0, E0, seed)
    requires Below(tris0, T0) && s.edge.id < E0
    ensures var p := MakeSpokes(b.newEdges, b.ecount, seed, s.edge);
      var r := Step(b, seed, s);
      var id := b.tcount;
      id in r.tris && p.s1.id in r.tris[id].links && p.s2.id in r.tris[id].links &&
      (p.made1 ==> p.s1.id in r.owner && r.owner[p.s1.id] == id && r.tris[id].links[p.s1.id] == None) &&
      (p.made2 ==> p.s2.id in r.owner && r.owner[p.s2.id] == id && r.tris[id].links[p.s2.id] == None) &&
      (!p.made1 ==> p.s1.id in b.owner && r.tris[id].links[p.s1.id] == Some(b.owner[p.s1.id]) &&
                    b.owner[p.s1.id] in r.tris && p.s1.id in r.tris[b.owner[p.s1.id]].links &&
                    r.tris[b.owner[p.s1.id]].links[p.s1.id] == Some(id)) &&
      (!p.made2 ==> p.s2.id in b.owner && r.tris[id].links[p.s2.id] == Some(b.owner[p.s2.id]) &&
                    b.owner[p.s2.id] in r.tris && p.s2.id in r.tris[b.owner[p.s2.id]].links &&
                    r.tris[b.owner[p.s2.id]].links[p.s2.id] == Some(id))
  {
    var e := s.edge;
    var p := MakeSpokes(b.newEdges, b.ecount, seed, e);
    var id := b.tcount;
    var nt := NewTri(id, seed, s, p);
    var tr0 := b.tris[id := nt];
    var tr1 := if s.across.Some? then tr0[s.across.value := SetNeighbour(tr0[s.across.value], e, Some(id))] else tr0;
    var j1 := Join(tr1, b.owner, id, p.s1, p.made1);
    var j2 := Join(j1.0, j1.1, id, p.s2, p.made2);
    var r := Step(b, seed, s);
    assert r.tris == j2.0;
    assert id in tr1 && p.s1.id in tr1[id].links && p.s2.id in tr1[id].links &&
      tr1[id].links[p.s1.id] == None && tr1[id].links[p.s2.id] == None &&
      (!p.made1 ==> p.s1.id in b.owner && b.owner[p.s1.id] in tr1 && b.owner[p.s1.id] != id) &&
      (!p.made2 ==> p.s2.id in b.owner && b.owner[p.s2.id] in tr1 && b.owner[p.s2.id] != id) &&
      (p.s1.id == p.s2.id ==> !p.made1 && !p.made2) by {
      SpokesDistinct(b.newEdges, b.ecount, seed, e, E0);
      SpokesTable(b.newEdges, b.ecount, seed, e, E0);
      NewTriShaped(id, seed, s, p, E0);
      assert id !in b.tris;
      assert tr1[id] == nt;
    }
    TwoJoins(tr1, b.owner, id, p.s1, p.s2, p.made1, p.made2);
    assert (p.made1 ==> p.s1.id in r.owner && r.owner[p.s1.id] == id) &&
      (p.made2 ==> p.s2.id in r.owner && r.owner[p.s2.id] == id) by {
      StepParts(b, seed, s);
    }
  }

  // ---------------------------------------------------------------------
  // A whole insertion

  /** The sides of an insertion into `tris0`: across old triangles, over old edges. */
  predicate OldSides(sides: seq<Side>, tris0: Arena, E0: nat)
  {
    forall i :: 0 <= i < |sides| ==> Across(sides[i], tris0) && sides[i].edge.id < E0
  }

  lemma OldSidesPrefix(sides: seq<Side>, tris0: Arena, E0: nat, n: nat)
    requires OldSides(sides, tris0, E0) && n <= |sides|
    ensures OldSides(sides[..n], tris0, E0) && AllAcross(sides[..n], tris0)
  {
    assert forall i :: 0 <= i < n ==> sides[..n][i] == sides[i];
  }

  lemma OldSidesAcross(sides: seq<Side>, tris0: Arena, E0: nat)
    requires OldSides(sides, tris0, E0)
    ensures AllAcross(sides, tris0)
  {
  }

  /** After `m` of the steps over `sides`: one triangle made per side with
      ids `T0`, `T0 + 1`, ... in order, the cavity edges are the sides' edges
      in order, and the arena holds the old triangles and the new ones and
      nothing else. */
  ghost predicate Made(r: Build, tris0: Arena, T0: nat, sides: seq<Side>, m: nat)
    requires m <= |sides|
  {
    r.tcount == T0 + m && |r.newTris| == m && |r.cavityEdges| == m &&
    (forall j :: 0 <= j < m ==> r.newTris[j] == T0 + j && r.cavityEdges[j] == sides[j].edge) &&
    (forall k :: k in r.tris <==> k in tris0 || T0 <= k < T0 + m)
  }

  lemma MadePrefix(r: Build, tris0: Arena, T0: nat, sides: seq<Side>, m: nat)
    requires m <= |sides| && Made(r, tris0, T0, sides[..m], m)
    ensures Made(r, tris0, T0, sides, m)
  {
    assert forall j :: 0 <= j < m ==> sides[..m][j] == sides[j];
  }

  /** One step on, one more side is accounted for. */
  lemma CountStep(prev: Build, seed: Vertex, tris0: Arena, T0: nat, E0: nat, sides: seq<Side>)
    requires |sides| > 0 && Ready(prev) && Across(sides[|sides| - 1], prev.tris)
    requires Inv(prev, tris0, T0, E0, seed) && Made(prev, tris0, T0, sides, |sides| - 1)
    ensures var r := Step(prev, seed, sides[|sides| - 1]);
      Inv(r, tris0, T0, E0, seed) && Made(r, tris0, T0, sides, |sides|)
  {
    var n := |sides| - 1;
    var r := Step(prev, seed, sides[n]);
    StepInv(prev, seed, sides[n], tris0, T0, E0);
    forall j | 0 <= j < |sides|
      ensures r.newTris[j] == T0 + j && r.cavityEdges[j] == sides[j].edge
    {
      if j < n {
        assert r.newTris[j] == prev.newTris[j] && r.cavityEdges[j] == prev.cavityEdges[j];
      }
    }
    forall k
      ensures k in r.tris <==> k in tris0 || T0 <= k < T0 + |sides|
    {
      assert k in r.tris <==> k in prev.tris || k == prev.tcount;
    }
  }

  /** After the steps over `sides`: the bookkeeping invariant holds and every
      side has been accounted for (see `Made`). */
  lemma {:induction false} StepsCount(tris0: Arena, T0: nat, E0: nat, seed: Vertex, sides: seq<Side>)
    requires Below(tris0, T0) && OldSides(sides, tris0, E0)
    ensures AllAcross(sides, tris0)
    ensures var r := Steps(Start(tris0, E0, T0), seed, sides);
      Inv(r, tris0, T0, E0, seed) && Made(r, tris0, T0, sides, |sides|)
  {
    OldSidesAcross(sides, tris0, E0);
    if |sides| > 0 {
      var n := |sides| - 1;
      var b0 := Start(tris0, E0, T0);
      OldSidesPrefix(sides, tris0, E0, n);
      var prev := Steps(b0, seed, sides[..n]);
      assert Inv(prev, tris0, T0, E0, seed) && Made(prev, tris0, T0, sides, n) by {
        StepsCount(tris0, T0, E0, seed, sides[..n]);
        MadePrefix(prev, tris0, T0, sides, n);
      }
      assert Across(sides[n], prev.tris);
      CountStep(prev, seed, tris0, T0, E0, sides);
      assert Steps(b0, seed, sides) == Step(prev, seed, sides[n]);
    }
  }

  /** A step keeps the shape of an earlier new triangle. */
  lemma KeepShape(b: Build, seed: Vertex, s: Side, tris0: Arena, T0: nat, E0: nat, k: nat, side: Side)
    requires Ready(b) && Across(s, b.tris) && Inv(b, tris0, T0, E0, seed)
    requires Below(tris0, T0) && (s.across.Some? ==> s.across.value in tris0)
    requires k in b.tris && T0 <= k && side.edge.id < E0 && Shaped(b.tris[k], k, seed, side, E0)
    ensures k in Step(b, seed, s).tris && Shaped(Step(b, seed, s).tris[k], k, seed, side, E0)
  {
    StepKeepsNew(b, seed, s, tris0, T0, E0, k);
    ShapedBelow(b.tris[k], Step(b, seed, s).tris[k], k, seed, side, E0);
  }

  /** One step on, new triangle `T0 + j` has the shape of side `j`: made
      now when `j` is the last side, kept from before otherwise. */
  lemma ShapeAt(prev: Build, seed: Vertex, tris0: Arena, T0: nat, E0: nat, sides: seq<Side>, j: nat)
    requires j < |sides| && Ready(prev) && Across(sides[|sides| - 1], prev.tris)
    requires Inv(prev, tris0, T0, E0, seed) && Below(tris0, T0) && prev.tcount == T0 + |sides| - 1
    requires Across(sides[|sides| - 1], tris0) && sides[|sides| - 1].edge.id < E0 && sides[j].edge.id < E0
    requires j < |sides| - 1 ==> T0 + j in prev.tris && Shaped(prev.tris[T0 + j], T0 + j, seed, sides[j], E0)
    ensures var r := Step(prev, seed, sides[|sides| - 1]);
      T0 + j in r.tris && Shaped(r.tris[T0 + j], T0 + j, seed, sides[j], E0)
  {
    var n := |sides| - 1;
    if j < n {
      KeepShape(prev, seed, sides[n], tris0, T0, E0, T0 + j, sides[j]);
    } else {
      StepShape(prev, seed, sides[n], tris0, T0, E0);
    }
  }

  /** New triangle `T0 + j` has the shape of side `j` once all steps are
      done: later steps change its links across seed edges only. */
  lemma {:induction false} StepsShape(tris0: Arena, T0: nat, E0: nat, seed: Vertex, sides: seq<Side>, j: nat)
    requires Below(tris0, T0) && OldSides(sides, tris0, E0) && j < |sides|
    ensures AllAcross(sides, tris0)
    ensures var r := Steps(Start(tris0, E0, T0), seed, sides);
      T0 + j in r.tris && Shaped(r.tris[T0 + j], T0 + j, seed, sides[j], E0)
  {
    OldSidesAcross(sides, tris0, E0);
    var n := |sides| - 1;
    var b0 := Start(tris0, E0, T0);
    OldSidesPrefix(sides, tris0, E0, n);
    var prev := Steps(b0, seed, sides[..n]);
    assert Inv(prev, tris0, T0, E0, seed) && prev.tcount == T0 + n &&
      (j < n ==> T0 + j in prev.tris && Shaped(prev.tris[T0 + j], T0 + j, seed, sides[j], E0)) by {
      StepsCount(tris0, T0, E0, seed, sides[..n]);
      if j < n {
        StepsShape(tris0, T0, E0, seed, sides[..n], j);
        assert sides[..n][j] == sides[j];
      }
    }
    assert Across(sides[n], prev.tris);
    ShapeAt(prev, seed, tris0, T0, E0, sides, j);
    assert Steps(b0, seed, sides) == Step(prev, seed, sides[n]);
  }

  /** An old triangle `t` (id `k`) after the relinks of the steps over
      `sides`: each side across it points it, over that side's edge, at the
      side's new triangle. */
  function Relinked(t: Tri, k: nat, sides: seq<Side>, T0: nat): Tri
  {
    if |sides| == 0 then t
    else
      var n := |sides| - 1;
      var prev := Relinked(t, k, sides[..n], T0);
      if sides[n].across == Some(k) then SetNeighbour(prev, sides[n].edge, Some(T0 + n)) else prev
  }

  lemma RelinkedSnoc(t: Tri, k: nat, sides: seq<Side>, T0: nat)
    requires |sides| > 0
    ensures var n := |sides| - 1; var prev := Relinked(t, k, sides[..n], T0);
      Relinked(t, k, sides, T0) == if sides[n].across == Some(k) then SetNeighbour(prev, sides[n].edge, Some(T0 + n)) else prev
  {
  }

  /** One step on, an old triangle is relinked by one more side. */
  lemma OldStep(prev: Build, seed: Vertex, tris0: Arena, T0: nat, E0: nat, sides: seq<Side>, k: nat)
    requires |sides| > 0 && Ready(prev) && Across(sides[|sides| - 1], prev.tris)
    requires Inv(prev, tris0, T0, E0, seed) && Below(tris0, T0) && k in tris0
    requires k in prev.tris && prev.tris[k] == Relinked(tris0[k], k, sides[..|sides| - 1], T0)
    requires prev.tcount == T0 + |sides| - 1
    ensures var r := Step(prev, seed, sides[|sides| - 1]);
      k in r.tris && r.tris[k] == Relinked(tris0[k], k, sides, T0)
  {
    var n := |sides| - 1;
    var s := sides[n];
    var t := prev.tris[k];
    var u := if s.across == Some(k) then SetNeighbour(t, s.edge, Some(prev.tcount)) else t;
    assert Relinked(tris0[k], k, sides, T0) == u by {
      RelinkedSnoc(tris0[k], k, sides, T0);
    }
    assert Step(prev, seed, s).tris[k] == u by {
      StepOld(prev, seed, s, tris0, T0, E0, k);
    }
  }

  /** Old triangles end up relinked and otherwise untouched. */
  lemma {:induction false} StepsOld(tris0: Arena, T0: nat, E0: nat, seed: Vertex, sides: seq<Side>, k: nat)
    requires Below(tris0, T0) && OldSides(sides, tris0, E0) && k in tris0
    ensures AllAcross(sides, tris0)
    ensures var r := Steps(Start(tris0, E0, T0), seed, sides);
      k in r.tris && r.tris[k] == Relinked(tris0[k], k, sides, T0)
  {
    OldSidesAcross(sides, tris0, E0);
    if |sides| > 0 {
      var n := |sides| - 1;
      var b0 := Start(tris0, E0, T0);
      OldSidesPrefix(sides, tris0, E0, n);
      var prev := Steps(b0, seed, sides[..n]);
      assert Inv(prev, tris0, T0, E0, seed) && prev.tcount == T0 + n &&
        k in prev.tris && prev.tris[k] == Relinked(tris0[k], k, sides[..n], T0) by {
        StepsCount(tris0, T0, E0, seed, sides[..n]);
        MadePrefix(prev, tris0, T0, sides, n);
        StepsOld(tris0, T0, E0, seed, sides[..n], k);
      }
      assert Across(sides[n], prev.tris);
      OldStep(prev, seed, tris0, T0, E0, sides, k);
      assert Steps(b0, seed, sides) == Step(prev, seed, sides[n]);
    }
  }

  // ---------------------------------------------------------------------
  // The arena stays well formed

  /** The arena is closed and its counters are fresh. */
  predicate Sound(b: Build)
  {
    Closed(b.tris) && Fresh(b.tris, b.tcount, b.ecount)
  }

  /** Pointing a triangle of a closed arena at another of its triangles, or
      at none, keeps the arena closed and fresh. */
  lemma SetClosed(tris: Arena, k: nat, e: Edge, n: Option<nat>, tc: nat, ec: nat)
    requires Closed(tris) && k in tris && (n.Some? ==> n.value in tris)
    ensures Closed(tris[k := SetNeighbour(tris[k], e, n)])
    ensures tris[k := SetNeighbour(tris[k], e, n)].Keys == tris.Keys
    ensures Fresh(tris, tc, ec) ==> Fresh(tris[k := SetNeighbour(tris[k], e, n)], tc, ec)
  {
    GetSet(tris[k], e, e, n);
  }

  /** Filing a keyed triangle under its own id, linking into the enlarged
      arena, keeps the arena closed; with the next triangle id and edge ids
      below the new edge counter it keeps it fresh. */
  lemma AddClosed(tris: Arena, t: Tri, tc: nat, ec: nat, ec': nat)
    requires Closed(tris) && Keyed(t) && LinksInto(t, tris[t.id := t])
    ensures Closed(tris[t.id := t])
    ensures (Fresh(tris, tc, ec) && t.id == tc && ec <= ec' &&
             forall j :: 0 <= j < 3 ==> t.edges[j].id < ec') ==> Fresh(tris[t.id := t], tc + 1, ec')
  {
    var tris' := tris[t.id := t];
    forall id | id in tris && id != t.id
      ensures LinksInto(tris[id], tris')
    {
      LinksGrow(tris[id], tris, tris');
    }
  }

  /** A join keeps the arena closed and fresh and its ids as they were. */
  lemma JoinClosed(tris: Arena, owner: map<nat, nat>, id: nat, spoke: Edge, made: bool, tc: nat, ec: nat)
    requires Closed(tris) && id in tris && (!made ==> spoke.id in owner && owner[spoke.id] in tris)
    ensures var j := Join(tris, owner, id, spoke, made);
      Closed(j.0) && j.0.Keys == tris.Keys && (Fresh(tris, tc, ec) ==> Fresh(j.0, tc, ec))
  {
    if !made {
      var n := owner[spoke.id];
      SetClosed(tris, id, spoke, Some(n), tc, ec);
      var t1 := tris[id := SetNeighbour(tris[id], spoke, Some(n))];
      SetClosed(t1, n, spoke, Some(id), tc, ec);
    }
  }

  /** A step over a side whose edge is older than the edge counter keeps the
      arena closed and fresh. */
  lemma StepSound(b: Build, seed: Vertex, s: Side, tris0: Arena, T0: nat, E0: nat)
    requires Ready(b) && Across(s, b.tris) && Inv(b, tris0, T0, E0, seed)
    requires Sound(b) && s.edge.id < b.ecount
    ensures Sound(Step(b, seed, s))
  {
    var p := MakeSpokes(b.newEdges, b.ecount, seed, s.edge);
    var tr0 := b.tris[b.tcount := NewTri(b.tcount, seed, s, p)];
    var tr1 := if s.across.Some? then tr0[s.across.value := SetNeighbour(tr0[s.across.value], s.edge, Some(b.tcount))] else tr0;
    var j1 := Join(tr1, b.owner, b.tcount, p.s1, p.made1);
    var j2 := Join(j1.0, j1.1, b.tcount, p.s2, p.made2);
    StepPartsSound(b, seed, s, tris0, T0, E0, tr1, j1, j2);
    StepUnfolds(b, seed, s, tr1, j1, j2);
  }

  /** The intermediate arenas of a step, each closed and fresh in turn. */
  lemma StepPartsSound(b: Build, seed: Vertex, s: Side, tris0: Arena, T0: nat, E0: nat,
                       tr1: Arena, j1: (Arena, map<nat, nat>), j2: (Arena, map<nat, nat>))
    requires Ready(b) && Across(s, b.tris) && Inv(b, tris0, T0, E0, seed)
    requires Sound(b) && s.edge.id < b.ecount
    requires var p := MakeSpokes(b.newEdges, b.ecount, seed, s.edge);
      var tr0 := b.tris[b.tcount := NewTri(b.tcount, seed, s, p)];
      tr1 == (if s.across.Some? then tr0[s.across.value := SetNeighbour(tr0[s.across.value], s.edge, Some(b.tcount))] else tr0) &&
      j1 == Join(tr1, b.owner, b.tcount, p.s1, p.made1) &&
      j2 == Join(j1.0, j1.1, b.tcount, p.s2, p.made2)
    ensures Closed(j2.0) && Fresh(j2.0, b.tcount + 1, MakeSpokes(b.newEdges, b.ecount, seed, s.edge).ecount)
  {
    var e := s.edge;
    var p := MakeSpokes(b.newEdges, b.ecount, seed, e);
    FiledSound(b, seed, s, E0, tr1);
    SpokesChosen(b.newEdges, b.ecount, seed, e);
    JoinsSound(tr1, b.owner, b.tcount, p.s1, p.made1, p.s2, p.made2, b.tcount + 1, p.ecount, j1, j2);
  }

  /** The two joins of a step keep a closed, fresh arena so. */
  lemma JoinsSound(tr1: Arena, owner: map<nat, nat>, id: nat, s1: Edge, made1: bool, s2: Edge, made2: bool,
                   tc: nat, ec: nat, j1: (Arena, map<nat, nat>), j2: (Arena, map<nat, nat>))
    requires Closed(tr1) && Fresh(tr1, tc, ec) && id in tr1
    requires forall k :: k in owner ==> owner[k] in tr1
    requires (!made1 ==> s1.id in owner) && (!made2 ==> s2.id in owner)
    requires j1 == Join(tr1, owner, id, s1, made1)
    requires j2 == Join(j1.0, j1.1, id, s2, made2)
    ensures Closed(j2.0) && Fresh(j2.0, tc, ec)
  {
    JoinClosed(tr1, owner, id, s1, made1, tc, ec);
    JoinClosed(j1.0, j1.1, id, s2, made2, tc, ec);
  }

  /** The arena after the new triangle is filed and the old neighbour points
      at it is closed and fresh. */
  lemma FiledSound(b: Build, seed: Vertex, s: Side, E0: nat, tr1: Arena)
    requires Across(s, b.tris) && Sound(b) && s.edge.id < b.ecount
    requires Table(b.newEdges, seed, E0, b.ecount) && E0 <= b.ecount
    requires var p := MakeSpokes(b.newEdges, b.ecount, seed, s.edge);
      var tr0 := b.tris[b.tcount := NewTri(b.tcount, seed, s, p)];
      tr1 == (if s.across.Some? then tr0[s.across.value := SetNeighbour(tr0[s.across.value], s.edge, Some(b.tcount))] else tr0)
    ensures Closed(tr1) && Fresh(tr1, b.tcount + 1, MakeSpokes(b.newEdges, b.ecount, seed, s.edge).ecount)
    ensures tr1.Keys == b.tris.Keys + {b.tcount}
  {
    var e := s.edge;
    SpokesTable(b.newEdges, b.ecount, seed, e, E0);
    var p := MakeSpokes(b.newEdges, b.ecount, seed, e);
    var id := b.tcount;
    var tr0 := b.tris[id := NewTri(id, seed, s, p)];
    NewTriClosed(b.tris, id, seed, s, p, b.ecount);
    if s.across.Some? {
      SetClosed(tr0, s.across.value, e, Some(id), id + 1, p.ecount);
    }
  }

  /** Filing the new triangle of a side keeps the arena closed and fresh. */
  lemma NewTriClosed(tris: Arena, id: nat, seed: Vertex, s: Side, p: Spokes, ec: nat)
    requires Closed(tris) && Across(s, tris) && Fresh(tris, id, ec)
    requires ec <= p.ecount && s.edge.id < ec && p.s1.id < p.ecount && p.s2.id < p.ecount
    ensures Closed(tris[id := NewTri(id, seed, s, p)])
    ensures Fresh(tris[id := NewTri(id, seed, s, p)], id + 1, p.ecount)
  {
    var nt := NewTri(id, seed, s, p);
    assert Keyed(nt) && LinksInto(nt, tris[id := nt]);
    AddClosed(tris, nt, id, ec, p.ecount);
  }

  /** After the steps over old sides, the arena is still closed and fresh. */
  lemma {:induction false} StepsSound(tris0: Arena, T0: nat, E0: nat, seed: Vertex, sides: seq<Side>)
    requires Below(tris0, T0) && OldSides(sides, tris0, E0) && Closed(tris0) && Fresh(tris0, T0, E0)
    ensures AllAcross(sides, tris0)
    ensures Sound(Steps(Start(tris0, E0, T0), seed, sides))
  {
    OldSidesAcross(sides, tris0, E0);
    if |sides| > 0 {
      var n := |sides| - 1;
      var b0 := Start(tris0, E0, T0);
      OldSidesPrefix(sides, tris0, E0, n);
      var prev := Steps(b0, seed, sides[..n]);
      assert Inv(prev, tris0, T0, E0, seed) && Sound(prev) by {
        StepsCount(tris0, T0, E0, seed, sides[..n]);
        StepsSound(tris0, T0, E0, seed, sides[..n]);
      }
      assert Across(sides[n], prev.tris);
      StepSound(prev, seed, sides[n], tris0, T0, E0);
      assert Steps(b0, seed, sides) == Step(prev, seed, sides[n]);
    }
  }

  lemma OldSidesAppend(a: seq<Side>, c: seq<Side>, tris: Arena, E0: nat)
    requires OldSides(a, tris, E0) && OldSides(c, tris, E0)
    ensures OldSides(a + c, tris, E0)
  {
    assert forall i :: |a| <= i < |a + c| ==> (a + c)[i] == c[i - |a|];
  }

  /** The boundary sides of a cavity triangle run along its own edges,
      across triangles it links to. */
  lemma {:induction false} SidesOld(t: Tri, cavity: seq<nat>, j: nat, tris: Arena, E0: nat)
    requires Keyed(t) && j <= 3 && LinksInto(t, tris)
    requires forall i :: 0 <= i < 3 ==> t.edges[i].id < E0
    ensures OldSides(SidesOf(t, cavity, j), tris, E0)
  {
    if j > 0 {
      SidesOld(t, cavity, j - 1, tris, E0);
      var e := t.edges[j - 1];
      var n := t.links[e.id];
      OldSidesAppend(SidesOf(t, cavity, j - 1), if Closes(n, cavity) then [Side(e, n)] else [], tris, E0);
    }
  }

  /** In a closed arena with fresh counters, the cavity boundary consists of
      old sides and the arena's ids are below the triangle counter: the
      hypotheses of the lemmas about a whole insertion. */
  lemma {:induction false} BoundaryOld(tris: Arena, cavity: seq<nat>, k: nat, T0: nat, E0: nat)
    requires Closed(tris) && CavityIn(tris, cavity) && k <= |cavity| && Fresh(tris, T0, E0)
    ensures OldSides(Boundary(tris, cavity, k), tris, E0) && Below(tris, T0)
  {
    if k > 0 {
      BoundaryOld(tris, cavity, k - 1, T0, E0);
      var t := tris[cavity[k - 1]];
      SidesOld(t, cavity, 3, tris, E0);
      OldSidesAppend(Boundary(tris, cavity, k - 1), SidesOf(t, cavity, 3), tris, E0);
    }
  }

  /** What an insertion into `tris` over `cavity` promises of its result
      `r`: one new triangle per boundary side with consecutive ids from `T0`,
      each shaped after its side; the old triangles only relinked to the new
      ones; the arena closed and below the counters. */
  ghost predicate Rebuilt(r: Build, tris: Arena, cavity: seq<nat>, seed: Vertex, E0: nat, T0: nat)
    requires Closed(tris) && CavityIn(tris, cavity)
  {
    var sides := Boundary(tris, cavity, |cavity|);
    Made(r, tris, T0, sides, |sides|) && Sound(r) &&
    (forall j :: 0 <= j < |sides| ==> T0 + j in r.tris && Shaped(r.tris[T0 + j], T0 + j, seed, sides[j], E0)) &&
    (forall k :: k in tris ==> k in r.tris && r.tris[k] == Relinked(tris[k], k, sides, T0))
  }

  /** Everything an insertion does, from a closed arena with fresh counters:
      one new triangle per boundary side with consecutive ids, each shaped
      after its side; old triangles only relinked; the arena still closed
      and fresh. */
  lemma Insertion(tris: Arena, cavity: seq<nat>, seed: Vertex, E0: nat, T0: nat)
    requires Closed(tris) && CavityIn(tris, cavity) && Fresh(tris, T0, E0)
    ensures var sides := Boundary(tris, cavity, |cavity|);
      OldSides(sides, tris, E0) && AllAcross(sides, tris) &&
      Inserted(tris, cavity, seed, E0, T0, |cavity|) == Steps(Start(tris, E0, T0), seed, sides)
    ensures Rebuilt(Steps(Start(tris, E0, T0), seed, Boundary(tris, cavity, |cavity|)), tris, cavity, seed, E0, T0)
  {
    var sides := Boundary(tris, cavity, |cavity|);
    InsertedBoundary(tris, cavity, seed, E0, T0, |cavity|);
    BoundaryOld(tris, cavity, |cavity|, T0, E0);
    OldSidesAcross(sides, tris, E0);
    StepsCount(tris, T0, E0, seed, sides);
    StepsSound(tris, T0, E0, seed, sides);
    forall j | 0 <= j < |sides|
      ensures var r := Steps(Start(tris, E0, T0), seed, sides);
        T0 + j in r.tris && Shaped(r.tris[T0 + j], T0 + j, seed, sides[j], E0)
    {
      StepsShape(tris, T0, E0, seed, sides, j);
    }
    forall k | k in tris
      ensures var r := Steps(Start(tris, E0, T0), seed, sides);
        k in r.tris && r.tris[k] == Relinked(tris[k], k, sides, T0)
    {
      StepsOld(tris, T0, E0, seed, sides, k);
    }
  }

  /** `LiveAfter` for the lists it applies to. */
  lemma LiveAfterIf(tris: Arena, live: seq<nat>, cavity: seq<nat>, T0: nat, E0: nat, newTris: seq<nat>)
    requires Fresh(tris, T0, E0) && forall j :: 0 <= j < |newTris| ==> newTris[j] == T0 + j
    ensures Increasing(live) && KeyedIn(live, tris) && Increasing(cavity) && (forall x :: x in cavity ==> x in live) ==>
      DeleteAll(live + newTris, cavity) == Without(live, Elems(cavity)) + newTris && Increasing(DeleteAll(live + newTris, cavity))
  {
    if Increasing(live) && KeyedIn(live, tris) && Increasing(cavity) && (forall x :: x in cavity ==> x in live) {
      LiveAfter(tris, live, cavity, T0, E0, newTris);
    }
  }

  /** The live list after an insertion (voronoi.js pushes the new triangles,
      then splices out the cavity): the cavity leaves it, the other
      triangles keep their order, the new ones follow, and it stays
      increasing. */
  lemma LiveAfter(tris: Arena, live: seq<nat>, cavity: seq<nat>, T0: nat, E0: nat, newTris: seq<nat>)
    requires Increasing(live) && KeyedIn(live, tris) && Fresh(tris, T0, E0)
    requires Increasing(cavity) && forall x :: x in cavity ==> x in live
    requires forall j :: 0 <= j < |newTris| ==> newTris[j] == T0 + j
    ensures DeleteAll(live + newTris, cavity) == Without(live, Elems(cavity)) + newTris
    ensures Increasing(DeleteAll(live + newTris, cavity))
  {
    var all := live + newTris;
    forall i | 0 <= i < |live|
      ensures all[i] == live[i] && live[i] < T0
    {
      assert live[i] in live;
    }
    assert forall i :: |live| <= i < |all| ==> all[i] == T0 + (i - |live|);
    assert Increasing(all);
    IncreasingNoDuplicates(cavity);
    DeleteExactly(all, cavity);
    WithoutAppend(live, newTris, Elems(cavity));
    assert forall x :: x in newTris ==> x !in Elems(cavity) by {
      forall x | x in newTris
        ensures x >= T0
      {
        var j :| 0 <= j < |newTris| && newTris[j] == x;
      }
    }
    WithoutNone(newTris, Elems(cavity));
    WithoutIncreasing(all, Elems(cavity));
  }
}
