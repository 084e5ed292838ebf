/** The graph primitives of js/graph.js: vertices, edges and triangles whose
    ids are strings, a one-letter prefix per kind followed by a per-kind
    counter that is incremented before it is read. js/city.js builds its
    triangulation from these; its model (module City) keys the arena by the
    counter values, which `IdInjective` shows is the same keying. */
module Graph {
  import opened Wrappers
  import opened Numerals
  import opened Geometry

  /** The id of the `n`-th object of the kind with this prefix: the prefix
      followed by the decimal numeral of `n`. */
  function Id(prefix: char, n: nat): string
  {
    [prefix] + Decimal(n)
  }

  /** Two ids are equal exactly when they have the same prefix and the same
      number: ids never collide, within a kind or across kinds. */
  lemma IdInjective(p: char, q: char, n: nat, m: nat)
    ensures Id(p, n) == Id(q, m) <==> p == q && n == m
  {
    if Id(p, n) == Id(q, m) {
      assert Id(p, n)[1..] == Decimal(n) && Id(q, m)[1..] == Decimal(m);
      DecimalInjective(n, m);
    }
  }

  datatype Vertex = Vertex(id: string, x: real, y: real)

  /** An edge: its two ends, and the array `vertices` holding them in order. */
  datatype Edge = Edge(id: string, v1: Vertex, v2: Vertex, vertices: seq<Vertex>)

  /** A triangle: `links` maps the id of each of its edges to the id of the
      neighbour across it (`None` for null), and `circle` is the circumcircle
      the constructor computes. */
  datatype Triangle = Triangle(id: string, vertices: seq<Vertex>, edges: seq<Edge>,
                               links: map<string, Option<string>>, circle: Circle)

  /** One of the three module counters (`verticesCount`, `edgesCount`,
      `trianglesCount`), with the prefix of its kind. `issued` records the
      ids handed out so far. */
  class Counter {
    const prefix: char
    var count: nat
    ghost var issued: set<string>

    ghost predicate Valid()
      reads this
    {
      forall s :: s in issued ==> exists k :: 1 <= k <= count && s == Id(prefix, k)
    }

    /** A counter at zero: nothing issued yet. */
    constructor (prefix: char)
      ensures Valid() && this.prefix == prefix && count == 0 && issued == {}
    {
      this.prefix := prefix;
      count := 0;
      issued := {};
    }

    /** `count += 1; id = prefix + count`: the first id is numbered 1, and an
        id is never handed out twice. */
    method Next() returns (id: string)
      requires Valid()
      modifies this
      ensures Valid()
      ensures count == old(count) + 1 && id == Id(prefix, count)
      ensures id !in old(issued) && issued == old(issued) + {id}
    {
      count := count + 1;
      id := Id(prefix, count);
      Unissued(issued, prefix, count);
      issued := issued + {id};
    }
  }

  /** Ids numbered up to `c - 1` never equal the id numbered `c`. */
  lemma Unissued(issued: set<string>, prefix: char, c: nat)
    requires forall s :: s in issued ==> exists k :: 1 <= k <= c - 1 && s == Id(prefix, k)
    ensures Id(prefix, c) !in issued
  {
    if Id(prefix, c) in issued {
      var k :| 1 <= k <= c - 1 && Id(prefix, c) == Id(prefix, k);
      IdInjective(prefix, prefix, c, k);
    }
  }

  /** `new Vertex(x, y)`: the coordinates as given, and a fresh "v" id. */
  method NewVertex(x: real, y: real, vc: Counter) returns (v: Vertex)
    requires vc.Valid() && vc.prefix == 'v'
    modifies vc
    ensures vc.Valid() && vc.count == old(vc.count) + 1
    ensures v == Vertex(Id('v', vc.count), x, y) && v.id !in old(vc.issued)
  {
    var id := vc.Next();
    v := Vertex(id, x, y);
  }

  /** `new Edge(v1, v2)`: the ends as given, `vertices == [v1, v2]`, and a
      fresh "e" id. */
  method NewEdge(v1: Vertex, v2: Vertex, ec: Counter) returns (e: Edge)
    requires ec.Valid() && ec.prefix == 'e'
    modifies ec
    ensures ec.Valid() && ec.count == old(ec.count) + 1
    ensures e.v1 == v1 && e.v2 == v2 && e.vertices == [v1, v2]
    ensures e.id == Id('e', ec.count) && e.id !in old(ec.issued)
  {
    var id := ec.Next();
    e := Edge(id, v1, v2, [v1, v2]);
  }

  /** `isEqual`: the ends match in the same or the opposite order. Vertices
      are compared as objects; distinct vertex objects have distinct ids, so
      comparing the ids is comparing the objects. */
  predicate IsEqual(a: Edge, b: Edge)
  {
    (a.v1.id == b.v1.id && a.v2.id == b.v2.id) || (a.v1.id == b.v2.id && a.v2.id == b.v1.id)
  }

  /** The ends of an edge, as an unordered pair of vertex ids. */
  function Ends(e: Edge): multiset<string>
  {
    multiset{e.v1.id, e.v2.id}
  }

  /** Two unordered pairs are equal only when their elements match in one
      order or the other. */
  lemma PairsMatch<T>(a1: T, a2: T, b1: T, b2: T)
    requires multiset{a1, a2} == multiset{b1, b2}
    ensures (a1 == b1 && a2 == b2) || (a1 == b2 && a2 == b1)
  {
    assert a1 in multiset{b1, b2};
    assert multiset{a1, a2} - multiset{a1} == multiset{a2};
    if a1 == b1 {
      assert multiset{b1, b2} - multiset{b1} == multiset{b2};
    } else {
      assert multiset{b1, b2} - multiset{b2} == multiset{b1};
    }
  }

  /** Two edges are equal exactly when they join the same pair of vertices. */
  lemma IsEqualEnds(a: Edge, b: Edge)
    ensures IsEqual(a, b) <==> Ends(a) == Ends(b)
  {
    if Ends(a) == Ends(b) {
      PairsMatch(a.v1.id, a.v2.id, b.v1.id, b.v2.id);
    }
  }

  /** The test is reflexive, symmetric and transitive. */
  lemma IsEqualEquivalence(a: Edge, b: Edge, c: Edge)
    ensures IsEqual(a, a) && (IsEqual(a, b) <==> IsEqual(b, a))
    ensures IsEqual(a, b) && IsEqual(b, c) ==> IsEqual(a, c)
  {
  }

  /** The map the constructor's loop builds: the id of `edges[i]` to
      `nbrs[i]`, a later edge with the same id overwriting an earlier one. */
  function Links(edges: seq<Edge>, nbrs: seq<Option<string>>): (m: map<string, Option<string>>)
    requires |edges| == |nbrs|
    ensures m.Keys == set i | 0 <= i < |edges| :: edges[i].id
  {
    if |edges| == 0 then map[]
    else
      var n := |edges| - 1;
      var prev := Links(edges[..n], nbrs[..n]);
      assert forall i :: 0 <= i < n ==> edges[..n][i] == edges[i];
      prev[edges[n].id := nbrs[n]]
  }

  /** Edges with distinct ids each map to their own neighbour. */
  lemma {:induction false} LinksDistinct(edges: seq<Edge>, nbrs: seq<Option<string>>, i: nat)
    requires |edges| == |nbrs| && i < |edges|
    requires forall j :: i < j < |edges| ==> edges[j].id != edges[i].id
    ensures Links(edges, nbrs)[edges[i].id] == nbrs[i]
  {
    var n := |edges| - 1;
    if i < n {
      assert edges[..n][i] == edges[i] && nbrs[..n][i] == nbrs[i];
      LinksDistinct(edges[..n], nbrs[..n], i);
    }
  }

  /** The circumcircle of three vertices, measured to the first one. */
  function CircleOf(vs: seq<Vertex>): Circle
    requires |vs| == 3
  {
    Circumcircle(vs[0].x, vs[0].y, vs[1].x, vs[1].y, vs[2].x, vs[2].y)
  }

  /** `new Triangle(vertices, edges, neighbours)`: the map filled edge by
      edge, a fresh "t" id, and the circumcircle of the vertices. */
  method NewTriangle(vertices: seq<Vertex>, edges: seq<Edge>, nbrs: seq<Option<string>>, tc: Counter)
    returns (t: Triangle)
    requires |vertices| == 3 && |edges| == 3 && |nbrs| == 3
    requires tc.Valid() && tc.prefix == 't'
    modifies tc
    ensures tc.Valid() && tc.count == old(tc.count) + 1
    ensures t == Triangle(Id('t', tc.count), vertices, edges, Links(edges, nbrs), CircleOf(vertices))
    ensures t.id !in old(tc.issued)
    ensures forall j :: 0 <= j < 3 ==> edges[j].id in t.links
  {
    var m: map<string, Option<string>> := map[];
    for i := 0 to 3
      invariant m == Links(edges[..i], nbrs[..i])
    {
      assert edges[..i + 1][..i] == edges[..i] && nbrs[..i + 1][..i] == nbrs[..i];
      m := m[edges[i].id := nbrs[i]];
    }
    assert edges[..3] == edges && nbrs[..3] == nbrs;
    var id := tc.Next();
    t := Triangle(id, vertices, edges, m, CircleOf(vertices));
  }

  /** `getNeighbour(edge)`: the entry for the edge's id; `undefined` (here
      `None`) when the edge has none. */
  function GetNeighbour(t: Triangle, e: Edge): (r: Option<Option<string>>)
    ensures r.Some? <==> e.id in t.links
  {
    if e.id in t.links then Some(t.links[e.id]) else None
  }

  /** `setNeighbour(edge, n)`: the entry for the edge's id becomes `n`. */
  function SetNeighbour(t: Triangle, e: Edge, n: Option<string>): (r: Triangle)
    ensures r.id == t.id && r.vertices == t.vertices && r.edges == t.edges && r.circle == t.circle
  {
    t.(links := t.links[e.id := n])
  }

  /** Reading after writing: the edge just set reads the new neighbour, and
      every edge with another id reads what it read before. */
  lemma GetSet(t: Triangle, e: Edge, f: Edge, n: Option<string>)
    ensures GetNeighbour(SetNeighbour(t, e, n), f) ==
      (if f.id == e.id then Some(n) else GetNeighbour(t, f))
  {
  }

  /** `circumcircleContains(v)`: the distance to the centre is at most the
      radius, the boundary included. */
  predicate CircumcircleContains(t: Triangle, v: Vertex)
  {
    Contains(t.circle, v.x, v.y)
  }

  /** Each vertex of a triangle whose vertices are not collinear lies on its
      circumcircle, so the inclusive test contains it. */
  lemma ContainsOwnVertices(t: Triangle, k: nat)
    requires |t.vertices| == 3 && k < 3 && t.circle == CircleOf(t.vertices) && t.circle.Circle?
    ensures CircumcircleContains(t, t.vertices[k])
    ensures Dist2(t.vertices[k].x, t.vertices[k].y, t.circle.cx, t.circle.cy) == t.circle.r2
  {
    var vs := t.vertices;
    CircumcircleEquidistant(vs[0].x, vs[0].y, vs[1].x, vs[1].y, vs[2].x, vs[2].y);
  }
}
