/** Triangles of the triangulation: ids, the edge-to-neighbour map and the
    circumcircle (app/lib/triangle.js). */
module Triangles {
  import opened Wrappers
  import opened Geometry
  import opened Vertices
  import opened Edges

  /** A triangle. `links` maps the id of each of its edges to the id of the
      neighbouring triangle across it (`None` for null); triangles are held by
      id, so a neighbour is the id of a record elsewhere in the mesh. The
      circumcircle that the constructor stores is `Circumcircle3(t)`: the
      vertices never change after construction, so it is a function of them. */
  datatype Tri = Tri(id: nat, vertices: seq<Vertex>, edges: seq<Edge>,
                     links: map<nat, Option<nat>>)

  /** Three vertices and three edges, each edge with an entry in the map. */
  predicate Keyed(t: Tri)
  {
    |t.vertices| == 3 && |t.edges| == 3 &&
    forall j :: 0 <= j < 3 ==> t.edges[j].id in t.links
  }

  /** The circumcircle of three vertices, measured to the first one. */
  function CircleOf(vs: seq<Vertex>): Circle
    requires |vs| == 3
  {
    Circumcircle(vs[0].x, vs[0].y, vs[1].x, vs[1].y, vs[2].x, vs[2].y)
  }

  /** The map built by the constructor's loop: the id of `edges[i]` to
      `nbrs[i]`, a later edge with the same id overwriting an earlier one. */
  function Links(edges: seq<Edge>, nbrs: seq<Option<nat>>): (m: map<nat, Option<nat>>)
    requires |edges| == |nbrs|
    ensures m.Keys == set i | 0 <= i < |edges| :: edges[i].id
  {
    if |edges| == 0 then map[]
    else
      var n := |edges| - 1;
      var prev := Links(edges[..n], nbrs[..n]);
      assert forall i :: 0 <= i < n ==> edges[..n][i] == edges[i];
      prev[edges[n].id := nbrs[n]]
  }

  /** The entry for `edges[i]` is `nbrs[i]` unless a later edge has the same id. */
  lemma {:induction false} LinksLastWins(edges: seq<Edge>, nbrs: seq<Option<nat>>, i: nat)
    requires |edges| == |nbrs| && i < |edges|
    requires forall j :: i < j < |edges| ==> edges[j].id != edges[i].id
    ensures Links(edges, nbrs)[edges[i].id] == nbrs[i]
  {
    var n := |edges| - 1;
    if i < n {
      assert edges[..n][i] == edges[i] && nbrs[..n][i] == nbrs[i];
      LinksLastWins(edges[..n], nbrs[..n], i);
    }
  }

  /** `getNeighbour(edge)`: the entry for the edge's id; an edge without an
      entry reads `undefined`, which every caller treats as null. */
  function GetNeighbour(t: Tri, e: Edge): (r: Option<nat>)
    ensures e.id in t.links ==> r == t.links[e.id]
    ensures e.id !in t.links ==> r.None?
  {
    if e.id in t.links then t.links[e.id] else None
  }

  /** `setNeighbour(edge, n)`: the same triangle with the entry for the
      edge's id (added if missing) now `n`. */
  function SetNeighbour(t: Tri, e: Edge, n: Option<nat>): (r: Tri)
    ensures r.id == t.id && r.vertices == t.vertices && r.edges == t.edges
  {
    t.(links := t.links[e.id := n])
  }

  /** Reading after writing: the edge just set reads the new neighbour, any
      other edge reads what it read before, and a keyed triangle stays keyed. */
  lemma GetSet(t: Tri, e: Edge, f: Edge, n: Option<nat>)
    ensures SetNeighbour(t, e, n).links.Keys == t.links.Keys + {e.id}
    ensures GetNeighbour(SetNeighbour(t, e, n), f) ==
      (if f.id == e.id then n else GetNeighbour(t, f))
    ensures Keyed(t) ==> Keyed(SetNeighbour(t, e, n))
  {
  }

  /** The centre and radius the constructor computes from the vertices. */
  function Circumcircle3(t: Tri): Circle
    requires |t.vertices| == 3
  {
    CircleOf(t.vertices)
  }

  /** `circumcircleContains(v)`: the inclusive test against the circumcircle. */
  predicate CircumcircleContains(t: Tri, v: Vertex)
    requires |t.vertices| == 3
  {
    Contains(Circumcircle3(t), v.x, v.y)
  }

  /** When the vertices are not collinear, the circumcircle contains all
      three, each lying on it. */
  lemma VerticesOnCircle(t: Tri)
    requires |t.vertices| == 3
    ensures var c := Circumcircle3(t);
      c.Circle? ==> forall k :: 0 <= k < 3 ==> CircumcircleContains(t, t.vertices[k])
    ensures var c := Circumcircle3(t);
      c.Circle? ==> forall k :: 0 <= k < 3 ==> Dist2(t.vertices[k].x, t.vertices[k].y, c.cx, c.cy) == c.r2
  {
    var vs := t.vertices;
    if Circumcircle3(t).Circle? {
      CircumcircleEquidistant(vs[0].x, vs[0].y, vs[1].x, vs[1].y, vs[2].x, vs[2].y);
    }
  }

  /** The triangle counter of app/lib/triangle.js (js/graph.js counts from one). */
  class TriangleFactory {
    var count: nat
    ghost var issued: set<nat>

    ghost predicate Valid()
      reads this
    {
      forall i :: i in issued ==> i < count
    }

    constructor (start: nat)
      ensures Valid() && count == start && issued == {}
    {
      count := start;
      issued := {};
    }

    /** `new Triangle(vertices, edges, neighbours)`: a fresh id, the vertices
        and edges as given and the neighbour map filled edge by edge. */
    method Create(vertices: seq<Vertex>, edges: seq<Edge>, nbrs: seq<Option<nat>>) returns (t: Tri)
      requires Valid()
      requires |vertices| == 3 && |edges| == 3 && |nbrs| == 3
      modifies this
      ensures Valid()
      ensures t == Tri(old(count), vertices, edges, Links(edges, nbrs))
      ensures Keyed(t)
      ensures count == old(count) + 1
      ensures t.id !in old(issued) && issued == old(issued) + {t.id}
    {
      var m: map<nat, Option<nat>> := map[];
      for i := 0 to 3
        invariant m == Links(edges[..i], nbrs[..i])
      {
        assert edges[..i + 1][..i] == edges[..i] && nbrs[..i + 1][..i] == nbrs[..i];
        m := m[edges[i].id := nbrs[i]];
      }
      assert edges[..3] == edges && nbrs[..3] == nbrs;
      t := Tri(count, vertices, edges, m);
      issued := issued + {count};
      count := count + 1;
    }
  }
}
