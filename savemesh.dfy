/** The triangulation of js/voronoi_save.js. Its triangles keep their
    neighbours in an array indexed like their edges, and its edges are
    compared by their shops. The source identifies shops and triangles by
    object reference; here a shop's id and a triangle's `ref` are their
    allocation numbers, so two objects are the same exactly when their
    numbers are. */
module SaveMesh {
  import opened Wrappers
  import opened Geometry
  import opened Vertices
  import Mesh
  import Graph

  /** A shop: a point of the city with an identity. */
  type Shop = Vertex

  /** An edge between two shops. Edges are never compared by identity
      except within one triangle (see `Join`), so they carry none. */
  datatype Edge = Edge(s1: Shop, s2: Shop)

  /** A triangle: its shops, its edges, the neighbour across each edge
      (`None` for null) and the circumcircle its constructor computes. */
  datatype Triangle = Triangle(ref: nat, shops: seq<Shop>, edges: seq<Edge>,
                               neighbours: seq<Option<nat>>, circle: Circle)

  /** Every triangle ever built, by reference. */
  type Arena = map<nat, Triangle>

  // ---------------------------------------------------------------------
  // Edges

  /** `isEqual`: the same two shops, in the same or the opposite order. */
  predicate IsEqual(a: Edge, b: Edge)
  {
    (a.s1 == b.s1 && a.s2 == b.s2) || (a.s1 == b.s2 && a.s2 == b.s1)
  }

  /** Two edges are equal exactly when they join the same pair of shops. */
  lemma IsEqualEnds(a: Edge, b: Edge)
    ensures IsEqual(a, b) <==> multiset{a.s1, a.s2} == multiset{b.s1, b.s2}
  {
    if multiset{a.s1, a.s2} == multiset{b.s1, b.s2} {
      Graph.PairsMatch(a.s1, a.s2, b.s1, b.s2);
    }
  }

  // ---------------------------------------------------------------------
  // Triangles

  /** The shape every constructed triangle has: three shops, edge 0 joining
      shops 0 and 1, edge 1 joining shops 0 and 2, edge 2 joining shops 1
      and 2, and one neighbour slot per edge. */
  predicate Formed(t: Triangle)
  {
    |t.shops| == 3 && |t.edges| == 3 && |t.neighbours| == 3 &&
    t.edges[0] == Edge(t.shops[0], t.shops[1]) &&
    t.edges[1] == Edge(t.shops[0], t.shops[2]) &&
    t.edges[2] == Edge(t.shops[1], t.shops[2])
  }

  /** The circumcircle of three shops, measured to the first one. */
  function CircleOf(shops: seq<Shop>): Circle
    requires |shops| == 3
  {
    Circumcircle(shops[0].x, shops[0].y, shops[1].x, shops[1].y, shops[2].x, shops[2].y)
  }

  /** `new Triangle(edge, edgeNeighbour, s3)`, allocated as `ref`: the shops
      of the edge followed by `s3`, the given edge opposite `s3`, the given
      neighbour across it and no neighbour across the two new edges. */
  function NewTriangle(ref: nat, edge: Edge, nb: Option<nat>, s3: Shop): (t: Triangle)
    ensures Formed(t) && t.ref == ref && t.circle == CircleOf(t.shops)
    ensures t.edges[0] == edge && t.shops[2] == s3
    ensures t.neighbours[0] == nb && t.neighbours[1].None? && t.neighbours[2].None?
  {
    var shops := [edge.s1, edge.s2, s3];
    Triangle(ref, shops, [edge, Edge(edge.s1, s3), Edge(edge.s2, s3)], [nb, None, None], CircleOf(shops))
  }

  /** `circumcircleContains(shop)`: the inclusive test. */
  predicate Contains(t: Triangle, s: Shop)
  {
    Geometry.Contains(t.circle, s.x, s.y)
  }

  /** The shops of a triangle whose shops are not collinear lie on its
      circumcircle, so each is contained. */
  lemma ContainsOwnShops(t: Triangle, k: nat)
    requires Formed(t) && t.circle == CircleOf(t.shops) && t.circle.Circle? && k < 3
    ensures Contains(t, t.shops[k])
    ensures Dist2(t.shops[k].x, t.shops[k].y, t.circle.cx, t.circle.cy) == t.circle.r2
  {
    var s := t.shops;
    CircumcircleEquidistant(s[0].x, s[0].y, s[1].x, s[1].y, s[2].x, s[2].y);
  }

  /** `setNeighbour(k, n)`: slot `k` now holds `n`; every other slot, the
      shops, the edges and the circle stay. */
  function SetNeighbour(t: Triangle, k: nat, n: Option<nat>): (r: Triangle)
    requires k < |t.neighbours|
    ensures r.ref == t.ref && r.shops == t.shops && r.edges == t.edges && r.circle == t.circle
    ensures |r.neighbours| == |t.neighbours| && r.neighbours[k] == n
    ensures forall i :: 0 <= i < |t.neighbours| && i != k ==> r.neighbours[i] == t.neighbours[i]
  {
    t.(neighbours := t.neighbours[k := n])
  }

  // ---------------------------------------------------------------------
  // The arena

  /** Each triangle is filed under its own reference, is formed, and links
      only to triangles of the arena. */
  predicate Closed(tris: Arena)
  {
    forall r :: r in tris ==>
      && tris[r].ref == r && Formed(tris[r])
      && forall k :: 0 <= k < 3 && tris[r].neighbours[k].Some? ==> tris[r].neighbours[k].value in tris
  }

  /** The allocation count is ahead of every reference in the arena. */
  predicate Fresh(tris: Arena, count: nat)
  {
    forall r :: r in tris ==> r < count
  }

  /** Every element of `s` is a triangle of the arena. */
  predicate KeyedIn(s: seq<nat>, tris: Arena)
  {
    forall r :: r in s ==> r in tris
  }

  /** The arena `tris'` keeps every triangle of `tris` with its shops, edges
      and circle; only neighbour slots may have changed. */
  predicate Kept(tris: Arena, tris': Arena)
  {
    forall r :: r in tris ==>
      && r in tris' && tris'[r].ref == tris[r].ref && tris'[r].shops == tris[r].shops
      && tris'[r].edges == tris[r].edges && tris'[r].circle == tris[r].circle
      && |tris'[r].neighbours| == |tris[r].neighbours|
  }

  // ---------------------------------------------------------------------
  // The cavity

  /** `oldTriangles`: the live triangles whose circumcircle contains `s`, in
      live order. */
  function OldOf(tris: Arena, live: seq<nat>, s: Shop): (olds: seq<nat>)
    requires KeyedIn(live, tris)
    ensures forall r :: r in olds <==> r in live && Contains(tris[r], s)
    ensures Mesh.Increasing(live) ==> Mesh.Increasing(olds)
  {
    if |live| == 0 then []
    else
      var n := |live| - 1;
      assert forall i :: 0 <= i < n ==> live[..n][i] == live[i];
      assert forall r :: r in live <==> r in live[..n] || r == live[n];
      var prev := OldOf(tris, live[..n], s);
      if !Contains(tris[live[n]], s) then prev
      else
        Mesh.KeepLast(live, prev);
        prev + [live[n]]
  }

  /** The first loop of `repeat`: the live triangles are tested in order. */
  method FindOld(tris: Arena, live: seq<nat>, s: Shop) returns (olds: seq<nat>)
    requires KeyedIn(live, tris)
    ensures olds == OldOf(tris, live, s)
  {
    olds := [];
    for i := 0 to |live|
      invariant olds == OldOf(tris, live[..i], s)
    {
      assert live[..i + 1][..i] == live[..i];
      if Contains(tris[live[i]], s) {
        olds := olds + [live[i]];
      }
    }
    assert live[..|live|] == live;
  }

  /** `oldTriangles.indexOf(neighbour) === -1`: null, or a triangle that is
      not in the cavity. */
  predicate Outside(nb: Option<nat>, olds: seq<nat>)
  {
    nb.None? || nb.value !in olds
  }

  /** The edges among the first `j` of `t` whose neighbour is outside the
      cavity, in order. */
  function Cut(t: Triangle, olds: seq<nat>, j: nat): seq<Edge>
    requires Formed(t) && j <= 3
  {
    if j == 0 then []
    else Cut(t, olds, j - 1) + (if Outside(t.neighbours[j - 1], olds) then [t.edges[j - 1]] else [])
  }

  /** `cavityEdges`: the boundary of the cavity, triangle by triangle of
      `cav` and edge by edge. */
  function Boundary(tris: Arena, cav: seq<nat>, olds: seq<nat>): seq<Edge>
    requires forall r :: r in cav ==> r in tris && Formed(tris[r])
  {
    if |cav| == 0 then []
    else
      var n := |cav| - 1;
      assert forall r :: r in cav[..n] ==> r in cav;
      Boundary(tris, cav[..n], olds) + Cut(tris[cav[n]], olds, 3)
  }

  /** An edge is cut from `t` exactly when it is one of `t`'s first `j` edges
      whose neighbour is outside the cavity. */
  lemma {:induction false} CutMembers(t: Triangle, olds: seq<nat>, j: nat, e: Edge)
    requires Formed(t) && j <= 3
    ensures e in Cut(t, olds, j) <==> exists k :: 0 <= k < j && t.edges[k] == e && Outside(t.neighbours[k], olds)
  {
    if j > 0 {
      CutMembers(t, olds, j - 1, e);
    }
  }

  /** An edge is on the boundary exactly when it is an edge of a cavity
      triangle whose neighbour across it is outside the cavity. */
  lemma {:induction false} BoundaryMembers(tris: Arena, cav: seq<nat>, olds: seq<nat>, e: Edge)
    requires forall r :: r in cav ==> r in tris && Formed(tris[r])
    ensures e in Boundary(tris, cav, olds) <==>
      exists r, k :: r in cav && 0 <= k < 3 && tris[r].edges[k] == e && Outside(tris[r].neighbours[k], olds)
  {
    if |cav| > 0 {
      var n := |cav| - 1;
      assert forall r :: r in cav[..n] ==> r in cav;
      assert forall r :: r in cav <==> r in cav[..n] || r == cav[n];
      BoundaryMembers(tris, cav[..n], olds, e);
      CutMembers(tris[cav[n]], olds, 3, e);
    }
  }

  // ---------------------------------------------------------------------
  // One new triangle

  /** The loop over the neighbour's edges: each of its edges equal to the
      cavity edge now has the new triangle across it; nothing else of the
      arena changes. */
  method Relink(tris: Arena, n: nat, edge: Edge, newRef: nat) returns (tris': Arena)
    requires n in tris && Formed(tris[n])
    ensures tris'.Keys == tris.Keys && Kept(tris, tris')
    ensures Closed(tris) && newRef in tris ==> Closed(tris')
    ensures forall r :: r in tris && r != n ==> tris'[r] == tris[r]
    ensures forall k :: 0 <= k < 3 ==>
      tris'[n].neighbours[k] == if IsEqual(tris[n].edges[k], edge) then Some(newRef) else tris[n].neighbours[k]
  {
    tris' := tris;
    for k := 0 to 3
      invariant tris'.Keys == tris.Keys && Kept(tris, tris')
      invariant Closed(tris) && newRef in tris ==> Closed(tris')
      invariant forall r :: r in tris && r != n ==> tris'[r] == tris[r]
      invariant forall i :: 0 <= i < 3 ==>
        tris'[n].neighbours[i] == if i < k && IsEqual(tris[n].edges[i], edge) then Some(newRef) else tris[n].neighbours[i]
    {
      if IsEqual(tris'[n].edges[k], edge) {
        if Closed(tris) && newRef in tris {
          PointKeeps(tris', n, k, newRef, [], []);
        }
        tris' := tris'[n := SetNeighbour(tris'[n], k, Some(newRef))];
      }
    }
  }

  /** The first position of an edge equal to `e`, or -1. */
  function FirstEqual(es: seq<Edge>, e: Edge): (i: int)
    ensures -1 <= i < |es|
    ensures i == -1 <==> forall k :: 0 <= k < |es| ==> !IsEqual(es[k], e)
    ensures 0 <= i ==> IsEqual(es[i], e) && forall k :: 0 <= k < i ==> !IsEqual(es[k], e)
  {
    if |es| == 0 then -1
    else
      var n := |es| - 1;
      assert forall k :: 0 <= k < n ==> es[..n][k] == es[k];
      var i := FirstEqual(es[..n], e);
      if 0 <= i then i else if IsEqual(es[n], e) then n else -1
  }

  /** The search of `cavityInternalEdges`: the loop stops at the first edge
      equal to `e`. */
  method FindEqual(es: seq<Edge>, e: Edge) returns (index: int)
    ensures index == FirstEqual(es, e)
  {
    index := -1;
    var n := 0;
    while n < |es|
      invariant 0 <= n <= |es|
      invariant forall k :: 0 <= k < n ==> !IsEqual(es[k], e)
    {
      if IsEqual(es[n], e) {
        index := n;
        break;
      }
      n := n + 1;
    }
    var first := FirstEqual(es, e);
    assert index == -1 ==> first == -1;
    assert 0 <= index ==> first == index;
  }

  /** Every recorded internal edge is an edge of the triangle recorded with
      it. */
  predicate Recorded(tris: Arena, ie: seq<Edge>, it: seq<nat>)
  {
    |ie| == |it| &&
    forall k :: 0 <= k < |it| ==> it[k] in tris && Formed(tris[it[k]]) && ie[k] in tris[it[k]].edges
  }

  /** Triangles `a` and `b` now have each other across the shared edge:
      slot `m` of `a` holds `b` and slot `slot` of `b` holds `a` (unless the
      two slots are one), and no other neighbour slot of the arena changed. */
  predicate Linked(tris: Arena, tris': Arena, a: nat, m: nat, b: nat, slot: int)
    requires a in tris && b in tris && Formed(tris[a]) && Formed(tris[b]) && m < 3
    requires Kept(tris, tris')
  {
    0 <= slot < 3 && IsEqual(tris[b].edges[slot], tris[a].edges[m]) &&
    tris'[a].neighbours[m] == Some(b) &&
    ((b, slot) != (a, m) ==> tris'[b].neighbours[slot] == Some(a)) &&
    forall r, k :: r in tris && 0 <= k < |tris[r].neighbours| && (r, k) != (a, m) && (r, k) != (b, slot) ==>
      tris'[r].neighbours[k] == tris[r].neighbours[k]
  }

  /** `otherTriangle.neighbours[slot] = newT; newT.neighbours[m] = otherTriangle`. */
  function Link(tris: Arena, a: nat, m: nat, b: nat, slot: nat): Arena
    requires a in tris && b in tris && m < |tris[a].neighbours| && slot < |tris[b].neighbours|
  {
    var t1 := tris[b := SetNeighbour(tris[b], slot, Some(a))];
    t1[a := SetNeighbour(t1[a], m, Some(b))]
  }

  /** Linking two triangles of a closed arena keeps it closed, keeps every
      triangle's shape and the recorded edges, and changes exactly the two
      slots. */
  lemma LinkKeeps(tris: Arena, a: nat, m: nat, b: nat, slot: nat, ie: seq<Edge>, it: seq<nat>)
    requires Closed(tris) && a in tris && b in tris && m < 3 && slot < 3 && Recorded(tris, ie, it)
    ensures var t' := Link(tris, a, m, b, slot);
      && Closed(t') && t'.Keys == tris.Keys && Kept(tris, t') && Recorded(t', ie, it)
      && (forall r :: r in tris && r != a && r != b ==> t'[r] == tris[r])
      && t'[a].neighbours[m] == Some(b) && ((b, slot) != (a, m) ==> t'[b].neighbours[slot] == Some(a))
      && forall r, k :: r in tris && 0 <= k < |tris[r].neighbours| && (r, k) != (a, m) && (r, k) != (b, slot) ==>
           t'[r].neighbours[k] == tris[r].neighbours[k]
  {
    var t1 := tris[b := SetNeighbour(tris[b], slot, Some(a))];
    PointKeeps(tris, b, slot, a, ie, it);
    PointKeeps(t1, a, m, b, ie, it);
  }

  /** Pointing one slot of a closed arena at one of its triangles keeps it
      closed, keeps every triangle's shape and the recorded edges. */
  lemma PointKeeps(tris: Arena, b: nat, slot: nat, a: nat, ie: seq<Edge>, it: seq<nat>)
    requires Closed(tris) && a in tris && b in tris && slot < 3 && Recorded(tris, ie, it)
    ensures var t' := tris[b := SetNeighbour(tris[b], slot, Some(a))];
      Closed(t') && t'.Keys == tris.Keys && Kept(tris, t') && Recorded(t', ie, it)
  {
    var t' := tris[b := SetNeighbour(tris[b], slot, Some(a))];
    assert Formed(t'[b]);
    forall k | 0 <= k < |it|
      ensures it[k] in t' && Formed(t'[it[k]]) && ie[k] in t'[it[k]].edges
    {
      assert t'[it[k]].edges == tris[it[k]].edges;
    }
  }

  /** The outcome of one pass of the loop over the new triangle's edges 1
      and 2: when an equal edge was recorded before, the triangle recorded
      with the first such edge and the new one become neighbours across it
      (the slot of the other triangle is where `indexOf` finds the recorded
      edge object); otherwise the edge is recorded with the new triangle. */
  predicate Joined(tris: Arena, tris': Arena, newRef: nat, m: nat, ie: seq<Edge>, it: seq<nat>, ie': seq<Edge>, it': seq<nat>)
    requires Closed(tris) && newRef in tris && 1 <= m < 3 && Recorded(tris, ie, it) && Kept(tris, tris')
  {
    var i := FirstEqual(ie, tris[newRef].edges[m]);
    if i == -1 then
      tris' == tris && ie' == ie + [tris[newRef].edges[m]] && it' == it + [newRef]
    else
      ie' == ie && it' == it && Linked(tris, tris', newRef, m, it[i], Mesh.IndexOf(tris[it[i]].edges, ie[i]))
  }

  /** One pass of the loop over the new triangle's edges 1 and 2, with the
      outcome `Joined`. */
  method Join(tris: Arena, newRef: nat, m: nat, ie: seq<Edge>, it: seq<nat>)
    returns (tris': Arena, ie': seq<Edge>, it': seq<nat>)
    requires Closed(tris) && newRef in tris && 1 <= m < 3 && Recorded(tris, ie, it)
    ensures Closed(tris') && tris'.Keys == tris.Keys && Kept(tris, tris') && Recorded(tris', ie', it')
    ensures forall r :: r in tris && r != newRef && r !in it ==> tris'[r] == tris[r]
    ensures Joined(tris, tris', newRef, m, ie, it, ie', it')
  {
    var newEdge := tris[newRef].edges[m];
    var index := FindEqual(ie, newEdge);
    if index != -1 {
      var other := it[index];
      // The recorded edge is one of the other triangle's edges, so `indexOf` finds it.
      var slot := Mesh.IndexOf(tris[other].edges, ie[index]);
      tris' := Link(tris, newRef, m, other, slot);
      LinkKeeps(tris, newRef, m, other, slot, ie, it);
      ie', it' := ie, it;
    } else {
      tris' := tris;
      ie', it' := ie + [newEdge], it + [newRef];
    }
  }

  /** A new triangle built on cavity edge `e` for shop `s`: the shops of the
      edge and the shop, the edge and the two new ones, and their
      circumcircle. */
  predicate Spawned(t: Triangle, e: Edge, s: Shop)
  {
    t.shops == [e.s1, e.s2, s] && t.edges == [e, Edge(e.s1, s), Edge(e.s2, s)] && t.circle == CircleOf(t.shops)
  }

  /** The body of the insertion for one cavity edge whose neighbour is
      outside the cavity: the new triangle (allocated as `count`), the
      neighbour relinked to it, and its two new edges joined with those of
      the earlier new triangles. Only the neighbour and the triangles
      recorded with an internal edge can change besides the new one. */
  method Spawn(tris: Arena, count: nat, edge: Edge, nb: Option<nat>, s: Shop, ie: seq<Edge>, it: seq<nat>)
    returns (tris': Arena, ie': seq<Edge>, it': seq<nat>)
    requires Closed(tris) && Fresh(tris, count) && Recorded(tris, ie, it)
    requires nb.Some? ==> nb.value in tris && nb.value !in it
    ensures Closed(tris') && Fresh(tris', count + 1) && tris'.Keys == tris.Keys + {count}
    ensures Kept(tris, tris') && Spawned(tris'[count], edge, s)
    ensures Recorded(tris', ie', it') && |it| <= |it'| && it'[..|it|] == it
    ensures forall k :: |it| <= k < |it'| ==> it'[k] == count
    ensures forall r :: r in tris && r !in it && (nb.None? || r != nb.value) ==> tris'[r] == tris[r]
    ensures nb.Some? ==> forall k :: 0 <= k < 3 ==>
      tris'[nb.value].neighbours[k] ==
        if IsEqual(tris[nb.value].edges[k], edge) then Some(count) else tris[nb.value].neighbours[k]
    ensures edge.s2 != s ==> tris'[count].neighbours[0] == nb
    ensures Settled(tris', count, 1, ie, it, ie') && Settled(tris', count, 2, ie, it, ie')
  {
    var placed := Place(tris, count, edge, nb, s);
    assert count !in it && Recorded(placed, ie, it);
    tris', ie', it' := JoinNew(placed, count, ie, it);
    KeptTrans(tris, placed, tris');
    FreshKeys(placed, tris', count + 1);
    forall r | r in tris && r !in it && (nb.None? || r != nb.value)
      ensures tris'[r] == tris[r]
    {
      assert r != count && r in placed && placed[r] == tris[r];
    }
    if nb.Some? {
      assert nb.value != count && nb.value !in it;
    }
  }

  /** The new triangle (allocated as `count`) added to the arena, and the
      neighbour `nb` relinked to it. */
  method Place(tris: Arena, count: nat, edge: Edge, nb: Option<nat>, s: Shop) returns (tris': Arena)
    requires Closed(tris) && Fresh(tris, count)
    requires nb.Some? ==> nb.value in tris
    ensures Closed(tris') && Fresh(tris', count + 1) && tris'.Keys == tris.Keys + {count} && Kept(tris, tris')
    ensures tris'[count] == NewTriangle(count, edge, nb, s)
    ensures forall r :: r in tris && (nb.None? || r != nb.value) ==> tris'[r] == tris[r]
    ensures nb.Some? ==> forall k :: 0 <= k < 3 ==>
      tris'[nb.value].neighbours[k] ==
        if IsEqual(tris[nb.value].edges[k], edge) then Some(count) else tris[nb.value].neighbours[k]
  {
    tris' := tris[count := NewTriangle(count, edge, nb, s)];
    assert Closed(tris') && Fresh(tris', count + 1);
    if nb.Some? {
      ghost var added := tris';
      tris' := Relink(tris', nb.value, edge, count);
      KeptTrans(tris, added, tris');
    }
  }

  /** The loop over edges 1 and 2 of the new triangle `newRef`: afterwards
      both edges are settled, and its slot 0 is kept unless its edges 0 and
      1 coincide. */
  method JoinNew(tris: Arena, newRef: nat, ie: seq<Edge>, it: seq<nat>)
    returns (tris': Arena, ie': seq<Edge>, it': seq<nat>)
    requires Closed(tris) && newRef in tris && Recorded(tris, ie, it) && newRef !in it
    ensures Closed(tris') && tris'.Keys == tris.Keys && Kept(tris, tris')
    ensures Recorded(tris', ie', it') && |it| <= |it'| && it'[..|it|] == it
    ensures forall k :: |it| <= k < |it'| ==> it'[k] == newRef
    ensures forall r :: r in tris && r !in it && r != newRef ==> tris'[r] == tris[r]
    ensures Settled(tris', newRef, 1, ie, it, ie') && Settled(tris', newRef, 2, ie, it, ie')
    ensures tris[newRef].edges[0] != tris[newRef].edges[1] ==> tris'[newRef].neighbours[0] == tris[newRef].neighbours[0]
  {
    ghost var e1 := tris[newRef].edges[1];
    tris', ie', it' := tris, ie, it;
    for m := 1 to 3
      invariant Closed(tris') && tris'.Keys == tris.Keys && Kept(tris, tris')
      invariant Recorded(tris', ie', it') && |it| <= |it'| && it'[..|it|] == it
      invariant forall k :: |it| <= k < |it'| ==> it'[k] == newRef
      invariant forall r :: r in it' ==> r in it || r == newRef
      invariant forall r :: r in tris && r !in it && r != newRef ==> tris'[r] == tris[r]
      invariant m == 1 ==> tris' == tris && ie' == ie && it' == it
      invariant m == 2 ==> (ie' == ie && it' == it) || (ie' == ie + [e1] && it' == it + [newRef])
      invariant 2 <= m ==> Settled(tris', newRef, 1, ie, it, ie')
      invariant m == 3 ==> Settled(tris', newRef, 2, ie, it, ie')
      invariant tris[newRef].edges[0] != e1 ==> tris'[newRef].neighbours[0] == tris[newRef].neighbours[0]
    {
      ghost var tb, ieb, itb := tris', ie', it';
      tris', ie', it' := Join(tris', newRef, m, ie', it');
      KeptTrans(tris, tb, tris');
      assert it' == itb || it' == itb + [newRef];
      ExtendedBy(it, itb, it', newRef);
      assert tb[newRef].edges == tris[newRef].edges;
      SettleNew(tb, tris', newRef, m, ie, it, ieb, itb, ie', it');
      if tris[newRef].edges[0] != e1 {
        SlotZeroKept(tb, tris', newRef, m, ie, it, ieb, itb, ie', it');
      }
      if m == 2 {
        SettleKept(tb, tris', newRef, ie, it, ieb, itb, ie', it');
      }
    }
  }

  /** Edge `m` of the new triangle `newRef` is settled once the loop over
      its edges 1 and 2 is done, starting from the recorded edges `ie` and
      triangles `it`: either it is linked both ways with a triangle recorded
      before with an equal edge (across an equal edge of that triangle), or
      an equal edge is now recorded after `ie` in `ie'`. */
  predicate Settled(tris: Arena, newRef: nat, m: nat, ie: seq<Edge>, it: seq<nat>, ie': seq<Edge>)
  {
    newRef in tris && Formed(tris[newRef]) && m < 3 && |ie| == |it| &&
    var e := tris[newRef].edges[m];
    (exists i :: 0 <= i < |it| && IsEqual(ie[i], e) && Across(tris, newRef, m, it[i], e)) ||
    (exists k :: |ie| <= k < |ie'| && IsEqual(ie'[k], e))
  }

  /** Slot `m` of `a` holds `b`, and `b` holds `a` in a slot across an edge
      equal to `e`. */
  predicate Across(tris: Arena, a: nat, m: nat, b: nat, e: Edge)
    requires a in tris && m < |tris[a].neighbours|
  {
    b in tris && Formed(tris[b]) && tris[a].neighbours[m] == Some(b) &&
    exists slot :: 0 <= slot < 3 && IsEqual(tris[b].edges[slot], e) && tris[b].neighbours[slot] == Some(a)
  }

  /** The first equal edge of a list is still the first of any extension. */
  lemma FirstEqualPrefix(es: seq<Edge>, es': seq<Edge>, e: Edge)
    requires |es| <= |es'| && es'[..|es|] == es && FirstEqual(es, e) != -1
    ensures FirstEqual(es', e) == FirstEqual(es, e)
  {
    var i := FirstEqual(es, e);
    assert es'[i] == es[i];
    forall k | 0 <= k < i
      ensures !IsEqual(es'[k], e)
    {
      assert es'[k] == es[k];
    }
  }

  /** The pass for edge `m` settles that edge. */
  lemma SettleNew(tb: Arena, ta: Arena, newRef: nat, m: nat, ie: seq<Edge>, it: seq<nat>,
                  ieb: seq<Edge>, itb: seq<nat>, iea: seq<Edge>, ita: seq<nat>)
    requires Closed(tb) && Closed(ta) && newRef in tb && 1 <= m < 3 && Recorded(tb, ieb, itb) && Kept(tb, ta)
    requires |ie| == |it| && newRef !in it
    requires (ieb == ie && itb == it) || (ieb == ie + [tb[newRef].edges[1]] && itb == it + [newRef])
    requires Joined(tb, ta, newRef, m, ieb, itb, iea, ita)
    ensures Settled(ta, newRef, m, ie, it, iea)
  {
    var e := tb[newRef].edges[m];
    assert ieb[..|ie|] == ie && itb[..|it|] == it;
    var i := FirstEqual(ie, e);
    var ib := FirstEqual(ieb, e);
    if i != -1 {
      FirstEqualPrefix(ie, ieb, e);
      assert ieb[i] == ie[i] && itb[i] == it[i];
      assert it[i] in it;
      var slot := Mesh.IndexOf(tb[it[i]].edges, ie[i]);
      assert IsEqual(ta[it[i]].edges[slot], e);
      assert Across(ta, newRef, m, it[i], e);
    } else if ib == -1 {
      assert iea[|iea| - 1] == e;
    } else {
      assert ib == |ie| && ieb[ib] == tb[newRef].edges[1] && iea[ib] == ieb[ib];
    }
  }

  /** The pass for edge 2 keeps edge 1 settled. */
  lemma SettleKept(tb: Arena, ta: Arena, newRef: nat, ie: seq<Edge>, it: seq<nat>,
                   ieb: seq<Edge>, itb: seq<nat>, iea: seq<Edge>, ita: seq<nat>)
    requires Closed(tb) && newRef in tb && Recorded(tb, ieb, itb) && Kept(tb, ta)
    requires |ie| == |it| && newRef !in it
    requires var e1 := tb[newRef].edges[1];
      (ieb == ie && itb == it) || (ieb == ie + [e1] && itb == it + [newRef])
    requires Settled(tb, newRef, 1, ie, it, ieb)
    requires Joined(tb, ta, newRef, 2, ieb, itb, iea, ita)
    ensures Settled(ta, newRef, 1, ie, it, iea)
  {
    var e1 := tb[newRef].edges[1];
    if exists k :: |ie| <= k < |ieb| && IsEqual(ieb[k], e1) {
      var k :| |ie| <= k < |ieb| && IsEqual(ieb[k], e1);
      assert iea[k] == ieb[k];
    } else {
      assert |ieb| > |ie| ==> IsEqual(ieb[|ie|], e1);
      assert ieb == ie && itb == it;
      var i :| 0 <= i < |it| && IsEqual(ie[i], e1) && Across(tb, newRef, 1, it[i], e1);
      var i2 := FirstEqual(ie, tb[newRef].edges[2]);
      assert it[i] in it;
      if i2 != -1 {
        assert it[i2] in it;
        AcrossLinked(tb, ta, newRef, 1, it[i], e1, 2, it[i2], Mesh.IndexOf(tb[it[i2]].edges, ie[i2]));
      }
    }
  }

  /** Linking `a` across another of its slots, with a triangle other than
      `a`, keeps its link across slot `m`. */
  lemma AcrossLinked(tb: Arena, ta: Arena, a: nat, m: nat, b: nat, e: Edge, m2: nat, b2: nat, slot2: int)
    requires a in tb && b2 in tb && Formed(tb[a]) && Formed(tb[b2]) && Kept(tb, ta)
    requires m < 3 && 1 <= m2 < 3 && m != m2 && b2 != a && b != a
    requires Across(tb, a, m, b, e) && Linked(tb, ta, a, m2, b2, slot2)
    ensures Across(ta, a, m, b, e)
  {
    var slot :| 0 <= slot < 3 && IsEqual(tb[b].edges[slot], e) && tb[b].neighbours[slot] == Some(a);
    assert ta[b].neighbours[slot] == Some(a);
  }

  /** A pass keeps slot 0 of the new triangle unless its edges 0 and 1
      coincide: the only slot of `newRef` another pass can reach is where
      `indexOf` finds its recorded edge 1. */
  lemma SlotZeroKept(tb: Arena, ta: Arena, newRef: nat, m: nat, ie: seq<Edge>, it: seq<nat>,
                     ieb: seq<Edge>, itb: seq<nat>, iea: seq<Edge>, ita: seq<nat>)
    requires Closed(tb) && newRef in tb && 1 <= m < 3 && Recorded(tb, ieb, itb) && Kept(tb, ta)
    requires |ie| == |it| && newRef !in it
    requires (ieb == ie && itb == it) || (ieb == ie + [tb[newRef].edges[1]] && itb == it + [newRef])
    requires Joined(tb, ta, newRef, m, ieb, itb, iea, ita)
    requires tb[newRef].edges[0] != tb[newRef].edges[1]
    ensures ta[newRef].neighbours[0] == tb[newRef].neighbours[0]
  {
    var i := FirstEqual(ieb, tb[newRef].edges[m]);
    if i != -1 && itb[i] == newRef {
      assert i == |ie| && ieb[i] == tb[newRef].edges[1];
      assert Mesh.IndexOf(tb[newRef].edges, ieb[i]) != 0;
    }
  }

  /** Recording `newRef` once more, or not at all, keeps `it` as the prefix
      and `newRef` as the only triangle recorded after it. */
  lemma ExtendedBy(it: seq<nat>, mid: seq<nat>, it': seq<nat>, newRef: nat)
    requires |it| <= |mid| && mid[..|it|] == it
    requires forall k :: |it| <= k < |mid| ==> mid[k] == newRef
    requires forall r :: r in mid ==> r in it || r == newRef
    requires it' == mid || it' == mid + [newRef]
    ensures |it| <= |it'| && it'[..|it|] == it
    ensures forall k :: |it| <= k < |it'| ==> it'[k] == newRef
    ensures forall r :: r in it' ==> r in it || r == newRef
  {
    if it' != mid {
      assert it'[..|it|] == mid[..|it|];
      forall r | r in it'
        ensures r in it || r == newRef
      {
        if r != newRef {
          var k :| 0 <= k < |it'| && it'[k] == r;
          assert k < |mid| && mid[k] == r;
        }
      }
    }
  }

  /** Freshness depends only on the keys. */
  lemma FreshKeys(tris: Arena, tris': Arena, count: nat)
    requires Fresh(tris, count) && tris'.Keys == tris.Keys
    ensures Fresh(tris', count)
  {
    forall r | r in tris'
      ensures r < count
    {
      assert r in tris.Keys;
    }
  }

  lemma KeptTrans(t0: Arena, t1: Arena, t2: Arena)
    requires Kept(t0, t1) && Kept(t1, t2)
    ensures Kept(t0, t2)
  {
  }

  /** The new triangles are numbered from `count` on, one per cavity edge,
      each built on its edge. */
  predicate Numbered(tris: Arena, count: nat, ce: seq<Edge>, nt: seq<nat>, s: Shop)
  {
    |nt| == |ce| && forall k :: 0 <= k < |nt| ==> nt[k] == count + k && nt[k] in tris && Spawned(tris[nt[k]], ce[k], s)
  }

  /** The values the insertion loop updates: the arena, the allocation
      count, `cavityEdges`, the new triangles, and the parallel lists
      `cavityInternalEdges` and `cavityInternalEdgesToNewTriangles`. */
  datatype Work = Work(tris: Arena, count: nat, ce: seq<Edge>, nt: seq<nat>, ie: seq<Edge>, it: seq<nat>)

  /** What holds of the loop's values after some new triangles, starting
      from the closed arena `tris` with allocation count `count`: the arena
      is closed and holds `tris` with unchanged shapes plus the new
      triangles, each built on its cavity edge; the recorded internal edges
      belong to new triangles; the cavity triangles are untouched. */
  ghost predicate Sound(tris: Arena, count: nat, olds: seq<nat>, s: Shop, w: Work)
  {
    && Closed(w.tris) && Fresh(w.tris, w.count) && count <= w.count && Kept(tris, w.tris)
    && (forall r :: r in w.tris <==> r in tris || count <= r < w.count)
    && Recorded(w.tris, w.ie, w.it) && (forall r :: r in w.it ==> count <= r < w.count)
    && w.count == count + |w.nt| && Numbered(w.tris, count, w.ce, w.nt, s)
    && (forall r :: r in olds && r in tris ==> w.tris[r] == tris[r])
  }

  /** One new triangle, on `edge` with neighbour `nb` outside the cavity,
      keeps the loop's values sound. */
  method Grow(tris: Arena, count: nat, olds: seq<nat>, s: Shop, w: Work, edge: Edge, nb: Option<nat>)
    returns (w': Work)
    requires Closed(tris) && Fresh(tris, count) && Sound(tris, count, olds, s, w)
    requires nb.Some? ==> nb.value in tris && nb.value !in olds
    ensures Sound(tris, count, olds, s, w') && w'.ce == w.ce + [edge]
  {
    assert nb.Some? ==> nb.value < count && nb.value !in w.it && nb.value in w.tris;
    var tris', ie', it' := Spawn(w.tris, w.count, edge, nb, s, w.ie, w.it);
    KeptTrans(tris, w.tris, tris');
    NumberedNext(w.tris, tris', count, w.ce, w.nt, s, edge);
    w' := Work(tris', w.count + 1, w.ce + [edge], w.nt + [w.count], ie', it');
    RecordedBelow(w.it, it', count, w.count);
    forall r | r in olds && r in tris
      ensures tris'[r] == tris[r]
    {
      assert r < count && r !in w.it;
    }
  }

  /** Extending the recorded triangles with the one numbered `c` keeps them
      numbered from `count` up to `c`. */
  lemma RecordedBelow(it: seq<nat>, it': seq<nat>, count: nat, c: nat)
    requires count <= c && forall r :: r in it ==> count <= r < c
    requires |it| <= |it'| && it'[..|it|] == it
    requires forall k :: |it| <= k < |it'| ==> it'[k] == c
    ensures forall r :: r in it' ==> count <= r < c + 1
  {
    forall r | r in it'
      ensures count <= r < c + 1
    {
      var k :| 0 <= k < |it'| && it'[k] == r;
      if k < |it| {
        assert it[k] == it'[..|it|][k] == r;
        assert r in it;
      } else {
        assert r == c;
      }
    }
  }

  /** Numbering survives any change that keeps the triangles' shapes, and
      extends with the next new triangle. */
  lemma NumberedNext(tris: Arena, tris': Arena, count: nat, ce: seq<Edge>, nt: seq<nat>, s: Shop, e: Edge)
    requires Numbered(tris, count, ce, nt, s) && Kept(tris, tris')
    requires count + |nt| in tris' && Spawned(tris'[count + |nt|], e, s)
    ensures Numbered(tris', count, ce + [e], nt + [count + |nt|], s)
  {
    forall k | 0 <= k < |nt|
      ensures nt[k] in tris' && Spawned(tris'[nt[k]], ce[k], s)
    {
      assert nt[k] in tris;
    }
  }

  /** Joining two increasing lists, the first below the second, gives an
      increasing list. */
  lemma IncreasingJoin(a: seq<nat>, b: seq<nat>)
    requires Mesh.Increasing(a) && Mesh.Increasing(b)
    requires forall x, y :: x in a && y in b ==> x < y
    ensures Mesh.Increasing(a + b)
  {
    forall i, j | 0 <= i < j < |a + b|
      ensures (a + b)[i] < (a + b)[j]
    {
      if i < |a| && |a| <= j {
        assert (a + b)[i] in a && (a + b)[j] in b;
      }
    }
  }

  /** The live list after the insertion: pushing the new triangles and then
      deleting the cavity triangles one by one leaves the other live
      triangles in order, followed by the new ones. */
  lemma Spliced(live: seq<nat>, olds: seq<nat>, nt: seq<nat>, count: nat)
    requires Mesh.Increasing(live) && Mesh.Increasing(olds) && forall r :: r in olds ==> r in live
    requires forall r :: r in live ==> r < count
    requires forall k :: 0 <= k < |nt| ==> nt[k] == count + k
    ensures Mesh.DeleteAll(live + nt, olds) == Mesh.Without(live, Mesh.Elems(olds)) + nt
    ensures Mesh.Increasing(Mesh.Without(live, Mesh.Elems(olds)) + nt)
  {
    var gone := Mesh.Elems(olds);
    assert Mesh.Increasing(nt);
    IncreasingJoin(live, nt);
    Mesh.IncreasingNoDuplicates(olds);
    Mesh.DeleteExactly(live + nt, olds);
    Mesh.WithoutAppend(live, nt, gone);
    Mesh.WithoutNone(nt, gone);
    Mesh.WithoutIncreasing(live, gone);
    Mesh.WithoutMembers(live, gone);
    IncreasingJoin(Mesh.Without(live, gone), nt);
  }

  /** The inner loop over the three edges of the cavity triangle `r`: a new
      triangle on each edge whose neighbour is outside the cavity. */
  method Hollow(tris: Arena, count: nat, olds: seq<nat>, s: Shop, w: Work, r: nat)
    returns (w': Work)
    requires Closed(tris) && Fresh(tris, count) && Sound(tris, count, olds, s, w)
    requires r in olds && r in tris
    ensures Sound(tris, count, olds, s, w') && w'.ce == w.ce + Cut(tris[r], olds, 3)
  {
    var t := w.tris[r];
    assert t == tris[r];
    w' := w;
    for j := 0 to 3
      invariant Sound(tris, count, olds, s, w') && w'.ce == w.ce + Cut(t, olds, j)
    {
      w' := Side(tris, count, olds, s, w', t, j, w.ce);
    }
  }

  /** One pass of that loop: edge `j` of `t` gains a new triangle when its
      neighbour is outside the cavity. */
  method Side(tris: Arena, count: nat, olds: seq<nat>, s: Shop, w: Work, t: Triangle, j: nat, ce: seq<Edge>)
    returns (w': Work)
    requires Closed(tris) && Fresh(tris, count) && Sound(tris, count, olds, s, w)
    requires t in tris.Values && j < 3 && w.ce == ce + Cut(t, olds, j)
    ensures Sound(tris, count, olds, s, w') && w'.ce == ce + Cut(t, olds, j + 1)
  {
    var nb := t.neighbours[j];
    if nb.None? || Mesh.IndexOf(olds, nb.value) == -1 {
      assert nb.Some? ==> nb.value in tris;
      w' := Grow(tris, count, olds, s, w, t.edges[j], nb);
    } else {
      w' := w;
    }
  }

  /** The outer loop over the cavity triangles: afterwards `cavityEdges` is
      the whole boundary of the cavity. */
  method Carve(tris: Arena, count: nat, olds: seq<nat>, s: Shop) returns (w: Work)
    requires Closed(tris) && Fresh(tris, count) && forall r :: r in olds ==> r in tris
    ensures Sound(tris, count, olds, s, w) && w.ce == Boundary(tris, olds, olds)
  {
    w := Work(tris, count, [], [], [], []);
    for i := 0 to |olds|
      invariant Sound(tris, count, olds, s, w) && w.ce == Boundary(tris, olds[..i], olds)
    {
      w := Hollow(tris, count, olds, s, w, olds[i]);
      assert olds[..i + 1][..i] == olds[..i];
    }
    assert olds[..|olds|] == olds;
  }

  /** The insertion of shop `s` into the live triangles `live` of the
      closed arena `tris`, with `count` triangles constructed so far, gives
      `tris'`, `live'` and `count'`: one new triangle, numbered in order from
      `count`, on each edge of the boundary of the cavity (the live
      triangles whose circumcircle contains `s`); the cavity leaves the live
      list and the new triangles follow the rest; every triangle keeps its
      shape and the cavity triangles are untouched. */
  ghost predicate Inserted(tris: Arena, live: seq<nat>, s: Shop, count: nat, tris': Arena, live': seq<nat>, count': nat)
    requires Closed(tris) && KeyedIn(live, tris)
  {
    var olds := OldOf(tris, live, s);
    var ce := Boundary(tris, olds, olds);
    var kept := Mesh.Without(live, Mesh.Elems(olds));
    && count' == count + |ce| && |live'| == |kept| + |ce|
    && live'[..|kept|] == kept && Numbered(tris', count, ce, live'[|kept|..], s)
    && Kept(tris, tris') && forall r :: r in olds ==> tris'[r] == tris[r]
  }

  /** The loop values after the whole cavity give the insertion. */
  lemma InsertedFrom(tris: Arena, live: seq<nat>, s: Shop, count: nat, w: Work)
    requires Closed(tris) && KeyedIn(live, tris)
    requires var olds := OldOf(tris, live, s);
      Sound(tris, count, olds, s, w) && w.ce == Boundary(tris, olds, olds)
    ensures var olds := OldOf(tris, live, s);
      Inserted(tris, live, s, count, w.tris, Mesh.Without(live, Mesh.Elems(olds)) + w.nt, w.count)
  {
    var olds := OldOf(tris, live, s);
    var kept := Mesh.Without(live, Mesh.Elems(olds));
    assert (kept + w.nt)[..|kept|] == kept && (kept + w.nt)[|kept|..] == w.nt;
  }

  /** The insertion branch of `repeat` for shop `s`, on the values it
      changes: `oldTriangles` is the cavity, one new triangle is built on
      each cavity edge whose neighbour is outside the cavity (null
      included), and the live list loses the cavity and gains the new
      triangles at its end. The arena stays closed and keeps every triangle's
      shape; the cavity triangles themselves are untouched. */
  method Insert(tris: Arena, live: seq<nat>, s: Shop, count: nat)
    returns (tris': Arena, live': seq<nat>, count': nat, olds: seq<nat>, cavityEdges: seq<Edge>, newTris: seq<nat>)
    requires Closed(tris) && Fresh(tris, count) && KeyedIn(live, tris) && Mesh.Increasing(live)
    ensures olds == OldOf(tris, live, s) && cavityEdges == Boundary(tris, olds, olds)
    ensures count' == count + |newTris| && Numbered(tris', count, cavityEdges, newTris, s)
    ensures live' == Mesh.Without(live, Mesh.Elems(olds)) + newTris
    ensures Closed(tris') && Fresh(tris', count') && Kept(tris, tris') && KeyedIn(live', tris') && Mesh.Increasing(live')
    ensures forall r :: r in olds ==> tris'[r] == tris[r]
    ensures Inserted(tris, live, s, count, tris', live', count')
  {
    olds := FindOld(tris, live, s);
    var w := Carve(tris, count, olds, s);
    tris', count', cavityEdges, newTris := w.tris, w.count, w.ce, w.nt;
    live' := Mesh.DeleteTriangles(live + newTris, olds);
    Spliced(live, olds, newTris, count);
    Mesh.WithoutMembers(live, Mesh.Elems(olds));
    InsertedFrom(tris, live, s, count, w);
  }
}
