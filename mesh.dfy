/** The triangulation as an id-keyed arena of triangle records plus the list
    of live triangles, and the bookkeeping steps of the Bowyer-Watson engine
    that only read or filter it (app/lib/voronoi.js, app/classes/Voronoi.js,
    js/city.js). */
module Mesh {
  import opened Wrappers
  import opened Vertices
  import opened Edges
  import opened Triangles

  /** Every triangle ever built, by id; a JavaScript object reference to a
      triangle is its id here. */
  type Arena = map<nat, Tri>

  /** Every link of `t` names a triangle of the arena. */
  predicate LinksInto(t: Tri, tris: Arena)
  {
    forall k :: k in t.links && t.links[k].Some? ==> t.links[k].value in tris
  }

  /** Each record is filed under its own id, is keyed, and links only into the arena. */
  predicate Closed(tris: Arena)
  {
    forall id :: id in tris ==> tris[id].id == id && Keyed(tris[id]) && LinksInto(tris[id], tris)
  }

  /** The triangle and edge counters are ahead of every id in the arena. */
  predicate Fresh(tris: Arena, tcount: nat, ecount: nat)
  {
    forall id :: id in tris ==> id < tcount && forall j :: 0 <= j < |tris[id].edges| ==> tris[id].edges[j].id < ecount
  }

  predicate Increasing(s: seq<nat>)
  {
    forall i, j :: 0 <= i < j < |s| ==> s[i] < s[j]
  }

  /** Appending an element above all others keeps a list increasing. */
  lemma IncreasingSnoc(a: seq<nat>, x: nat)
    requires Increasing(a) && forall y :: y in a ==> y < x
    ensures Increasing(a + [x])
  {
    assert forall i :: 0 <= i < |a| ==> (a + [x])[i] == a[i] && a[i] in a;
  }

  /** A prefix of an increasing list is increasing, and below the next element. */
  lemma IncreasingPrefix(s: seq<nat>, n: nat)
    requires Increasing(s) && n < |s|
    ensures Increasing(s[..n]) && forall y :: y in s[..n] ==> y < s[n]
  {
  }

  /** A sub-list of all but the last element of `s`, followed by that last
      element, is increasing when `s` is and the sub-list is. */
  lemma KeepLast(s: seq<nat>, prev: seq<nat>)
    requires |s| > 0 && forall y :: y in prev ==> y in s[..|s| - 1]
    requires Increasing(s[..|s| - 1]) ==> Increasing(prev)
    ensures Increasing(s) ==> Increasing(prev + [s[|s| - 1]])
  {
    if Increasing(s) {
      IncreasingPrefix(s, |s| - 1);
      IncreasingSnoc(prev, s[|s| - 1]);
    }
  }

  /** Every id of `s` names a triangle of the arena with three edges, each
      keyed in its neighbour map. */
  predicate KeyedIn(s: seq<nat>, tris: Arena)
  {
    forall x :: x in s ==> x in tris && Keyed(tris[x])
  }

  /** The elements of `s` not in `gone`, in their order. */
  function Without(s: seq<nat>, gone: set<nat>): seq<nat>
  {
    if |s| == 0 then []
    else
      var n := |s| - 1;
      Without(s[..n], gone) + (if s[n] in gone then [] else [s[n]])
  }

  /** Filtering keeps exactly the elements outside `gone`. */
  lemma {:induction false} WithoutMembers(s: seq<nat>, gone: set<nat>)
    ensures forall x :: x in Without(s, gone) <==> x in s && x !in gone
  {
    if |s| > 0 {
      var n := |s| - 1;
      WithoutMembers(s[..n], gone);
      assert s == s[..n] + [s[n]];
    }
  }

  /** Filtering an increasing list leaves it increasing. */
  lemma {:induction false} WithoutIncreasing(s: seq<nat>, gone: set<nat>)
    requires Increasing(s)
    ensures Increasing(Without(s, gone))
  {
    if |s| > 0 {
      var n := |s| - 1;
      IncreasingPrefix(s, n);
      WithoutIncreasing(s[..n], gone);
      WithoutMembers(s[..n], gone);
      if s[n] !in gone {
        IncreasingSnoc(Without(s[..n], gone), s[n]);
      }
    }
  }

  /** The live triangles whose circumcircle contains `seed`, in live order:
      for ascending ids, the order in which JavaScript enumerates the integer
      keys of the cavity object. */
  function CavityOf(tris: Arena, live: seq<nat>, seed: Vertex): (c: seq<nat>)
    requires KeyedIn(live, tris)
    ensures forall x :: x in c <==> x in live && CircumcircleContains(tris[x], seed)
    ensures Increasing(live) ==> Increasing(c)
  {
    if |live| == 0 then []
    else
      var n := |live| - 1;
      assert forall i :: 0 <= i < n ==> live[..n][i] == live[i];
      assert forall x :: x in live <==> x in live[..n] || x == live[n];
      var prev := CavityOf(tris, live[..n], seed);
      if !CircumcircleContains(tris[live[n]], seed) then prev
      else
        KeepLast(live, prev);
        prev + [live[n]]
  }

  /** `_identifyCavity`: one pass over the live list, keeping the triangles
      whose circumcircle contains the seed; the live list is not changed. */
  method IdentifyCavity(tris: Arena, live: seq<nat>, seed: Vertex) returns (cavity: seq<nat>)
    requires KeyedIn(live, tris)
    ensures cavity == CavityOf(tris, live, seed)
  {
    cavity := [];
    for i := 0 to |live|
      invariant cavity == CavityOf(tris, live[..i], seed)
    {
      assert live[..i + 1][..i] == live[..i];
      if CircumcircleContains(tris[live[i]], seed) {
        cavity := cavity + [live[i]];
      }
    }
    assert live[..|live|] == live;
  }

  /** `Array.prototype.indexOf`: the first position of `x`, or -1. */
  function IndexOf<T(==)>(s: seq<T>, x: T): (i: int)
    ensures -1 <= i < |s|
    ensures i == -1 <==> x !in s
    ensures i >= 0 ==> s[i] == x && x !in s[..i]
  {
    if |s| == 0 then -1
    else if s[0] == x then 0
    else
      var k := IndexOf(s[1..], x);
      assert s[1..][..if k < 0 then 0 else k] == s[1..1 + if k < 0 then 0 else k];
      if k == -1 then -1 else k + 1
  }

  /** `s.splice(i, 1)`: a negative start counts from the end, so -1 removes
      the last element. */
  function SpliceOne(s: seq<nat>, i: int): (r: seq<nat>)
    requires -1 <= i < |s|
    ensures i >= 0 ==> r == s[..i] + s[i + 1..]
    ensures i == -1 ==> r == if |s| == 0 then [] else s[..|s| - 1]
  {
    if i >= 0 then s[..i] + s[i + 1..]
    else if |s| == 0 then []
    else s[..|s| - 1]
  }

  /** The live list after `deleteTriangles(dels)`: each triangle in turn is
      spliced out at the position `indexOf` reports. */
  function DeleteAll(live: seq<nat>, dels: seq<nat>): seq<nat>
  {
    if |dels| == 0 then live
    else
      var n := |dels| - 1;
      var s := DeleteAll(live, dels[..n]);
      SpliceOne(s, IndexOf(s, dels[n]))
  }

  /** `deleteTriangles(triangles)`. */
  method DeleteTriangles(live: seq<nat>, dels: seq<nat>) returns (r: seq<nat>)
    ensures r == DeleteAll(live, dels)
  {
    r := live;
    for i := 0 to |dels|
      invariant r == DeleteAll(live, dels[..i])
    {
      assert dels[..i + 1][..i] == dels[..i];
      var k := IndexOf(r, dels[i]);
      r := SpliceOne(r, k);
    }
    assert dels[..|dels|] == dels;
  }

  predicate NoDuplicates(s: seq<nat>)
  {
    forall i, j :: 0 <= i < j < |s| ==> s[i] != s[j]
  }

  lemma IncreasingNoDuplicates(s: seq<nat>)
    requires Increasing(s)
    ensures NoDuplicates(s)
  {
  }

  /** Removing one present element of an increasing list is filtering it out. */
  lemma SpliceRemoves(s: seq<nat>, x: nat)
    requires Increasing(s) && x in s
    ensures SpliceOne(s, IndexOf(s, x)) == Without(s, {x})
  {
    var i := IndexOf(s, x);
    var a, b := s[..i], s[i + 1..];
    assert s == (a + [x]) + b;
    AfterIndexOf(s, x, i, b);
    WithoutAppend(a + [x], b, {x});
    WithoutAppend(a, [x], {x});
    WithoutOnly(x);
    WithoutNone(a, {x});
    WithoutNone(b, {x});
    assert a + [] == a;
  }

  /** In an increasing list nothing after the position of `x` equals `x`. */
  lemma AfterIndexOf(s: seq<nat>, x: nat, i: nat, rest: seq<nat>)
    requires Increasing(s) && i < |s| && s[i] == x && rest == s[i + 1..]
    ensures forall y :: y in rest ==> y != x
  {
    forall y | y in rest
      ensures y != x
    {
      var k :| 0 <= k < |rest| && rest[k] == y;
      assert s[i + 1 + k] == y;
    }
  }

  lemma WithoutOnly(x: nat)
    ensures Without([x], {x}) == []
  {
    assert [x][..0] == [];
  }

  lemma {:induction false} WithoutAppend(a: seq<nat>, b: seq<nat>, gone: set<nat>)
    ensures Without(a + b, gone) == Without(a, gone) + Without(b, gone)
    decreases |b|
  {
    if |b| == 0 {
      assert a + b == a;
    } else {
      var n := |b| - 1;
      assert (a + b)[..|a + b| - 1] == a + b[..n];
      WithoutAppend(a, b[..n], gone);
    }
  }

  lemma {:induction false} WithoutNone(s: seq<nat>, gone: set<nat>)
    requires forall x :: x in s ==> x !in gone
    ensures Without(s, gone) == s
  {
    if |s| > 0 {
      var n := |s| - 1;
      assert s == s[..n] + [s[n]];
      WithoutNone(s[..n], gone);
    }
  }

  lemma {:induction false} WithoutTwice(s: seq<nat>, a: set<nat>, b: set<nat>)
    ensures Without(Without(s, a), b) == Without(s, a + b)
  {
    if |s| > 0 {
      var n := |s| - 1;
      WithoutTwice(s[..n], a, b);
      WithoutAppend(Without(s[..n], a), if s[n] in a then [] else [s[n]], b);
    }
  }

  /** The elements of a list, as a set. */
  function Elems(s: seq<nat>): set<nat>
  {
    set x | x in s
  }

  /** The elements of a non-empty list are those of its prefix and its last. */
  lemma ElemsSnoc(s: seq<nat>)
    requires |s| > 0
    ensures Elems(s) == Elems(s[..|s| - 1]) + {s[|s| - 1]}
  {
    assert s == s[..|s| - 1] + [s[|s| - 1]];
  }

  /** Splicing out one more present triangle after filtering out `gone`
      filters out `gone` and that triangle. */
  lemma DeleteStep(live: seq<nat>, gone: set<nat>, x: nat)
    requires Increasing(live) && x in live && x !in gone
    ensures SpliceOne(Without(live, gone), IndexOf(Without(live, gone), x))
         == Without(live, gone + {x})
  {
    var s := Without(live, gone);
    WithoutMembers(live, gone);
    WithoutIncreasing(live, gone);
    SpliceRemoves(s, x);
    WithoutTwice(live, gone, {x});
  }

  /** Deleting distinct live triangles from an increasing live list removes
      exactly them and keeps the order of the rest. */
  lemma {:induction false} DeleteExactly(live: seq<nat>, dels: seq<nat>)
    requires Increasing(live) && NoDuplicates(dels)
    requires forall i :: 0 <= i < |dels| ==> dels[i] in live
    ensures DeleteAll(live, dels) == Without(live, Elems(dels))
  {
    if |dels| == 0 {
      assert Elems(dels) == {};
      WithoutNone(live, {});
    } else {
      var n := |dels| - 1;
      var pre, x := dels[..n], dels[n];
      assert forall i :: 0 <= i < n ==> pre[i] == dels[i];
      DeleteExactly(live, pre);
      assert x !in Elems(pre) by {
        forall i | 0 <= i < n
          ensures pre[i] != x
        {
          assert pre[i] == dels[i];
        }
      }
      DeleteStep(live, Elems(pre), x);
      ElemsSnoc(dels);
    }
  }

  /** A triangle absent from the live list makes `indexOf` report -1, and
      the splice then drops the last live triangle instead. */
  lemma DeleteMissingDropsLast(live: seq<nat>, x: nat)
    requires x !in live && |live| > 0
    ensures DeleteAll(live, [x]) == live[..|live| - 1]
  {
    assert [x][..0] == [];
  }

  /** Some vertex of `t` is a wrapper vertex. */
  predicate Touches(t: Tri, wrappers: set<nat>)
    requires Keyed(t)
  {
    exists j :: 0 <= j < 3 && t.vertices[j].id in wrappers
  }

  /** The live triangles that have a wrapper vertex, in live order. */
  function PerimeterOf(tris: Arena, live: seq<nat>, wrappers: set<nat>): (p: seq<nat>)
    requires KeyedIn(live, tris)
    ensures forall x :: x in p <==> x in live && Touches(tris[x], wrappers)
    ensures Increasing(live) ==> Increasing(p)
  {
    if |live| == 0 then []
    else
      var n := |live| - 1;
      assert forall i :: 0 <= i < n ==> live[..n][i] == live[i];
      assert forall x :: x in live <==> x in live[..n] || x == live[n];
      var prev := PerimeterOf(tris, live[..n], wrappers);
      if !Touches(tris[live[n]], wrappers) then prev
      else
        KeepLast(live, prev);
        prev + [live[n]]
  }

  /** The collection loop of `_removeExtraTriangles`: a triangle is pushed at
      its first wrapper vertex and the inner loop stops there, so it is
      collected once. */
  method CollectPerimeter(tris: Arena, live: seq<nat>, wrappers: set<nat>) returns (p: seq<nat>)
    requires KeyedIn(live, tris)
    ensures p == PerimeterOf(tris, live, wrappers)
  {
    p := [];
    for i := 0 to |live|
      invariant p == PerimeterOf(tris, live[..i], wrappers)
    {
      assert live[..i + 1][..i] == live[..i];
      var t := tris[live[i]];
      var j := 0;
      while j < 3
        invariant 0 <= j <= 3
        invariant forall k :: 0 <= k < j ==> t.vertices[k].id !in wrappers
      {
        if t.vertices[j].id in wrappers {
          p := p + [live[i]];
          break;
        }
        j := j + 1;
      }
    }
    assert live[..|live|] == live;
  }

  /** The wrapping step: three new vertices at the given corners, the edges
      v1-v2, v2-v3, v3-v1, and one triangle over them with no neighbours. */
  method Wrap(x1: real, y1: real, x2: real, y2: real, x3: real, y3: real,
              vf: VertexFactory, ef: EdgeFactory, tf: TriangleFactory)
    returns (t: Tri)
    requires vf.Valid() && ef.Valid() && tf.Valid()
    modifies vf, ef, tf
    ensures vf.Valid() && ef.Valid() && tf.Valid()
    ensures vf.count == old(vf.count) + 3 && ef.count == old(ef.count) + 3 && tf.count == old(tf.count) + 1
    ensures t.id == old(tf.count) && Keyed(t)
    ensures t.vertices == [Vertex(old(vf.count), x1, y1), Vertex(old(vf.count) + 1, x2, y2),
                           Vertex(old(vf.count) + 2, x3, y3)]
    ensures t.edges == [Edge(old(ef.count), t.vertices[0], t.vertices[1]),
                        Edge(old(ef.count) + 1, t.vertices[1], t.vertices[2]),
                        Edge(old(ef.count) + 2, t.vertices[2], t.vertices[0])]
    ensures forall k :: k in t.links ==> t.links[k].None?
  {
    var v1 := vf.Create(x1, y1);
    var v2 := vf.Create(x2, y2);
    var v3 := vf.Create(x3, y3);
    var e1 := ef.Create(v1, v2);
    var e2 := ef.Create(v2, v3);
    var e3 := ef.Create(v3, v1);
    t := tf.Create([v1, v2, v3], [e1, e2, e3], [None, None, None]);
    assert forall k :: k in t.links ==> k == e1.id || k == e2.id || k == e3.id;
    LinksLastWins([e1, e2, e3], [None, None, None], 0);
    LinksLastWins([e1, e2, e3], [None, None, None], 1);
    LinksLastWins([e1, e2, e3], [None, None, None], 2);
  }
}
