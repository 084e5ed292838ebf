/** What the two scatterers share: the stand-in for `Math.random`, the
    distinctness of a scatter (the `distinct` helper of test/helpers.js) and
    the occupancy of a grid cell. */
module Seeds {
  import opened Vertices

  /** The values `Math.random` would have returned, each in [0, 1). */
  predicate Draws(draws: seq<real>)
  {
    forall k :: 0 <= k < |draws| ==> 0.0 <= draws[k] < 1.0
  }

  /** A draw scaled by `n` lies in [0, n], and below `n` when `n` is positive. */
  lemma ScaledDraw(d: real, n: nat)
    requires 0.0 <= d < 1.0
    ensures 0.0 <= d * n as real <= n as real
    ensures n > 0 ==> d * n as real < n as real
  {
    var m := n as real;
    assert d * m + (1.0 - d) * m == m;
    NonNegProduct(d, m);
    NonNegProduct(1.0 - d, m);
    if n > 0 {
      PositiveProduct(1.0 - d, m);
    }
  }

  lemma NonNegProduct(a: real, b: real)
    requires a >= 0.0 && b >= 0.0
    ensures a * b >= 0.0
  {
  }

  lemma PositiveProduct(a: real, b: real)
    requires a > 0.0 && b > 0.0
    ensures a * b > 0.0
  {
  }

  /** No two vertices share both coordinates. */
  predicate Distinct(vs: seq<Vertex>)
  {
    forall i, j :: 0 <= i < j < |vs| ==> !(vs[i].x == vs[j].x && vs[i].y == vs[j].y)
  }

  /** Some vertex sits at (a, b). */
  predicate Occupied(vs: seq<Vertex>, a: int, b: int)
  {
    exists j :: 0 <= j < |vs| && vs[j].x == a as real && vs[j].y == b as real
  }

  /** Appending a vertex occupies its own cell and keeps the others. */
  lemma OccupiedAppend(vs: seq<Vertex>, v: Vertex)
    ensures forall a: int, b: int :: Occupied(vs + [v], a, b) <==>
      Occupied(vs, a, b) || (v.x == a as real && v.y == b as real)
  {
    forall a: int, b: int | Occupied(vs + [v], a, b) && !(v.x == a as real && v.y == b as real)
      ensures Occupied(vs, a, b)
    {
      var j :| 0 <= j < |vs| + 1 && (vs + [v])[j].x == a as real && (vs + [v])[j].y == b as real;
      assert j < |vs| && vs[j] == (vs + [v])[j];
    }
    forall a: int, b: int | Occupied(vs, a, b)
      ensures Occupied(vs + [v], a, b)
    {
      var j :| 0 <= j < |vs| && vs[j].x == a as real && vs[j].y == b as real;
      assert (vs + [v])[j] == vs[j];
    }
    assert (vs + [v])[|vs|] == v;
  }

  /** A vertex at a free cell keeps a scatter distinct. */
  lemma DistinctAppend(vs: seq<Vertex>, v: Vertex, x: int, y: int)
    requires Distinct(vs) && !Occupied(vs, x, y) && v.x == x as real && v.y == y as real
    ensures Distinct(vs + [v])
  {
    forall i, j | 0 <= i < j < |vs| + 1
      ensures !((vs + [v])[i].x == (vs + [v])[j].x && (vs + [v])[i].y == (vs + [v])[j].y)
    {
      if j == |vs| {
        assert (vs + [v])[i] == vs[i];
      } else {
        assert (vs + [v])[i] == vs[i] && (vs + [v])[j] == vs[j];
      }
    }
  }
}
