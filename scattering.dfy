/** The older scatterer of app/lib/scattering.js: rounding instead of
    flooring, so coordinates reach the far border. Its points are built with
    the vertex constructor of app/classes, which is not part of this model;
    the vertices here come from the counter of app/lib/vertex.js. */
module Scattering {
  import opened Wrappers
  import opened Asserts
  import opened Vertices
  import opened Seeds

  /** `Math.round(draw * n)`, that is the floor of the product plus a half:
      a coordinate in [0, n]. */
  function Round(d: real, n: nat): (c: int)
    requires 0.0 <= d < 1.0
    ensures 0 <= c <= n
  {
    ScaledDraw(d, n);
    (d * n as real + 0.5).Floor
  }

  /** Integer coordinates in [0, width] x [0, height], borders included. */
  predicate InClosedArea(v: Vertex, width: nat, height: nat)
  {
    v.x == v.x.Floor as real && v.y == v.y.Floor as real &&
    0 <= v.x.Floor <= width && 0 <= v.y.Floor <= height
  }

  /** `random(width, height, size)`: the three arguments must be positive
      integers and the area large enough; then `size` distinct vertices in
      [0, width] x [0, height], a position accepted only at an unmarked cell
      of the grid and its cell marked. Running out of draws (the source
      retries forever) is a failure. */
  method Random(width: int, height: int, size: int, draws: seq<real>, vf: VertexFactory)
    returns (r: Result<seq<Vertex>>)
    requires Draws(draws) && vf.Valid()
    modifies vf
    ensures vf.Valid()
    ensures width <= 0 ==> r == Err(Failure("argument `width` must be an integer greater than 0"))
    ensures width > 0 && height <= 0 ==> r == Err(Failure("argument `height` must be an integer greater than 0"))
    ensures width > 0 && height > 0 && size <= 0 ==> r == Err(Failure("argument `size` must be an integer greater than 0"))
    ensures width > 0 && height > 0 && size > 0 && size > width * height ==> r == Err(Failure("too many points to scatter"))
    ensures r.Err? ==> r.msg == "random draws exhausted" || width <= 0 || height <= 0 || size <= 0 || size > width * height
    ensures r.Ok? ==> |r.value| == size && Distinct(r.value)
    ensures r.Ok? ==> forall i :: 0 <= i < |r.value| ==> InClosedArea(r.value[i], width, height)
  {
    var ok := Assert(width > 0, "argument `width` must be an integer greater than 0");
    if ok.Fail? { return Err(ok.msg); }
    ok := Assert(height > 0, "argument `height` must be an integer greater than 0");
    if ok.Fail? { return Err(ok.msg); }
    ok := Assert(size > 0, "argument `size` must be an integer greater than 0");
    if ok.Fail? { return Err(ok.msg); }
    ok := Assert(size <= width * height, "too many points to scatter");
    if ok.Fail? { return Err(ok.msg); }
    var grid := new bool[width + 1, height + 1]((a, b) => false);
    var points: seq<Vertex> := [];
    var k := 0;
    for i := 0 to size
      invariant |points| == i && Distinct(points) && vf.Valid()
      invariant forall j :: 0 <= j < i ==> InClosedArea(points[j], width, height)
      invariant forall a, b :: 0 <= a <= width && 0 <= b <= height ==> (grid[a, b] <==> Occupied(points, a, b))
    {
      var x, y := 0, 0;
      while true
        invariant 0 <= x <= width && 0 <= y <= height
        decreases |draws| - k
      {
        if k + 2 > |draws| {
          return Err("random draws exhausted");
        }
        x, y := Round(draws[k], width), Round(draws[k + 1], height);
        k := k + 2;
        if !grid[x, y] {
          break;
        }
      }
      var v := vf.Create(x as real, y as real);
      OccupiedAppend(points, v);
      DistinctAppend(points, v, x, y);
      points := points + [v];
      grid[x, y] := true;
    }
    r := Ok(points);
  }
}
