/** Seed scattering of app/lib/scatter.js: argument checks, the algorithm
    table and the uniform-random algorithm over an occupancy grid. The calls to
    `Math.random` are replaced by a caller-supplied sequence of draws in [0, 1). */
module Scatter {
  import opened Wrappers
  import opened Numerals
  import opened Vertices
  import opened Seeds

  /** Integer coordinates with 0 <= x < width and 0 <= y < height. */
  predicate InArea(v: Vertex, width: nat, height: nat)
  {
    v.x == v.x.Floor as real && v.y == v.y.Floor as real &&
    0 <= v.x.Floor < width && 0 <= v.y.Floor < height
  }

  /** `Math.floor(draw * n)`: a cell index in [0, n). */
  function Cell(d: real, n: nat): (c: int)
    requires 0.0 <= d < 1.0 && n > 0
    ensures 0 <= c < n
  {
    ScaledDraw(d, n);
    (d * n as real).Floor
  }

  /** The names of the implemented algorithms. */
  const Algorithms: set<string> := {"random"}

  /** `algorithms.random(width, height, size)`: `size` vertices at distinct
      free cells, each retry consuming two draws; running out of draws (the
      source retries forever) is a failure. */
  method Random(width: nat, height: nat, size: nat, draws: seq<real>, vf: VertexFactory)
    returns (r: Result<seq<Vertex>>)
    requires width > 0 && height > 0 && Draws(draws) && vf.Valid()
    modifies vf
    ensures vf.Valid()
    ensures r.Err? ==> r.msg == "random draws exhausted"
    ensures r.Ok? ==> |r.value| == size && Distinct(r.value)
    ensures r.Ok? ==> forall i :: 0 <= i < size ==> InArea(r.value[i], width, height)
    ensures r.Ok? ==> forall i :: 0 <= i < size ==> r.value[i].id == old(vf.count) + i
    ensures r.Ok? ==> vf.count == old(vf.count) + size
  {
    var grid := new bool[width, height]((a, b) => false);
    var vertices: seq<Vertex> := [];
    var k := 0;
    for i := 0 to size
      invariant |vertices| == i && Distinct(vertices) && vf.Valid()
      invariant vf.count == old(vf.count) + i
      invariant forall j :: 0 <= j < i ==> InArea(vertices[j], width, height)
      invariant forall j :: 0 <= j < i ==> vertices[j].id == old(vf.count) + j
      invariant forall a, b :: 0 <= a < width && 0 <= b < height ==>
        (grid[a, b] <==> Occupied(vertices, a, b))
    {
      var x, y := 0, 0;
      while true
        invariant 0 <= x < width && 0 <= y < height
        decreases |draws| - k
      {
        if k + 2 > |draws| {
          return Err("random draws exhausted");
        }
        x, y := Cell(draws[k], width), Cell(draws[k + 1], height);
        k := k + 2;
        if !grid[x, y] {
          break;
        }
      }
      var v := vf.Create(x as real, y as real);
      OccupiedAppend(vertices, v);
      DistinctAppend(vertices, v, x, y);
      vertices := vertices + [v];
      grid[x, y] := true;
    }
    r := Ok(vertices);
  }

  /** `generate(alg, width, height, count)`: the name must be non-empty and
      the area and count positive; an unknown algorithm and an area smaller
      than the count are refused; otherwise the algorithm runs. */
  method Generate(alg: string, width: int, height: int, count: int, draws: seq<real>, vf: VertexFactory)
    returns (r: Result<seq<Vertex>>)
    requires Draws(draws) && vf.Valid()
    modifies vf
    ensures vf.Valid()
    ensures |alg| == 0 ==> r == Err("`alg` must be a non-empty string")
    ensures |alg| > 0 && (width <= 0 || height <= 0 || count <= 0) ==> r.Err?
    ensures |alg| > 0 && width > 0 && height > 0 && count > 0 && alg !in Algorithms ==>
      r == Err("algorithm not implemented: " + alg)
    ensures |alg| > 0 && width > 0 && height > 0 && count > 0 && alg in Algorithms && width * height < count ==>
      r == Err("too many points to scatter: " + Decimal(count))
    ensures r.Ok? ==> alg in Algorithms && count <= width * height && |r.value| == count && Distinct(r.value)
    ensures r.Ok? ==> forall i :: 0 <= i < count ==> InArea(r.value[i], width, height)
  {
    if |alg| == 0 {
      return Err("`alg` must be a non-empty string");
    }
    if width <= 0 {
      return Err("`width` must be an integer greater than 0");
    }
    if height <= 0 {
      return Err("`height` must be an integer greater than 0");
    }
    if count <= 0 {
      return Err("`count` must be an integer greater than 0");
    }
    if alg !in Algorithms {
      return Err("algorithm not implemented: " + alg);
    }
    if width * height < count {
      return Err("too many points to scatter: " + Decimal(count));
    }
    r := Random(width, height, count, draws, vf);
  }
}
