/** The older generator of app/classes/Voronoi.js: no state machine, only a
    flag that alternates between finding the cavity of the next seed and
    inserting it, a `delaunayComplete` flag set by the clean-up, and the dual
    pass. Its insertion, clean-up and dual pass are those of
    app/lib/voronoi.js, so the model reuses them. */
module Classic {
  import opened Wrappers
  import opened Asserts
  import opened Vertices
  import opened Edges
  import opened Triangles
  import opened Mesh
  import opened Seeds
  import Insertion
  import Dual
  import Scattering
  import Engine

  /** The two values of `delaunayState`: FIND_CAVITY_TRIANGLES and INSERT_SEED. */
  datatype Phase = Finding | Inserting

  /** How far the generator has got: never initialised, initialised,
      triangulating, triangulation complete. */
  datatype Stage = Unset | Ready | Running | Done

  /** The names `scattering[alg]` finds: the exports of app/lib/scattering.js. */
  const Scatterings: set<string> := {"random"}

  class Generator {
    const width: int
    const height: int
    /** `settings.seeds.scattering` and `settings.size`. */
    const algorithm: string
    const size: int
    /** The id counters of the vertices, edges and triangles. */
    const vf: VertexFactory
    const ef: EdgeFactory
    const tf: TriangleFactory

    var seeds: seq<Vertex>
    var tris: Arena
    /** `delaunayTriangles`, by id. */
    var live: seq<nat>
    /** `delaunayComplete` and `delaunayIndex`. */
    var complete: bool
    var index: nat
    /** `cavityTriangles`, in live order. */
    var cavity: seq<nat>
    var cavityEdges: seq<Edge>
    var newTris: seq<nat>
    var currentSeed: Option<Vertex>
    /** `delaunayState`. */
    var phase: Phase
    var voronoiComplete: bool
    var voronoiEdges: seq<Edge>
    /** `initialVertices`: the corners of the wrapper. */
    var initial: seq<Vertex>
    /** The seeds as scattered, without the corners of the wrapper. */
    ghost var scattered: seq<Vertex>
    ghost var stage: Stage

    /** The arena is closed with fresh counters, and the live list is an
        increasing list of its triangles. */
    ghost predicate Meshed()
      reads this, ef, tf
    {
      Closed(tris) && Fresh(tris, tf.count, ef.count) && KeyedIn(live, tris) && Increasing(live)
    }

    /** During the insertions the seed list is the scatter followed by the
        three corners of the wrapper. */
    ghost predicate Extended()
      reads this
    {
      |initial| == 3 && 0 < |scattered| && seeds == scattered + initial
    }

    /** No live triangle has a corner of the wrapper. */
    ghost predicate Cleared()
      reads this
      requires KeyedIn(live, tris)
    {
      forall x :: x in live ==> !Touches(tris[x], Engine.Ids(initial))
    }

    /** Between two steps of the triangulation: a seed is due to be picked,
        or the picked seed has its cavity and awaits insertion. */
    ghost predicate Pending()
      reads this
    {
      (phase == Finding ==> index < |scattered|) &&
      (phase == Inserting ==>
         1 <= index <= |scattered| && index - 1 < |seeds| && currentSeed == Some(seeds[index - 1]) &&
         Engine.Hollowed(tris, live, cavity) && cavityEdges == [] && newTris == [])
    }

    ghost predicate Valid()
      reads this, vf, ef, tf
    {
      vf.Valid() && ef.Valid() && tf.Valid() && KeyedIn(live, tris) &&
      match stage
      case Unset => seeds == []
      case Ready =>
        Meshed() && live == [] && index == 0 && !complete && phase == Finding &&
        seeds == scattered && 0 < |seeds|
      case Running => Meshed() && Extended() && !complete && Pending()
      case Done =>
        complete && phase == Finding && seeds == scattered && index == |seeds| && Cleared()
    }

    /** The state `init` leaves: no triangle is live, the index is at the
        first seed, the lists of an insertion are empty, the flag is at
        FIND_CAVITY_TRIANGLES and there is no Voronoi edge. */
    ghost predicate Restarted()
      reads this
    {
      live == [] && !complete && index == 0 && phase == Finding &&
      cavity == [] && cavityEdges == [] && newTris == [] && currentSeed.None? &&
      !voronoiComplete && voronoiEdges == []
    }

    /** A bound on the steps left: two per seed still to insert. */
    ghost function Rank(): nat
      reads this
    {
      if stage != Running || |scattered| < index then 0
      else if phase == Finding then 2 * (|scattered| - index)
      else 2 * (|scattered| - index) + 1
    }

    /** `new Voronoi(ctx, width, height, settings)`: the settings stored,
        nothing scattered yet. */
    constructor (width: int, height: int, algorithm: string, size: int,
                 vf: VertexFactory, ef: EdgeFactory, tf: TriangleFactory)
      requires vf.Valid() && ef.Valid() && tf.Valid()
      ensures Valid() && stage == Unset && seeds == []
      ensures this.width == width && this.height == height && this.algorithm == algorithm && this.size == size
      ensures this.vf == vf && this.ef == ef && this.tf == tf
    {
      this.width := width;
      this.height := height;
      this.algorithm := algorithm;
      this.size := size;
      this.vf := vf;
      this.ef := ef;
      this.tf := tf;
      seeds := [];
      tris := map[];
      live := [];
      complete := false;
      index := 0;
      cavity := [];
      cavityEdges := [];
      newTris := [];
      currentSeed := None;
      phase := Finding;
      voronoiComplete := false;
      voronoiEdges := [];
      initial := [];
      scattered := [];
      stage := Unset;
    }

    /** `scatterSeeds()`: the size must be positive and the algorithm one
        that app/lib/scattering.js exports; the seeds become its scatter. */
    method ScatterSeeds(draws: seq<real>) returns (r: Outcome)
      requires vf.Valid() && Draws(draws)
      modifies this`seeds, vf
      ensures vf.Valid()
      ensures size <= 0 ==> r == Fail(Failure("`settings.size` must be greater than 0"))
      ensures size > 0 && algorithm !in Scatterings ==> r == Fail(Failure("scattering not supported: " + algorithm))
      ensures r.Fail? ==> seeds == old(seeds)
      ensures r.Pass? ==> algorithm in Scatterings && 0 < width && 0 < height && 0 < size
      ensures r.Pass? ==>
                |seeds| == size && Distinct(seeds) &&
                forall i :: 0 <= i < |seeds| ==> Scattering.InClosedArea(seeds[i], width, height)
    {
      r := Assert(size > 0, "`settings.size` must be greater than 0");
      if r.Fail? {
        return;
      }
      if algorithm == "random" {
        var scatter := Scattering.Random(width, height, size, draws, vf);
        if scatter.Err? {
          return Fail(scatter.msg);
        }
        seeds := scatter.value;
      } else {
        r := Assert(false, "scattering not supported: " + algorithm);
      }
    }

    /** `init(keepScatter)`: keeping the scatter needs one; otherwise the
        seeds are scattered afresh. The triangulation and the diagram are
        reset, ready for `initDelaunay`. A failed call changes nothing but
        the vertex counter. */
    method Init(keepScatter: bool, draws: seq<real>) returns (r: Outcome)
      requires Valid() && Draws(draws)
      modifies this, vf
      ensures Valid()
      ensures keepScatter && |old(seeds)| == 0 ==> r == Fail(Failure("no scatter to keep"))
      ensures keepScatter && |old(seeds)| > 0 ==> r.Pass? && seeds == old(seeds)
      ensures !keepScatter && size > 0 && algorithm !in Scatterings ==> r.Fail?
      ensures !keepScatter && r.Pass? ==> |seeds| == size && Distinct(seeds)
      ensures r.Fail? ==> stage == old(stage) && seeds == old(seeds) && live == old(live) && tris == old(tris)
      ensures r.Pass? ==> stage == Ready && Restarted()
    {
      r := Assert(!keepScatter || |seeds| > 0, "no scatter to keep");
      if r.Fail? {
        return;
      }
      if !keepScatter {
        r := ScatterSeeds(draws);
        if r.Fail? {
          return;
        }
      }
      Reset();
    }

    /** The resets of `init`: no triangle, the index at the first seed, the
        lists of an insertion empty, the flag at FIND_CAVITY_TRIANGLES and no
        Voronoi edge; the seeds at hand become the scatter to triangulate. */
    method Reset()
      requires vf.Valid() && ef.Valid() && tf.Valid() && 0 < |seeds|
      modifies this`tris, this`live, this`complete, this`index, this`cavity, this`cavityEdges, this`newTris,
               this`currentSeed, this`phase, this`voronoiComplete, this`voronoiEdges, this`scattered, this`stage
      ensures Valid() && stage == Ready && scattered == seeds
      ensures Restarted()
    {
      Clear();
      stage := Ready;
    }

    /** The field resets of `init`. */
    method Clear()
      modifies this`tris, this`live, this`complete, this`index, this`cavity, this`cavityEdges, this`newTris,
               this`currentSeed, this`phase, this`voronoiComplete, this`voronoiEdges, this`scattered
      ensures Meshed() && Restarted() && KeyedIn(live, tris) && scattered == seeds
    {
      tris := map[];
      live := [];
      complete := false;
      index := 0;
      cavity := [];
      cavityEdges := [];
      newTris := [];
      currentSeed := None;
      phase := Finding;
      voronoiComplete := false;
      voronoiEdges := [];
      scattered := seeds;
    }

    /** `initDelaunay()`: one live triangle with corners (-1, -1),
        (2w + 1, -1) and (-1, 2h + 1) and no neighbours, its vertices
        appended to the seeds. */
    method InitDelaunay()
      requires Valid() && stage == Ready
      modifies this, vf, ef, tf
      ensures Valid() && stage == Running && scattered == old(scattered) && phase == Finding && index == 0
      ensures initial == [Vertex(old(vf.count), -1.0, -1.0), Vertex(old(vf.count) + 1, (width * 2 + 1) as real, -1.0),
                          Vertex(old(vf.count) + 2, -1.0, (height * 2 + 1) as real)]
      ensures seeds == old(seeds) + initial && live == [old(tf.count)]
      ensures tris[live[0]].vertices == initial && forall k :: k in tris[live[0]].links ==> tris[live[0]].links[k].None?
    {
      ghost var tc, ec := tf.count, ef.count;
      var t := Wrap(-1.0, -1.0, (width * 2 + 1) as real, -1.0, -1.0, (height * 2 + 1) as real, vf, ef, tf);
      Insertion.AddClosed(tris, t, tc, ec, ef.count);
      tris := tris[t.id := t];
      live := live + [t.id];
      initial := t.vertices;
      seeds := seeds + t.vertices;
      stage := Running;
    }

    /** The FIND_CAVITY_TRIANGLES branch of `nextDelaunayStep`: the lists
        of the last insertion are emptied, the seed at the index is picked
        and the index moves on; the cavity is exactly the live triangles
        whose circumcircle contains the seed. */
    method FindCavity()
      requires Valid() && stage == Running && phase == Finding
      modifies this
      ensures Valid() && stage == Running && scattered == old(scattered) && Rank() < old(Rank())
      ensures phase == Inserting && index == old(index) + 1 && currentSeed == Some(seeds[old(index)])
      ensures cavity == CavityOf(tris, live, currentSeed.value) && cavityEdges == [] && newTris == []
      ensures tris == old(tris) && live == old(live) && seeds == old(seeds)
    {
      var s := seeds[index];
      var c := Mesh.IdentifyCavity(tris, live, s);
      Engine.CavityInArena(tris, live, s);
      cavity, newTris, cavityEdges := c, [], [];
      currentSeed := Some(s);
      index := index + 1;
      phase := Inserting;
    }

    /** `cleanUpDelaunay()`: the triangulation is complete; every live
        triangle with a corner of the wrapper is deleted, and the three
        corners leave the seeds. */
    method CleanUp()
      requires KeyedIn(live, tris) && Increasing(live) && 3 <= |seeds|
      modifies this`complete, this`live, this`seeds
      ensures complete && seeds == old(seeds)[..|old(seeds)| - 3]
      ensures live == Without(old(live), Elems(PerimeterOf(tris, old(live), Engine.Ids(initial))))
      ensures KeyedIn(live, tris) && Increasing(live)
      ensures forall x :: x in live <==> x in old(live) && !Touches(tris[x], Engine.Ids(initial))
    {
      complete := true;
      live := Engine.Unwrap(tris, live, Engine.Ids(initial));
      seeds := seeds[..|seeds| - 3];
    }

    /** The insertion of the INSERT_SEED branch: a new triangle for each
        side of the cavity, the cavity deleted from the live list and the
        flag back at FIND_CAVITY_TRIANGLES. */
    method AddSeed()
      requires Valid() && stage == Running && phase == Inserting
      modifies this`tris, this`live, this`cavityEdges, this`newTris, this`phase, ef, tf
      ensures ef.Valid() && tf.Valid() && Meshed() && phase == Finding
      ensures Insertion.AllAcross(Insertion.Boundary(old(tris), old(cavity), |old(cavity)|), old(tris))
      ensures var b := Engine.Inserting(old(tris), old(cavity), currentSeed.value, old(ef.count), old(tf.count));
        tris == b.tris && cavityEdges == b.cavityEdges && newTris == b.newTris
      ensures live == Without(old(live), Elems(old(cavity))) + newTris
    {
      var tris', live', ce, nt := Engine.Insert(tris, live, cavity, currentSeed.value, ef, tf);
      tris, live, cavityEdges, newTris := tris', live', ce, nt;
      phase := Finding;
    }

    /** The INSERT_SEED branch of `nextDelaunayStep`: the insertion; once
        the index reaches the corners of the wrapper, the clean-up. */
    method InsertSeed()
      requires Valid() && stage == Running && phase == Inserting
      modifies this`tris, this`live, this`cavityEdges, this`newTris, this`phase, this`complete, this`seeds, this`stage, ef, tf
      ensures Valid() && Rank() < old(Rank())
      ensures phase == Finding
      ensures Insertion.AllAcross(Insertion.Boundary(old(tris), old(cavity), |old(cavity)|), old(tris))
      ensures var b := Engine.Inserting(old(tris), old(cavity), currentSeed.value, old(ef.count), old(tf.count));
        tris == b.tris && cavityEdges == b.cavityEdges && newTris == b.newTris
      ensures old(index) < |scattered| ==>
                stage == Running && !complete && live == Without(old(live), Elems(old(cavity))) + newTris
      ensures KeyedIn(Without(old(live), Elems(old(cavity))) + newTris, tris)
      ensures old(index) == |scattered| ==>
                (stage == Done && complete && seeds == scattered &&
                 forall x :: x in live <==> x in Without(old(live), Elems(old(cavity))) + newTris &&
                                            !Touches(tris[x], Engine.Ids(initial)))
    {
      AddSeed();
      if index >= |seeds| - 3 {
        Finish();
      }
    }

    /** The clean-up once the last scattered seed is in: the triangulation
        is done. */
    method Finish()
      requires vf.Valid() && ef.Valid() && tf.Valid() && Meshed() && Extended()
      requires stage == Running && phase == Finding && index == |scattered|
      modifies this`complete, this`live, this`seeds, this`stage
      ensures Valid() && stage == Done && complete && seeds == scattered
      ensures forall x :: x in live <==> x in old(live) && !Touches(tris[x], Engine.Ids(initial))
    {
      CleanUp();
      assert (scattered + initial)[..|scattered|] == scattered;
      stage := Done;
    }

    /** `nextDelaunayStep()`: one of the two branches, as the flag says.
        Each call brings the end of the triangulation closer. */
    method NextStep()
      requires Valid() && stage == Running
      modifies this, ef, tf
      ensures Valid() && scattered == old(scattered) && Rank() < old(Rank())
      ensures stage == Running || stage == Done
      ensures stage == Done <==> complete
      ensures old(phase) == Finding ==>
                phase == Inserting && currentSeed == Some(seeds[old(index)]) &&
                cavity == CavityOf(tris, live, currentSeed.value)
      ensures old(phase) == Inserting ==> phase == Finding && (complete <==> old(index) == |scattered|)
    {
      if phase == Finding {
        FindCavity();
      } else {
        InsertSeed();
      }
    }

    /** `computeVoronoi()`: the dual pass over the live triangles, with the
        Voronoi edges appended to those already there. */
    method ComputeVoronoi() returns (r: Outcome)
      requires Valid() && stage == Done
      modifies this`tris, this`voronoiEdges, this`voronoiComplete, vf, ef
      ensures Valid() && voronoiComplete
      ensures var run := Dual.Slots(Dual.Dual(old(tris), old(voronoiEdges), old(vf.count), old(ef.count)), live,
                                    3 * |live|, width as real, height as real);
        tris == run.d.tris && voronoiEdges == run.d.edges &&
        (r.Pass? <==> run.failure.None?) && (r.Fail? ==> Some(r.msg) == run.failure)
    {
      voronoiComplete := true;
      ghost var d0 := Dual.Dual(tris, voronoiEdges, vf.count, ef.count);
      var failure;
      tris, voronoiEdges, failure := Dual.ComputeVoronoi(tris, live, voronoiEdges, width as real, height as real, vf, ef);
      forall x | x in live
        ensures tris[x].vertices == d0.tris[x].vertices
      {
        Dual.SlotsKeepVertices(d0, live, 3 * |live|, width as real, height as real, x);
      }
      r := if failure.Some? then Fail(failure.value) else Pass;
    }

    /** `generate()`: there must be seeds; then the wrapper, the
        triangulation step by step until complete, and the dual pass. The
        loop ends, every scattered seed is inserted, the seeds are those
        scattered and no triangle of the wrapper remains. */
    method Generate() returns (r: Outcome)
      requires Valid() && (stage == Unset || stage == Ready)
      modifies this, vf, ef, tf
      ensures Valid()
      ensures old(stage) == Unset ==> r == Fail(Failure("seeds not scattered"))
      ensures old(stage) == Ready ==>
                stage == Done && complete && voronoiComplete && seeds == old(seeds) && index == |seeds| && Cleared()
    {
      r := Assert(|seeds| > 0, "seeds not scattered");
      if r.Fail? {
        return;
      }
      InitDelaunay();
      while !complete
        invariant Valid() && scattered == old(seeds) && (stage == Running || stage == Done)
        invariant stage == Done <==> complete
        decreases Rank()
      {
        NextStep();
      }
      r := ComputeVoronoi();
    }
  }
}
