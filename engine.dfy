/** The Voronoi generator of app/lib/voronoi.js: a state machine whose
    handlers wrap the area in a triangle, insert the seeds one at a time
    (pick, find the cavity, add), remove the triangles of the wrapper and
    compute the dual. */
module Engine {
  import opened Wrappers
  import opened Asserts
  import opened Vertices
  import opened Edges
  import opened Triangles
  import opened Mesh
  import opened Seeds
  import opened StateMachine
  import Insertion
  import Dual
  import Scatter

  /** The states of the generator. */
  datatype Phase = Initialised | Wrapped | SeedPicked | CavityIdentified | SeedAdded | ExtraRemoved | VoronoiComputed

  /** The handlers the table names. */
  datatype Step = WrapWithTriangle | PickSeed | IdentifyCavity | AddSeed | CheckStatus | ComputeVoronoi

  /** The array the constructor hands to `StateMachine.create`. */
  function Table(): seq<StateSpec<Phase, Step>>
  {
    [ StateSpec(Initialised, Some(WrapWithTriangle), Some(true)),
      StateSpec(Wrapped, Some(PickSeed), None),
      StateSpec(SeedPicked, Some(IdentifyCavity), None),
      StateSpec(CavityIdentified, Some(AddSeed), Some(true)),
      StateSpec(SeedAdded, Some(CheckStatus), Some(true)),
      StateSpec(ExtraRemoved, Some(ComputeVoronoi), None),
      StateSpec(VoronoiComputed, None, Some(true)) ]
  }

  /** The schedule the table is meant to set up: the handler of each
      state and whether the generation may pause there. */
  function Schedule(p: Phase): Entry<Step>
  {
    match p
    case Initialised => Entry(true, Some(WrapWithTriangle))
    case Wrapped => Entry(false, Some(PickSeed))
    case SeedPicked => Entry(false, Some(IdentifyCavity))
    case CavityIdentified => Entry(true, Some(AddSeed))
    case SeedAdded => Entry(true, Some(CheckStatus))
    case ExtraRemoved => Entry(false, Some(ComputeVoronoi))
    case VoronoiComputed => Entry(true, None)
  }

  /** The machine built from the table registers every state, with the
      scheduled handler and pause flag. */
  lemma Scheduled(p: Phase)
    ensures p in Build(Table()) && Build(Table())[p] == Schedule(p)
  {
    var i := match p
      case Initialised => 0
      case Wrapped => 1
      case SeedPicked => 2
      case CavityIdentified => 3
      case SeedAdded => 4
      case ExtraRemoved => 5
      case VoronoiComputed => 6;
    BuildLastWins(Table(), i);
  }

  /** The state `next` moves to from `p`; `due` says whether the last
      scattered seed has been inserted. */
  function Successor(p: Phase, due: bool): Phase
  {
    match p
    case Initialised => Wrapped
    case Wrapped => SeedPicked
    case SeedPicked => CavityIdentified
    case CavityIdentified => SeedAdded
    case SeedAdded => if due then ExtraRemoved else SeedPicked
    case ExtraRemoved => VoronoiComputed
    case VoronoiComputed => VoronoiComputed
  }

  /** A bound on the number of steps left from `p` with `remaining` seeds
      still to pick: three steps per seed, and a few around them. */
  function Progress(p: Phase, remaining: nat): nat
  {
    match p
    case Initialised => 3 * (remaining + 3) + 6
    case Wrapped => 3 * remaining + 5
    case SeedPicked => 3 * remaining + 4
    case CavityIdentified => 3 * remaining + 3
    case SeedAdded => 3 * remaining + 2
    case ExtraRemoved => 1
    case VoronoiComputed => 0
  }

  /** The ids of some vertices. */
  function Ids(vs: seq<Vertex>): (s: set<nat>)
    ensures forall i :: 0 <= i < |vs| ==> vs[i].id in s
  {
    set i | 0 <= i < |vs| :: vs[i].id
  }

  /** The insertion `_addSeed` performs from arena `tris` over `cavity`,
      with the edge and triangle counters at `E0` and `T0`. */
  ghost function Inserting(tris: Arena, cavity: seq<nat>, seed: Vertex, E0: nat, T0: nat): Insertion.Build
    requires Closed(tris) && Insertion.CavityIn(tris, cavity) && Insertion.AllAcross(Insertion.Boundary(tris, cavity, |cavity|), tris)
  {
    Insertion.Steps(Insertion.Start(tris, E0, T0), seed, Insertion.Boundary(tris, cavity, |cavity|))
  }

  /** What the insertion needs of a cavity: an increasing list of live
      triangles of the arena. */
  predicate Hollowed(tris: Arena, live: seq<nat>, cavity: seq<nat>)
  {
    Insertion.CavityIn(tris, cavity) && Increasing(cavity) && forall x :: x in cavity ==> x in live
  }

  /** The cavity of a seed is an increasing list of live triangles. */
  lemma CavityInArena(tris: Arena, live: seq<nat>, seed: Vertex)
    requires KeyedIn(live, tris) && Increasing(live)
    ensures Hollowed(tris, live, CavityOf(tris, live, seed))
  {
    var c := CavityOf(tris, live, seed);
    forall i | 0 <= i < |c|
      ensures c[i] in live
    {
      assert c[i] in c;
    }
  }

  /** An insertion over the cavity of a seed keeps the arena closed with
      fresh counters, and the live list an increasing list of its
      triangles. */
  lemma Added(tris: Arena, live: seq<nat>, cavity: seq<nat>, seed: Vertex, E0: nat, T0: nat, live': seq<nat>)
    requires Closed(tris) && Fresh(tris, T0, E0) && KeyedIn(live, tris) && Increasing(live)
    requires Hollowed(tris, live, cavity) && Insertion.AllAcross(Insertion.Boundary(tris, cavity, |cavity|), tris)
    requires var b := Inserting(tris, cavity, seed, E0, T0);
      Insertion.Rebuilt(b, tris, cavity, seed, E0, T0) && live' == Without(live, Elems(cavity)) + b.newTris
    ensures var b := Inserting(tris, cavity, seed, E0, T0);
      Closed(b.tris) && Fresh(b.tris, b.tcount, b.ecount) && KeyedIn(live', b.tris) && Increasing(live')
  {
    var b := Inserting(tris, cavity, seed, E0, T0);
    WithoutMembers(live, Elems(cavity));
    Insertion.LiveAfter(tris, live, cavity, T0, E0, b.newTris);
  }

  /** `_addSeed` on the values of the generator: the insertion over the
      cavity, with the arena kept closed with fresh counters and the live
      list kept an increasing list of its triangles. */
  method Insert(tris: Arena, live: seq<nat>, cavity: seq<nat>, seed: Vertex, ef: EdgeFactory, tf: TriangleFactory)
    returns (tris': Arena, live': seq<nat>, cavityEdges: seq<Edge>, newTris: seq<nat>)
    requires ef.Valid() && tf.Valid()
    requires Closed(tris) && Fresh(tris, tf.count, ef.count) && KeyedIn(live, tris) && Increasing(live)
    requires Hollowed(tris, live, cavity)
    modifies ef, tf
    ensures ef.Valid() && tf.Valid() && Insertion.AllAcross(Insertion.Boundary(tris, cavity, |cavity|), tris)
    ensures var b := Inserting(tris, cavity, seed, old(ef.count), old(tf.count));
      tris' == b.tris && cavityEdges == b.cavityEdges && newTris == b.newTris &&
      ef.count == b.ecount && tf.count == b.tcount
    ensures live' == Without(live, Elems(cavity)) + newTris
    ensures Closed(tris') && Fresh(tris', tf.count, ef.count) && KeyedIn(live', tris') && Increasing(live')
  {
    ghost var E0, T0 := ef.count, tf.count;
    tris', live', cavityEdges, newTris := Insertion.AddSeed(tris, live, cavity, seed, ef, tf);
    Added(tris, live, cavity, seed, E0, T0, live');
  }

  /** Deleting the triangles that touch the corners leaves exactly the
      others, in order. */
  lemma Removed(tris: Arena, live: seq<nat>, corners: set<nat>, perimeter: seq<nat>)
    requires KeyedIn(live, tris) && Increasing(live) && perimeter == PerimeterOf(tris, live, corners)
    ensures DeleteAll(live, perimeter) == Without(live, Elems(perimeter))
    ensures Increasing(DeleteAll(live, perimeter))
    ensures forall x :: x in DeleteAll(live, perimeter) <==> x in live && !Touches(tris[x], corners)
  {
    IncreasingNoDuplicates(perimeter);
    DeleteExactly(live, perimeter);
    WithoutMembers(live, Elems(perimeter));
    WithoutIncreasing(live, Elems(perimeter));
  }

  /** The clean-up the three drivers share: the live triangles with a
      corner of the wrapper are collected in live order and deleted. */
  method Unwrap(tris: Arena, live: seq<nat>, corners: set<nat>) returns (live': seq<nat>)
    requires KeyedIn(live, tris) && Increasing(live)
    ensures live' == Without(live, Elems(PerimeterOf(tris, live, corners)))
    ensures KeyedIn(live', tris) && Increasing(live')
    ensures forall x :: x in live' <==> x in live && !Touches(tris[x], corners)
  {
    var perimeter := CollectPerimeter(tris, live, corners);
    Removed(tris, live, corners, perimeter);
    live' := DeleteTriangles(live, perimeter);
  }

  class Generator {
    const width: int
    const height: int
    /** `settings.seeds.scattering` and `settings.size`. */
    const algorithm: string
    const size: int
    const machine: Machine<Phase, Step>
    /** The id counters of vertex.js, edge.js and triangle.js. */
    const vf: VertexFactory
    const ef: EdgeFactory
    const tf: TriangleFactory

    var seeds: seq<Vertex>
    var tris: Arena
    /** `delaunayTriangles`, by id. */
    var live: seq<nat>
    /** `delaunayIndex`. */
    var index: nat
    /** `cavityTriangles`, in live order. */
    var cavity: seq<nat>
    var cavityEdges: seq<Edge>
    var newTris: seq<nat>
    var currentSeed: Option<Vertex>
    var voronoiComplete: bool
    var voronoiEdges: seq<Edge>
    /** `initialVertices`: the corners of the wrapper. */
    var initial: seq<Vertex>
    /** The seeds as scattered, without the corners of the wrapper. */
    ghost var scattered: seq<Vertex>

    /** The parts of the generator that no step breaks. */
    ghost predicate Sane()
      reads this, machine, vf, ef, tf
    {
      machine.Valid() && machine.states == Build(Table()) && vf.Valid() && ef.Valid() && tf.Valid()
    }

    /** The arena is closed with fresh counters, and the live list is an
        increasing list of its triangles. */
    ghost predicate Meshed()
      reads this, ef, tf
    {
      Closed(tris) && Fresh(tris, tf.count, ef.count) && KeyedIn(live, tris) && Increasing(live)
    }

    ghost predicate Extended()
      reads this
    {
      |initial| == 3 && 0 < |scattered| && seeds == scattered + initial
    }

    ghost predicate Cleared()
      reads this
    {
      KeyedIn(live, tris) && forall x :: x in live ==> !Touches(tris[x], Ids(initial))
    }

    ghost predicate Holds(p: Phase)
      reads this, ef, tf
    {
      match p
      case Initialised =>
        Meshed() && live == [] && index == 0 && seeds == scattered && 0 < |seeds|
      case Wrapped =>
        Meshed() && Extended() && index == 0
      case SeedPicked =>
        Meshed() && Extended() && 1 <= index <= |scattered| && currentSeed == Some(seeds[index - 1])
      case CavityIdentified =>
        Meshed() && Extended() && 1 <= index <= |scattered| && currentSeed == Some(seeds[index - 1]) &&
        Hollowed(tris, live, cavity) && cavityEdges == [] && newTris == []
      case SeedAdded =>
        Meshed() && Extended() && 1 <= index <= |scattered|
      case ExtraRemoved =>
        Meshed() && seeds == scattered && index == |seeds| && Cleared()
      case VoronoiComputed =>
        Cleared() && seeds == scattered && index == |seeds| && voronoiComplete
    }

    ghost predicate Valid()
      reads this, machine, vf, ef, tf
    {
      Sane() && (machine.current.Some? ==> Holds(machine.current.value))
    }

    /** The seeds not yet picked. */
    function Remaining(): nat
      reads this
    {
      if index <= |seeds| then |seeds| - index else 0
    }

    /** Has the index reached the corners of the wrapper? */
    function Due(): bool
      reads this
    {
      index >= |seeds| - 3
    }

    /** A bound on the number of `next` calls left. */
    function Rank(): nat
      reads this, machine
    {
      if machine.current.None? then 0 else Progress(machine.current.value, Remaining())
    }

    /** A handler called in state `p0` succeeded: it returned the next
        state, whose invariant holds, and the end is closer than `rank0`. */
    ghost predicate Stepped(p0: Phase, r: Result<Phase>, rank0: nat, due: bool)
      reads this, ef, tf
    {
      r.Ok? ==> r.value == Successor(p0, due) && Holds(r.value) && Progress(r.value, Remaining()) < rank0
    }

    /** The constructor: the state machine over the table, no state set. */
    constructor (width: int, height: int, algorithm: string, size: int,
                 vf: VertexFactory, ef: EdgeFactory, tf: TriangleFactory)
      requires vf.Valid() && ef.Valid() && tf.Valid()
      ensures Valid() && machine.current.None?
      ensures this.width == width && this.height == height && this.algorithm == algorithm && this.size == size
      ensures this.vf == vf && this.ef == ef && this.tf == tf
    {
      this.width := width;
      this.height := height;
      this.algorithm := algorithm;
      this.size := size;
      this.vf := vf;
      this.ef := ef;
      this.tf := tf;
      machine := new Machine(Table());
      seeds := [];
      tris := map[];
      live := [];
      index := 0;
      cavity := [];
      cavityEdges := [];
      newTris := [];
      currentSeed := None;
      voronoiComplete := false;
      voronoiEdges := [];
      initial := [];
      scattered := [];
    }

    /** `assert(this.state.is(p), "unexpected state")`: `is` itself fails
        first while no state is set. */
    function Expect(p: Phase): (r: Outcome)
      reads machine
      ensures r.Pass? <==> machine.current == Some(p)
      ensures machine.current.None? ==> r == Fail(Failure("initial state not set"))
      ensures machine.current.Some? && machine.current != Some(p) ==> r == Fail(Failure("unexpected state"))
    {
      match machine.Is(p)
      case Err(msg) => Fail(msg)
      case Ok(b) => Assert(b, "unexpected state")
    }

    /** `init(keepScatter)`: keeping the scatter needs one; otherwise the
        seeds are scattered afresh. Everything else is reset and the state
        set to INITIALISED. */
    method Init(keepScatter: bool, draws: seq<real>) returns (r: Outcome)
      requires Sane() && Draws(draws)
      modifies this, machine, vf
      ensures Sane()
      ensures keepScatter && |old(seeds)| == 0 ==> r == Fail(Failure("no scatter to keep"))
      ensures keepScatter && |old(seeds)| > 0 ==> r.Pass? && seeds == old(seeds)
      ensures !keepScatter && algorithm !in Scatter.Algorithms ==> r.Fail?
      ensures !keepScatter && r.Pass? ==>
                (0 < width && 0 < height && |seeds| == size && Distinct(seeds) && forall i :: 0 <= i < |seeds| ==> Scatter.InArea(seeds[i], width, height))
      ensures r.Pass? ==> Valid() && machine.current == Some(Initialised)
      ensures r.Pass? ==>
                (live == [] && index == 0 && cavity == [] && cavityEdges == [] && newTris == [] &&
                 currentSeed.None? && !voronoiComplete && voronoiEdges == [])
    {
      r := Assert(!keepScatter || |seeds| > 0, "no scatter to keep");
      if r.Fail? {
        return;
      }
      if !keepScatter {
        var scatter := Scatter.Generate(algorithm, width, height, size, draws, vf);
        if scatter.Err? {
          return Fail(scatter.msg);
        }
        seeds := scatter.value;
      }
      r := Restart();
    }

    /** The resets of `init`: no triangle, the index at the first seed, the
        lists of an insertion empty, no Voronoi edge; the seeds at hand
        become the scatter to triangulate and the state is INITIALISED. */
    method Restart() returns (r: Outcome)
      requires Sane() && 0 < |seeds|
      modifies this`tris, this`live, this`index, this`cavity, this`cavityEdges, this`newTris, this`currentSeed,
               this`voronoiComplete, this`voronoiEdges, this`scattered, machine
      ensures Sane() && Valid() && r.Pass? && machine.current == Some(Initialised) && scattered == seeds
      ensures live == [] && index == 0 && cavity == [] && cavityEdges == [] && newTris == [] &&
              currentSeed.None? && !voronoiComplete && voronoiEdges == []
    {
      Clear();
      Scheduled(Initialised);
      r := machine.Set(Initialised);
    }

    /** The field resets of `init`. */
    method Clear()
      requires 0 < |seeds|
      modifies this`tris, this`live, this`index, this`cavity, this`cavityEdges, this`newTris, this`currentSeed,
               this`voronoiComplete, this`voronoiEdges, this`scattered
      ensures Holds(Initialised) && scattered == seeds
      ensures live == [] && index == 0 && cavity == [] && cavityEdges == [] && newTris == [] &&
              currentSeed.None? && !voronoiComplete && voronoiEdges == []
    {
      tris := map[];
      live := [];
      index := 0;
      cavity := [];
      cavityEdges := [];
      newTris := [];
      currentSeed := None;
      voronoiComplete := false;
      voronoiEdges := [];
      scattered := seeds;
    }

    /** `_wrapWithTriangle`: one live triangle with corners (-1, -1),
        (2w + 1, -1) and (-1, 2h + 1) and no neighbours, its vertices
        appended to the seeds. */
    method WrapWithTriangle() returns (r: Result<Phase>)
      requires Valid()
      modifies this, vf, ef, tf
      ensures Sane() && scattered == old(scattered)
      ensures r.Err? ==> Fail(r.msg) == Expect(Initialised) && unchanged(this)
      ensures r.Ok? <==> machine.current == Some(Initialised)
      ensures Stepped(Initialised, r, old(Rank()), old(Due()))
      ensures r.Ok? ==>
                (initial == [Vertex(old(vf.count), -1.0, -1.0), Vertex(old(vf.count) + 1, (width * 2 + 1) as real, -1.0),
                             Vertex(old(vf.count) + 2, -1.0, (height * 2 + 1) as real)] &&
                 seeds == old(seeds) + initial && |live| == 1 && live[0] == old(tf.count) &&
                 tris[live[0]].vertices == initial && forall k :: k in tris[live[0]].links ==> tris[live[0]].links[k].None?)
    {
      var o := Expect(Initialised);
      if o.Fail? {
        return Err(o.msg);
      }
      ghost var tc, ec := tf.count, ef.count;
      var t := Wrap(-1.0, -1.0, (width * 2 + 1) as real, -1.0, -1.0, (height * 2 + 1) as real, vf, ef, tf);
      Insertion.AddClosed(tris, t, tc, ec, ef.count);
      tris := tris[t.id := t];
      live := live + [t.id];
      initial := t.vertices;
      seeds := seeds + t.vertices;
      r := Ok(Wrapped);
    }

    /** `_pickSeed`: in WRAPPED_WITH_TRIANGLE or SEED_ADDED, the seed at the
        index is picked and the index moves on. While the index is short of
        the corners of the wrapper, the pick is a scattered seed. */
    method PickSeed() returns (r: Result<Phase>)
      requires Valid()
      modifies this
      ensures scattered == old(scattered)
      ensures r.Err? ==> r.msg == Failure("unexpected state") && unchanged(this)
      ensures r.Ok? <==> machine.current == Some(Wrapped) || machine.current == Some(SeedAdded)
      ensures r.Ok? ==>
                (r.value == SeedPicked && old(index) < |seeds| && currentSeed == Some(seeds[old(index)]) &&
                 index == old(index) + 1 && seeds == old(seeds) && tris == old(tris) && live == old(live))
      ensures r.Ok? && old(index) < |scattered| ==> Stepped(machine.current.value, r, old(Rank()), old(Due()))
    {
      if machine.current != Some(Wrapped) && machine.current != Some(SeedAdded) {
        return Err(Failure("unexpected state"));
      }
      currentSeed := Some(seeds[index]);
      index := index + 1;
      r := Ok(SeedPicked);
    }

    /** `_identifyCavity`: the cavity is exactly the live triangles whose
        circumcircle contains the seed; the lists of the last insertion are
        emptied. */
    method IdentifyCavity() returns (r: Result<Phase>)
      requires Valid()
      modifies this
      ensures scattered == old(scattered)
      ensures r.Err? ==> Fail(r.msg) == Expect(SeedPicked) && unchanged(this)
      ensures r.Ok? <==> machine.current == Some(SeedPicked)
      ensures Stepped(SeedPicked, r, old(Rank()), old(Due()))
      ensures r.Ok? ==>
                (cavity == CavityOf(tris, live, currentSeed.value) && tris == old(tris) && live == old(live) &&
                 cavityEdges == [] && newTris == [])
    {
      var o := Expect(SeedPicked);
      if o.Fail? {
        return Err(o.msg);
      }
      Hollow();
      r := Ok(CavityIdentified);
    }

    /** The search `_identifyCavity` performs once the state is checked. */
    method Hollow()
      requires Holds(SeedPicked)
      modifies this`cavity, this`cavityEdges, this`newTris
      ensures Holds(CavityIdentified) && cavity == CavityOf(tris, live, currentSeed.value)
    {
      cavity := [];
      newTris := [];
      cavityEdges := [];
      cavity := Mesh.IdentifyCavity(tris, live, currentSeed.value);
      CavityInArena(tris, live, currentSeed.value);
    }

    /** `_addSeed`: the insertion of the seed over the cavity; the cavity
        leaves the live list, the rest keeps its order and the new triangles
        follow. */
    method AddSeed() returns (r: Result<Phase>)
      requires Valid()
      modifies this, ef, tf
      ensures Sane() && scattered == old(scattered)
      ensures r.Err? ==> Fail(r.msg) == Expect(CavityIdentified) && unchanged(this, ef, tf)
      ensures r.Ok? <==> machine.current == Some(CavityIdentified)
      ensures Stepped(CavityIdentified, r, old(Rank()), old(Due()))
      ensures r.Ok? ==> currentSeed == old(currentSeed) && currentSeed.Some?
      ensures r.Ok? ==> live == Without(old(live), Elems(old(cavity))) + newTris
      ensures r.Ok? ==> Insertion.AllAcross(Insertion.Boundary(old(tris), old(cavity), |old(cavity)|), old(tris))
      ensures r.Ok? ==>
                var b := Inserting(old(tris), old(cavity), currentSeed.value, old(ef.count), old(tf.count));
                tris == b.tris && cavityEdges == b.cavityEdges && newTris == b.newTris
    {
      var o := Expect(CavityIdentified);
      if o.Fail? {
        return Err(o.msg);
      }
      Grow();
      r := Ok(SeedAdded);
    }

    /** The insertion `_addSeed` performs once the state is checked. */
    method Grow()
      requires ef.Valid() && tf.Valid() && Holds(CavityIdentified)
      modifies this`tris, this`live, this`cavityEdges, this`newTris, ef, tf
      ensures ef.Valid() && tf.Valid() && Holds(SeedAdded) && currentSeed.Some?
      ensures live == Without(old(live), Elems(old(cavity))) + newTris
      ensures Insertion.AllAcross(Insertion.Boundary(old(tris), old(cavity), |old(cavity)|), old(tris))
      ensures var b := Inserting(old(tris), old(cavity), currentSeed.value, old(ef.count), old(tf.count));
        tris == b.tris && cavityEdges == b.cavityEdges && newTris == b.newTris
    {
      var tris', live', ce, nt := Insert(tris, live, cavity, currentSeed.value, ef, tf);
      tris, live, cavityEdges, newTris := tris', live', ce, nt;
    }

    /** `_removeExtraTriangles`: every live triangle with a corner of the
        wrapper is deleted, and the three corners leave the seeds. */
    method RemoveExtraTriangles() returns (r: Result<Phase>)
      requires Valid()
      modifies this
      ensures scattered == old(scattered)
      ensures r.Err? ==> Fail(r.msg) == Expect(SeedAdded) && unchanged(this)
      ensures r.Ok? <==> machine.current == Some(SeedAdded)
      ensures r.Ok? ==> r.value == ExtraRemoved && tris == old(tris) && seeds == old(seeds)[..|old(seeds)| - 3]
      ensures r.Ok? ==> live == Without(old(live), Elems(PerimeterOf(tris, old(live), Ids(initial))))
      ensures r.Ok? ==> forall x :: x in live <==> x in old(live) && !Touches(tris[x], Ids(initial))
      ensures old(Due()) ==> Stepped(SeedAdded, r, old(Rank()), old(Due()))
    {
      var o := Expect(SeedAdded);
      if o.Fail? {
        return Err(o.msg);
      }
      var perimeter := CollectPerimeter(tris, live, Ids(initial));
      Removed(tris, live, Ids(initial), perimeter);
      live := DeleteTriangles(live, perimeter);
      assert (scattered + initial)[..|scattered|] == scattered;
      seeds := seeds[..|seeds| - 3];
      r := Ok(ExtraRemoved);
    }

    /** `_checkTrianguationStatus`: once the index reaches the corners of
        the wrapper the extra triangles go, otherwise the next seed is
        picked. A corner is never picked. */
    method CheckStatus() returns (r: Result<Phase>)
      requires Valid()
      modifies this
      ensures scattered == old(scattered)
      ensures r.Err? ==> Fail(r.msg) == Expect(SeedAdded) && unchanged(this)
      ensures r.Ok? <==> machine.current == Some(SeedAdded)
      ensures Stepped(SeedAdded, r, old(Rank()), old(Due()))
      ensures r.Ok? ==> tris == old(tris)
      ensures r.Ok? && old(Due()) ==>
                (seeds == old(seeds)[..|old(seeds)| - 3] &&
                 forall x :: x in live <==> x in old(live) && !Touches(tris[x], Ids(initial)))
      ensures r.Ok? && !old(Due()) ==> currentSeed == Some(seeds[old(index)]) && old(index) < |seeds| - 3
    {
      var o := Expect(SeedAdded);
      if o.Fail? {
        return Err(o.msg);
      }
      if index >= |seeds| - 3 {
        r := RemoveExtraTriangles();
      } else {
        r := PickSeed();
      }
    }

    /** `_computeVoronoi`: the dual pass over the live triangles, with the
        Voronoi edges appended to those already there. */
    method ComputeVoronoi() returns (r: Result<Phase>)
      requires Valid()
      modifies this, vf, ef
      ensures Sane() && scattered == old(scattered)
      ensures machine.current != Some(ExtraRemoved) ==> r.Err? && Fail(r.msg) == Expect(ExtraRemoved) && unchanged(this, vf, ef)
      ensures machine.current == Some(ExtraRemoved) ==>
                var run := Dual.Slots(Dual.Dual(old(tris), old(voronoiEdges), old(vf.count), old(ef.count)), old(live),
                                      3 * |old(live)|, width as real, height as real);
                voronoiComplete && live == old(live) && tris == run.d.tris && voronoiEdges == run.d.edges &&
                (r.Ok? <==> run.failure.None?) && (r.Err? ==> Some(r.msg) == run.failure)
      ensures Stepped(ExtraRemoved, r, old(Rank()), old(Due()))
    {
      var o := Expect(ExtraRemoved);
      if o.Fail? {
        return Err(o.msg);
      }
      voronoiComplete := true;
      ghost var d0 := Dual.Dual(tris, voronoiEdges, vf.count, ef.count);
      var failure;
      tris, voronoiEdges, failure := Dual.ComputeVoronoi(tris, live, voronoiEdges, width as real, height as real, vf, ef);
      if failure.Some? {
        return Err(failure.value);
      }
      forall x | x in live
        ensures tris[x].vertices == d0.tris[x].vertices
      {
        Dual.SlotsKeepVertices(d0, live, 3 * |live|, width as real, height as real, x);
      }
      r := Ok(VoronoiComputed);
    }

    /** The call `next` makes: the handler `h` scheduled for the current
        state `p0`. */
    method Dispatch(h: Step, ghost p0: Phase) returns (target: Result<Phase>)
      requires Valid() && machine.current == Some(p0) && Schedule(p0).next == Some(h)
      modifies this, vf, ef, tf
      ensures Sane() && scattered == old(scattered) && machine.current == Some(p0)
      ensures p0 != ExtraRemoved ==> target.Ok?
      ensures Stepped(p0, target, old(Rank()), old(Due()))
    {
      match h {
        case WrapWithTriangle => target := WrapWithTriangle();
        case PickSeed => target := PickSeed();
        case IdentifyCavity => target := IdentifyCavity();
        case AddSeed => target := AddSeed();
        case CheckStatus => target := CheckStatus();
        case ComputeVoronoi => target := ComputeVoronoi();
      }
    }

    /** `next()` of the state machine: the handler of the current state is
        called and its state set. Only the dual pass can fail once the
        generator is initialised, and each step brings the end closer. */
    method Next() returns (r: Outcome)
      requires Valid()
      modifies this, machine, vf, ef, tf
      ensures Sane() && scattered == old(scattered)
      ensures old(machine.current).None? ==> r == Fail(Failure("initial state not set"))
      ensures old(machine.current) == Some(VoronoiComputed) ==> r == Fail(Failure("state has no handler"))
      ensures old(machine.current) !in {None, Some(VoronoiComputed), Some(ExtraRemoved)} ==> r.Pass?
      ensures r.Pass? ==>
                old(machine.current).Some? &&
                machine.current == Some(Successor(old(machine.current).value, old(Due())))
      ensures r.Pass? ==> Valid() && Rank() < old(Rank())
    {
      if machine.current.Some? {
        Scheduled(machine.current.value);
      }
      var h := machine.Handler();
      if h.Err? {
        return Fail(h.msg);
      }
      ghost var p0, rank0, due0 := machine.current.value, Rank(), Due();
      var target := Dispatch(h.value, p0);
      if target.Err? {
        return Fail(target.msg);
      }
      Scheduled(target.value);
      r := machine.Transition(Some(target.value));
    }

    /** `generate()`: from INITIALISED, `next` until VORONOI_COMPUTED. The
        loop ends, every scattered seed has been inserted, the seeds are
        those scattered and no triangle of the wrapper remains. */
    method Generate() returns (r: Outcome)
      requires Valid()
      modifies this, machine, vf, ef, tf
      ensures Sane()
      ensures old(machine.current) != Some(Initialised) ==> r == old(Expect(Initialised))
      ensures r.Pass? ==>
                (Valid() && machine.current == Some(VoronoiComputed) && voronoiComplete &&
                 seeds == old(seeds) && index == |seeds| && Cleared())
    {
      r := Expect(Initialised);
      if r.Fail? {
        return;
      }
      while machine.current != Some(VoronoiComputed)
        invariant Valid() && machine.current.Some? && scattered == old(scattered) && old(seeds) == scattered
        decreases Rank()
      {
        r := Next();
        if r.Fail? {
          return;
        }
      }
    }

    /** `resume()`: `next` at least once, then until a state where a pause
        is allowed; the answer is whether the diagram is complete. */
    method Resume() returns (r: Result<bool>)
      requires Valid()
      modifies this, machine, vf, ef, tf
      ensures Sane()
      ensures r.Ok? ==>
                (Valid() && machine.MayPause() == Ok(true) && (r.value <==> machine.current == Some(VoronoiComputed)))
      ensures old(machine.current).None? ==> r == Err(Failure("initial state not set"))
    {
      var o := Next();
      if o.Fail? {
        return Err(o.msg);
      }
      while !machine.MayPause().value
        invariant Valid() && machine.current.Some?
        decreases Rank()
      {
        o := Next();
        if o.Fail? {
          return Err(o.msg);
        }
      }
      r := machine.Is(VoronoiComputed);
    }
  }
}
