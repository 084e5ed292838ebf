# Voronoi diagrams by Delaunay triangulation

This project models the core of a JavaScript program that scatters points
("seeds" or "shops") over a rectangle. It triangulates them incrementally
with the Bowyer–Watson algorithm and derives the Voronoi diagram as the dual
of the triangulation. The program has three drivers, and all three are modelled:

* `app/lib/voronoi.js`, a generator driven by a state machine
  (`app/lib/state-machine.js`, `app/lib/state.js`). Its seeds come from
  `app/lib/scatter.js` and its graph objects from `app/lib/vertex.js`,
  `app/lib/edge.js` and `app/lib/triangle.js`. These are modules `Engine`,
  `StateMachine`, `GeneratorState`, `Scatter`, `Vertices`, `Edges` and
  `Triangles`.
* `app/classes/Voronoi.js`, an older generator driven by a phase flag, with
  seeds from `app/lib/scattering.js`. These are modules `Classic` and
  `Scattering`.
* `js/city.js`, the same algorithm over the string-keyed objects of
  `js/graph.js` (modules `City` and `Graph`), and `js/voronoi_save.js`, a
  standalone variant whose triangles hold neighbour arrays and whose border
  edges are found by scanning the rectangle's sides. These are modules
  `SaveMesh`, `SaveDual` and `SaveCity`.

The shared pieces:

* `Geometry` holds the circumcircle and the inclusive containment test.
* `Mesh` holds the triangle list: cavity, `indexOf`/`splice` deletion and the
  perimeter clean-up.
* `Insertion` holds one insertion step of `_addSeed`.
* `Dual` holds the Voronoi pass of `_computeVoronoi`.

Both `Insertion` and `Dual` are defined once and proved against functions of
the arena.

The triangles live in an arena, a map from triangle id to triangle value, plus
the list of live ids that stands for the `delaunayTriangles` array. The
source's object references become these ids. The three module-level id
counters of app/lib are small classes (`VertexFactory`, `EdgeFactory`,
`TriangleFactory`) whose `Create` hands out the next number. The generator
classes keep the source's fields and update them in place; the insertion and
the dual pass are loops proved equal to specification functions (`Steps`,
`Slots`, `Upto`), and the lemmas about those functions carry the properties:
the cavity is replaced by one new triangle per boundary side, links are
mutual, the clean-up removes exactly the triangles that touch the wrapper,
every Voronoi edge lies on the bisector of its Delaunay edge, and each
Delaunay edge gives one Voronoi edge.

Randomness is a parameter: a sequence of draws in [0, 1) stands for the
successive values of `Math.random()`. Canvas drawing is not modelled.

## Model

| member | source | states |
|---|---|---|
| Asserts.Failure | app/lib/assert.js:9 | the thrown message is "Assertion Error", followed by ": " and the message when one is given |
| Asserts.Assert | app/lib/assert.js:7-11 | passes exactly when the condition holds, otherwise fails with that message |
| Numerals.Decimal | js/graph.js:23-24 | the numeral has at least one digit, all of them decimal digits, and is a single digit exactly when the number is below ten |
| Numerals.DecimalInjective | js/graph.js:23-24 | distinct numbers have distinct numerals |
| Vertices.VertexFactory.constructor | app/lib/vertex.js:2 | the counter starts at the given count (0 when the module loads) with nothing issued |
| Vertices.VertexFactory.Create | app/lib/vertex.js:11-17 | the new vertex has the given coordinates and the old count as id, the count goes up by one, and the id was never issued before |
| Edges.EdgeFactory.constructor | app/lib/edge.js:2 | the counter starts at the given count (0 when the module loads) with nothing issued |
| Edges.EdgeFactory.Create | app/lib/edge.js:11-17 | the new edge has the given ends and the old count as id, the count goes up by one, and the id is fresh |
| Triangles.Links | app/lib/triangle.js:19-22 | the neighbour map's keys are exactly the ids of the three edges |
| Triangles.LinksLastWins | app/lib/triangle.js:19-22 | an edge id maps to the neighbour of its last occurrence, so edges with distinct ids each map to their own neighbour |
| Triangles.GetNeighbour | app/lib/triangle.js:53-55 | the entry for the edge's id, or none (undefined) when the edge is not the triangle's |
| Triangles.SetNeighbour | app/lib/triangle.js:62-64 | id, vertices and edges are kept |
| Triangles.GetSet | app/lib/triangle.js:53-64 | writing adds the edge's id to the keys; reading after writing gives the value written for that edge and the old value for any other; a triangle with every edge keyed stays so |
| Triangles.VerticesOnCircle | app/lib/triangle.js:26-51 | for non-collinear vertices each vertex is at the radius from the centre, so the triangle's circle contains it |
| Triangles.TriangleFactory.constructor | app/lib/triangle.js:2 | the counter starts at the given count (0 when the module loads) with nothing issued |
| Triangles.TriangleFactory.Create | app/lib/triangle.js:12-39 | the new triangle has a fresh id equal to the old count, the given vertices and edges, and the links built edge by edge, so every edge has an entry |
| Geometry.Circumcircle | app/lib/triangle.js:26-38 | a finite circle exactly when the denominator is nonzero, its squared radius measured to the first vertex; for collinear vertices, a circle of infinite extent exactly when both numerators are nonzero (the division gives infinities rather than NaN) |
| Geometry.CircumcircleEquidistant | app/lib/triangle.js:30-38 | the centre is at the same distance from all three vertices |
| Geometry.OnCircleIsContained | app/lib/triangle.js:46-51 | a point at the radius passes the inclusive containment test |
| GeneratorState.State.constructor | app/lib/state.js:21-23 | a new state holder is IDLE |
| GeneratorState.State.Is | app/lib/state.js:25-28 | true exactly when the current state is the one asked |
| GeneratorState.State.Set | app/lib/state.js:30-33 | the current state becomes the one given, and no other state is reported |
| StateMachine.EntryOf | app/lib/state-machine.js:26-29 | an entry keeps the state's handler and may pause exactly when `pause` is true |
| StateMachine.Build | app/lib/state-machine.js:18-30 | the machine's table has exactly the listed states as keys |
| StateMachine.BuildLastWins | app/lib/state-machine.js:18-30 | a state listed twice keeps its last entry |
| StateMachine.Machine.constructor | app/lib/state-machine.js:14-37 | the table is built from the list and no state is current |
| StateMachine.Machine.Set | app/lib/state-machine.js:43-48 | an unknown state fails with "state does not exist" and changes nothing; a known one becomes current |
| StateMachine.Machine.Is | app/lib/state-machine.js:55-60 | fails with "initial state not set" when no state is current, otherwise says whether the state is current |
| StateMachine.Machine.Handler | app/lib/state-machine.js:65-70 | the handler of the current state; "initial state not set" or "state has no handler" when there is none |
| StateMachine.Machine.Transition | app/lib/state-machine.js:73-75 | no returned state leaves the current one; a registered one becomes current; an unregistered one fails with "state does not exist" and changes nothing |
| StateMachine.Machine.MayPause | app/lib/state-machine.js:82-85 | the pause flag of the current state, or "initial state not set" |
| Seeds.ScaledDraw | app/lib/scatter.js:26-27 | a draw in [0, 1) scaled by a positive extent and floored lies in [0, extent) |
| Seeds.OccupiedAppend | app/lib/scatter.js:31-35 | after a seed is pushed and its grid cell marked, the marked cells are exactly those of the seeds |
| Seeds.DistinctAppend | app/lib/scatter.js:25-35 | a seed drawn on an unmarked cell keeps the seeds pairwise apart |
| Scatter.Cell | app/lib/scatter.js:26-27 | `Math.floor(draw * n)` is a cell in [0, n) |
| Scatter.Random | app/lib/scatter.js:18-39 | count seeds on distinct cells inside the area, numbered in order from the vertex counter; "random draws exhausted" when the draws run out |
| Scatter.Generate | app/lib/scatter.js:53-70 | an empty name, a non-positive size or count, an unknown algorithm ("algorithm not implemented: " + name) and more points than cells ("too many points to scatter: " + count) fail; otherwise the scatter of `Random` |
| Scattering.Round | app/lib/scattering.js:29-30 | `Math.round(draw * n)` lies in [0, n] |
| Scattering.Random | app/lib/scattering.js:12-42 | the size, width and height checks fail with assertion messages; otherwise size distinct seeds on the closed area, or "random draws exhausted" |
| Mesh.CavityOf | app/lib/voronoi.js:188-193 | a live triangle is in the cavity exactly when its circumcircle contains the seed; live order is kept |
| Mesh.IdentifyCavity | app/lib/voronoi.js:178-196 | the loop collects exactly the cavity |
| Mesh.IndexOf | app/lib/voronoi.js:449 | the first position of the element, or -1 when absent |
| Mesh.SpliceOne | app/lib/voronoi.js:449 | `splice(i, 1)` removes position i; with -1 it removes the last element |
| Mesh.DeleteTriangles | app/lib/voronoi.js:443-452 | the loop removes each given triangle in turn by `indexOf` and `splice` |
| Mesh.SpliceRemoves | app/lib/voronoi.js:449 | splicing at the index of a present element removes exactly that element |
| Mesh.DeleteStep | app/lib/voronoi.js:444-450 | deleting a present triangle from an increasing list leaves the list without it |
| Mesh.DeleteExactly | app/lib/voronoi.js:443-452 | deleting present triangles leaves exactly the others, in order |
| Mesh.DeleteMissingDropsLast | app/lib/voronoi.js:449 | deleting a triangle that is not in the list drops the last one instead |
| Mesh.WithoutMembers | app/lib/voronoi.js:443-452 | an element is kept exactly when it is not deleted |
| Mesh.WithoutIncreasing | app/lib/voronoi.js:443-452 | deleting keeps an increasing list increasing |
| Mesh.WithoutAppend | app/lib/voronoi.js:273-281 | deleting old triangles commutes with appending new ones |
| Mesh.PerimeterOf | app/lib/voronoi.js:313-322 | a live triangle is on the perimeter exactly when it has a corner of the wrapper; live order is kept |
| Mesh.CollectPerimeter | app/lib/voronoi.js:306-322 | the loop collects exactly the perimeter |
| Mesh.Wrap | app/lib/voronoi.js:125-159 | the wrapping triangle has the three given vertices, edges v1-v2, v2-v3 and v3-v1, no neighbours, and fresh ids |
| Insertion.BoundaryAcross | app/lib/voronoi.js:207-217 | every boundary side's outside neighbour is a triangle of the arena |
| Insertion.Step | app/lib/voronoi.js:218-274 | one new triangle numbered by the counter; the side's edge and the new id are appended, and the arena gains exactly that id |
| Insertion.Steps | app/lib/voronoi.js:207-276 | the arena only grows over the steps |
| Insertion.JoinSpoke | app/lib/voronoi.js:247-269 | a reused spoke links the two triangles that share it, and a new one is recorded |
| Insertion.MakeTriangle | app/lib/voronoi.js:222-244 | the new triangle on the seed and the side, with spokes reused or created, and the outside neighbour pointed at it |
| Insertion.SpokesChosen | app/lib/voronoi.js:222-236 | a spoke to a vertex is created exactly when none exists yet; created spokes take the next edge ids and are recorded, and existing ones are reused |
| Insertion.InsertSide | app/lib/voronoi.js:217-274 | one loop body equals one `Step`, and the new triangle is pushed live |
| Insertion.InsertTriangle | app/lib/voronoi.js:212-276 | the loop over one cavity triangle equals the steps over its boundary sides |
| Insertion.Inserted | app/lib/voronoi.js:207-278 | the arena only grows over the cavity triangles |
| Insertion.InsertedBoundary | app/lib/voronoi.js:207-278 | inserting triangle by triangle is stepping side by side along the boundary of the cavity |
| Insertion.InsertCavity | app/lib/voronoi.js:207-278 | the nested loops equal `Inserted` over the whole cavity, with the new triangles pushed in order |
| Insertion.AddSeed | app/lib/voronoi.js:202-284 | the result is the steps over the boundary; the live list is the cavity deleted from the pushed list, which is the old live list without the cavity followed by the new triangles; the arena is rebuilt |
| Insertion.StepJoins | app/lib/voronoi.js:247-269 | a reused spoke's two triangles point at each other across it, and a created spoke is recorded with no neighbour yet |
| Insertion.StepsCount | app/lib/voronoi.js:207-278 | one new triangle per boundary side, numbered in order, and the recorded edges are the sides |
| Insertion.StepsShape | app/lib/voronoi.js:222-244 | new triangle j has vertices [seed, side start, side end], the side as its middle edge, the outside neighbour across it and new spokes |
| Insertion.StepsOld | app/lib/voronoi.js:242-244 | an old triangle ends up with only its links across boundary sides pointed at the new triangles |
| Insertion.StepsSound | app/lib/voronoi.js:207-278 | the arena stays closed, every link to a triangle of the arena, and fresh |
| Insertion.Insertion | app/lib/voronoi.js:202-284 | the boundary sides are old edges with neighbours in the arena, and the insertion rebuilds the arena as above |
| Insertion.LiveAfter | app/lib/voronoi.js:273-281 | pushing the new triangles and then deleting the cavity leaves the old live list without the cavity, followed by the new triangles, increasing |
| Dual.EdgeLine | app/lib/voronoi.js:368-378 | the line of an edge is vertical exactly when its ends share their x |
| Dual.EdgeLineThrough | app/lib/voronoi.js:368-378 | both ends of the edge lie on its line |
| Dual.PerpendicularThroughMid | app/lib/voronoi.js:380-399 | the perpendicular passes through the midpoint and is vertical exactly when the edge is horizontal |
| Dual.Bisects | app/lib/voronoi.js:380-399 | a point is on the perpendicular exactly when it is equidistant from the two ends |
| Dual.Meet | app/lib/voronoi.js:411-427 | the crossing lies on both lines |
| Dual.Far | app/lib/voronoi.js:411-427 | the far point is on the perpendicular, at x = 0 or x = width, or at the midpoint's x with y = 0 or y = height |
| Dual.FarEquidistant | app/lib/voronoi.js:411-427 | the far point is equidistant from the edge's two ends |
| Dual.FarAway | app/lib/voronoi.js:401-427 | with the midpoint inside the area, the far point is on the other side of the edge from the opposite vertex |
| Dual.Opposite | app/lib/voronoi.js:401-409 | the first vertex that is neither end of the edge, or none |
| Dual.Centre | app/lib/voronoi.js:352-355 | a centre exists exactly when the circumcircle is finite, and it is that circle's centre |
| Dual.Across | app/lib/voronoi.js:347-349 | a position in the live list or -1; `SlotEmits` and `PairOnce` state what each value does |
| Dual.Joined | app/lib/voronoi.js:350-357 | the arena is unchanged; `SlotEmits` and `LinkedOnBisector` state the edge it appends |
| Dual.Clipped | app/lib/voronoi.js:358-431 | the arena keeps its triangles; `SlotEmits` and `ClippedOnBisector` state the cleared link and the edge it appends |
| Dual.Slot | app/lib/voronoi.js:347-432 | the arena keeps its triangles; `SlotEmits` states what each case does |
| Dual.Slots | app/lib/voronoi.js:344-434 | the arena keeps its triangles over the visits |
| Dual.FailureStops | app/lib/voronoi.js:344-434 | once a failure is raised no later slot changes anything |
| Dual.VisitJoined | app/lib/voronoi.js:350-357 | the loop body for a later neighbour equals `Joined` |
| Dual.VisitClipped | app/lib/voronoi.js:358-431 | the loop body for a missing neighbour equals `Clipped` |
| Dual.Visit | app/lib/voronoi.js:346-432 | one loop body equals `Slot` |
| Dual.ComputeVoronoi | app/lib/voronoi.js:338-437 | the nested loops equal `Slots` over every edge of every live triangle |
| Dual.SlotEmits | app/lib/voronoi.js:347-432 | a later neighbour gives the edge between the two circumcentres and leaves the arena alone; a missing one clears the link and gives the edge from the circumcentre to the far point; an earlier one does nothing; the earlier edges are kept |
| Dual.SlotsKeepAcross | app/lib/voronoi.js:349 | the pass changes no triangle, so the positions it reads stay the same |
| Dual.SlotsKeepVertices | app/lib/voronoi.js:344-434 | the Voronoi vertices already made are kept |
| Dual.EdgeCount | app/lib/voronoi.js:344-434 | without a failure, the pass appends one edge per slot that calls for one |
| Dual.PairOnce | app/lib/voronoi.js:349-350 | of two triangles that are each other's neighbours, exactly one visit emits, the earlier one |
| Dual.LinkedOnBisector | app/lib/voronoi.js:350-357 | both ends of a joined edge are equidistant from the Delaunay edge's ends |
| Dual.ClippedOnBisector | app/lib/voronoi.js:358-431 | both ends of a clipped edge are equidistant from the edge's ends, and the far end is on the border |
| Engine.Scheduled | app/lib/voronoi.js:41-49 | the machine built from the table has every phase with its handler and pause flag |
| Engine.CavityInArena | app/lib/voronoi.js:188-193 | the cavity is an increasing list of live triangles |
| Engine.Added | app/lib/voronoi.js:202-284 | the insertion keeps the arena closed and fresh and the live list increasing |
| Engine.Insert | app/lib/voronoi.js:202-284 | the insertion equals the steps over the boundary, and the live list is the old one without the cavity, followed by the new triangles |
| Engine.Removed | app/lib/voronoi.js:306-331 | deleting the perimeter leaves exactly the live triangles without a corner, in order |
| Engine.Unwrap | app/lib/voronoi.js:306-331 | the clean-up leaves exactly the live triangles without a wrapper corner, increasing |
| Engine.Generator.constructor | app/lib/voronoi.js:34-50 | the settings are stored and the machine is built with no state set |
| Engine.Generator.Expect | app/lib/voronoi.js:126 | passes exactly in the expected state; "initial state not set" or "unexpected state" otherwise |
| Engine.Generator.Init | app/lib/voronoi.js:57-88 | keeping an empty scatter fails with "no scatter to keep"; keeping one keeps the seeds; otherwise the seeds are a fresh scatter of the settings; all triangulation state is reset and the state is INITIALISED |
| Engine.Generator.Restart | app/lib/voronoi.js:72-84 | the reset of `init`: empty lists, index 0, no Voronoi edge, state INITIALISED |
| Engine.Generator.WrapWithTriangle | app/lib/voronoi.js:125-159 | the corners (-1, -1), (2w+1, -1) and (-1, 2h+1) are appended to the seeds; the one live triangle is on them, with no neighbours |
| Engine.Generator.PickSeed | app/lib/voronoi.js:164-172 | the seed at the index is picked and the index moves on |
| Engine.Generator.IdentifyCavity | app/lib/voronoi.js:178-196 | the cavity is exactly `CavityOf` the picked seed, and the insertion lists are emptied |
| Engine.Generator.AddSeed | app/lib/voronoi.js:202-284 | after the state check, the arena is the insertion of the seed and the live list is the old one without the cavity, followed by the new triangles |
| Engine.Generator.Grow | app/lib/voronoi.js:207-281 | the insertion as in `AddSeed` |
| Engine.Generator.RemoveExtraTriangles | app/lib/voronoi.js:306-331 | the three corners leave the seeds, and a live triangle survives exactly when it has no corner |
| Engine.Generator.CheckStatus | app/lib/voronoi.js:290-301 | once every scattered seed is in, the clean-up runs; otherwise the next pick is a scattered seed, never a corner |
| Engine.Generator.ComputeVoronoi | app/lib/voronoi.js:338-437 | the Voronoi edges are those of the dual pass, and it succeeds exactly when the pass raises no failure |
| Engine.Generator.Dispatch | app/lib/voronoi.js:41-49 | the scheduled handler of the current state runs and returns the state it moves to |
| Engine.Generator.Next | app/lib/state-machine.js:65-76 | "initial state not set" and "state has no handler" as in the machine; otherwise the successor state, with fewer steps left |
| Engine.Generator.Generate | app/lib/voronoi.js:93-103 | from INITIALISED it ends in VORONOI_COMPUTED with every seed inserted and no wrapper triangle left |
| Engine.Generator.Resume | app/lib/voronoi.js:109-119 | it stops in a state that may pause, and answers true exactly when the diagram is complete |
| Classic.Generator.constructor | app/classes/Voronoi.js:23-28 | the settings are stored and nothing is scattered |
| Classic.Generator.ScatterSeeds | app/classes/Voronoi.js:62-73 | a non-positive size fails with "`settings.size` must be greater than 0" and an unknown algorithm with "scattering not supported: " + name; otherwise the seeds are the scatter |
| Classic.Generator.Init | app/classes/Voronoi.js:35-57 | "no scatter to keep" when keeping an empty scatter; a failure changes nothing; success leaves the generator restarted |
| Classic.Generator.Reset | app/classes/Voronoi.js:44-56 | the triangulation is emptied, the phase is FIND_CAVITY_TRIANGLES, and the seeds become the scatter |
| Classic.Generator.InitDelaunay | app/classes/Voronoi.js:96-126 | the corners (-1, -1), (2w+1, -1) and (-1, 2h+1) are appended; the one live triangle is on them, with no neighbours |
| Classic.Generator.FindCavity | app/classes/Voronoi.js:133-153 | the seed at the index is picked, its cavity is exactly `CavityOf`, and the phase becomes INSERT_SEED |
| Classic.Generator.AddSeed | app/classes/Voronoi.js:156-236 | the arena is the insertion of the seed, and the live list is the old one without the cavity, followed by the new triangles |
| Classic.Generator.InsertSeed | app/classes/Voronoi.js:156-243 | the insertion, then the clean-up once the last scattered seed is in |
| Classic.Generator.Finish | app/classes/Voronoi.js:240-242 | the triangulation is complete, the seeds are the scatter, and no live triangle has a corner |
| Classic.Generator.CleanUp | app/classes/Voronoi.js:249-272 | the corners leave the seeds, and a live triangle survives exactly when it has no corner |
| Classic.Generator.NextStep | app/classes/Voronoi.js:131-244 | the branch for the phase runs, with fewer steps left; it completes exactly after the last seed's insertion |
| Classic.Generator.ComputeVoronoi | app/classes/Voronoi.js:277-372 | the Voronoi edges are those of the dual pass, and it succeeds exactly when the pass raises no failure |
| Classic.Generator.Generate | app/classes/Voronoi.js:78-91 | "seeds not scattered" before a scatter; otherwise the triangulation is completed and the diagram computed, with no wrapper triangle left |
| Graph.IdInjective | js/graph.js:15-84 | two ids are equal exactly when prefix and number are |
| Graph.Counter.constructor | js/graph.js:6-8 | the counter starts at 0 |
| Graph.Counter.Next | js/graph.js:23-24 | the counter is incremented before use, so the first id is numbered 1, and no id is handed out twice |
| Graph.NewVertex | js/graph.js:15-25 | the given coordinates and a fresh "v" id |
| Graph.NewEdge | js/graph.js:37-45 | the given ends, `vertices == [v1, v2]` and a fresh "e" id |
| Graph.IsEqualEnds | js/graph.js:52-54 | two edges are equal exactly when they join the same two vertices |
| Graph.IsEqualEquivalence | js/graph.js:52-54 | the test is reflexive, symmetric and transitive |
| Graph.Links | js/graph.js:78-81 | the map's keys are exactly the edge ids |
| Graph.LinksDistinct | js/graph.js:78-81 | edges with distinct ids each map to their own neighbour |
| Graph.NewTriangle | js/graph.js:74-101 | the map filled edge by edge, a fresh "t" id, and the circumcircle of the vertices |
| Graph.GetNeighbour | js/graph.js:115-117 | the entry for the edge, or none (undefined) |
| Graph.SetNeighbour | js/graph.js:124-126 | only the entry for the edge changes |
| Graph.GetSet | js/graph.js:115-126 | reading after writing gives the value written for that edge and the old value for any other |
| Graph.ContainsOwnVertices | js/graph.js:92-113 | each vertex of a non-degenerate triangle is on its circle and is contained |
| City.SnapOnGrid | js/city.js:30-31 | a snapped coordinate is a multiple of the spacing within the extent |
| City.Snap | js/city.js:30-31 | `Math.round(draw * n / s) * s` is on the grid |
| City.Place | js/city.js:28-40 | max(0, count) shops on distinct grid points, numbered in order; "random draws exhausted" when the draws run out |
| City.Insert | js/city.js:117-216 | the shop is inserted into the arena as `_addSeed` does, and the mesh stays closed and increasing |
| City.City.constructor | js/city.js:12-61 | the placed shops, no triangle, the index at the first shop |
| City.City.InitDelaunay | js/city.js:79-109 | the corners (-4w, -4h), (10w, -4h) and (-4w, 10h) are appended; the one live triangle is on them, with no neighbours |
| City.City.InsertShop | js/city.js:117-216 | the shop at the index is inserted and the index moves on |
| City.City.CleanUp | js/city.js:229-261 | the corners leave the shops, and a live triangle survives exactly when it has no corner |
| City.City.NextStep | js/city.js:114-224 | once the index reaches the placed shops, the clean-up; otherwise one insertion; fewer steps are left either way |
| City.City.ComputeVoronoi | js/city.js:266-361 | the Voronoi edges are those of the dual pass, and it succeeds exactly when the pass raises no failure |
| City.City.Voronoi | js/city.js:66-74 | the triangulation completes with every shop inserted and no wrapper triangle left, then the diagram is computed |
| SaveMesh.IsEqualEnds | js/voronoi_save.js:523-525 | two edges are equal exactly when they join the same two shops |
| SaveMesh.NewTriangle | js/voronoi_save.js:443-463 | edges [edge, s1-s3, s2-s3], neighbours [nb, null, null], and the circumcircle |
| SaveMesh.ContainsOwnShops | js/voronoi_save.js:443-475 | each shop of a non-degenerate triangle is on its circle and is contained |
| SaveMesh.SetNeighbour | js/voronoi_save.js:482-484 | only the given slot changes |
| SaveMesh.OldOf | js/voronoi_save.js:88-93 | a live triangle is old exactly when its circumcircle contains the shop; live order is kept |
| SaveMesh.FindOld | js/voronoi_save.js:88-93 | the loop collects exactly `OldOf` |
| SaveMesh.CutMembers | js/voronoi_save.js:110-116 | an edge is cut exactly when its neighbour is outside the cavity |
| SaveMesh.BoundaryMembers | js/voronoi_save.js:106-116 | the boundary is exactly the cavity edges whose neighbour is outside |
| SaveMesh.Relink | js/voronoi_save.js:126-132 | every slot of the neighbour whose edge equals the cavity edge now points at the new triangle; nothing else changes |
| SaveMesh.FirstEqual | js/voronoi_save.js:140-146 | the first position of an equal edge, or -1 when none is equal |
| SaveMesh.FindEqual | js/voronoi_save.js:140-146 | the search equals `FirstEqual` |
| SaveMesh.LinkKeeps | js/voronoi_save.js:149-152 | linking sets exactly the two slots to each other and keeps the arena closed |
| SaveMesh.Join | js/voronoi_save.js:136-156 | when an equal internal edge was recorded, the first such edge's triangle and the new one link both ways, the other at the slot `edges.indexOf` finds, and no other slot changes; otherwise the edge is recorded with the new triangle |
| SaveMesh.Place | js/voronoi_save.js:119-132 | the new triangle on the cavity edge, with the outside neighbour in slot 0, joins the arena; every slot of that neighbour across an equal edge points at it and nothing else changes |
| SaveMesh.Spawn | js/voronoi_save.js:114-157 | a new triangle on the cavity edge, numbered by the counter; slot 0 holds the outside neighbour (unless the shop is an end of the edge), the neighbour is relinked to it, and each of edges 1 and 2 ends linked both ways with an earlier new triangle across an equal edge, or recorded |
| SaveMesh.JoinNew | js/voronoi_save.js:135-157 | each of edges 1 and 2 ends linked both ways with a triangle recorded earlier with an equal edge, or an equal edge is recorded with the new triangle; slot 0 is kept unless edges 0 and 1 coincide; only the new triangle and recorded triangles change |
| SaveMesh.Grow | js/voronoi_save.js:114-157 | one new triangle keeps the loop sound and appends its edge to `cavityEdges` |
| SaveMesh.Hollow | js/voronoi_save.js:110-158 | `cavityEdges` grows by the cut edges of one cavity triangle |
| SaveMesh.Carve | js/voronoi_save.js:106-160 | `cavityEdges` ends up as exactly the boundary of the cavity |
| SaveMesh.Spliced | js/voronoi_save.js:123-163 | pushing the new triangles and deleting the old leaves the old live list without them, followed by the new ones, increasing |
| SaveMesh.InsertedFrom | js/voronoi_save.js:106-163 | the loop values after the cavity give the insertion |
| SaveMesh.Insert | js/voronoi_save.js:81-163 | the old triangles are `OldOf`, the cavity edges the boundary, one new triangle per boundary edge, and the live list is updated; the mesh stays closed and increasing |
| SaveDual.AtY | js/voronoi_save.js:275-290 | the crossing with a horizontal line is on the bisector |
| SaveDual.AtX | js/voronoi_save.js:293-304 | the crossing with a vertical line is on the bisector |
| SaveDual.Crossings | js/voronoi_save.js:275-304 | two to four border points, each on the bisector and equidistant from the edge's shops |
| SaveDual.Best | js/voronoi_save.js:272-304 | the first point nearest the centre and nearer than the bound, or -1 when none is |
| SaveDual.BorderEndNearest | js/voronoi_save.js:272-304 | the end is the nearest crossing within width + height, or the previous end kept when none is that near |
| SaveDual.ScanStep | js/voronoi_save.js:280-288 | a candidate replaces the kept one exactly when it is nearer |
| SaveDual.ScanRows | js/voronoi_save.js:275-290 | the loop over the horizontal borders scans its crossings |
| SaveDual.ScanColumns | js/voronoi_save.js:293-304 | the loop over the vertical borders scans its crossings |
| SaveDual.BorderPoint | js/voronoi_save.js:272-304 | the search equals `BorderEnd` |
| SaveDual.Across | js/voronoi_save.js:217-218 | the position of the neighbour in the live list, -1 when null or deleted |
| SaveDual.Visit | js/voronoi_save.js:217-308 | a visit keeps the arena closed with the same triangles |
| SaveDual.VisitSlot | js/voronoi_save.js:217-308 | one loop body equals `Visit` |
| SaveDual.ComputeVoronoi | js/voronoi_save.js:212-310 | the nested loops equal `Upto` over all live triangles |
| SaveDual.PassClears | js/voronoi_save.js:227-233 | exactly the links of live triangles to null or to deleted triangles are cleared; afterwards every link is null or live |
| SaveDual.VisitAdds | js/voronoi_save.js:217-308 | a later neighbour gives an inner edge, a missing one a border edge, an earlier one nothing |
| SaveDual.PassEmits | js/voronoi_save.js:212-310 | the earlier edges are kept, every new edge is justified, and every slot has given the edge it calls for |
| SaveDual.PairOnce | js/voronoi_save.js:217-219 | of two triangles that are each other's neighbours, exactly one visit emits |
| SaveCity.SpotInside | js/voronoi_save.js:46-47 | `Math.floor(draw * n)` is a whole number in [0, n) |
| SaveCity.Scatter | js/voronoi_save.js:45-51 | max(0, count) shops, each at the floored draws, numbered in order |
| SaveCity.BoundaryUses | js/voronoi_save.js:106-116 | the ends of a boundary edge are shops of the city |
| SaveCity.InsertedUses | js/voronoi_save.js:106-123 | after an insertion every live triangle uses only shops of the city |
| SaveCity.InsertInto | js/voronoi_save.js:81-163 | the insertion, which keeps the mesh closed, increasing and on the city's shops |
| SaveCity.Start | js/voronoi_save.js:66-75 | the initial triangle as the one live triangle |
| SaveCity.Perimeter | js/voronoi_save.js:174-188 | a live triangle is on the perimeter exactly when it has a fake shop; live order is kept |
| SaveCity.FindFake | js/voronoi_save.js:177-183 | the loop finds a fake shop exactly when the triangle has one |
| SaveCity.FindPerimeter | js/voronoi_save.js:174-188 | the loop collects exactly `Perimeter` |
| SaveCity.FakeIndex | js/voronoi_save.js:179 | `indexOf` reaches `fakeStart` exactly for the fake shops |
| SaveCity.HasFakeTouches | js/voronoi_save.js:173-188 | the `indexOf` test is membership among the fake shops |
| SaveCity.ScatteredGood | js/voronoi_save.js:44-61 | a freshly scattered city satisfies the invariant |
| SaveCity.StartGood | js/voronoi_save.js:66-75 | `computeDelaunay` keeps the invariant |
| SaveCity.InsertGood | js/voronoi_save.js:79-167 | an insertion keeps the invariant |
| SaveCity.CleanGood | js/voronoi_save.js:169-197 | the clean-up keeps the invariant |
| SaveCity.DrawGood | js/voronoi_save.js:208-311 | the Voronoi pass keeps the invariant |
| SaveCity.City.constructor | js/voronoi_save.js:8-61 | the scattered shops, no triangle, the index at the first shop |
| SaveCity.City.ComputeDelaunay | js/voronoi_save.js:66-75 | fake shops (0, 0), (2w, 0) and (0, 2h) are appended, and the one live triangle is on them |
| SaveCity.City.InsertShop | js/voronoi_save.js:79-167 | the shop at the index is inserted and the index moves on |
| SaveCity.City.CleanUp | js/voronoi_save.js:169-197 | the fake shops leave the city, and the live triangles with a fake shop are deleted |
| SaveCity.City.ComputeVoronoi | js/voronoi_save.js:208-327 | the first call computes the pass, so every edge is justified and every slot produced; a second call changes nothing |
| SaveCity.City.Repeat | js/voronoi_save.js:78-203 | one insertion, the clean-up or the Voronoi pass, as the index says, with fewer calls left |
| SaveCity.City.Run | js/voronoi_save.js:569-575 | repeating to the end leaves every shop inserted, no fake shop and every link null or live |
| SaveCity.Unwrap | js/voronoi_save.js:169-197 | the fake shops leave the list, and the live triangles with a fake shop are deleted |
| SaveCity.Dualize | js/voronoi_save.js:212-310 | the pass keeps the mesh closed and on the city's shops, and every link null or live |
| SaveCity.PassKeepsClosed | js/voronoi_save.js:227-233 | clearing links keeps the arena closed |

## Left out

- Floating point: coordinates are exact reals. The circumcircle's division by zero for collinear vertices becomes a degenerate circle value, not IEEE infinities or NaN.
- `Math.random()`: the draws are a parameter. The retry loops of `app/lib/scatter.js`, `app/lib/scattering.js` and `js/city.js` consume draws and end with the failure "random draws exhausted" when they run out; the source would keep drawing.
- Scatter.Generate: `assert.nonEmptyString` and `assert.integerGt0` are called but do not exist on the exported `assert` function. The model checks what they name, with messages of its own wording. Type checks (`assert.typeOf`, `isBoolean`, `isArray`, `isObject`, `isFunction`) vanish under Dafny's types.
- Scatter.Generate, Classic.Generator.ScatterSeeds: `algorithms[alg]` and `scattering[alg]` also find inherited object properties such as "toString". The model checks only the exported names.
- Engine.Generator.Init: the check that `keepScatter` is a boolean is left out because the parameter is typed.
- Ids are numbers. `js/graph.js` uses strings with a one-letter prefix; `Graph.IdInjective` shows that keying by the number is the same keying.
- Object identity: triangles and edges are values named by their ids. `SaveMesh.Join` finds the slot by `edges.indexOf`, which compares edge objects by identity, and the model compares edge values; the two agree whenever the edges of a triangle join different shop pairs.
- SaveMesh.Spawn: slot 0 is stated to keep the outside neighbour only when the shop is not an end of the cavity edge; otherwise edges 0 and 1 of the new triangle join the same shops and the value-based `indexOf` may pick slot 0 where the identity-based one picks slot 1.
- SaveMesh.Insert: states no neighbour slot of the finished insertion, and the loop invariant behind `SaveMesh.Grow` and `SaveMesh.Hollow` carries none either. The links are stated for the step that makes them, by `SaveMesh.Spawn` and `SaveMesh.JoinNew`. Later steps change other slots unless two of the edges involved join the same shops, and that argument is not formalised.
- Insertion.StepJoins: the mutual link across a reused spoke is proved for the step that makes it, not restated for the final arena.
- Dual.Centre: a collinear triangle's circumcentre ends the pass with a failure; the source would emit a vertex at infinity.
- SaveDual.BorderEndNearest: `minDist` starts at `city.height + city.width` of the global `city`; the model uses the object's own extent. `minShop` is not reset between edges, so an edge with no crossing that near reuses the previous end, as written.
- SaveDual.ComputeVoronoi: requires a positive width and height. With a zero extent the border loops of the source never end, and with a negative one they do not run.
- SaveCity.City.ComputeVoronoi, SaveCity.City.Repeat, SaveCity.City.Run: require a positive width and height, for the same reason.
- Classic.Generator.Generate: requires the generator to be unscattered or ready. A call in the middle of a run, which the source would continue from there, is not modelled.
- Call order: the class methods of `Classic`, `City` and `SaveCity` require the stage their source is written for, for example a finished triangulation before the Voronoi pass. The source would run them on whatever state exists.
- Engine.Generator.Next: after a failed step only the sanity of the state is kept, so the model allows only `Init` next.
- Engine.Generator.AddSeed: its invariant remembers of the cavity only that it is an increasing list of live triangles. That it is exactly the seed's cavity is stated by `IdentifyCavity`.
- City.City.constructor: the shops are placed by `City.Place` and passed in; `js/city.js` places them inside the constructor.
- Integer checks such as `width % 1 === 0` are carried by Dafny's `int` type.
- Drawing: `draw`, `clear`, `drawShops` and every canvas call are left out.
- `app/assert.js` repeats `app/lib/assert.js` and is not modelled separately. The vertex, edge and triangle classes that `app/classes/Voronoi.js` imports from `app/classes/` are not part of this model; module `Classic` uses the `app/lib` ones in their place.
- `app/main.js`, `js/app.js`, `js/settings.js`, `js/voronoi.js`, `android_console.js` and the tests are not part of this model.
