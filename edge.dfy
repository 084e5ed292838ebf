/** Edges and their module-level id counter (app/lib/edge.js). The counter
    of js/graph.js counts from one and prefixes the number with "e"; module
    Graph shows that keying by the number is keying by that string. */
module Edges {
  import opened Vertices

  /** An edge: the id it received when constructed and its two end vertices,
      in the order given. */
  datatype Edge = Edge(id: nat, v1: Vertex, v2: Vertex)

  /** The counter shared by every edge construction. `issued` records the ids
      handed out so far. */
  class EdgeFactory {
    var count: nat
    ghost var issued: set<nat>

    ghost predicate Valid()
      reads this
    {
      forall i :: i in issued ==> i < count
    }

    /** A counter whose first id is `start`. */
    constructor (start: nat)
      ensures Valid() && count == start && issued == {}
    {
      count := start;
      issued := {};
    }

    /** `new Edge(v1, v2)`: the id is the current count, which is then
        incremented; identity is by id, so two edges over the same vertices
        are different edges. */
    method Create(v1: Vertex, v2: Vertex) returns (e: Edge)
      requires Valid()
      modifies this
      ensures Valid()
      ensures e == Edge(old(count), v1, v2)
      ensures count == old(count) + 1
      ensures e.id !in old(issued) && issued == old(issued) + {e.id}
    {
      e := Edge(count, v1, v2);
      issued := issued + {count};
      count := count + 1;
    }
  }
}
