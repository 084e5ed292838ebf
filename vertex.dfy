/** Vertices and their module-level id counter (app/lib/vertex.js). The
    counter of js/graph.js counts from one and prefixes the number with "v";
    module Graph shows that keying by the number is keying by that string. */
module Vertices {

  /** A vertex: the id it received when constructed and its coordinates. */
  datatype Vertex = Vertex(id: nat, x: real, y: real)

  /** The counter shared by every vertex construction. `issued` records the
      ids handed out so far. */
  class VertexFactory {
    var count: nat
    ghost var issued: set<nat>

    ghost predicate Valid()
      reads this
    {
      forall i :: i in issued ==> i < count
    }

    /** A counter whose first id is `start`. */
    constructor (start: nat)
      ensures Valid() && count == start && issued == {}
    {
      count := start;
      issued := {};
    }

    /** `new Vertex(x, y)`: the id is the current count, which is then
        incremented; the coordinates are stored as given. Two vertices with
        the same coordinates still receive different ids. */
    method Create(x: real, y: real) returns (v: Vertex)
      requires Valid()
      modifies this
      ensures Valid()
      ensures v == Vertex(old(count), x, y)
      ensures count == old(count) + 1
      ensures v.id !in old(issued) && issued == old(issued) + {v.id}
    {
      v := Vertex(count, x, y);
      issued := issued + {count};
      count := count + 1;
    }
  }
}
