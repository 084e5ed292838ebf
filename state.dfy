/** The current-state holder of app/lib/state.js. */
module GeneratorState {

  /** The four states the module exposes; `set` accepts any symbol, so other
      symbols are represented by a tag. */
  datatype Symbol = Idle | Initialised | FindCavityTriangles | InsertSeed | Other(tag: nat)

  class State {
    var current: Symbol

    /** `State()`: a fresh holder is in `IDLE`. */
    constructor ()
      ensures current == Idle && Is(Idle)
    {
      current := Idle;
    }

    /** `is(state)`: exactly whether `state` is the current one. */
    function Is(s: Symbol): (r: bool)
      reads this
      ensures r <==> current == s
    {
      current == s
    }

    /** `set(state)`: any symbol becomes current, with no membership check. */
    method Set(s: Symbol)
      modifies this
      ensures current == s && Is(s)
      ensures forall u :: u != s ==> !Is(u)
    {
      current := s;
    }
  }
}
