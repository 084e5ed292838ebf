/** The table-driven step controller (app/lib/state-machine.js). Handlers are
    opaque values of type `H`; the owner of the machine calls the handler that
    `Handler` returns and passes its result to `Transition`, which together make
    up `next`. */
module StateMachine {
  import opened Wrappers
  import opened Asserts

  /** One entry of the array given to `create`: a state id, an optional
      handler and an optional pause flag. */
  datatype StateSpec<S, H> = StateSpec(id: S, next: Option<H>, pause: Option<bool>)

  /** What the machine keeps for a state: whether a pause is permitted
      (absent means false) and the handler (absent means null). */
  datatype Entry<H> = Entry(pause: bool, next: Option<H>)

  function EntryOf<S, H>(s: StateSpec<S, H>): (e: Entry<H>)
    ensures e.pause <==> s.pause == Some(true)
    ensures e.next == s.next
  {
    Entry(s.pause == Some(true), s.next)
  }

  /** The table `create` builds by walking the array: a later entry for the
      same id replaces an earlier one. */
  function Build<S(==), H>(arr: seq<StateSpec<S, H>>): (m: map<S, Entry<H>>)
    ensures m.Keys == set i | 0 <= i < |arr| :: arr[i].id
  {
    if |arr| == 0 then map[]
    else
      var n := |arr| - 1;
      assert forall i :: 0 <= i < n ==> arr[..n][i] == arr[i];
      Build(arr[..n])[arr[n].id := EntryOf(arr[n])]
  }

  /** When ids repeat, the last entry for an id is the one kept. */
  lemma {:induction false} BuildLastWins<S, H>(arr: seq<StateSpec<S, H>>, i: nat)
    requires i < |arr|
    requires forall j :: i < j < |arr| ==> arr[j].id != arr[i].id
    ensures Build(arr)[arr[i].id] == EntryOf(arr[i])
  {
    var n := |arr| - 1;
    if i < n {
      assert arr[..n][i] == arr[i];
      BuildLastWins(arr[..n], i);
    }
  }

  class Machine<S(==), H> {
    const states: map<S, Entry<H>>
    var current: Option<S>

    /** The current state, once set, is a registered one. */
    ghost predicate Valid()
      reads this
    {
      current.Some? ==> current.value in states
    }

    /** `create(arr)`: the table built from `arr`, and no current state. */
    constructor (arr: seq<StateSpec<S, H>>)
      ensures states == Build(arr) && current == None && Valid()
    {
      var m: map<S, Entry<H>> := map[];
      for i := 0 to |arr|
        invariant m == Build(arr[..i])
      {
        assert arr[..i + 1][..i] == arr[..i];
        m := m[arr[i].id := EntryOf(arr[i])];
      }
      assert arr[..|arr|] == arr;
      states := m;
      current := None;
    }

    /** `set(state)`: fails for an unregistered state, else makes it current. */
    method Set(s: S) returns (r: Outcome)
      requires Valid()
      modifies this
      ensures Valid()
      ensures s in states ==> r.Pass? && current == Some(s)
      ensures s !in states ==> r == Fail(Failure("state does not exist")) && current == old(current)
    {
      if s !in states {
        return Fail(Failure("state does not exist"));
      }
      current := Some(s);
      r := Pass;
    }

    /** `is(state)`: fails while no state is set, else compares. */
    function Is(s: S): (r: Result<bool>)
      reads this
      ensures r.Err? <==> current.None?
      ensures r.Err? ==> r.msg == Failure("initial state not set")
      ensures r.Ok? ==> (r.value <==> current == Some(s))
    {
      if current.None? then Err(Failure("initial state not set")) else Ok(current.value == s)
    }

    /** The checks `next` makes before calling the handler, and the handler. */
    function Handler(): (r: Result<H>)
      requires Valid()
      reads this
      ensures current.None? ==> r == Err(Failure("initial state not set"))
      ensures current.Some? && states[current.value].next.None? ==> r == Err(Failure("state has no handler"))
      ensures r.Ok? <==> current.Some? && states[current.value].next.Some?
      ensures r.Ok? ==> states[current.value].next == Some(r.value)
    {
      if current.None? then Err(Failure("initial state not set"))
      else if states[current.value].next.None? then Err(Failure("state has no handler"))
      else Ok(states[current.value].next.value)
    }

    /** The rest of `next`: a returned state is set (and must be
        registered); no state returned leaves the current one. */
    method Transition(target: Option<S>) returns (r: Outcome)
      requires Valid()
      modifies this
      ensures Valid()
      ensures target.None? ==> r.Pass? && current == old(current)
      ensures target.Some? && target.value in states ==> r.Pass? && current == target
      ensures target.Some? && target.value !in states ==>
        r == Fail(Failure("state does not exist")) && current == old(current)
    {
      r := Pass;
      if target.Some? {
        r := Set(target.value);
      }
    }

    /** `mayPause()`: fails while no state is set, else the state's flag. */
    function MayPause(): (r: Result<bool>)
      requires Valid()
      reads this
      ensures current.None? ==> r == Err(Failure("initial state not set"))
      ensures current.Some? ==> r == Ok(states[current.value].pause)
    {
      if current.None? then Err(Failure("initial state not set")) else Ok(states[current.value].pause)
    }
  }
}
