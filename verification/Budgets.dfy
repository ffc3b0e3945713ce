/** `CanonicalizationBudget`: a shared counter of entered search states and a
    deadline that any checkpoint may find expired. */
module Budgets {

  datatype Entry = Entered | OutOfStates | OutOfTime

  class Budget {
    const limit: nat
    var states: nat

    constructor (b: nat)
      ensures limit == b && states == 0
    {
      limit, states := b, 0;
    }

    ghost predicate Valid()
      reads this
    {
      states <= limit
    }

    /** The clock is outside the model: either answer is possible at any time. */
    method Check() returns (expired: bool)
    {
      expired := *;
    }

    /** Exactly `limit` states may be entered; asking for one more is refused. */
    method EnterState() returns (e: Entry)
      requires Valid()
      modifies this`states
      ensures Valid()
      ensures e.Entered? ==> old(states) < limit && states == old(states) + 1
      ensures e.OutOfStates? ==> states == old(states) == limit
      ensures e.OutOfTime? ==> states == old(states)
    {
      var expired := Check();
      if expired { return OutOfTime; }
      if states == limit { return OutOfStates; }
      states := states + 1;
      e := Entered;
    }
  }
}
