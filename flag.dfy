/** The atomic boolean flag. The atomic bit becomes a field; the waiter
    notification is not modelled (a sequential model has no other task to
    wake), so every wait becomes the precondition that its condition
    already holds. */
module Flags {

  class Flag {
    /** The atomic bit, the single source of truth. */
    var state: bool

    /** `Flag::new` (and `Default`): a flag that reads false. */
    constructor ()
      ensures !state
    {
      state := false;
    }

    /** `From<bool>`: `new` followed by `set(value)`. */
    constructor From(value: bool)
      ensures state == value
    {
      state := false;
      new;
      Set(value);
    }

    /** `get` (and `Into<bool>`): the current value. */
    function Get(): (b: bool)
      reads this
      ensures b == state
    {
      state
    }

    /** `is_true`: agrees with `get`. */
    function IsTrue(): (b: bool)
      reads this
      ensures b == Get()
    {
      Get()
    }

    /** `is_false`: the negation of `get`. */
    function IsFalse(): (b: bool)
      reads this
      ensures b == !Get()
    {
      !Get()
    }

    /** `set`: store the value (waking waiters is not modelled). */
    method Set(value: bool)
      modifies this
      ensures Get() == value
    {
      state := value;
    }

    /** `wait(value)`: returns only once the flag reads `value`; in a
        sequential model that is a precondition, and the flag is left as it is. */
    method Wait(value: bool)
      requires Get() == value
      ensures Get() == value
    {
    }

    /** `swap(value)`: wait until the flag reads `!value`, then set it to `value`. */
    method Swap(value: bool)
      requires Get() == !value
      modifies this
      ensures Get() == value
    {
      Wait(!value);
      Set(value);
    }

    /** `PartialEq for Flag`: two flags are equal when their current values are. */
    predicate Eq(other: Flag)
      reads this, other
      ensures Eq(other) <==> state == other.state
    {
      Get() == other.Get()
    }

    /** `PartialEq<bool> for Flag`: a flag equals a bool when it currently reads it. */
    predicate EqBool(other: bool)
      reads this
      ensures EqBool(other) <==> state == other
    {
      Get() == other
    }
  }
}
