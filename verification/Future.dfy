/** public/libs/future.js: a promise that is settled from outside and knows whether it is done. */
module Futures {
  import opened Prelude

  datatype Outcome<+E> = Resolved | Rejected(error: E)

  class Future<E> {
    /** `_done`. */
    var done: bool
    /** How the underlying promise was settled; promises ignore all but the first settlement. */
    var outcome: Option<Outcome<E>>

    ghost predicate Valid()
      reads this
    {
      done <==> outcome.Some?
    }

    constructor ()
      ensures Valid() && !done
    {
      done := false;
      outcome := None;
    }

    method Settle(how: Outcome<E>)
      requires Valid()
      modifies this
      ensures Valid() && done
      ensures outcome == if old(outcome).Some? then old(outcome) else Some(how)
    {
      done := true;
      if outcome.None? {
        outcome := Some(how);
      }
    }

    method Resolve()
      requires Valid()
      modifies this
      ensures Valid() && done
      ensures outcome == if old(outcome).Some? then old(outcome) else Some(Resolved)
    {
      Settle(Resolved);
    }

    method Reject(error: E)
      requires Valid()
      modifies this
      ensures Valid() && done
      ensures outcome == if old(outcome).Some? then old(outcome) else Some(Rejected(error))
    {
      Settle(Rejected(error));
    }
  }
}
