/** What the program does not determine: whether and when it is cancelled, and which accesses to the disk fail. */
module Contexts {
  /** A context that may be cancelled at any moment, and then stays cancelled. */
  class Context {
    var cancelled: bool
    /** Some access to the disk has failed. */
    ghost var failed: bool

    constructor ()
    {
      cancelled, failed := false, false;
    }

    /** Nothing that has happened has been undone. */
    twostate predicate Later()
      reads this
    {
      (old(cancelled) ==> cancelled) && (old(failed) ==> failed)
    }

    method Err() returns (e: bool)
      modifies this`cancelled
      ensures old(cancelled) ==> cancelled
      ensures e == cancelled
    {
      var fires: bool := *;
      cancelled := cancelled || fires;
      e := cancelled;
    }

    /** An access to the disk, which may fail. */
    method Fails() returns (fails: bool)
      modifies this`failed
      ensures failed == (old(failed) || fails)
    {
      fails := *;
      failed := failed || fails;
    }
  }
}
