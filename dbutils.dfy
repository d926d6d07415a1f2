/**
 * The per-user identifier allocator `BuildUniqueId`, shared by every entity
 * repository. Its contract is what the repositories rely on: either a value
 * never handed out before for that user, or a negative sentinel. The body
 * keeps one counter per user, created on first use at 1 and advanced by one
 * per reservation, so that a restart of the counter never reissues a value.
 */
module DbUtils {

  /** A user's next identifier; the counter starts at 1 and never goes below it. */
  type Counter = n: int | n >= 1 witness 1

  /** `i` is one of the identifiers a counter standing at `next` has handed out. */
  predicate Below(i: int, next: Counter)
  {
    1 <= i < next
  }

  class IdAllocator {
    /** The counter table: one row per user namespace, holding that user's next identifier. */
    var nextIds: map<int, Counter>

    constructor ()
      ensures nextIds == map[]
    {
      nextIds := map[];
    }

    /** The next identifier of `userId`; a user without a counter row starts at 1. */
    function NextId(userId: int): Counter
      reads this
    {
      if userId in nextIds then nextIds[userId] else 1
    }

    /**
     * Every identifier already handed out to `userId`, whichever table it
     * went to. The explicit bounds make the set visibly finite; `Below`
     * gives its quantifiers a term to trigger on.
     */
    ghost function Issued(userId: int): set<int>
      reads this
    {
      set i | 1 <= i < NextId(userId) && Below(i, NextId(userId))
    }

    /**
     * Reserves an identifier for `userId` inside the caller's transaction.
     * `fails` stands for a failed read or write of the counter row, reported
     * as a negative sentinel rather than an exception.
     */
    method BuildUniqueId(userId: int, fails: bool) returns (id: int)
      modifies this
      ensures fails ==> id < 0 && nextIds == old(nextIds) && Issued(userId) == old(Issued(userId))
      ensures !fails ==> id > 0 && id !in old(Issued(userId))
      ensures !fails ==> Issued(userId) == old(Issued(userId)) + {id}
      ensures forall u :: u != userId ==> Issued(u) == old(Issued(u))
    {
      if fails {
        return -1;
      }
      id := NextId(userId);
      nextIds := nextIds[userId := id + 1];
      assert NextId(userId) == id + 1;
      assert Issued(userId) == old(Issued(userId)) + {id};
      forall u | u != userId
        ensures Issued(u) == old(Issued(u))
      {
        assert NextId(u) == old(NextId(u));
      }
    }
  }
}
