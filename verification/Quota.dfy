/** The storage quota counter. */
module Quota {
  import opened Basics

  /** The counter means something only with a positive limit. */
  function Fits(limit: int, used: int, n: int): bool {
    limit > 0 ==> used + n <= limit
  }

  function Added(limit: int, used: int, n: int): int {
    if limit > 0 && n > 0 then used + n else used
  }

  function Subtracted(limit: int, used: int, n: int): int {
    if limit <= 0 || n <= 0 then used else Max(0, used - n)
  }

  /** Without a limit every upload passes and the counter never moves. */
  lemma NoLimit(limit: int, used: int, n: int)
    requires limit <= 0
    ensures Fits(limit, used, n) && Added(limit, used, n) == used && Subtracted(limit, used, n) == used
  {
  }

  /** With one, an upload passes exactly if the counter stays within it; adding and taking off undo each other. */
  lemma WithLimit(limit: int, used: int, n: int)
    requires limit > 0 && used >= 0 && n >= 0
    ensures Fits(limit, used, n) <==> Added(limit, used, n) <= limit
    ensures Added(limit, used, n) == used + n && Subtracted(limit, used + n, n) == used
    ensures n > used ==> Subtracted(limit, used, n) == 0
  {
  }

  class StorageQuota {
    const limit: int
    var used: int

    constructor (limit: int)
      ensures this.limit == limit && used == 0
    {
      this.limit := limit;
      used := 0;
    }

    predicate Enabled() {
      limit > 0
    }

    method Allows(n: int) returns (ok: bool)
      ensures ok == Fits(limit, used, n)
    {
      ok := !Enabled() || used + n <= limit;
    }

    method Add(n: int)
      modifies this
      ensures used == Added(limit, old(used), n)
    {
      if Enabled() && n > 0 {
        used := used + n;
      }
    }

    /**
     The compare-and-swap loop. `others` are values other requests store between
     a load and the swap that follows it; the subtraction takes effect once, on
     what the counter holds at the swap that succeeds.
     */
    method Sub(n: int, others: seq<int>) returns (at: nat)
      modifies this
      ensures at <= |others|
      ensures used == Subtracted(limit, ([old(used)] + others)[at], n)
    {
      at := 0;
      if !Enabled() || n <= 0 {
        return;
      }
      while true
        invariant at <= |others| && used == ([old(used)] + others)[at]
        decreases |others| - at
      {
        var current := used;
        if at < |others| {
          used := others[at];
          at := at + 1;
        }
        var next := current - n;
        if next < 0 {
          next := 0;
        }
        if used == current {
          used := next;
          return;
        }
      }
    }
  }
}
