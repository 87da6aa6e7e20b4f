/** The admission throttler: a usage gauge against two limits, and the in-flight counter. */
module Throttler {
  import opened Wrappers

  datatype Decision = Accept | Queue | Reject

  // decrement_active never goes below zero.
  function Decremented(active: int): int {
    if active - 1 > 0 then active - 1 else 0
  }

  class AdaptiveThrottler {
    const softLimit: real
    const hardLimit: real
    var kvUsage: real
    var activeRequests: int

    ghost predicate Valid()
      reads this
    {
      0.0 < softLimit < hardLimit <= 1.0
    }

    static method Create(softLimit: real, hardLimit: real) returns (r: Option<AdaptiveThrottler>)
      ensures r.Some? <==> 0.0 < softLimit < hardLimit <= 1.0
      ensures r.Some? ==> fresh(r.value) && r.value.Valid()
      ensures r.Some? ==> r.value.activeRequests == 0 && r.value.kvUsage == 0.0
    {
      if !(0.0 < softLimit < hardLimit <= 1.0) {
        return None;
      }
      var t := new AdaptiveThrottler(softLimit, hardLimit);
      r := Some(t);
    }

    constructor (softLimit: real, hardLimit: real)
      ensures this.softLimit == softLimit && this.hardLimit == hardLimit
      ensures activeRequests == 0 && kvUsage == 0.0
    {
      this.softLimit, this.hardLimit := softLimit, hardLimit;
      kvUsage, activeRequests := 0.0, 0;
    }

    /** A decision that only hardens as usage grows; the boundaries belong to the harder side. */
    method Check() returns (d: Decision)
      requires Valid()
      ensures d == Reject <==> kvUsage >= hardLimit
      ensures d == Accept <==> kvUsage < softLimit
    {
      if kvUsage >= hardLimit {
        return Reject;
      }
      if kvUsage >= softLimit {
        return Queue;
      }
      return Accept;
    }

    method IncrementActive()
      modifies this`activeRequests
      ensures activeRequests == old(activeRequests) + 1
    {
      activeRequests := activeRequests + 1;
    }

    method DecrementActive()
      modifies this`activeRequests
      ensures activeRequests == Decremented(old(activeRequests))
      ensures old(activeRequests) > 0 ==> activeRequests == old(activeRequests) - 1
      ensures old(activeRequests) <= 0 ==> activeRequests == 0
    {
      activeRequests := if activeRequests - 1 > 0 then activeRequests - 1 else 0;
    }
  }
}
