/**
 A circuit breaker whose OPEN state lapses to HALF_OPEN only when somebody looks, and
 the stateless test it amounts to.
 */
module CircuitBreaker {
  datatype State = Closed | Open | HalfOpen

  datatype Settings = Settings(threshold: int, cooldown: int)

  datatype Breaker = Breaker(state: State, failures: nat, lastFailure: int)

  const INITIAL := Breaker(Closed, 0, 0)

  function Observed(c: Settings, b: Breaker, now: int): Breaker {
    if b.state == Open && now - b.lastFailure >= c.cooldown then b.(state := HalfOpen) else b
  }

  predicate Available(c: Settings, b: Breaker, now: int) {
    Observed(c, b, now).state != Open
  }

  function Succeeded(b: Breaker): Breaker {
    b.(failures := 0, state := Closed)
  }

  function Failed(c: Settings, b: Breaker, now: int): Breaker {
    Breaker(if b.failures + 1 >= c.threshold then Open else b.state, b.failures + 1, now)
  }

  // ----- the stateless reading of a history -----

  // A failure count is what a breaker needs to know; a threshold below one acts as one.
  function Limit(c: Settings): int {
    if c.threshold < 1 then 1 else c.threshold
  }

  /** failures since the last success or reset, and when the latest failure was recorded */
  datatype Record = Record(failures: nat, lastFailure: int)

  predicate Admits(c: Settings, r: Record, now: int) {
    r.failures < Limit(c) || now - r.lastFailure >= c.cooldown
  }

  /** b is a state the breaker can be in at time now if r is its record. */
  predicate Reflects(c: Settings, b: Breaker, r: Record, now: int) {
    && b.failures == r.failures && b.lastFailure == r.lastFailure
    && (b.state == Closed <==> r.failures < Limit(c))
    && (b.state == HalfOpen ==> now - r.lastFailure >= c.cooldown)
    && (r.failures > 0 ==> r.lastFailure <= now)
  }

  lemma ReflectsAdmits(c: Settings, b: Breaker, r: Record, now: int, later: int)
    requires Reflects(c, b, r, now) && now <= later
    ensures Reflects(c, b, r, later) && Reflects(c, Observed(c, b, later), r, later)
    ensures Available(c, b, later) <==> Admits(c, r, later)
  {
  }

  /**
   A failure at or past the limit always opens, from HALF_OPEN as from CLOSED, and restarts
   the cooldown; a success always closes.
   */
  lemma OutcomesReflect(c: Settings, b: Breaker, r: Record, now: int, later: int)
    requires Reflects(c, b, r, now) && now <= later
    ensures Reflects(c, Failed(c, b, later), Record(r.failures + 1, later), later)
    ensures Reflects(c, Succeeded(b), Record(0, r.lastFailure), later)
    ensures r.failures + 1 >= Limit(c) ==> Failed(c, b, later).state == Open
  {
  }

  class CircuitBreaker {
    const settings: Settings
    var state: State
    var failures: nat
    var lastFailure: int

    function Model(): Breaker
      reads this
    {
      Breaker(state, failures, lastFailure)
    }

    constructor (settings: Settings)
      ensures this.settings == settings && Model() == INITIAL
    {
      this.settings := settings;
      state, failures, lastFailure := Closed, 0, 0;
    }

    /** The state getter: it moves OPEN to HALF_OPEN when the cooldown has passed. */
    method GetState(now: int) returns (s: State)
      modifies this
      ensures Model() == Observed(settings, old(Model()), now)
      ensures s == state
    {
      if state == Open {
        if now - lastFailure >= settings.cooldown {
          state := HalfOpen;
        }
      }
      s := state;
    }

    method IsAvailable(now: int) returns (b: bool)
      modifies this
      ensures Model() == Observed(settings, old(Model()), now)
      ensures b <==> Available(settings, old(Model()), now)
    {
      var s := GetState(now);
      b := s != Open;
    }

    method RecordSuccess()
      modifies this
      ensures Model() == Succeeded(old(Model()))
    {
      failures := 0;
      state := Closed;
    }

    method RecordFailure(now: int)
      modifies this
      ensures Model() == Failed(settings, old(Model()), now)
    {
      failures := failures + 1;
      lastFailure := now;
      if failures >= settings.threshold {
        state := Open;
      }
    }

    method Reset()
      modifies this
      ensures Model() == Succeeded(old(Model()))
    {
      failures := 0;
      state := Closed;
    }
  }
}
