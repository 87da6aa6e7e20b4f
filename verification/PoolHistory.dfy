/**
 The pool over whole histories: what every sequence of selections, outcomes and
 observations makes of the breakers and the cursor.
 */
module PoolHistory {
  import opened Wrappers
  import opened CircuitBreaker
  import opened BackendPool

  datatype Event =
    | Select(now: int)
    | Success(backend: Backend, now: int)
    | Failure(backend: Backend, now: int)
    | Count(now: int)                 // healthy_count
    | Observe(slot: nat, now: int)    // state or is_available of one breaker
    | Reset(slot: nat, now: int)      // reset of one breaker

  function Start(backends: seq<Backend>): Pool {
    Pool(backends, seq(|backends|, _ => INITIAL), 0)
  }

  function Apply(c: Settings, p: Pool, e: Event): Pool
    requires WellFormed(p)
  {
    match e
    case Select(now) => AfterSelect(c, p, now)
    case Success(b, _) => AfterSuccess(p, b)
    case Failure(b, now) => AfterFailure(c, p, b, now)
    case Count(now) => AfterCount(c, p, now)
    case Observe(k, now) =>
      if k < |p.breakers| then p.(breakers := p.breakers[k := Observed(c, p.breakers[k], now)]) else p
    case Reset(k, _) =>
      if k < |p.breakers| then p.(breakers := p.breakers[k := Succeeded(p.breakers[k])]) else p
  }

  function After(c: Settings, p: Pool, es: seq<Event>): (q: Pool)
    requires WellFormed(p)
    ensures WellFormed(q) && q.backends == p.backends
    decreases |es|
  {
    if es == [] then p else After(c, Apply(c, p, es[0]), es[1..])
  }

  /** The answers of the selections among es, in order; a slot, or none. */
  function Answers(c: Settings, p: Pool, es: seq<Event>): seq<Option<nat>>
    requires WellFormed(p)
    decreases |es|
  {
    if es == [] then []
    else
      var later := Answers(c, Apply(c, p, es[0]), es[1..]);
      if es[0].Select? then [Selected(c, p, es[0].now)] + later else later
  }

  // time.monotonic never goes back.
  predicate Monotone(from: int, es: seq<Event>)
    decreases |es|
  {
    es == [] || (from <= es[0].now && Monotone(es[0].now, es[1..]))
  }

  function End(from: int, es: seq<Event>): int {
    if es == [] then from else es[|es| - 1].now
  }

  // ----- the stateless test -----

  /** What the history says about slot k: only outcomes and resets count. */
  function Recorded(c: Settings, backends: seq<Backend>, k: nat, r: Record, e: Event): Record {
    match e
    case Success(b, _) => if FirstSlot(backends, b) == Some(k) then r.(failures := 0) else r
    case Failure(b, now) => if FirstSlot(backends, b) == Some(k) then Record(r.failures + 1, now) else r
    case Reset(j, _) => if j == k then r.(failures := 0) else r
    case _ => r
  }

  function RecordOf(c: Settings, backends: seq<Backend>, k: nat, r: Record, es: seq<Event>): Record
    decreases |es|
  {
    if es == [] then r else RecordOf(c, backends, k, Recorded(c, backends, k, r, es[0]), es[1..])
  }

  const NO_RECORD := Record(0, 0)

  /** The stateless test for slot k after the history es of a new pool. */
  predicate HistoryAdmits(c: Settings, backends: seq<Backend>, es: seq<Event>, k: nat, now: int) {
    Admits(c, RecordOf(c, backends, k, NO_RECORD, es), now)
  }

  lemma StepReflects(c: Settings, p: Pool, k: nat, r: Record, before: int, e: Event)
    requires WellFormed(p) && k < |p.backends|
    requires Reflects(c, p.breakers[k], r, before) && before <= e.now
    ensures Reflects(c, Apply(c, p, e).breakers[k], Recorded(c, p.backends, k, r, e), e.now)
  {
    ReflectsAdmits(c, p.breakers[k], r, before, e.now);
    OutcomesReflect(c, p.breakers[k], r, before, e.now);
  }

  lemma {:induction false} RunReflects(c: Settings, p: Pool, k: nat, r: Record, from: int, es: seq<Event>)
    requires WellFormed(p) && k < |p.backends|
    requires Reflects(c, p.breakers[k], r, from) && Monotone(from, es)
    ensures Reflects(c, After(c, p, es).breakers[k], RecordOf(c, p.backends, k, r, es), End(from, es))
    decreases |es|
  {
    if es != [] {
      StepReflects(c, p, k, r, from, es[0]);
      RunReflects(c, Apply(c, p, es[0]), k, Recorded(c, p.backends, k, r, es[0]), es[0].now, es[1..]);
    }
  }

  lemma HistoryReflects(c: Settings, backends: seq<Backend>, k: nat, from: int, es: seq<Event>, now: int)
    requires k < |backends| && Monotone(from, es) && End(from, es) <= now
    ensures Reflects(c, After(c, Start(backends), es).breakers[k], RecordOf(c, backends, k, NO_RECORD, es), now)
  {
    RunReflects(c, Start(backends), k, NO_RECORD, from, es);
    ReflectsAdmits(c, After(c, Start(backends), es).breakers[k], RecordOf(c, backends, k, NO_RECORD, es),
                   End(from, es), now);
  }

  /**
   The lazy breaker is the stateless test: after every history, a slot is available exactly
   when its failures since the last success or reset are below the limit, or its latest
   failure is at least the cooldown ago. Observations leave no trace in that test.
   */
  lemma LazyIsStateless(c: Settings, backends: seq<Backend>, from: int, es: seq<Event>, k: nat, now: int)
    requires k < |backends| && Monotone(from, es) && End(from, es) <= now
    ensures AvailableAt(c, After(c, Start(backends), es), k, now)
       <==> HistoryAdmits(c, backends, es, k, now)
  {
    HistoryReflects(c, backends, k, from, es, now);
    ReflectsAdmits(c, After(c, Start(backends), es).breakers[k], RecordOf(c, backends, k, NO_RECORD, es), now, now);
  }

  // ----- the history read directly -----

  predicate FailureOf(backends: seq<Backend>, k: nat, e: Event) {
    e.Failure? && FirstSlot(backends, e.backend) == Some(k)
  }

  // A success of slot k, or its reset.
  predicate Recovers(backends: seq<Backend>, k: nat, e: Event) {
    (e.Success? && FirstSlot(backends, e.backend) == Some(k)) || (e.Reset? && e.slot == k)
  }

  function Failures(backends: seq<Backend>, k: nat, es: seq<Event>): nat {
    if es == [] then 0
    else Failures(backends, k, es[..|es| - 1]) + if FailureOf(backends, k, es[|es| - 1]) then 1 else 0
  }

  // Slot k has not recovered from event i on.
  predicate Unrecovered(backends: seq<Backend>, k: nat, es: seq<Event>, i: nat) {
    i <= |es| && forall j | i <= j < |es| :: !Recovers(backends, k, es[j])
  }

  lemma {:induction false} RecordOfLast(c: Settings, backends: seq<Backend>, k: nat, r: Record, es: seq<Event>, e: Event)
    ensures RecordOf(c, backends, k, r, es + [e]) == Recorded(c, backends, k, RecordOf(c, backends, k, r, es), e)
    decreases |es|
  {
    if es == [] {
      assert (es + [e])[1..] == [];
    } else {
      assert (es + [e])[1..] == es[1..] + [e] && (es + [e])[0] == es[0];
      RecordOfLast(c, backends, k, Recorded(c, backends, k, r, es[0]), es[1..], e);
    }
  }

  // The record counts the failures since the last recovery, the longest stretch without one,
  // and remembers the latest failure.
  ghost predicate Recounts(backends: seq<Backend>, k: nat, es: seq<Event>, r: Record) {
    && (exists i: nat :: Unrecovered(backends, k, es, i) && Failures(backends, k, es[i..]) == r.failures)
    && (forall i: nat :: Unrecovered(backends, k, es, i) ==> Failures(backends, k, es[i..]) <= r.failures)
    && (r.failures > 0 ==> exists j :: 0 <= j < |es| && FailureOf(backends, k, es[j]) && es[j].now == r.lastFailure)
    && (forall j | 0 <= j < |es| && FailureOf(backends, k, es[j]) :: es[j].now <= r.lastFailure)
  }

  lemma {:induction false} RecordRecounts(c: Settings, backends: seq<Backend>, k: nat, es: seq<Event>)
    requires forall i, j | 0 <= i <= j < |es| :: es[i].now <= es[j].now
    ensures Recounts(backends, k, es, RecordOf(c, backends, k, NO_RECORD, es))
    decreases |es|
  {
    if es == [] {
      assert Unrecovered(backends, k, es, 0) && es[0..] == [];
    } else {
      var n := |es| - 1;
      RecordRecounts(c, backends, k, es[..n]);
      assert es == es[..n] + [es[n]];
      RecordOfLast(c, backends, k, NO_RECORD, es[..n], es[n]);
      OneMoreEvent(c, backends, k, es, RecordOf(c, backends, k, NO_RECORD, es[..n]));
    }
  }

  lemma FailuresOfLast(backends: seq<Backend>, k: nat, es: seq<Event>, i: nat)
    requires i < |es|
    ensures Failures(backends, k, es[i..])
         == Failures(backends, k, es[..|es| - 1][i..]) + if FailureOf(backends, k, es[|es| - 1]) then 1 else 0
  {
    assert es[i..][..|es[i..]| - 1] == es[..|es| - 1][i..];
  }

  lemma OneMoreEvent(c: Settings, backends: seq<Backend>, k: nat, es: seq<Event>, r: Record)
    requires es != [] && Recounts(backends, k, es[..|es| - 1], r)
    requires forall i, j | 0 <= i <= j < |es| :: es[i].now <= es[j].now
    ensures Recounts(backends, k, es, Recorded(c, backends, k, r, es[|es| - 1]))
  {
    var n := |es| - 1;
    var past, e := es[..n], es[n];
    var r' := Recorded(c, backends, k, r, e);
    if Recovers(backends, k, e) {
      assert Unrecovered(backends, k, es, n + 1) && es[n + 1..] == [];
    } else {
      var i: nat :| Unrecovered(backends, k, past, i) && Failures(backends, k, past[i..]) == r.failures;
      assert Unrecovered(backends, k, es, i);
      FailuresOfLast(backends, k, es, i);
    }
    forall i: nat | Unrecovered(backends, k, es, i)
      ensures Failures(backends, k, es[i..]) <= r'.failures
    {
      if i <= n {
        assert !Recovers(backends, k, es[n]);
        assert Unrecovered(backends, k, past, i);
        FailuresOfLast(backends, k, es, i);
      }
    }
    if r'.failures > 0 && !FailureOf(backends, k, e) {
      var j :| 0 <= j < |past| && FailureOf(backends, k, past[j]) && past[j].now == r.lastFailure;
      assert es[j] == past[j];
    }
    forall j | 0 <= j < |es| && FailureOf(backends, k, es[j])
      ensures es[j].now <= r'.lastFailure
    {
      if j < n {
        assert past[j] == es[j];
      }
    }
  }

  lemma {:induction false} MonotoneOrders(from: int, es: seq<Event>)
    requires Monotone(from, es)
    ensures forall i | 0 <= i < |es| :: from <= es[i].now
    ensures forall i, j | 0 <= i <= j < |es| :: es[i].now <= es[j].now
    decreases |es|
  {
    if es != [] {
      MonotoneOrders(es[0].now, es[1..]);
      forall i, j | 0 <= i <= j < |es|
        ensures from <= es[i].now <= es[j].now
      {
        if i > 0 {
          assert es[i] == es[1..][i - 1] && es[j] == es[1..][j - 1];
        } else if j > 0 {
          assert es[j] == es[1..][j - 1];
        }
      }
    }
  }

  /**
   What opens a circuit, read off the history itself: after every history a slot is closed to
   calls exactly when, over some stretch up to now without a success or a reset of it, its
   backend failed threshold times or more, and its latest failure is less than a cooldown old.
   */
  lemma OpenIffRecentFailures(c: Settings, backends: seq<Backend>, from: int, es: seq<Event>, k: nat, now: int)
    requires k < |backends| && Monotone(from, es) && End(from, es) <= now
    ensures !AvailableAt(c, After(c, Start(backends), es), k, now) <==>
      && (exists i: nat :: Unrecovered(backends, k, es, i) && Failures(backends, k, es[i..]) >= Limit(c))
      && (exists j :: 0 <= j < |es| && FailureOf(backends, k, es[j]) && now - es[j].now < c.cooldown)
  {
    LazyIsStateless(c, backends, from, es, k, now);
    MonotoneOrders(from, es);
    RecordRecounts(c, backends, k, es);
    hide AvailableAt, After, Start, RecordOf, Failures;
  }

  /**
   The pool specification: after every history, a selection answers none exactly when every
   slot has reached the limit and failed less than the cooldown ago.
   */
  lemma NoneIffAllOpen(c: Settings, backends: seq<Backend>, from: int, es: seq<Event>, now: int)
    requires backends != [] && Monotone(from, es) && End(from, es) <= now
    ensures Selected(c, After(c, Start(backends), es), now).None? <==>
      forall k: nat | k < |backends| :: !HistoryAdmits(c, backends, es, k, now)
  {
    var p := After(c, Start(backends), es);
    SelectedNone(c, p, now);
    forall k: nat | k < |backends|
      ensures AvailableAt(c, p, k, now) <==> HistoryAdmits(c, backends, es, k, now)
    {
      LazyIsStateless(c, backends, from, es, k, now);
    }
  }

  /**
   The health count after every history: it is the number of slots that pass the stateless
   test, and it is zero exactly when a selection at that moment would answer none.
   */
  lemma HealthIsSelection(c: Settings, backends: seq<Backend>, from: int, es: seq<Event>, now: int)
    requires backends != [] && Monotone(from, es) && End(from, es) <= now
    ensures var p := After(c, Start(backends), es);
      var healthy := |HealthySlots(c, p, Still(p, now))|;
      && healthy == |set k: nat | k < |backends| && HistoryAdmits(c, backends, es, k, now)|
      && (healthy == 0 <==> Selected(c, p, now).None?)
  {
    var p := After(c, Start(backends), es);
    var slots := HealthySlots(c, p, Still(p, now));
    SelectedNone(c, p, now);
    forall k: nat | k < |backends|
      ensures k in slots <==> HistoryAdmits(c, backends, es, k, now)
    {
      LazyIsStateless(c, backends, from, es, k, now);
    }
    assert slots == set k: nat | k < |backends| && HistoryAdmits(c, backends, es, k, now);
    assert forall k: nat | k < |backends| :: k in slots <==> AvailableAt(c, p, k, now);
    assert slots == {} <==> forall k: nat | k < |backends| :: k !in slots;
  }

  lemma {:induction false} LastFailureInHistory(c: Settings, backends: seq<Backend>, k: nat, r: Record, from: int, es: seq<Event>, latest: int)
    requires Monotone(from, es)
    requires r.failures > 0 ==> r.lastFailure <= latest
    requires forall i | 0 <= i < |es| && es[i].Failure? :: es[i].now <= latest
    ensures var s := RecordOf(c, backends, k, r, es); s.failures > 0 ==> s.lastFailure <= latest
    decreases |es|
  {
    if es != [] {
      forall i | 0 <= i < |es[1..]| && es[1..][i].Failure?
        ensures es[1..][i].now <= latest
      {
        assert es[1..][i] == es[i + 1];
      }
      LastFailureInHistory(c, backends, k, Recorded(c, backends, k, r, es[0]), es[0].now, es[1..], latest);
    }
  }

  /** Recovery: one cooldown after the latest recorded failure some backend is always found. */
  lemma RecoversAfterCooldown(c: Settings, backends: seq<Backend>, from: int, es: seq<Event>, latest: int, now: int)
    requires backends != [] && Monotone(from, es) && End(from, es) <= now
    requires forall i | 0 <= i < |es| && es[i].Failure? :: es[i].now <= latest
    requires latest + c.cooldown <= now
    ensures Selected(c, After(c, Start(backends), es), now).Some?
  {
    NoneIffAllOpen(c, backends, from, es, now);
    LastFailureInHistory(c, backends, 0, NO_RECORD, from, es, latest);
    assert HistoryAdmits(c, backends, es, 0, now);
  }

  // ----- observation is invisible -----

  predicate IsObservation(e: Event) {
    e.Count? || e.Observe?
  }

  function Unobserved(es: seq<Event>): seq<Event> {
    if es == [] then []
    else if IsObservation(es[0]) then Unobserved(es[1..])
    else [es[0]] + Unobserved(es[1..])
  }

  // Same cursor, and breakers that no later moment can tell apart.
  ghost predicate Alike(c: Settings, p: Pool, q: Pool, now: int)
    requires WellFormed(p) && WellFormed(q)
  {
    && p.backends == q.backends && p.index == q.index
    && forall k | 0 <= k < |p.breakers| :: AlikeBreakers(c, p.breakers[k], q.breakers[k], now)
  }

  predicate AlikeBreakers(c: Settings, a: Breaker, b: Breaker, now: int) {
    && a.failures == b.failures && a.lastFailure == b.lastFailure
    && (a.state != Closed ==> a.failures >= c.threshold)
    && (a.state == b.state
        || (a.state != Closed && b.state != Closed && now - a.lastFailure >= c.cooldown))
  }

  lemma AlikeSelect(c: Settings, p: Pool, q: Pool, before: int, now: int)
    requires WellFormed(p) && WellFormed(q) && Alike(c, p, q, before) && before <= now
    ensures Selected(c, p, now) == Selected(c, q, now)
    ensures Alike(c, AfterSelect(c, p, now), AfterSelect(c, q, now), now)
  {
    forall k: nat | k < |p.backends|
      ensures AvailableAt(c, p, k, now) == AvailableAt(c, q, k, now)
    {}
    forall i: nat
      ensures Slot(p, i) == Slot(q, i)
    {}
    match Scan(c, p, Still(p, now), 0)
    case Some(i) => ScansFirst(c, q, Still(q, now), i);
    case None =>
      SelectedNone(c, p, now);
      SelectedNone(c, q, now);
  }

  lemma AlikeStep(c: Settings, p: Pool, q: Pool, before: int, e: Event)
    requires WellFormed(p) && WellFormed(q) && Alike(c, p, q, before) && before <= e.now
    requires !IsObservation(e)
    ensures Alike(c, Apply(c, p, e), Apply(c, q, e), e.now)
  {
    if e.Select? {
      AlikeSelect(c, p, q, before, e.now);
    }
  }

  lemma {:induction false} AlikeAnswers(c: Settings, p: Pool, q: Pool, from: int, es: seq<Event>)
    requires WellFormed(p) && WellFormed(q) && Alike(c, p, q, from) && Monotone(from, es)
    ensures Answers(c, p, es) == Answers(c, q, Unobserved(es))
    decreases |es|
  {
    if es != [] {
      var e, rest := es[0], es[1..];
      if IsObservation(e) {
        assert Alike(c, Apply(c, p, e), q, e.now);
        AlikeAnswers(c, Apply(c, p, e), q, e.now, rest);
      } else {
        AlikeStep(c, p, q, from, e);
        if e.Select? {
          AlikeSelect(c, p, q, from, e.now);
        }
        AlikeAnswers(c, Apply(c, p, e), Apply(c, q, e), e.now, rest);
        assert ([e] + Unobserved(rest))[1..] == Unobserved(rest);
      }
    }
  }

  /**
   Observation is invisible: dropping every health check and state query from a history
   changes no selection's answer.
   */
  lemma ObservationIsInvisible(c: Settings, backends: seq<Backend>, from: int, es: seq<Event>)
    requires backends != [] && Monotone(from, es)
    ensures Answers(c, Start(backends), es) == Answers(c, Start(backends), Unobserved(es))
  {
    AlikeAnswers(c, Start(backends), Start(backends), from, es);
  }
}
