/**
 Any number of request handlers, plain and streaming, interleaved at their awaits and
 yields, sharing the throttler's in-flight counter.
 */
module InFlight {
  import opened Throttler

  type Id = nat

  // Why a plain handler leaves its try block.
  datatype Exit = CacheHit | Answer | TimedOut | Raised | WasCancelled

  // Why a stream leaves its try block; a failing cache write counts as Failed.
  datatype StreamExit = Exhausted | Failed | ClosedByClient

  datatype Phase =
    | Body            // plain: inside try
    | Storing         // plain: past finally, writing to the cache
    | Created         // stream: counted, generator not started
    | Looking         // stream: waiting for the cache
    | Streaming       // stream: inside try
    | Telling         // stream: past its decrement, yielding its last events
    | Done
    | Leaked          // stream: ended without its decrement

  datatype State = State(active: int, requests: map<Id, Phase>)

  const INITIAL := State(0, map[])

  datatype Step =
    | Refuse                                        // admission control answers 429
    | Begin(id: Id)                                 // plain handler, up to its first await
    | Leave(id: Id, exit: Exit)                     // finally of the plain handler
    | Stored(id: Id)                                // its cache write returns or raises
    | BeginStream(id: Id)                           // response created
    | NeverStarted(id: Id)                          // response dropped before the first pull
    | Start(id: Id, cached: bool, backend: bool)    // first pull: with a cache or not
    | Hit(id: Id)
    | Miss(id: Id, backend: bool)
    | LookupRaises(id: Id)                          // the cache lookup raises or is cancelled
    | Chunk(id: Id)
    | LeaveStream(id: Id, streamExit: StreamExit)   // finally of the stream
    | Close(id: Id)

  predicate In(s: State, id: Id, phase: Phase) {
    id in s.requests && s.requests[id] == phase
  }

  predicate Enabled(s: State, e: Step) {
    match e
    case Refuse => true
    case Begin(id) => id !in s.requests
    case Leave(id, _) => In(s, id, Body)
    case Stored(id) => In(s, id, Storing)
    case BeginStream(id) => id !in s.requests
    case NeverStarted(id) => In(s, id, Created)
    case Start(id, _, _) => In(s, id, Created)
    case Hit(id) => In(s, id, Looking)
    case Miss(id, _) => In(s, id, Looking)
    case LookupRaises(id) => In(s, id, Looking)
    case Chunk(id) => In(s, id, Streaming)
    case LeaveStream(id, _) => In(s, id, Streaming)
    case Close(id) => In(s, id, Telling)
  }

  function To(s: State, id: Id, phase: Phase): State {
    s.(requests := s.requests[id := phase])
  }

  function Counted(s: State): State {
    s.(active := s.active + 1)
  }

  function Uncounted(s: State): State {
    s.(active := Decremented(s.active))
  }

  function PickBackend(s: State, id: Id, backend: bool): State {
    if backend then To(s, id, Streaming) else To(Uncounted(s), id, Telling)
  }

  function Apply(s: State, e: Step): State
    requires Enabled(s, e)
  {
    match e
    case Refuse => s
    case Begin(id) => To(Counted(s), id, Body)
    case Leave(id, exit) => To(Uncounted(s), id, if exit == Answer then Storing else Done)
    case Stored(id) => To(s, id, Done)
    case BeginStream(id) => To(Counted(s), id, Created)
    case NeverStarted(id) => To(s, id, Leaked)
    case Start(id, cached, backend) => if cached then To(s, id, Looking) else PickBackend(s, id, backend)
    case Hit(id) => To(Uncounted(s), id, Telling)
    case Miss(id, backend) => PickBackend(s, id, backend)
    case LookupRaises(id) => To(s, id, Leaked)
    case Chunk(_) => s
    case LeaveStream(id, exit) => To(Uncounted(s), id, if exit == Exhausted then Telling else Done)
    case Close(id) => To(s, id, Done)
  }

  ghost predicate Possible(s: State, run: seq<Step>)
    decreases |run|
  {
    run == [] || (Enabled(s, run[0]) && Possible(Apply(s, run[0]), run[1..]))
  }

  ghost function After(s: State, run: seq<Step>): State
    requires Possible(s, run)
    decreases |run|
  {
    if run == [] then s else After(Apply(s, run[0]), run[1..])
  }

  // Past its increment and before its decrement.
  predicate Open(phase: Phase) {
    phase == Body || phase == Created || phase == Looking || phase == Streaming || phase == Leaked
  }

  ghost function Where(requests: map<Id, Phase>, p: Phase -> bool): set<Id> {
    set id | id in requests && p(requests[id])
  }

  ghost function OpenRequests(s: State): set<Id> {
    Where(s.requests, Open)
  }

  ghost function LeakedRequests(s: State): set<Id> {
    Where(s.requests, phase => phase == Leaked)
  }

  predicate Decrements(s: State, e: Step)
    requires Enabled(s, e)
  {
    match e
    case Leave(_, _) => true
    case LeaveStream(_, _) => true
    case Hit(_) => true
    case Miss(_, backend) => !backend
    case Start(_, cached, backend) => !cached && !backend
    case _ => false
  }

  // One request moves to phase q: the number of requests where p holds moves with it.
  lemma OneMoves(requests: map<Id, Phase>, id: Id, q: Phase, p: Phase -> bool)
    ensures var was := id in requests && p(requests[id]);
      |Where(requests[id := q], p)| == |Where(requests, p)| + (if p(q) then 1 else 0) - (if was then 1 else 0)
  {
    var a, b := Where(requests, p), Where(requests[id := q], p);
    assert a - {id} == b - {id};
    assert |a - {id}| == |a| - if id in a then 1 else 0;
    assert |b - {id}| == |b| - if id in b then 1 else 0;
  }

  // What a step does to its request, seen from the counter.
  lemma StepMoves(s: State, e: Step)
    requires Enabled(s, e) && !e.Refuse?
    ensures var t := Apply(s, e);
      && e.id in t.requests && t.requests == s.requests[e.id := t.requests[e.id]]
      && var was := e.id in s.requests && Open(s.requests[e.id]);
         var after := Open(t.requests[e.id]);
         && (Decrements(s, e) ==> was && !after && t.active == Decremented(s.active))
         && (!Decrements(s, e) ==>
               t.active == s.active + (if after then 1 else 0) - (if was then 1 else 0) && (was ==> after))
  {
  }

  lemma StepKeepsCount(s: State, e: Step)
    requires s.active == |OpenRequests(s)| && Enabled(s, e)
    ensures Apply(s, e).active == |OpenRequests(Apply(s, e))|
    ensures Decrements(s, e) ==> s.active >= 1 && Apply(s, e).active == s.active - 1
  {
    if !e.Refuse? {
      StepMoves(s, e);
      hide Apply, Enabled, Decrements;
      OneMoves(s.requests, e.id, Apply(s, e).requests[e.id], Open);
    }
  }

  lemma {:induction false} RunKeepsCount(s: State, run: seq<Step>)
    requires s.active == |OpenRequests(s)| && Possible(s, run)
    ensures After(s, run).active == |OpenRequests(After(s, run))|
    decreases |run|
  {
    if run != [] {
      StepKeepsCount(s, run[0]);
      RunKeepsCount(Apply(s, run[0]), run[1..]);
    }
  }

  /**
   In-flight conservation: in every interleaving the counter is the number of requests
   past their increment and before their decrement, over cache hits, timeouts, exceptions,
   cancellations and closed streams; and the clamp at zero never changes a decrement.
   */
  lemma ActiveIsInFlight(run: seq<Step>)
    requires Possible(INITIAL, run)
    ensures var s := After(INITIAL, run);
      && s.active == |OpenRequests(s)|
      && forall e | Enabled(s, e) && Decrements(s, e) :: Apply(s, e).active == s.active - 1
  {
    assert OpenRequests(INITIAL) == {};
    RunKeepsCount(INITIAL, run);
    var s := After(INITIAL, run);
    forall e | Enabled(s, e) && Decrements(s, e)
      ensures Apply(s, e).active == s.active - 1
    {
      StepKeepsCount(s, e);
    }
  }

  predicate Leaks(e: Step) {
    e.NeverStarted? || e.LookupRaises?
  }

  function LeakCount(run: seq<Step>): nat {
    if run == [] then 0 else (if Leaks(run[0]) then 1 else 0) + LeakCount(run[1..])
  }

  lemma StepLeaks(s: State, e: Step)
    requires Enabled(s, e)
    ensures |LeakedRequests(Apply(s, e))| == |LeakedRequests(s)| + if Leaks(e) then 1 else 0
  {
    if !e.Refuse? {
      var q := Apply(s, e).requests[e.id];
      assert q == Leaked <==> Leaks(e);
      assert Apply(s, e).requests == s.requests[e.id := q];
      OneMoves(s.requests, e.id, q, phase => phase == Leaked);
    }
  }

  lemma {:induction false} LeaksAddUp(s: State, run: seq<Step>)
    requires Possible(s, run)
    ensures |LeakedRequests(After(s, run))| == |LeakedRequests(s)| + LeakCount(run)
    decreases |run|
  {
    if run != [] {
      StepLeaks(s, run[0]);
      LeaksAddUp(Apply(s, run[0]), run[1..]);
    }
  }

  /**
   The counter returns to zero exactly when nothing leaked: once every request has ended,
   it stands at the number of streams that were dropped before their first pull or whose
   cache lookup raised.
   */
  lemma IdleCountIsLeaks(run: seq<Step>)
    requires Possible(INITIAL, run)
    requires var s := After(INITIAL, run);
      forall id | id in s.requests :: s.requests[id] == Done || s.requests[id] == Leaked
    ensures After(INITIAL, run).active == LeakCount(run)
  {
    ActiveIsInFlight(run);
    LeaksAddUp(INITIAL, run);
    var s := After(INITIAL, run);
    assert OpenRequests(s) == LeakedRequests(s);
    assert LeakedRequests(INITIAL) == {};
  }

  // ----- what the counter does not see -----

  lemma {:induction false} Extend(s: State, run: seq<Step>, e: Step)
    requires Possible(s, run) && Enabled(After(s, run), e)
    ensures Possible(s, run + [e]) && After(s, run + [e]) == Apply(After(s, run), e)
    decreases |run|
  {
    if run == [] {
      assert (run + [e])[1..] == [];
    } else {
      Extend(Apply(s, run[0]), run[1..], e);
      assert (run + [e])[1..] == run[1..] + [e];
    }
  }

  /**
   Both leaks happen, and they add up for ever: for every n some run ends all its n requests
   and leaves the counter at n, by streams that were never pulled or by lookups that raised.
   */
  lemma {:induction false} LeaksAccumulate(n: nat, lookups: bool) returns (run: seq<Step>)
    ensures Possible(INITIAL, run)
    ensures forall i | 0 <= i < |run| :: if lookups then !run[i].NeverStarted? else !run[i].LookupRaises?
    ensures var s := After(INITIAL, run);
      && s.active == n && (forall id: nat :: id in s.requests <==> id < n)
      && forall id | id in s.requests :: s.requests[id] == Leaked
  {
    run := [];
    if n > 0 {
      run := LeaksAccumulate(n - 1, lookups);
      var id := n - 1;
      Extend(INITIAL, run, BeginStream(id));
      run := run + [BeginStream(id)];
      if lookups {
        Extend(INITIAL, run, Start(id, true, false));
        run := run + [Start(id, true, false)];
      }
      var leak := if lookups then LookupRaises(id) else NeverStarted(id);
      Extend(INITIAL, run, leak);
      run := run + [leak];
    }
  }

  /**
   The counter covers the try block only: for every n some run leaves n requests writing the
   cache, or n streams still sending their last events, while the counter stands at zero.
   */
  lemma {:induction false} CounterMissesWork(n: nat, streams: bool) returns (run: seq<Step>)
    ensures Possible(INITIAL, run)
    ensures var s := After(INITIAL, run);
      && s.active == 0 && (forall id: nat :: id in s.requests <==> id < n)
      && forall id | id in s.requests :: s.requests[id] == if streams then Telling else Storing
  {
    run := [];
    if n > 0 {
      run := CounterMissesWork(n - 1, streams);
      var id := n - 1;
      var steps := if streams then [BeginStream(id), Start(id, false, true), LeaveStream(id, Exhausted)]
                   else [Begin(id), Leave(id, Answer)];
      Extend(INITIAL, run, steps[0]);
      Extend(INITIAL, run + [steps[0]], steps[1]);
      run := run + [steps[0]] + [steps[1]];
      if streams {
        Extend(INITIAL, run, steps[2]);
        run := run + [steps[2]];
      }
    }
  }
}
