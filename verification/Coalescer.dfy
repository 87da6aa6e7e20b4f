/**
 Coalescing of identical requests across workers: a lock with a time to live elects one
 call per request hash, the others listen on a lossy channel for its result. Each Redis
 command, timeout, failure and cancellation is one step; time is in milliseconds.
 */
module Coalescer {
  import opened Wrappers

  const LOCK_TTL := 30000
  const WAIT_TIMEOUT := 25000

  type Hash = nat
  type CallId = nat
  type WorkerId = nat

  // ErrorObject is an object with an "__error__" member.
  datatype Json = Null | ErrorObject(message: string) | Other(text: string)

  // What a producer returns: a string, other JSON data, or an object json.dumps refuses.
  datatype Value = Text(s: string) | Data(j: Json) | Unserialisable

  datatype Outcome = Returned(v: Value) | Raised(message: string)

  /** json.dumps on data, and json.loads on any text (none for text that is not JSON). */
  datatype Codec = Codec(dumps: Json -> string, loads: string -> Option<Json>)

  function Encode(c: Codec, v: Value): Option<string> {
    match v
    case Text(s) => Some(s)
    case Data(j) => Some(c.dumps(j))
    case Unserialisable => None
  }

  // What a waiter makes of a message: a value, an error to raise, or nothing at all.
  datatype Reply = Got(v: Value) | Failed(message: string) | Nothing

  function Decode(c: Codec, raw: string): Reply {
    match c.loads(raw)
    case None => Got(Text(raw))
    case Some(Null) => Nothing
    case Some(ErrorObject(m)) => Failed(m)
    case Some(Other(t)) => Got(Data(Other(t)))
  }

  // How a call ended. from is the place in the log of the message it acted on.
  datatype End =
    | OwnResult(v: Value)
    | OwnError(message: string)
    | Coalesced(v: Value, from: nat)
    | SentinelError(message: string, from: nat)
    | Cancelled
    | RedisError

  datatype Phase =
    | Producing                                       // won the lock, running its producer
    | Publishing(payload: string, v: Value)           // PUBLISH of the result next
    | PublishingError(message: string)                // PUBLISH of the error sentinel next
    | Deleting(end: End)                              // DEL of the lock next
    | Subscribing                                     // lost the lock, SUBSCRIBE next
    | Listening(deadline: nat, inbox: seq<nat>)       // inbox: places in the log
    | Fallback(early: bool)                           // running its own producer after all
    | Finished(end: End)
    | Crashed

  // at is the time of SET NX; runs counts producer starts, and produced is what the producer
  // did; since is the length of the log when the call subscribed.
  datatype Call = Call(worker: WorkerId, hash: Hash, at: nat, claimed: bool, runs: nat, produced: Option<Outcome>,
                       since: nat, phase: Phase)

  // The lock's value is the same for everybody; owner is history.
  datatype Lock = Lock(owner: CallId, expires: nat)

  datatype Publication = Publication(hash: Hash, sender: CallId, payload: string, origin: Outcome)

  datatype State = State(
    now: nat,
    locks: map<Hash, Lock>,
    calls: map<CallId, Call>,
    log: seq<Publication>,
    counted: map<WorkerId, nat>)    // each worker's coalesced_count

  const INITIAL := State(0, map[], map[], [], map[])

  datatype Step =
    | Tick(ms: nat)
    | Claim(id: CallId, worker: WorkerId, hash: Hash)
    | Produce(id: CallId, outcome: Outcome)
    | Publish(id: CallId, delivered: set<CallId>)
    | PublishFails(id: CallId, message: string)
    | Delete(id: CallId)
    | DeleteFails(id: CallId)       // the DEL raises, and the lock stays
    | Subscribe(id: CallId)
    | Receive(id: CallId)
    | TimeOut(id: CallId)
    | Cancel(id: CallId)
    | Fail(id: CallId)              // a Redis error while subscribing or listening
    | Crash(id: CallId)

  // ----- which calls are doing what -----

  predicate Holding(w: Call) {
    w.phase.Producing? || w.phase.Publishing? || w.phase.PublishingError? || w.phase.Deleting?
  }

  predicate Running(w: Call) {
    w.phase.Producing? || w.phase.Fallback?
  }

  predicate Ended(w: Call) {
    w.phase.Finished? || w.phase.Crashed?
  }

  predicate LockLive(s: State, h: Hash) {
    h in s.locks && s.now < s.locks[h].expires
  }

  predicate Listener(s: State, h: Hash, id: CallId) {
    id in s.calls && s.calls[id].hash == h && s.calls[id].phase.Listening?
  }

  // ----- the steps -----

  predicate ToPublish(w: Call) {
    w.phase.Publishing? || w.phase.PublishingError?
  }

  predicate Enabled(s: State, e: Step) {
    match e
    case Tick(_) => true
    case Claim(id, _, _) => id !in s.calls
    case Produce(id, _) => id in s.calls && Running(s.calls[id])
    case Publish(id, delivered) =>
      && id in s.calls && ToPublish(s.calls[id])
      && forall d | d in delivered :: Listener(s, s.calls[id].hash, d)
    case PublishFails(id, _) => id in s.calls && ToPublish(s.calls[id])
    case Delete(id) => id in s.calls && s.calls[id].phase.Deleting?
    case DeleteFails(id) => id in s.calls && s.calls[id].phase.Deleting?
    case Subscribe(id) => id in s.calls && s.calls[id].phase.Subscribing?
    case Receive(id) =>
      && id in s.calls && s.calls[id].phase.Listening?
      && s.calls[id].phase.inbox != [] && s.calls[id].phase.inbox[0] < |s.log|
    case TimeOut(id) => id in s.calls && s.calls[id].phase.Listening? && s.now >= s.calls[id].phase.deadline
    case Fail(id) => id in s.calls && (s.calls[id].phase.Subscribing? || s.calls[id].phase.Listening?)
    case Cancel(id) => id in s.calls && !Ended(s.calls[id])
    case Crash(id) => id in s.calls && !Ended(s.calls[id])
  }

  function Set(s: State, id: CallId, phase: Phase): State
    requires id in s.calls
  {
    s.(calls := s.calls[id := s.calls[id].(phase := phase)])
  }

  function EndOf(origin: Outcome): End {
    match origin
    case Returned(v) => OwnResult(v)
    case Raised(m) => OwnError(m)
  }

  const REFUSED := "not JSON serializable"

  // The end of a producer: a winner goes on to publish, a fallback is done.
  function Produced(c: Codec, w: Call, outcome: Outcome): Phase {
    if w.phase.Fallback? then
      Finished(EndOf(outcome))
    else
      match outcome
      case Raised(m) => PublishingError(m)
      case Returned(v) =>
        match Encode(c, v)
        case Some(payload) => Publishing(payload, v)
        case None => PublishingError(REFUSED)
  }

  function Message(c: Codec, id: CallId, w: Call): Publication
    requires ToPublish(w)
  {
    match w.phase
    case Publishing(payload, v) => Publication(w.hash, id, payload, Returned(v))
    case PublishingError(m) => Publication(w.hash, id, c.dumps(ErrorObject(m)), Raised(m))
  }

  // PUBLISH reaches some of the calls listening at that moment; the rest lose the message.
  function Deliver(calls: map<CallId, Call>, delivered: set<CallId>, i: nat): map<CallId, Call> {
    map id | id in calls ::
      if id in delivered && calls[id].phase.Listening?
      then calls[id].(phase := Listening(calls[id].phase.deadline, calls[id].phase.inbox + [i]))
      else calls[id]
  }

  function Count(s: State, worker: WorkerId): nat {
    if worker in s.counted then s.counted[worker] else 0
  }

  function Apply(c: Codec, s: State, e: Step): State
    requires Enabled(s, e)
  {
    match e
    case Tick(ms) => s.(now := s.now + ms)
    case Claim(id, worker, h) =>
      if LockLive(s, h) then
        s.(calls := s.calls[id := Call(worker, h, s.now, false, 0, None, 0, Subscribing)])
      else
        s.(calls := s.calls[id := Call(worker, h, s.now, true, 1, None, 0, Producing)],
           locks := s.locks[h := Lock(id, s.now + LOCK_TTL)])
    case Produce(id, outcome) =>
      var w := s.calls[id];
      s.(calls := s.calls[id := w.(produced := Some(outcome), phase := Produced(c, w, outcome))])
    case Publish(id, delivered) =>
      var m := Message(c, id, s.calls[id]);
      var t := s.(calls := Deliver(s.calls, delivered, |s.log|), log := s.log + [m]);
      Set(t, id, Deleting(EndOf(m.origin)))
    case PublishFails(id, message) =>
      Set(s, id, if s.calls[id].phase.Publishing? then PublishingError(message) else Deleting(RedisError))
    case Delete(id) =>
      Set(s.(locks := s.locks - {s.calls[id].hash}), id, Finished(s.calls[id].phase.end))
    case DeleteFails(id) => Set(s, id, Finished(RedisError))
    case Subscribe(id) =>
      s.(calls := s.calls[id :=
        s.calls[id].(since := |s.log|, phase := Listening(s.now + WAIT_TIMEOUT, []))])
    case Receive(id) =>
      var w := s.calls[id];
      var i := w.phase.inbox[0];
      (match Decode(c, s.log[i].payload)
       case Got(v) =>
         Set(s.(counted := s.counted[w.worker := Count(s, w.worker) + 1]), id, Finished(Coalesced(v, i)))
       case Failed(m) => Set(s, id, Finished(SentinelError(m, i)))
       case Nothing => s.(calls := s.calls[id := w.(runs := w.runs + 1, phase := Fallback(true))]))
    case TimeOut(id) =>
      var w := s.calls[id];
      s.(calls := s.calls[id := w.(runs := w.runs + 1, phase := Fallback(false))])
    case Cancel(id) =>
      var w := s.calls[id];
      Set(s, id, if Holding(w) && !w.phase.Deleting? then Deleting(Cancelled) else Finished(Cancelled))
    case Fail(id) => Set(s, id, Finished(RedisError))
    case Crash(id) => Set(s, id, Crashed)
  }

  ghost predicate Possible(c: Codec, s: State, run: seq<Step>)
    decreases |run|
  {
    run == [] || (Enabled(s, run[0]) && Possible(c, Apply(c, s, run[0]), run[1..]))
  }

  ghost function After(c: Codec, s: State, run: seq<Step>): State
    requires Possible(c, s, run)
    decreases |run|
  {
    if run == [] then s else After(c, Apply(c, s, run[0]), run[1..])
  }

  lemma One(c: Codec, s: State, e: Step) returns (run: seq<Step>)
    requires Enabled(s, e)
    ensures Possible(c, s, run) && After(c, s, run) == Apply(c, s, e)
  {
    run := [e];
    assert run[1..] == [] && Possible(c, Apply(c, s, e), []);
  }

  lemma Two(c: Codec, s: State, e: Step, f: Step) returns (run: seq<Step>)
    requires Enabled(s, e) && Enabled(Apply(c, s, e), f)
    ensures Possible(c, s, run) && After(c, s, run) == Apply(c, Apply(c, s, e), f)
  {
    var rest := One(c, Apply(c, s, e), f);
    run := [e] + rest;
    assert run[1..] == rest;
  }

  lemma Three(c: Codec, s: State, e: Step, f: Step, g: Step) returns (run: seq<Step>)
    requires Enabled(s, e) && Enabled(Apply(c, s, e), f) && Enabled(Apply(c, Apply(c, s, e), f), g)
    ensures Possible(c, s, run) && After(c, s, run) == Apply(c, Apply(c, Apply(c, s, e), f), g)
  {
    var rest := Two(c, Apply(c, s, e), f, g);
    run := [e] + rest;
    assert run[1..] == rest;
  }

  // ----- mutual exclusion -----

  // Every holder of h's lock is still within its time to live.
  ghost predicate Prompt(s: State, h: Hash) {
    forall id | id in s.calls && s.calls[id].hash == h && Holding(s.calls[id]) :: s.now < s.calls[id].at + LOCK_TTL
  }

  /** Nobody tries to claim h while a holder of it has overrun its lock; all else is free. */
  ghost predicate PromptRun(c: Codec, s: State, run: seq<Step>, h: Hash)
    requires Possible(c, s, run)
    decreases |run|
  {
    run == []
    || ((run[0].Claim? && run[0].hash == h ==> Prompt(s, h)) && PromptRun(c, Apply(c, s, run[0]), run[1..], h))
  }

  // A holder's lock is in Redis, under its hash, with its own expiry.
  predicate HasLock(s: State, id: CallId)
    requires id in s.calls
  {
    var w := s.calls[id];
    w.hash in s.locks && s.locks[w.hash] == Lock(id, w.at + LOCK_TTL)
  }

  ghost predicate LocksHeld(s: State, h: Hash) {
    forall id | id in s.calls && s.calls[id].hash == h && Holding(s.calls[id]) :: HasLock(s, id)
  }

  // Only a claim makes a holder, and no step changes who and when a call is.
  lemma StepKeepsIdentity(c: Codec, s: State, e: Step, id: CallId)
    requires Enabled(s, e) && id in s.calls
    ensures var t := Apply(c, s, e);
      && id in t.calls && t.calls[id].hash == s.calls[id].hash && t.calls[id].at == s.calls[id].at
      && t.calls[id].worker == s.calls[id].worker && t.calls[id].claimed == s.calls[id].claimed
      && (Holding(t.calls[id]) ==> Holding(s.calls[id]))
  {
  }

  lemma StepKeepsLocks(c: Codec, s: State, e: Step, h: Hash)
    requires LocksHeld(s, h) && Enabled(s, e) && (e.Claim? && e.hash == h ==> Prompt(s, h))
    ensures LocksHeld(Apply(c, s, e), h)
  {
    var t := Apply(c, s, e);
    forall id | id in t.calls && t.calls[id].hash == h && Holding(t.calls[id])
      ensures HasLock(t, id)
    {
      if id in s.calls {
        StepKeepsIdentity(c, s, e, id);
        assert HasLock(s, id);
      }
    }
  }

  lemma {:induction false} RunKeepsLocks(c: Codec, s: State, run: seq<Step>, h: Hash)
    requires LocksHeld(s, h) && Possible(c, s, run) && PromptRun(c, s, run, h)
    ensures LocksHeld(After(c, s, run), h)
    decreases |run|
  {
    if run != [] {
      StepKeepsLocks(c, s, run[0], h);
      RunKeepsLocks(c, Apply(c, s, run[0]), run[1..], h);
    }
  }

  /**
   Mutual exclusion: if nobody claims a request hash while a holder of it has overrun the
   lock's time to live, then at any moment at most one call of that hash is between its
   claim and its DEL, through producer errors, Redis errors, cancellations and crashes, and
   however late the calls of other hashes are.
   */
  lemma MutualExclusion(c: Codec, run: seq<Step>, h: Hash, a: CallId, b: CallId)
    requires Possible(c, INITIAL, run) && PromptRun(c, INITIAL, run, h)
    requires var s := After(c, INITIAL, run);
      && a in s.calls && b in s.calls && s.calls[a].hash == h == s.calls[b].hash
      && Holding(s.calls[a]) && Holding(s.calls[b])
    ensures a == b
  {
    RunKeepsLocks(c, INITIAL, run, h);
    var s := After(c, INITIAL, run);
    assert HasLock(s, a) && HasLock(s, b);
  }

  /** Under the same assumption a DEL removes the deleting call's own lock, never another's. */
  lemma DeleteRemovesOwnLock(c: Codec, run: seq<Step>, id: CallId)
    requires Possible(c, INITIAL, run) && Enabled(After(c, INITIAL, run), Delete(id))
    requires PromptRun(c, INITIAL, run, After(c, INITIAL, run).calls[id].hash)
    ensures var s := After(c, INITIAL, run); var t := Apply(c, s, Delete(id)); var h := s.calls[id].hash;
      && h in s.locks && s.locks[h].owner == id && h !in t.locks
      && forall g | g != h :: (g in t.locks <==> g in s.locks) && (g in s.locks ==> t.locks[g] == s.locks[g])
  {
    RunKeepsLocks(c, INITIAL, run, After(c, INITIAL, run).calls[id].hash);
    assert HasLock(After(c, INITIAL, run), id);
  }

  /**
   The time to live is exactly the condition: while id holds the lock of its hash, another
   call can claim the same hash if and only if id has held it for LOCK_TTL or longer.
   */
  lemma SecondClaimIffOverrun(c: Codec, run: seq<Step>, id: CallId, other: CallId, worker: WorkerId)
    requires Possible(c, INITIAL, run)
    requires var s := After(c, INITIAL, run); id in s.calls && Holding(s.calls[id]) && other !in s.calls
    requires PromptRun(c, INITIAL, run, After(c, INITIAL, run).calls[id].hash)
    ensures var s := After(c, INITIAL, run); var w := s.calls[id];
      Holding(Apply(c, s, Claim(other, worker, w.hash)).calls[other]) <==> s.now >= w.at + LOCK_TTL
  {
    RunKeepsLocks(c, INITIAL, run, After(c, INITIAL, run).calls[id].hash);
    assert HasLock(After(c, INITIAL, run), id);
  }

  /**
   After an overrun the DEL, which carries no token, takes the second holder's lock, so a
   third call gets in beside a second one that is on time.
   */
  lemma OverrunLetsThirdIn(c: Codec, run: seq<Step>, id: CallId, second: CallId, third: CallId, worker: WorkerId)
    requires Possible(c, INITIAL, run)
    requires var s := After(c, INITIAL, run);
      && id in s.calls && s.calls[id].phase.Deleting? && s.now >= s.calls[id].at + LOCK_TTL
      && second !in s.calls && third !in s.calls && second != third
      && PromptRun(c, INITIAL, run, s.calls[id].hash)
    ensures var s := After(c, INITIAL, run); var h := s.calls[id].hash;
      var s2 := Apply(c, s, Claim(second, worker, h));
      var s3 := Apply(c, s2, Delete(id));
      var s4 := Apply(c, s3, Claim(third, worker, h));
      && Holding(s4.calls[second]) && Holding(s4.calls[third])
      && s4.now < s4.calls[second].at + LOCK_TTL
  {
    SecondClaimIffOverrun(c, run, id, second, worker);
  }
}
