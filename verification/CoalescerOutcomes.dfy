/**
 How coalesced calls end: when a waiter gives up, where a coalesced value comes from, when
 it equals what the winner returned, and that every call is accounted for once.
 */
module CoalescerOutcomes {
  import opened Wrappers
  import opened Coalescer
  import opened Sets

  // A message on h that json.loads reads as null, at place since or later.
  ghost predicate NullHeard(c: Codec, log: seq<Publication>, h: Hash, since: nat) {
    exists i :: since <= i < |log| && log[i].hash == h && Decode(c, log[i].payload) == Nothing
  }

  // The call heard message i: published on its channel after it subscribed.
  predicate Heard(log: seq<Publication>, w: Call, i: nat) {
    w.since <= i < |log| && log[i].hash == w.hash
  }

  ghost predicate EndOk(c: Codec, log: seq<Publication>, w: Call, end: End) {
    match end
    case OwnResult(v) => w.runs == 1 && w.produced == Some(Returned(v)) && (w.claimed ==> Encode(c, v).Some?)
    case OwnError(m) => w.runs == 1 && w.produced.Some? && (w.claimed || w.produced == Some(Raised(m)))
    case Coalesced(v, i) =>
      !w.claimed && w.runs == 0 && Heard(log, w, i) && Decode(c, log[i].payload) == Got(v)
    case SentinelError(m, i) =>
      !w.claimed && w.runs == 0 && Heard(log, w, i) && Decode(c, log[i].payload) == Failed(m)
    case Cancelled => w.runs <= 1
    case RedisError => w.runs <= 1
  }

  ghost predicate CallOk(c: Codec, now: nat, log: seq<Publication>, w: Call) {
    && w.at <= now && (w.runs == 0 ==> w.produced.None?)
    && match w.phase
       case Producing => w.claimed && w.runs == 1
       case Publishing(payload, v) =>
         w.claimed && w.runs == 1 && w.produced == Some(Returned(v)) && Encode(c, v) == Some(payload)
       case PublishingError(_) => w.claimed && w.runs == 1 && w.produced.Some?
       case Deleting(end) => w.claimed && EndOk(c, log, w, end)
       case Subscribing => !w.claimed && w.runs == 0
       case Listening(deadline, inbox) =>
         && !w.claimed && w.runs == 0 && deadline >= w.at + WAIT_TIMEOUT && w.since <= |log|
         && forall i | i in inbox :: Heard(log, w, i)
       case Fallback(early) =>
         && !w.claimed && w.runs == 1
         && if early then NullHeard(c, log, w.hash, w.since) else now >= w.at + WAIT_TIMEOUT
       case Finished(end) => EndOk(c, log, w, end)
       case Crashed => w.runs <= 1
  }

  // The outcome a message carries, and a sender that goes on to end with that outcome.
  predicate Carries(c: Codec, m: Publication) {
    match m.origin
    case Returned(v) => Encode(c, v) == Some(m.payload)
    case Raised(e) => m.payload == c.dumps(ErrorObject(e))
  }

  predicate Sent(w: Call, origin: Outcome) {
    match w.phase
    case Deleting(end) => end in {EndOf(origin), Cancelled}
    case Finished(end) => end in {EndOf(origin), Cancelled, RedisError}
    case Crashed => true
    case _ => false
  }

  ghost predicate LogOk(c: Codec, calls: map<CallId, Call>, m: Publication) {
    && m.sender in calls && calls[m.sender].claimed && calls[m.sender].hash == m.hash
    && Carries(c, m) && Sent(calls[m.sender], m.origin)
  }

  ghost function CoalescedBy(calls: map<CallId, Call>, worker: WorkerId): set<CallId> {
    set id | id in calls && DidCoalesce(calls[id], worker)
  }

  ghost predicate Inv(c: Codec, s: State) {
    && (forall id | id in s.calls :: CallOk(c, s.now, s.log, s.calls[id]))
    && (forall i | 0 <= i < |s.log| :: LogOk(c, s.calls, s.log[i]))
    && (forall w :: Count(s, w) == |CoalescedBy(s.calls, w)|)
  }

  lemma LaterIsOk(c: Codec, now: nat, log: seq<Publication>, now': nat, log': seq<Publication>, w: Call)
    requires CallOk(c, now, log, w) && now <= now' && log <= log'
    ensures CallOk(c, now', log', w)
  {
    if w.phase.Fallback? && w.phase.early {
      var i :| w.since <= i < |log| && log[i].hash == w.hash && Decode(c, log[i].payload) == Nothing;
      assert log'[i] == log[i];
    }
  }

  // What a step does to the call it is about.
  lemma StepKeepsOwnCall(c: Codec, s: State, e: Step)
    requires Inv(c, s) && Enabled(s, e) && !e.Tick?
    ensures var t := Apply(c, s, e); CallOk(c, t.now, t.log, t.calls[e.id])
  {
    if e.Receive? {
      ReceiveKeepsOwnCall(c, s, e.id);
    } else if !e.Claim? {
      OtherStepKeepsOwnCall(c, s, e);
    }
  }

  lemma ReceiveKeepsOwnCall(c: Codec, s: State, id: CallId)
    requires Inv(c, s) && Enabled(s, Receive(id))
    ensures var t := Apply(c, s, Receive(id)); CallOk(c, t.now, t.log, t.calls[id])
  {
    hide Decode;
    var w := s.calls[id];
    assert CallOk(c, s.now, s.log, w);
    assert w.phase.inbox[0] in w.phase.inbox && Heard(s.log, w, w.phase.inbox[0]);
  }

  lemma OtherStepKeepsOwnCall(c: Codec, s: State, e: Step)
    requires Inv(c, s) && Enabled(s, e) && !e.Tick? && !e.Claim? && !e.Receive?
    ensures var t := Apply(c, s, e); CallOk(c, t.now, t.log, t.calls[e.id])
  {
    hide Decode, Encode, NullHeard;
    assert CallOk(c, s.now, s.log, s.calls[e.id]);
  }

  lemma StepKeepsOtherCall(c: Codec, s: State, e: Step, id: CallId)
    requires Inv(c, s) && Enabled(s, e) && id in s.calls && (e.Tick? || e.id != id)
    ensures var t := Apply(c, s, e); id in t.calls && CallOk(c, t.now, t.log, t.calls[id])
  {
    var t := Apply(c, s, e);
    LaterIsOk(c, s.now, s.log, t.now, t.log, s.calls[id]);
    if e.Publish? && id in e.delivered {
      var w := s.calls[id];
      assert Heard(t.log, w, |s.log|);
    }
  }

  lemma StepKeepsMessage(c: Codec, s: State, e: Step, i: nat)
    requires Inv(c, s) && Enabled(s, e) && i < |Apply(c, s, e).log|
    ensures var t := Apply(c, s, e); LogOk(c, t.calls, t.log[i])
  {
    if i < |s.log| {
      var m := s.log[i];
      assert LogOk(c, s.calls, m);
      StepKeepsIdentity(c, s, e, m.sender);
    } else {
      assert CallOk(c, s.now, s.log, s.calls[e.id]);
    }
  }

  predicate DidCoalesce(w: Call, worker: WorkerId) {
    w.worker == worker && w.phase.Finished? && w.phase.end.Coalesced?
  }

  lemma OnlyReceiveCoalesces(c: Codec, s: State, e: Step, id: CallId, worker: WorkerId)
    requires Inv(c, s) && Enabled(s, e) && id in Apply(c, s, e).calls && !(e.Receive? && e.id == id)
    ensures DidCoalesce(Apply(c, s, e).calls[id], worker)
       <==> id in s.calls && DidCoalesce(s.calls[id], worker)
    ensures !e.Receive? ==> Apply(c, s, e).counted == s.counted
  {
    if id in s.calls {
      assert CallOk(c, s.now, s.log, s.calls[id]);
    }
  }

  lemma StepKeepsCount(c: Codec, s: State, e: Step, worker: WorkerId)
    requires Inv(c, s) && Enabled(s, e)
    ensures var t := Apply(c, s, e); Count(t, worker) == |CoalescedBy(t.calls, worker)|
  {
    var t := Apply(c, s, e);
    var was, now := CoalescedBy(s.calls, worker), CoalescedBy(t.calls, worker);
    assert Count(s, worker) == |was|;
    forall id | id in t.calls && !(e.Receive? && e.id == id)
      ensures DidCoalesce(t.calls[id], worker) <==> id in s.calls && DidCoalesce(s.calls[id], worker)
    {
      OnlyReceiveCoalesces(c, s, e, id, worker);
    }
    forall id | id in s.calls
      ensures id in t.calls
    {
      StepKeepsIdentity(c, s, e, id);
    }
    if e.Receive? {
      ReceiveCounts(c, s, e.id, worker);
    } else {
      assert t.counted == s.counted by {
        if !e.Tick? { OnlyReceiveCoalesces(c, s, e, e.id, worker); }
      }
    }
    assert Count(t, worker) == |was| + if e.Receive? && DidCoalesce(t.calls[e.id], worker) then 1 else 0;
    hide Apply, Enabled, Inv;
    if e.Receive? && DidCoalesce(t.calls[e.id], worker) {
      assert e.id !in was && now == was + {e.id};
    } else {
      assert now == was;
    }
  }

  lemma ReceiveCounts(c: Codec, s: State, id: CallId, worker: WorkerId)
    requires Enabled(s, Receive(id))
    ensures var t := Apply(c, s, Receive(id));
      && !DidCoalesce(s.calls[id], worker)
      && Count(t, worker) == Count(s, worker) + if DidCoalesce(t.calls[id], worker) then 1 else 0
  {
  }

  lemma StepKeepsInv(c: Codec, s: State, e: Step)
    requires Inv(c, s) && Enabled(s, e)
    ensures Inv(c, Apply(c, s, e))
  {
    var t := Apply(c, s, e);
    forall id | id in t.calls
      ensures CallOk(c, t.now, t.log, t.calls[id])
    {
      if !e.Tick? && id == e.id {
        StepKeepsOwnCall(c, s, e);
      } else {
        StepKeepsOtherCall(c, s, e, id);
      }
    }
    forall i | 0 <= i < |t.log|
      ensures LogOk(c, t.calls, t.log[i])
    {
      StepKeepsMessage(c, s, e, i);
    }
    forall w
      ensures Count(t, w) == |CoalescedBy(t.calls, w)|
    {
      StepKeepsCount(c, s, e, w);
    }
  }

  lemma {:induction false} RunKeepsInv(c: Codec, s: State, run: seq<Step>)
    requires Inv(c, s) && Possible(c, s, run)
    ensures Inv(c, After(c, s, run))
    decreases |run|
  {
    if run != [] {
      StepKeepsInv(c, s, run[0]);
      RunKeepsInv(c, Apply(c, s, run[0]), run[1..]);
    }
  }

  lemma ReachableInv(c: Codec, run: seq<Step>)
    requires Possible(c, INITIAL, run)
    ensures Inv(c, After(c, INITIAL, run))
  {
    forall w
      ensures CoalescedBy(INITIAL.calls, w) == {}
    {}
    RunKeepsInv(c, INITIAL, run);
  }

  // ----- single flight -----

  /**
   A call that lost the lock runs its own producer only WAIT_TIMEOUT after its failed claim,
   or because a message it could hear reads as null.
   */
  lemma FallbackWaited(c: Codec, run: seq<Step>, id: CallId)
    requires Possible(c, INITIAL, run)
    requires var s := After(c, INITIAL, run); id in s.calls && s.calls[id].phase.Fallback?
    ensures var s := After(c, INITIAL, run); var w := s.calls[id];
      !w.claimed && (s.now >= w.at + WAIT_TIMEOUT || NullHeard(c, s.log, w.hash, w.since))
  {
    ReachableInv(c, run);
    var s := After(c, INITIAL, run);
    assert CallOk(c, s.now, s.log, s.calls[id]);
  }

  /**
   Single flight inside the wait window: with prompt holders and no null message on the
   hash, of two producers of one hash that run at the same time at least one belongs to a
   waiter that gave up after WAIT_TIMEOUT.
   */
  lemma SingleFlight(c: Codec, run: seq<Step>, a: CallId, b: CallId)
    requires Possible(c, INITIAL, run) && a != b
    requires var s := After(c, INITIAL, run);
      && a in s.calls && b in s.calls && s.calls[a].hash == s.calls[b].hash
      && Running(s.calls[a]) && Running(s.calls[b])
      && !NullHeard(c, s.log, s.calls[a].hash, 0) && PromptRun(c, INITIAL, run, s.calls[a].hash)
    ensures var s := After(c, INITIAL, run);
      exists id :: id in {a, b} && s.calls[id].phase.Fallback? && s.now >= s.calls[id].at + WAIT_TIMEOUT
  {
    var s := After(c, INITIAL, run);
    var id := if s.calls[a].phase.Fallback? then a else b;
    if s.calls[id].phase.Producing? {
      MutualExclusion(c, run, s.calls[a].hash, a, b);
    } else {
      FallbackWaited(c, run, id);
    }
  }

  // The call subscribed when the log had this length, and has this deadline while it listens.
  predicate HasDeadline(s: State, id: CallId, since: nat, deadline: nat) {
    id in s.calls && !s.calls[id].phase.Subscribing? && s.calls[id].since == since
    && (s.calls[id].phase.Listening? ==> s.calls[id].phase.deadline == deadline)
  }

  lemma {:induction false} DeadlineStays(c: Codec, s: State, run: seq<Step>, id: CallId, since: nat, deadline: nat)
    requires Possible(c, s, run) && HasDeadline(s, id, since, deadline)
    ensures HasDeadline(After(c, s, run), id, since, deadline)
    decreases |run|
  {
    if run != [] {
      DeadlineStays(c, Apply(c, s, run[0]), run[1..], id, since, deadline);
    }
  }

  /**
   A listener can give up from exactly WAIT_TIMEOUT after its SUBSCRIBE on, and then runs its
   producer; since marks the moment of that SUBSCRIBE for ever.
   */
  lemma GivesUpOnTime(c: Codec, s: State, id: CallId, run: seq<Step>)
    requires Enabled(s, Subscribe(id)) && Possible(c, Apply(c, s, Subscribe(id)), run)
    ensures var t := After(c, Apply(c, s, Subscribe(id)), run);
      id in t.calls && t.calls[id].since == |s.log|
      && (t.calls[id].phase.Listening? ==>
            && (Enabled(t, TimeOut(id)) <==> t.now >= s.now + WAIT_TIMEOUT)
            && (Enabled(t, TimeOut(id)) ==> Running(Apply(c, t, TimeOut(id)).calls[id])))
  {
    DeadlineStays(c, Apply(c, s, Subscribe(id)), run, id, |s.log|, s.now + WAIT_TIMEOUT);
  }

  /** A crashed call stays crashed: it answers nobody, publishes nothing and gives nothing back. */
  lemma CrashedStaysCrashed(c: Codec, s: State, id: CallId, run: seq<Step>)
    requires Enabled(s, Crash(id)) && Possible(c, Apply(c, s, Crash(id)), run)
    ensures var t, u := Apply(c, s, Crash(id)), After(c, Apply(c, s, Crash(id)), run);
      && t.locks == s.locks && t.log == s.log && t.counted == s.counted
      && id in u.calls && u.calls[id] == s.calls[id].(phase := Crashed)
  {
    StaysCrashed(c, Apply(c, s, Crash(id)), run, id);
  }

  lemma {:induction false} StaysCrashed(c: Codec, s: State, run: seq<Step>, id: CallId)
    requires Possible(c, s, run) && id in s.calls && s.calls[id].phase.Crashed?
    ensures id in After(c, s, run).calls && After(c, s, run).calls[id] == s.calls[id]
    decreases |run|
  {
    if run != [] {
      StaysCrashed(c, Apply(c, s, run[0]), run[1..], id);
    }
  }

  // ----- who hears a message -----

  // The call ends, or is about to, with the message at place i of the log.
  predicate EndsFrom(w: Call, i: nat) {
    (w.phase.Finished? || w.phase.Deleting?)
    && match w.phase.end
       case Coalesced(_, from) => from == i
       case SentinelError(_, from) => from == i
       case _ => false
  }

  // Message i, once published, is not for call id.
  predicate PassedBy(s: State, id: CallId, i: nat) {
    i < |s.log|
    && (id in s.calls ==>
          && !EndsFrom(s.calls[id], i)
          && (s.calls[id].phase.Listening? ==> i !in s.calls[id].phase.inbox))
  }

  lemma {:induction false} StaysPassedBy(c: Codec, s: State, run: seq<Step>, id: CallId, i: nat)
    requires Possible(c, s, run) && PassedBy(s, id, i)
    ensures PassedBy(After(c, s, run), id, i)
    decreases |run|
  {
    if run != [] {
      StepKeepsPassedBy(c, s, run[0], id, i);
      StaysPassedBy(c, Apply(c, s, run[0]), run[1..], id, i);
    }
  }

  lemma StepKeepsPassedBy(c: Codec, s: State, e: Step, id: CallId, i: nat)
    requires Enabled(s, e) && PassedBy(s, id, i)
    ensures PassedBy(Apply(c, s, e), id, i)
  {
    if e.Receive? && e.id == id {
      assert s.calls[id].phase.inbox[0] in s.calls[id].phase.inbox;
    }
  }

  /**
   The channel keeps nothing: whoever a PUBLISH does not reach, because it has not
   subscribed yet, is no longer listening, or lost the message, never ends with that
   message, whatever happens afterwards.
   */
  lemma LateSubscriberMisses(c: Codec, past: seq<Step>, winner: CallId, delivered: set<CallId>, run: seq<Step>, id: CallId)
    requires Possible(c, INITIAL, past) && Enabled(After(c, INITIAL, past), Publish(winner, delivered))
    requires Possible(c, Apply(c, After(c, INITIAL, past), Publish(winner, delivered)), run)
    requires var s := After(c, INITIAL, past); id in s.calls && s.calls[id].phase.Listening? ==> id !in delivered
    ensures var s := After(c, INITIAL, past);
      var t := After(c, Apply(c, s, Publish(winner, delivered)), run);
      id in t.calls ==> !EndsFrom(t.calls[id], |s.log|)
  {
    var s := After(c, INITIAL, past);
    ReachableInv(c, past);
    if id in s.calls {
      assert CallOk(c, s.now, s.log, s.calls[id]);
    }
    StaysPassedBy(c, Apply(c, s, Publish(winner, delivered)), run, id, |s.log|);
  }

  // Message i is the next one call id acts on, or the one it has acted on.
  ghost predicate Awaits(s: State, id: CallId, i: nat) {
    && i < |s.log| && id in s.calls && !s.calls[id].phase.Subscribing?
    && (s.calls[id].phase.Listening? ==> s.calls[id].phase.inbox != [] && s.calls[id].phase.inbox[0] == i)
    && forall j | EndsFrom(s.calls[id], j) :: j == i
  }

  lemma StepKeepsAwaits(c: Codec, s: State, e: Step, id: CallId, i: nat)
    requires Enabled(s, e) && Awaits(s, id, i)
    ensures Awaits(Apply(c, s, e), id, i)
  {
    var t := Apply(c, s, e);
    forall j | EndsFrom(t.calls[id], j)
      ensures j == i
    {
      assert !e.Receive? || e.id != id ==> EndsFrom(s.calls[id], j);
    }
  }

  lemma {:induction false} StillAwaits(c: Codec, s: State, run: seq<Step>, id: CallId, i: nat)
    requires Possible(c, s, run) && Awaits(s, id, i)
    ensures Awaits(After(c, s, run), id, i)
    decreases |run|
  {
    if run != [] {
      StepKeepsAwaits(c, s, run[0], id, i);
      StillAwaits(c, Apply(c, s, run[0]), run[1..], id, i);
    }
  }

  /**
   And whom it reaches acts on nothing else: a listener without an earlier message that a
   PUBLISH is delivered to has that message at the head of its inbox until it acts; it can
   act on it at any moment, and if it ever ends with a message it is that one.
   */
  lemma ListenerHears(c: Codec, past: seq<Step>, winner: CallId, delivered: set<CallId>, run: seq<Step>, id: CallId)
    requires Possible(c, INITIAL, past) && Enabled(After(c, INITIAL, past), Publish(winner, delivered))
    requires Possible(c, Apply(c, After(c, INITIAL, past), Publish(winner, delivered)), run)
    requires id in delivered && After(c, INITIAL, past).calls[id].phase.inbox == []
    ensures var s := After(c, INITIAL, past); var i := |s.log|;
      var t := After(c, Apply(c, s, Publish(winner, delivered)), run);
      && id in t.calls && i < |t.log|
      && (forall j | EndsFrom(t.calls[id], j) :: j == i)
      && (t.calls[id].phase.Listening? ==>
            && Enabled(t, Receive(id))
            && var w := Apply(c, t, Receive(id)).calls[id];
               match Decode(c, t.log[i].payload)
               case Got(v) => w.phase == Finished(Coalesced(v, i))
               case Failed(m) => w.phase == Finished(SentinelError(m, i))
               case Nothing => w.phase == Fallback(true))
  {
    var s := After(c, INITIAL, past);
    StillAwaits(c, Apply(c, s, Publish(winner, delivered)), run, id, |s.log|);
  }

  /** A call that was still subscribing can run the producer a second time. */
  lemma LateSubscriberRunsAgain(c: Codec, s: State, id: CallId) returns (run: seq<Step>)
    requires id in s.calls && s.calls[id].phase.Subscribing?
    ensures Possible(c, s, run) && id in After(c, s, run).calls && Running(After(c, s, run).calls[id])
    ensures After(c, s, run).now == s.now + WAIT_TIMEOUT
  {
    run := Three(c, s, Subscribe(id), Tick(WAIT_TIMEOUT), TimeOut(id));
  }

  // ----- where a coalesced value comes from -----

  /**
   Validity: a coalesced value decodes a message that a lock winner of the same hash
   published while the waiter was subscribed, and that message carries the outcome with
   which the winner ends, unless it is cancelled or crashes after publishing or its DEL raises.
   */
  lemma CoalescedValueIsPublished(c: Codec, run: seq<Step>, id: CallId)
    requires Possible(c, INITIAL, run)
    requires var s := After(c, INITIAL, run);
      id in s.calls && s.calls[id].phase.Finished? && s.calls[id].phase.end.Coalesced?
    ensures var s := After(c, INITIAL, run); var w := s.calls[id]; var end := w.phase.end;
      && w.since <= end.from < |s.log|
      && var m := s.log[end.from];
         && m.hash == w.hash && Decode(c, m.payload) == Got(end.v)
         && m.sender in s.calls && s.calls[m.sender].claimed && s.calls[m.sender].hash == w.hash
         && Carries(c, m) && Sent(s.calls[m.sender], m.origin)
  {
    ReachableInv(c, run);
    var s := After(c, INITIAL, run);
    assert CallOk(c, s.now, s.log, s.calls[id]);
    assert LogOk(c, s.calls, s.log[s.calls[id].phase.end.from]);
  }

  /** A result that survives the channel: text that is not JSON, or data json.loads gives back as itself. */
  predicate Transparent(c: Codec, v: Value) {
    match v
    case Text(s) => c.loads(s).None?
    case Data(j) => j.Other? && c.loads(c.dumps(j)) == Some(j)
    case Unserialisable => false
  }

  /** Encoding and decoding gives a result back exactly when it is transparent. */
  lemma DecodeEncode(c: Codec, v: Value)
    requires Encode(c, v).Some?
    ensures Decode(c, Encode(c, v).value) == Got(v) <==> Transparent(c, v)
  {
    if v.Data? {
      var back := c.loads(c.dumps(v.j));
      assert back.Some? && back.value.Other? ==> Decode(c, c.dumps(v.j)) == Got(Data(back.value));
    }
  }

  /**
   Agreement: when a waiter coalesced the message of a winner that returned r, the waiter's
   value is r itself exactly when r is transparent. A string that happens to be JSON text
   comes back as another type, and data that json.dumps changes, such as tuples and keys
   that are not strings, comes back changed.
   */
  lemma CoalescedIsWinnersResult(c: Codec, run: seq<Step>, id: CallId, winner: CallId, r: Value)
    requires Possible(c, INITIAL, run)
    requires var s := After(c, INITIAL, run);
      && id in s.calls && s.calls[id].phase.Finished? && s.calls[id].phase.end.Coalesced?
      && s.calls[id].phase.end.from < |s.log| && s.log[s.calls[id].phase.end.from].sender == winner
      && winner in s.calls && s.calls[winner].phase == Finished(OwnResult(r))
    ensures var s := After(c, INITIAL, run);
      s.calls[id].phase.end.v == r <==> Transparent(c, r)
  {
    CoalescedValueIsPublished(c, run, id);
    var s := After(c, INITIAL, run);
    var m := s.log[s.calls[id].phase.end.from];
    assert m.origin == Returned(r);
    DecodeEncode(c, r);
  }

  // The error sentinel, an object with one string, comes back as itself.
  ghost predicate SentinelsRoundTrip(c: Codec) {
    forall m :: c.loads(c.dumps(ErrorObject(m))) == Some(ErrorObject(m))
  }

  /** A waiter raises exactly what a winner's message says: its error, or a result that is an error object. */
  lemma SentinelIsWinnersError(c: Codec, run: seq<Step>, id: CallId)
    requires SentinelsRoundTrip(c) && Possible(c, INITIAL, run)
    requires var s := After(c, INITIAL, run);
      id in s.calls && s.calls[id].phase.Finished? && s.calls[id].phase.end.SentinelError?
    ensures var s := After(c, INITIAL, run); var w := s.calls[id]; var end := w.phase.end;
      && w.since <= end.from < |s.log|
      && var m := s.log[end.from];
         && m.hash == w.hash && m.sender in s.calls && s.calls[m.sender].claimed
         && match m.origin
            case Raised(e) => end.message == e
            case Returned(Data(j)) => c.loads(c.dumps(j)) == Some(ErrorObject(end.message))
            case Returned(Text(t)) => c.loads(t) == Some(ErrorObject(end.message))
            case Returned(Unserialisable) => false
  {
    ReachableInv(c, run);
    var s := After(c, INITIAL, run);
    assert CallOk(c, s.now, s.log, s.calls[id]);
    var m := s.log[s.calls[id].phase.end.from];
    assert LogOk(c, s.calls, m);
    if m.origin.Raised? {
      var e := m.origin.message;
      assert c.loads(c.dumps(ErrorObject(e))) == Some(ErrorObject(e));
    }
  }

  /**
   A winner never returns an object json.dumps refuses: it raises instead, although its
   producer succeeded. Only a call that fell back can return one.
   */
  lemma UnserialisableNeverReturnedByWinner(c: Codec, run: seq<Step>, id: CallId)
    requires Possible(c, INITIAL, run)
    requires var s := After(c, INITIAL, run);
      id in s.calls && s.calls[id].phase == Finished(OwnResult(Unserialisable))
    ensures !After(c, INITIAL, run).calls[id].claimed
  {
    ReachableInv(c, run);
    var s := After(c, INITIAL, run);
    assert CallOk(c, s.now, s.log, s.calls[id]);
  }

  // What a producer does when its result is an object json.dumps refuses.
  predicate Refused(outcome: Outcome) {
    outcome.Raised? || outcome.v.Unserialisable?
  }

  predicate AllRefused(run: seq<Step>) {
    forall i | 0 <= i < |run| :: run[i].Produce? ==> Refused(run[i].outcome)
  }

  // No producer gave a result that can be published, and only error sentinels were.
  ghost predicate OnlySentinels(s: State) {
    && (forall id | id in s.calls :: !s.calls[id].phase.Publishing?)
    && (forall id | id in s.calls && s.calls[id].produced.Some? :: Refused(s.calls[id].produced.value))
    && (forall i | 0 <= i < |s.log| :: s.log[i].origin.Raised?)
  }

  lemma StepKeepsSentinels(c: Codec, s: State, e: Step)
    requires OnlySentinels(s) && Enabled(s, e) && (e.Produce? ==> Refused(e.outcome))
    ensures OnlySentinels(Apply(c, s, e))
  {
    var t := Apply(c, s, e);
    forall id | id in t.calls
      ensures !t.calls[id].phase.Publishing?
      ensures t.calls[id].produced.Some? ==> Refused(t.calls[id].produced.value)
    {
      if id in s.calls {
        assert !s.calls[id].phase.Publishing?;
      }
    }
  }

  lemma {:induction false} RefusedRunPublishesSentinels(c: Codec, s: State, run: seq<Step>)
    requires OnlySentinels(s) && Possible(c, s, run) && AllRefused(run)
    ensures OnlySentinels(After(c, s, run))
    decreases |run|
  {
    if run != [] {
      assert run[0].Produce? ==> Refused(run[0].outcome);
      StepKeepsSentinels(c, s, run[0]);
      RefusedRunPublishesSentinels(c, Apply(c, s, run[0]), run[1..]);
    }
  }

  lemma SentinelIsNoValue(c: Codec, m: Publication)
    requires SentinelsRoundTrip(c) && Carries(c, m) && m.origin.Raised?
    ensures !Decode(c, m.payload).Got?
  {
    var e := m.origin.message;
    assert c.loads(c.dumps(ErrorObject(e))) == Some(ErrorObject(e));
  }

  /**
   What that costs: as long as every producer raises or returns an object json.dumps
   refuses, as the handlers' producers do, no lock winner returns its result, nothing is
   ever coalesced, and every worker's count stays at zero, in every run.
   */
  lemma RefusedNeverCoalesced(c: Codec, run: seq<Step>)
    requires SentinelsRoundTrip(c) && Possible(c, INITIAL, run) && AllRefused(run)
    ensures var s := After(c, INITIAL, run);
      && (forall id | id in s.calls && s.calls[id].phase.Finished? ::
            && !s.calls[id].phase.end.Coalesced?
            && (s.calls[id].claimed ==> !s.calls[id].phase.end.OwnResult?))
      && (forall worker :: Count(s, worker) == 0)
  {
    var s := After(c, INITIAL, run);
    ReachableInv(c, run);
    RefusedRunPublishesSentinels(c, INITIAL, run);
    forall id | id in s.calls && s.calls[id].phase.Finished?
      ensures !s.calls[id].phase.end.Coalesced?
      ensures s.calls[id].claimed ==> !s.calls[id].phase.end.OwnResult?
    {
      var w := s.calls[id];
      assert CallOk(c, s.now, s.log, w);
      if w.phase.end.Coalesced? {
        var m := s.log[w.phase.end.from];
        assert LogOk(c, s.calls, m);
        SentinelIsNoValue(c, m);
      }
    }
    forall worker
      ensures Count(s, worker) == 0
    {
      assert CoalescedBy(s.calls, worker) == {};
    }
  }

  // ----- accounting -----

  predicate Disturbance(e: Step) {
    e.Cancel? || e.Fail? || e.Crash? || e.PublishFails? || e.DeleteFails?
  }

  predicate Undisturbed(run: seq<Step>) {
    forall i | 0 <= i < |run| :: !Disturbance(run[i])
  }

  /** How a call ends that ran its producer: with the outcome, unless it must publish a result that json.dumps refuses. */
  function Due(c: Codec, claimed: bool, outcome: Outcome): End {
    if claimed && outcome.Returned? && Encode(c, outcome.v).None? then OwnError(REFUSED) else EndOf(outcome)
  }

  predicate Quiet(c: Codec, w: Call) {
    match w.phase
    case Producing => w.claimed
    case Publishing(_, v) => w.claimed && w.produced.Some? && Due(c, true, w.produced.value) == OwnResult(v)
    case PublishingError(m) => w.claimed && w.produced.Some? && Due(c, true, w.produced.value) == OwnError(m)
    case Deleting(end) => w.claimed && w.produced.Some? && end == Due(c, true, w.produced.value)
    case Fallback(_) => !w.claimed
    case Finished(end) =>
      end.Coalesced? || end.SentinelError? || (w.produced.Some? && end == Due(c, w.claimed, w.produced.value))
    case Crashed => false
    case _ => !w.claimed
  }

  lemma StepKeepsQuiet(c: Codec, s: State, e: Step, id: CallId)
    requires Enabled(s, e) && !Disturbance(e)
    requires id in s.calls ==> Quiet(c, s.calls[id])
    ensures id in Apply(c, s, e).calls ==> Quiet(c, Apply(c, s, e).calls[id])
  {
  }

  lemma {:induction false} UndisturbedIsQuiet(c: Codec, s: State, run: seq<Step>)
    requires Possible(c, s, run) && Undisturbed(run)
    requires forall id | id in s.calls :: Quiet(c, s.calls[id])
    ensures forall id | id in After(c, s, run).calls :: Quiet(c, After(c, s, run).calls[id])
    decreases |run|
  {
    if run != [] {
      assert !Disturbance(run[0]);
      var t := Apply(c, s, run[0]);
      forall id | id in t.calls
        ensures Quiet(c, t.calls[id])
      {
        StepKeepsQuiet(c, s, run[0], id);
      }
      UndisturbedIsQuiet(c, t, run[1..]);
    }
  }

  /**
   Every finished call is accounted for once: without cancellations and Redis errors it
   either ran its own producer exactly once and ended with that producer's outcome (with an
   error, if it was a winner whose result json.dumps refuses), or ran none and returned a
   coalesced value, or ran none and raised from a sentinel. Each worker's coalesced_count
   is the number of its calls of the second kind.
   */
  lemma EveryCallAccountedOnce(c: Codec, run: seq<Step>)
    requires Possible(c, INITIAL, run) && Undisturbed(run)
    ensures var s := After(c, INITIAL, run);
      && (forall id | id in s.calls && s.calls[id].phase.Finished? ::
            var w := s.calls[id];
            if w.phase.end.Coalesced? || w.phase.end.SentinelError? then w.runs == 0 && !w.claimed && w.produced.None?
            else w.runs == 1 && w.produced.Some? && w.phase.end == Due(c, w.claimed, w.produced.value))
      && (forall worker :: Count(s, worker) == |CoalescedBy(s.calls, worker)|)
  {
    ReachableInv(c, run);
    UndisturbedIsQuiet(c, INITIAL, run);
    var s := After(c, INITIAL, run);
    forall id | id in s.calls
      ensures CallOk(c, s.now, s.log, s.calls[id]) && Quiet(c, s.calls[id])
    {}
  }
}
