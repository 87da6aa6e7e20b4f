/**
 The coalescer object of one worker: the control flow of a single coalesce call, and that a
 call left to itself does in the step system what this object does.
 */
module RequestCoalescer {
  import opened Wrappers
  import opened Coalescer
  import opened CoalescerOutcomes

  // One turn of the waiting loop: the clock read before it, and what get_message gave.
  datatype Poll = Poll(now: nat, message: Option<string>)

  /** Poll i brings the first message, and every turn up to it began before the deadline. */
  predicate FirstMessage(polls: seq<Poll>, deadline: nat, i: int) {
    && 0 <= i < |polls| && polls[i].message.Some?
    && (forall j | 0 <= j < i :: polls[j].message.None?)
    && (forall j | 0 <= j <= i :: polls[j].now < deadline)
  }

  /** r is what a waiter makes of the polls: the first message decoded, or nothing. */
  ghost predicate ReplyOf(c: Codec, polls: seq<Poll>, deadline: nat, r: Reply) {
    && (forall i | FirstMessage(polls, deadline, i) :: r == Decode(c, polls[i].message.value))
    && ((forall i :: !FirstMessage(polls, deadline, i)) ==> r == Nothing)
  }

  /** A winner ends with the outcome that its message carries. */
  predicate WinnerEnds(c: Codec, outcome: Outcome, payload: string, end: End) {
    end == Due(c, true, outcome)
    && match end
       case OwnResult(v) => Encode(c, v) == Some(payload)
       case OwnError(m) => payload == c.dumps(ErrorObject(m))
       case _ => false
  }

  /** A waiter's end repeats the reply it heard; without one it is its own producer's. */
  predicate WaiterEnds(reply: Reply, outcome: Outcome, end: End) {
    match reply
    case Got(v) => end.Coalesced? && end.v == v
    case Failed(m) => end.SentinelError? && end.message == m
    case Nothing => end == EndOf(outcome)
  }

  class RequestCoalescer {
    const codec: Codec
    var coalescedCount: nat

    constructor (codec: Codec)
      ensures this.codec == codec && coalescedCount == 0
    {
      this.codec := codec;
      coalescedCount := 0;
    }

    /**
     Listens until the deadline. The answer is the first message decoded, if one comes in
     time; Nothing on a timeout, which also ends the turns given.
     */
    method WaitForResult(deadline: nat, polls: seq<Poll>) returns (r: Reply)
      ensures ReplyOf(codec, polls, deadline, r)
    {
      var k := 0;
      while k < |polls|
        invariant 0 <= k <= |polls|
        invariant forall j | 0 <= j < k :: polls[j].message.None? && polls[j].now < deadline
      {
        if polls[k].now >= deadline {
          return Nothing;
        }
        if polls[k].message.Some? {
          assert FirstMessage(polls, deadline, k);
          return Decode(codec, polls[k].message.value);
        }
        k := k + 1;
      }
      r := Nothing;
    }

    /**
     The payload to publish, whatever the producer did, and the end: the result itself when
     it can be encoded, and an error otherwise.
     */
    method ExecuteAndPublish(outcome: Outcome) returns (payload: string, end: End)
      ensures WinnerEnds(codec, outcome, payload, end)
      ensures end.OwnResult? <==> outcome.Returned? && !outcome.v.Unserialisable?
      ensures end.OwnResult? ==> outcome == Returned(end.v)
    {
      match outcome
      case Raised(m) =>
        payload, end := codec.dumps(ErrorObject(m)), OwnError(m);
      case Returned(v) =>
        var encoded := Encode(codec, v);
        if encoded.Some? {
          payload, end := encoded.value, OwnResult(v);
        } else {
          var m := REFUSED;
          payload, end := codec.dumps(ErrorObject(m)), OwnError(m);
        }
    }

    /**
     One call of coalesce. claimed is the answer of SET NX; outcome is what the producer does
     if it is run. The producer runs unless a message was heard; the count goes up exactly
     when a coalesced value is returned.
     */
    method Coalesce(claimed: bool, deadline: nat, polls: seq<Poll>, outcome: Outcome)
      returns (end: End, published: Option<string>, ran: bool)
      modifies this
      ensures published.Some? <==> claimed
      ensures claimed ==> ran && WinnerEnds(codec, outcome, published.value, end)
      ensures !claimed ==> exists r ::
        ReplyOf(codec, polls, deadline, r) && WaiterEnds(r, outcome, end) && (ran <==> r == Nothing)
      ensures coalescedCount == old(coalescedCount) + if end.Coalesced? then 1 else 0
    {
      if claimed {
        var payload;
        payload, end := ExecuteAndPublish(outcome);
        return end, Some(payload), true;
      }
      published := None;
      var reply := WaitForResult(deadline, polls);
      match reply
      case Got(v) =>
        coalescedCount := coalescedCount + 1;
        end, ran := Coalesced(v, 0), false;
      case Failed(m) =>
        end, ran := SentinelError(m, 0), false;
      case Nothing =>
        end, ran := EndOf(outcome), true;
    }
  }

  // ----- the same call in the step system -----

  /**
   A winner left to itself publishes one message, with the payload of ExecuteAndPublish and
   for an outcome that is its end, deletes its lock, and ends as ExecuteAndPublish does.
   */
  lemma SoloWinner(c: Codec, s: State, id: CallId, outcome: Outcome, payload: string, end: End, delivered: set<CallId>)
    returns (run: seq<Step>)
    requires id in s.calls && s.calls[id].phase.Producing? && WinnerEnds(c, outcome, payload, end)
    requires forall d | d in delivered :: Listener(s, s.calls[id].hash, d)
    ensures Possible(c, s, run)
    ensures var t := After(c, s, run); var h := s.calls[id].hash;
      && id in t.calls && t.calls[id].phase == Finished(end) && t.locks == s.locks - {h}
      && |t.log| == |s.log| + 1 && t.log[..|s.log|] == s.log
      && var m := t.log[|s.log|];
         m.hash == h && m.sender == id && m.payload == payload && EndOf(m.origin) == end
  {
    run := Three(c, s, Produce(id, outcome), Publish(id, delivered), Delete(id));
  }

  /** A waiter left to itself with a message ends as Coalesce does after that reply. */
  lemma SoloWaiter(c: Codec, s: State, id: CallId, outcome: Outcome) returns (run: seq<Step>)
    requires Enabled(s, Receive(id))
    ensures Possible(c, s, run)
    ensures var t := After(c, s, run); var w := s.calls[id];
      var reply := Decode(c, s.log[w.phase.inbox[0]].payload);
      && id in t.calls && t.calls[id].phase.Finished? && t.log == s.log
      && WaiterEnds(reply, outcome, t.calls[id].phase.end)
      && t.calls[id].runs == w.runs + (if reply == Nothing then 1 else 0)
      && Count(t, w.worker) == Count(s, w.worker) + if t.calls[id].phase.end.Coalesced? then 1 else 0
  {
    var t := Apply(c, s, Receive(id));
    if t.calls[id].phase.Fallback? {
      run := Two(c, s, Receive(id), Produce(id, outcome));
    } else {
      run := One(c, s, Receive(id));
    }
  }

  /** And one whose deadline passes first ends as Coalesce does without a reply. */
  lemma SoloTimeOut(c: Codec, s: State, id: CallId, outcome: Outcome) returns (run: seq<Step>)
    requires Enabled(s, TimeOut(id))
    ensures Possible(c, s, run)
    ensures var t := After(c, s, run);
      && id in t.calls && t.calls[id].phase.Finished? && t.log == s.log && t.counted == s.counted
      && WaiterEnds(Nothing, outcome, t.calls[id].phase.end) && t.calls[id].runs == s.calls[id].runs + 1
  {
    run := Two(c, s, TimeOut(id), Produce(id, outcome));
  }

  /**
   A winner cancelled before its DEL still deletes its lock and then ends as cancelled,
   without a message; a waiter or a fallback ends at once and leaves the locks alone.
   */
  lemma SoloCancel(c: Codec, s: State, id: CallId) returns (run: seq<Step>)
    requires Enabled(s, Cancel(id)) && !s.calls[id].phase.Deleting?
    ensures Possible(c, s, run)
    ensures var t := After(c, s, run);
      && id in t.calls && t.calls[id] == s.calls[id].(phase := Finished(Cancelled)) && t.log == s.log
      && t.locks == if Holding(s.calls[id]) then s.locks - {s.calls[id].hash} else s.locks
  {
    if Holding(s.calls[id]) {
      run := Two(c, s, Cancel(id), Delete(id));
    } else {
      run := One(c, s, Cancel(id));
    }
  }

  /**
   A result whose PUBLISH raises is replaced by an error sentinel with that error, which is
   how the winner ends; if the sentinel cannot be published either, it ends with the Redis
   error. The lock is deleted in both cases.
   */
  lemma SoloPublishFails(c: Codec, s: State, id: CallId, message: string, again: bool) returns (run: seq<Step>)
    requires id in s.calls && s.calls[id].phase.Publishing?
    ensures Possible(c, s, run)
    ensures var t := After(c, s, run); var h := s.calls[id].hash;
      && id in t.calls && t.locks == s.locks - {h}
      && t.calls[id].phase == Finished(if again then RedisError else OwnError(message))
      && t.log == s.log + if again then []
                          else [Publication(h, id, c.dumps(ErrorObject(message)), Raised(message))]
  {
    var fails := PublishFails(id, message);
    if again {
      run := Three(c, s, fails, fails, Delete(id));
    } else {
      run := Three(c, s, fails, Publish(id, {}), Delete(id));
    }
  }

  /** An error of SUBSCRIBE or of listening ends the call with that error, without a run of its producer. */
  lemma SoloFail(c: Codec, s: State, id: CallId) returns (run: seq<Step>)
    requires id in s.calls && (s.calls[id].phase.Subscribing? || s.calls[id].phase.Listening?)
    ensures Possible(c, s, run)
    ensures After(c, s, run) == s.(calls := s.calls[id := s.calls[id].(phase := Finished(RedisError))])
  {
    run := One(c, s, Fail(id));
  }

  /** A DEL that raises, or is cancelled, replaces the end and leaves the lock. */
  lemma SoloLostDelete(c: Codec, s: State, id: CallId, cancelled: bool) returns (run: seq<Step>)
    requires id in s.calls && s.calls[id].phase.Deleting?
    ensures Possible(c, s, run)
    ensures After(c, s, run)
         == s.(calls := s.calls[id := s.calls[id].(phase := Finished(if cancelled then Cancelled else RedisError))])
  {
    run := One(c, s, if cancelled then Cancel(id) else DeleteFails(id));
  }
}
