/**
 That a winner gives its lock back: through results, errors and cancellations, unless its
 DEL itself is lost.
 */
module LockRelease {
  import opened Wrappers
  import opened Coalescer

  /** The DEL of call id does not happen: it raises, it is cancelled, or the worker crashes. */
  predicate LosesDelete(s: State, e: Step, id: CallId) {
    match e
    case DeleteFails(w) => w == id
    case Crash(w) => w == id
    case Cancel(w) => w == id && id in s.calls && s.calls[id].phase.Deleting?
    case _ => false
  }

  ghost predicate KeepsDelete(c: Codec, s: State, run: seq<Step>, id: CallId)
    requires Possible(c, s, run)
    decreases |run|
  {
    run == [] || (!LosesDelete(s, run[0], id) && KeepsDelete(c, Apply(c, s, run[0]), run[1..], id))
  }

  // Every lock in Redis belongs to a winner of its hash.
  ghost predicate OwnersKnown(s: State) {
    forall h | h in s.locks :: s.locks[h].owner in s.calls && s.calls[s.locks[h].owner].hash == h
  }

  // Call id has a lock only while it holds one.
  ghost predicate Released(s: State, id: CallId) {
    forall h | h in s.locks && s.locks[h].owner == id :: id in s.calls && Holding(s.calls[id])
  }

  lemma StepKeepsReleased(c: Codec, s: State, e: Step, id: CallId)
    requires OwnersKnown(s) && Released(s, id) && Enabled(s, e) && !LosesDelete(s, e, id)
    ensures OwnersKnown(Apply(c, s, e)) && Released(Apply(c, s, e), id)
  {
    var t := Apply(c, s, e);
    forall h | h in t.locks
      ensures t.locks[h].owner in t.calls && t.calls[t.locks[h].owner].hash == h
    {
      if !(e.Claim? && e.id == t.locks[h].owner) {
        assert h in s.locks && t.locks[h] == s.locks[h];
        StepKeepsIdentity(c, s, e, s.locks[h].owner);
      }
    }
    forall h | h in t.locks && t.locks[h].owner == id
      ensures id in t.calls && Holding(t.calls[id])
    {
      if !(e.Claim? && e.id == id) {
        assert h in s.locks && s.locks[h].owner == id && s.calls[id].hash == h;
      }
    }
  }

  lemma {:induction false} RunKeepsReleased(c: Codec, s: State, run: seq<Step>, id: CallId)
    requires OwnersKnown(s) && Released(s, id) && Possible(c, s, run) && KeepsDelete(c, s, run, id)
    ensures OwnersKnown(After(c, s, run)) && Released(After(c, s, run), id)
    decreases |run|
  {
    if run != [] {
      StepKeepsReleased(c, s, run[0], id);
      RunKeepsReleased(c, Apply(c, s, run[0]), run[1..], id);
    }
  }

  /**
   A call that has finished owns no lock: whatever its producer did, whether publishing
   failed, and wherever it was cancelled, as long as its DEL was not lost.
   */
  lemma FinishedOwnsNoLock(c: Codec, run: seq<Step>, id: CallId)
    requires Possible(c, INITIAL, run) && KeepsDelete(c, INITIAL, run, id)
    requires var s := After(c, INITIAL, run); id in s.calls && !Holding(s.calls[id])
    ensures var s := After(c, INITIAL, run); forall h | h in s.locks :: s.locks[h].owner != id
  {
    RunKeepsReleased(c, INITIAL, run, id);
  }

  /**
   So the next request is served at once: if no call of hash h lost its DEL and none holds
   the lock now, the lock is gone from Redis and any new claim of h wins it, without waiting
   for its time to live.
   */
  lemma ReleasedLockIsClaimable(c: Codec, run: seq<Step>, h: Hash, other: CallId, worker: WorkerId)
    requires Possible(c, INITIAL, run)
    requires var s := After(c, INITIAL, run);
      && other !in s.calls
      && forall id | id in s.calls && s.calls[id].hash == h :: KeepsDelete(c, INITIAL, run, id) && !Holding(s.calls[id])
    ensures var s := After(c, INITIAL, run);
      h !in s.locks && Apply(c, s, Claim(other, worker, h)).calls[other].phase == Producing
  {
    var s := After(c, INITIAL, run);
    if h in s.locks {
      OwnersAreKnown(c, INITIAL, run);
      FinishedOwnsNoLock(c, run, s.locks[h].owner);
    }
  }

  lemma {:induction false} OwnersAreKnown(c: Codec, s: State, run: seq<Step>)
    requires OwnersKnown(s) && Possible(c, s, run)
    ensures OwnersKnown(After(c, s, run))
    decreases |run|
  {
    if run != [] {
      var t := Apply(c, s, run[0]);
      forall h | h in t.locks
        ensures t.locks[h].owner in t.calls && t.calls[t.locks[h].owner].hash == h
      {
        if !(run[0].Claim? && run[0].id == t.locks[h].owner) {
          assert h in s.locks && t.locks[h] == s.locks[h];
          StepKeepsIdentity(c, s, run[0], s.locks[h].owner);
        }
      }
      OwnersAreKnown(c, t, run[1..]);
    }
  }

  // ----- a lost DEL -----

  // The lock of call id stands under h until its time.
  ghost predicate Orphan(s: State, h: Hash, lock: Lock) {
    h in s.locks && s.locks[h] == lock
    && (s.now < lock.expires ==> forall id | id in s.calls && s.calls[id].hash == h :: !Holding(s.calls[id]))
  }

  /**
   The condition is exact: when a punctual holder's DEL is lost, by an error, a cancellation
   or a crash, its lock stays until its time to live, whatever happens, and until then every
   claim of that hash loses.
   */
  lemma LostDeleteBlocks(c: Codec, past: seq<Step>, id: CallId, loss: Step, run: seq<Step>, other: CallId, worker: WorkerId)
    requires Possible(c, INITIAL, past) && Enabled(After(c, INITIAL, past), loss)
    requires var s := After(c, INITIAL, past);
      && id in s.calls && Holding(s.calls[id]) && PromptRun(c, INITIAL, past, s.calls[id].hash)
      && LosesDelete(s, loss, id) && Possible(c, Apply(c, s, loss), run)
      && var t := After(c, Apply(c, s, loss), run); t.now < s.calls[id].at + LOCK_TTL && other !in t.calls
    ensures var w := After(c, INITIAL, past).calls[id];
      var t := After(c, Apply(c, After(c, INITIAL, past), loss), run);
      w.hash in t.locks && t.locks[w.hash] == Lock(id, w.at + LOCK_TTL)
      && Apply(c, t, Claim(other, worker, w.hash)).calls[other].phase == Subscribing
  {
    var s := After(c, INITIAL, past);
    var h, t := s.calls[id].hash, Apply(c, s, loss);
    RunKeepsLocks(c, INITIAL, past, h);
    assert HasLock(s, id);
    forall x | x in t.calls && t.calls[x].hash == h
      ensures !Holding(t.calls[x])
    {
      if Holding(s.calls[x]) {
        assert HasLock(s, x);
      }
    }
    OrphanBlocks(c, t, run, h, other, worker);
  }

  lemma {:induction false} OrphanBlocks(c: Codec, s: State, run: seq<Step>, h: Hash, other: CallId, worker: WorkerId)
    requires h in s.locks && Orphan(s, h, s.locks[h]) && Possible(c, s, run)
    requires After(c, s, run).now < s.locks[h].expires && other !in After(c, s, run).calls
    ensures var t := After(c, s, run);
      h in t.locks && t.locks[h] == s.locks[h]
      && Apply(c, t, Claim(other, worker, h)).calls[other].phase == Subscribing
    decreases |run|
  {
    if run != [] {
      TimeGoesOn(c, Apply(c, s, run[0]), run[1..]);
      StepKeepsOrphan(c, s, run[0], h);
      OrphanBlocks(c, Apply(c, s, run[0]), run[1..], h, other, worker);
    }
  }

  lemma StepKeepsOrphan(c: Codec, s: State, e: Step, h: Hash)
    requires h in s.locks && Orphan(s, h, s.locks[h]) && Enabled(s, e)
    requires Apply(c, s, e).now < s.locks[h].expires
    ensures var t := Apply(c, s, e); h in t.locks && t.locks[h] == s.locks[h] && Orphan(t, h, t.locks[h])
  {
    var t := Apply(c, s, e);
    assert s.now <= t.now;
    forall id | id in t.calls && t.calls[id].hash == h
      ensures !Holding(t.calls[id])
    {
      if id in s.calls {
        StepKeepsIdentity(c, s, e, id);
      }
    }
  }

  lemma {:induction false} TimeGoesOn(c: Codec, s: State, run: seq<Step>)
    requires Possible(c, s, run)
    ensures s.now <= After(c, s, run).now
    decreases |run|
  {
    if run != [] {
      TimeGoesOn(c, Apply(c, s, run[0]), run[1..]);
    }
  }
}
