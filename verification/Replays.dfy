/**
 A stream and the requests for its key that come later: what a hit replays, when there is a
 hit, and what a stream that was cut short leaves behind.
 */
module Replays {
  import opened Wrappers
  import opened Redis
  import opened Sets
  import opened Streaming
  import Spec = CacheSpec
  import Pool = BackendPool

  ghost predicate NoPutOf(ops: seq<Spec.Op>, k: Key) {
    forall i | 0 <= i < |ops| :: !(ops[i].Put? && ops[i].key == k)
  }

  // Only a put of its key gives a value.
  lemma {:induction false} ValueComesFromPut(c: Spec.Config, s: Store, ops: seq<Spec.Op>, k: Key)
    requires NoPutOf(ops, k)
    ensures var t := Spec.RunFrom(c, s, ops); k in t.values ==> k in s.values && t.values[k] == s.values[k]
  {
    if ops != [] {
      ValueComesFromPut(c, s, ops[..|ops| - 1], k);
    }
  }

  /** The text of a client that reads all events of es but the end marker. */
  function TextOf(es: seq<Sse>): Option<string>
    requires es != []
  {
    Joined(Texts(es[..|es| - 1]))
  }

  // The put of a complete stream, as an operation on the cache.
  function StoringPut(u: Setup): Spec.Op
    requires Writes(u)
  {
    Spec.Put(u.key, Joined(Texts(Emitted(u))).value, u.clock.stored)
  }

  lemma CompletedStores(u: Setup, backend: Pool.Backend, before: World, emitted: seq<Sse>, after: World)
    requires Pool.WellFormed(before.pool) && u.source.chunks != []
    requires RelayContract(u, backend, before, emitted, Completed, after)
    ensures emitted != [] && TextOf(emitted) == Joined(Texts(Emitted(u))) && Writes(u)
    ensures after.store == Spec.Apply(u.cache, before.store, StoringPut(u))
    ensures u.key in after.store.values ==>
      after.store.values[u.key] == Entry(TextOf(emitted).value, u.clock.stored + u.cache.ttl)
  {
    assert emitted[..|emitted| - 1] == Emitted(u);
    Spec.DonePutIsPut(u.cache, before.store, u.key, Joined(Texts(Emitted(u))).value, u.clock.stored, u.write.commands);
  }

  // The pieces of text between the cuts are the texts of the events before the end marker.
  predicate PutTogether(text: string, emitted: seq<Sse>, cuts: seq<nat>)
    requires emitted != []
  {
    && |cuts| == |emitted| && cuts[0] == 0 && cuts[|cuts| - 1] == |text|
    && forall i: nat | i < |emitted| - 1 :: emitted[i].Event? && IsPiece(text, cuts, i, emitted[i].text)
  }

  /**
   Stream and replay agree. After a stream that completed, whatever other requests do to the
   cache, at whatever times and however many, as long as none of them stores the key again:
   a request for the key that hits is answered with one event and the end marker, and that
   event's text consists of the texts of the first stream's events, one after the other.
   */
  lemma ReplayIsStream(u: Setup, backend: Pool.Backend, before: World, emitted: seq<Sse>, after: World,
                       ops: seq<Spec.Op>, later: int)
    returns (cuts: seq<nat>)
    requires Pool.WellFormed(before.pool) && u.source.chunks != []
    requires RelayContract(u, backend, before, emitted, Completed, after)
    requires NoPutOf(ops, u.key)
    ensures emitted != [] && TextOf(emitted).Some?
    ensures var hit := Spec.Lookup(Spec.RunFrom(u.cache, after.store, ops), u.key, later);
      hit.Some? ==>
        && Replay(hit.value) == [Event(TextOf(emitted), true), DoneMarker]
        && TextOf(Replay(hit.value)) == TextOf(emitted)
        && PutTogether(hit.value, emitted, cuts)
        && later < u.clock.stored + u.cache.ttl
  {
    CompletedStores(u, backend, before, emitted, after);
    ValueComesFromPut(u.cache, after.store, ops, u.key);
    var hit := Spec.Lookup(Spec.RunFrom(u.cache, after.store, ops), u.key, later);
    if hit.Some? {
      OneEvent(hit.value);
    }
    cuts := JoinedDivides(Texts(Emitted(u)));
    forall i: nat | i < |emitted| - 1
      ensures emitted[i].Event? && Texts(Emitted(u))[i] == emitted[i].text
    {
      assert emitted[i] == Emitted(u)[i];
    }
  }

  lemma OneEvent(text: string)
    ensures TextOf(Replay(text)) == Some(text)
  {
    var texts := Texts(Replay(text)[..1]);
    assert Replay(text)[..1] == [Event(Some(text), true)];
    assert texts == [Some(text)] && texts[1..] == [];
    assert Joined(texts[1..]) == Some("") && text + "" == text;
  }

  lemma {:induction false} LatestPutStays(c: Spec.Config, past: seq<Spec.Op>, put: Spec.Op, ops: seq<Spec.Op>)
    requires put.Put? && NoPutOf(ops, put.key)
    ensures Spec.LatestPut(c, past + [put] + ops, put.key) == Some(Entry(put.text, put.now + c.ttl))
    decreases |ops|
  {
    var all := past + [put] + ops;
    if ops == [] {
      assert all == past + [put];
    } else {
      LatestPutStays(c, past, put, ops[..|ops| - 1]);
      assert all[..|all| - 1] == past + [put] + ops[..|ops| - 1];
    }
  }

  /**
   And it hits exactly when it should: over gets and puts with increasing times, before the
   stream and after it, the replay is served exactly while the stored text is younger than
   the TTL and fewer than max_size other keys were touched since the key's last touch.
   */
  lemma ReplayedExactly(u: Setup, backend: Pool.Backend, before: World, emitted: seq<Sse>, after: World,
                        past: seq<Spec.Op>, ops: seq<Spec.Op>, later: int)
    requires Pool.WellFormed(before.pool) && u.source.chunks != [] && u.cache.maxSize > 0
    requires RelayContract(u, backend, before, emitted, Completed, after)
    requires before.store == Spec.Run(u.cache, past) && NoPutOf(ops, u.key)
    requires var all := past + [Spec.Put(u.key, Joined(Texts(Emitted(u))).value, u.clock.stored)] + ops;
      Spec.Increasing(all) && Spec.GetsAndPuts(all)
    ensures emitted != []
    ensures var all := past + [Spec.Put(u.key, Joined(Texts(Emitted(u))).value, u.clock.stored)] + ops;
      Spec.Lookup(Spec.RunFrom(u.cache, after.store, ops), u.key, later)
      == if later < u.clock.stored + u.cache.ttl && Spec.Resident(u.cache, Spec.Touches(u.cache, all), u.key)
         then TextOf(emitted) else None
  {
    CompletedStores(u, backend, before, emitted, after);
    var c, put := u.cache, StoringPut(u);
    assert (past + [put])[..|past|] == past;
    assert after.store == Spec.Run(c, past + [put]);
    Spec.RunFromSum(c, Spec.EMPTY, past + [put], ops);
    Spec.ExactLru(c, past + [put] + ops);
    LatestPutStays(c, past, put, ops);
    hide *;
    var all := past + [put] + ops;
    assert Spec.RunFrom(c, after.store, ops) == Spec.Run(c, all);
    assert Spec.Lookup(Spec.Run(c, all), u.key, later) == Spec.HistoryLookup(c, all, u.key, later);
  }

  // The last put is still there for the next lookup.
  lemma PutThenLookup(c: Spec.Config, s: Store, k: Key, text: string, now: int, later: int)
    requires c.maxSize > 0 && |s.lru| <= c.maxSize
    requires forall j | j in s.lru :: s.lru[j] < now
    requires now <= later < now + c.ttl
    ensures Spec.Lookup(Spec.AfterPut(c, s, k, text, now), k, later) == Some(text)
  {
    var t := Spec.Stored(s, k, Entry(text, now + c.ttl), now);
    if |t.lru| > c.maxSize {
      var victims := Lowest(t.lru, |t.lru| - c.maxSize);
      if k in victims {
        forall j | j in t.lru
          ensures j in victims
        {
          assert j !in victims ==> Before(t.lru, k, j);
        }
        SizeMonotone(t.lru.Keys, victims);
      }
    }
  }

  /** The very next request within the TTL is a hit, in any store that is within its size. */
  lemma NextRequestHits(u: Setup, backend: Pool.Backend, before: World, emitted: seq<Sse>, after: World, later: int)
    requires Pool.WellFormed(before.pool) && u.source.chunks != []
    requires RelayContract(u, backend, before, emitted, Completed, after)
    requires u.cache.maxSize > 0 && |before.store.lru| <= u.cache.maxSize
    requires forall j | j in before.store.lru :: before.store.lru[j] < u.clock.stored
    requires u.clock.stored <= later < u.clock.stored + u.cache.ttl
    ensures emitted != [] && Spec.Lookup(after.store, u.key, later) == TextOf(emitted)
  {
    CompletedStores(u, backend, before, emitted, after);
    PutThenLookup(u.cache, before.store, u.key, TextOf(emitted).value, u.clock.stored, later);
  }

  /**
   The fates of a relay spelled out. Its events are the backend's chunks, one for one, then
   the end marker if it completed. A client that leaves during the relay changes nothing at
   all; leaving during the cache write leaves the backend closed. A backend that raises is
   booked one more failure and nothing is stored.
   */
  lemma RelayFates(u: Setup, backend: Pool.Backend, before: World, emitted: seq<Sse>, fate: Fate, after: World, k: nat)
    requires Pool.WellFormed(before.pool) && Pool.FirstSlot(before.pool.backends, backend) == Some(k)
    requires RelayContract(u, backend, before, emitted, fate, after)
    ensures var n := |u.source.chunks|; var was, now := before.pool.breakers[k], after.pool.breakers[k];
      && (forall i | 0 <= i < n && i < |emitted| :: emitted[i] == Event(u.source.chunks[i].text, u.source.chunks[i].done))
      && (forall j | 0 <= j < |before.pool.breakers| && j != k :: after.pool.breakers[j] == before.pool.breakers[j])
      && (fate == Closed && u.taken <= n ==> |emitted| == u.taken && after == before)
      && (fate == Closed && u.taken > n ==> |emitted| == n && now.state.Closed? && now.failures == 0)
      && (fate == Completed ==> |emitted| == n + 1 && emitted[n] == DoneMarker && now.state.Closed? && now.failures == 0)
      && (fate == Failed ==> |emitted| == n && now.lastFailure == u.clock.failed)
      && (fate == Failed && u.source.raises ==> now.failures == was.failures + 1 && after.store == before.store)
      && after.pool.index == before.pool.index
  {
    hide Lowest;
  }

  /**
   A stream completes exactly when the client stays to the end, the backend does not raise,
   no text is missing and the write goes through. One that does not complete changes no
   lookup's answer, unless its write was cut off: then its whole text may be there already,
   never a part of it, and other keys may have been evicted.
   */
  lemma OnlyCompleteStreamsStore(u: Setup, backend: Pool.Backend, before: World, emitted: seq<Sse>, fate: Fate, after: World)
    requires Pool.WellFormed(before.pool)
    requires RelayContract(u, backend, before, emitted, fate, after)
    ensures fate == Completed <==>
      Served(u) && (u.source.chunks == [] || (Writes(u) && WriteDone(u, before.store)))
    ensures fate != Completed && !Writes(u) ==>
      forall k, later :: Spec.Lookup(after.store, k, later) == Spec.Lookup(before.store, k, later)
    ensures fate != Completed ==> forall k, later ::
      var was, hit := Spec.Lookup(before.store, k, later), Spec.Lookup(after.store, k, later);
      hit in {was, None} || (k == u.key && hit == Joined(Texts(Emitted(u))))
  {
    hide Lowest;
  }

  /**
   A failure after the backend has served its stream, a missing text or a write that Redis
   refuses, is booked on the backend, but only once: the success recorded just before has
   cleared the count, so it opens the circuit exactly for a threshold of one or less.
   */
  lemma ServedFailureCostsOne(u: Setup, backend: Pool.Backend, before: World, emitted: seq<Sse>, after: World, k: nat)
    requires Pool.WellFormed(before.pool) && Pool.FirstSlot(before.pool.backends, backend) == Some(k)
    requires RelayContract(u, backend, before, emitted, Failed, after) && Served(u)
    ensures after.pool.breakers[k].failures == 1
    ensures after.pool.breakers[k].state.Open? <==> u.breakers.threshold <= 1
  {
  }
}
