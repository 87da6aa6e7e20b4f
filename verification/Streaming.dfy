/**
 The streaming generator: replay from the cache, or relay of the backend's chunks with the
 text put together and stored at the end. The completion and the chat form have the same
 control flow; text stands for the chunk's text or content.
 */
module Streaming {
  import opened Wrappers
  import opened Redis
  import opened Sets
  import opened Throttler
  import Spec = CacheSpec
  import Cache = RedisCache
  import Breaker = CircuitBreaker
  import Pool = BackendPool

  // text is missing when the backend sent a JSON null.
  datatype Chunk = Chunk(text: Option<string>, done: bool)

  datatype Sse =
    | Event(text: Option<string>, stop: bool)
    | NoBackend
    | DoneMarker

  // The backend's stream: its chunks, and whether it then raises.
  datatype Source = Source(chunks: seq<Chunk>, raises: bool)

  datatype Fate = Completed | Failed | Closed

  function Relayed(chunks: seq<Chunk>): (es: seq<Sse>)
    ensures |es| == |chunks|
    ensures forall i | 0 <= i < |chunks| :: es[i] == Event(chunks[i].text, chunks[i].done)
  {
    seq(|chunks|, i requires 0 <= i < |chunks| => Event(chunks[i].text, chunks[i].done))
  }

  // The texts of a list of events; a line that is not one has none.
  function Texts(es: seq<Sse>): seq<Option<string>> {
    seq(|es|, i requires 0 <= i < |es| => if es[i].Event? then es[i].text else None)
  }

  /** Texts put together in order; none if one of them is missing. */
  function Joined(texts: seq<Option<string>>): Option<string> {
    if texts == [] then Some("")
    else if texts[0].None? then None
    else match Joined(texts[1..])
      case None => None
      case Some(rest) => Some(texts[0].value + rest)
  }

  // The text between the cuts i and i + 1 is piece.
  predicate IsPiece(text: string, cuts: seq<nat>, i: nat, piece: Option<string>) {
    i + 1 < |cuts| && cuts[i] <= cuts[i + 1] <= |text| && piece == Some(text[cuts[i]..cuts[i + 1]])
  }

  /** The places cuts divide text into the given texts, in their order. */
  predicate Divides(text: string, texts: seq<Option<string>>, cuts: seq<nat>) {
    && |cuts| == |texts| + 1 && cuts[0] == 0 && cuts[|texts|] == |text|
    && forall i: nat | i < |texts| :: IsPiece(text, cuts, i, texts[i])
  }

  // More text in front moves the cuts.
  lemma ShiftedPiece(head: string, tail: string, cuts: seq<nat>, i: nat, piece: Option<string>)
    requires IsPiece(tail, cuts, i, piece)
    ensures IsPiece(head + tail, Shifted(|head|, cuts), i + 1, piece)
  {
    assert (head + tail)[|head| + cuts[i]..|head| + cuts[i + 1]] == tail[cuts[i]..cuts[i + 1]];
  }

  // A new first piece of n characters.
  function Shifted(n: nat, cuts: seq<nat>): (r: seq<nat>)
    ensures |r| == |cuts| + 1 && r[0] == 0 && forall i | 0 <= i < |cuts| :: r[i + 1] == n + cuts[i]
  {
    [0] + seq(|cuts|, i requires 0 <= i < |cuts| => n + cuts[i])
  }

  lemma {:induction false} JoinedDivides(texts: seq<Option<string>>) returns (cuts: seq<nat>)
    requires Joined(texts).Some?
    ensures Divides(Joined(texts).value, texts, cuts)
  {
    if texts == [] {
      cuts := [0];
    } else {
      var head, tail := texts[0].value, Joined(texts[1..]).value;
      var rest := JoinedDivides(texts[1..]);
      hide Joined, Shifted, IsPiece;
      cuts := Shifted(|head|, rest);
      forall i: nat | i < |texts|
        ensures IsPiece(head + tail, cuts, i, texts[i])
      {
        if i == 0 {
          FirstPiece(head, tail, cuts);
        } else {
          assert IsPiece(tail, rest, i - 1, texts[1..][i - 1]);
          ShiftedPiece(head, tail, rest, i - 1, texts[i]);
        }
      }
    }
  }

  lemma FirstPiece(head: string, tail: string, cuts: seq<nat>)
    requires |cuts| > 1 && cuts[0] == 0 && cuts[1] == |head|
    ensures IsPiece(head + tail, cuts, 0, Some(head))
  {
    assert (head + tail)[0..|head|] == head;
  }

  lemma {:induction false} JoinedIffPresent(texts: seq<Option<string>>)
    ensures Joined(texts).Some? <==> forall i | 0 <= i < |texts| :: texts[i].Some?
  {
    if texts != [] {
      JoinedIffPresent(texts[1..]);
      if forall i | 0 <= i < |texts[1..]| :: texts[1..][i].Some? {
        assert forall i | 1 <= i < |texts| :: texts[i] == texts[1..][i - 1];
      }
    }
  }

  /** Joins the texts in their order; fails exactly if one of them is missing. */
  method Join(texts: seq<Option<string>>) returns (r: Option<string>)
    ensures r == Joined(texts)
    ensures r.Some? <==> forall i | 0 <= i < |texts| :: texts[i].Some?
    ensures r.Some? ==> exists cuts :: Divides(r.value, texts, cuts)
  {
    JoinedIffPresent(texts);
    var k := |texts|;
    var s := "";
    while k > 0
      invariant 0 <= k <= |texts|
      invariant Joined(texts[k..]) == Some(s)
    {
      k := k - 1;
      assert texts[k..][1..] == texts[k + 1..];
      if texts[k].None? {
        NoneSpoils(texts, k);
        return None;
      }
      s := texts[k].value + s;
    }
    assert texts[0..] == texts;
    r := Some(s);
    var _ := JoinedDivides(texts);
  }

  lemma {:induction false} NoneSpoils(texts: seq<Option<string>>, k: nat)
    requires k < |texts| && texts[k].None?
    ensures Joined(texts).None?
  {
    if k > 0 {
      NoneSpoils(texts[1..], k - 1);
    }
  }

  // What a client that takes at most n events sees of es.
  function Taken(es: seq<Sse>, n: nat): (r: seq<Sse>)
    ensures r <= es && |r| == if n < |es| then n else |es|
  {
    if n < |es| then es[..n] else es
  }

  /** The answer to a hit: the whole text in one event. */
  function Replay(text: string): seq<Sse> {
    [Event(Some(text), true), DoneMarker]
  }

  // What becomes of the cache write: Redis carries out so many commands, and if the put
  // needs more then the write raises, by a Redis error or because the stream is cancelled.
  datatype Write = Write(commands: nat, cancelled: bool)

  // When a stream looks up its key, scans the pool, writes the cache and records a failure.
  datatype Clock = Clock(got: int, scanned: Pool.Readings, stored: int, failed: int)

  // The shared data a stream touches.
  datatype World = World(store: Store, pool: Pool.Pool)

  datatype Setup = Setup(cache: Spec.Config, breakers: Breaker.Settings, key: Key, source: Source,
                         taken: nat, write: Write, clock: Clock)

  function Emitted(u: Setup): seq<Sse> {
    Relayed(u.source.chunks)
  }

  /** The client stays and the backend serves its stream to the end. */
  predicate Served(u: Setup) {
    u.taken > |u.source.chunks| && !u.source.raises
  }

  /** The stream gets as far as writing the cache. */
  predicate Writes(u: Setup) {
    Served(u) && u.source.chunks != [] && Joined(Texts(Emitted(u))).Some?
  }

  predicate WriteDone(u: Setup, before: Store) {
    Spec.PutDone(u.cache, before, u.key, u.write.commands)
  }

  ghost function StoreAfter(u: Setup, before: Store): Store {
    if Writes(u)
    then Spec.PutPrefix(u.cache, before, u.key, Joined(Texts(Emitted(u))).value, u.clock.stored, u.write.commands)
    else before
  }

  /** What a relay that ends with fate has emitted, recorded and stored. */
  ghost predicate RelayContract(u: Setup, backend: Pool.Backend, before: World, emitted: seq<Sse>, fate: Fate, after: World)
    requires Pool.WellFormed(before.pool)
  {
    var succeeded := Pool.AfterSuccess(before.pool, backend);
    after.store == StoreAfter(u, before.store)
    && match fate
       case Closed =>
         // the client left during the relay, with no outcome recorded, or during the write
         if u.taken <= |u.source.chunks| then emitted == Emitted(u)[..u.taken] && after.pool == before.pool
         else
           && Writes(u) && !WriteDone(u, before.store) && u.write.cancelled
           && emitted == Emitted(u) && after.pool == succeeded
       case Failed =>
         // the backend raised, or after a recorded success a text was missing or the write raised
         && u.taken > |u.source.chunks| && emitted == Emitted(u)
         && (Served(u) ==> if Writes(u) then !WriteDone(u, before.store) && !u.write.cancelled
                           else u.source.chunks != [])
         && after.pool == Pool.AfterFailure(u.breakers, if Served(u) then succeeded else before.pool, backend, u.clock.failed)
       case Completed =>
         // everything was relayed, and the text that was emitted is stored
         && Served(u) && (u.source.chunks == [] || (Writes(u) && WriteDone(u, before.store)))
         && emitted == Emitted(u) + [DoneMarker] && after.pool == succeeded
  }

  /**
   One run of the generator, with a cache. The client takes events until it has taken that
   many, and then closes the stream; it takes at least one, since a generator that is never
   pulled does not run.
   */
  method Stream(cache: Cache.Cache, pool: Pool.BackendPool, throttler: AdaptiveThrottler,
                key: Key, source: Source, taken: nat, write: Write, clock: Clock)
    returns (emitted: seq<Sse>, fate: Fate)
    requires pool.Valid() && taken > 0 && |clock.scanned| == |pool.backends|
    modifies cache, cache.redis, pool, pool.breakers, throttler
    ensures pool.Valid()
    ensures throttler.activeRequests == Decremented(old(throttler.activeRequests))
    // a hit replays the stored text in one event and touches no backend
    ensures var hit := old(Spec.Lookup(cache.redis.Contents(), key, clock.got));
      hit.Some? ==>
        && emitted == Taken(Replay(hit.value), taken)
        && pool.Model() == old(pool.Model())
        && cache.redis.Contents() == old(Spec.AfterGet(cache.redis.Contents(), key, clock.got))
    // on a miss with every circuit open the client is told so
    ensures (&& old(Spec.Lookup(cache.redis.Contents(), key, clock.got)).None?
             && Pool.Scan(pool.settings, old(pool.Model()), clock.scanned, 0).None?) ==>
        && emitted == Taken([NoBackend, DoneMarker], taken)
        && pool.Model() == old(pool.Model())
        && cache.redis.Contents() == old(cache.redis.Contents())
    // otherwise the chunks of the selected backend are relayed
    ensures (&& old(Spec.Lookup(cache.redis.Contents(), key, clock.got)).None?
             && Pool.Scan(pool.settings, old(pool.Model()), clock.scanned, 0).Some?) ==>
        RelayContract(Setup(cache.Config(), pool.settings, key, source, taken, write, clock),
          pool.backends[Pool.Slot(old(pool.Model()), Pool.Scan(pool.settings, old(pool.Model()), clock.scanned, 0).value)],
          World(old(cache.redis.Contents()), Pool.AfterScan(pool.settings, old(pool.Model()), clock.scanned)),
          emitted, fate, World(cache.redis.Contents(), pool.Model()))
  {
    var cached := cache.Get(key, clock.got);
    if cached.Some? {
      throttler.DecrementActive();
      return Taken(Replay(cached.value), taken), Completed;
    }
    var picked := pool.GetHealthyBackend(clock.scanned);
    if picked.None? {
      throttler.DecrementActive();
      return Taken([NoBackend, DoneMarker], taken), Completed;
    }
    emitted, fate := Relay(cache, pool, picked.value, key, source, taken, write, clock);
    throttler.DecrementActive();
  }

  /** The try block without a cache: the texts are collected but never joined. */
  method RelayOnly(pool: Pool.BackendPool, backend: Pool.Backend, source: Source, taken: nat, failed: int)
    returns (emitted: seq<Sse>, collected: seq<Option<string>>, fate: Fate)
    requires pool.Valid() && taken > 0
    modifies pool.breakers
    ensures pool.Valid() && collected == Texts(emitted)
    ensures match fate
            case Closed =>
              && taken <= |source.chunks| && emitted == Relayed(source.chunks)[..taken]
              && pool.Model() == old(pool.Model())
            case Failed =>
              && taken > |source.chunks| && source.raises && emitted == Relayed(source.chunks)
              && pool.Model() == Pool.AfterFailure(pool.settings, old(pool.Model()), backend, failed)
            case Completed =>
              && taken > |source.chunks| && !source.raises && emitted == Relayed(source.chunks)
              && pool.Model() == Pool.AfterSuccess(old(pool.Model()), backend)
  {
    collected, emitted := [], [];
    for i := 0 to |source.chunks|
      invariant i < taken
      invariant emitted == Relayed(source.chunks)[..i] && collected == Texts(emitted)
    {
      var chunk := source.chunks[i];
      collected := collected + [chunk.text];
      emitted := emitted + [Event(chunk.text, chunk.done)];
      if taken == i + 1 {
        return emitted, collected, Closed;
      }
    }
    if source.raises {
      pool.RecordFailure(backend, failed);
      fate := Failed;
    } else {
      pool.RecordSuccess(backend);
      fate := Completed;
    }
  }

  /** The try block with a cache: after the last chunk the joined text is stored. */
  method Relay(cache: Cache.Cache, pool: Pool.BackendPool, backend: Pool.Backend, key: Key, source: Source,
               taken: nat, write: Write, clock: Clock)
    returns (emitted: seq<Sse>, fate: Fate)
    requires pool.Valid() && taken > 0
    modifies cache.redis, pool.breakers
    ensures pool.Valid()
    ensures RelayContract(Setup(cache.Config(), pool.settings, key, source, taken, write, clock), backend,
              World(old(cache.redis.Contents()), old(pool.Model())),
              emitted, fate, World(cache.redis.Contents(), pool.Model()))
  {
    var collected;
    emitted, collected, fate := RelayOnly(pool, backend, source, taken, clock.failed);
    if fate == Completed {
      if collected != [] {
        var text := Join(collected);
        if text.None? {
          pool.RecordFailure(backend, clock.failed);
          return emitted, Failed;
        }
        var done := cache.Put(key, text.value, clock.stored, write.commands);
        if !done {
          if write.cancelled {
            return emitted, Closed;
          }
          pool.RecordFailure(backend, clock.failed);
          return emitted, Failed;
        }
      }
      emitted := emitted + [DoneMarker];
    }
  }
}
