/**
 Scores are read from the caller's clock before its command is sent, so a caller whose clock
 is behind, or whose command is slow, uses a score that is already old.
 */
module ClockSkew {
  import opened Wrappers
  import opened Redis
  import opened Sets
  import opened CacheWorkers
  import opened CacheRaces
  import Spec = CacheSpec

  // key has the lowest score of z, by itself.
  ghost predicate Oldest(z: map<Key, int>, key: Key) {
    key in z && forall k | k in z && k != key :: z[key] < z[k]
  }

  lemma OldestIsLowest(z: map<Key, int>, key: Key)
    requires Oldest(z, key)
    ensures Lowest(z, 1) == {key}
  {
    assert |z| >= 1 by { SizeMonotone({key}, z.Keys); }
    assert IsLowest(z, 1, {key});
    LowestIsUnique(z, 1, Lowest(z, 1), {key});
  }

  lemma OldestIsEvicted(s: Store, maxSize: nat, key: Key)
    requires |s.lru| == maxSize + 1 && Oldest(s.lru, key)
    ensures Spec.Evicted(s, maxSize) == Store(s.values - {key}, s.lru - {key})
  {
    OldestIsLowest(s.lru, key);
  }

  /**
   A put with an old score evicts itself: with a full cache whose members were all used after
   that score, the value is stored and deleted again by its own eviction.
   */
  lemma SkewedPutEvictsItself(c: Config, s: State, id: CallId, key: Key, text: string, score: int)
    returns (run: seq<Step>)
    requires id !in s.calls && |s.lru| == c.maxSize && key !in s.lru
    requires forall k | k in s.lru :: score < s.lru[k]
    ensures Possible(c, s, run)
    ensures var t := After(c, s, run);
      t.calls == s.calls[id := Finished] && t.lru == s.lru && t.values == s.values - {key}
  {
    hide *;
    var begin, t := SkewedBegin(c, s, id, key, text, score);
    var rest := SoloEviction(c, t, id);
    Concat(c, s, begin, rest);
    run := begin + rest;
    DataIs(After(c, s, run));
  }

  // SET, ZADD and ZCARD of such a put.
  lemma SkewedBegin(c: Config, s: State, id: CallId, key: Key, text: string, score: int)
    returns (begin: seq<Step>, t: State)
    requires id !in s.calls && |s.lru| == c.maxSize && key !in s.lru
    requires forall k | k in s.lru :: score < s.lru[k]
    ensures Possible(c, s, begin) && After(c, s, begin) == t
    ensures |t.lru| > c.maxSize && id in t.calls && t.calls[id := Finished] == s.calls[id := Finished]
    ensures t.calls[id].PutRanging? && t.calls[id].overflow == |t.lru| - c.maxSize
    ensures Spec.Evicted(Data(t), c.maxSize) == Store(s.values - {key}, s.lru)
  {
    hide *;
    var put := BeginPut(id, key, text, score);
    SkewedMulti(c, s, id, key, text, score);
    var u := Apply(c, s, put);
    NewOldest(s.lru, key, score);
    AfterTheCount(c, u, id);
    t := Apply(c, u, Continue(id, 0));
    DataIs(t);
    DataIs(u);
    OldestIsEvicted(Data(t), c.maxSize, key);
    SelfEvicted(s, Data(t), key, Entry(text, s.now + c.ttl), score);
    begin := Two(c, s, put, Continue(id, 0));
  }

  lemma SkewedMulti(c: Config, s: State, id: CallId, key: Key, text: string, score: int)
    requires id !in s.calls
    ensures var put := BeginPut(id, key, text, score);
      && Enabled(s, put)
      && var u := Apply(c, s, put);
         && u.calls == s.calls[id := PutCounting]
         && Data(u) == Store(s.values[key := Entry(text, s.now + c.ttl)], s.lru[key := score])
  {
  }

  lemma NewOldest(z: map<Key, int>, key: Key, score: int)
    requires key !in z && forall k | k in z :: score < z[k]
    ensures |z[key := score]| == |z| + 1 && Oldest(z[key := score], key)
  {
    assert z[key := score].Keys == z.Keys + {key};
  }

  lemma SelfEvicted(s: State, t: Store, key: Key, e: Entry, score: int)
    requires key !in s.lru && t == Store(s.values[key := e], s.lru[key := score])
    ensures t.lru - {key} == s.lru && t.values - {key} == s.values - {key}
  {
  }

  /**
   A hit with an old score demotes its key: ZADD overwrites the newer score, and the next put
   of a new key evicts the key that was just answered.
   */
  lemma SkewedHitIsEvictedNext(c: Config, s: State, hit: CallId, key: Key, score: int,
                               put: CallId, other: Key, text: string)
    returns (run: seq<Step>)
    requires hit !in s.calls && put !in s.calls && hit != put
    requires |s.lru| == c.maxSize && key in s.lru && other !in s.lru
    requires key in s.values && Live(s.values[key], s.now)
    requires score < s.now && forall k | k in s.lru && k != key :: score < s.lru[k]
    ensures Possible(c, s, run)
    ensures var t := After(c, s, run);
      && t.calls == s.calls[hit := Finished][put := Finished]
      && t.lru.Keys == s.lru.Keys + {other} - {key} && key !in t.values
  {
    hide *;
    var get, refresh := BeginGet(hit, key), Continue(hit, score);
    SkewedRefresh(c, s, hit, key, score);
    var u := Apply(c, Apply(c, s, get), refresh);
    var begin := Two(c, s, get, refresh);
    var rest := SoloPut(c, u, put, other, text);
    Concat(c, s, begin, rest);
    run := begin + rest;
    DataIs(u);
    DemotedIsEvicted(c, Data(u), s.lru, key, score, other, text, s.now);
    DataIs(After(c, s, run));
  }

  lemma SkewedRefresh(c: Config, s: State, hit: CallId, key: Key, score: int)
    requires hit !in s.calls && key in s.values && Live(s.values[key], s.now)
    ensures var get, refresh := BeginGet(hit, key), Continue(hit, score);
      && Enabled(s, get) && Enabled(Apply(c, s, get), refresh)
      && var u := Apply(c, Apply(c, s, get), refresh);
         u.calls == s.calls[hit := Finished] && u.now == s.now && u.values == s.values && u.lru == s.lru[key := score]
  {
  }

  lemma DemotedIsEvicted(c: Config, u: Store, z: map<Key, int>, key: Key, score: int, other: Key, text: string, now: int)
    requires u.lru == z[key := score] && |z| == c.maxSize && key in z && other !in z
    requires score < now && forall k | k in z && k != key :: score < z[k]
    ensures var t := Spec.AfterPut(c, u, other, text, now); t.lru.Keys == z.Keys + {other} - {key} && key !in t.values
  {
    hide Lowest;
    var v := Spec.Stored(u, other, Entry(text, now + c.ttl), now);
    assert v.lru.Keys == z.Keys + {other} && |v.lru| == |v.lru.Keys|;
    OldestIsEvicted(v, c.maxSize, key);
  }
}
