/**
 What interleaving costs: a call that runs alone is the sequential operation; and a put
 that lands inside another call's removal is exactly what separates a value from the LRU set.
 */
module CacheRaces {
  import opened Redis
  import opened CacheWorkers
  import Spec = CacheSpec

  function Data(s: State): Store {
    Store(s.values, s.lru)
  }

  lemma DataIs(s: State)
    ensures Data(s).values == s.values && Data(s).lru == s.lru
  {
  }

  lemma {:induction false} Extend(c: Config, s: State, run: seq<Step>, e: Step)
    requires Possible(c, s, run) && Enabled(After(c, s, run), e)
    ensures Possible(c, s, run + [e])
    ensures After(c, s, run + [e]) == Apply(c, After(c, s, run), e)
    decreases |run|
  {
    if run == [] {
      assert (run + [e])[1..] == [];
    } else {
      Extend(c, Apply(c, s, run[0]), run[1..], e);
      assert (run + [e])[1..] == run[1..] + [e];
    }
  }

  lemma {:induction false} Concat(c: Config, s: State, a: seq<Step>, b: seq<Step>)
    requires Possible(c, s, a) && Possible(c, After(c, s, a), b)
    ensures Possible(c, s, a + b)
    ensures After(c, s, a + b) == After(c, After(c, s, a), b)
    decreases |a|
  {
    if a == [] {
      assert a + b == b;
    } else {
      Concat(c, Apply(c, s, a[0]), a[1..], b);
      assert (a + b)[1..] == a[1..] + b;
    }
  }

  lemma One(c: Config, s: State, e: Step) returns (run: seq<Step>)
    requires Enabled(s, e)
    ensures Possible(c, s, run) && After(c, s, run) == Apply(c, s, e)
    ensures |run| == 1 && run[0] == e
  {
    Extend(c, s, [], e);
    run := [] + [e];
  }

  lemma Two(c: Config, s: State, e: Step, f: Step) returns (run: seq<Step>)
    requires Enabled(s, e) && Enabled(Apply(c, s, e), f)
    ensures Possible(c, s, run) && After(c, s, run) == Apply(c, Apply(c, s, e), f)
    ensures |run| == 2 && run[0] == e
  {
    run := One(c, s, e);
    Extend(c, s, run, f);
    run := run + [f];
  }

  lemma Three(c: Config, s: State, e: Step, f: Step, g: Step) returns (run: seq<Step>)
    requires Enabled(s, e) && Enabled(Apply(c, s, e), f) && Enabled(Apply(c, Apply(c, s, e), f), g)
    ensures Possible(c, s, run) && After(c, s, run) == Apply(c, Apply(c, Apply(c, s, e), f), g)
    ensures |run| == 3 && run[0] == e
  {
    run := Two(c, s, e, f);
    Extend(c, s, run, g);
    run := run + [g];
  }

  // ----- a call that runs alone -----

  lemma SoloEviction(c: Config, s: State, id: CallId) returns (run: seq<Step>)
    requires id in s.calls && |s.lru| > c.maxSize
    requires s.calls[id].PutRanging? && s.calls[id].overflow == |s.lru| - c.maxSize
    ensures Possible(c, s, run)
    ensures Data(After(c, s, run)) == Spec.Evicted(Data(s), c.maxSize)
    ensures After(c, s, run).calls == s.calls[id := Finished] && After(c, s, run).now == s.now
    ensures After(c, s, run).readded == s.readded
  {
    hide Possible, After;
    var next := Continue(id, 0);
    assert Lowest(s.lru, |s.lru| - c.maxSize) != {};
    run := Three(c, s, next, next, next);
  }

  // SET, ZADD and ZCARD of a put.
  lemma PutAndCount(c: Config, s: State, id: CallId, key: Key, text: string) returns (run: seq<Step>, t: State)
    requires id !in s.calls
    ensures Possible(c, s, run) && After(c, s, run) == t
    ensures Spec.Evicted(Data(t), c.maxSize) == Spec.AfterPut(c, Data(s), key, text, s.now)
    ensures id in t.calls && t.calls[id := Finished] == s.calls[id := Finished] && t.now == s.now && t.readded == s.readded
    ensures |t.lru| <= c.maxSize ==> t.calls[id] == Finished
    ensures |t.lru| > c.maxSize ==> t.calls[id].PutRanging? && t.calls[id].overflow == |t.lru| - c.maxSize
  {
    hide *;
    var put, count := BeginPut(id, key, text, s.now), Continue(id, 0);
    AfterTheMulti(c, s, id, key, text);
    AfterTheCount(c, Apply(c, s, put), id);
    t := Apply(c, Apply(c, s, put), count);
    run := Two(c, s, put, count);
  }

  lemma AfterTheMulti(c: Config, s: State, id: CallId, key: Key, text: string)
    requires id !in s.calls
    ensures var put := BeginPut(id, key, text, s.now);
      && Enabled(s, put)
      && var u := Apply(c, s, put);
         && u.calls == s.calls[id := PutCounting] && u.now == s.now && u.readded == s.readded
         && Spec.Evicted(Data(u), c.maxSize) == Spec.AfterPut(c, Data(s), key, text, s.now)
  {
    var u := Apply(c, s, BeginPut(id, key, text, s.now));
    assert Data(u) == Spec.Stored(Data(s), key, Entry(text, s.now + c.ttl), s.now);
  }

  lemma AfterTheCount(c: Config, u: State, id: CallId)
    requires id in u.calls && u.calls[id] == PutCounting
    ensures var count := Continue(id, 0);
      && Enabled(u, count)
      && var t := Apply(c, u, count);
         && Data(t) == Data(u) && t.now == u.now && t.readded == u.readded
         && id in t.calls && t.calls[id := Finished] == u.calls[id := Finished]
         && (|t.lru| <= c.maxSize ==> t.calls[id] == Finished)
         && (|t.lru| > c.maxSize ==> t.calls[id].PutRanging? && t.calls[id].overflow == |t.lru| - c.maxSize)
  {
  }

  // The rest of a put, from the state its ZCARD left.
  lemma FinishPut(c: Config, s: State, id: CallId) returns (run: seq<Step>)
    requires id in s.calls
    requires |s.lru| <= c.maxSize ==> s.calls[id] == Finished
    requires |s.lru| > c.maxSize ==> s.calls[id].PutRanging? && s.calls[id].overflow == |s.lru| - c.maxSize
    ensures Possible(c, s, run)
    ensures Data(After(c, s, run)) == Spec.Evicted(Data(s), c.maxSize)
    ensures After(c, s, run).calls == s.calls[id := Finished] && After(c, s, run).now == s.now
    ensures After(c, s, run).readded == s.readded
  {
    if |s.lru| > c.maxSize {
      run := SoloEviction(c, s, id);
    } else {
      run := [];
      assert s.calls == s.calls[id := Finished];
    }
  }

  lemma SoloPut(c: Config, s: State, id: CallId, key: Key, text: string) returns (run: seq<Step>)
    requires id !in s.calls
    ensures Possible(c, s, run)
    ensures Data(After(c, s, run)) == Spec.AfterPut(c, Data(s), key, text, s.now)
    ensures After(c, s, run).calls == s.calls[id := Finished] && After(c, s, run).now == s.now
    ensures After(c, s, run).readded == s.readded
  {
    hide *;
    var begin, t := PutAndCount(c, s, id, key, text);
    var rest := FinishPut(c, t, id);
    Concat(c, s, begin, rest);
    run := begin + rest;
  }

  /**
   A put cut off after so many commands, as the cache object meets it, is the put that stops
   for ever after those steps; it is done exactly when the call has finished.
   */
  lemma CutOffPutIsPrefix(c: Config, s: State, id: CallId, key: Key, text: string, commands: nat)
    returns (run: seq<Step>)
    requires id !in s.calls
    ensures Possible(c, s, run) && |run| <= commands
    ensures Data(After(c, s, run)) == Spec.PutPrefix(c, Data(s), key, text, s.now, commands)
    ensures commands > 0 ==> id in After(c, s, run).calls
    ensures commands > 0 ==> (After(c, s, run).calls[id] == Finished <==> Spec.PutDone(c, Data(s), key, commands))
  {
    hide *;
    var put := BeginPut(id, key, text, s.now);
    AfterTheMulti(c, s, id, key, text);
    StoredByMulti(c, s, id, key, text);
    var u := Apply(c, s, put);
    DataIs(u);
    PrefixOf(c, s, u, key, text, commands);
    if commands == 0 {
      run := Nothing(c, s);
    } else if commands == 1 {
      run := One(c, s, put);
      PrefixIs(Data(u), c.maxSize, 0);
    } else {
      PrefixIs(Data(u), c.maxSize, commands - 1);
      AfterTheCount(c, u, id);
      DataIs(Apply(c, u, Continue(id, 0)));
      run := Two(c, s, put, Continue(id, 0));
      if commands > 2 && |u.lru| > c.maxSize {
        var rest := EvictionSteps(c, Apply(c, u, Continue(id, 0)), id, if commands > 5 then 3 else commands - 2);
        Concat(c, s, run, rest);
        run := run + rest;
      }
    }
  }

  lemma Nothing(c: Config, s: State) returns (run: seq<Step>)
    ensures Possible(c, s, run) && After(c, s, run) == s && run == []
  {
    run := [];
  }

  lemma StoredByMulti(c: Config, s: State, id: CallId, key: Key, text: string)
    requires id !in s.calls
    ensures Enabled(s, BeginPut(id, key, text, s.now))
    ensures var u := Apply(c, s, BeginPut(id, key, text, s.now));
      Data(u) == Spec.Stored(Data(s), key, Entry(text, s.now + c.ttl), s.now) && Data(u).lru == u.lru
  {
  }

  lemma PrefixOf(c: Config, s: State, u: State, key: Key, text: string, commands: nat)
    requires Data(u) == Spec.Stored(Data(s), key, Entry(text, s.now + c.ttl), s.now)
    ensures Spec.PutPrefix(c, Data(s), key, text, s.now, commands)
         == if commands == 0 then Data(s) else Spec.EvictPrefix(Data(u), c.maxSize, commands - 1)
    ensures Spec.PutDone(c, Data(s), key, commands) <==> commands >= if |u.lru| <= c.maxSize then 2 else 5
  {
    hide Spec.EvictPrefix;
    assert u.lru.Keys == s.lru.Keys + {key} && |u.lru| == |u.lru.Keys|;
  }

  lemma PrefixIs(s: Store, maxSize: nat, k: nat)
    ensures k < 3 || |s.lru| <= maxSize ==> Spec.EvictPrefix(s, maxSize, k) == s
    ensures k >= 4 ==> Spec.EvictPrefix(s, maxSize, k) == Spec.EvictPrefix(s, maxSize, 4)
  {
    hide Lowest;
  }

  // ZRANGE, DEL and ZREM, or the first of them.
  lemma EvictionSteps(c: Config, s: State, id: CallId, k: nat) returns (run: seq<Step>)
    requires id in s.calls && |s.lru| > c.maxSize && 1 <= k <= 3
    requires s.calls[id].PutRanging? && s.calls[id].overflow == |s.lru| - c.maxSize
    ensures Possible(c, s, run) && |run| == k && id in After(c, s, run).calls
    ensures Data(After(c, s, run)) == Spec.EvictPrefix(Data(s), c.maxSize, k + 1)
    ensures After(c, s, run).calls[id] == Finished <==> k == 3
  {
    hide Possible, After;
    var next := Continue(id, 0);
    assert Lowest(s.lru, |s.lru| - c.maxSize) != {};
    if k == 1 {
      run := One(c, s, next);
    } else if k == 2 {
      run := Two(c, s, next, next);
    } else {
      run := Three(c, s, next, next, next);
    }
  }

  lemma SoloGet(c: Config, s: State, id: CallId, key: Key) returns (run: seq<Step>)
    requires id !in s.calls
    ensures Possible(c, s, run)
    ensures Data(After(c, s, run)) == Spec.AfterGet(Data(s), key, s.now)
    ensures After(c, s, run).calls == s.calls[id := Finished] && After(c, s, run).now == s.now
  {
    hide Possible, After;
    var get, refresh := BeginGet(id, key), Continue(id, s.now);
    if Spec.Lookup(Data(s), key, s.now).Some? {
      run := Two(c, s, get, refresh);
    } else {
      run := One(c, s, get);
    }
  }

  lemma SoloInvalidate(c: Config, s: State, id: CallId, key: Key) returns (run: seq<Step>)
    requires id !in s.calls
    ensures Possible(c, s, run)
    ensures Data(After(c, s, run)) == Spec.AfterInvalidate(Data(s), key)
    ensures After(c, s, run).calls == s.calls[id := Finished] && After(c, s, run).now == s.now
  {
    hide Possible, After;
    var delete, remove := BeginInvalidate(id, key), Continue(id, 0);
    var t := s.(values := s.values - {key}, calls := s.calls[id := Invalidating(key)]);
    assert Apply(c, s, delete) == t;
    var u := t.(lru := t.lru - {key}, calls := t.calls[id := Finished]);
    assert Apply(c, t, remove) == u;
    run := Two(c, s, delete, remove);
    hide *;
    assert u.calls == s.calls[id := Finished];
  }

  lemma SoloClear(c: Config, s: State, id: CallId) returns (run: seq<Step>)
    requires id !in s.calls
    ensures Possible(c, s, run)
    ensures Data(After(c, s, run)) == Spec.AfterClear(Data(s))
    ensures After(c, s, run).calls == s.calls[id := Finished] && After(c, s, run).now == s.now
  {
    hide Possible, After;
    var begin, next := BeginClear(id), Continue(id, 0);
    if s.lru == map[] {
      run := Two(c, s, begin, next);
      assert s.values - s.lru.Keys == s.values;
    } else {
      run := Three(c, s, begin, next, next);
    }
  }

  /** Interleaving aside, the step system is the sequential cache. */
  lemma SoloIsSequential(c: Config, s: State, id: CallId, op: Spec.Op) returns (run: seq<Step>)
    requires id !in s.calls && op.now == s.now
    ensures Possible(c, s, run)
    ensures Data(After(c, s, run)) == Spec.Apply(c, Data(s), op)
    ensures After(c, s, run).calls == s.calls[id := Finished] && After(c, s, run).now == s.now
  {
    match op
    case Put(key, text, _) => run := SoloPut(c, s, id, key, text);
    case Get(key, _) => run := SoloGet(c, s, id, key);
    case Clear(_) => run := SoloClear(c, s, id);
    case Invalidate(key, _) => run := SoloInvalidate(c, s, id, key);
  }

  // ----- values outside the LRU set -----

  /**
   Call w is removing key k: it has sent, or will send, the command that takes k out of
   lru, and no DEL of k's value by it is still to come.
   */
  ghost predicate Removing(w: Call, k: Key) {
    match w
    case PutRemoving(victims, _) => k in victims
    case Invalidating(key) => k == key
    case ClearDeleting(keys) => k !in keys
    case ClearDropping => true
    case _ => false
  }

  ghost predicate Careful(s: State, e: Step) {
    e.BeginPut? ==> forall id | id in s.calls :: !Removing(s.calls[id], e.key)
  }

  ghost predicate AllCareful(c: Config, s: State, run: seq<Step>)
    requires Possible(c, s, run)
    decreases |run|
  {
    run == [] || (Careful(s, run[0]) && AllCareful(c, Apply(c, s, run[0]), run[1..]))
  }

  ghost predicate Tracked(s: State) {
    && s.values.Keys <= s.lru.Keys
    && forall id, k | id in s.calls && k in s.values :: !Removing(s.calls[id], k)
  }

  lemma StepKeepsTracked(c: Config, s: State, e: Step)
    requires Tracked(s) && Enabled(s, e) && Careful(s, e)
    ensures Tracked(Apply(c, s, e))
  {
    var t := Apply(c, s, e);
    if !e.Tick? {
      forall w, k | w in t.calls && k in t.values && w != e.id
        ensures !Removing(t.calls[w], k)
      {
        assert w in s.calls && t.calls[w] == s.calls[w];
      }
      if e.Continue? {
        var w := s.calls[e.id];
        forall k | k in t.values
          ensures k in t.lru && !Removing(t.calls[e.id], k)
        {
          assert k in s.values && !Removing(w, k);
        }
      }
    }
  }

  /** While no put lands inside a removal of its key, every stored value is in the LRU set. */
  lemma {:induction false} CarefulRunKeepsTracked(c: Config, s: State, run: seq<Step>)
    requires Tracked(s) && Possible(c, s, run) && AllCareful(c, s, run)
    ensures Tracked(After(c, s, run))
    decreases |run|
  {
    if run != [] {
      StepKeepsTracked(c, s, run[0]);
      CarefulRunKeepsTracked(c, Apply(c, s, run[0]), run[1..]);
    }
  }

  /**
   The condition is exact: a put that does land inside a removal of its key can always be
   followed by commands that leave its live value outside the LRU set, where neither
   eviction nor clear will find it.
   */
  lemma CarelessPutIsLost(c: Config, s: State, put: Step) returns (run: seq<Step>)
    requires c.ttl > 0 && put.BeginPut? && Enabled(s, put) && !Careful(s, put)
    ensures Possible(c, s, run) && run != [] && run[0] == put
    ensures var t := After(c, s, run);
      put.key in t.values && Live(t.values[put.key], t.now) && put.key !in t.lru
  {
    var id :| id in s.calls && Removing(s.calls[id], put.key);
    hide Possible, After;
    var next := Continue(id, 0);
    if s.calls[id].ClearDeleting? {
      run := Three(c, s, put, next, next);
    } else {
      run := Two(c, s, put, next);
    }
  }
}
