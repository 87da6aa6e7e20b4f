/**
 How far the LRU set really overshoots: which single commands take it past its size, and
 runs that attain the overshoot bound for every size, TTL and overshoot.
 */
module CacheOvershoot {
  import opened Redis
  import opened Sets
  import opened CacheWorkers
  import opened CacheRaces
  import Spec = CacheSpec

  // ----- one command -----

  predicate Zadd(s: State, e: Step)
    requires Enabled(s, e)
  {
    e.BeginPut? || (e.Continue? && s.calls[e.id].Refreshing?)
  }

  /** The key of a ZADD. */
  function Member(s: State, e: Step): Key
    requires Enabled(s, e) && Zadd(s, e)
  {
    if e.BeginPut? then e.key else s.calls[e.id].key
  }

  lemma ZaddAdds(c: Config, s: State, e: Step)
    requires Enabled(s, e) && Zadd(s, e)
    ensures Apply(c, s, e).lru.Keys == s.lru.Keys + {Member(s, e)}
  {
  }

  lemma OthersAddNothing(c: Config, s: State, e: Step)
    requires Enabled(s, e) && !Zadd(s, e)
    ensures Apply(c, s, e).lru.Keys <= s.lru.Keys
  {
    hide Lowest;
  }

  /**
   A command takes the set past its size exactly when the set is full and the command is a
   ZADD, of a put or of a hit, whose key is not a member: for a hit, its key was evicted or
   removed after the GET.
   */
  lemma StepOvershootsIff(c: Config, s: State, e: Step)
    requires Enabled(s, e) && |s.lru| <= c.maxSize
    ensures |Apply(c, s, e).lru| > c.maxSize
       <==> |s.lru| == c.maxSize && Zadd(s, e) && Member(s, e) !in s.lru
  {
    hide *;
    var t := Apply(c, s, e);
    assert |t.lru.Keys| == |t.lru| && |s.lru.Keys| == |s.lru|;
    if Zadd(s, e) {
      ZaddAdds(c, s, e);
      if Member(s, e) in s.lru {
        assert t.lru.Keys == s.lru.Keys;
      }
    } else {
      OthersAddNothing(c, s, e);
      SizeMonotone(t.lru.Keys, s.lru.Keys);
    }
  }

  // ----- intervals of keys and calls -----

  function Span(a: nat, b: nat): (r: set<nat>)
    ensures forall k: nat :: k in r <==> a <= k < b
    decreases b
  {
    if a < b then Span(a, b - 1) + {b - 1} else {}
  }

  lemma {:induction false} SizeOfSpan(a: nat, b: nat)
    requires a <= b
    ensures |Span(a, b)| == b - a
    decreases b
  {
    if a < b {
      SizeOfSpan(a, b - 1);
      assert Span(a, b) == Span(a, b - 1) + {b - 1};
    }
  }

  lemma SpanGrows(a: nat, b: nat)
    requires a <= b
    ensures Span(a, b + 1) == Span(a, b) + {b}
  {
  }

  lemma SpanJoins(a: nat, b: nat, c: nat)
    requires a <= b <= c
    ensures Span(a, b) + Span(b, c) == Span(a, c)
  {
    hide Span;
  }

  // ----- filling the cache while hits are held back -----

  function Low(c: Config, j: nat): nat {
    if j < c.maxSize then 0 else j - c.maxSize
  }

  // z holds the keys from a to b, all scored zero.
  predicate Flat(z: map<Key, int>, a: nat, b: nat) {
    z.Keys == Span(a, b) && forall k | k in z :: z[k] == 0
  }

  ghost predicate FlatStore(c: Config, j: nat, s: Store) {
    && Flat(s.lru, Low(c, j), j) && s.values.Keys == s.lru.Keys
    && forall k | k in s.values :: Live(s.values[k], 0)
  }

  // Keys 0, 1, .. j - 1 were put at time zero by calls n, n + 1, ..; the first h of them were
  // hit by calls 0, 1, .., whose ZADD is still to come.
  ghost predicate Filled(c: Config, n: nat, j: nat, h: nat, s: State) {
    && s.now == 0 && s.readded == {} && FlatStore(c, j, Data(s))
    && s.calls.Keys == Span(0, h) + Span(n, n + j)
    && forall id | id in s.calls :: s.calls[id] == if id < n then Refreshing(id) else Finished
  }

  lemma FlatLowest(z: map<Key, int>, a: nat, b: nat)
    requires a < b && Flat(z, a, b)
    ensures Lowest(z, 1) == {a} && Flat(z - {a}, a + 1, b)
  {
    hide Span, Lowest;
    assert a in z.Keys && |z| >= 1;
    assert IsLowest(z, 1, {a});
    LowestIsUnique(z, 1, Lowest(z, 1), {a});
  }

  lemma FlatAdd(z: map<Key, int>, a: nat, b: nat)
    requires a <= b && Flat(z, a, b)
    ensures Flat(z[b := 0], a, b + 1) && |z[b := 0]| == b + 1 - a
  {
    hide Span;
    SpanGrows(a, b);
    SizeOfSpan(a, b + 1);
    assert z[b := 0].Keys == Span(a, b + 1);
  }

  lemma FlatStored(c: Config, s: Store, j: nat)
    requires c.ttl > 0 && FlatStore(c, j, s)
    ensures var t := Spec.Stored(s, j, Entry("", c.ttl), 0);
      && Flat(t.lru, Low(c, j), j + 1) && |t.lru| == j + 1 - Low(c, j)
      && t.values.Keys == t.lru.Keys && forall k | k in t.values :: Live(t.values[k], 0)
  {
    hide Span, Flat;
    FlatAdd(s.lru, Low(c, j), j);
  }

  // The next put evicts the lowest key once the cache is full.
  lemma FlatPut(c: Config, s: Store, j: nat)
    requires c.maxSize > 0 && c.ttl > 0 && FlatStore(c, j, s)
    ensures FlatStore(c, j + 1, Spec.AfterPut(c, s, j, "", 0))
  {
    hide Span, Lowest, Flat, Spec.Stored;
    var t := Spec.Stored(s, j, Entry("", c.ttl), 0);
    FlatStored(c, s, j);
    if j >= c.maxSize {
      FlatLowest(t.lru, Low(c, j), j + 1);
    }
  }

  lemma FilledByPut(c: Config, n: nat, j: nat, h: nat, s: State, t: State)
    requires c.maxSize > 0 && c.ttl > 0 && h <= n && Filled(c, n, j, h, s)
    requires Data(t) == Spec.AfterPut(c, Data(s), j, "", 0)
    requires t.calls == s.calls[n + j := Finished] && t.now == 0 && t.readded == {}
    ensures Filled(c, n, j + 1, h, t)
  {
    hide Span, Spec.AfterPut, FlatStore;
    FlatPut(c, Data(s), j);
    SpanGrows(n, n + j);
  }

  lemma FilledByHit(c: Config, n: nat, j: nat, s: State)
    requires c.maxSize > 0 && j < n && Filled(c, n, j + 1, j, s)
    ensures Enabled(s, BeginGet(j, j)) && Filled(c, n, j + 1, j + 1, Apply(c, s, BeginGet(j, j)))
  {
    SpanGrows(0, j);
    hide Span;
    assert j in s.lru;
  }

  lemma FillOne(c: Config, n: nat, j: nat, h: nat, s: State) returns (run: seq<Step>)
    requires c.maxSize > 0 && c.ttl > 0 && h <= n && Filled(c, n, j, h, s)
    ensures Possible(c, s, run) && Filled(c, n, j + 1, h, After(c, s, run))
  {
    hide *;
    FreeId(c, n, j, h, s);
    run := SoloPut(c, s, n + j, j, "");
    FilledByPut(c, n, j, h, s, After(c, s, run));
  }

  lemma FreeId(c: Config, n: nat, j: nat, h: nat, s: State)
    requires h <= n && Filled(c, n, j, h, s)
    ensures n + j !in s.calls && s.now == 0 && s.readded == {}
  {
    hide Span;
  }

  lemma EmptyIsFilled(c: Config, n: nat)
    ensures Possible(c, EMPTY, []) && Filled(c, n, 0, 0, After(c, EMPTY, []))
  {
  }

  lemma {:induction false} Fill(c: Config, n: nat, j: nat) returns (run: seq<Step>)
    requires c.maxSize > 0 && c.ttl > 0
    ensures Possible(c, EMPTY, run) && Filled(c, n, j, if j < n then j else n, After(c, EMPTY, run))
  {
    hide *;
    if j == 0 {
      run := [];
      EmptyIsFilled(c, n);
    } else {
      run := Fill(c, n, j - 1);
      var more := FillOne(c, n, j - 1, if j - 1 < n then j - 1 else n, After(c, EMPTY, run));
      Concat(c, EMPTY, run, more);
      run := run + more;
      if j - 1 < n {
        FilledByHit(c, n, j - 1, After(c, EMPTY, run));
        Extend(c, EMPTY, run, BeginGet(j - 1, j - 1));
        run := run + [BeginGet(j - 1, j - 1)];
      }
    }
  }

  // ----- the held-back hits come through -----

  // The first i of the n evicted keys are back, by their hits.
  ghost predicate Late(c: Config, n: nat, i: nat, s: State) {
    && s.readded == Span(0, i)
    && s.lru.Keys == Span(0, i) + Span(n, n + c.maxSize) && s.values.Keys == Span(n, n + c.maxSize)
    && s.calls.Keys == Span(0, n + n + c.maxSize)
    && forall id | id in s.calls :: s.calls[id] == if i <= id < n then Refreshing(id) else Finished
  }

  lemma LateAdds(c: Config, s: State, i: nat)
    requires i in s.calls && s.calls[i] == Refreshing(i) && i !in s.lru
    ensures var t := Apply(c, s, Continue(i, 0));
      && t.lru.Keys == s.lru.Keys + {i} && t.values == s.values
      && t.calls == s.calls[i := Finished] && t.readded == s.readded + {i}
  {
  }

  lemma LateOne(c: Config, n: nat, i: nat, s: State)
    requires i < n && Late(c, n, i, s)
    ensures Enabled(s, Continue(i, 0)) && Late(c, n, i + 1, Apply(c, s, Continue(i, 0)))
  {
    hide Span, Apply;
    SpanGrows(0, i);
    LateAdds(c, s, i);
  }

  lemma FilledIsLate(c: Config, n: nat, s: State)
    requires Filled(c, n, n + c.maxSize, n, s)
    ensures Late(c, n, 0, s)
  {
    hide Span;
    SpanJoins(0, n, n + n + c.maxSize);
  }

  lemma {:induction false} Refresh(c: Config, n: nat, i: nat) returns (run: seq<Step>)
    requires c.maxSize > 0 && c.ttl > 0 && i <= n
    ensures Possible(c, EMPTY, run) && Late(c, n, i, After(c, EMPTY, run))
  {
    hide *;
    if i == 0 {
      run := Fill(c, n, n + c.maxSize);
      FilledIsLate(c, n, After(c, EMPTY, run));
    } else {
      run := Refresh(c, n, i - 1);
      LateOne(c, n, i - 1, After(c, EMPTY, run));
      Extend(c, EMPTY, run, Continue(i - 1, 0));
      run := run + [Continue(i - 1, 0)];
    }
  }

  // ----- and more puts begin -----

  // All n evicted keys are back, and p puts of new keys wait for their ZCARD.
  ghost predicate Crowded(c: Config, n: nat, p: nat, s: State) {
    var calls := n + n + c.maxSize;
    && s.readded == Span(0, n)
    && s.lru.Keys == Span(0, n + c.maxSize + p) && s.values.Keys == Span(n, n + c.maxSize + p)
    && s.calls.Keys == Span(0, calls + p)
    && forall id | id in s.calls :: s.calls[id] == if id < calls then Finished else PutCounting
  }

  lemma PutAdds(c: Config, s: State, id: CallId, key: Key)
    requires id !in s.calls
    ensures var t := Apply(c, s, BeginPut(id, key, "", 0));
      && t.lru.Keys == s.lru.Keys + {key} && t.values.Keys == s.values.Keys + {key}
      && t.calls == s.calls[id := PutCounting] && t.readded == s.readded
  {
  }

  lemma CrowdOne(c: Config, n: nat, p: nat, s: State) returns (e: Step)
    requires Crowded(c, n, p, s)
    ensures e.BeginPut? && Enabled(s, e) && Crowded(c, n, p + 1, Apply(c, s, e))
  {
    hide Span;
    var key, id := n + c.maxSize + p, n + n + c.maxSize + p;
    e := BeginPut(id, key, "", 0);
    SpanGrows(0, id);
    SpanGrows(0, key);
    SpanGrows(n, key);
    PutAdds(c, s, id, key);
    hide Apply;
  }

  lemma LateIsCrowded(c: Config, n: nat, s: State)
    requires Late(c, n, n, s)
    ensures Crowded(c, n, 0, s)
  {
    hide Span;
    SpanJoins(0, n, n + c.maxSize);
  }

  lemma {:induction false} Crowd(c: Config, n: nat, p: nat) returns (run: seq<Step>)
    requires c.maxSize > 0 && c.ttl > 0
    ensures Possible(c, EMPTY, run) && Crowded(c, n, p, After(c, EMPTY, run))
  {
    hide *;
    if p == 0 {
      run := Refresh(c, n, n);
      LateIsCrowded(c, n, After(c, EMPTY, run));
    } else {
      run := Crowd(c, n, p - 1);
      var e := CrowdOne(c, n, p - 1, After(c, EMPTY, run));
      Extend(c, EMPTY, run, e);
      run := run + [e];
    }
  }

  /**
   The overshoot bound is attained, so nothing smaller holds: for every size and TTL, every
   number p of puts and every number n of late refreshes some run leaves exactly
   max_size + p + n members, n of them without a value. With p = 0 every call has finished,
   so the overshoot at rest has no limit and nothing is left to repair it.
   */
  lemma LateRefreshOvershoots(c: Config, n: nat, p: nat) returns (run: seq<Step>, phantoms: set<Key>)
    requires c.maxSize > 0 && c.ttl > 0
    ensures Possible(c, EMPTY, run)
    ensures var s := After(c, EMPTY, run);
      && |PutsInFlight(s)| == p && |s.readded * s.owed| == n
      && |s.lru| == c.maxSize + p + n
      && |phantoms| == n && (forall k | k in phantoms :: k in s.lru && k !in s.values)
      && (p == 0 ==> forall id | id in s.calls :: s.calls[id] == Finished)
  {
    hide *;
    run := Crowd(c, n, p);
    OvershootBound(c, run);
    var s := After(c, EMPTY, run);
    CrowdedPuts(c, n, p, s);
    CrowdedKeys(c, n, p, s);
    phantoms := CrowdedPhantoms(c, n, p, s);
    SizeMonotone(s.readded * s.owed, s.readded);
  }

  lemma CrowdedPuts(c: Config, n: nat, p: nat, s: State)
    requires Crowded(c, n, p, s)
    ensures |PutsInFlight(s)| == p
    ensures p == 0 ==> forall id | id in s.calls :: s.calls[id] == Finished
  {
    hide Span;
    var calls := n + n + c.maxSize;
    SizeOfSpan(calls, calls + p);
    assert PutsInFlight(s) == Span(calls, calls + p);
  }

  lemma CrowdedKeys(c: Config, n: nat, p: nat, s: State)
    requires Crowded(c, n, p, s)
    ensures |s.readded| == n && |s.lru| == c.maxSize + p + n
  {
    hide Span, Low;
    SizeOfSpan(0, n + c.maxSize + p);
    SizeOfSpan(0, n);
    assert |s.lru| == |s.lru.Keys|;
  }

  lemma CrowdedPhantoms(c: Config, n: nat, p: nat, s: State) returns (phantoms: set<Key>)
    requires Crowded(c, n, p, s)
    ensures |phantoms| == n && forall k | k in phantoms :: k in s.lru && k !in s.values
  {
    hide Span;
    phantoms := Span(0, n);
    SizeOfSpan(0, n);
  }
}
