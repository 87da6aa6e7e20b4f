/**
 Runs that take the cache down to its floor: puts that overlap, each with its own count of
 the same overflow.
 */
module OverlappingPuts {
  import opened Redis
  import opened Sets
  import opened CacheWorkers
  import opened CacheRaces
  import opened CacheOvershoot
  import opened CacheUndershoot
  import Spec = CacheSpec

  lemma {:induction false} WithinExtends(c: Config, s: State, run: seq<Step>, e: Step, p: nat, o: nat)
    requires Possible(c, s, run) && Within(c, s, run, p, o)
    requires Enabled(After(c, s, run), e) && !Removes(e)
    requires var t := Apply(c, After(c, s, run), e); |PutsInFlight(t)| <= p && |t.lru| <= c.maxSize + o
    ensures Possible(c, s, run + [e]) && Within(c, s, run + [e], p, o)
    ensures After(c, s, run + [e]) == Apply(c, After(c, s, run), e)
    decreases |run|
  {
    hide Apply, PutsInFlight, Removes;
    Extend(c, s, run, e);
    if run == [] {
      assert (run + [e])[1..] == [];
    } else {
      WithinExtends(c, Apply(c, s, run[0]), run[1..], e, p, o);
      assert (run + [e])[1..] == run[1..] + [e];
    }
  }

  // ----- the three phases -----

  // n late refreshes have overfilled the cache, and the puts have the calls from this one on.
  function FirstPut(c: Config, n: nat): CallId {
    n + n + c.maxSize
  }

  // Nobody but the p puts is running, and none of them has more than n + p members too many.
  ghost predicate Inside(c: Config, n: nat, p: nat, s: State) {
    && |s.lru| <= c.maxSize + n + p
    && forall id | id in s.calls :: InPut(s.calls[id]) ==> FirstPut(c, n) <= id < FirstPut(c, n) + p
  }

  // The first i puts have sent their ZCARD, with all p puts stored.
  ghost predicate CountedTo(c: Config, n: nat, p: nat, i: nat, s: State) {
    && Inside(c, n, p, s) && |s.lru| == c.maxSize + n + p
    && s.calls.Keys == Span(0, FirstPut(c, n) + p)
    && forall id | id in s.calls ::
         if id < FirstPut(c, n) then s.calls[id] == Finished
         else if id < FirstPut(c, n) + i then s.calls[id].PutRanging? && s.calls[id].overflow == n + p
         else s.calls[id] == PutCounting
  }

  // What i evictions of o members leave of size members.
  function Left(size: nat, o: nat, i: nat): nat {
    if i * o <= size then size - i * o else 0
  }

  // The first i puts have ended.
  ghost predicate EvictedTo(c: Config, n: nat, p: nat, i: nat, s: State) {
    && Inside(c, n, p, s) && |s.lru| == Left(c.maxSize + n + p, n + p, i)
    && s.calls.Keys == Span(0, FirstPut(c, n) + p)
    && forall id | id in s.calls ::
         if id < FirstPut(c, n) + i then s.calls[id] == Finished
         else s.calls[id].PutRanging? && s.calls[id].overflow == n + p
  }

  lemma InsideIsWithin(c: Config, n: nat, p: nat, s: State)
    requires Inside(c, n, p, s)
    ensures |PutsInFlight(s)| <= p && |s.lru| <= c.maxSize + (n + p)
  {
    hide Span;
    var a := FirstPut(c, n);
    SizeOfSpan(a, a + p);
    assert PutsInFlight(s) <= Span(a, a + p);
    SizeMonotone(PutsInFlight(s), Span(a, a + p));
  }

  lemma CrowdedIsInside(c: Config, n: nat, p: nat, i: nat, s: State)
    requires Crowded(c, n, i, s) && i <= p
    ensures Inside(c, n, p, s) && |s.lru| == c.maxSize + n + i
    ensures i == p ==> CountedTo(c, n, p, 0, s)
  {
    hide Span;
    SizeOfSpan(0, n + c.maxSize + i);
    assert |s.lru| == |s.lru.Keys|;
  }

  lemma CountOne(c: Config, n: nat, p: nat, i: nat, s: State) returns (e: Step)
    requires i < p && CountedTo(c, n, p, i, s)
    ensures Enabled(s, e) && !Removes(e) && CountedTo(c, n, p, i + 1, Apply(c, s, e))
  {
    hide Span, Lowest;
    e := Continue(FirstPut(c, n) + i, 0);
  }

  lemma CountedIsReady(c: Config, n: nat, p: nat, s: State)
    requires CountedTo(c, n, p, p, s)
    ensures EvictedTo(c, n, p, 0, s)
  {
  }

  // ----- one eviction, with its three commands -----

  // Call id has its victims, o members or all that are left, and the others wait.
  ghost predicate Removing(c: Config, n: nat, p: nat, i: nat, s: State) {
    var id := FirstPut(c, n) + i;
    && Inside(c, n, p, s) && |s.lru| == Left(c.maxSize + n + p, n + p, i)
    && s.calls.Keys == Span(0, FirstPut(c, n) + p)
    && (forall x | x in s.calls && x != id ::
          if x < id then s.calls[x] == Finished
          else s.calls[x].PutRanging? && s.calls[x].overflow == n + p)
    && id in s.calls && Holds(s.calls[id])
    && s.calls[id].victims <= s.lru.Keys
    && |s.calls[id].victims| == if n + p <= |s.lru| then n + p else |s.lru|
  }

  lemma RangeOne(c: Config, n: nat, p: nat, i: nat, s: State)
    requires i < p && EvictedTo(c, n, p, i, s) && s.lru != map[]
    ensures var e := Continue(FirstPut(c, n) + i, 0);
      Enabled(s, e) && Removing(c, n, p, i, Apply(c, s, e)) && Apply(c, s, e).calls[e.id].PutDeleting?
  {
    hide Span, Left;
    var id := FirstPut(c, n) + i;
    assert id in s.calls && s.calls[id].overflow == n + p;
    LowestIsSome(s.lru, n + p);
  }

  lemma LowestIsSome(z: map<Key, int>, n: nat)
    requires n > 0 && z != map[]
    ensures Lowest(z, n) != {} && Lowest(z, n) <= z.Keys
    ensures |Lowest(z, n)| == if n <= |z| then n else |z|
  {
    assert |z| > 0;
  }

  lemma DeleteOne(c: Config, n: nat, p: nat, i: nat, s: State)
    requires i < p && Removing(c, n, p, i, s) && s.calls[FirstPut(c, n) + i].PutDeleting?
    ensures var e := Continue(FirstPut(c, n) + i, 0);
      Enabled(s, e) && Removing(c, n, p, i, Apply(c, s, e)) && Apply(c, s, e).calls[e.id].PutRemoving?
  {
    hide Span, Left, Lowest;
  }

  lemma RemoveOne(c: Config, n: nat, p: nat, i: nat, s: State)
    requires i < p && Removing(c, n, p, i, s) && s.calls[FirstPut(c, n) + i].PutRemoving?
    ensures var e := Continue(FirstPut(c, n) + i, 0);
      Enabled(s, e) && EvictedTo(c, n, p, i + 1, Apply(c, s, e))
  {
    hide Span, Left, Lowest;
    var id := FirstPut(c, n) + i;
    var t := Apply(c, s, Continue(id, 0));
    assert t.lru.Keys == s.lru.Keys - s.calls[id].victims && |t.lru| == |t.lru.Keys|;
    SizeOfRemoval(s.lru.Keys, s.calls[id].victims);
    LeftAfter(c.maxSize + n + p, n + p, i);
  }

  lemma LeftAfter(size: nat, o: nat, i: nat)
    ensures var was := Left(size, o, i); Left(size, o, i + 1) == was - if o <= was then o else was
  {
    assert (i + 1) * o == i * o + o;
  }

  lemma NothingLeft(c: Config, n: nat, p: nat, i: nat, s: State)
    requires i < p && EvictedTo(c, n, p, i, s) && s.lru == map[]
    ensures var e := Continue(FirstPut(c, n) + i, 0);
      Enabled(s, e) && EvictedTo(c, n, p, i + 1, Apply(c, s, e))
  {
    hide Span, Left;
    var id := FirstPut(c, n) + i;
    assert id in s.calls && s.calls[id].PutRanging?;
    assert Lowest(s.lru, s.calls[id].overflow) <= {};
    LeftAfter(c.maxSize + n + p, n + p, i);
  }

  // ----- the run -----

  lemma {:induction false} BeginPuts(c: Config, n: nat, p: nat, i: nat, s: State) returns (run: seq<Step>)
    requires Crowded(c, n, 0, s) && i <= p
    ensures Possible(c, s, run) && Within(c, s, run, p, n + p) && Crowded(c, n, i, After(c, s, run))
    decreases i
  {
    hide Possible, After, Within, Apply, Crowded, Inside, PutsInFlight;
    if i == 0 {
      run := [];
      CrowdedIsInside(c, n, p, 0, s);
      InsideIsWithin(c, n, p, s);
      Nothing(c, s, p, n + p);
    } else {
      run := BeginPuts(c, n, p, i - 1, s);
      var t := After(c, s, run);
      var e := CrowdOne(c, n, i - 1, t);
      CrowdedIsInside(c, n, p, i, Apply(c, t, e));
      InsideIsWithin(c, n, p, Apply(c, t, e));
      WithinExtends(c, s, run, e, p, n + p);
      run := run + [e];
    }
  }

  lemma Nothing(c: Config, s: State, p: nat, o: nat)
    requires |PutsInFlight(s)| <= p && |s.lru| <= c.maxSize + o
    ensures Possible(c, s, []) && After(c, s, []) == s && Within(c, s, [], p, o)
  {
  }

  lemma {:induction false} CountPuts(c: Config, n: nat, p: nat, i: nat, s: State) returns (run: seq<Step>)
    requires Crowded(c, n, 0, s) && i <= p
    ensures Possible(c, s, run) && Within(c, s, run, p, n + p) && CountedTo(c, n, p, i, After(c, s, run))
    decreases i
  {
    hide *;
    if i == 0 {
      run := BeginPuts(c, n, p, p, s);
      CrowdedIsInside(c, n, p, p, After(c, s, run));
    } else {
      run := CountPuts(c, n, p, i - 1, s);
      var t := After(c, s, run);
      var e := CountOne(c, n, p, i - 1, t);
      CountedIsInside(c, n, p, i, Apply(c, t, e));
      InsideIsWithin(c, n, p, Apply(c, t, e));
      WithinExtends(c, s, run, e, p, n + p);
      run := run + [e];
    }
  }

  lemma CountedIsInside(c: Config, n: nat, p: nat, i: nat, s: State)
    requires CountedTo(c, n, p, i, s)
    ensures Inside(c, n, p, s)
  {
  }

  lemma {:induction false} EvictPuts(c: Config, n: nat, p: nat, i: nat, s: State) returns (run: seq<Step>)
    requires Crowded(c, n, 0, s) && i <= p
    ensures Possible(c, s, run) && Within(c, s, run, p, n + p) && EvictedTo(c, n, p, i, After(c, s, run))
    decreases i
  {
    hide *;
    if i == 0 {
      run := CountPuts(c, n, p, p, s);
      CountedIsReady(c, n, p, After(c, s, run));
    } else {
      run := EvictPuts(c, n, p, i - 1, s);
      run := EvictOne(c, n, p, i - 1, s, run);
    }
  }

  lemma EvictOne(c: Config, n: nat, p: nat, i: nat, s: State, past: seq<Step>) returns (run: seq<Step>)
    requires i < p && Possible(c, s, past) && Within(c, s, past, p, n + p)
    requires EvictedTo(c, n, p, i, After(c, s, past))
    ensures Possible(c, s, run) && Within(c, s, run, p, n + p) && EvictedTo(c, n, p, i + 1, After(c, s, run))
  {
    hide *;
    var e := Continue(FirstPut(c, n) + i, 0);
    if After(c, s, past).lru == map[] {
      NothingLeft(c, n, p, i, After(c, s, past));
      run := NextStep(c, n, p, i + 1, s, past, e);
    } else {
      RangeOne(c, n, p, i, After(c, s, past));
      run := NextStep(c, n, p, i, s, past, e);
      DeleteOne(c, n, p, i, After(c, s, run));
      run := NextStep(c, n, p, i, s, run, e);
      RemoveOne(c, n, p, i, After(c, s, run));
      run := NextStep(c, n, p, i + 1, s, run, e);
    }
  }

  lemma NextStep(c: Config, n: nat, p: nat, i: nat, s: State, past: seq<Step>, e: Step) returns (run: seq<Step>)
    requires Possible(c, s, past) && Within(c, s, past, p, n + p) && e.Continue? && Enabled(After(c, s, past), e)
    requires var t := Apply(c, After(c, s, past), e); Removing(c, n, p, i, t) || EvictedTo(c, n, p, i, t)
    ensures Possible(c, s, run) && Within(c, s, run, p, n + p)
    ensures After(c, s, run) == Apply(c, After(c, s, past), e)
  {
    hide Possible, After, Within, Apply, Inside;
    InsideIsWithin(c, n, p, Apply(c, After(c, s, past), e));
    WithinExtends(c, s, past, e, p, n + p);
    run := past + [e];
  }

  /**
   The floor is reached, so nothing higher holds: for every size and TTL, every number p > 0
   of overlapping puts and every overflow o >= p, some run from a full and idle cache stays
   within p and o and ends, with every call finished, at exactly max_size - (p - 1) o
   members, or at none at all where that is negative. Two overlapping puts are enough to
   leave less than max_size, and max_size + 1 of them to leave nothing at all.
   */
  lemma OverlappingPutsUndershoot(c: Config, p: nat, o: nat) returns (past: seq<Step>, run: seq<Step>)
    requires c.maxSize > 0 && c.ttl > 0 && 0 < p <= o
    ensures Possible(c, EMPTY, past) && FullAndIdle(c, After(c, EMPTY, past))
    ensures var s := After(c, EMPTY, past);
      && Possible(c, s, run) && Within(c, s, run, p, o)
      && var t := After(c, s, run);
         && (forall id | id in t.calls :: t.calls[id] == Finished)
         && |t.lru| == if o * (p - 1) <= c.maxSize then c.maxSize - o * (p - 1) else 0
  {
    hide *;
    var n := o - p;
    past := Crowd(c, n, 0);
    var s := After(c, EMPTY, past);
    CrowdedIsFull(c, n, s);
    run := EvictPuts(c, n, p, p, s);
    EvictedIsDone(c, n, p, After(c, s, run));
    assert p * o == o * (p - 1) + o;
  }

  lemma CrowdedIsFull(c: Config, n: nat, s: State)
    requires Crowded(c, n, 0, s)
    ensures FullAndIdle(c, s)
  {
    CrowdedIsInside(c, n, 0, 0, s);
  }

  lemma EvictedIsDone(c: Config, n: nat, p: nat, s: State)
    requires EvictedTo(c, n, p, p, s)
    ensures forall id | id in s.calls :: s.calls[id] == Finished
    ensures |s.lru| == if p * (n + p) <= c.maxSize + n + p then c.maxSize + n + p - p * (n + p) else 0
  {
  }
}
