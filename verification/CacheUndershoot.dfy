/**
 How far below its size the cache can fall: an eviction removes as many members as it found
 too many at its ZCARD, however many are left at its ZRANGE, so evictions that overlap
 remove too much. A floor over every run of puts and hits, and runs that reach it.
 */
module CacheUndershoot {
  import opened Redis
  import opened Sets
  import opened CacheWorkers
  import opened CacheRaces
  import opened CacheOvershoot
  import Spec = CacheSpec

  // ----- the count is stale -----

  // Call id sends no command in run.
  predicate Idle(run: seq<Step>, id: CallId) {
    forall i | 0 <= i < |run| :: !(run[i].Continue? && run[i].id == id)
  }

  lemma {:induction false} IdleCallStays(c: Config, s: State, run: seq<Step>, id: CallId)
    requires Possible(c, s, run) && id in s.calls && Idle(run, id)
    ensures id in After(c, s, run).calls && After(c, s, run).calls[id] == s.calls[id]
    decreases |run|
  {
    if run != [] {
      hide Lowest;
      var t := Apply(c, s, run[0]);
      assert id in t.calls && t.calls[id] == s.calls[id] by {
        assert !(run[0].Continue? && run[0].id == id);
      }
      IdleCallStays(c, t, run[1..], id);
    }
  }

  /**
   The stale count decides: between the ZCARD of an eviction and its ZRANGE anything may
   happen; the ZRANGE still takes as many members as there were too many at the ZCARD, or
   all that are left, the lowest ones at that moment.
   */
  lemma StaleCountDecides(c: Config, s: State, id: CallId, run: seq<Step>, a: int, b: int)
    requires id in s.calls && s.calls[id] == PutCounting && |s.lru| > c.maxSize
    requires Possible(c, Apply(c, s, Continue(id, a)), run) && Idle(run, id)
    ensures var t := After(c, Apply(c, s, Continue(id, a)), run);
      && Enabled(t, Continue(id, b))
      && var u, n := Apply(c, t, Continue(id, b)), |s.lru| - c.maxSize;
         if t.lru == map[] then u.calls[id] == Finished
         else
           && u.calls[id].PutDeleting? && IsLowest(t.lru, n, u.calls[id].victims)
           && |u.calls[id].victims| == if n <= |t.lru| then n else |t.lru|
  {
    IdleCallStays(c, Apply(c, s, Continue(id, a)), run, id);
    hide After, Possible;
    var t := After(c, Apply(c, s, Continue(id, a)), run);
    if t.lru != map[] {
      assert |t.lru| > 0;
    }
  }

  /** And what it took is deleted, and then removed, whatever happens before either command. */
  lemma VictimsGo(c: Config, s: State, id: CallId, run: seq<Step>, a: int)
    requires id in s.calls && Holds(s.calls[id])
    requires Possible(c, s, run) && Idle(run, id)
    ensures var w, t := s.calls[id], After(c, s, run);
      && Enabled(t, Continue(id, a))
      && var u := Apply(c, t, Continue(id, a));
         if w.PutDeleting? then
           u.values == t.values - w.victims && u.lru == t.lru && u.calls[id] == PutRemoving(w.victims, w.seen)
         else
           u.lru == t.lru - w.victims && u.values == t.values && u.calls[id] == Finished
  {
    hide After, Possible, Lowest;
    IdleCallStays(c, s, run, id);
  }

  // ----- sums over the evictions that still pick their victims -----

  ghost function Total(calls: map<CallId, Call>, r: set<CallId>): nat {
    if r == {} then 0
    else
      var id :| id in r;
      OverflowOf(calls, id) + Total(calls, r - {id})
  }

  lemma {:induction false} TotalWithout(calls: map<CallId, Call>, r: set<CallId>, id: CallId)
    requires id in r
    ensures Total(calls, r) == OverflowOf(calls, id) + Total(calls, r - {id})
  {
    hide OverflowOf;
    var x :| x in r && Total(calls, r) == OverflowOf(calls, x) + Total(calls, r - {x});
    if x != id {
      TotalWithout(calls, r - {x}, id);
      TotalWithout(calls, r - {id}, x);
      assert r - {x} - {id} == r - {id} - {x};
    }
  }

  lemma {:induction false} TotalAlike(calls: map<CallId, Call>, calls': map<CallId, Call>, r: set<CallId>)
    requires forall id | id in r :: OverflowOf(calls', id) == OverflowOf(calls, id)
    ensures Total(calls', r) == Total(calls, r)
  {
    if r != {} {
      hide OverflowOf;
      var id :| id in r;
      TotalWithout(calls, r, id);
      TotalWithout(calls', r, id);
      TotalAlike(calls, calls', r - {id});
    }
  }

  lemma {:induction false} TotalBound(calls: map<CallId, Call>, r: set<CallId>, o: nat)
    requires forall id | id in r :: OverflowOf(calls, id) <= o
    ensures Total(calls, r) <= o * |r|
  {
    if r != {} {
      hide OverflowOf;
      var id :| id in r;
      TotalWithout(calls, r, id);
      TotalBound(calls, r - {id}, o);
      OneMoreTime(o, |r - {id}|);
    }
  }

  lemma OneMoreTime(o: nat, n: nat)
    ensures o * (n + 1) == o * n + o
  {
  }

  lemma {:induction false} VictimsBound(calls: map<CallId, Call>, q: set<CallId>, o: nat)
    requires forall id | id in q :: |VictimsOf(calls, id)| <= o
    ensures |Victims(calls, q)| <= o * |q|
  {
    hide *;
    if q == {} {
      NoVictims(calls);
    } else {
      var id :| id in q;
      var rest := q - {id};
      VictimsBound(calls, rest, o);
      OneMore(calls, rest, id);
      assert rest + {id} == q;
      UnionBound(Victims(calls, rest), VictimsOf(calls, id), o, |rest|);
    }
  }

  lemma NoVictims(calls: map<CallId, Call>)
    ensures Victims(calls, {}) == {}
  {
  }

  lemma UnionBound(a: set<Key>, b: set<Key>, o: nat, n: nat)
    requires |a| <= o * n && |b| <= o
    ensures |a + b| <= o * (n + 1)
  {
    SizeOfUnion(a, b);
    OneMoreTime(o, n);
  }

  // ----- the floor -----

  // What is left of lru when all running evictions have removed what they ask for.
  ghost function Reserve(s: State): int {
    Residue(s, Holders(s.calls)) - Total(s.calls, Rangers(s.calls))
  }

  // A put or a hit, and if an eviction, one that asks for at most o members.
  predicate ModestCall(w: Call, o: nat) {
    match w
    case PutRanging(overflow, _) => overflow <= o
    case PutDeleting(victims, _) => |victims| <= o
    case PutRemoving(victims, _) => |victims| <= o
    case Invalidating(_) => false
    case ClearDeleting(_) => false
    case ClearDropping => false
    case _ => true
  }

  ghost predicate Modest(s: State, o: nat) {
    forall id | id in s.calls :: ModestCall(s.calls[id], o)
  }

  predicate Removes(e: Step) {
    e.BeginInvalidate? || e.BeginClear?
  }

  /** At most p puts in flight and at most o members too many, at every moment of a run without removals. */
  ghost predicate Within(c: Config, s: State, run: seq<Step>, p: nat, o: nat)
    requires Possible(c, s, run)
    decreases |run|
  {
    && |PutsInFlight(s)| <= p && |s.lru| <= c.maxSize + o
    && (run == [] || (!Removes(run[0]) && Within(c, Apply(c, s, run[0]), run[1..], p, o)))
  }

  // No eviction moves, and lru does not shrink.
  lemma QuietKeepsReserve(s: State, t: State)
    requires Holders(t.calls) == Holders(s.calls) && Rangers(t.calls) == Rangers(s.calls)
    requires forall id | id in Holders(s.calls) :: VictimsOf(t.calls, id) == VictimsOf(s.calls, id)
    requires forall id | id in Rangers(s.calls) :: OverflowOf(t.calls, id) == OverflowOf(s.calls, id)
    requires s.lru.Keys <= t.lru.Keys
    ensures Reserve(t) >= Reserve(s)
  {
    TotalAlike(s.calls, t.calls, Rangers(s.calls));
    assert Victims(t.calls, Holders(s.calls)) == Victims(s.calls, Holders(s.calls));
    var v := Victims(s.calls, Holders(s.calls));
    SizeMonotone(s.lru.Keys - v, t.lru.Keys - v);
  }

  // The evictions already counted can take at most o members each.
  lemma CountKeepsReserve(c: Config, s: State, id: CallId, score: int, p: nat, o: nat)
    requires Modest(s, o) && id in s.calls && s.calls[id].PutCounting?
    requires 0 < p && |PutsInFlight(s)| <= p && |s.lru| > c.maxSize
    ensures Reserve(Apply(c, s, Continue(id, score))) >= c.maxSize - o * (p - 1)
  {
    hide Reserve, Modest, Apply, PutsInFlight;
    CountMoves(c, s, id, score, o);
    EvictionsApart(s, id);
    ReserveAfterCount(c, s, Apply(c, s, Continue(id, score)), id, p, o);
  }

  lemma ReserveAfterCount(c: Config, s: State, t: State, id: CallId, p: nat, o: nat)
    requires t.lru == s.lru && |s.lru| > c.maxSize
    requires var h, r := Holders(s.calls), Rangers(s.calls);
      && Holders(t.calls) == h && Rangers(t.calls) == r + {id} && id !in r
      && OverflowOf(t.calls, id) == |s.lru| - c.maxSize
      && (forall x | x in r :: OverflowOf(t.calls, x) == OverflowOf(s.calls, x) <= o)
      && (forall x | x in h :: VictimsOf(t.calls, x) == VictimsOf(s.calls, x) && |VictimsOf(s.calls, x)| <= o)
      && |h| + |r| + 1 <= p
    ensures Reserve(t) >= c.maxSize - o * (p - 1)
  {
    hide *;
    var h, r := Holders(s.calls), Rangers(s.calls);
    NewRanger(s, t, id);
    TotalBound(s.calls, r, o);
    VictimsBound(s.calls, h, o);
    ResidueAtLeast(s, t, h);
    TimesGrows(o, |h| + |r|, p - 1);
    assert o * (|h| + |r|) == o * |h| + o * |r|;
    ReserveSplits(t);
  }

  lemma ReserveSplits(s: State)
    ensures Reserve(s) == Residue(s, Holders(s.calls)) - Total(s.calls, Rangers(s.calls))
  {
  }

  lemma CountMoves(c: Config, s: State, id: CallId, score: int, o: nat)
    requires Modest(s, o) && id in s.calls && s.calls[id].PutCounting? && |s.lru| > c.maxSize
    ensures var t := Apply(c, s, Continue(id, score)); var h, r := Holders(s.calls), Rangers(s.calls);
      && t.lru == s.lru && Holders(t.calls) == h && Rangers(t.calls) == r + {id} && id !in r
      && OverflowOf(t.calls, id) == |s.lru| - c.maxSize
      && (forall x | x in r :: OverflowOf(t.calls, x) == OverflowOf(s.calls, x) <= o)
      && (forall x | x in h :: VictimsOf(t.calls, x) == VictimsOf(s.calls, x) && |VictimsOf(s.calls, x)| <= o)
  {
    hide Lowest;
    assert forall x | x in s.calls :: ModestCall(s.calls[x], o);
  }

  lemma NewRanger(s: State, t: State, id: CallId)
    requires var r := Rangers(s.calls);
      && Rangers(t.calls) == r + {id} && id !in r
      && forall x | x in r :: OverflowOf(t.calls, x) == OverflowOf(s.calls, x)
    ensures Total(t.calls, Rangers(t.calls)) == OverflowOf(t.calls, id) + Total(s.calls, Rangers(s.calls))
  {
    hide *;
    var r := Rangers(s.calls);
    TotalWithout(t.calls, r + {id}, id);
    assert r + {id} - {id} == r;
    TotalAlike(s.calls, t.calls, r);
  }

  lemma ResidueAtLeast(s: State, t: State, q: set<CallId>)
    requires t.lru == s.lru && forall id | id in q :: VictimsOf(t.calls, id) == VictimsOf(s.calls, id)
    ensures Residue(t, q) >= |s.lru| - |Victims(s.calls, q)|
  {
    assert Victims(t.calls, q) == Victims(s.calls, q);
    var v := Victims(s.calls, q);
    assert s.lru.Keys <= (s.lru.Keys - v) + v;
    SizeMonotone(s.lru.Keys, (s.lru.Keys - v) + v);
    SizeOfUnion(s.lru.Keys - v, v);
  }

  lemma EvictionsApart(s: State, id: CallId)
    requires id in s.calls && s.calls[id].PutCounting?
    ensures |Holders(s.calls)| + |Rangers(s.calls)| + 1 <= |PutsInFlight(s)|
  {
    var h, r := Holders(s.calls), Rangers(s.calls);
    assert h !! r && id !in h + r;
    assert |h + r + {id}| == |h| + |r| + 1;
    SizeMonotone(h + r + {id}, PutsInFlight(s));
  }

  lemma TimesGrows(o: nat, a: nat, b: nat)
    requires a <= b
    ensures o * a <= o * b
  {
  }

  // Victims named instead of asked for.
  lemma RangeKeepsReserve(c: Config, s: State, id: CallId, score: int)
    requires id in s.calls && s.calls[id].PutRanging?
    ensures Reserve(Apply(c, s, Continue(id, score))) >= Reserve(s)
  {
    hide Residue, Total, Victims;
    var t, low := Apply(c, s, Continue(id, score)), Lowest(s.lru, s.calls[id].overflow);
    var h, r := Holders(s.calls), Rangers(s.calls);
    assert Rangers(t.calls) == r - {id};
    TotalWithout(s.calls, r, id);
    TotalAlike(s.calls, t.calls, r - {id});
    SameSets(s.calls, t.calls, h);
    if low == {} {
      assert Holders(t.calls) == h;
      ResidueAfterRange(s, t, h, h, {});
    } else {
      assert Holders(t.calls) == h + {id};
      OneMore(t.calls, h, id);
      ResidueAfterRange(s, t, h, h + {id}, low);
    }
  }

  lemma ResidueAfterRange(s: State, t: State, q: set<CallId>, q': set<CallId>, low: set<Key>)
    requires t.lru == s.lru && Victims(t.calls, q') == Victims(s.calls, q) + low
    ensures Residue(t, q') >= Residue(s, q) - |low|
  {
    hide Victims;
    var left := s.lru.Keys - Victims(s.calls, q);
    assert s.lru.Keys - Victims(t.calls, q') == left - low;
    SizeMonotone(left, (left - low) + low);
    SizeOfUnion(left - low, low);
  }

  lemma DeleteKeepsReserve(c: Config, s: State, id: CallId, score: int)
    requires id in s.calls && s.calls[id].PutDeleting?
    ensures Reserve(Apply(c, s, Continue(id, score))) >= Reserve(s)
  {
    hide Reserve, Lowest;
    QuietKeepsReserve(s, Apply(c, s, Continue(id, score)));
  }

  lemma RemoveKeepsReserve(c: Config, s: State, id: CallId, score: int)
    requires id in s.calls && s.calls[id].PutRemoving?
    ensures Reserve(Apply(c, s, Continue(id, score))) >= Reserve(s)
  {
    hide Total, Victims, Lowest;
    var t := Apply(c, s, Continue(id, score));
    var h, r := Holders(s.calls), Rangers(s.calls);
    assert Holders(t.calls) == h - {id} && Rangers(t.calls) == r;
    TotalAlike(s.calls, t.calls, r);
    OneMore(s.calls, h - {id}, id);
    assert h - {id} + {id} == h;
    SameSets(s.calls, t.calls, h - {id});
    var v, w := VictimsOf(s.calls, id), Victims(s.calls, h - {id});
    assert t.lru.Keys == s.lru.Keys - v;
    assert (s.lru.Keys - v) - w == s.lru.Keys - (w + v);
  }

  lemma OtherStepKeepsReserve(c: Config, s: State, e: Step, o: nat)
    requires Enabled(s, e) && !Removes(e) && Modest(s, o)
    requires e.Continue? ==> s.calls[e.id].Refreshing? || (s.calls[e.id].PutCounting? && |s.lru| <= c.maxSize)
    ensures Reserve(Apply(c, s, e)) >= Reserve(s)
  {
    hide Reserve, Lowest;
    QuietKeepsReserve(s, Apply(c, s, e));
  }

  lemma StepKeepsReserve(c: Config, s: State, e: Step, p: nat, o: nat)
    requires Enabled(s, e) && !Removes(e) && Modest(s, o)
    requires 0 < p && |PutsInFlight(s)| <= p
    requires Reserve(s) >= c.maxSize - o * (p - 1)
    ensures Reserve(Apply(c, s, e)) >= c.maxSize - o * (p - 1)
  {
    hide Reserve, Apply, PutsInFlight;
    if e.Continue? {
      var w := s.calls[e.id];
      assert ModestCall(w, o);
      if w.PutRanging? {
        RangeKeepsReserve(c, s, e.id, e.score);
      } else if w.PutDeleting? {
        DeleteKeepsReserve(c, s, e.id, e.score);
      } else if w.PutRemoving? {
        RemoveKeepsReserve(c, s, e.id, e.score);
      } else if w.PutCounting? && |s.lru| > c.maxSize {
        CountKeepsReserve(c, s, e.id, e.score, p, o);
      } else {
        OtherStepKeepsReserve(c, s, e, o);
      }
    } else {
      OtherStepKeepsReserve(c, s, e, o);
    }
  }

  lemma StepKeepsModest(c: Config, s: State, e: Step, o: nat)
    requires Enabled(s, e) && !Removes(e) && Modest(s, o) && |s.lru| <= c.maxSize + o
    ensures Modest(Apply(c, s, e), o)
  {
    var t := Apply(c, s, e);
    forall id | id in t.calls
      ensures ModestCall(t.calls[id], o)
    {
      if !e.Tick? && id == e.id {
        NextIsModest(c, s, e, o);
      } else {
        assert ModestCall(s.calls[id], o);
      }
    }
  }

  lemma NextIsModest(c: Config, s: State, e: Step, o: nat)
    requires Enabled(s, e) && !Removes(e) && !e.Tick? && |s.lru| <= c.maxSize + o
    requires e.id in s.calls ==> ModestCall(s.calls[e.id], o)
    ensures e.id in Apply(c, s, e).calls && ModestCall(Apply(c, s, e).calls[e.id], o)
  {
    hide Lowest, IsLowest;
    if e.Continue? && s.calls[e.id].PutRanging? {
      LowestIsFew(s.lru, s.calls[e.id].overflow);
    }
  }

  lemma LowestIsFew(z: map<Key, int>, n: nat)
    ensures |Lowest(z, n)| <= n
  {
  }

  lemma {:induction false} RunKeepsReserve(c: Config, s: State, run: seq<Step>, p: nat, o: nat)
    requires 0 < p && Possible(c, s, run) && Within(c, s, run, p, o)
    requires Modest(s, o) && Reserve(s) >= c.maxSize - o * (p - 1)
    ensures Reserve(After(c, s, run)) >= c.maxSize - o * (p - 1)
    decreases |run|
  {
    hide Modest, Reserve, Apply, PutsInFlight;
    if run != [] {
      StepKeepsModest(c, s, run[0], o);
      StepKeepsReserve(c, s, run[0], p, o);
      RunKeepsReserve(c, Apply(c, s, run[0]), run[1..], p, o);
    }
  }

  // Full, with nothing going on.
  ghost predicate FullAndIdle(c: Config, s: State) {
    |s.lru| >= c.maxSize && forall id | id in s.calls :: s.calls[id] == Finished
  }

  /**
   The floor: from a full cache, through any run of puts and hits with at most p puts in
   flight and at most o members too many at any moment, the cache never holds fewer than
   max_size - (p - 1) o members; with one put at a time it stays full.
   */
  lemma UndershootBound(c: Config, s: State, run: seq<Step>, p: nat, o: nat)
    requires FullAndIdle(c, s) && 0 < p && Possible(c, s, run) && Within(c, s, run, p, o)
    ensures |After(c, s, run).lru| >= c.maxSize - o * (p - 1)
  {
    assert o * (p - 1) >= 0;
    IdleReserve(s, o);
    RunKeepsReserve(c, s, run, p, o);
    var t := After(c, s, run);
    SizeMonotone(t.lru.Keys - Victims(t.calls, Holders(t.calls)), t.lru.Keys);
  }

  lemma IdleReserve(s: State, o: nat)
    requires forall id | id in s.calls :: s.calls[id] == Finished
    ensures Modest(s, o) && Reserve(s) == |s.lru|
  {
    assert Holders(s.calls) == {} && Rangers(s.calls) == {};
    NoVictims(s.calls);
    assert s.lru.Keys - {} == s.lru.Keys;
  }
}
