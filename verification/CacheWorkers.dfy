/**
 Any number of workers sharing one cache. Each Redis command is one step, so the
 commands of different calls interleave freely and a call may stop for ever between
 two of them (a crashed worker).
 */
module CacheWorkers {
  import opened Redis
  import opened Sets
  import Spec = CacheSpec

  type Config = Spec.Config

  type CallId = nat

  // Where a call stands: which command it has still to send.
  datatype Call =
    | PutCounting                                                 // SET and ZADD done, ZCARD next
    | PutRanging(overflow: nat, seen: set<CallId>)                // ZRANGE next
    | PutDeleting(victims: set<Key>, seen: set<CallId>)           // DEL next
    | PutRemoving(victims: set<Key>, seen: set<CallId>)           // ZREM next
    | Refreshing(key: Key)                                        // hit, ZADD next
    | Invalidating(key: Key)                                      // DEL done, ZREM next
    | ClearDeleting(keys: set<Key>)                               // ZRANGE done, DEL next
    | ClearDropping                                               // DEL of the sorted set next
    | Finished

  // values, lru and now are Redis; calls holds the workers' local variables. owed and
  // readded are history: owed is the set of calls that added a new member to lru and were
  // counted by no finished eviction yet; readded is the set of hits whose ZADD brought
  // back a key that was no longer a member. A put's seen is owed at its ZCARD.
  datatype State = State(
    now: int,
    values: map<Key, Entry>,
    lru: map<Key, int>,
    calls: map<CallId, Call>,
    owed: set<CallId>,
    readded: set<CallId>)

  datatype Step =
    | Tick(time: int)
    | BeginPut(id: CallId, key: Key, text: string, score: int)
    | BeginGet(id: CallId, key: Key)
    | BeginInvalidate(id: CallId, key: Key)
    | BeginClear(id: CallId)
    | Continue(id: CallId, score: int)    // the next command of a running call

  const EMPTY := State(0, map[], map[], map[], {}, {})

  predicate Enabled(s: State, e: Step) {
    match e
    case Tick(_) => true
    case Continue(id, _) => id in s.calls && s.calls[id] != Finished
    case _ => e.id !in s.calls
  }

  ghost function Apply(c: Config, s: State, e: Step): State
    requires Enabled(s, e)
  {
    match e
    case Tick(time) => s.(now := time)
    case BeginPut(id, key, text, score) =>
      s.(values := s.values[key := Entry(text, s.now + c.ttl)],
         lru := s.lru[key := score],
         calls := s.calls[id := PutCounting],
         owed := if key in s.lru then s.owed else s.owed + {id})
    case BeginGet(id, key) =>
      s.(calls := s.calls[id :=
        if key in s.values && Live(s.values[key], s.now) then Refreshing(key) else Finished])
    case BeginInvalidate(id, key) =>
      s.(values := s.values - {key}, calls := s.calls[id := Invalidating(key)])
    case BeginClear(id) =>
      s.(calls := s.calls[id := if s.lru == map[] then ClearDropping else ClearDeleting(s.lru.Keys)])
    case Continue(id, score) =>
      match s.calls[id]
      case PutCounting =>
        if |s.lru| <= c.maxSize then
          s.(calls := s.calls[id := Finished], owed := {})
        else
          s.(calls := s.calls[id := PutRanging(|s.lru| - c.maxSize, s.owed)])
      case PutRanging(overflow, seen) =>
        var low := Lowest(s.lru, overflow);
        if low == {} then
          s.(calls := s.calls[id := Finished], owed := s.owed - seen)
        else
          s.(calls := s.calls[id := PutDeleting(low, seen)])
      case PutDeleting(victims, seen) =>
        s.(values := s.values - victims, calls := s.calls[id := PutRemoving(victims, seen)])
      case PutRemoving(victims, seen) =>
        s.(lru := s.lru - victims, calls := s.calls[id := Finished], owed := s.owed - seen)
      case Refreshing(key) =>
        var back := key !in s.lru;
        s.(lru := s.lru[key := score],
           calls := s.calls[id := Finished],
           owed := if back then s.owed + {id} else s.owed,
           readded := if back then s.readded + {id} else s.readded)
      case Invalidating(key) =>
        s.(lru := s.lru - {key}, calls := s.calls[id := Finished])
      case ClearDeleting(keys) =>
        s.(values := s.values - keys, calls := s.calls[id := ClearDropping])
      case ClearDropping =>
        s.(lru := map[], calls := s.calls[id := Finished])
  }

  ghost predicate Possible(c: Config, s: State, run: seq<Step>)
    decreases |run|
  {
    run == [] || (Enabled(s, run[0]) && Possible(c, Apply(c, s, run[0]), run[1..]))
  }

  ghost function After(c: Config, s: State, run: seq<Step>): State
    requires Possible(c, s, run)
    decreases |run|
  {
    if run == [] then s else After(c, Apply(c, s, run[0]), run[1..])
  }

  // ----- the size bound -----

  predicate Holds(w: Call) { w.PutDeleting? || w.PutRemoving? }

  predicate InPut(w: Call) { w.PutCounting? || w.PutRanging? || Holds(w) }

  ghost function PutsInFlight(s: State): set<CallId> {
    set id | id in s.calls && InPut(s.calls[id])
  }

  ghost function Holders(calls: map<CallId, Call>): set<CallId> {
    set id | id in calls && Holds(calls[id])
  }

  ghost function Rangers(calls: map<CallId, Call>): set<CallId> {
    set id | id in calls && calls[id].PutRanging?
  }

  predicate Counted(w: Call) { Holds(w) || w.PutRanging? }

  function VictimsOf(calls: map<CallId, Call>, id: CallId): set<Key> {
    if id in calls && Holds(calls[id]) then calls[id].victims else {}
  }

  function SeenOf(calls: map<CallId, Call>, id: CallId): set<CallId> {
    if id in calls && Counted(calls[id]) then calls[id].seen else {}
  }

  ghost function Victims(calls: map<CallId, Call>, q: set<CallId>): set<Key> {
    set id, k | id in q && k in VictimsOf(calls, id) :: k
  }

  ghost function Seen(calls: map<CallId, Call>, q: set<CallId>): set<CallId> {
    set id, x | id in q && x in SeenOf(calls, id) :: x
  }

  // Additions that no eviction in q counted.
  ghost function Uncounted(s: State, q: set<CallId>): nat {
    |s.owed - Seen(s.calls, q)|
  }

  // Members left once the evictions in q have removed their victims.
  ghost function Residue(s: State, q: set<CallId>): nat {
    |s.lru.Keys - Victims(s.calls, q)|
  }

  function OverflowOf(calls: map<CallId, Call>, id: CallId): nat {
    if id in calls && calls[id].PutRanging? then calls[id].overflow else 0
  }

  // Some eviction in r, working from its older count, asks to remove enough by itself.
  ghost predicate Overtaken(s: State, r: set<CallId>, limit: nat) {
    exists id | id in r :: |s.lru| - OverflowOf(s.calls, id) <= limit
  }

  /**
   Let the evictions in q remove their victims and those in r still pick theirs: the set
   then has at most maxSize members beyond the additions none of these evictions counted,
   unless one eviction in r will already see to that by itself.
   */
  ghost predicate Settles(c: Config, s: State, q: set<CallId>, r: set<CallId>) {
    var limit := c.maxSize + Uncounted(s, q + r);
    Residue(s, q) <= limit || Overtaken(s, r, limit)
  }

  ghost predicate Bounded(c: Config, s: State) {
    forall q, r | q <= Holders(s.calls) && r <= Rangers(s.calls) :: Settles(c, s, q, r)
  }

  // Who may appear in the history: additions are charged to running puts or to hits that
  // brought a key back, and a running eviction has counted its own addition.
  ghost predicate Accounted(s: State) {
    && (forall x | x in s.owed :: (x in s.calls && InPut(s.calls[x])) || x in s.readded)
    && (forall id | id in s.readded :: id in s.calls && s.calls[id] == Finished)
    && (forall id, x | id in s.calls && x in SeenOf(s.calls, id) :: x in s.calls && !s.calls[x].Refreshing?)
    && (forall id | id in s.calls && Counted(s.calls[id]) && id in s.owed :: id in s.calls[id].seen)
  }

  ghost predicate Inv(c: Config, s: State) {
    Accounted(s) && Bounded(c, s)
  }

  // ----- every step keeps the bound -----

  lemma SameSets(calls: map<CallId, Call>, calls': map<CallId, Call>, q: set<CallId>)
    requires forall id | id in q :: VictimsOf(calls', id) == VictimsOf(calls, id)
    requires forall id | id in q :: SeenOf(calls', id) == SeenOf(calls, id)
    ensures Victims(calls', q) == Victims(calls, q) && Seen(calls', q) == Seen(calls, q)
  {
  }

  lemma OneMore(calls: map<CallId, Call>, q: set<CallId>, id: CallId)
    ensures Victims(calls, q + {id}) == Victims(calls, q) + VictimsOf(calls, id)
    ensures Seen(calls, q + {id}) == Seen(calls, q) + SeenOf(calls, id)
  {
  }

  // t follows s by a step of call id that leaves lru alone or shrinks it, and leaves owed.
  lemma QuietSettles(c: Config, s: State, t: State, q: set<CallId>, r: set<CallId>)
    requires Settles(c, s, q, r)
    requires forall id | id in q + r :: VictimsOf(t.calls, id) == VictimsOf(s.calls, id)
    requires forall id | id in q + r :: SeenOf(t.calls, id) == SeenOf(s.calls, id)
    requires forall id | id in r :: OverflowOf(t.calls, id) == OverflowOf(s.calls, id)
    requires t.lru.Keys <= s.lru.Keys && t.owed == s.owed
    ensures Settles(c, t, q, r)
  {
    SameSets(s.calls, t.calls, q);
    SameSets(s.calls, t.calls, q + r);
    SizeMonotone(t.lru.Keys - Victims(t.calls, q), s.lru.Keys - Victims(s.calls, q));
    SizeMonotone(t.lru.Keys, s.lru.Keys);
  }

  // One new member and one new entry in owed.
  lemma AddSettles(c: Config, s: State, t: State, id: CallId, key: Key, q: set<CallId>, r: set<CallId>)
    requires Settles(c, s, q, r)
    requires forall id | id in q + r :: VictimsOf(t.calls, id) == VictimsOf(s.calls, id)
    requires forall id | id in q + r :: SeenOf(t.calls, id) == SeenOf(s.calls, id)
    requires forall id | id in r :: OverflowOf(t.calls, id) == OverflowOf(s.calls, id)
    requires t.lru.Keys == s.lru.Keys + {key} && t.owed == s.owed + {id}
    requires id !in s.owed && id !in Seen(s.calls, q + r)
    ensures Settles(c, t, q, r)
  {
    SameSets(s.calls, t.calls, q);
    SameSets(s.calls, t.calls, q + r);
    UncountedGrows(s.owed, Seen(s.calls, q + r), id);
    SizeMonotone(t.lru.Keys - Victims(t.calls, q), (s.lru.Keys - Victims(s.calls, q)) + {key});
    SizeOfUnion(s.lru.Keys - Victims(s.calls, q), {key});
    SizeOfUnion(s.lru.Keys, {key});
    assert |t.lru| <= |s.lru| + 1;
  }

  lemma UncountedGrows(owed: set<CallId>, seen: set<CallId>, id: CallId)
    requires id !in owed && id !in seen
    ensures |(owed + {id}) - seen| == |owed - seen| + 1
  {
    assert (owed + {id}) - seen == (owed - seen) + {id};
  }

  // A call that is in no eviction before and after the step.
  predicate Outside(calls: map<CallId, Call>, calls': map<CallId, Call>, id: CallId) {
    && (id in calls ==> !Counted(calls[id]))
    && id in calls' && !Counted(calls'[id])
    && calls' == calls[id := calls'[id]]
  }

  lemma OutsideKeepsBounded(c: Config, s: State, t: State, id: CallId, key: Key)
    requires Bounded(c, s) && Outside(s.calls, t.calls, id)
    requires
      || (t.lru.Keys <= s.lru.Keys && t.owed == s.owed)
      || (&& t.lru.Keys == s.lru.Keys + {key} && t.owed == s.owed + {id}
          && id !in s.owed && id !in Seen(s.calls, s.calls.Keys))
    ensures Bounded(c, t)
  {
    SameEvictions(s.calls, t.calls, id);
    forall q, r | q <= Holders(t.calls) && r <= Rangers(t.calls)
      ensures Settles(c, t, q, r)
    {
      assert Settles(c, s, q, r);
      if t.lru.Keys <= s.lru.Keys && t.owed == s.owed {
        QuietSettles(c, s, t, q, r);
      } else {
        SeenGrows(s.calls, q + r);
        AddSettles(c, s, t, id, key, q, r);
      }
    }
  }

  lemma SameEvictions(calls: map<CallId, Call>, calls': map<CallId, Call>, id: CallId)
    requires Outside(calls, calls', id)
    ensures Holders(calls') == Holders(calls) && Rangers(calls') == Rangers(calls)
    ensures forall w :: VictimsOf(calls', w) == VictimsOf(calls, w)
    ensures forall w :: SeenOf(calls', w) == SeenOf(calls, w)
    ensures forall w :: OverflowOf(calls', w) == OverflowOf(calls, w)
  {
  }

  lemma SeenGrows(calls: map<CallId, Call>, q: set<CallId>)
    ensures Seen(calls, q) <= Seen(calls, calls.Keys)
  {
  }

  // ZCARD: a fresh count never exceeds what it asks to remove.
  lemma CountKeepsBounded(c: Config, s: State, t: State, id: CallId)
    requires Bounded(c, s)
    requires id in s.calls && s.calls[id] == PutCounting
    requires |s.lru| > c.maxSize
    requires t == s.(calls := s.calls[id := PutRanging(|s.lru| - c.maxSize, s.owed)])
    ensures Bounded(c, t)
  {
    assert Rangers(t.calls) == Rangers(s.calls) + {id} && Holders(t.calls) == Holders(s.calls);
    forall q, r | q <= Holders(t.calls) && r <= Rangers(t.calls)
      ensures Settles(c, t, q, r)
    {
      if id in r {
        assert |t.lru| - OverflowOf(t.calls, id) <= c.maxSize + Uncounted(t, q + r);
        assert Overtaken(t, r, c.maxSize + Uncounted(t, q + r));
      } else {
        assert Settles(c, s, q, r);
        assert id !in q;
        QuietSettles(c, s, t, q, r);
      }
    }
  }

  // ZRANGE: the victims are members, so removing them brings the count down by overflow.
  lemma RangeKeepsBounded(c: Config, s: State, t: State, id: CallId, low: set<Key>)
    requires Bounded(c, s)
    requires id in s.calls && s.calls[id].PutRanging?
    requires IsLowest(s.lru, s.calls[id].overflow, low)
    requires t == s.(calls := s.calls[id := PutDeleting(low, s.calls[id].seen)])
    ensures Bounded(c, t)
  {
    hide Settles, SeenOf, VictimsOf, OverflowOf;
    forall q, r | q <= Holders(t.calls) && r <= Rangers(t.calls)
      ensures Settles(c, t, q, r)
    {
      if id in q {
        RangeInstances(s.calls, t.calls, id, low, q - {id}, r);
        Instance(c, s, q - {id}, r + {id});
        RangeSettles(c, s, t, id, low, q - {id}, r);
        PutBack(q, id);
      } else {
        RangeInstances(s.calls, t.calls, id, low, q, r);
        Instance(c, s, q, r);
        assert SeenOf(s.calls, id) == s.calls[id].seen by { SeenIs(s.calls, id); }
        RangeElsewhere(s.calls, t.calls, id, low, q + r);
        QuietSettles(c, s, t, q, r);
      }
    }
  }

  lemma SeenIs(calls: map<CallId, Call>, id: CallId)
    requires id in calls && Counted(calls[id])
    ensures SeenOf(calls, id) == calls[id].seen
  {
  }

  lemma RangeElsewhere(calls: map<CallId, Call>, calls': map<CallId, Call>, id: CallId, low: set<Key>, q: set<CallId>)
    requires id in calls && calls' == calls[id := PutDeleting(low, SeenOf(calls, id))]
    requires id !in q
    ensures forall w | w in q ::
      && VictimsOf(calls', w) == VictimsOf(calls, w)
      && SeenOf(calls', w) == SeenOf(calls, w)
      && OverflowOf(calls', w) == OverflowOf(calls, w)
  {
  }

  lemma RangeInstances(calls: map<CallId, Call>, calls': map<CallId, Call>, id: CallId, low: set<Key>,
                       q: set<CallId>, r: set<CallId>)
    requires id in calls && calls[id].PutRanging?
    requires calls' == calls[id := PutDeleting(low, calls[id].seen)]
    requires q <= Holders(calls') && r <= Rangers(calls') && id !in q
    ensures q <= Holders(calls) && id !in r && r + {id} <= Rangers(calls)
  {
  }

  lemma PutBack(q: set<CallId>, id: CallId)
    requires id in q
    ensures (q - {id}) + {id} == q
  {
  }

  lemma Instance(c: Config, s: State, q: set<CallId>, r: set<CallId>)
    requires Bounded(c, s) && q <= Holders(s.calls) && r <= Rangers(s.calls)
    ensures Settles(c, s, q, r)
  {
  }

  lemma RangeSettles(c: Config, s: State, t: State, id: CallId, low: set<Key>, q: set<CallId>, r: set<CallId>)
    requires id in s.calls && s.calls[id].PutRanging?
    requires IsLowest(s.lru, s.calls[id].overflow, low)
    requires t == s.(calls := s.calls[id := PutDeleting(low, s.calls[id].seen)])
    requires id !in q && id !in r
    requires Settles(c, s, q, r + {id})
    ensures Settles(c, t, q + {id}, r)
  {
    RangeSets(s.calls, t.calls, id, low, q, r);
    RangeResidue(s.lru.Keys, Victims(s.calls, q), low);
    var limit := c.maxSize + Uncounted(s, q + (r + {id}));
    assert Uncounted(t, (q + {id}) + r) + c.maxSize == limit;
    if Residue(s, q) > limit {
      var w :| w in r + {id} && |s.lru| - OverflowOf(s.calls, w) <= limit;
      if w in r {
        assert Overtaken(t, r, limit);
      } else {
        assert Residue(t, q + {id}) <= limit;
      }
    }
  }

  lemma RangeResidue(members: set<Key>, gone: set<Key>, low: set<Key>)
    requires low <= members
    ensures |members - (gone + low)| <= |members - gone|
    ensures |members - (gone + low)| <= |members| - |low|
  {
    SizeMonotone(members - (gone + low), members - gone);
    SizeMonotone(members - (gone + low), members - low);
    SizeOfRemoval(members, low);
  }

  lemma RangeSets(calls: map<CallId, Call>, calls': map<CallId, Call>, id: CallId, low: set<Key>,
                  q: set<CallId>, r: set<CallId>)
    requires id in calls && calls[id].PutRanging?
    requires calls' == calls[id := PutDeleting(low, calls[id].seen)]
    requires id !in q
    ensures Victims(calls', q + {id}) == Victims(calls, q) + low
    ensures Seen(calls', (q + {id}) + r) == Seen(calls, q + (r + {id}))
    ensures forall w | w != id :: OverflowOf(calls', w) == OverflowOf(calls, w)
  {
    OneMore(calls', q, id);
    SameSets(calls, calls', q);
    assert (q + {id}) + r == q + (r + {id});
    SameSeen(calls, calls', q + (r + {id}));
  }

  lemma SameSeen(calls: map<CallId, Call>, calls': map<CallId, Call>, q: set<CallId>)
    requires forall id | id in q :: SeenOf(calls', id) == SeenOf(calls, id)
    ensures Seen(calls', q) == Seen(calls, q)
  {
  }

  // The end of an eviction: q with the finished eviction is an instance already settled.
  lemma RemoveKeepsBounded(c: Config, s: State, t: State, id: CallId)
    requires Bounded(c, s)
    requires id in s.calls && Holds(s.calls[id])
    requires t.calls == s.calls[id := Finished]
    requires t.lru == s.lru - s.calls[id].victims && t.owed == s.owed - s.calls[id].seen
    ensures Bounded(c, t)
  {
    assert Rangers(t.calls) == Rangers(s.calls) && Holders(t.calls) == Holders(s.calls) - {id};
    forall q, r | q <= Holders(t.calls) && r <= Rangers(t.calls)
      ensures Settles(c, t, q, r)
    {
      assert Settles(c, s, q + {id}, r);
      RemoveSettles(c, s, t, id, q, r);
    }
  }

  lemma RemoveSettles(c: Config, s: State, t: State, id: CallId, q: set<CallId>, r: set<CallId>)
    requires id in s.calls && Holds(s.calls[id])
    requires t.calls == s.calls[id := Finished]
    requires t.lru == s.lru - s.calls[id].victims && t.owed == s.owed - s.calls[id].seen
    requires id !in q + r
    requires Settles(c, s, q + {id}, r)
    ensures Settles(c, t, q, r)
  {
    RemoveSets(s.calls, t.calls, id, q, r);
    SubtractTwice(s.owed, s.calls[id].seen, Seen(t.calls, q + r));
    SubtractTwice(s.lru.Keys, s.calls[id].victims, Victims(t.calls, q));
    assert t.lru.Keys == s.lru.Keys - s.calls[id].victims;
    SizeMonotone(t.lru.Keys, s.lru.Keys);
    var limit := c.maxSize + Uncounted(s, (q + {id}) + r);
    assert limit == c.maxSize + Uncounted(t, q + r);
    if Residue(s, q + {id}) > limit {
      var w :| w in r && |s.lru| - OverflowOf(s.calls, w) <= limit;
      assert OverflowOf(t.calls, w) == OverflowOf(s.calls, w);
      assert Overtaken(t, r, limit);
    }
  }

  lemma SubtractTwice<T>(a: set<T>, b: set<T>, x: set<T>)
    ensures (a - b) - x == a - (x + b)
  {
  }

  lemma RemoveSets(calls: map<CallId, Call>, calls': map<CallId, Call>, id: CallId, q: set<CallId>, r: set<CallId>)
    requires id in calls && Holds(calls[id])
    requires calls' == calls[id := Finished]
    requires id !in q + r
    ensures Victims(calls, q + {id}) == Victims(calls', q) + calls[id].victims
    ensures Seen(calls, (q + {id}) + r) == Seen(calls', q + r) + calls[id].seen
  {
    assert (q + {id}) + r == (q + r) + {id};
    SameSets(calls, calls', q);
    SameSets(calls, calls', q + r);
    OneMore(calls, q, id);
    OneMore(calls, q + r, id);
  }

  // An eviction that found at most maxSize members, whatever it counted.
  lemma SmallIsBounded(c: Config, t: State)
    requires |t.lru| <= c.maxSize
    ensures Bounded(c, t)
  {
    forall q, r | q <= Holders(t.calls) && r <= Rangers(t.calls)
      ensures Settles(c, t, q, r)
    {
      SizeMonotone(t.lru.Keys - Victims(t.calls, q), t.lru.Keys);
    }
  }

  lemma DeleteKeepsBounded(c: Config, s: State, t: State, id: CallId)
    requires Bounded(c, s)
    requires id in s.calls && s.calls[id].PutDeleting?
    requires t.calls == s.calls[id := PutRemoving(s.calls[id].victims, s.calls[id].seen)]
    requires t.lru == s.lru && t.owed == s.owed
    ensures Bounded(c, t)
  {
    assert Rangers(t.calls) == Rangers(s.calls) && Holders(t.calls) == Holders(s.calls);
    forall q, r | q <= Holders(t.calls) && r <= Rangers(t.calls)
      ensures Settles(c, t, q, r)
    {
      assert Settles(c, s, q, r);
      QuietSettles(c, s, t, q, r);
    }
  }

  // The history of every other call is untouched by a step of id.
  lemma CallKeepsAccounted(s: State, t: State, id: CallId)
    requires Accounted(s)
    requires id in t.calls && t.calls == s.calls[id := t.calls[id]]
    requires !t.calls[id].Refreshing? || id !in s.calls
    requires t.readded <= s.readded + {id} && (id in t.readded ==> t.calls[id] == Finished)
    requires t.owed <= s.owed + {id} && s.readded <= t.readded
    requires id in t.owed ==> InPut(t.calls[id]) || id in t.readded
    requires id in t.owed && Counted(t.calls[id]) ==> id in t.calls[id].seen
    requires SeenOf(t.calls, id) <= SeenOf(s.calls, id) + s.owed
    requires id in s.calls && s.calls[id] == Finished ==> t.calls[id] == Finished
    requires t.owed <= s.owed || id !in s.calls || s.calls[id].Refreshing?
    ensures Accounted(t)
  {
    forall x | x in t.owed && x != id
      ensures (x in t.calls && InPut(t.calls[x])) || x in t.readded
    {
      assert x in s.owed;
    }
    forall w, x | w in t.calls && x in SeenOf(t.calls, w)
      ensures x in t.calls && !t.calls[x].Refreshing?
    {
      if w != id {
        assert x in SeenOf(s.calls, w);
      } else if x in s.owed {
        assert x in s.calls;
      }
    }
  }

  lemma StepKeepsAccounted(c: Config, s: State, e: Step)
    requires Accounted(s) && Enabled(s, e)
    ensures Accounted(Apply(c, s, e))
  {
    match e
    case Tick(_) =>
    case Continue(id, score) =>
      if InPut(s.calls[id]) {
        PutStepKeepsAccounted(c, s, id, score);
      } else {
        NotOwing(s, id);
        CallKeepsAccounted(s, Apply(c, s, e), id);
      }
    case _ =>
      NotOwing(s, e.id);
      CallKeepsAccounted(s, Apply(c, s, e), e.id);
  }

  lemma NotOwing(s: State, id: CallId)
    requires Accounted(s)
    requires id in s.calls ==> !InPut(s.calls[id]) && s.calls[id] != Finished
    ensures id !in s.owed && id !in s.readded
  {
  }

  lemma PutStepKeepsAccounted(c: Config, s: State, id: CallId, score: int)
    requires Accounted(s) && id in s.calls && InPut(s.calls[id])
    ensures Accounted(Apply(c, s, Continue(id, score)))
  {
    assert id !in s.readded;
    assert id in s.owed && Counted(s.calls[id]) ==> id in s.calls[id].seen;
    CallKeepsAccounted(s, Apply(c, s, Continue(id, score)), id);
  }

  lemma StepKeepsBounded(c: Config, s: State, e: Step)
    requires Inv(c, s) && Enabled(s, e)
    ensures Bounded(c, Apply(c, s, e))
  {
    var t := Apply(c, s, e);
    match e
    case Tick(_) =>
      forall q, r | q <= Holders(t.calls) && r <= Rangers(t.calls)
        ensures Settles(c, t, q, r)
      {
        Instance(c, s, q, r);
      }
    case Continue(id, score) =>
      if InPut(s.calls[id]) {
        PutStepKeepsBounded(c, s, id, score);
      } else {
        OtherStepKeepsBounded(c, s, id, score);
      }
    case BeginPut(id, key, _, _) =>
      NewToHistory(s, id);
      assert t.lru.Keys == s.lru.Keys + {key};
      OutsideKeepsBounded(c, s, t, id, key);
    case _ => OutsideKeepsBounded(c, s, t, e.id, 0);
  }

  lemma NewToHistory(s: State, id: CallId)
    requires Accounted(s)
    requires id in s.calls ==> s.calls[id].Refreshing?
    ensures id !in s.owed && id !in Seen(s.calls, s.calls.Keys)
  {
  }

  lemma PutStepKeepsBounded(c: Config, s: State, id: CallId, score: int)
    requires Inv(c, s) && id in s.calls && InPut(s.calls[id])
    ensures Bounded(c, Apply(c, s, Continue(id, score)))
  {
    var t := Apply(c, s, Continue(id, score));
    match s.calls[id]
    case PutCounting =>
      if |s.lru| <= c.maxSize {
        SmallIsBounded(c, t);
      } else {
        CountKeepsBounded(c, s, t, id);
      }
    case PutRanging(overflow, seen) => RangeStepKeepsBounded(c, s, id, score);
    case PutDeleting(victims, seen) => DeleteKeepsBounded(c, s, t, id);
    case PutRemoving(victims, seen) => RemoveKeepsBounded(c, s, t, id);
  }

  lemma OtherStepKeepsBounded(c: Config, s: State, id: CallId, score: int)
    requires Inv(c, s) && id in s.calls && !InPut(s.calls[id]) && s.calls[id] != Finished
    ensures Bounded(c, Apply(c, s, Continue(id, score)))
  {
    var t := Apply(c, s, Continue(id, score));
    if s.calls[id].Refreshing? {
      var key := s.calls[id].key;
      NewToHistory(s, id);
      assert t.lru.Keys == s.lru.Keys + {key};
      OutsideKeepsBounded(c, s, t, id, key);
    } else {
      OutsideKeepsBounded(c, s, t, id, 0);
    }
  }

  lemma RangeStepKeepsBounded(c: Config, s: State, id: CallId, score: int)
    requires Inv(c, s) && id in s.calls && s.calls[id].PutRanging?
    ensures Bounded(c, Apply(c, s, Continue(id, score)))
  {
    var t := Apply(c, s, Continue(id, score));
    var low := Lowest(s.lru, s.calls[id].overflow);
    var held := s.(calls := s.calls[id := PutDeleting(low, s.calls[id].seen)]);
    RangeKeepsBounded(c, s, held, id, low);
    if low == {} {
      assert t.lru == held.lru - low;
      RemoveKeepsBounded(c, held, t, id);
    }
  }

  lemma {:induction false} RunKeepsInv(c: Config, s: State, run: seq<Step>)
    requires Inv(c, s) && Possible(c, s, run)
    ensures Inv(c, After(c, s, run))
    decreases |run|
  {
    if run != [] {
      StepKeepsAccounted(c, s, run[0]);
      StepKeepsBounded(c, s, run[0]);
      RunKeepsInv(c, Apply(c, s, run[0]), run[1..]);
    }
  }

  lemma EmptyIsInv(c: Config)
    ensures Inv(c, EMPTY)
  {
    forall q, r | q <= Holders(EMPTY.calls) && r <= Rangers(EMPTY.calls)
      ensures Settles(c, EMPTY, q, r)
    {
      assert EMPTY.lru.Keys - Victims(EMPTY.calls, q) == {};
    }
  }

  // ----- what every run guarantees -----

  /**
   The overshoot bound: in every interleaving the LRU set exceeds maxSize by at most the
   puts still before the end of their eviction plus the hits that brought back an evicted
   key and were counted by no finished eviction since.
   */
  lemma OvershootBound(c: Config, run: seq<Step>)
    requires Possible(c, EMPTY, run)
    ensures var s := After(c, EMPTY, run);
      |s.lru| <= c.maxSize + |PutsInFlight(s)| + |s.readded * s.owed|
  {
    var s := After(c, EMPTY, run);
    EmptyIsInv(c);
    RunKeepsInv(c, EMPTY, run);
    SizeWithinOwed(c, s);
    SizeMonotone(s.owed, PutsInFlight(s) + (s.readded * s.owed));
    SizeOfUnion(PutsInFlight(s), s.readded * s.owed);
  }

  lemma SizeWithinOwed(c: Config, s: State)
    requires Inv(c, s)
    ensures |s.lru| <= c.maxSize + |s.owed|
  {
    Instance(c, s, {}, {});
    assert s.lru.Keys - Victims(s.calls, {}) == s.lru.Keys;
    assert s.owed - Seen(s.calls, {}) == s.owed;
  }

  /**
   With no put running, and every key that a hit brought back counted by an eviction since,
   the cache is within its size.
   */
  lemma QuiescentWithinSize(c: Config, run: seq<Step>)
    requires Possible(c, EMPTY, run)
    requires var s := After(c, EMPTY, run); PutsInFlight(s) == {} && s.readded * s.owed == {}
    ensures |After(c, EMPTY, run).lru| <= c.maxSize
  {
    OvershootBound(c, run);
  }

  /**
   Healing: when an eviction ends, nothing before its ZCARD counts any more. If every
   addition so far came before that ZCARD, the cache is back within its size, whatever
   other workers are doing.
   */
  lemma EvictionHeals(c: Config, run: seq<Step>, id: CallId, score: int)
    requires Possible(c, EMPTY, run)
    requires var s := After(c, EMPTY, run);
      id in s.calls && s.calls[id].PutRemoving? && s.owed <= s.calls[id].seen
    ensures |Apply(c, After(c, EMPTY, run), Continue(id, score)).lru| <= c.maxSize
  {
    var s := After(c, EMPTY, run);
    EmptyIsInv(c);
    RunKeepsInv(c, EMPTY, run);
    StepKeepsAccounted(c, s, Continue(id, score));
    StepKeepsBounded(c, s, Continue(id, score));
    SizeWithinOwed(c, Apply(c, s, Continue(id, score)));
  }
}
