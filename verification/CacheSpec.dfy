/**
 What one worker's cache operations do to the Redis data, as functions, and two
 reference definitions: the textbook LRU list and the history of touches.
 */
module CacheSpec {
  import opened Wrappers
  import opened Redis
  import opened Sets
  import opened Recency

  datatype Config = Config(maxSize: nat, ttl: nat)

  datatype Op =
    | Get(key: Key, now: int)
    | Put(key: Key, text: string, now: int)
    | Invalidate(key: Key, now: int)
    | Clear(now: int)

  const EMPTY := Store(map[], map[])

  // ----- the operations -----

  function Lookup(s: Store, k: Key, now: int): Option<string> {
    if k in s.values && Live(s.values[k], now) then Some(s.values[k].text) else None
  }

  function AfterGet(s: Store, k: Key, now: int): Store {
    if Lookup(s, k, now).Some? then s.(lru := s.lru[k := now]) else s
  }

  ghost function Evicted(s: Store, maxSize: nat): Store {
    if |s.lru| <= maxSize then s
    else
      var victims := Lowest(s.lru, |s.lru| - maxSize);
      Store(s.values - victims, s.lru - victims)
  }

  // The MULTI block of a put: SET and ZADD, before any eviction.
  function Stored(s: Store, k: Key, e: Entry, now: int): Store {
    Store(s.values[k := e], s.lru[k := now])
  }

  ghost function AfterPut(c: Config, s: Store, k: Key, text: string, now: int): Store {
    Evicted(Stored(s, k, Entry(text, now + c.ttl), now), c.maxSize)
  }

  // An eviction, and a put, of which Redis carries out so many commands and no more.
  ghost function EvictPrefix(s: Store, maxSize: nat, commands: nat): Store {
    if |s.lru| <= maxSize || commands < 3 then s
    else
      var victims := Lowest(s.lru, |s.lru| - maxSize);
      Store(s.values - victims, if commands == 3 then s.lru else s.lru - victims)
  }

  ghost function PutPrefix(c: Config, s: Store, k: Key, text: string, now: int, commands: nat): Store {
    if commands == 0 then s else EvictPrefix(Stored(s, k, Entry(text, now + c.ttl), now), c.maxSize, commands - 1)
  }

  /** MULTI and ZCARD are enough for a put within the size; ZRANGE, DEL and ZREM follow beyond it. */
  predicate PutDone(c: Config, s: Store, k: Key, commands: nat) {
    commands >= if |s.lru.Keys + {k}| <= c.maxSize then 2 else 5
  }

  lemma DonePutIsPut(c: Config, s: Store, k: Key, text: string, now: int, commands: nat)
    requires PutDone(c, s, k, commands)
    ensures PutPrefix(c, s, k, text, now, commands) == AfterPut(c, s, k, text, now)
  {
    hide Lowest;
    var u := Stored(s, k, Entry(text, now + c.ttl), now);
    assert u.lru.Keys == s.lru.Keys + {k} && |u.lru| == |u.lru.Keys|;
    DoneEvictionIsEviction(u, c.maxSize, commands - 1);
    hide EvictPrefix, Evicted;
  }

  lemma DoneEvictionIsEviction(u: Store, maxSize: nat, commands: nat)
    requires commands >= if |u.lru| <= maxSize then 1 else 4
    ensures EvictPrefix(u, maxSize, commands) == Evicted(u, maxSize)
  {
    hide Lowest;
  }

  function AfterInvalidate(s: Store, k: Key): Store {
    Store(s.values - {k}, s.lru - {k})
  }

  function AfterClear(s: Store): Store {
    Store(s.values - s.lru.Keys, map[])
  }

  ghost function Apply(c: Config, s: Store, op: Op): Store {
    match op
    case Get(k, now) => AfterGet(s, k, now)
    case Put(k, text, now) => AfterPut(c, s, k, text, now)
    case Invalidate(k, _) => AfterInvalidate(s, k)
    case Clear(_) => AfterClear(s)
  }

  ghost function RunFrom(c: Config, s: Store, ops: seq<Op>): Store {
    if ops == [] then s else Apply(c, RunFrom(c, s, ops[..|ops| - 1]), ops[|ops| - 1])
  }

  ghost function Run(c: Config, ops: seq<Op>): Store {
    RunFrom(c, EMPTY, ops)
  }

  lemma {:induction false} RunFromSum(c: Config, s: Store, a: seq<Op>, b: seq<Op>)
    ensures RunFrom(c, s, a + b) == RunFrom(c, RunFrom(c, s, a), b)
    decreases |b|
  {
    if b == [] {
      assert a + b == a;
    } else {
      var n := |b| - 1;
      assert (a + b)[..|a| + n] == a + b[..n];
      RunFromSum(c, s, a, b[..n]);
    }
  }

  // Operation times never repeat, so no two touches share a score.
  predicate Increasing(ops: seq<Op>) {
    forall i, j | 0 <= i < j < |ops| :: ops[i].now < ops[j].now
  }

  // ----- reference 1: the LRU list, most recently used key first -----

  // latest is the last text put under each key, remembered even after an eviction.
  datatype Lru = Lru(recency: seq<Key>, latest: map<Key, Entry>)

  function LruLookup(l: Lru, k: Key, now: int): Option<string> {
    if k in l.recency && k in l.latest && Live(l.latest[k], now) then Some(l.latest[k].text) else None
  }

  function LruApply(c: Config, l: Lru, op: Op): Lru {
    match op
    case Get(k, now) =>
      if LruLookup(l, k, now).Some? then l.(recency := MoveToFront(l.recency, k)) else l
    case Put(k, text, now) =>
      Lru(AtMost(MoveToFront(l.recency, k), c.maxSize), l.latest[k := Entry(text, now + c.ttl)])
    case Invalidate(k, _) => l.(recency := Without(l.recency, k))
    case Clear(_) => l.(recency := [])
  }

  function LruRun(c: Config, ops: seq<Op>): Lru {
    if ops == [] then Lru([], map[]) else LruApply(c, LruRun(c, ops[..|ops| - 1]), ops[|ops| - 1])
  }

  ghost predicate Descending(recency: seq<Key>, z: map<Key, int>)
    requires forall k | k in recency :: k in z
  {
    forall i, j | 0 <= i < j < |recency| :: z[recency[i]] > z[recency[j]]
  }

  // The sorted set holds the list's keys, scored in list order, all before now; each of
  // them has the list's text.
  ghost predicate Represents(maxSize: nat, l: Lru, s: Store, now: int) {
    && Distinct(l.recency)
    && |l.recency| <= maxSize
    && (forall k :: k in s.lru <==> k in l.recency)
    && Descending(l.recency, s.lru)
    && (forall k | k in s.lru :: s.lru[k] <= now)
    && (forall k | k in s.lru :: k in s.values && k in l.latest && s.values[k] == l.latest[k])
    && s.values.Keys <= s.lru.Keys
  }

  lemma SizeOfRepresented(maxSize: nat, l: Lru, s: Store, now: int)
    requires Represents(maxSize, l, s, now)
    ensures |s.lru| == |l.recency|
  {
    assert s.lru.Keys == Elements(l.recency);
    SizeOfElements(l.recency);
  }

  lemma LowestIsLast(recency: seq<Key>, z: map<Key, int>)
    requires recency != [] && Distinct(recency)
    requires forall k :: k in z <==> k in recency
    requires Descending(recency, z)
    ensures Lowest(z, 1) == {recency[|recency| - 1]}
  {
    var last := recency[|recency| - 1];
    assert last in z;
    assert |z| >= 1 by { assert {last} <= z.Keys; SizeMonotone({last}, z.Keys); }
    assert IsLowest(z, 1, {last});
    LowestIsUnique(z, 1, Lowest(z, 1), {last});
  }

  lemma DropLast(n: nat, l: Lru, s: Store, now: int)
    requires Represents(n + 1, l, s, now) && |l.recency| == n + 1
    ensures var last := l.recency[n];
      Represents(n, l.(recency := l.recency[..n]), Store(s.values - {last}, s.lru - {last}), now)
  {
    var last, kept := l.recency[n], l.recency[..n];
    forall k
      ensures k in kept <==> k in l.recency && k != last
    {
      if k in l.recency && k != last {
        var i :| 0 <= i < |l.recency| && l.recency[i] == k;
        assert kept[i] == k;
      }
    }
    var z := s.lru - {last};
    forall k
      ensures k in z <==> k in kept
    {
      assert k in s.lru <==> k in l.recency;
    }
    forall i, j | 0 <= i < j < n
      ensures kept[i] in z && kept[j] in z && z[kept[i]] > z[kept[j]]
    {
      assert kept[i] in kept && kept[j] in kept;
      assert z[kept[i]] == s.lru[l.recency[i]] && z[kept[j]] == s.lru[l.recency[j]];
    }
  }

  // The member with the lowest score is the last of the list, so evicting one key from
  // the set is truncating the list.
  lemma EvictionTruncates(c: Config, l: Lru, s: Store, l': Lru, s': Store, now: int)
    requires c.maxSize > 0
    requires Represents(c.maxSize + 1, l, s, now)
    requires l' == Lru(AtMost(l.recency, c.maxSize), l.latest) && s' == Evicted(s, c.maxSize)
    ensures Represents(c.maxSize, l', s', now)
  {
    SizeOfRepresented(c.maxSize + 1, l, s, now);
    if |l.recency| == c.maxSize + 1 {
      LowestIsLast(l.recency, s.lru);
      DropLast(c.maxSize, l, s, now);
      assert l' == l.(recency := l.recency[..c.maxSize]);
      assert s' == Store(s.values - {l.recency[c.maxSize]}, s.lru - {l.recency[c.maxSize]});
    } else {
      assert l' == l && s' == s;
    }
  }

  lemma TouchKeepsOrder(recency: seq<Key>, z: map<Key, int>, k: Key, now: int)
    requires Distinct(recency) && forall x :: x in z <==> x in recency
    requires Descending(recency, z)
    requires forall x | x in z :: z[x] < now
    ensures forall x :: x in z[k := now] <==> x in MoveToFront(recency, k)
    ensures Descending(MoveToFront(recency, k), z[k := now])
  {
    MoveToFrontFacts(recency, k);
    hide MoveToFront;
    var m := MoveToFront(recency, k);
    forall i, j | 0 <= i < j < |m|
      ensures z[k := now][m[i]] > z[k := now][m[j]]
    {
      if i > 0 {
        assert InOrder(recency, m[i], m[j]);
      }
    }
  }

  lemma TouchRepresents(maxSize: nat, l: Lru, s: Store, k: Key, e: Entry, now: int, before: int)
    requires Represents(maxSize, l, s, before) && before < now
    ensures Represents(maxSize + 1,
                       Lru(MoveToFront(l.recency, k), l.latest[k := e]),
                       Stored(s, k, e, now), now)
    ensures k in l.recency ==> |MoveToFront(l.recency, k)| <= maxSize
  {
    hide MoveToFront, Descending, Distinct;
    TouchKeepsOrder(l.recency, s.lru, k, now);
    MoveToFrontFacts(l.recency, k);
  }

  lemma ForgetRepresents(maxSize: nat, l: Lru, s: Store, k: Key, before: int, now: int)
    requires Represents(maxSize, l, s, before) && before < now
    ensures Represents(maxSize, l.(recency := Without(l.recency, k)), AfterInvalidate(s, k), now)
  {
    WithoutFacts(l.recency, k);
    var w, z := Without(l.recency, k), s.lru - {k};
    forall i, j | 0 <= i < j < |w|
      ensures w[i] in z && w[j] in z && z[w[i]] > z[w[j]]
    {
      assert w[i] in w && w[j] in w;
      assert InOrder(l.recency, w[i], w[j]);
    }
  }

  lemma GetRefinesLru(c: Config, l: Lru, s: Store, k: Key, now: int, before: int)
    requires Represents(c.maxSize, l, s, before) && before < now
    ensures Lookup(s, k, now) == LruLookup(l, k, now)
    ensures Represents(c.maxSize, LruApply(c, l, Get(k, now)), AfterGet(s, k, now), now)
  {
    if LruLookup(l, k, now).Some? {
      TouchRepresents(c.maxSize, l, s, k, l.latest[k], now, before);
      assert s.values[k := l.latest[k]] == s.values && l.latest[k := l.latest[k]] == l.latest;
    }
  }

  lemma PutRefinesLru(c: Config, l: Lru, s: Store, k: Key, text: string, now: int, before: int)
    requires c.maxSize > 0
    requires Represents(c.maxSize, l, s, before) && before < now
    ensures Represents(c.maxSize, LruApply(c, l, Put(k, text, now)), AfterPut(c, s, k, text, now), now)
  {
    hide Represents, Evicted, MoveToFront, AtMost;
    var e := Entry(text, now + c.ttl);
    var l', s' := Lru(MoveToFront(l.recency, k), l.latest[k := e]), Stored(s, k, e, now);
    assert Represents(c.maxSize + 1, l', s', now) by {
      TouchRepresents(c.maxSize, l, s, k, e, now, before);
    }
    EvictionTruncates(c, l', s', LruApply(c, l, Put(k, text, now)), AfterPut(c, s, k, text, now), now);
  }

  lemma StepRefinesLru(c: Config, l: Lru, s: Store, op: Op, before: int)
    requires c.maxSize > 0
    requires Represents(c.maxSize, l, s, before) && before < op.now
    ensures Represents(c.maxSize, LruApply(c, l, op), Apply(c, s, op), op.now)
  {
    match op
    case Get(k, now) => GetRefinesLru(c, l, s, k, now, before);
    case Put(k, text, now) => PutRefinesLru(c, l, s, k, text, now, before);
    case Invalidate(k, now) => ForgetRepresents(c.maxSize, l, s, k, before, now);
    case Clear(_) => assert s.values - s.lru.Keys == map[];
  }

  /**
   Exact refinement of the LRU list, over every run of gets, puts, invalidations and
   clears with increasing times: the same keys are kept, in recency order, and every
   lookup answers alike.
   */
  lemma {:induction false} RunRefinesLru(c: Config, ops: seq<Op>, t: int)
    requires c.maxSize > 0 && Increasing(ops)
    requires ops != [] ==> ops[|ops| - 1].now <= t
    ensures Represents(c.maxSize, LruRun(c, ops), Run(c, ops), t)
    ensures forall k, now :: Lookup(Run(c, ops), k, now) == LruLookup(LruRun(c, ops), k, now)
  {
    if ops != [] {
      var n := |ops| - 1;
      RunRefinesLru(c, ops[..n], ops[n].now - 1);
      StepRefinesLru(c, LruRun(c, ops[..n]), Run(c, ops[..n]), ops[n], ops[n].now - 1);
    }
  }

  // ----- reference 2: the history of touches -----

  predicate GetsAndPuts(ops: seq<Op>) {
    forall i | 0 <= i < |ops| :: ops[i].Get? || ops[i].Put?
  }

  /** The last put of k, as the entry it stored. */
  function LatestPut(c: Config, ops: seq<Op>, k: Key): Option<Entry> {
    if ops == [] then None
    else
      var op := ops[|ops| - 1];
      if op.Put? && op.key == k then Some(Entry(op.text, op.now + c.ttl))
      else LatestPut(c, ops[..|ops| - 1], k)
  }

  /** Keys in the order they were touched; a put touches, and so does a get that hits. */
  ghost function Touches(c: Config, ops: seq<Op>): seq<Key>
    decreases |ops|, 0
  {
    if ops == [] then []
    else
      var earlier, op := ops[..|ops| - 1], ops[|ops| - 1];
      if op.Put? || (op.Get? && HistoryLookup(c, earlier, op.key, op.now).Some?)
      then Touches(c, earlier) + [op.key]
      else Touches(c, earlier)
  }

  /** The distinct keys touched after the last touch of k. */
  ghost function SinceLastTouch(touches: seq<Key>, k: Key): set<Key> {
    if touches == [] then {}
    else
      var last := touches[|touches| - 1];
      if last == k then {} else SinceLastTouch(touches[..|touches| - 1], k) + {last}
  }

  ghost predicate Resident(c: Config, touches: seq<Key>, k: Key) {
    k in touches && |SinceLastTouch(touches, k)| < c.maxSize
  }

  /** The latest put's text, while it is younger than the TTL and k is recent enough. */
  ghost function HistoryLookup(c: Config, ops: seq<Op>, k: Key, now: int): Option<string>
    decreases |ops|, 1
  {
    var put := LatestPut(c, ops, k);
    if put.Some? && Live(put.value, now) && Resident(c, Touches(c, ops), k)
    then Some(put.value.text)
    else None
  }

  // The list is the touch history cut to maxSize keys.
  ghost predicate Summarises(maxSize: nat, recency: seq<Key>, touches: seq<Key>) {
    && Distinct(recency) && |recency| <= maxSize
    && (forall k | k in recency :: k in touches && SinceLastTouch(touches, k) == Ahead(recency, k))
    && (forall k | k in touches && k !in recency :: |SinceLastTouch(touches, k)| >= maxSize)
  }

  lemma SinceAfterTouch(touches: seq<Key>, k: Key, x: Key)
    ensures SinceLastTouch(touches + [k], x) == if x == k then {} else SinceLastTouch(touches, x) + {k}
  {
    assert (touches + [k])[..|touches|] == touches;
  }

  lemma SummaryIsResident(c: Config, recency: seq<Key>, touches: seq<Key>, k: Key)
    requires Summarises(c.maxSize, recency, touches)
    ensures k in recency <==> Resident(c, touches, k)
  {
    if k in recency {
      var i :| 0 <= i < |recency| && recency[i] == k;
      AheadOfIndex(recency, i);
    }
  }

  lemma TouchSummarises(maxSize: nat, recency: seq<Key>, touches: seq<Key>, k: Key)
    requires maxSize > 0 && Summarises(maxSize, recency, touches)
    ensures Summarises(maxSize, AtMost(MoveToFront(recency, k), maxSize), touches + [k])
  {
    var m := MoveToFront(recency, k);
    var kept := AtMost(m, maxSize);
    MoveToFrontFacts(recency, k);
    assert kept == m[..|kept|];
    forall x | x in kept
      ensures x in touches + [k] && SinceLastTouch(touches + [k], x) == Ahead(kept, x)
    {
      assert x in m;
      MovedSummary(recency, touches, k, x);
      AheadAfterTruncation(m, |kept|, x);
    }
    forall x | x in touches + [k] && x !in kept
      ensures |SinceLastTouch(touches + [k], x)| >= maxSize
    {
      DroppedSummary(maxSize, recency, touches, k, x);
    }
  }

  lemma DroppedSummary(maxSize: nat, recency: seq<Key>, touches: seq<Key>, k: Key, x: Key)
    requires maxSize > 0 && Summarises(maxSize, recency, touches)
    requires x in touches + [k] && x !in AtMost(MoveToFront(recency, k), maxSize)
    ensures |SinceLastTouch(touches + [k], x)| >= maxSize
  {
    var m := MoveToFront(recency, k);
    MoveToFrontFacts(recency, k);
    assert AtMost(m, maxSize)[0] == k;
    if x in recency {
      var i :| 0 <= i < |m| && m[i] == x;
      var kept := AtMost(m, maxSize);
      assert forall j | 0 <= j < |kept| :: m[j] == kept[j] && kept[j] in kept;
      MovedSummary(recency, touches, k, x);
      AheadOfIndex(m, i);
    } else {
      SinceAfterTouch(touches, k, x);
      SizeMonotone(SinceLastTouch(touches, x), SinceLastTouch(touches + [k], x));
    }
  }

  lemma MovedSummary(recency: seq<Key>, touches: seq<Key>, k: Key, x: Key)
    requires Distinct(recency)
    requires forall k | k in recency :: k in touches && SinceLastTouch(touches, k) == Ahead(recency, k)
    requires x in recency || x == k
    ensures x in touches + [k]
    ensures SinceLastTouch(touches + [k], x) == Ahead(MoveToFront(recency, k), x)
  {
    SinceAfterTouch(touches, k, x);
    if x == k {
      MoveToFrontFacts(recency, k);
      AheadOfIndex(MoveToFront(recency, k), 0);
    } else {
      AheadAfterMove(recency, k, x);
    }
  }

  // The list l and its texts are what the history ops says they are.
  ghost predicate IsHistory(c: Config, l: Lru, ops: seq<Op>) {
    && Summarises(c.maxSize, l.recency, Touches(c, ops))
    && forall k :: LatestPut(c, ops, k) == (if k in l.latest then Some(l.latest[k]) else None)
  }

  lemma HistoryAnswers(c: Config, l: Lru, ops: seq<Op>, k: Key, now: int)
    requires IsHistory(c, l, ops)
    ensures HistoryLookup(c, ops, k, now) == LruLookup(l, k, now)
  {
    SummaryIsResident(c, l.recency, Touches(c, ops), k);
  }

  lemma StepIsHistory(c: Config, l: Lru, ops: seq<Op>)
    requires c.maxSize > 0 && ops != [] && (ops[|ops| - 1].Get? || ops[|ops| - 1].Put?)
    requires IsHistory(c, l, ops[..|ops| - 1])
    ensures IsHistory(c, LruApply(c, l, ops[|ops| - 1]), ops)
  {
    var earlier, op := ops[..|ops| - 1], ops[|ops| - 1];
    HistoryAnswers(c, l, earlier, op.key, op.now);
    if op.Put? || HistoryLookup(c, earlier, op.key, op.now).Some? {
      TouchSummarises(c.maxSize, l.recency, Touches(c, earlier), op.key);
      MoveToFrontFacts(l.recency, op.key);
      assert Touches(c, ops) == Touches(c, earlier) + [op.key];
      if op.Get? {
        WithinSizeAfterMove(c.maxSize, l.recency, op.key);
      }
    }
  }

  lemma WithinSizeAfterMove(maxSize: nat, recency: seq<Key>, k: Key)
    requires Distinct(recency) && |recency| <= maxSize && k in recency
    ensures AtMost(MoveToFront(recency, k), maxSize) == MoveToFront(recency, k)
  {
    MoveToFrontFacts(recency, k);
  }

  lemma {:induction false} LruRunIsHistory(c: Config, ops: seq<Op>)
    requires c.maxSize > 0 && GetsAndPuts(ops)
    ensures IsHistory(c, LruRun(c, ops), ops)
    ensures forall k, now :: HistoryLookup(c, ops, k, now) == LruLookup(LruRun(c, ops), k, now)
  {
    hide IsHistory, HistoryLookup, LruLookup, LruApply;
    if ops == [] {
      EmptyIsHistory(c);
    } else {
      LruRunIsHistory(c, ops[..|ops| - 1]);
      StepIsHistory(c, LruRun(c, ops[..|ops| - 1]), ops);
    }
    forall k, now
      ensures HistoryLookup(c, ops, k, now) == LruLookup(LruRun(c, ops), k, now)
    {
      HistoryAnswers(c, LruRun(c, ops), ops, k, now);
    }
  }

  lemma EmptyIsHistory(c: Config)
    ensures IsHistory(c, Lru([], map[]), [])
  {
  }

  /**
   Exact LRU: over every run of gets and puts with increasing times, the sorted set is
   exactly the keys with fewer than maxSize distinct other keys touched since their last
   touch, and a get answers with the latest put's text exactly when that put is younger
   than the TTL and its key is one of them.
   */
  lemma ExactLru(c: Config, ops: seq<Op>)
    requires c.maxSize > 0 && Increasing(ops) && GetsAndPuts(ops)
    ensures forall k :: k in Run(c, ops).lru <==> Resident(c, Touches(c, ops), k)
    ensures forall k, now :: Lookup(Run(c, ops), k, now) == HistoryLookup(c, ops, k, now)
  {
    RunRefinesLru(c, ops, if ops == [] then 0 else ops[|ops| - 1].now);
    LruRunIsHistory(c, ops);
    hide LruRun, Run, Touches, LruLookup, HistoryLookup, Lookup;
    forall k
      ensures k in Run(c, ops).lru <==> Resident(c, Touches(c, ops), k)
    {
      SummaryIsResident(c, LruRun(c, ops).recency, Touches(c, ops), k);
    }
  }

  // ----- what holds whatever the clock does -----

  ghost predicate Tracked(maxSize: nat, s: Store) {
    s.values.Keys <= s.lru.Keys && |s.lru| <= maxSize
  }

  lemma EvictedTracked(s: Store, maxSize: nat)
    requires s.values.Keys <= s.lru.Keys
    ensures Tracked(maxSize, Evicted(s, maxSize))
    ensures |s.lru| > maxSize ==> |Evicted(s, maxSize).lru| == maxSize
  {
    if |s.lru| > maxSize {
      var victims := Lowest(s.lru, |s.lru| - maxSize);
      assert (s.lru - victims).Keys == s.lru.Keys - victims;
      assert (s.values - victims).Keys == s.values.Keys - victims;
      SizeOfRemoval(s.lru.Keys, victims);
    }
  }

  lemma HitAddsNothing(s: Store, k: Key, now: int)
    requires s.values.Keys <= s.lru.Keys
    ensures AfterGet(s, k, now).lru.Keys == s.lru.Keys
  {
    if Lookup(s, k, now).Some? {
      assert k in s.lru.Keys;
    }
  }

  lemma PutKeepsTracked(c: Config, s: Store, k: Key, text: string, now: int)
    requires Tracked(c.maxSize, s)
    ensures Tracked(c.maxSize, AfterPut(c, s, k, text, now))
  {
    hide Evicted;
    EvictedTracked(Stored(s, k, Entry(text, now + c.ttl), now), c.maxSize);
  }

  /**
   A put that is cut off between two commands, wherever that is, leaves no untracked value
   and at most one member too many, and changes no other key's answer but those it evicts.
   */
  lemma CutOffPut(c: Config, s: Store, k: Key, text: string, now: int, commands: nat)
    requires Tracked(c.maxSize, s)
    ensures var t := PutPrefix(c, s, k, text, now, commands);
      && t.values.Keys <= t.lru.Keys && |t.lru| <= c.maxSize + 1
      && (PutDone(c, s, k, commands) ==> t == AfterPut(c, s, k, text, now))
      && forall j, later | j != k :: Lookup(t, j, later) in {Lookup(s, j, later), None}
  {
    hide EvictPrefix, Evicted;
    var u := Stored(s, k, Entry(text, now + c.ttl), now);
    assert u.lru.Keys == s.lru.Keys + {k};
    if commands > 0 {
      CutOffEviction(u, c.maxSize, commands - 1);
      if PutDone(c, s, k, commands) {
        DonePutIsPut(c, s, k, text, now, commands);
      }
      var t := EvictPrefix(u, c.maxSize, commands - 1);
      SizeMonotone(t.lru.Keys, u.lru.Keys);
    }
  }

  lemma CutOffEviction(u: Store, maxSize: nat, commands: nat)
    requires u.values.Keys <= u.lru.Keys
    ensures var t := EvictPrefix(u, maxSize, commands);
      && t.values.Keys <= t.lru.Keys <= u.lru.Keys
      && forall j | j in t.values :: j in u.values && t.values[j] == u.values[j]
  {
  }

  lemma StepKeepsTracked(c: Config, s: Store, op: Op)
    requires Tracked(c.maxSize, s)
    ensures Tracked(c.maxSize, Apply(c, s, op))
  {
    hide AfterPut;
    match op
    case Get(k, now) =>
      HitAddsNothing(s, k, now);
      assert |AfterGet(s, k, now).lru.Keys| == |s.lru.Keys|;
    case Put(k, text, now) => PutKeepsTracked(c, s, k, text, now);
    case Invalidate(k, _) =>
      assert (s.lru - {k}).Keys <= s.lru.Keys;
      SizeMonotone((s.lru - {k}).Keys, s.lru.Keys);
    case Clear(_) =>
  }

  /**
   No untracked value, in every single-worker run with any times: a stored value's key is
   always in the sorted set, which never exceeds maxSize, so clear leaves no value at all
   and a hit never adds a member.
   */
  lemma {:induction false} RunKeepsTracked(c: Config, ops: seq<Op>)
    ensures Tracked(c.maxSize, Run(c, ops))
    ensures AfterClear(Run(c, ops)) == EMPTY
    ensures forall k, now :: AfterGet(Run(c, ops), k, now).lru.Keys == Run(c, ops).lru.Keys
  {
    if ops != [] {
      RunKeepsTracked(c, ops[..|ops| - 1]);
      StepKeepsTracked(c, Run(c, ops[..|ops| - 1]), ops[|ops| - 1]);
    }
    var s := Run(c, ops);
    assert s.values - s.lru.Keys == map[];
    forall k, now
      ensures AfterGet(s, k, now).lru.Keys == s.lru.Keys
    {
      HitAddsNothing(s, k, now);
    }
  }
}
