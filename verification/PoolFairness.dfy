/**
 How often each backend is chosen: exact rotation while the available set stands still,
 a bound on waiting while it does not, and a bound on how often a dead backend is tried.
 */
module PoolFairness {
  import opened Wrappers
  import opened CircuitBreaker
  import opened BackendPool
  import opened PoolHistory

  // ----- counting -----

  function Count<T(==)>(s: seq<T>, x: T): nat {
    if s == [] then 0 else (if s[0] == x then 1 else 0) + Count(s[1..], x)
  }

  lemma {:induction false} CountOfSum<T>(a: seq<T>, b: seq<T>, x: T)
    ensures Count(a + b, x) == Count(a, x) + Count(b, x)
  {
    if a == [] {
      assert a + b == b;
    } else {
      CountOfSum(a[1..], b, x);
      assert (a + b)[1..] == a[1..] + b;
    }
  }

  lemma {:induction false} CountPositive<T>(s: seq<T>, x: T)
    ensures Count(s, x) > 0 <==> x in s
  {
    if s != [] {
      CountPositive(s[1..], x);
    }
  }

  // ----- the cyclic order -----

  function Cycle(n: nat, index: nat): seq<nat>
    requires index < n
  {
    seq(n, i requires 0 <= i < n => (index + i) % n)
  }

  function Kept(s: seq<nat>, h: set<nat>): seq<nat> {
    if s == [] then [] else (if s[0] in h then [s[0]] else []) + Kept(s[1..], h)
  }

  /** The members of h in the order the cursor meets them. */
  function Order(n: nat, index: nat, h: set<nat>): seq<nat>
    requires index < n
  {
    Kept(Cycle(n, index), h)
  }

  lemma {:induction false} KeptOfSum(a: seq<nat>, b: seq<nat>, h: set<nat>)
    ensures Kept(a + b, h) == Kept(a, h) + Kept(b, h)
  {
    if a == [] {
      assert a + b == b;
    } else {
      var first := if a[0] in h then [a[0]] else [];
      KeptOfSum(a[1..], b, h);
      assert (a + b)[1..] == a[1..] + b && (a + b)[0] == a[0];
      assert Kept(a + b, h) == first + Kept(a[1..] + b, h);
      assert first + (Kept(a[1..], h) + Kept(b, h)) == (first + Kept(a[1..], h)) + Kept(b, h);
    }
  }

  lemma {:induction false} KeptNothing(s: seq<nat>, h: set<nat>)
    requires forall i | 0 <= i < |s| :: s[i] !in h
    ensures Kept(s, h) == []
  {
    if s != [] {
      KeptNothing(s[1..], h);
    }
  }

  lemma {:induction false} KeptMembers(s: seq<nat>, h: set<nat>)
    ensures forall x :: x in Kept(s, h) <==> x in s && x in h
    ensures forall x :: Count(Kept(s, h), x) == (if x in h then Count(s, x) else 0)
  {
    if s != [] {
      KeptMembers(s[1..], h);
      var first := if s[0] in h then [s[0]] else [];
      forall x
        ensures Count(Kept(s, h), x) == (if x in h then Count(s, x) else 0)
      {
        CountOfSum(first, Kept(s[1..], h), x);
      }
    }
  }

  lemma ModUnique(n: nat, x: nat, q: nat, r: nat)
    requires r < n && x == q * n + r
    ensures x % n == r
  {
    var d := q - x / n;
    assert d * n == x % n - r by {
      assert x == (x / n) * n + x % n;
    }
    assert d >= 1 ==> d * n >= n;
    assert d <= -1 ==> d * n <= -(n as int);
  }

  lemma ModStep(n: nat, a: nat, b: nat)
    requires n > 0
    ensures (a % n + b) % n == (a + b) % n
  {
    var s := a % n + b;
    assert a == (a / n) * n + a % n && s == (s / n) * n + s % n;
    assert (a / n + s / n) * n == (a / n) * n + (s / n) * n;
    ModUnique(n, a + b, a / n + s / n, s % n);
  }

  lemma ModWrap(n: nat, x: nat)
    requires n > 0
    ensures (n + x) % n == x % n
  {
    assert x == (x / n) * n + x % n;
    assert (x / n + 1) * n == (x / n) * n + n;
    ModUnique(n, n + x, x / n + 1, x % n);
  }

  // Moving the cursor just past slot i of the cycle rotates the cycle by i + 1.
  lemma CycleRotates(n: nat, index: nat, i: nat)
    requires index < n && i < n
    ensures var next := ((index + i) % n + 1) % n; var cyc := Cycle(n, index);
      Cycle(n, next) == cyc[i + 1..] + cyc[..i + 1]
  {
    var next, cyc := ((index + i) % n + 1) % n, Cycle(n, index);
    ModStep(n, index + i, 1);
    forall j | 0 <= j < n
      ensures Cycle(n, next)[j] == (cyc[i + 1..] + cyc[..i + 1])[j]
    {
      RotatedSlot(n, index, i, j);
    }
  }

  lemma RotatedSlot(n: nat, index: nat, i: nat, j: nat)
    requires index < n && i < n && j < n
    ensures var next := ((index + i) % n + 1) % n;
      (next + j) % n == (index + (if j < n - i - 1 then i + 1 + j else j - (n - i - 1))) % n
  {
    ModStep(n, index + i, 1);
    ModStep(n, index + i + 1, j);
    if j >= n - i - 1 {
      ModWrap(n, index + j - (n - i - 1));
    }
  }

  lemma {:induction false} CycleCounts(n: nat, index: nat, k: nat)
    requires index < n && k < n
    ensures Count(Cycle(n, index), k) == 1
  {
    var cyc := Cycle(n, index);
    var i := StepTo(n, index, k);
    assert cyc == cyc[..i] + [k] + cyc[i + 1..];
    CountOfSum(cyc[..i] + [k], cyc[i + 1..], k);
    CountOfSum(cyc[..i], [k], k);
    forall j | 0 <= j < n && j != i
      ensures cyc[j] != k
    {
      OncePerCycle(n, index, i, j);
    }
    CountPositive(cyc[..i], k);
    CountPositive(cyc[i + 1..], k);
  }

  lemma OncePerCycle(n: nat, a: nat, i: nat, j: nat)
    requires i < n && j < n && i != j
    ensures (a + i) % n != (a + j) % n
  {
    ModStep(n, a, i);
    ModStep(n, a, j);
    var b := a % n;
    assert (b + i) % n == (if b + i < n then b + i else b + i - n) by { SmallMod(n, b + i); }
    assert (b + j) % n == (if b + j < n then b + j else b + j - n) by { SmallMod(n, b + j); }
  }

  lemma SmallMod(n: nat, x: nat)
    requires 0 < n && x < 2 * n
    ensures x % n == if x < n then x else x - n
  {
    if x >= n {
      ModWrap(n, x - n);
      ModUnique(n, x - n, 0, x - n);
    } else {
      ModUnique(n, x, 0, x);
    }
  }

  // ----- exact rotation -----

  /** Every selection in es meets exactly the available set h. */
  ghost predicate Steady(c: Settings, p: Pool, es: seq<Event>, h: set<nat>)
    requires WellFormed(p)
    decreases |es|
  {
    es == [] ||
    ((es[0].Select? ==> forall k: nat | k < |p.backends| :: AvailableAt(c, p, k, es[0].now) <==> k in h)
     && Steady(c, Apply(c, p, es[0]), es[1..], h))
  }

  lemma SelectRotates(c: Settings, p: Pool, now: int, h: set<nat>)
    requires WellFormed(p) && h != {} && forall k | k in h :: k < |p.backends|
    requires forall k: nat | k < |p.backends| :: AvailableAt(c, p, k, now) <==> k in h
    ensures var n := |p.backends|; var order := Order(n, p.index, h);
      && order != [] && Selected(c, p, now) == Some(order[0])
      && Order(n, AfterSelect(c, p, now).index, h) == order[1..] + [order[0]]
  {
    hide Selected, AfterSelect, Kept;
    var n, cyc := |p.backends|, Cycle(|p.backends|, p.index);
    var k0 :| k0 in h;
    assert AvailableAt(c, p, k0, now);
    var i := FirstStep(c, p, now, k0);
    forall j | 0 <= j < i
      ensures cyc[j] !in h
    {
      assert cyc[j] == Slot(p, j);
    }
    CycleRotates(n, p.index, i);
    KeptRotates(cyc, i, h);
  }

  lemma FirstStep(c: Settings, p: Pool, now: int, k: nat) returns (i: nat)
    requires WellFormed(p) && k < |p.backends| && AvailableAt(c, p, k, now)
    ensures i < |p.backends| && AvailableAt(c, p, Slot(p, i), now)
    ensures forall j: nat | j < i :: !AvailableAt(c, p, Slot(p, j), now)
    ensures Selected(c, p, now) == Some(Slot(p, i))
    ensures AfterSelect(c, p, now).index == (Slot(p, i) + 1) % |p.backends|
  {
    SelectedNone(c, p, now);
    i := Scan(c, p, Still(p, now), 0).value;
  }

  // i is the first place of s that holds a member of h.
  lemma KeptRotates(s: seq<nat>, i: nat, h: set<nat>)
    requires i < |s| && s[i] in h && forall j | 0 <= j < i :: s[j] !in h
    ensures Kept(s, h) != [] && Kept(s, h)[0] == s[i]
    ensures Kept(s[i + 1..] + s[..i + 1], h) == Kept(s, h)[1..] + [s[i]]
  {
    KeptNothing(s[..i], h);
    assert s == s[..i] + ([s[i]] + s[i + 1..]);
    KeptOfSum(s[..i], [s[i]] + s[i + 1..], h);
    KeptOfSum([s[i]], s[i + 1..], h);
    assert s[..i + 1] == s[..i] + [s[i]];
    KeptOfSum(s[i + 1..], s[..i + 1], h);
    KeptOfSum(s[..i], [s[i]], h);
    assert Kept([s[i]], h) == [s[i]];
  }

  lemma RotatedAt(order: seq<nat>, j: nat)
    requires order != []
    ensures (order[1..] + [order[0]])[j % |order|] == order[(j + 1) % |order|]
  {
    var m := |order|;
    ModStep(m, j, 1);
    SmallMod(m, j % m + 1);
  }

  /** While h is the available set, the answers run through h in cyclic order, over and over. */
  lemma {:induction false} AnswersRotate(c: Settings, p: Pool, es: seq<Event>, h: set<nat>, j: nat)
    requires WellFormed(p) && h != {} && (forall k | k in h :: k < |p.backends|) && Steady(c, p, es, h)
    requires j < |Answers(c, p, es)|
    ensures var order := Order(|p.backends|, p.index, h);
      order != [] && Answers(c, p, es)[j] == Some(order[j % |order|])
    decreases |es|
  {
    var q := Apply(c, p, es[0]);
    if es[0].Select? {
      SelectRotates(c, p, es[0].now, h);
      var order := Order(|p.backends|, p.index, h);
      if j > 0 {
        AnswersRotate(c, q, es[1..], h, j - 1);
        RotatedAt(order, j - 1);
      } else {
        SmallMod(|order|, 0);
      }
    } else {
      AnswersRotate(c, q, es[1..], h, j);
    }
  }

  // How many of len positions from a on fall on place r of a list of m.
  function Visits(m: nat, r: nat, a: nat, len: nat): nat
    requires m > 0
  {
    if len == 0 then 0
    else Visits(m, r, a, len - 1) + if (a + len - 1) % m == r then 1 else 0
  }

  lemma {:induction false} VisitsOnce(m: nat, r: nat, a: nat, t: nat, len: nat)
    requires t < m && (a + t) % m == r && len <= m
    ensures Visits(m, r, a, len) == if t < len then 1 else 0
  {
    if len > 0 {
      VisitsOnce(m, r, a, t, len - 1);
      if len - 1 != t {
        OncePerCycle(m, a, len - 1, t);
      }
    }
  }

  lemma {:induction false} VisitsSplit(m: nat, r: nat, a: nat, x: nat, y: nat)
    requires m > 0
    ensures Visits(m, r, a, x + y) == Visits(m, r, a, x) + Visits(m, r, a + x, y)
  {
    if y > 0 {
      VisitsSplit(m, r, a, x, y - 1);
    }
  }

  lemma VisitsPerRound(m: nat, r: nat, a: nat)
    requires r < m
    ensures Visits(m, r, a, m) == 1
    ensures forall len: nat | len < m :: Visits(m, r, a, len) <= 1
  {
    var t := StepTo(m, a % m, r);
    ModStep(m, a, t);
    forall len: nat | len <= m
      ensures Visits(m, r, a, len) == if t < len then 1 else 0
    {
      VisitsOnce(m, r, a, t, len);
    }
  }

  function Rounds(m: nat, len: nat): nat
    requires m > 0
  {
    len / m
  }

  lemma {:induction false} VisitsEven(m: nat, r: nat, a: nat, len: nat)
    requires r < m
    ensures Rounds(m, len) <= Visits(m, r, a, len) <= Rounds(m, len) + 1
    decreases len
  {
    hide Rounds;
    VisitsPerRound(m, r, a);
    if len >= m {
      var rest := len - m;
      VisitsEven(m, r, a + m, rest);
      VisitsSplit(m, r, a, m, rest);
      assert m + rest == len;
      OneMoreRound(m, len);
    } else {
      NoRound(m, len);
    }
  }

  lemma NoRound(m: nat, len: nat)
    requires len < m
    ensures Rounds(m, len) == 0
  {
    DivUnique(m, len, 0, len);
  }

  lemma OneMoreRound(m: nat, len: nat)
    requires 0 < m <= len
    ensures Rounds(m, len) == Rounds(m, len - m) + 1
  {
    var q, r := (len - m) / m, (len - m) % m;
    assert len - m == q * m + r;
    assert (q + 1) * m == q * m + m;
    DivUnique(m, len, q + 1, r);
  }

  lemma DivUnique(n: nat, x: nat, q: nat, r: nat)
    requires r < n && x == q * n + r
    ensures x / n == q
  {
    ModUnique(n, x, q, r);
    assert (x / n - q) * n == 0;
  }

  lemma OrderFacts(n: nat, index: nat, h: set<nat>)
    requires index < n && forall k | k in h :: k < n
    ensures var order := Order(n, index, h);
      && (forall k :: k in order <==> k in h)
      && (forall i, j | 0 <= i < j < |order| :: order[i] != order[j])
      && |order| == |h|
  {
    var order := Order(n, index, h);
    KeptMembers(Cycle(n, index), h);
    forall k | k in h
      ensures k in order
    {
      CycleCounts(n, index, k);
      CountPositive(Cycle(n, index), k);
    }
    forall i, j | 0 <= i < j < |order|
      ensures order[i] != order[j]
    {
      var k := order[i];
      assert k in order;
      CycleCounts(n, index, k);
      if order[j] == k {
        assert order == order[..i] + ([k] + order[i + 1..]);
        CountOfSum(order[..i], [k] + order[i + 1..], k);
        CountOfSum([k], order[i + 1..], k);
        assert order[i + 1..][j - i - 1] == k;
        CountPositive(order[i + 1..], k);
      }
    }
    SizeOfOrder(order, h);
  }

  lemma {:induction false} SizeOfOrder(order: seq<nat>, h: set<nat>)
    requires forall k :: k in order <==> k in h
    requires forall i, j | 0 <= i < j < |order| :: order[i] != order[j]
    ensures |order| == |h|
  {
    if order == [] {
      assert h == {};
    } else {
      assert order[0] in h && order[0] !in order[1..];
      SizeOfOrder(order[1..], h - {order[0]});
    }
  }

  lemma {:induction false} CountIsVisits(answers: seq<Option<nat>>, order: seq<nat>, r: nat, a: nat, len: nat)
    requires r < |order| && a + len <= |answers|
    requires forall i, j | 0 <= i < j < |order| :: order[i] != order[j]
    requires forall j | 0 <= j < |answers| :: answers[j] == Some(order[j % |order|])
    ensures Count(answers[a..a + len], Some(order[r])) == Visits(|order|, r, a, len)
  {
    if len > 0 {
      CountIsVisits(answers, order, r, a, len - 1);
      var last := answers[a + len - 1];
      assert answers[a..a + len] == answers[a..a + len - 1] + [last];
      CountOfSum(answers[a..a + len - 1], [last], Some(order[r]));
    }
  }

  /**
   Exact fairness: while h is the available set, in any window of selections each member of
   h is chosen at least len / |h| times and at most once more, so the counts of two members
   differ by at most one; |h| consecutive selections choose each member exactly once; and
   nobody else is chosen.
   */
  lemma RoundRobinIsFair(c: Settings, p: Pool, es: seq<Event>, h: set<nat>, a: nat, len: nat)
    requires WellFormed(p) && h != {} && (forall k | k in h :: k < |p.backends|) && Steady(c, p, es, h)
    requires a + len <= |Answers(c, p, es)|
    ensures var window := Answers(c, p, es)[a..a + len];
      && (forall k | k in h :: len / |h| <= Count(window, Some(k)) <= len / |h| + 1)
      && (len == |h| ==> forall k | k in h :: Count(window, Some(k)) == 1)
      && (forall x | x in window :: x.Some? && x.value in h)
  {
    var answers, order := Answers(c, p, es), Order(|p.backends|, p.index, h);
    OrderFacts(|p.backends|, p.index, h);
    forall j | 0 <= j < |answers|
      ensures answers[j] == Some(order[j % |order|])
    {
      AnswersRotate(c, p, es, h, j);
    }
    forall k | k in h
      ensures len / |h| <= Count(answers[a..a + len], Some(k)) <= len / |h| + 1
      ensures len == |h| ==> Count(answers[a..a + len], Some(k)) == 1
    {
      assert k in order;
      var r :| 0 <= r < |order| && order[r] == k;
      CountIsVisits(answers, order, r, a, len);
      VisitsEven(|order|, r, a, len);
      VisitsPerRound(|order|, r, a);
    }
    forall x | x in answers[a..a + len]
      ensures x.Some? && x.value in h
    {
      var j :| a <= j < a + len && answers[j] == x;
      assert order[j % |order|] in order;
    }
  }

  // ----- bounded waiting -----

  function Distance(n: nat, index: nat, k: nat): (d: nat)
    requires index < n && k < n
    ensures d < n
  {
    if index <= k then k - index else n - index + k
  }

  lemma DistanceReaches(n: nat, index: nat, k: nat)
    requires index < n && k < n
    ensures (index + Distance(n, index, k)) % n == k
  {
    SmallMod(n, index + Distance(n, index, k));
  }

  // A selection that passes k by brings the cursor nearer to k.
  lemma SelectApproaches(c: Settings, p: Pool, now: int, k: nat)
    requires WellFormed(p) && k < |p.backends| && AvailableAt(c, p, k, now)
    requires Selected(c, p, now) != Some(k)
    ensures Distance(|p.backends|, AfterSelect(c, p, now).index, k) < Distance(|p.backends|, p.index, k)
  {
    var n, d := |p.backends|, Distance(|p.backends|, p.index, k);
    SelectedNone(c, p, now);
    DistanceReaches(n, p.index, k);
    var i := Scan(c, p, Still(p, now), 0).value;
    assert AvailableAt(c, p, Slot(p, d), now);
    SmallMod(n, p.index + i);
    SmallMod(n, Slot(p, i) + 1);
  }

  ghost predicate AvailableThroughout(c: Settings, p: Pool, es: seq<Event>, k: nat)
    requires WellFormed(p) && k < |p.backends|
    decreases |es|
  {
    es == [] ||
    ((es[0].Select? ==> AvailableAt(c, p, k, es[0].now)) && AvailableThroughout(c, Apply(c, p, es[0]), es[1..], k))
  }

  // With the cursor d short of k, k takes its share of all selections but the first d.
  lemma {:induction false} WaitIsDistance(c: Settings, p: Pool, es: seq<Event>, k: nat, len: nat)
    requires WellFormed(p) && k < |p.backends| && AvailableThroughout(c, p, es, k)
    requires len <= |Answers(c, p, es)|
    ensures len <= Distance(|p.backends|, p.index, k) + |p.backends| * Count(Answers(c, p, es)[..len], Some(k))
    decreases |es|
  {
    if len > 0 {
      var q := Apply(c, p, es[0]);
      if es[0].Select? {
        var n, rest := |p.backends|, Answers(c, q, es[1..]);
        WaitIsDistance(c, q, es[1..], k, len - 1);
        assert Answers(c, p, es)[..len] == [Selected(c, p, es[0].now)] + rest[..len - 1];
        if Selected(c, p, es[0].now) == Some(k) {
          OneMoreTurn(n, Count(rest[..len - 1], Some(k)));
        } else {
          SelectApproaches(c, p, es[0].now, k);
        }
      } else {
        WaitIsDistance(c, q, es[1..], k, len);
      }
    }
  }

  lemma OneMoreTurn(n: nat, count: nat)
    ensures n * (count + 1) == n * count + n
  {
  }

  // The answers from the a-th on are those of a later pool.
  lemma {:induction false} SkipAnswers(c: Settings, p: Pool, es: seq<Event>, k: nat, a: nat)
    returns (q: Pool, rest: seq<Event>)
    requires WellFormed(p) && k < |p.backends| && AvailableThroughout(c, p, es, k)
    requires a <= |Answers(c, p, es)|
    ensures WellFormed(q) && q.backends == p.backends && AvailableThroughout(c, q, rest, k)
    ensures Answers(c, q, rest) == Answers(c, p, es)[a..]
    decreases |es|
  {
    q, rest := p, es;
    if a > 0 {
      q, rest := SkipAnswers(c, Apply(c, p, es[0]), es[1..], k, if es[0].Select? then a - 1 else a);
    }
  }

  /**
   Bounded waiting: a slot available at every selection gets its share of any window of
   them, at least one in n, n the number of backends, however the other breakers open and
   close meanwhile.
   */
  lemma BoundedWaiting(c: Settings, p: Pool, es: seq<Event>, k: nat, a: nat, len: nat)
    requires WellFormed(p) && k < |p.backends| && AvailableThroughout(c, p, es, k)
    requires a + len <= |Answers(c, p, es)|
    ensures len / |p.backends| <= Count(Answers(c, p, es)[a..a + len], Some(k))
  {
    var q, rest := SkipAnswers(c, p, es, k, a);
    WaitIsDistance(c, q, rest, k, len);
    assert Answers(c, p, es)[a..][..len] == Answers(c, p, es)[a..a + len];
    ShareOf(|p.backends|, len, Distance(|p.backends|, q.index, k), Count(Answers(c, p, es)[a..a + len], Some(k)));
  }

  lemma ShareOf(n: nat, len: nat, d: nat, count: nat)
    requires d < n && len <= d + n * count
    ensures len / n <= count
  {
    QuotientGrows(n, len, count * n + n - 1);
    DivUnique(n, count * n + n - 1, count, n - 1);
  }

  // ----- how often a dead backend is tried -----

  /**
   Slot k never succeeds in es, and each selection of k is followed by a recorded failure
   of k before k is selected again; pending says whether one is still to be recorded.
   */
  ghost predicate AlwaysFails(c: Settings, p: Pool, es: seq<Event>, k: nat, pending: bool)
    requires WellFormed(p)
    decreases |es|
  {
    if es == [] then true
    else
      var rest := (q: bool) => AlwaysFails(c, Apply(c, p, es[0]), es[1..], k, q);
      match es[0]
      case Select(now) => if Selected(c, p, now) == Some(k) then !pending && rest(true) else rest(pending)
      case Success(b, _) => FirstSlot(p.backends, b) != Some(k) && rest(pending)
      case Failure(b, _) => rest(pending && FirstSlot(p.backends, b) != Some(k))
      case Reset(j, _) => j != k && rest(pending)
      case _ => rest(pending)
  }

  // Whole cooldowns that fit into span.
  function Cooldowns(c: Settings, span: int): nat
    requires c.cooldown > 0
  {
    if span < 0 then 0 else span / c.cooldown
  }

  function Tries(c: Settings, r: Record, pending: bool, from: int, end: int): nat
    requires c.cooldown > 0
  {
    var closed := Limit(c) - r.failures - if pending then 1 else 0;
    if pending || r.failures < Limit(c)
    then (if closed > 0 then closed else 0) + Cooldowns(c, end - from)
    else Cooldowns(c, end - r.lastFailure)
  }

  lemma CooldownsGrow(c: Settings, x: int, y: int)
    requires c.cooldown > 0
    ensures x <= y ==> Cooldowns(c, x) <= Cooldowns(c, y)
    ensures 0 <= x && x + c.cooldown <= y ==> Cooldowns(c, x) + 1 <= Cooldowns(c, y)
  {
    var m := c.cooldown;
    if 0 <= x <= y {
      QuotientGrows(m, x, y);
      if x + m <= y {
        OneMoreRound(m, x + m);
        QuotientGrows(m, x + m, y);
      }
    }
  }

  lemma {:induction false} QuotientGrows(m: nat, x: nat, y: nat)
    requires m > 0 && x <= y
    ensures x / m <= y / m
    decreases y
  {
    if x < y {
      QuotientGrows(m, x, y - 1);
      var q, r := (y - 1) / m, (y - 1) % m;
      assert y - 1 == q * m + r;
      if r + 1 < m {
        DivUnique(m, y, q, r + 1);
      } else {
        DivUnique(m, y, q + 1, 0);
      }
    }
  }

  lemma TriesAfterSelection(c: Settings, r: Record, from: int, now: int, end: int)
    requires c.cooldown > 0 && from <= now <= end && Admits(c, r, now)
    ensures 1 + Tries(c, r, true, now, end) <= Tries(c, r, false, from, end)
  {
    CooldownsGrow(c, end - now, end - from);
    CooldownsGrow(c, end - now, end - r.lastFailure);
  }

  lemma TriesAfterFailure(c: Settings, r: Record, pending: bool, from: int, now: int, end: int)
    requires c.cooldown > 0 && from <= now <= end && (r.failures > 0 ==> r.lastFailure <= from)
    ensures Tries(c, Record(r.failures + 1, now), false, now, end) <= Tries(c, r, pending, from, end)
  {
    CooldownsGrow(c, end - now, end - from);
    CooldownsGrow(c, end - now, end - r.lastFailure);
  }

  lemma TriesWhileWaiting(c: Settings, r: Record, pending: bool, from: int, now: int, end: int)
    requires c.cooldown > 0 && from <= now <= end
    ensures Tries(c, r, pending, now, end) <= Tries(c, r, pending, from, end)
  {
    CooldownsGrow(c, end - now, end - from);
  }

  lemma {:induction false} TriesBound(c: Settings, p: Pool, es: seq<Event>, k: nat, r: Record, pending: bool, from: int, end: int)
    requires WellFormed(p) && k < |p.backends| && c.cooldown > 0
    requires Monotone(from, es) && End(from, es) <= end
    requires Reflects(c, p.breakers[k], r, from) && AlwaysFails(c, p, es, k, pending)
    ensures Count(Answers(c, p, es), Some(k)) <= Tries(c, r, pending, from, end)
    decreases |es|
  {
    hide Tries, Reflects, End, Selected, FirstSlot;
    if es == [] {
    } else {
      var e := es[0];
      StepReflects(c, p, k, r, from, e);
      EndOfRest(from, es);
      if e.Select? && Selected(c, p, e.now) == Some(k) {
        AdmittedWhenSelected(c, p, k, r, from, e.now);
        TriesBound(c, Apply(c, p, e), es[1..], k, r, true, e.now, end);
        FirstAnswer(c, p, es, k);
        TriesAfterSelection(c, r, from, e.now, end);
      } else if e.Failure? && FirstSlot(p.backends, e.backend) == Some(k) {
        TriesBound(c, Apply(c, p, e), es[1..], k, Record(r.failures + 1, e.now), false, e.now, end);
        ReflectedFailureIsPast(c, p.breakers[k], r, from);
        TriesAfterFailure(c, r, pending, from, e.now, end);
      } else {
        TriesBound(c, Apply(c, p, e), es[1..], k, r, pending, e.now, end);
        TriesWhileWaiting(c, r, pending, from, e.now, end);
        if e.Select? {
          FirstAnswer(c, p, es, k);
        }
      }
    }
  }

  lemma ReflectedFailureIsPast(c: Settings, b: Breaker, r: Record, now: int)
    requires Reflects(c, b, r, now)
    ensures r.failures > 0 ==> r.lastFailure <= now
  {
  }

  lemma AdmittedWhenSelected(c: Settings, p: Pool, k: nat, r: Record, before: int, now: int)
    requires WellFormed(p) && k < |p.backends| && Reflects(c, p.breakers[k], r, before) && before <= now
    requires Selected(c, p, now) == Some(k)
    ensures Admits(c, r, now)
  {
    SelectedNone(c, p, now);
    ReflectsAdmits(c, p.breakers[k], r, before, now);
  }

  lemma FirstAnswer(c: Settings, p: Pool, es: seq<Event>, k: nat)
    requires WellFormed(p) && es != [] && es[0].Select?
    ensures Count(Answers(c, p, es), Some(k))
         == Count(Answers(c, Apply(c, p, es[0]), es[1..]), Some(k))
            + if Selected(c, p, es[0].now) == Some(k) then 1 else 0
  {
  }

  lemma {:induction false} EndOfRest(from: int, es: seq<Event>)
    requires es != [] && Monotone(from, es)
    ensures es[0].now <= End(es[0].now, es[1..]) == End(from, es)
    decreases |es|
  {
    if |es| > 1 {
      EndOfRest(es[0].now, es[1..]);
    }
  }

  lemma {:induction false} WindowTries(c: Settings, p: Pool, es: seq<Event>, k: nat, r: Record, from: int, end: int)
    requires WellFormed(p) && k < |p.backends| && c.cooldown > 0
    requires Monotone(from, es) && End(from, es) <= end
    requires Reflects(c, p.breakers[k], r, from) && AlwaysFails(c, p, es, k, false)
    requires r.failures >= Limit(c)
    ensures Count(Answers(c, p, es), Some(k)) <= 1 + Cooldowns(c, end - from)
    decreases |es|
  {
    if es != [] {
      var e, rest := es[0], es[1..];
      var q, r' := Apply(c, p, e), Recorded(c, p.backends, k, r, e);
      StepReflects(c, p, k, r, from, e);
      EndOfRest(from, es);
      CooldownsGrow(c, end - e.now, end - from);
      if e.Select? && Selected(c, p, e.now) == Some(k) {
        TriesBound(c, q, rest, k, r', true, e.now, end);
      } else {
        WindowTries(c, q, rest, k, r', e.now, end);
      }
    }
  }

  /**
   The probe rate: after any history past, a backend that only fails is chosen over a later
   stretch es at most threshold times (once, for a threshold below one), plus once for every
   whole cooldown the stretch lasts.
   */
  lemma ProbeRate(c: Settings, backends: seq<Backend>, start: int, past: seq<Event>, es: seq<Event>, k: nat, from: int)
    requires k < |backends| && c.cooldown > 0
    requires Monotone(start, past) && End(start, past) <= from && Monotone(from, es)
    requires AlwaysFails(c, After(c, Start(backends), past), es, k, false)
    ensures Count(Answers(c, After(c, Start(backends), past), es), Some(k))
         <= Limit(c) + (End(from, es) - from) / c.cooldown
  {
    hide Answers, AlwaysFails, Reflects, After, RecordOf;
    var p := After(c, Start(backends), past);
    var r := RecordOf(c, backends, k, NO_RECORD, past);
    HistoryReflects(c, backends, k, start, past, from);
    if es != [] {
      EndOfRest(from, es);
    }
    if r.failures < Limit(c) {
      TriesBound(c, p, es, k, r, false, from, End(from, es));
    } else {
      WindowTries(c, p, es, k, r, from, End(from, es));
    }
  }

  // ----- half-open admits until an outcome is recorded -----

  /** e records an outcome for, or resets, the breaker of slot k. */
  predicate Decides(backends: seq<Backend>, k: nat, e: Event) {
    match e
    case Success(b, _) => FirstSlot(backends, b) == Some(k)
    case Failure(b, _) => FirstSlot(backends, b) == Some(k)
    case Reset(j, _) => j == k
    case _ => false
  }

  predicate Undecided(backends: seq<Backend>, k: nat, es: seq<Event>) {
    forall i | 0 <= i < |es| :: !Decides(backends, k, es[i])
  }

  /** Slot k has tripped and its cooldown is over: it is half-open, or will be when looked at. */
  predicate Ripe(c: Settings, p: Pool, k: nat, now: int)
    requires WellFormed(p) && k < |p.backends|
  {
    p.breakers[k].state != Closed && now - p.breakers[k].lastFailure >= c.cooldown
  }

  // Without an outcome for slot k a step changes no more of its breaker than looking does.
  lemma UndecidedOnlyLooks(c: Settings, p: Pool, k: nat, e: Event)
    requires WellFormed(p) && k < |p.backends| && !Decides(p.backends, k, e)
    ensures var b := p.breakers[k]; Apply(c, p, e).breakers[k] in {b, Observed(c, b, e.now)}
  {
    hide Selected;
  }

  lemma {:induction false} RipeStaysAvailable(c: Settings, p: Pool, es: seq<Event>, k: nat, from: int)
    requires WellFormed(p) && k < |p.backends| && Ripe(c, p, k, from)
    requires Monotone(from, es) && Undecided(p.backends, k, es)
    ensures AvailableThroughout(c, p, es, k)
    decreases |es|
  {
    if es != [] {
      UndecidedOnlyLooks(c, p, k, es[0]);
      RipeStaysAvailable(c, Apply(c, p, es[0]), es[1..], k, es[0].now);
    }
  }

  /**
   The documented single half-open probe does not exist: in any pool, whatever the other
   backends do, a tripped slot whose cooldown is over is available to every selection until
   an outcome of it is recorded, and takes at least every |backends|-th one.
   */
  lemma HalfOpenAdmitsMany(c: Settings, p: Pool, es: seq<Event>, k: nat, from: int, a: nat, len: nat)
    requires WellFormed(p) && k < |p.backends| && Ripe(c, p, k, from)
    requires Monotone(from, es) && Undecided(p.backends, k, es)
    requires a + len <= |Answers(c, p, es)|
    ensures AvailableThroughout(c, p, es, k)
    ensures len / |p.backends| <= Count(Answers(c, p, es)[a..a + len], Some(k))
  {
    RipeStaysAvailable(c, p, es, k, from);
    BoundedWaiting(c, p, es, k, a, len);
  }

  lemma {:induction false} UndecidedRests(c: Settings, p: Pool, es: seq<Event>, k: nat, t: int, from: int, now: int)
    requires WellFormed(p) && k < |p.backends| && t <= from
    requires Monotone(from, es) && End(from, es) <= now && Undecided(p.backends, k, es)
    requires var b := p.breakers[k]; b.lastFailure == t && (b.state == Open || Ripe(c, p, k, from))
    ensures AvailableAt(c, After(c, p, es), k, now) <==> now - t >= c.cooldown
    ensures now - t < c.cooldown ==> Some(k) !in Answers(c, p, es)
    decreases |es|
  {
    if es == [] {
    } else {
      var e := es[0];
      UndecidedOnlyLooks(c, p, k, e);
      EndOfRest(from, es);
      UndecidedRests(c, Apply(c, p, e), es[1..], k, t, e.now, now);
      if e.Select? {
        SelectedNone(c, p, e.now);
      }
    }
  }

  /**
   The converse: a failure recorded at t by a slot at the threshold closes the door. Until
   the next outcome of that slot it is available exactly from t plus the cooldown on, and no
   selection before that moment chooses it.
   */
  lemma FailureEndsProbing(c: Settings, p: Pool, b: Backend, es: seq<Event>, k: nat, t: int, now: int)
    requires WellFormed(p) && FirstSlot(p.backends, b) == Some(k)
    requires p.breakers[k].failures + 1 >= c.threshold
    requires Monotone(t, es) && End(t, es) <= now && Undecided(p.backends, k, es)
    ensures var q := AfterFailure(c, p, b, t);
      && (AvailableAt(c, After(c, q, es), k, now) <==> now - t >= c.cooldown)
      && (now - t < c.cooldown ==> Some(k) !in Answers(c, q, es))
  {
    UndecidedRests(c, AfterFailure(c, p, b, t), es, k, t, t, now);
  }
}
