/** Round-robin choice among backends whose breakers admit calls. */
module BackendPool {
  import opened Wrappers
  import opened CircuitBreaker

  // A backend is known by its identity.
  type Backend = nat

  datatype Pool = Pool(backends: seq<Backend>, breakers: seq<Breaker>, index: nat)

  predicate WellFormed(p: Pool) {
    && p.backends != [] && |p.breakers| == |p.backends| && p.index < |p.backends|
  }

  // The slot the cursor reaches after i steps.
  function Slot(p: Pool, i: nat): (k: nat)
    requires WellFormed(p)
    ensures k < |p.backends|
  {
    (p.index + i) % |p.backends|
  }

  predicate AvailableAt(c: Settings, p: Pool, k: nat, now: int)
    requires WellFormed(p) && k < |p.backends|
  {
    Available(c, p.breakers[k], now)
  }

  // The clock readings of one scan, one for each step; and a clock that stands still.
  type Readings = seq<int>

  function Still(p: Pool, now: int): Readings {
    seq(|p.backends|, _ => now)
  }

  /** i is the first step of the scan that meets an available slot. */
  predicate FirstFound(c: Settings, p: Pool, times: Readings, i: nat)
    requires WellFormed(p) && |times| == |p.backends|
  {
    && i < |p.backends| && AvailableAt(c, p, Slot(p, i), times[i])
    && forall j: nat | j < i :: !AvailableAt(c, p, Slot(p, j), times[j])
  }

  function Scan(c: Settings, p: Pool, times: Readings, i: nat): (r: Option<nat>)
    requires WellFormed(p) && i <= |p.backends| == |times|
    requires forall j: nat | j < i :: !AvailableAt(c, p, Slot(p, j), times[j])
    ensures r.Some? ==> FirstFound(c, p, times, r.value)
    ensures r.None? ==> forall j: nat | j < |p.backends| :: !AvailableAt(c, p, Slot(p, j), times[j])
    decreases |p.backends| - i
  {
    if i == |p.backends| then None
    else if AvailableAt(c, p, Slot(p, i), times[i]) then Some(i)
    else Scan(c, p, times, i + 1)
  }

  /** The slot a selection at time now answers with. */
  function Selected(c: Settings, p: Pool, now: int): (r: Option<nat>)
    requires WellFormed(p)
    ensures r.Some? ==> r.value < |p.backends|
  {
    match Scan(c, p, Still(p, now), 0)
    case None => None
    case Some(i) => Some(Slot(p, i))
  }

  function Picked(c: Settings, p: Pool, k: nat, now: int): Pool
    requires WellFormed(p) && k < |p.backends|
  {
    p.(breakers := p.breakers[k := Observed(c, p.breakers[k], now)], index := (k + 1) % |p.backends|)
  }

  function AfterSelect(c: Settings, p: Pool, now: int): Pool
    requires WellFormed(p)
  {
    match Selected(c, p, now)
    case None => p
    case Some(k) => Picked(c, p, k, now)
  }

  function AfterScan(c: Settings, p: Pool, times: Readings): Pool
    requires WellFormed(p) && |times| == |p.backends|
  {
    match Scan(c, p, times, 0)
    case None => p
    case Some(i) => Picked(c, p, Slot(p, i), times[i])
  }

  function Looked(c: Settings, p: Pool, times: Readings): Pool
    requires WellFormed(p) && |times| == |p.backends|
  {
    p.(breakers := seq(|p.breakers|, k requires 0 <= k < |p.breakers| => Observed(c, p.breakers[k], times[k])))
  }

  function AfterCount(c: Settings, p: Pool, now: int): Pool
    requires WellFormed(p)
  {
    Looked(c, p, Still(p, now))
  }

  /** The slots whose breaker admits calls when it is asked. */
  ghost function HealthySlots(c: Settings, p: Pool, times: Readings): set<nat>
    requires WellFormed(p) && |times| == |p.backends|
  {
    set k: nat | k < |p.backends| && AvailableAt(c, p, k, times[k])
  }

  // Those among the first i slots, for the counting loop.
  ghost function HealthyBelow(c: Settings, p: Pool, times: Readings, i: nat): set<nat>
    requires WellFormed(p) && i <= |times| == |p.backends|
  {
    set k: nat | k < i && AvailableAt(c, p, k, times[k])
  }

  lemma HealthyNext(c: Settings, p: Pool, times: Readings, i: nat)
    requires WellFormed(p) && i < |times| == |p.backends|
    ensures i !in HealthyBelow(c, p, times, i)
    ensures HealthyBelow(c, p, times, i + 1)
         == HealthyBelow(c, p, times, i) + if AvailableAt(c, p, i, times[i]) then {i} else {}
  {
    hide AvailableAt;
  }

  lemma HealthyCounts(c: Settings, p: Pool, times: Readings, i: nat)
    requires WellFormed(p) && i < |times| == |p.backends|
    ensures |HealthyBelow(c, p, times, i + 1)|
         == |HealthyBelow(c, p, times, i)| + if AvailableAt(c, p, i, times[i]) then 1 else 0
  {
    hide HealthyBelow, AvailableAt;
    HealthyNext(c, p, times, i);
  }

  lemma NoneBelow(c: Settings, p: Pool, times: Readings)
    requires WellFormed(p) && |times| == |p.backends|
    ensures HealthyBelow(c, p, times, 0) == {}
  {
  }

  lemma AllBelow(c: Settings, p: Pool, times: Readings)
    requires WellFormed(p) && |times| == |p.backends|
    ensures HealthyBelow(c, p, times, |times|) == HealthySlots(c, p, times)
  {
  }

  /** The breaker of a backend is the one beside its first occurrence. */
  function FirstSlot(backends: seq<Backend>, b: Backend): (r: Option<nat>)
    ensures r.Some? ==> r.value < |backends| && backends[r.value] == b && b !in backends[..r.value]
    ensures r.None? <==> b !in backends
  {
    if backends == [] then None
    else if backends[0] == b then Some(0)
    else match FirstSlot(backends[1..], b)
      case None => None
      case Some(k) => assert backends[..k + 1] == [backends[0]] + backends[1..][..k]; Some(k + 1)
  }

  function AfterSuccess(p: Pool, b: Backend): Pool
    requires WellFormed(p)
  {
    match FirstSlot(p.backends, b)
    case None => p
    case Some(k) => p.(breakers := p.breakers[k := Succeeded(p.breakers[k])])
  }

  function AfterFailure(c: Settings, p: Pool, b: Backend, now: int): Pool
    requires WellFormed(p)
  {
    match FirstSlot(p.backends, b)
    case None => p
    case Some(k) => p.(breakers := p.breakers[k := Failed(c, p.breakers[k], now)])
  }

  // Slots are n consecutive cursor steps, so a scan of n steps sees every slot once.
  lemma StepTo(n: nat, index: nat, k: nat) returns (i: nat)
    requires index < n && k < n
    ensures i < n && (index + i) % n == k
  {
    i := if index <= k then k - index else n - index + k;
    assert (index + i) % n == k by {
      if index > k { assert (n + k) % n == k; }
    }
  }

  /** A selection fails exactly when no slot is available. */
  lemma SelectedNone(c: Settings, p: Pool, now: int)
    requires WellFormed(p)
    ensures Selected(c, p, now).None? <==> forall k: nat | k < |p.backends| :: !AvailableAt(c, p, k, now)
    ensures Selected(c, p, now).Some? ==> AvailableAt(c, p, Selected(c, p, now).value, now)
  {
    if Selected(c, p, now).None? {
      forall k: nat | k < |p.backends|
        ensures !AvailableAt(c, p, k, now)
      {
        var i := StepTo(|p.backends|, p.index, k);
        assert Slot(p, i) == k;
      }
    }
  }

  class BackendPool {
    const settings: Settings
    const backends: seq<Backend>
    const breakers: seq<CircuitBreaker>
    var index: nat

    ghost predicate Valid()
      reads this
    {
      && backends != [] && |breakers| == |backends| && index < |backends|
      && (forall k | 0 <= k < |breakers| :: breakers[k].settings == settings)
      && (forall j, k | 0 <= j < k < |breakers| :: breakers[j] != breakers[k])
    }

    ghost function Model(): (p: Pool)
      reads this, breakers
      requires Valid()
      ensures WellFormed(p) && p.backends == backends && p.index == index
      ensures forall k | 0 <= k < |breakers| :: p.breakers[k] == breakers[k].Model()
    {
      Pool(backends, Models(breakers), index)
    }

    /** A pool without backends is refused. */
    static method Create(settings: Settings, backends: seq<Backend>) returns (r: Option<BackendPool>)
      ensures r.None? <==> backends == []
      ensures r.Some? ==> fresh(r.value) && fresh(r.value.breakers) && r.value.Valid()
      ensures r.Some? ==> r.value.settings == settings
      ensures r.Some? ==> r.value.Model() == Pool(backends, seq(|backends|, _ => INITIAL), 0)
    {
      if backends == [] {
        return None;
      }
      var breakers: seq<CircuitBreaker> := [];
      for i := 0 to |backends|
        invariant |breakers| == i && fresh(breakers)
        invariant forall k | 0 <= k < i :: breakers[k].settings == settings && breakers[k].Model() == INITIAL
        invariant forall j, k | 0 <= j < k < i :: breakers[j] != breakers[k]
      {
        var b := new CircuitBreaker(settings);
        breakers := breakers + [b];
      }
      var pool := new BackendPool(settings, backends, breakers);
      assert pool.Model().breakers == seq(|backends|, _ => INITIAL);
      return Some(pool);
    }

    constructor (settings: Settings, backends: seq<Backend>, breakers: seq<CircuitBreaker>)
      ensures this.settings == settings && this.backends == backends && this.breakers == breakers
      ensures index == 0
    {
      this.settings, this.backends, this.breakers := settings, backends, breakers;
      index := 0;
    }

    /**
     The next available backend from the cursor on, or none if every circuit is open. Step i
     of the scan reads the clock at times[i].
     */
    method GetHealthyBackend(times: Readings) returns (r: Option<Backend>)
      requires Valid() && |times| == |backends|
      modifies this, breakers
      ensures Valid()
      ensures Model() == AfterScan(settings, old(Model()), times)
      ensures r == match Scan(settings, old(Model()), times, 0)
                   case None => None
                   case Some(i) => Some(backends[Slot(old(Model()), i)])
    {
      hide Models, Scan, AfterScan;
      ghost var p := Model();
      var n := |backends|;
      for i := 0 to n
        invariant Valid() && Model() == p
        invariant forall j: nat | j < i :: !AvailableAt(settings, p, Slot(p, j), times[j])
      {
        var idx := (index + i) % n;
        assert idx == Slot(p, i);
        ghost var looked := Observed(settings, p.breakers[idx], times[i]);
        var ok := breakers[idx].IsAvailable(times[i]);
        OneChanged(p.breakers, idx, looked);
        if ok {
          index := (idx + 1) % n;
          ScansFirst(settings, p, times, i);
          return Some(backends[idx]);
        }
        assert looked == p.breakers[idx];
      }
      ScansNothing(settings, p, times);
      r := None;
    }

    // After a change to one breaker object the model differs in that slot only.
    lemma OneChanged(was: seq<Breaker>, k: nat, b: Breaker)
      requires Valid() && |was| == |breakers| && k < |breakers|
      requires breakers[k].Model() == b
      requires forall j | 0 <= j < |breakers| && j != k :: breakers[j].Model() == was[j]
      ensures Model().breakers == was[k := b]
    {
    }

    method RecordSuccess(backend: Backend)
      requires Valid()
      modifies breakers
      ensures Valid() && Model() == AfterSuccess(old(Model()), backend)
    {
      ghost var p := Model();
      var k := BreakerFor(backend);
      if k.Some? {
        breakers[k.value].RecordSuccess();
        OneChanged(p.breakers, k.value, Succeeded(p.breakers[k.value]));
      }
    }

    method RecordFailure(backend: Backend, now: int)
      requires Valid()
      modifies breakers
      ensures Valid() && Model() == AfterFailure(settings, old(Model()), backend, now)
    {
      ghost var p := Model();
      var k := BreakerFor(backend);
      if k.Some? {
        breakers[k.value].RecordFailure(now);
        OneChanged(p.breakers, k.value, Failed(settings, p.breakers[k.value], now));
      }
    }

    method BreakerFor(backend: Backend) returns (r: Option<nat>)
      requires Valid()
      ensures r == FirstSlot(backends, backend)
    {
      for k := 0 to |backends|
        invariant backend !in backends[..k]
      {
        if backends[k] == backend {
          FirstSlotIs(backends, backend, k);
          return Some(k);
        }
      }
      r := None;
    }

    /** Breaker k is looked at when the clock reads times[k]. */
    method HealthyCount(times: Readings) returns (n: nat)
      requires Valid() && |times| == |backends|
      modifies breakers
      ensures Valid() && Model() == Looked(settings, old(Model()), times)
      ensures n == |HealthySlots(settings, old(Model()), times)|
    {
      hide Models, HealthyBelow;
      ghost var p := Model();
      NoneBelow(settings, p, times);
      n := 0;
      for i := 0 to |breakers|
        invariant Valid()
        invariant n == |HealthyBelow(settings, p, times, i)|
        invariant forall k | 0 <= k < i :: breakers[k].Model() == Observed(settings, p.breakers[k], times[k])
        invariant forall k | i <= k < |breakers| :: breakers[k].Model() == p.breakers[k]
      {
        var ok := breakers[i].IsAvailable(times[i]);
        HealthyCounts(settings, p, times, i);
        if ok {
          n := n + 1;
        }
      }
      AllBelow(settings, p, times);
      assert Model().breakers == Looked(settings, p, times).breakers;
    }
  }

  ghost function Models(breakers: seq<CircuitBreaker>): (ms: seq<Breaker>)
    reads breakers
    ensures |ms| == |breakers|
    ensures forall k | 0 <= k < |breakers| :: ms[k] == breakers[k].Model()
  {
    if breakers == [] then [] else [breakers[0].Model()] + Models(breakers[1..])
  }

  lemma {:induction false} ScanFrom(c: Settings, p: Pool, times: Readings, i: nat, j: nat)
    requires WellFormed(p) && |times| == |p.backends| && FirstFound(c, p, times, i) && j <= i
    ensures Scan(c, p, times, j) == Some(i)
    decreases i - j
  {
    if j < i {
      ScanFrom(c, p, times, i, j + 1);
    }
  }

  lemma ScansFirst(c: Settings, p: Pool, times: Readings, i: nat)
    requires WellFormed(p) && |times| == |p.backends| && FirstFound(c, p, times, i)
    ensures Scan(c, p, times, 0) == Some(i)
    ensures AfterScan(c, p, times) == Picked(c, p, Slot(p, i), times[i])
  {
    ScanFrom(c, p, times, i, 0);
  }

  lemma ScansNothing(c: Settings, p: Pool, times: Readings)
    requires WellFormed(p) && |times| == |p.backends|
    requires forall j: nat | j < |p.backends| :: !AvailableAt(c, p, Slot(p, j), times[j])
    ensures Scan(c, p, times, 0) == None && AfterScan(c, p, times) == p
  {
    assert Scan(c, p, times, 0).None?;
  }

  /**
   A scan over which no cooldown ends is a selection at its first reading: same answer, same
   breakers, same cursor. So is one on a clock that stands still.
   */
  lemma ScanIsSelection(c: Settings, p: Pool, times: Readings)
    requires WellFormed(p) && |times| == |p.backends|
    requires forall i, k: nat | 0 <= i < |times| && k < |p.backends| ::
      AvailableAt(c, p, k, times[i]) == AvailableAt(c, p, k, times[0])
    ensures AfterScan(c, p, times) == AfterSelect(c, p, times[0])
    ensures Selected(c, p, times[0]) == match Scan(c, p, times, 0) case None => None case Some(i) => Some(Slot(p, i))
  {
    var still := Still(p, times[0]);
    var r := Scan(c, p, times, 0);
    if r.Some? {
      assert FirstFound(c, p, still, r.value);
      ScansFirst(c, p, still, r.value);
    } else {
      ScansNothing(c, p, still);
    }
  }

  /** And in general, with a clock that does not run backwards, a scan misses nobody that was available when it began. */
  lemma ScanMissesNobody(c: Settings, p: Pool, times: Readings)
    requires WellFormed(p) && |times| == |p.backends|
    requires forall i, j | 0 <= i < j < |times| :: times[i] <= times[j]
    ensures Scan(c, p, times, 0).None? ==> Selected(c, p, times[0]).None?
    ensures Selected(c, p, times[0]).Some? ==>
      Scan(c, p, times, 0).Some? && Scan(c, p, times, 0).value <= Scan(c, p, Still(p, times[0]), 0).value
  {
    var first := Scan(c, p, Still(p, times[0]), 0);
    if first.Some? {
      assert AvailableAt(c, p, Slot(p, first.value), times[first.value]);
    }
  }

  lemma FirstSlotIs(backends: seq<Backend>, b: Backend, k: nat)
    requires k < |backends| && backends[k] == b && b !in backends[..k]
    ensures FirstSlot(backends, b) == Some(k)
  {
  }
}
