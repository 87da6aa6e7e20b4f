/**
 The part of Redis the cache relies on: string values with an expiry and one
 sorted set. Every command is one atomic method.
 */
module Redis {
  import opened Wrappers

  // A key is an opaque digest. Its numeric order stands for the order Redis
  // gives members of a sorted set that have equal scores.
  type Key = nat

  datatype Entry = Entry(text: string, expiresAt: int)

  datatype Store = Store(values: map<Key, Entry>, lru: map<Key, int>)

  predicate Live(e: Entry, now: int) {
    now < e.expiresAt
  }

  /** The keys of ks that still hold a live value. */
  function LiveAmong(values: map<Key, Entry>, ks: set<Key>, now: int): set<Key> {
    set k | k in ks && k in values && Live(values[k], now)
  }

  predicate Before(z: map<Key, int>, a: Key, b: Key)
    requires a in z && b in z
  {
    z[a] < z[b] || (z[a] == z[b] && a < b)
  }

  /** low is what ZRANGE z 0 (n-1) returns: the n lowest members, or all of them. */
  ghost predicate IsLowest(z: map<Key, int>, n: nat, low: set<Key>) {
    && low <= z.Keys
    && |low| == (if n <= |z| then n else |z|)
    && forall a, b | a in low && b in z.Keys - low :: Before(z, a, b)
  }

  lemma LeastExists(z: map<Key, int>, ks: set<Key>) returns (k: Key)
    requires ks != {} && ks <= z.Keys
    ensures k in ks && forall j | j in ks && j != k :: Before(z, k, j)
  {
    k :| k in ks;
    var rest := ks - {k};
    assert forall j | j in ks && j != k :: j in rest;
    if rest != {} {
      var l := LeastExists(z, rest);
      if Before(z, l, k) {
        k := l;
      }
    }
  }

  lemma LowestExists(z: map<Key, int>, n: nat)
    ensures exists low :: IsLowest(z, n, low)
  {
    var low := BuildLowest(z, n);
  }

  lemma BuildLowest(z: map<Key, int>, n: nat) returns (low: set<Key>)
    ensures IsLowest(z, n, low)
  {
    low := {};
    if 0 < n {
      low := BuildLowest(z, n - 1);
      var rest := z.Keys - low;
      if rest == {} {
        assert low == z.Keys;
      } else {
        assert |rest| == |z.Keys| - |low|;
        var k := LeastExists(z, rest);
        low := low + {k};
      }
    }
    if |z| < n {
      SubsetOfSameSize(low, z.Keys);
    }
  }

  lemma SubsetOfSameSize<T>(a: set<T>, b: set<T>)
    requires a <= b && |a| == |b|
    ensures a == b
  {
    assert |b - a| == |b| - |a|;
  }

  /** Scores with the member order break every tie, so ZRANGE has one answer. */
  lemma LowestIsUnique(z: map<Key, int>, n: nat, a: set<Key>, b: set<Key>)
    requires IsLowest(z, n, a) && IsLowest(z, n, b)
    ensures a == b
  {
    if x :| x in a && x !in b {
      if b <= a {
        SubsetOfSameSize(b, a);
      } else {
        var y :| y in b && y !in a;
        assert Before(z, x, y) && Before(z, y, x);
      }
    } else {
      SubsetOfSameSize(a, b);
    }
  }

  ghost function Lowest(z: map<Key, int>, n: nat): (low: set<Key>)
    ensures IsLowest(z, n, low)
  {
    LowestExists(z, n);
    var low :| IsLowest(z, n, low);
    low
  }

  class Server {
    var values: map<Key, Entry>
    var lru: map<Key, int>

    function Contents(): Store
      reads this
    {
      Store(values, lru)
    }

    constructor ()
      ensures Contents() == Store(map[], map[])
    {
      values, lru := map[], map[];
    }

    method Get(k: Key, now: int) returns (r: Option<string>)
      ensures r.Some? <==> k in values && Live(values[k], now)
      ensures r.Some? ==> r.value == values[k].text
    {
      r := if k in values && Live(values[k], now) then Some(values[k].text) else None;
    }

    /** MULTI; SET k text EX ttl; ZADD lru score k; EXEC. */
    method SetAndAdd(k: Key, text: string, ttl: nat, score: int, now: int)
      modifies this
      ensures values == old(values)[k := Entry(text, now + ttl)]
      ensures lru == old(lru)[k := score]
    {
      values := values[k := Entry(text, now + ttl)];
      lru := lru[k := score];
    }

    method ZAdd(k: Key, score: int)
      modifies this`lru
      ensures lru == old(lru)[k := score]
    {
      lru := lru[k := score];
    }

    method ZCard() returns (n: nat)
      ensures n == |lru|
    {
      n := |lru|;
    }

    method ZRange(n: nat) returns (low: set<Key>)
      ensures low == Lowest(lru, n)
    {
      low := {};
      var rest := lru.Keys;
      while |low| < n && rest != {}
        invariant rest == lru.Keys - low && low <= lru.Keys
        invariant |low| <= n && |rest| + |low| == |lru|
        invariant forall a, b | a in low && b in rest :: Before(lru, a, b)
        decreases rest
      {
        var _ := LeastExists(lru, rest);
        var k :| k in rest && forall j | j in rest && j != k :: Before(lru, k, j);
        low := low + {k};
        rest := rest - {k};
      }
      assert IsLowest(lru, n, low);
      LowestIsUnique(lru, n, low, Lowest(lru, n));
    }

    /** ZRANGE lru 0 -1 */
    method ZRangeAll() returns (ks: set<Key>)
      ensures ks == lru.Keys
    {
      ks := lru.Keys;
    }

    /** The answer counts the keys that still held a live value. */
    method Delete(ks: set<Key>, now: int) returns (removed: nat)
      modifies this`values
      ensures values == old(values) - ks
      ensures removed == |LiveAmong(old(values), ks, now)|
    {
      removed := |LiveAmong(values, ks, now)|;
      values := values - ks;
    }

    method ZRem(ks: set<Key>)
      modifies this`lru
      ensures lru == old(lru) - ks
    {
      lru := lru - ks;
    }

    method DeleteLru()
      modifies this`lru
      ensures lru == map[]
    {
      lru := map[];
    }
  }
}
