/** Lists of distinct keys ordered by recency, most recent first. */
module Recency {
  import opened Sets

  predicate Distinct<T(==)>(s: seq<T>) {
    forall i, j | 0 <= i < j < |s| :: s[i] != s[j]
  }

  function Without<T(==)>(s: seq<T>, k: T): seq<T> {
    if s == [] then [] else if s[0] == k then Without(s[1..], k) else [s[0]] + Without(s[1..], k)
  }

  function MoveToFront<T(==)>(s: seq<T>, k: T): seq<T> {
    [k] + Without(s, k)
  }

  function AtMost<T>(s: seq<T>, n: nat): seq<T> {
    if n < |s| then s[..n] else s
  }

  ghost function Elements<T>(s: seq<T>): set<T> {
    set x | x in s
  }

  lemma {:induction false} SizeOfElements<T>(s: seq<T>)
    requires Distinct(s)
    ensures |Elements(s)| == |s|
  {
    if s != [] {
      SizeOfElements(s[1..]);
      assert Elements(s) == Elements(s[1..]) + {s[0]};
      assert s[0] !in s[1..];
    }
  }

  /** Removing k keeps the other elements, in their order. */
  lemma {:induction false} WithoutFacts<T>(s: seq<T>, k: T)
    ensures forall x :: x in Without(s, k) <==> x in s && x != k
    ensures |Without(s, k)| <= |s|
    ensures k in s ==> |Without(s, k)| < |s|
    ensures k !in s ==> Without(s, k) == s
    ensures forall i, j | 0 <= i < j < |Without(s, k)| :: InOrder(s, Without(s, k)[i], Without(s, k)[j])
    ensures Distinct(s) ==> Distinct(Without(s, k))
  {
    if s != [] {
      var rest := s[1..];
      WithoutFacts(rest, k);
      forall x, y | InOrder(rest, x, y)
        ensures InOrder(s, x, y)
      {
        var i, j :| 0 <= i < j < |rest| && rest[i] == x && rest[j] == y;
        assert s[i + 1] == x && s[j + 1] == y;
      }
      forall y | y in rest
        ensures InOrder(s, s[0], y)
      {
        var j :| 0 <= j < |rest| && rest[j] == y;
        assert s[j + 1] == y;
      }
      var w, w' := Without(s, k), Without(rest, k);
      forall i, j | 0 <= i < j < |w|
        ensures InOrder(s, w[i], w[j])
      {
        if s[0] == k {
          assert w == w' && InOrder(rest, w'[i], w'[j]);
        } else if i > 0 {
          assert w[i] == w'[i - 1] && w[j] == w'[j - 1];
          assert InOrder(rest, w'[i - 1], w'[j - 1]);
        } else {
          assert w[0] == s[0] && w[j] == w'[j - 1];
          WithoutIsWithin(rest, k, j - 1);
        }
      }
    }
  }

  lemma WithoutIsWithin<T>(s: seq<T>, k: T, i: nat)
    requires i < |Without(s, k)|
    ensures Without(s, k)[i] in s
  {
    if s[0] == k {
      WithoutIsWithin(s[1..], k, i);
    } else if i > 0 {
      WithoutIsWithin(s[1..], k, i - 1);
    }
  }

  ghost predicate InOrder<T>(s: seq<T>, x: T, y: T) {
    exists i, j :: 0 <= i < j < |s| && s[i] == x && s[j] == y
  }

  lemma MoveToFrontFacts<T>(s: seq<T>, k: T)
    requires Distinct(s)
    ensures var m := MoveToFront(s, k);
      && Distinct(m) && m[0] == k
      && (forall x :: x in m <==> x in s || x == k)
      && |m| <= |s| + 1 && (k in s ==> |m| <= |s|)
      && (forall i, j | 0 < i < j < |m| :: InOrder(s, m[i], m[j]))
  {
    WithoutFacts(s, k);
  }

  // ----- the elements ahead of x -----

  ghost function Ahead<T>(s: seq<T>, x: T): set<T> {
    set y | y in s && InOrder(s, y, x)
  }

  lemma AheadOfIndex<T>(s: seq<T>, i: nat)
    requires Distinct(s) && i < |s|
    ensures Ahead(s, s[i]) == Elements(s[..i])
    ensures |Ahead(s, s[i])| == i
  {
    forall y
      ensures y in Ahead(s, s[i]) <==> y in s[..i]
    {
      if y in s[..i] {
        var j :| 0 <= j < i && s[..i][j] == y;
        assert s[j] == y;
      }
      if y in Ahead(s, s[i]) {
        var j, k :| 0 <= j < k < |s| && s[j] == y && s[k] == s[i];
        assert s[..i][j] == y;
      }
    }
    SizeOfElements(s[..i]);
  }

  lemma AheadAfterTruncation<T>(s: seq<T>, n: nat, x: T)
    requires Distinct(s) && n <= |s| && x in s[..n]
    ensures Ahead(s[..n], x) == Ahead(s, x)
  {
    var i :| 0 <= i < n && s[..n][i] == x;
    AheadOfIndex(s[..n], i);
    AheadOfIndex(s, i);
    assert s[..n][..i] == s[..i];
  }

  lemma {:induction false} WithoutIsCut<T>(s: seq<T>, i: nat)
    requires Distinct(s) && i < |s|
    ensures Without(s, s[i]) == s[..i] + s[i + 1..]
  {
    if i == 0 {
      WithoutFacts(s[1..], s[0]);
      assert s[0] !in s[1..];
    } else {
      WithoutIsCut(s[1..], i - 1);
    }
  }

  lemma ElementsOfSum<T>(a: seq<T>, b: seq<T>)
    ensures Elements(a + b) == Elements(a) + Elements(b)
  {
  }

  lemma MoveLaterKey<T>(s: seq<T>, k: T, b: nat)
    requires Distinct(s) && b < |s| && k !in s[..b + 1]
    ensures |MoveToFront(s, k)| > b + 1
    ensures MoveToFront(s, k)[..b + 1] == [k] + s[..b] && MoveToFront(s, k)[b + 1] == s[b]
  {
    if k in s {
      var i := Position(s, k);
      var front := s[..b + 1];
      assert forall j | 0 <= j < |front| :: s[j] == front[j] && front[j] in front;
      WithoutIsCut(s, i);
    } else {
      WithoutFacts(s, k);
    }
  }

  lemma MoveEarlierKey<T>(s: seq<T>, i: nat, b: nat)
    requires Distinct(s) && i < b < |s|
    ensures |MoveToFront(s, s[i])| > b
    ensures MoveToFront(s, s[i])[..b] == [s[i]] + s[..i] + s[i + 1..b] && MoveToFront(s, s[i])[b] == s[b]
  {
    WithoutIsCut(s, i);
  }

  lemma SameElements<T>(s: seq<T>, i: nat, b: nat)
    requires i < b <= |s|
    ensures Elements([s[i]] + s[..i] + s[i + 1..b]) == Elements(s[..b])
  {
    assert s[..b] == s[..i] + [s[i]] + s[i + 1..b];
  }

  lemma AheadAfterLater<T>(s: seq<T>, k: T, b: nat)
    requires Distinct(s) && b < |s| && k !in s[..b] && k != s[b]
    ensures Ahead(MoveToFront(s, k), s[b]) == Elements(s[..b]) + {k}
  {
    MoveToFrontFacts(s, k);
    assert s[..b + 1] == s[..b] + [s[b]];
    MoveLaterKey(s, k, b);
    AheadOfIndex(MoveToFront(s, k), b + 1);
    ElementsOfSum([k], s[..b]);
  }

  lemma AheadAfterEarlier<T>(s: seq<T>, i: nat, b: nat)
    requires Distinct(s) && i < b < |s|
    ensures Ahead(MoveToFront(s, s[i]), s[b]) == Elements(s[..b])
  {
    MoveToFrontFacts(s, s[i]);
    MoveEarlierKey(s, i, b);
    AheadOfIndex(MoveToFront(s, s[i]), b);
    SameElements(s, i, b);
  }

  lemma AheadAfterMove<T>(s: seq<T>, k: T, x: T)
    requires Distinct(s) && x in s && x != k
    ensures Ahead(MoveToFront(s, k), x) == Ahead(s, x) + {k}
  {
    var b :| 0 <= b < |s| && s[b] == x;
    AheadOfIndex(s, b);
    if k in s[..b] {
      var i :| 0 <= i < b && s[..b][i] == k;
      AheadAfterEarlier(s, i, b);
      assert Elements(s[..b]) + {k} == Elements(s[..b]);
    } else {
      AheadAfterLater(s, k, b);
    }
  }

  function Position<T(==)>(s: seq<T>, k: T): (i: nat)
    requires k in s
    ensures i < |s| && s[i] == k
  {
    if s[0] == k then 0 else 1 + Position(s[1..], k)
  }
}
