/**
 The outlier filter over the reals. The standard deviation is a parameter, tied to the
 values by its square; floating-point rounding is not part of this model.
 */
module Outliers {
  function Sum(s: seq<real>): real {
    if s == [] then 0.0 else s[0] + Sum(s[1..])
  }

  function Abs(x: real): real {
    if x < 0.0 then -x else x
  }

  function Square(x: real): (r: real)
    ensures r >= 0.0
  {
    x * x
  }

  function SquaredDeviations(s: seq<real>, mean: real): real {
    if s == [] then 0.0 else Square(s[0] - mean) + SquaredDeviations(s[1..], mean)
  }

  /** mean and std are the mean and the population standard deviation of s. */
  predicate Describes(s: seq<real>, mean: real, std: real) {
    && s != [] && std >= 0.0
    && Sum(s) == |s| as real * mean
    && SquaredDeviations(s, mean) == |s| as real * Square(std)
  }

  predicate Near(x: real, mean: real, std: real, k: real) {
    Abs(x - mean) <= k * std
  }

  function Kept(s: seq<real>, mean: real, std: real, k: real): seq<real> {
    if s == [] then []
    else (if Near(s[0], mean, std, k) then [s[0]] else []) + Kept(s[1..], mean, std, k)
  }

  /** What the function returns: short or constant lists as they are, never an empty list. */
  method RemoveOutliers(values: seq<real>, mean: real, std: real, k: real) returns (r: seq<real>)
    requires values != [] ==> Describes(values, mean, std)
    ensures |values| < 3 || std == 0.0 ==> r == values
    ensures |values| >= 3 && std != 0.0 ==>
      r == if Kept(values, mean, std, k) == [] then values else Kept(values, mean, std, k)
    ensures values != [] ==> r != []
  {
    if |values| < 3 {
      return values;
    }
    if std == 0.0 {
      return values;
    }
    var filtered: seq<real> := [];
    for i := 0 to |values|
      invariant filtered == Kept(values[..i], mean, std, k)
    {
      assert values[..i + 1] == values[..i] + [values[i]];
      KeptOfSum(values[..i], [values[i]], mean, std, k);
      if Near(values[i], mean, std, k) {
        filtered := filtered + [values[i]];
      }
    }
    assert values[..|values|] == values;
    r := if filtered == [] then values else filtered;
  }

  lemma {:induction false} KeptOfSum(a: seq<real>, b: seq<real>, mean: real, std: real, k: real)
    ensures Kept(a + b, mean, std, k) == Kept(a, mean, std, k) + Kept(b, mean, std, k)
  {
    if a == [] {
      assert a + b == b;
    } else {
      KeptOfSum(a[1..], b, mean, std, k);
      assert (a + b)[1..] == a[1..] + b && (a + b)[0] == a[0];
      var first := if Near(a[0], mean, std, k) then [a[0]] else [];
      assert first + (Kept(a[1..], mean, std, k) + Kept(b, mean, std, k))
          == (first + Kept(a[1..], mean, std, k)) + Kept(b, mean, std, k);
    }
  }

  // kept are the values of s at places, from left to right.
  predicate ReadAt(s: seq<real>, places: seq<nat>, kept: seq<real>) {
    && |places| == |kept|
    && (forall i | 0 <= i < |places| :: places[i] < |s| && kept[i] == s[places[i]])
    && (forall i, j | 0 <= i < j < |places| :: places[i] < places[j])
  }

  /**
   The kept values are those of s within k standard deviations of the mean, both ends
   included, in their order: places lists where they stand in s, from left to right, and
   every other place holds a value further off.
   */
  lemma {:induction false} KeptIsSubsequence(s: seq<real>, mean: real, std: real, k: real) returns (places: seq<nat>)
    ensures ReadAt(s, places, Kept(s, mean, std, k))
    ensures forall p: nat | p < |s| :: p in places <==> mean - k * std <= s[p] <= mean + k * std
  {
    places := [];
    if s != [] {
      var n := |s| - 1;
      var earlier := KeptIsSubsequence(s[..n], mean, std, k);
      places := earlier + if Near(s[n], mean, std, k) then [n] else [];
      assert s == s[..n] + [s[n]];
      KeptOfSum(s[..n], [s[n]], mean, std, k);
      OneMorePlace(s, earlier, Kept(s[..n], mean, std, k));
      assert Kept([s[n]], mean, std, k) == if Near(s[n], mean, std, k) then [s[n]] else [];
      assert n !in earlier;
    }
  }

  lemma OneMorePlace(s: seq<real>, places: seq<nat>, kept: seq<real>)
    requires s != [] && ReadAt(s[..|s| - 1], places, kept)
    ensures ReadAt(s, places, kept) && ReadAt(s, places + [|s| - 1], kept + [s[|s| - 1]])
    ensures |s| - 1 !in places
  {
  }

  /** So each value within k standard deviations is kept as often as it occurs, and no other is. */
  lemma {:induction false} KeptAsOften(s: seq<real>, mean: real, std: real, k: real)
    ensures forall x | mean - k * std <= x <= mean + k * std :: multiset(Kept(s, mean, std, k))[x] == multiset(s)[x]
    ensures forall x | x in Kept(s, mean, std, k) :: mean - k * std <= x <= mean + k * std
    ensures |Kept(s, mean, std, k)| <= |s|
  {
    if s != [] {
      KeptAsOften(s[1..], mean, std, k);
      assert s == [s[0]] + s[1..];
    }
  }

  // ----- Chebyshev -----

  function Removed(s: seq<real>, mean: real, std: real, k: real): real {
    (|s| - |Kept(s, mean, std, k)|) as real
  }

  // Each removed value contributes more than (k std)^2.
  lemma {:induction false} RemovedWeigh(s: seq<real>, mean: real, std: real, k: real)
    requires std > 0.0 && k >= 0.0
    ensures Weighs(Removed(s, mean, std, k), Square(k * std), SquaredDeviations(s, mean))
  {
    if s != [] {
      hide Square, Weighs;
      var rest := s[1..];
      RemovedWeigh(rest, mean, std, k);
      Product(k, std);
      OneMoreValue(s[0] - mean, k * std, Removed(rest, mean, std, k), SquaredDeviations(rest, mean));
      assert Removed(s, mean, std, k) == Removed(rest, mean, std, k) + if Near(s[0], mean, std, k) then 0.0 else 1.0;
    } else {
      NothingWeighs(Square(k * std));
    }
  }

  // removed values of weight more than w each, none of them weighing nothing.
  predicate Weighs(removed: real, w: real, total: real) {
    removed >= 0.0 && total >= removed * w && (removed > 0.0 ==> total > removed * w)
  }

  lemma NothingWeighs(w: real)
    ensures Weighs(0.0, w, 0.0)
  {
  }

  lemma OneMoreValue(d: real, a: real, removed: real, rest: real)
    requires a >= 0.0 && Weighs(removed, Square(a), rest)
    ensures Weighs(removed, Square(a), Square(d) + rest)
    ensures Abs(d) > a ==> Weighs(removed + 1.0, Square(a), Square(d) + rest)
  {
    var w := Square(a);
    if Abs(d) > a {
      SquareGrows(a, d);
      assert (removed + 1.0) * w == removed * w + w;
    }
  }

  lemma Product(x: real, y: real)
    requires x >= 0.0 && y >= 0.0
    ensures x * y >= 0.0
  {
  }

  lemma ProductPositive(x: real, y: real)
    requires x > 0.0 && y > 0.0
    ensures x * y > 0.0
  {
  }

  lemma DifferenceOfSquares(a: real, e: real)
    ensures (e - a) * (e + a) == e * e - a * a
  {
  }

  lemma LargerSquare(a: real, e: real)
    requires 0.0 <= a < e
    ensures a * a < e * e
  {
    ProductPositive(e - a, e + a);
    DifferenceOfSquares(a, e);
  }

  lemma SquareGrowsUp(a: real, e: real)
    requires 0.0 <= a < e
    ensures Square(a) < Square(e)
  {
    LargerSquare(a, e);
  }

  lemma SquareOfNegative(d: real)
    ensures Square(-d) == Square(d)
  {
  }

  lemma SquareGrows(a: real, d: real)
    requires 0.0 <= a < Abs(d)
    ensures Square(a) < Square(d)
  {
    SquareGrowsUp(a, Abs(d));
    SquareOfNegative(d);
  }

  /**
   Chebyshev's bound: at most n / k^2 values are removed, strictly fewer if any is, for
   every threshold k >= 0.
   */
  lemma Chebyshev(s: seq<real>, mean: real, std: real, k: real)
    requires Describes(s, mean, std) && std > 0.0 && k >= 0.0
    ensures var removed := Removed(s, mean, std, k);
      && removed * (k * k) <= |s| as real
      && (removed > 0.0 ==> removed * (k * k) < |s| as real)
  {
    hide *;
    RemovedWeigh(s, mean, std, k);
    Deviations(s, mean, std);
    SquareOfProduct(Removed(s, mean, std, k), k, std);
    SquareGrowsUp(0.0, std);
    BoundFromWeight(Removed(s, mean, std, k), Square(k * std), SquaredDeviations(s, mean),
                    k * k, |s| as real, Square(std));
  }

  lemma BoundFromWeight(removed: real, w: real, total: real, kk: real, n: real, v: real)
    requires Weighs(removed, w, total) && total == n * v && removed * w == (removed * kk) * v && v > 0.0
    ensures removed * kk <= n && (removed > 0.0 ==> removed * kk < n)
  {
    CancelPositive(removed * kk, n, v);
  }

  lemma Deviations(s: seq<real>, mean: real, std: real)
    requires Describes(s, mean, std)
    ensures SquaredDeviations(s, mean) == |s| as real * Square(std)
  {
  }

  lemma SquareOfProduct(removed: real, k: real, std: real)
    ensures removed * Square(k * std) == (removed * (k * k)) * Square(std)
  {
    var v := std * std;
    assert (k * std) * (k * std) == (k * k) * v;
  }

  lemma CancelPositive(a: real, b: real, v: real)
    requires v > 0.0
    ensures a * v <= b * v ==> a <= b
    ensures a * v < b * v ==> a < b
  {
    if a > b {
      ProductPositive(a - b, v);
      assert (a - b) * v == a * v - b * v;
    } else if a == b {
    } else {
      ProductPositive(b - a, v);
    }
  }

  /** With a threshold of at least one the filter keeps something, so the fallback never applies. */
  lemma KeepsSomething(s: seq<real>, mean: real, std: real, k: real)
    requires Describes(s, mean, std) && std > 0.0 && k >= 1.0
    ensures Kept(s, mean, std, k) != []
  {
    Chebyshev(s, mean, std, k);
    var n, x := |s| as real, k * k;
    Product(k - 1.0, k);
    assert (k - 1.0) * k == x - k;
    Product(x - 1.0, n);
    assert (x - 1.0) * n == n * x - n;
  }

  lemma {:induction false} NoneNearNoneKept(s: seq<real>, mean: real, std: real, k: real)
    requires forall i | 0 <= i < |s| :: !Near(s[i], mean, std, k)
    ensures Kept(s, mean, std, k) == []
  {
    if s != [] {
      NoneNearNoneKept(s[1..], mean, std, k);
    }
  }

  ghost predicate AlwaysKeepsSomething(k: real) {
    forall s, mean, std | |s| >= 3 && Describes(s, mean, std) && std > 0.0 :: Kept(s, mean, std, k) != []
  }

  /** One is exactly the threshold from which the fallback is dead code. */
  lemma FallbackDeadIffThresholdAtLeastOne(k: real)
    ensures AlwaysKeepsSomething(k) <==> k >= 1.0
  {
    if k >= 1.0 {
      forall s, mean, std | |s| >= 3 && Describes(s, mean, std) && std > 0.0
        ensures Kept(s, mean, std, k) != []
      {
        KeepsSomething(s, mean, std, k);
      }
    } else {
      var s := [-1.0, 1.0, -1.0, 1.0];
      assert s[1..] == [1.0, -1.0, 1.0] && s[1..][1..] == [-1.0, 1.0] && s[1..][1..][1..] == [1.0];
      assert Sum(s) == 0.0 && SquaredDeviations(s, 0.0) == 4.0;
      assert Describes(s, 0.0, 1.0);
      NoneNearNoneKept(s, 0.0, 1.0, k);
    }
  }
}
