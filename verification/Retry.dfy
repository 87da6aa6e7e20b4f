/** POST with retries on network errors and a linear backoff. */
module Retry {
  import opened Wrappers

  // What one POST does. Other stands for any exception the loop does not catch, such as an
  // answer whose body is not JSON.
  datatype Attempt = Json(body: string) | Transient | BadStatus(code: int) | Other(message: string)

  datatype Failure = StatusError(code: int) | Exhausted(attempts: int) | Uncaught(message: string)

  predicate Settled(a: Attempt) {
    !a.Transient?
  }

  // 1 + 2 + ... + k
  function Triangle(k: nat): nat {
    k * (k + 1) / 2
  }

  lemma TriangleStep(k: nat)
    ensures Triangle(k + 1) == Triangle(k) + k + 1
  {
    assert (k + 1) * (k + 2) == k * (k + 1) + 2 * (k + 1);
  }

  /** Attempt i is the first one that is not transient. */
  ghost predicate FirstSettled(post: nat -> Attempt, i: nat) {
    Settled(post(i)) && forall j: nat | j < i :: post(j).Transient?
  }

  /**
   post(i) is what the (i+1)-th POST would do. The loop stops at the first attempt that is
   not transient, with that attempt's answer, or gives up after maxRetries + 1 transient
   ones. Before its (i+1)-th retry it sleeps (i + 1) backoffs, so the time slept is the
   backoff times a triangular number of the retries made.
   */
  method PostWithRetry(post: nat -> Attempt, maxRetries: int, backoff: nat)
    returns (r: Result<string, Failure>, posts: nat, slept: nat)
    ensures forall i: nat | FirstSettled(post, i) && i <= maxRetries ::
      posts == i + 1
      && match post(i)
         case Json(body) => r == Ok(body)
         case BadStatus(code) => r == Err(StatusError(code))
         case Other(m) => r == Err(Uncaught(m))
    ensures (forall i: nat | i <= maxRetries :: post(i).Transient?) ==>
      posts == (if maxRetries < 0 then 0 else maxRetries + 1) && r == Err(Exhausted(maxRetries + 1))
    ensures slept == backoff * Triangle(if posts == 0 then 0 else posts - 1)
  {
    posts, slept := 0, 0;
    for attempt := 0 to (if maxRetries < 0 then 0 else maxRetries + 1)
      invariant posts == attempt
      invariant forall j: nat | j < attempt :: post(j).Transient?
      invariant slept == backoff * Triangle(if attempt > maxRetries >= 0 then maxRetries else attempt)
    {
      posts := posts + 1;
      match post(attempt)
      case Json(body) => return Ok(body), posts, slept;
      case BadStatus(code) => return Err(StatusError(code)), posts, slept;
      case Other(m) => return Err(Uncaught(m)), posts, slept;
      case Transient =>
        if attempt < maxRetries {
          TriangleStep(attempt);
          SleepAdds(backoff, attempt);
          slept := slept + backoff * (attempt + 1);
        }
    }
    r := Err(Exhausted(maxRetries + 1));
  }

  lemma SleepAdds(backoff: nat, k: nat)
    ensures backoff * Triangle(k + 1) == backoff * Triangle(k) + backoff * (k + 1)
  {
    TriangleStep(k);
    assert backoff * (Triangle(k) + (k + 1)) == backoff * Triangle(k) + backoff * (k + 1);
  }

  /** The number of POSTs is decided: some attempt settles the loop, or all are transient. */
  lemma {:induction false} SettledOrExhausted(post: nat -> Attempt, n: nat)
    ensures (exists i: nat :: FirstSettled(post, i) && i < n) || (forall i: nat | i < n :: post(i).Transient?)
  {
    if n > 0 {
      SettledOrExhausted(post, n - 1);
      if forall i: nat | i < n - 1 :: post(i).Transient? {
        if Settled(post(n - 1)) {
          assert FirstSettled(post, n - 1);
        }
      }
    }
  }
}
