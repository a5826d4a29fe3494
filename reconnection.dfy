/** ExponentialBackoffTcpReconnectionPolicy: retry a connect until it succeeds, waiting
    1, 3, 7, 15, ... seconds (capped at ten minutes) between attempts. */
module Reconnection {
  import opened Common
  import opened Exceptions

  /** The cap on a wait, in seconds: ten minutes. */
  const Ceiling: nat := 10 * 60

  function Min(a: int, b: int): int {
    if a <= b then a else b
  }

  function Pow2(n: nat): (p: nat)
    ensures p >= 1
  {
    if n == 0 then 1 else 2 * Pow2(n - 1)
  }

  /** The wait, in seconds, after the failure of attempt n (0-based): the first wait is one
      second and each next wait is min((d + 1) * 2 - 1, Ceiling) of the previous one. */
  function Delay(n: nat): (d: nat)
    ensures 1 <= d <= Ceiling
  {
    if n == 0 then 1 else Min((Delay(n - 1) + 1) * 2 - 1, Ceiling)
  }

  /** The (n+1)-th wait is min(Ceiling, 2^(n+1) - 1) seconds. */
  lemma {:induction false} DelayClosedForm(n: nat)
    ensures Delay(n) == Min(Ceiling, Pow2(n + 1) - 1)
  {
    if n > 0 {
      DelayClosedForm(n - 1);
      assert Pow2(n + 1) == 2 * Pow2(n);
    }
  }

  /** Waits never shrink. */
  lemma {:induction false} DelayMonotone(m: nat, n: nat)
    requires m <= n
    ensures Delay(m) <= Delay(n)
    decreases n - m
  {
    if m < n {
      DelayMonotone(m, n - 1);
    }
  }

  /** Once a wait reaches the ceiling, every later wait is the ceiling. */
  lemma {:induction false} DelayPlateau(m: nat, n: nat)
    requires m <= n && Delay(m) == Ceiling
    ensures Delay(n) == Ceiling
    decreases n - m
  {
    if m < n {
      DelayPlateau(m, n - 1);
    }
  }

  /** The wait reaches the ceiling at the tenth failure (2^10 - 1 = 1023 > 600). */
  lemma DelayReachesCeiling(n: nat)
    requires n >= 9
    ensures Delay(n) == Ceiling
  {
    DelayClosedForm(9);
    DelayPlateau(9, n);
  }

  /** What one connect attempt did: returned a stream or threw. */
  datatype ConnectOutcome = Opened(stream: nat) | Threw(e: Exn)

  /** What ConnectAsync returns: a stream, null after cancellation, or an exception it lets through. */
  datatype Connection = Connected(stream: nat) | Cancelled | Propagated(e: Exn)

  /** The failures after which the policy waits and tries again: a SocketException, or an
      IOException whose inner exception is a SocketException. Every other exception escapes. */
  predicate Retried(e: Exn) {
    e.kind.SocketException? ||
    (e.kind.IOException? && e.inner.Some? && e.inner.value.kind.SocketException?)
  }

  /** The connect loop from its `k`-th test on: what it returns and how many attempts have been
      made in all when it does. */
  function ConnectFrom(attempt: nat -> ConnectOutcome, k: nat, cancelAt: nat): (r: (Connection, nat))
    requires k <= cancelAt
    ensures k <= r.1 <= cancelAt
    ensures r.0.Cancelled? ==> r.1 == cancelAt
    decreases cancelAt - k
  {
    if k == cancelAt then (Cancelled, k)
    else match attempt(k)
      case Opened(s) => (Connected(s), k + 1)
      case Threw(e) => if Retried(e) then ConnectFrom(attempt, k + 1, cancelAt) else (Propagated(e), k + 1)
  }

  /** What every attempt of the loop from test `k` on did: all but the last threw an exception
      that is retried, and the last one is the one that connected or threw the exception that
      escapes. */
  lemma {:induction false} ConnectFromAttempts(attempt: nat -> ConnectOutcome, k: nat, cancelAt: nat)
    requires k <= cancelAt
    ensures var (r, n) := ConnectFrom(attempt, k, cancelAt);
      (forall j :: k <= j < n && (r.Cancelled? || j < n - 1) ==> attempt(j).Threw? && Retried(attempt(j).e)) &&
      (r.Connected? ==> k < n && attempt(n - 1) == Opened(r.stream)) &&
      (r.Propagated? ==> k < n && attempt(n - 1) == Threw(r.e) && !Retried(r.e))
    decreases cancelAt - k
  {
    if k < cancelAt && attempt(k).Threw? && Retried(attempt(k).e) {
      ConnectFromAttempts(attempt, k + 1, cancelAt);
    }
  }

  /** The exceptions that OpenSocket hands to the failure handler before rethrowing them: one
      for each of the first `n` attempts that threw, in order. */
  function Reports(attempt: nat -> ConnectOutcome, n: nat): (s: seq<Exn>)
    ensures |s| <= n
  {
    if n == 0 then []
    else Reports(attempt, n - 1) + (if attempt(n - 1).Threw? then [attempt(n - 1).e] else [])
  }

  lemma {:induction false} ReportsOfThrown(attempt: nat -> ConnectOutcome, n: nat)
    requires forall j :: 0 <= j < n ==> attempt(j).Threw?
    ensures |Reports(attempt, n)| == n
    ensures forall j :: 0 <= j < n ==> Reports(attempt, n)[j] == attempt(j).e
  {
    if n > 0 {
      ReportsOfThrown(attempt, n - 1);
    }
  }

  /** Every failed attempt of one connect is reported, in order, and only those: all attempts
      but a last one that connected. */
  lemma ConnectReportsEveryFailure(attempt: nat -> ConnectOutcome, cancelAt: nat)
    ensures var (r, n) := ConnectFrom(attempt, 0, cancelAt);
      var reported := Reports(attempt, n);
      |reported| == (if r.Connected? then n - 1 else n) &&
      (forall j :: 0 <= j < |reported| ==> attempt(j) == Threw(reported[j])) &&
      (r.Propagated? ==> reported[n - 1] == r.e)
  {
    ConnectFromAttempts(attempt, 0, cancelAt);
    var (r, n) := ConnectFrom(attempt, 0, cancelAt);
    if r.Connected? {
      ReportsOfThrown(attempt, n - 1);
      assert Reports(attempt, n) == Reports(attempt, n - 1);
    } else {
      ReportsOfThrown(attempt, n);
    }
  }

  /** The connect loop. `attempt(k)` is the outcome of the k-th connect; the cancellation token
      is first seen set by the `cancelAt`-th test of the loop condition (0-based); the returned
      `waits` are the delays slept, in seconds. */
  method ConnectAsync(attempt: nat -> ConnectOutcome, cancelAt: nat)
    returns (r: Connection, attempts: nat, waits: seq<nat>)
    ensures attempts <= cancelAt
    ensures forall j {:trigger waits[j]} :: 0 <= j < |waits| ==> waits[j] == Delay(j)
    ensures forall j :: 0 <= j < |waits| ==> attempt(j).Threw? && Retried(attempt(j).e)
    ensures r.Cancelled? ==> attempts == cancelAt && |waits| == cancelAt
    ensures !r.Cancelled? ==> attempts == |waits| + 1
    ensures r.Connected? ==> attempt(attempts - 1) == Opened(r.stream)
    ensures r.Propagated? ==> attempt(attempts - 1) == Threw(r.e) && !Retried(r.e)
    ensures (r, attempts) == ConnectFrom(attempt, 0, cancelAt)
  {
    var delay := 1;
    var tests := 0;
    attempts, waits := 0, [];
    while tests < cancelAt
      invariant tests <= cancelAt
      invariant attempts == tests && |waits| == tests
      invariant forall j {:trigger waits[j]} :: 0 <= j < |waits| ==> waits[j] == Delay(j)
      invariant forall j :: 0 <= j < |waits| ==> attempt(j).Threw? && Retried(attempt(j).e)
      invariant delay == Delay(tests)
      invariant ConnectFrom(attempt, tests, cancelAt) == ConnectFrom(attempt, 0, cancelAt)
      decreases cancelAt - tests
    {
      var outcome := attempt(attempts);
      attempts := attempts + 1;
      if outcome.Opened? {
        r := Connected(outcome.stream);
        return;
      }
      if !Retried(outcome.e) {
        r := Propagated(outcome.e);
        return;
      }
      waits := waits + [delay];
      assert Delay(tests + 1) == Min((Delay(tests) + 1) * 2 - 1, Ceiling);
      delay := Min((delay + 1) * 2 - 1, Ceiling);
      tests := tests + 1;
    }
    r := Cancelled;
  }
}
