/** Forwarding a query to a list of servers, one after the other, within a time
    budget shared between them. Times are in nanoseconds. */
module Failover {
  import opened Wrappers
  import opened Collect

  const BUDGET: nat := 5_000_000_000
  const TWO_32: nat := 0x1_0000_0000

  datatype Protocol = Udp | Tcp

  /** What happened with one server: how long connecting took and whether it
      succeeded (TCP only), how long the exchange took, and the response, if
      one came, as whether it can be serialised. */
  datatype Attempt = Attempt(connected: bool, connectTime: nat, response: Option<bool>, exchangeTime: nat)

  datatype Forwarded = Panicked | Done(replied: Option<nat>, replies: nat, elapsed: nat)

  /** The time for each of `n` servers; the count is cut to 32 bits, and a
      division by zero is a panic. */
  function Timeout(n: nat): Option<nat>
  {
    if n == 0 then Some(BUDGET)
    else if n % TWO_32 == 0 then None
    else Some(BUDGET / (n % TWO_32))
  }

  predicate Serves(proto: Protocol, a: Attempt)
  {
    (proto == Udp || a.connected) && a.response == Some(true)
  }

  function TimeSpent(proto: Protocol, a: Attempt): nat
  {
    match proto
    case Udp => a.exchangeTime
    case Tcp => a.connectTime + (if a.connected then a.exchangeTime else 0)
  }

  function TotalTime(proto: Protocol, attempts: seq<Attempt>): nat
  {
    if attempts == [] then 0
    else TotalTime(proto, attempts[..|attempts| - 1]) + TimeSpent(proto, attempts[|attempts| - 1])
  }

  /** The number of attempts made: up to the first that serves. */
  function Tried(replied: Option<nat>, n: nat): nat
  {
    match replied case Some(k) => k + 1 case None => n
  }

  method ForwardToServers(proto: Protocol, attempts: seq<Attempt>) returns (r: Forwarded)
    ensures r.Panicked? <==> |attempts| > 0 && |attempts| % 0x1_0000_0000 == 0
    ensures r.Done? && r.replied.Some? ==>
              && r.replied.value < |attempts|
              && attempts[r.replied.value].response == Some(true)
              && (proto == Tcp ==> attempts[r.replied.value].connected)
              && r.replies == 1
              && forall i | 0 <= i < r.replied.value :: !Serves(proto, attempts[i])
    ensures r.Done? && r.replied.None? ==>
              r.replies == 0 && forall i | 0 <= i < |attempts| :: !Serves(proto, attempts[i])
    ensures r.Done? ==> r.elapsed == TotalTime(proto, attempts[..Tried(r.replied, |attempts|)])
  {
    if |attempts| != 0 && |attempts| % TWO_32 == 0 {
      return Panicked;
    }
    var replied: Option<nat>, replies: nat, elapsed: nat := None, 0, 0;
    for i := 0 to |attempts|
      invariant replied.None? && replies == 0
      invariant forall j | 0 <= j < i :: !Serves(proto, attempts[j])
      invariant elapsed == TotalTime(proto, attempts[..i])
    {
      assert attempts[..i + 1][..i] == attempts[..i];
      var a := attempts[i];
      if proto == Tcp {
        elapsed := elapsed + a.connectTime;
        if !a.connected {
          continue;
        }
      }
      elapsed := elapsed + a.exchangeTime;
      if a.response.Some? {
        if a.response.value {
          replies := replies + 1;
          replied := Some(i);
          break;
        }
      }
    }
    assert replied.None? ==> attempts[..|attempts|] == attempts;
    return Done(replied, replies, elapsed);
  }

  // --------------------------------------------------------------- the budget

  ghost predicate ObeysTimeout(proto: Protocol, a: Attempt, timeout: nat)
  {
    a.exchangeTime <= timeout && (proto == Tcp ==> a.connectTime <= timeout)
  }

  function Phases(proto: Protocol): nat
  {
    match proto case Udp => 1 case Tcp => 2
  }

  lemma {:induction false} TimeBound(proto: Protocol, attempts: seq<Attempt>, timeout: nat)
    requires forall i | 0 <= i < |attempts| :: ObeysTimeout(proto, attempts[i], timeout)
    ensures TotalTime(proto, attempts) <= Phases(proto) * (|attempts| * timeout)
  {
    if attempts == [] {
      assert Phases(proto) * (0 * timeout) == 0;
    } else {
      var n := |attempts| - 1;
      TimeBound(proto, attempts[..n], timeout);
      assert (n + 1) * timeout == n * timeout + timeout;
      assert ObeysTimeout(proto, attempts[n], timeout);
    }
  }

  lemma DivisionBounds(m: nat)
    requires m > 0
    ensures (BUDGET / m) * m <= BUDGET < (BUDGET / m + 1) * m
  {
  }

  lemma QuotientPositive(q: nat, m: nat)
    requires BUDGET < (q + 1) * m && m < BUDGET
    ensures q >= 1
  {
  }

  /** Each server gets at least a nanosecond, and together they get no more than
      the budget exactly when the count was not cut. */
  lemma TimeoutShares(n: nat)
    requires n > 0 && Timeout(n).Some?
    ensures Timeout(n).value >= 1
    ensures n * Timeout(n).value <= BUDGET <==> n < TWO_32
  {
    var m, t := n % TWO_32, Timeout(n).value;
    DivisionBounds(m);
    assert 0 < m < TWO_32 < BUDGET;
    QuotientPositive(t, m);
    if n < TWO_32 {
      assert m == n;
    } else {
      CutCountOverruns(n, m, t);
    }
  }

  lemma CutCountOverruns(n: nat, m: nat, t: nat)
    requires n >= TWO_32 + m && 0 < m < TWO_32 && t >= 1
    requires BUDGET < (t + 1) * m
    ensures n * t > BUDGET
  {
    assert (t + 1) * m == t * m + m;
    MulMonotone(TWO_32 + m, n, t);
    assert (TWO_32 + m) * t == TWO_32 * t + m * t;
    MulMonotone(1, t, TWO_32);
    assert m * t == t * m;
  }

  lemma MulMonotone(a: nat, b: nat, c: nat)
    requires a <= b
    ensures a * c <= b * c && c * a <= c * b
  {
  }

  /** The share is the largest that fits: all of the five seconds for one
      server, or none, and a whole number of nanoseconds for more. */
  lemma LargestShare(n: nat)
    requires n < 0x1_0000_0000
    ensures Timeout(n).Some?
    ensures n <= 1 ==> Timeout(n) == Some(5_000_000_000)
    ensures n > 0 ==> n * Timeout(n).value <= 5_000_000_000 < n * (Timeout(n).value + 1)
  {
    if n > 0 {
      DivisionBounds(n);
      assert n % TWO_32 == n;
      var t := Timeout(n).value;
      assert n * t == t * n && n * (t + 1) == (t + 1) * n;
    }
  }

  /** A server fails to serve when it gave no response that can be serialised, or
      over TCP could not be connected. */
  lemma FailsExactly(proto: Protocol, a: Attempt)
    ensures !Serves(proto, a) <==> a.response != Some(true) || (proto == Tcp && !a.connected)
  {
  }

  function ExchangeTime(): Attempt -> nat
  {
    (a: Attempt) => a.exchangeTime
  }

  function TcpTime(): Attempt -> nat
  {
    (a: Attempt) => if a.connected then a.connectTime + a.exchangeTime else a.connectTime
  }

  /** The time is the sum of all exchanges and, over TCP, of all connections,
      an exchange taking place only on a connection. */
  lemma {:induction false} TimeAddsUp(attempts: seq<Attempt>)
    ensures TotalTime(Udp, attempts) == Sum(attempts, ExchangeTime())
    ensures TotalTime(Tcp, attempts) == Sum(attempts, TcpTime())
  {
    if attempts != [] {
      TimeAddsUp(attempts[..|attempts| - 1]);
    }
  }

  /** If every attempt obeys its timeout, all attempts made take at most 5
      seconds over UDP and 10 over TCP, for any list of fewer than 2^32. */
  lemma FailoverBound(proto: Protocol, attempts: seq<Attempt>, tried: nat)
    requires 0 < |attempts| < TWO_32 && tried <= |attempts|
    requires forall i | 0 <= i < |attempts| :: ObeysTimeout(proto, attempts[i], Timeout(|attempts|).value)
    ensures TotalTime(proto, attempts[..tried]) <= Phases(proto) * BUDGET
  {
    var t := Timeout(|attempts|).value;
    TimeoutShares(|attempts|);
    TimeBound(proto, attempts[..tried], t);
    MulMonotone(tried, |attempts|, t);
    MulMonotone(tried * t, BUDGET, Phases(proto));
  }
}
