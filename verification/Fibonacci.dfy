/** The retry delays of broker/utils.go and httpclient/utils.go: the least
    Fibonacci number above the attempt, bounded by a cap. */
module Fibonacci {
  import opened Wrappers
  import opened Integers

  /** durationMax of broker/broker.go. */
  const BROKER_CAP: int64 := 24
  /** The literal cap of httpclient/utils.go. */
  const HTTP_CAP: int64 := 16

  /** Fib(92), the largest Fibonacci number that fits in an int64. */
  const LARGEST_FIB: int := 7540113804746346429

  /** The most rounds the loop takes when no sum wraps. */
  const ROUNDS: nat := 90

  function Fib(n: nat): nat {
    if n < 2 then n else Fib(n - 1) + Fib(n - 2)
  }

  /** r is the smallest Fibonacci number greater than x. */
  ghost predicate LeastFibAbove(x: int, r: int) {
    && x < r
    && (exists n: nat :: Fib(n) == r)
    && forall n: nat :: x < Fib(n) ==> r <= Fib(n)
  }

  lemma {:induction false} FibGrows(m: nat, n: nat)
    requires 2 <= m < n
    ensures Fib(m) < Fib(n)
    decreases n
  {
    FibPositive(n - 2);
    if m == n - 1 {
    } else {
      FibGrows(m, n - 1);
    }
  }

  lemma {:induction false} FibPositive(n: nat)
    ensures n > 0 ==> Fib(n) > 0
  {
    if n < 2 {
    } else {
      FibPositive(n - 1);
      FibPositive(n - 2);
    }
  }

  /** Once Fib(n) exceeds x and every earlier one does not, Fib(n) is the least above x. */
  lemma FirstAboveIsLeast(n: nat, x: nat)
    requires 2 <= n && x < Fib(n)
    requires n == 2 || Fib(n - 1) <= x
    ensures LeastFibAbove(x, Fib(n))
  {
    forall m: nat | x < Fib(m)
      ensures Fib(n) <= Fib(m)
    {
      if 2 <= m < n - 1 {
        FibGrows(m, n - 1);
      } else if n < m {
        FibGrows(n, m);
      }
    }
  }

  function Clamp(attempt: int): nat {
    if attempt < 0 then 0 else attempt
  }

  function Min(x: int, y: int): int {
    if x <= y then x else y
  }

  /** The search of both source loops, on unbounded integers: b of the loop is Fib(n). */
  function Climb(n: nat, x: nat): (r: nat)
    requires n >= 2 && (n == 2 || Fib(n - 1) <= x)
    ensures LeastFibAbove(x, r)
    decreases if Fib(n) <= x then x - Fib(n) + 1 else 0
  {
    if Fib(n) <= x then
      FibGrows(n, n + 1);
      Climb(n + 1, x)
    else
      FirstAboveIsLeast(n, x);
      Fib(n)
  }

  /** The least Fibonacci number above max(attempt, 0). */
  function FibAbove(attempt: int): (r: nat)
    ensures LeastFibAbove(Clamp(attempt), r)
  {
    Climb(2, Clamp(attempt))
  }

  /** The delay both sources return, before any int64 limit. */
  function Delay(attempt: int, cap: int): int {
    Min(FibAbove(attempt), cap)
  }

  lemma Regroup(u: int, v: int, x: int, y: int)
    ensures u * y + v * (x + y) == v * x + (u + v) * y
  {
  }

  lemma {:induction false} FibAdd(n: nat, k: nat)
    ensures Fib(n + k + 1) == Fib(k) * Fib(n) + Fib(k + 1) * Fib(n + 1)
    decreases k
  {
    if k == 0 {
    } else {
      FibAdd(n + 1, k - 1);
      Regroup(Fib(k - 1), Fib(k), Fib(n), Fib(n + 1));
      assert Fib(n + 2) == Fib(n) + Fib(n + 1);
      assert Fib(k + 1) == Fib(k - 1) + Fib(k);
    }
  }

  /** Index doubling, from the pair (x, y) at n to the pair at k = 2 n + 1. */
  lemma FibDouble(n: nat, x: nat, y: nat) returns (k: nat)
    requires Fib(n) == x && Fib(n + 1) == y
    ensures k == n + n + 1 && Fib(k) == x * x + y * y && Fib(k + 1) == y * x + (x + y) * y
  {
    FibAdd(n, n);
    FibAdd(n, n + 1);
    assert Fib(n + 2) == x + y;
    k := n + n + 1;
  }

  /** The index k of the largest Fibonacci number in int64 range. */
  lemma LargestIndex() returns (k: nat)
    ensures 2 <= k <= ROUNDS + 2 && Fib(k) == LARGEST_FIB && Fib(k + 1) > MAX_INT64
  {
    assert Fib(10) == 55 && Fib(11) == 89;
    var n := FibDouble(10, 55, 89);
    assert Fib(n + 1) == 17711 && Fib(n + 2) == 28657;
    n := FibDouble(n + 1, 17711, 28657);
    n := FibDouble(n, 1134903170, 1836311903);
    k := n + 1;
    assert Fib(k + 1) == Fib(k) + Fib(n);
  }

  /** Exactly when the source loop overflows: the last b it computes is FibAbove(attempt),
      the largest of the run, and it fits in an int64 iff the attempt is below Fib(92). */
  lemma LoopFitsExactly(attempt: int)
    ensures FibAbove(attempt) <= MAX_INT64 <==> attempt < LARGEST_FIB
  {
    var k := LargestIndex();
    var r := FibAbove(attempt);
    var n: nat :| Fib(n) == r;
    if attempt >= LARGEST_FIB {
      if 2 <= n < k {
        FibGrows(n, k);
      } else if n > k + 1 {
        FibGrows(k + 1, n);
      }
    }
  }

  /** The delay never shrinks as attempts grow, is strictly above any attempt below the
      cap, and stays at the cap once there. */
  lemma DelayClimbs(x: int, y: int, cap: int)
    requires x <= y && cap > 0
    ensures Delay(x, cap) <= Delay(y, cap) <= cap
    ensures x < cap ==> x < Delay(x, cap)
    ensures Delay(cap, cap) == cap
  {
    var n: nat :| Fib(n) == FibAbove(y);
  }

  /** The two sources differ in their caps only: their delays agree exactly for attempts
      below 13, and otherwise broker/utils.go waits longer. */
  lemma CapsAgreeExactly(attempt: int)
    ensures Delay(attempt, BROKER_CAP as int) == Delay(attempt, HTTP_CAP as int) <==> attempt < 13
    ensures attempt >= 13 ==> Delay(attempt, HTTP_CAP as int) == 16
    ensures attempt >= 21 ==> Delay(attempt, BROKER_CAP as int) == 24
    ensures Delay(attempt, HTTP_CAP as int) == Min(Delay(attempt, BROKER_CAP as int), HTTP_CAP as int)
  {
    assert Fib(7) == 13 && Fib(8) == 21;
    var n: nat :| Fib(n) == FibAbove(attempt);
    if n < 7 {
      if 2 <= n {
        FibGrows(n, 7);
      }
      assert Fib(n) < 13;
    } else if n > 7 && attempt < 13 {
      assert FibAbove(attempt) <= Fib(7);
      FibGrows(7, n);
    } else if n > 8 {
      FibGrows(8, n);
      assert Fib(9) == 34;
      if n > 9 {
        FibGrows(9, n);
      }
    }
  }

  // ----- the loop as it runs on int64, for every attempt -----

  /** The source loop for at most fuel rounds; None when it has not ended by then. */
  function WrappedLoop(a: int, b: int, x: int, fuel: nat): Option<int>
    decreases fuel
  {
    if b > x then Some(b)
    else if fuel == 0 then None
    else WrappedLoop(b, Wrap64(a + b), x, fuel - 1)
  }

  lemma {:induction false} WrappedLoopStaysInt64(a: int, b: int, x: int, fuel: nat)
    requires IsInt64(b)
    ensures var r := WrappedLoop(a, b, x, fuel); r.Some? ==> IsInt64(r.value)
    decreases fuel
  {
    if fuel == 0 {
    } else if b <= x {
      WrappedLoopStaysInt64(b, Wrap64(a + b), x, fuel - 1);
    }
  }

  lemma {:induction false} WrappedLoopWithMore(a: int, b: int, x: int, fuel: nat, more: nat)
    requires WrappedLoop(a, b, x, fuel).Some? && fuel <= more
    ensures WrappedLoop(a, b, x, more) == WrappedLoop(a, b, x, fuel)
    decreases fuel
  {
    if fuel == 0 {
    } else if b <= x {
      WrappedLoopWithMore(b, Wrap64(a + b), x, fuel - 1, more - 1);
    }
  }

  lemma SumFits(n: nat, k: nat)
    requires 2 <= n < k && Fib(k) <= MAX_INT64
    ensures Wrap64(Fib(n - 1) + Fib(n)) == Fib(n + 1)
  {
    if n + 1 < k {
      FibGrows(n + 1, k);
    }
    FibPositive(n - 1);
    FibPositive(n);
  }

  /** Below Fib(k) in range, the wrapped loop is the unbounded one. */
  lemma {:induction false} WrappedLoopClimbs(n: nat, k: nat, x: nat)
    requires 2 <= n <= k && x < Fib(k) <= MAX_INT64 && (n == 2 || Fib(n - 1) <= x)
    ensures WrappedLoop(Fib(n - 1), Fib(n), x, k - n) == Some(Climb(n, x))
    decreases k - n
  {
    if n == k {
    } else if Fib(n) <= x {
      SumFits(n, k);
      WrappedLoopClimbs(n + 1, k, x);
    }
  }

  /** Below Fib(92) no sum wraps, and the loop ends within 90 rounds. */
  lemma InRangeEnds(attempt: int, fuel: nat)
    requires attempt < LARGEST_FIB && fuel >= ROUNDS
    ensures WrappedLoop(1, 1, Clamp(attempt), fuel) == Some(FibAbove(attempt))
  {
    var k := LargestIndex();
    WrappedLoopClimbs(2, k, Clamp(attempt));
    WrappedLoopWithMore(1, 1, Clamp(attempt), k - 2, fuel);
  }

  /** The source function on int64, cut off after fuel rounds, for every attempt: it runs
      the wrapped loop, and below Fib(92) the result is the least Fibonacci number above the
      attempt, bounded by the cap. */
  method Fibo(attempt: int64, cap: int64, fuel: nat) returns (r: Option<int64>)
    ensures r.Some? <==> WrappedLoop(1, 1, Clamp(attempt as int), fuel).Some?
    ensures r.Some? ==> r.value as int == Min(WrappedLoop(1, 1, Clamp(attempt as int), fuel).value, cap as int)
    ensures attempt as int < LARGEST_FIB && fuel >= ROUNDS ==>
      r.Some? && r.value as int == Delay(attempt as int, cap as int)
  {
    var x := if attempt < 0 then 0 else attempt;
    var a: int64, b: int64 := 1, 1;
    var left := fuel;
    if attempt as int < LARGEST_FIB && fuel >= ROUNDS {
      InRangeEnds(attempt as int, fuel);
    }
    while b <= x
      invariant WrappedLoop(a as int, b as int, x as int, left) == WrappedLoop(1, 1, x as int, fuel)
      decreases left
    {
      if left == 0 {
        return None;
      }
      a, b := b, Wrap64(a as int + b as int) as int64;
      left := left - 1;
    }
    if b > cap {
      return Some(cap);
    }
    return Some(b);
  }

  /** The wrapped loop ends within fuel rounds, at r. */
  predicate EndsAt(attempt: int, fuel: nat, r: int) {
    WrappedLoop(1, 1, Clamp(attempt), fuel) == Some(r)
  }

  /** For every attempt: the loop as it runs on int64 ends with the least Fibonacci number
      above the attempt exactly when the attempt is below Fib(92). */
  lemma WrappedLoopExactly(attempt: int)
    requires IsInt64(attempt)
    ensures (exists fuel :: EndsAt(attempt, fuel, FibAbove(attempt)))
       <==> attempt < LARGEST_FIB
  {
    LoopFitsExactly(attempt);
    if attempt < LARGEST_FIB {
      InRangeEnds(attempt, ROUNDS);
      assert EndsAt(attempt, ROUNDS, FibAbove(attempt));
    } else {
      forall fuel: nat
        ensures !EndsAt(attempt, fuel, FibAbove(attempt))
      {
        WrappedLoopStaysInt64(1, 1, Clamp(attempt), fuel);
      }
    }
  }

  /** On the largest attempt no b exceeds it, so the loop never ends. */
  lemma {:induction false} LargestAttemptNeverEnds(a: int, b: int, fuel: nat)
    requires IsInt64(b)
    ensures WrappedLoop(a, b, MAX_INT64, fuel) == None
    decreases fuel
  {
    if fuel == 0 {
    } else {
      LargestAttemptNeverEnds(b, Wrap64(a + b), fuel - 1);
    }
  }
}
