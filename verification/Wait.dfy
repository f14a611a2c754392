/** Waiting with growing sleeps: each sleep is the sum of the two before, and the last one is cut to what is left. */
module Wait {

  const MSEC_PER_SEC: nat := 1000

  function FirstSleep(waitTime: nat): nat {
    if waitTime >= MSEC_PER_SEC then MSEC_PER_SEC / 10 else waitTime / 10
  }

  function Sum(s: seq<nat>): nat {
    if s == [] then 0 else Sum(s[..|s| - 1]) + s[|s| - 1]
  }

  function Fib(n: nat): nat {
    if n < 2 then n else Fib(n - 2) + Fib(n - 1)
  }

  function Pow2(n: nat): nat {
    if n == 0 then 1 else 2 * Pow2(n - 1)
  }

  /** The first `n` sleeps are the first sleep times successive Fibonacci numbers. */
  ghost predicate Fibonacci(first: nat, slept: seq<nat>, n: nat) {
    n <= |slept| && forall i | 0 <= i < n :: slept[i] == first * Fib(i + 1)
  }

  /** All sleeps but the last are uncut, and the last is no longer than it would be uncut. */
  ghost predicate Ended(first: nat, slept: seq<nat>)
    requires slept != []
  {
    Fibonacci(first, slept, |slept| - 1) && slept[|slept| - 1] <= first * Fib(|slept|)
  }

  class Waiter {
    const waitTime: nat
    const beginTime: nat
    var remainTime: nat
    var sleepTime: nat
    var sleepPrevTime: nat

    // Sleeps so far, and the time that had elapsed after the last of them
    ghost var slept: seq<nat>
    ghost var elapsed: nat

    ghost predicate Valid()
      reads this
    {
      && Sum(slept) <= waitTime
      && (sleepTime > 0 ==> Pending())
      && (sleepTime == 0 && slept != [] ==> Ended(FirstSleep(waitTime), slept))
    }

    /** While more sleeps are to come, no sleep has been cut, and the next one is cut only to end with the wait. */
    ghost predicate Pending()
      reads this
    {
      var n := |slept|;
      var next := FirstSleep(waitTime) * Fib(n + 1);
      && Fibonacci(FirstSleep(waitTime), slept, n)
      && sleepPrevTime == FirstSleep(waitTime) * Fib(n)
      && Sum(slept) <= elapsed && elapsed + sleepTime <= waitTime
      && (sleepTime == next || (sleepTime < next && elapsed + sleepTime == waitTime))
    }

    constructor (waitTime: nat, now: nat)
      ensures Valid() && slept == [] && elapsed == 0
      ensures this.waitTime == waitTime && beginTime == now && sleepTime == FirstSleep(waitTime)
      ensures if waitTime < 1000 then 10 * sleepTime <= waitTime < 10 * sleepTime + 10 else sleepTime == 100
    {
      this.waitTime := waitTime;
      beginTime := now;
      remainTime := waitTime;
      sleepPrevTime := 0;
      sleepTime := if waitTime >= MSEC_PER_SEC then MSEC_PER_SEC / 10 else waitTime / 10;
      slept := [];
      elapsed := 0;
    }

    /** Sleeps once if the wait has not ended; `now` is the time after the sleep, on a clock that has moved at least as far
        as the sleep. */
    method More(now: nat) returns (more: bool)
      requires Valid() && (sleepTime > 0 ==> now >= beginTime + elapsed + sleepTime)
      modifies this
      ensures Valid() && more == (old(sleepTime) > 0)
      ensures slept == if more then old(slept) + [old(sleepTime)] else old(slept)
      ensures more ==> elapsed == now - beginTime
      ensures !more ==> sleepTime == 0 && elapsed == old(elapsed)
      ensures sleepTime > 0 ==> remainTime == waitTime - elapsed
    {
      more := false;
      if sleepTime > 0 {
        hide Fib;
        ghost var n := |slept|;
        slept := slept + [sleepTime];
        SumAppend(old(slept), sleepTime);
        var elapsedTime := now - beginTime;
        elapsed := elapsedTime;
        if elapsedTime < waitTime {
          var sleepNextTime := sleepTime + sleepPrevTime;
          FibStep(FirstSleep(waitTime), n);
          if sleepNextTime > waitTime - elapsedTime {
            sleepNextTime := waitTime - elapsedTime;
          }
          sleepPrevTime := sleepTime;
          sleepTime := sleepNextTime;
          remainTime := waitTime - elapsedTime;
        } else {
          sleepTime := 0;
        }
        more := true;
      }
    }
  }

  lemma SumAppend(s: seq<nat>, x: nat)
    ensures Sum(s + [x]) == Sum(s) + x
  {
  }

  lemma Distribute(first: nat, a: int, b: int)
    ensures first * a + first * b == first * (a + b)
  {
  }

  lemma FibStep(first: nat, n: nat)
    ensures first * Fib(n + 1) + first * Fib(n) == first * Fib(n + 2)
  {
  }

  // ----- How many sleeps there are -----

  lemma {:induction false} SumOfFibonacci(first: nat, slept: seq<nat>)
    requires Fibonacci(first, slept, |slept|)
    ensures Sum(slept) == first * (Fib(|slept| + 2) - 1)
  {
    if slept != [] {
      var n := |slept| - 1;
      SumOfFibonacci(first, slept[..n]);
      assert Fib(n + 3) == Fib(n + 1) + Fib(n + 2);
      Distribute(first, Fib(n + 2) - 1, Fib(n + 1));
    }
  }

  lemma {:induction false} FibGrows(n: nat)
    ensures Fib(2 * n + 1) >= Pow2(n) && Fib(2 * n + 2) >= Pow2(n)
  {
    if n > 0 {
      FibGrows(n - 1);
      assert Fib(2 * n + 1) == Fib(2 * n - 1) + Fib(2 * n);
      assert Fib(2 * n + 2) == Fib(2 * n) + Fib(2 * n + 1);
    }
  }

  lemma TimesIsMonotone(first: nat, a: int, b: int)
    requires a <= b
    ensures first * a <= first * b
  {
  }

  /** A wait that has slept `k` times is exponentially long in `k`. */
  lemma SleepsAreFew(first: nat, slept: seq<nat>, waitTime: nat)
    requires |slept| > 0 && Fibonacci(first, slept, |slept| - 1) && Sum(slept) <= waitTime
    ensures first * (Fib(|slept| + 1) - 1) <= waitTime
    ensures first * (Pow2(|slept| / 2) - 1) <= waitTime
  {
    hide Fib;
    hide Pow2;
    var k := |slept|;
    SumOfFibonacci(first, slept[..k - 1]);
    assert Sum(slept) == Sum(slept[..k - 1]) + slept[k - 1];
    FibGrows(k / 2);
    assert k + 1 == 2 * (k / 2) + 1 || k + 1 == 2 * (k / 2) + 2;
    TimesIsMonotone(first, Pow2(k / 2) - 1, Fib(k + 1) - 1);
  }

  /** A whole wait: sleeps until there is no more, on a clock that is late by `delay` after each sleep. */
  method WaitOut(waitTime: nat, begin: nat, delay: nat -> nat) returns (slept: seq<nat>)
    ensures Sum(slept) <= waitTime
    ensures slept != [] ==> Ended(FirstSleep(waitTime), slept)
    ensures slept != [] ==> FirstSleep(waitTime) * (Pow2(|slept| / 2) - 1) <= waitTime
    ensures slept == [] <==> waitTime < 10
  {
    var wait := new Waiter(waitTime, begin);
    slept := [];
    var now := begin;
    var more := true;
    while more
      invariant fresh(wait) && wait.Valid() && wait.waitTime == waitTime && wait.beginTime == begin
      invariant wait.slept == slept && now == begin + wait.elapsed
      invariant !more ==> wait.sleepTime == 0
      invariant if slept == [] then wait.sleepTime == FirstSleep(waitTime) else FirstSleep(waitTime) > 0
      decreases more, if wait.sleepTime > 0 then waitTime - wait.elapsed + 1 else 0
    {
      var sleep := wait.sleepTime;
      if sleep > 0 {
        now := now + sleep + delay(|slept|);
      }
      more := wait.More(now);
      if more {
        slept := slept + [sleep];
      }
    }
    if slept != [] {
      SleepsAreFew(FirstSleep(waitTime), slept, waitTime);
    }
  }
}
