/** The failed-PIN lockout as a function on values: five free attempts, then a wait that
    doubles from one second up to fifteen minutes. Times are nanoseconds. */
module Lockout {
  import opened Text

  const SECOND: int := 1_000_000_000
  const LOCK_AFTER_FAIL: nat := 5
  const MAX_LOCKOUT: int := 900 * SECOND

  /** `lockedUntil` is None for the zero time. */
  datatype Lock = Lock(fails: nat, lockedUntil: Option<int>)

  const OPEN: Lock := Lock(0, None)

  function Shifted(shift: nat): int {
    if shift == 0 then SECOND else 2 * Shifted(shift - 1)
  }

  /** The wait set by the given number of consecutive failures. */
  function Wait(fails: nat): int {
    if fails < LOCK_AFTER_FAIL then 0
    else
      var shift := fails - LOCK_AFTER_FAIL;
      var d := Shifted(if shift > 10 then 10 else shift);
      if d > MAX_LOCKOUT then MAX_LOCKOUT else d
  }

  function RetryAfter(l: Lock, now: int): int {
    if l.lockedUntil.Some? && l.lockedUntil.value - now > 0 then l.lockedUntil.value - now else 0
  }

  function Failed(l: Lock, now: int): Lock {
    Lock(l.fails + 1, if l.fails + 1 < LOCK_AFTER_FAIL then l.lockedUntil else Some(now + Wait(l.fails + 1)))
  }

  /** One serialised `checkPIN`: the clock at the lockout test, the clock after the costly
      verification, and whether the PIN was right. */
  datatype Attempt = Attempt(start: int, end: int, right: bool)

  predicate Evaluated(l: Lock, a: Attempt) { RetryAfter(l, a.start) == 0 }

  function Check(l: Lock, a: Attempt): Lock {
    if !Evaluated(l, a) then l else if a.right then OPEN else Failed(l, a.end)
  }

  // ------------------------------------------------------------ runs

  /** The checks are serialised and the clock does not go back. */
  predicate Ordered(run: seq<Attempt>) {
    && (forall i :: 0 <= i < |run| ==> run[i].start <= run[i].end)
    && (forall i, j :: 0 <= i < j < |run| ==> run[i].end <= run[j].start)
  }

  predicate AllWrong(run: seq<Attempt>) {
    forall i :: 0 <= i < |run| ==> !run[i].right
  }

  function LockAfter(run: seq<Attempt>): Lock {
    if run == [] then OPEN else Check(LockAfter(run[..|run| - 1]), run[|run| - 1])
  }

  /** When the evaluated wrong PINs of a run were recorded. */
  function WrongTimes(run: seq<Attempt>): seq<int> {
    if run == [] then []
    else
      var front, a := run[..|run| - 1], run[|run| - 1];
      WrongTimes(front) + (if Evaluated(LockAfter(front), a) && !a.right then [a.end] else [])
  }

  /** The sum of the waits set by failures 5 to n - 1. */
  function Backoff(n: nat): int {
    if n <= LOCK_AFTER_FAIL then 0 else Backoff(n - 1) + Wait(n - 1)
  }

  predicate Spaced(times: seq<int>) {
    forall k :: LOCK_AFTER_FAIL <= k < |times| ==> times[k] >= times[k - 1] + Wait(k)
  }

  /** The lock after exactly these evaluated wrong PINs. */
  predicate LockMatches(l: Lock, times: seq<int>) {
    && l.fails == |times|
    && l.lockedUntil == (if |times| < LOCK_AFTER_FAIL then None else Some(times[|times| - 1] + Wait(|times|)))
  }

  lemma WrongStep(l: Lock, times: seq<int>, a: Attempt)
    requires LockMatches(l, times) && Spaced(times) && !a.right && a.start <= a.end
    ensures var more := if Evaluated(l, a) then times + [a.end] else times;
            LockMatches(Check(l, a), more) && Spaced(more)
  {
  }

  lemma {:induction false} WrongRun(run: seq<Attempt>)
    requires Ordered(run) && AllWrong(run)
    ensures Spaced(WrongTimes(run)) && LockMatches(LockAfter(run), WrongTimes(run))
  {
    if run != [] {
      var front, a := run[..|run| - 1], run[|run| - 1];
      WrongRun(front);
      WrongStep(LockAfter(front), WrongTimes(front), a);
    }
  }

  lemma {:induction false} SpacedTotal(times: seq<int>, n: nat)
    requires Spaced(times) && LOCK_AFTER_FAIL <= n <= |times|
    ensures times[n - 1] >= times[LOCK_AFTER_FAIL - 1] + Backoff(n)
  {
    if n > LOCK_AFTER_FAIL {
      SpacedTotal(times, n - 1);
    }
  }

  lemma Waits()
    ensures Wait(5) == SECOND && Wait(6) == 2 * SECOND && Wait(7) == 4 * SECOND && Wait(8) == 8 * SECOND
    ensures Wait(9) == 16 * SECOND && Wait(10) == 32 * SECOND && Wait(11) == 64 * SECOND
    ensures Wait(12) == 128 * SECOND && Wait(13) == 256 * SECOND && Wait(14) == 512 * SECOND
    ensures forall n: nat :: n >= 15 ==> Wait(n) == MAX_LOCKOUT
  {
    assert Shifted(1) == 2 * SECOND && Shifted(2) == 4 * SECOND && Shifted(3) == 8 * SECOND;
    assert Shifted(4) == 16 * SECOND && Shifted(5) == 32 * SECOND && Shifted(6) == 64 * SECOND;
    assert Shifted(7) == 128 * SECOND && Shifted(8) == 256 * SECOND && Shifted(9) == 512 * SECOND;
    assert Shifted(10) == 1024 * SECOND;
  }

  /** The closed form of the sum: 1 + 2 + … + 512 seconds, then fifteen minutes each. */
  lemma {:induction false} BackoffClosed(n: nat)
    requires n >= 15
    ensures Backoff(n) == (1023 + 900 * (n - 15)) * SECOND
  {
    Waits();
    if n > 15 {
      BackoffClosed(n - 1);
    } else {
      assert Backoff(5) == 0 && Backoff(6) == SECOND && Backoff(7) == 3 * SECOND && Backoff(8) == 7 * SECOND;
      assert Backoff(9) == 15 * SECOND && Backoff(10) == 31 * SECOND && Backoff(11) == 63 * SECOND;
      assert Backoff(12) == 127 * SECOND && Backoff(13) == 255 * SECOND && Backoff(14) == 511 * SECOND;
    }
  }

  /** In a run without a correct PIN the n-th evaluated wrong PIN comes at least 1023 seconds
      plus fifteen minutes per failure beyond the fifteenth after the fifth. */
  lemma LockoutBound(run: seq<Attempt>, n: nat)
    requires Ordered(run) && AllWrong(run) && LOCK_AFTER_FAIL <= n <= |WrongTimes(run)|
    ensures WrongTimes(run)[n - 1] >= WrongTimes(run)[4] + Backoff(n)
    ensures n >= 15 ==> WrongTimes(run)[n - 1] >= WrongTimes(run)[4] + (1023 + 900 * (n - 15)) * SECOND
  {
    WrongRun(run);
    SpacedTotal(WrongTimes(run), n);
    if n >= 15 {
      BackoffClosed(n);
    }
  }

  // ------------------------------------------------------------ the bound is exact

  /** Guessing as early as the gate allows. */
  function Eager(n: nat): seq<Attempt> {
    if n == 0 then [] else Eager(n - 1) + [Attempt(Backoff(n), Backoff(n), false)]
  }

  lemma {:induction false} BackoffGrows(m: nat, n: nat)
    requires m <= n
    ensures Backoff(m) <= Backoff(n)
  {
    if m < n {
      BackoffGrows(m, n - 1);
      Waits();
    }
  }

  lemma {:induction false} EagerOrdered(n: nat)
    ensures Ordered(Eager(n)) && AllWrong(Eager(n))
    ensures forall i :: 0 <= i < |Eager(n)| ==> Eager(n)[i].end <= Backoff(n)
  {
    if n > 0 {
      EagerOrdered(n - 1);
      BackoffGrows(n - 1, n);
    }
  }

  lemma OpenAt(l: Lock, times: seq<int>, now: int)
    requires LockMatches(l, times)
    requires |times| >= LOCK_AFTER_FAIL ==> now >= times[|times| - 1] + Wait(|times|)
    ensures RetryAfter(l, now) == 0
  {
  }

  lemma WrongSnoc(front: seq<Attempt>, a: Attempt)
    requires Evaluated(LockAfter(front), a) && !a.right
    ensures WrongTimes(front + [a]) == WrongTimes(front) + [a.end]
  {
    assert (front + [a])[..|front|] == front;
  }

  function EagerEnds(n: nat): (ends: seq<int>)
    ensures |ends| == n
  {
    if n == 0 then [] else EagerEnds(n - 1) + [Backoff(n)]
  }

  lemma {:induction false} EagerEndsAt(n: nat, k: nat)
    requires k < n
    ensures EagerEnds(n)[k] == Backoff(k + 1)
  {
    if k < n - 1 {
      EagerEndsAt(n - 1, k);
    }
  }

  lemma EagerNext(n: nat)
    requires n > 0 && WrongTimes(Eager(n - 1)) == EagerEnds(n - 1)
    ensures Evaluated(LockAfter(Eager(n - 1)), Attempt(Backoff(n), Backoff(n), false))
  {
    EagerOrdered(n - 1);
    WrongRun(Eager(n - 1));
    if n > 1 {
      EagerEndsAt(n - 1, n - 2);
    }
    OpenAt(LockAfter(Eager(n - 1)), EagerEnds(n - 1), Backoff(n));
  }

  lemma {:induction false} EagerTimes(n: nat)
    ensures WrongTimes(Eager(n)) == EagerEnds(n)
  {
    if n > 0 {
      EagerTimes(n - 1);
      EagerNext(n);
      WrongSnoc(Eager(n - 1), Attempt(Backoff(n), Backoff(n), false));
    }
  }

  /** No smaller waiting time could be promised: a run meets the bound with equality. */
  lemma LockoutBoundIsTight(n: nat)
    requires n >= LOCK_AFTER_FAIL
    ensures Ordered(Eager(n)) && AllWrong(Eager(n)) && |WrongTimes(Eager(n))| == n
    ensures WrongTimes(Eager(n))[n - 1] == WrongTimes(Eager(n))[4] + Backoff(n)
  {
    EagerTimes(n);
    EagerOrdered(n);
    EagerEndsAt(n, n - 1);
    EagerEndsAt(n, 4);
  }

  lemma LockSnoc(run: seq<Attempt>, a: Attempt)
    ensures LockAfter(run + [a]) == Check(LockAfter(run), a)
  {
    assert (run + [a])[..|run|] == run;
  }

  /** A right PIN that is evaluated wipes the slate: whatever follows, the lock is as if the
      gate had been opened for the first time then. One that is refused changes nothing. */
  lemma {:induction false} RightPinForgets(run: seq<Attempt>, a: Attempt, more: seq<Attempt>)
    requires a.right
    ensures Evaluated(LockAfter(run), a) ==> LockAfter(run + [a] + more) == LockAfter(more)
    ensures !Evaluated(LockAfter(run), a) && more == [] ==> LockAfter(run + [a] + more) == LockAfter(run)
    decreases |more|
  {
    LockSnoc(run, a);
    if more == [] {
      assert run + [a] + more == run + [a];
    } else {
      var front, last := more[..|more| - 1], more[|more| - 1];
      RightPinForgets(run, a, front);
      LockSnoc(run + [a] + front, last);
      LockSnoc(front, last);
      assert more == front + [last];
      assert run + [a] + more == run + [a] + front + [last];
    }
  }

  /** An untouched gate lets the first five attempts through at any time. */
  lemma {:induction false} FirstFiveAreEvaluated(run: seq<Attempt>, a: Attempt)
    requires AllWrong(run) && |run| < 5
    ensures Evaluated(LockAfter(run), a) && LockAfter(run) == Lock(|run|, None)
  {
    if run != [] {
      FirstFiveAreEvaluated(run[..|run| - 1], run[|run| - 1]);
    }
  }
}
