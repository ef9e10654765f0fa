/** One call of `acquireLock`: how it ends, and after how many attempts. */
module AsyncLock {
  import opened Options
  import opened AsyncLockModel

  datatype Creation = Made | Exists | Fails

  /** What an attempt finds when the lock file exists. `Gone`: it cannot be looked at any more. */
  datatype Sight = Gone | Found(age: int, pid: Option<nat>, alive: bool)

  /** What the world does during one attempt: the first creation, the sight of the file, the creation after a theft,
      the milliseconds all that takes, and the jitter of the wait after it. */
  datatype Attempt = Attempt(first: Creation, sight: Sight, second: Creation, took: nat, jitter: nat)

  datatype Ending = Acquired | TimedOut | Failed

  predicate Steals(a: Attempt, staleMs: int) {
    a.sight.Found? && IsStale(a.sight.pid, a.sight.alive, a.sight.age > staleMs)
  }

  /** The process itself created the lock file. */
  predicate Creates(a: Attempt, staleMs: int) {
    a.first.Made? || (a.first.Exists? && Steals(a, staleMs) && a.second.Made?)
  }

  /** An attempt takes the lock if and only if it creates the file at once, or finds it there with the PID of a dead
      process, or without one and older than `staleMs`, and creates it then. */
  lemma CreatesIff(a: Attempt, staleMs: int)
    ensures Creates(a, staleMs) <==>
              || a.first == Made
              || (&& a.first == Exists && a.second == Made && a.sight.Found?
                  && match a.sight.pid case Some(_) => !a.sight.alive case None => a.sight.age > staleMs)
  {
  }

  /** The wait after the n-th attempt, without its jitter. */
  function Backoff(n: nat): nat {
    if 50 + n * 10 < 200 then 50 + n * 10 else 200
  }

  /** The least time that passes before the check of attempt n + 1: the waits after the first n. */
  function Waited(n: nat): nat {
    if n == 0 then 0 else Waited(n - 1) + Backoff(n)
  }

  /** The clock, from the call on, at the deadline check of the n-th attempt. */
  function ClockAt(world: nat -> Attempt, n: nat): nat
    requires n > 0
  {
    if n == 1 then world(1).took
    else ClockAt(world, n - 1) + Backoff(n - 1) + world(n - 1).jitter + world(n).took
  }

  lemma {:induction false} ClockPastWaits(world: nat -> Attempt, n: nat)
    requires n > 0
    ensures Waited(n - 1) <= ClockAt(world, n)
  {
    if n > 1 {
      ClockPastWaits(world, n - 1);
    }
  }

  lemma {:induction false} WaitedIs(n: nat)
    ensures Waited(n) >= 60 * n
    ensures n >= 15 ==> Waited(n) == 200 * n - 1050
  {
    if n == 15 {
      assert Waited(15) == 1950;
    }
    if n > 0 {
      WaitedIs(n - 1);
    }
  }

  /** The n-th attempt leads to another. */
  ghost predicate GoesOn(world: nat -> Attempt, timeout: nat, staleMs: int, n: nat)
    requires n > 0
  {
    !world(n).first.Fails? && !Creates(world(n), staleMs) && ClockAt(world, n) < timeout
  }

  /** It returns only on an attempt in which this process created the file, fails only on a failed first creation, and
      gives up only past the deadline; the waits bound the attempts. */
  method AcquireLock(world: nat -> Attempt, timeout: nat, staleMs: int) returns (ending: Ending, attempts: nat)
    ensures attempts > 0
    ensures forall k :: 0 < k < attempts ==> GoesOn(world, timeout, staleMs, k)
    ensures match ending
            case Acquired => Creates(world(attempts), staleMs)
            case Failed => world(attempts).first.Fails?
            case TimedOut =>
              && !Creates(world(attempts), staleMs) && !world(attempts).first.Fails?
              && ClockAt(world, attempts) >= timeout
    ensures attempts >= 2 ==> Waited(attempts - 2) < timeout
    ensures attempts <= timeout / 60 + 2
    ensures timeout == 5000 ==> attempts <= 32
  {
    hide Waited, ClockAt, GoesOn, Backoff;
    attempts := 0;
    var now := 0;
    while true
      invariant attempts > 0 ==> now == ClockAt(world, attempts) + Backoff(attempts) + world(attempts).jitter
      invariant attempts == 0 ==> now == 0
      invariant forall k :: 0 < k <= attempts ==> GoesOn(world, timeout, staleMs, k)
      decreases timeout + 200 - Waited(attempts)
    {
      attempts := attempts + 1;
      var a := world(attempts);
      Progress(world, attempts, timeout, staleMs);
      now := now + a.took;
      if a.first.Made? {
        ending := Acquired;
        break;
      }
      if a.first.Fails? {
        ending := Failed;
        break;
      }
      if a.sight.Found? {
        if IsStale(a.sight.pid, a.sight.alive, a.sight.age > staleMs) {
          if a.second.Made? {
            ending := Acquired;
            break;
          }
        }
      }
      if now >= timeout {
        ending := TimedOut;
        break;
      }
      now := now + Backoff(attempts) + a.jitter;
      GoesOnFrom(world, timeout, staleMs, attempts);
    }
    WaitsBoundAttempts(world, attempts, timeout, staleMs);
  }

  /** It goes on after an attempt that neither takes the lock nor fails, as long as there is time. */
  lemma GoesOnIff(world: nat -> Attempt, timeout: nat, staleMs: int, n: nat)
    requires n > 0
    ensures GoesOn(world, timeout, staleMs, n) <==>
              !Creates(world(n), staleMs) && world(n).first in {Made, Exists} && ClockAt(world, n) < timeout
  {
  }

  lemma GoesOnFrom(world: nat -> Attempt, timeout: nat, staleMs: int, n: nat)
    requires n > 0
    requires !world(n).first.Fails? && !Creates(world(n), staleMs) && ClockAt(world, n) < timeout
    ensures GoesOn(world, timeout, staleMs, n)
  {
  }

  lemma Progress(world: nat -> Attempt, n: nat, timeout: nat, staleMs: int)
    requires n > 0
    requires n > 1 ==> GoesOn(world, timeout, staleMs, n - 1)
    ensures ClockAt(world, n) ==
      (if n == 1 then 0 else ClockAt(world, n - 1) + Backoff(n - 1) + world(n - 1).jitter) + world(n).took
    ensures Waited(n - 1) < Waited(n) && Waited(n - 1) < timeout + 200
  {
    if n > 1 {
      ClockPastWaits(world, n - 1);
    }
  }

  lemma WaitsBoundAttempts(world: nat -> Attempt, n: nat, timeout: nat, staleMs: int)
    requires n > 0
    requires n > 1 ==> GoesOn(world, timeout, staleMs, n - 1)
    ensures n > 1 ==> Waited(n - 2) < timeout
    ensures n <= timeout / 60 + 2
    ensures timeout == 5000 ==> n <= 32
  {
    if n > 1 {
      ClockPastWaits(world, n - 1);
      WaitedIs(n - 2);
    }
  }
}
