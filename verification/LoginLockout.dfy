/**
 Account lockout on failed logins (src/modules/auth/services/auth.service.ts, auth.repository.ts).
 A lock lasts thirty minutes and the failure counter survives its expiry, so only a successful login
 or an administrator's unlock restarts the count. Times are milliseconds.
 */
module LoginLockout {
  import opened Wrappers

  type Time = int

  const LOCK_DURATION_MS := 30 * 60 * 1000
  const DEFAULT_LOCKOUT_ATTEMPTS := 5

  datatype Account = Account(failed: nat, lockedUntil: Option<Time>)

  /** orgThreshold is account_lockout_attempts when the login names an existing organization. */
  datatype Attempt = Attempt(at: Time, passwordValid: bool, orgThreshold: Option<int>)

  datatype LoginOutcome = RefusedWhileLocked | InvalidCredentials | LockedNow | LoggedIn

  function Threshold(x: Attempt): int {
    if x.orgThreshold.Some? then x.orgThreshold.value else DEFAULT_LOCKOUT_ATTEMPTS
  }

  predicate Locked(a: Account, now: Time) {
    a.lockedUntil.Some? && a.lockedUntil.value > now
  }

  function Login(a: Account, x: Attempt): (Account, LoginOutcome) {
    if Locked(a, x.at) then (a, RefusedWhileLocked)
    else if x.passwordValid then (Account(0, None), LoggedIn)
    else if a.failed + 1 >= Threshold(x) then
      (Account(a.failed + 1, Some(x.at + LOCK_DURATION_MS)), LockedNow)
    else (a.(failed := a.failed + 1), InvalidCredentials)
  }

  /** How many of the attempts had a password checked and found wrong. */
  function FailedChecks(a: Account, xs: seq<Attempt>): nat
    decreases |xs|
  {
    if xs == [] then 0
    else
      var (b, o) := Login(a, xs[0]);
      (if o == InvalidCredentials || o == LockedNow then 1 else 0) + FailedChecks(b, xs[1..])
  }

  /** No attempt resets the counter. */
  predicate NoReset(a: Account, xs: seq<Attempt>)
    decreases |xs|
  {
    xs == [] || (Login(a, xs[0]).1 != LoggedIn && NoReset(Login(a, xs[0]).0, xs[1..]))
  }

  /** In time order, within [t0, t1], with thresholds at most m. */
  predicate Within(xs: seq<Attempt>, t0: Time, t1: Time, m: int) {
    xs == [] || (t0 <= xs[0].at <= t1 && Threshold(xs[0]) <= m && Within(xs[1..], xs[0].at, t1, m))
  }

  /** The failures still possible by t1 once every further failure locks the account. */
  function Paced(from: Time, t1: Time): nat {
    if from <= t1 then 1 + (t1 - from) / LOCK_DURATION_MS else 0
  }

  function Allowance(a: Account, t0: Time, t1: Time, m: nat): int
    requires t0 <= t1
  {
    if a.failed + 1 >= m then Paced(if Locked(a, t0) then a.lockedUntil.value else t0, t1)
    else m - a.failed + (t1 - t0) / LOCK_DURATION_MS
  }

  lemma LaterIsLess(t: Time, u: Time, t1: Time)
    requires t <= u
    ensures (t1 - u) / LOCK_DURATION_MS <= (t1 - t) / LOCK_DURATION_MS
    ensures (t1 - (t + LOCK_DURATION_MS)) / LOCK_DURATION_MS == (t1 - t) / LOCK_DURATION_MS - 1
  {
  }

  lemma PacedLater(t: Time, u: Time, t1: Time)
    requires t <= u
    ensures Paced(u, t1) <= Paced(t, t1)
    ensures u <= t1 ==> 1 + Paced(u + LOCK_DURATION_MS, t1) <= Paced(t, t1)
  {
    LaterIsLess(t, u, t1);
    LaterIsLess(u, u, t1);
  }

  /** One attempt pays for its failure out of the allowance. */
  lemma AttemptPays(a: Account, x: Attempt, t0: Time, t1: Time, m: nat)
    requires m >= 1 && t0 <= x.at <= t1 && Threshold(x) <= m && Login(a, x).1 != LoggedIn
    ensures Allowance(Login(a, x).0, x.at, t1, m)
            + (if Login(a, x).1 == InvalidCredentials || Login(a, x).1 == LockedNow then 1 else 0)
            <= Allowance(a, t0, t1, m)
  {
    LaterIsLess(t0, x.at, t1);
    if a.failed + 1 >= m {
      var e := if Locked(a, t0) then a.lockedUntil.value else t0;
      if !Locked(a, x.at) {
        PacedLater(e, x.at, t1);
      } 
    } else {
      var b := Login(a, x).0;
      PacedLater(x.at, if Locked(b, x.at) then b.lockedUntil.value else x.at, t1);
    }
  }

  lemma {:induction false} FailuresWithinAllowance(a: Account, xs: seq<Attempt>, t0: Time, t1: Time, m: nat)
    requires m >= 1 && t0 <= t1 && Within(xs, t0, t1, m) && NoReset(a, xs)
    ensures FailedChecks(a, xs) <= Allowance(a, t0, t1, m)
    decreases |xs|
  {
    if xs != [] {
      FailuresWithinAllowance(Login(a, xs[0]).0, xs[1..], xs[0].at, t1, m);
      AttemptPays(a, xs[0], t0, t1, m);
    } else {
      AllowanceNonnegative(a, t0, t1, m);
    }
  }

  lemma AllowanceNonnegative(a: Account, t0: Time, t1: Time, m: nat)
    requires t0 <= t1
    ensures 0 <= Allowance(a, t0, t1, m) <= (if m == 0 then 1 else m) + (t1 - t0) / LOCK_DURATION_MS
  {
    if a.failed + 1 >= m {
      PacedLater(t0, if Locked(a, t0) then a.lockedUntil.value else t0, t1);
    }
  }

  /**
   Between counter resets, attempts spread over an interval of length t1 - t0 contain at most
   m + floor((t1 - t0) / 30 minutes) failed password checks, for thresholds of at most m >= 1,
   whatever the counter and the lock were at its start.
   */
  lemma FailureBound(a: Account, xs: seq<Attempt>, t0: Time, t1: Time, m: nat)
    requires m >= 1 && t0 <= t1 && Within(xs, t0, t1, m) && NoReset(a, xs)
    ensures FailedChecks(a, xs) <= m + (t1 - t0) / LOCK_DURATION_MS
  {
    FailuresWithinAllowance(a, xs, t0, t1, m);
    AllowanceNonnegative(a, t0, t1, m);
  }

  // ----- the bound is attained

  /** A wrong password every time the lock runs out: at from, from + 30 min, ..., n + 1 times. */
  function Patient(from: Time, n: nat, m: nat): seq<Attempt>
    decreases n
  {
    [Attempt(from, false, Some(m))] + (if n == 0 then [] else Patient(from + LOCK_DURATION_MS, n - 1, m))
  }

  function Hasty(count: nat, n: nat, m: nat): seq<Attempt> {
    if count == 0 then Patient(0, n, m) else [Attempt(0, false, Some(m))] + Hasty(count - 1, n, m)
  }

  lemma {:induction false} PatientFails(a: Account, t0: Time, from: Time, n: nat, m: nat)
    requires a.failed + 1 >= m && !Locked(a, from) && t0 <= from
    ensures FailedChecks(a, Patient(from, n, m)) == n + 1 && NoReset(a, Patient(from, n, m))
    ensures Within(Patient(from, n, m), t0, from + n * LOCK_DURATION_MS, m)
    decreases n
  {
    var xs := Patient(from, n, m);
    var b := Login(a, xs[0]).0;
    if n > 0 {
      PatientFails(b, from, from + LOCK_DURATION_MS, n - 1, m);
      assert xs[1..] == Patient(from + LOCK_DURATION_MS, n - 1, m);
      assert from + LOCK_DURATION_MS + (n - 1) * LOCK_DURATION_MS == from + n * LOCK_DURATION_MS;
    }
  }

  lemma {:induction false} HastyFails(a: Account, count: nat, n: nat, m: nat)
    requires a.lockedUntil.None? && a.failed + count + 1 == m
    ensures FailedChecks(a, Hasty(count, n, m)) == count + n + 1 && NoReset(a, Hasty(count, n, m))
    ensures Within(Hasty(count, n, m), 0, n * LOCK_DURATION_MS, m)
    decreases count
  {
    if count == 0 {
      PatientFails(a, 0, 0, n, m);
    } else {
      var xs := Hasty(count, n, m);
      assert xs[1..] == Hasty(count - 1, n, m);
      HastyFails(Login(a, xs[0]).0, count - 1, n, m);
    }
  }

  /** For every m >= 1 and n there is a run of n half hours with exactly m + n failed checks. */
  lemma FailureBoundAttained(m: nat, n: nat)
    requires m >= 1
    ensures exists xs :: Within(xs, 0, n * LOCK_DURATION_MS, m) && NoReset(Account(0, None), xs)
                         && FailedChecks(Account(0, None), xs) == m + n
  {
    HastyFails(Account(0, None), m - 1, n, m);
    assert FailedChecks(Account(0, None), Hasty(m - 1, n, m)) == m + n;
  }

  // ----- locking and unlocking

  /** While a lock runs nothing gets through, not even the right password; from its end on the password decides. */
  lemma LockHoldsThirtyMinutes(a: Account, x: Attempt, y: Attempt)
    requires Login(a, x).1 == LockedNow && x.at <= y.at
    ensures Login(Login(a, x).0, y).1 == RefusedWhileLocked <==> y.at < x.at + 1_800_000
    ensures Login(Login(a, x).0, y).1 == RefusedWhileLocked ==> Login(Login(a, x).0, y).0 == Login(a, x).0
    ensures Login(Login(a, x).0, y).1 == LoggedIn <==> y.at >= x.at + 1_800_000 && y.passwordValid
  {
  }

  /** n wrong passwords in a row, all against threshold m. */
  predicate Wrong(xs: seq<Attempt>, m: int) {
    forall i :: 0 <= i < |xs| ==> !xs[i].passwordValid && Threshold(xs[i]) == m
  }

  function After(a: Account, xs: seq<Attempt>): Account
    decreases |xs|
  {
    if xs == [] then a else Login(After(a, xs[..|xs| - 1]), xs[|xs| - 1]).0
  }

  /**
   Whatever the account was, a successful login gives it a clean slate: the next m - 1 wrong passwords are
   only counted and the m-th one locks.
   */
  lemma {:induction false} SuccessRestartsCount(a: Account, ok: Attempt, xs: seq<Attempt>, m: nat)
    requires Login(a, ok).1 == LoggedIn && Wrong(xs, m) && 1 <= |xs| <= m
    ensures var b := After(Login(a, ok).0, xs[..|xs| - 1]);
      && b == Account(|xs| - 1, None)
      && Login(b, xs[|xs| - 1]).1 == (if |xs| < m then InvalidCredentials else LockedNow)
    decreases |xs|
  {
    var init := xs[..|xs| - 1];
    if init != [] {
      SuccessRestartsCount(a, ok, init, m);
      assert init[..|init| - 1] == xs[..|xs| - 2];
    }
  }

  // ----- the service

  class LoginService {
    var failedLoginAttempts: nat
    var lockedUntil: Option<Time>

    ghost function Row(): Account
      reads this
    {
      Account(failedLoginAttempts, lockedUntil)
    }

    constructor ()
      ensures Row() == Account(0, None)
    {
      failedLoginAttempts, lockedUntil := 0, None;
    }

    method AttemptLogin(x: Attempt) returns (o: LoginOutcome)
      modifies this
      ensures (Row(), o) == Login(old(Row()), x)
      ensures o == RefusedWhileLocked <==> old(lockedUntil).Some? && old(lockedUntil).value > x.at
      ensures o == LoggedIn <==> o != RefusedWhileLocked && x.passwordValid
      ensures o == LoggedIn ==> failedLoginAttempts == 0 && lockedUntil == None
      ensures o == RefusedWhileLocked ==> failedLoginAttempts == old(failedLoginAttempts) && lockedUntil == old(lockedUntil)
      ensures o == InvalidCredentials || o == LockedNow ==> failedLoginAttempts == old(failedLoginAttempts) + 1
      ensures o == LockedNow <==>
              && o != RefusedWhileLocked && !x.passwordValid
              && old(failedLoginAttempts) + 1 >= (if x.orgThreshold.Some? then x.orgThreshold.value else 5)
      ensures o == LockedNow ==> lockedUntil == Some(x.at + 1_800_000)
      ensures o == InvalidCredentials ==> lockedUntil == old(lockedUntil)
    {
      if lockedUntil.Some? && lockedUntil.value > x.at {
        return RefusedWhileLocked;
      }
      if !x.passwordValid {
        var lockoutAttempts := DEFAULT_LOCKOUT_ATTEMPTS;
        if x.orgThreshold.Some? {
          lockoutAttempts := x.orgThreshold.value;
        }
        var newCount := failedLoginAttempts + 1;
        failedLoginAttempts := failedLoginAttempts + 1;
        if newCount >= lockoutAttempts {
          lockedUntil := Some(x.at + LOCK_DURATION_MS);
          return LockedNow;
        }
        return InvalidCredentials;
      }
      failedLoginAttempts, lockedUntil := 0, None;
      return LoggedIn;
    }
  }
}
