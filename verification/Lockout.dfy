/**
 Credential login and the account lock: the order in which an attempt is judged, and how
 many wrong passwords any interval of time can see verified.
 */
module Lockout {
  import opened Outcomes
  import opened RateLimiter

  datatype LockPolicy = LockPolicy(maximumFailures: nat, lockSeconds: nat)

  datatype AccountState = AccountState(enabled: bool, failures: nat, lockedUntil: Option<int>)

  datatype Reply = InvalidCredentials | TemporarilyLocked(retryAfter: int) | Disabled | LoggedIn

  function LockTime(p: LockPolicy): int {
    p.lockSeconds * SECOND
  }

  predicate Locked(a: AccountState, now: int) {
    a.lockedUntil.Some? && a.lockedUntil.value > now
  }

  /** Whole seconds until the lock ends, at least one. */
  function RetryAfter(lockedUntil: int, now: int): int {
    var wait := CeilSeconds(lockedUntil - now);
    if wait < 1 then 1 else wait
  }

  function Failed(a: AccountState, now: int, p: LockPolicy): AccountState {
    a.(failures := a.failures + 1,
       lockedUntil := if a.failures + 1 >= p.maximumFailures then Some(now + LockTime(p)) else a.lockedUntil)
  }

  function Cleared(a: AccountState): AccountState {
    a.(failures := 0, lockedUntil := None)
  }

  /** The password is looked at only when the account is neither locked nor disabled. */
  predicate Verifies(a: AccountState, now: int) {
    !Locked(a, now) && a.enabled
  }

  function Attempted(a: AccountState, now: int, valid: bool, p: LockPolicy): AccountState {
    if !Verifies(a, now) then a else if valid then Cleared(a) else Failed(a, now, p)
  }

  class AdminAccount {
    var enabled: bool
    var failures: nat
    var lockedUntil: Option<int>

    ghost function State(): AccountState
      reads this
    {
      AccountState(enabled, failures, lockedUntil)
    }

    constructor (enabled: bool)
      ensures State() == AccountState(enabled, 0, None)
    {
      this.enabled, failures, lockedUntil := enabled, 0, None;
    }

    method RegisterFailedLogin(now: int, p: LockPolicy)
      modifies this
      ensures State() == Failed(old(State()), now, p)
    {
      failures := failures + 1;
      if failures >= p.maximumFailures {
        lockedUntil := Some(now + LockTime(p));
      }
    }

    method RegisterSuccessfulLogin()
      modifies this
      ensures State() == Cleared(old(State()))
    {
      failures, lockedUntil := 0, None;
    }

    method ChangePassword()
      modifies this
      ensures State() == Cleared(old(State()))
    {
      failures, lockedUntil := 0, None;
    }
  }

  /** One login for the account found by name, or for none. */
  method Login(account: AdminAccount?, now: int, valid: bool, p: LockPolicy) returns (r: Reply)
    modifies account
    ensures account == null ==> r == InvalidCredentials
    ensures account != null ==> account.State() == Attempted(old(account.State()), now, valid, p)
    ensures account != null && old(Locked(account.State(), now)) ==>
            r == TemporarilyLocked(RetryAfter(old(account.lockedUntil).value, now))
    ensures account != null && old(!Locked(account.State(), now) && !account.enabled) ==> r == Disabled
    ensures account != null && old(Verifies(account.State(), now)) ==>
              (r.LoggedIn? <==> valid)
              && (!valid && Locked(account.State(), now) ==>
                  r == TemporarilyLocked(RetryAfter(account.lockedUntil.value, now)))
              && (!valid && !Locked(account.State(), now) ==> r == InvalidCredentials)
  {
    if account == null {
      return InvalidCredentials;
    }
    if account.lockedUntil.Some? && account.lockedUntil.value > now {
      return TemporarilyLocked(RetryAfter(account.lockedUntil.value, now));
    }
    if !account.enabled {
      return Disabled;
    }
    if !valid {
      account.RegisterFailedLogin(now, p);
      if account.lockedUntil.Some? && account.lockedUntil.value > now {
        return TemporarilyLocked(RetryAfter(account.lockedUntil.value, now));
      }
      return InvalidCredentials;
    }
    account.RegisterSuccessfulLogin();
    r := LoggedIn;
  }

  // ---------------------------------------------------------------------------------
  // Runs
  // ---------------------------------------------------------------------------------

  datatype Event = Try(now: int, valid: bool) | NewPassword(now: int)

  predicate Ordered(events: seq<Event>) {
    forall i, j | 0 <= i < j < |events| :: events[i].now <= events[j].now
  }

  function Next(a: AccountState, e: Event, p: LockPolicy): AccountState {
    match e
    case Try(now, valid) => Attempted(a, now, valid, p)
    case NewPassword(_) => Cleared(a)
  }

  /** What an interval saw: wrong passwords verified, successful logins, password changes. */
  datatype Tally = Tally(failed: nat, logins: nat, changes: nat)

  function One(a: AccountState, e: Event): Tally {
    if e.NewPassword? then Tally(0, 0, 1)
    else if !Verifies(a, e.now) then Tally(0, 0, 0)
    else if e.valid then Tally(0, 1, 0) else Tally(1, 0, 0)
  }

  function Count(a: AccountState, events: seq<Event>, p: LockPolicy, low: int, high: int): Tally
    decreases |events|
  {
    if events == [] then Tally(0, 0, 0)
    else
      var rest := Count(Next(a, events[0], p), events[1..], p, low, high);
      var one := One(a, events[0]);
      if low <= events[0].now < high
      then Tally(one.failed + rest.failed, one.logins + rest.logins, one.changes + rest.changes)
      else rest
  }

  /** Failures that do not lock are those below the threshold. */
  function Threshold(p: LockPolicy): nat {
    if p.maximumFailures < 1 then 1 else p.maximumFailures
  }

  function Free(a: AccountState, p: LockPolicy): nat {
    if a.failures < Threshold(p) - 1 then Threshold(p) - 1 - a.failures else 0
  }

  /** Failures that resets make possible again: threshold - 1 for a login, threshold for a password change. */
  function Returned(t: Tally, p: LockPolicy): int {
    (Threshold(p) - 1) * t.logins + Threshold(p) * t.changes
  }

  lemma ReturnedByOne(t: Tally, p: LockPolicy)
    ensures Returned(t.(logins := t.logins + 1), p) == Returned(t, p) + Threshold(p) - 1
    ensures Returned(t.(changes := t.changes + 1), p) == Returned(t, p) + Threshold(p)
    ensures forall f: nat :: Returned(t.(failed := f), p) == Returned(t, p)
  {
  }

  /** Locks are set for the policy's time, so none outlasts `now` by more. */
  predicate LockOk(a: AccountState, p: LockPolicy, now: int) {
    a.lockedUntil.Some? ==> a.lockedUntil.value <= now + LockTime(p)
  }

  lemma {:induction false} NothingCounted(a: AccountState, events: seq<Event>, p: LockPolicy, low: int, high: int)
    requires Ordered(events) && (events != [] ==> events[0].now >= high)
    ensures Count(a, events, p, low, high) == Tally(0, 0, 0)
    decreases |events|
  {
    if events != [] {
      assert |events| > 1 ==> events[0].now <= events[1].now;
      NothingCounted(Next(a, events[0], p), events[1..], p, low, high);
    }
  }

  /** What the first event adds to the tally of the rest, and to what its resets return. */
  lemma FirstCounted(a: AccountState, events: seq<Event>, p: LockPolicy, low: int, high: int)
    requires events != [] && low <= events[0].now < high
    ensures var t, c := Count(Next(a, events[0], p), events[1..], p, low, high), Count(a, events, p, low, high);
            if events[0].NewPassword? then c.failed == t.failed && Returned(c, p) == Returned(t, p) + Threshold(p)
            else if !Verifies(a, events[0].now) then c == t
            else if events[0].valid then c.failed == t.failed && Returned(c, p) == Returned(t, p) + Threshold(p) - 1
            else c.failed == t.failed + 1 && Returned(c, p) == Returned(t, p)
  {
    var t := Count(Next(a, events[0], p), events[1..], p, low, high);
    ReturnedByOne(t, p);
    if events[0].NewPassword? {
      assert Count(a, events, p, low, high) == t.(changes := t.changes + 1);
    } else if Verifies(a, events[0].now) && events[0].valid {
      assert Count(a, events, p, low, high) == t.(logins := t.logins + 1);
    } else if Verifies(a, events[0].now) {
      assert Count(a, events, p, low, high) == t.(failed := t.failed + 1);
    }
  }

  /** No verification happens before `ready`; from there each further lock time adds one failure to the free ones. */
  lemma {:induction false} FailuresBound(a: AccountState, events: seq<Event>, p: LockPolicy, low: int, high: int,
                                         clock: int, ready: int, n: nat)
    requires p.lockSeconds > 0 && Ordered(events) && LockOk(a, p, clock) && low <= clock
    requires events != [] ==> clock <= events[0].now
    requires ready <= clock || (a.lockedUntil.Some? && ready <= a.lockedUntil.value)
    requires high <= ready + n * LockTime(p)
    ensures var t := Count(a, events, p, low, high);
            t.failed <= Free(a, p) + n + Returned(t, p)
    decreases |events|, 0
  {
    if events != [] {
      var e := events[0];
      var a' := Next(a, e, p);
      var rest := events[1..];
      assert rest != [] ==> e.now <= rest[0].now;
      if e.now < high {
        FirstCounted(a, events, p, low, high);
      }
      if e.now >= high {
        NothingCounted(a, events, p, low, high);
      } else if e.NewPassword? || (Verifies(a, e.now) && e.valid) {
        AfterReset(a, a', rest, p, low, high, e.now, ready, n, if e.NewPassword? then 1 else 0);
      } else if !Verifies(a, e.now) {
        FailuresBound(a, rest, p, low, high, e.now, ready, n);
      } else {
        AfterFailure(a, a', rest, p, low, high, e.now, ready, n);
      }
    }
  }

  /** A wrong password uses up a free failure, or locks for one of the n lock times. */
  lemma AfterFailure(a: AccountState, a': AccountState, rest: seq<Event>, p: LockPolicy, low: int, high: int,
                     now: int, ready: int, n: nat)
    requires p.lockSeconds > 0 && Ordered(rest) && LockOk(a, p, now) && low <= now < high && a' == Failed(a, now, p)
    requires rest != [] ==> now <= rest[0].now
    requires ready <= now && high <= ready + n * LockTime(p)
    ensures var t := Count(a', rest, p, low, high);
            t.failed + 1 <= Free(a, p) + n + Returned(t, p)
    decreases |rest|, 1
  {
    if a'.failures < p.maximumFailures {
      FailuresBound(a', rest, p, low, high, now, ready, n);
    } else {
      assert n >= 1 by { assert n == 0 ==> n * LockTime(p) == 0; }
      assert n * LockTime(p) == (n - 1) * LockTime(p) + LockTime(p);
      FailuresBound(a', rest, p, low, high, now, now + LockTime(p), n - 1);
    }
  }

  /** A reset gives back the free failures; a password change may also cut a lock short, which is worth one more. */
  lemma AfterReset(a: AccountState, a': AccountState, rest: seq<Event>, p: LockPolicy, low: int, high: int,
                   now: int, ready: int, n: nat, extra: nat)
    requires p.lockSeconds > 0 && Ordered(rest) && LockOk(a, p, now) && low <= now && a' == Cleared(a)
    requires rest != [] ==> now <= rest[0].now
    requires extra <= 1 && (extra == 0 ==> !Locked(a, now))
    requires ready <= now || (a.lockedUntil.Some? && ready <= a.lockedUntil.value)
    requires high <= ready + n * LockTime(p)
    ensures var t := Count(a', rest, p, low, high);
            t.failed <= Threshold(p) - 1 + n + extra + Returned(t, p)
    decreases |rest|, 1
  {
    assert (n + extra) * LockTime(p) == n * LockTime(p) + extra * LockTime(p);
    FailuresBound(a', rest, p, low, high, now, now, n + extra);
  }

  /**
   In every run, an interval no longer than n lock times contains at most threshold - 1
   wrong passwords and n more, plus threshold - 1 for each login and threshold for each
   password change inside it.
   */
  lemma {:induction false} IntervalBound(a: AccountState, events: seq<Event>, p: LockPolicy, low: int, high: int,
                                         clock: int, n: nat)
    requires p.lockSeconds > 0 && Ordered(events) && LockOk(a, p, clock) && (events != [] ==> clock <= events[0].now)
    requires high <= low + n * LockTime(p)
    ensures var t := Count(a, events, p, low, high);
            t.failed <= Threshold(p) - 1 + n + Returned(t, p)
    decreases |events|
  {
    if events != [] {
      var e := events[0];
      if low <= e.now {
        FailuresBound(a, events, p, low, high, e.now, low, n);
      } else {
        assert events[1..] != [] ==> e.now <= events[1..][0].now;
        IntervalBound(Next(a, e, p), events[1..], p, low, high, e.now, n);
      }
    }
  }

  /** Between two resets: at most threshold - 1 wrong passwords and one more for each started lock time. */
  lemma WithoutResetsBound(enabled: bool, events: seq<Event>, p: LockPolicy, low: int, high: int, n: nat)
    requires p.lockSeconds > 0 && Ordered(events) && high <= low + n * LockTime(p)
    requires var t := Count(AccountState(enabled, 0, None), events, p, low, high); t.logins == 0 && t.changes == 0
    ensures Count(AccountState(enabled, 0, None), events, p, low, high).failed <= Threshold(p) - 1 + n
  {
    if events != [] {
      IntervalBound(AccountState(enabled, 0, None), events, p, low, high, events[0].now, n);
    }
  }

  /** `n` wrong passwords at one instant. */
  function Wrong(t: int, n: nat): (events: seq<Event>)
    ensures |events| == n && forall j | 0 <= j < n :: events[j].now == t
  {
    if n == 0 then [] else [Try(t, false)] + Wrong(t, n - 1)
  }

  /** One wrong password each time the lock has just ended. */
  function OnePerLock(t: int, n: nat, p: LockPolicy): seq<Event>
    decreases n
  {
    if n == 0 then [] else [Try(t, false)] + OnePerLock(t + LockTime(p), n - 1, p)
  }

  lemma {:induction false} WrongCounted(a: AccountState, t: int, n: nat, rest: seq<Event>, p: LockPolicy, low: int,
                                        high: int)
    requires a.enabled && a.lockedUntil.None? && a.failures + n < Threshold(p) && low <= t < high
    ensures var c := Count(a.(failures := a.failures + n), rest, p, low, high);
            Count(a, Wrong(t, n) + rest, p, low, high) == c.(failed := c.failed + n)
    decreases n
  {
    var events := Wrong(t, n) + rest;
    if n == 0 {
      assert events == rest;
    } else {
      assert events[0] == Try(t, false) && events[1..] == Wrong(t, n - 1) + rest;
      WrongCounted(a.(failures := a.failures + 1), t, n - 1, rest, p, low, high);
    }
  }

  lemma {:induction false} OnePerLockCounted(a: AccountState, t: int, n: nat, p: LockPolicy, low: int, high: int)
    requires p.lockSeconds > 0 && a.enabled && !Locked(a, t) && a.failures + 1 >= p.maximumFailures
    requires low <= t && t + n * LockTime(p) <= high
    ensures Count(a, OnePerLock(t, n, p), p, low, high) == Tally(n, 0, 0)
    decreases n
  {
    if n > 0 {
      assert n * LockTime(p) == (n - 1) * LockTime(p) + LockTime(p);
      assert (n - 1) * LockTime(p) >= 0;
      OnePerLockCounted(Failed(a, t, p), t + LockTime(p), n - 1, p, low, high);
    }
  }

  lemma {:induction false} OnePerLockOrdered(t: int, n: nat, p: LockPolicy)
    ensures Ordered(OnePerLock(t, n, p)) && forall j | 0 <= j < |OnePerLock(t, n, p)| :: t <= OnePerLock(t, n, p)[j].now
    decreases n
  {
    if n > 0 {
      OnePerLockOrdered(t + LockTime(p), n - 1, p);
    }
  }

  /** The bound is attained: all free failures at once, then one as soon as each lock ends. */
  lemma BoundAttained(p: LockPolicy, low: int, n: nat) returns (events: seq<Event>)
    requires p.lockSeconds > 0 && n >= 1
    ensures Ordered(events)
    ensures Count(AccountState(true, 0, None), events, p, low, low + n * LockTime(p))
            == Tally(Threshold(p) - 1 + n, 0, 0)
  {
    events := Wrong(low, Threshold(p) - 1) + OnePerLock(low, n, p);
    OnePerLockOrdered(low, n, p);
    assert n * LockTime(p) == (n - 1) * LockTime(p) + LockTime(p);
    assert (n - 1) * LockTime(p) >= 0;
    WrongCounted(AccountState(true, 0, None), low, Threshold(p) - 1, OnePerLock(low, n, p), p,
                 low, low + n * LockTime(p));
    OnePerLockCounted(AccountState(true, Threshold(p) - 1, None), low, n, p, low, low + n * LockTime(p));
  }

  /** The announced delay is the least number of whole seconds after which the password is looked at again. */
  lemma RetryIsLeast(a: AccountState, now: int, seconds: nat)
    requires Locked(a, now) && seconds >= 1
    ensures Locked(a, now + seconds * SECOND) <==> seconds < RetryAfter(a.lockedUntil.value, now)
  {
    var wait := a.lockedUntil.value - now;
    assert CeilSeconds(wait) * SECOND >= wait > (CeilSeconds(wait) - 1) * SECOND;
  }

  /** The account after a run. */
  function Final(a: AccountState, events: seq<Event>, p: LockPolicy): AccountState
    decreases |events|
  {
    if events == [] then a else Final(Next(a, events[0], p), events[1..], p)
  }

  lemma {:induction false} WrongUntilLocked(a: AccountState, t: int, n: nat, p: LockPolicy)
    requires p.lockSeconds > 0 && a.enabled && a.lockedUntil.None? && a.failures < Threshold(p)
    ensures Final(a, Wrong(t, n), p)
            == if a.failures + n < Threshold(p) then a.(failures := a.failures + n)
               else a.(failures := Threshold(p), lockedUntil := Some(t + LockTime(p)))
    decreases n
  {
    if n > 0 {
      assert Wrong(t, n)[1..] == Wrong(t, n - 1);
      var a' := Next(a, Try(t, false), p);
      if a.failures + 1 < Threshold(p) {
        WrongUntilLocked(a', t, n - 1, p);
      } else {
        assert a' == a.(failures := Threshold(p), lockedUntil := Some(t + LockTime(p)));
        LockedIgnores(a', t, n - 1, p);
      }
    }
  }

  /** Attempts while the account is locked or disabled change nothing. */
  lemma {:induction false} LockedIgnores(a: AccountState, t: int, n: nat, p: LockPolicy)
    requires Locked(a, t) || !a.enabled
    ensures Final(a, Wrong(t, n), p) == a
    decreases n
  {
    if n > 0 {
      assert Wrong(t, n)[1..] == Wrong(t, n - 1);
      LockedIgnores(a, t, n - 1, p);
    }
  }

  /**
   After a successful login or a password change the account is open, whatever came before, and
   it takes the full number of wrong passwords to lock it, which they do for the whole lock time.
   */
  lemma ResetGivesAllAttempts(a: AccountState, e: Event, p: LockPolicy, t: int, n: nat)
    requires p.lockSeconds > 0 && a.enabled && (e.NewPassword? || (e.valid && !Locked(a, e.now)))
    ensures var a' := Next(a, e, p);
            && a' == AccountState(true, 0, None)
            && (Locked(Final(a', Wrong(t, n), p), t) <==> n >= Threshold(p))
            && (n >= Threshold(p) ==>
                  forall now :: Locked(Final(a', Wrong(t, n), p), now) <==> now < t + LockTime(p))
  {
    WrongUntilLocked(Next(a, e, p), t, n, p);
  }
}
