/**
 The fixed-window rate limiter with blocking: one bucket per scope and subject, updated
 under a lock. Instants are microseconds, the policy is given in seconds.
 */
module RateLimiter {
  import opened Outcomes

  const SECOND: int := 1_000_000

  /** `limit` requests per window; exceeding it blocks for `block` seconds. */
  datatype Policy = Policy(limit: nat, window: nat, block: nat)

  datatype Bucket = Bucket(started: int, count: nat, blockedUntil: Option<int>)

  datatype Decision = Decision(allowed: bool, retryAfter: int)

  type Subject = nat

  function CeilSeconds(microseconds: int): int {
    (microseconds + SECOND - 1) / SECOND
  }

  /** The stored bucket and the answer after one request. */
  function Consumed(b: Option<Bucket>, now: int, p: Policy): (Bucket, Decision) {
    if b.None? then (Bucket(now, 1, None), Decision(true, 0))
    else if b.value.blockedUntil.Some? && b.value.blockedUntil.value > now then
      var wait := CeilSeconds(b.value.blockedUntil.value - now);
      (b.value, Decision(false, if wait < 1 then 1 else wait))
    else if b.value.started + p.window * SECOND <= now then (Bucket(now, 1, None), Decision(true, 0))
    else if b.value.count + 1 > p.limit then
      (b.value.(count := b.value.count + 1, blockedUntil := Some(now + p.block * SECOND)), Decision(false, p.block))
    else (b.value.(count := b.value.count + 1), Decision(true, 0))
  }

  class Limiter {
    const policy: Policy
    var buckets: map<Subject, Bucket>

    ghost function BucketOf(subject: Subject): Option<Bucket>
      reads this
    {
      if subject in buckets then Some(buckets[subject]) else None
    }

    constructor (policy: Policy)
      ensures this.policy == policy && buckets == map[]
    {
      this.policy := policy;
      buckets := map[];
    }

    method Consume(subject: Subject, now: int) returns (d: Decision)
      modifies this
      ensures var (bucket, decision) := Consumed(old(BucketOf(subject)), now, policy);
              BucketOf(subject) == Some(bucket) && d == decision
      ensures forall other :: other != subject ==> BucketOf(other) == old(BucketOf(other))
    {
      if subject !in buckets {
        buckets := buckets[subject := Bucket(now, 1, None)];
        return Decision(true, 0);
      }
      var model := buckets[subject];
      if model.blockedUntil.Some? && model.blockedUntil.value > now {
        var wait := CeilSeconds(model.blockedUntil.value - now);
        return Decision(false, if wait < 1 then 1 else wait);
      }
      var windowEnds := model.started + policy.window * SECOND;
      if windowEnds <= now {
        buckets := buckets[subject := Bucket(now, 1, None)];
        return Decision(true, 0);
      }
      model := model.(count := model.count + 1);
      if model.count > policy.limit {
        buckets := buckets[subject := model.(blockedUntil := Some(now + policy.block * SECOND))];
        return Decision(false, policy.block);
      }
      buckets := buckets[subject := model];
      d := Decision(true, 0);
    }
  }

  // ---------------------------------------------------------------------------------
  // Runs of one subject
  // ---------------------------------------------------------------------------------

  predicate Ascending(times: seq<int>) {
    forall i, j | 0 <= i < j < |times| :: times[i] <= times[j]
  }

  function After(b: Option<Bucket>, times: seq<int>, p: Policy): Option<Bucket>
    decreases |times|
  {
    if times == [] then b else After(Some(Consumed(b, times[0], p).0), times[1..], p)
  }

  /** How many of the requests at these times are admitted at an instant in [low, high). */
  function Admitted(b: Option<Bucket>, times: seq<int>, p: Policy, low: int, high: int): nat
    decreases |times|
  {
    if times == [] then 0
    else
      var (b', d) := Consumed(b, times[0], p);
      (if d.allowed && low <= times[0] < high then 1 else 0) + Admitted(Some(b'), times[1..], p, low, high)
  }

  function Cap(p: Policy): nat {
    if p.limit < 1 then 1 else p.limit
  }

  /** Requests still admissible in the bucket's current window. */
  function Left(b: Bucket, p: Policy): nat {
    if b.count < Cap(p) then Cap(p) - b.count else 0
  }

  /**
   Before `n` windows past the end of the current one, what is left of it and `n` full windows bound
   the admissions.
   */
  lemma {:induction false} WindowsBound(b: Bucket, times: seq<int>, p: Policy, low: int, high: int, n: nat)
    requires p.window > 0 && b.count >= 1 && Ascending(times)
    requires high <= b.started + (n + 1) * (p.window * SECOND)
    ensures Admitted(Some(b), times, p, low, high) <= Left(b, p) + n * Cap(p)
    decreases |times|
  {
    if times != [] {
      var w := p.window * SECOND;
      var t := times[0];
      var b' := Consumed(Some(b), t, p).0;
      if t >= high {
        NoneAdmitted(Some(b), times, p, low, high);
      } else if b'.started == b.started && b' != Bucket(t, 1, None) {
        WindowsBound(b', times[1..], p, low, high, n);
      } else {
        assert b' == Bucket(t, 1, None) && b.started + w <= t;
        assert (n + 1) * w == n * w + w;
        assert n == 0 ==> high <= b.started + w;
        assert n * w == (n - 1) * w + w;
        assert high <= t + n * w;
        WindowsBound(b', times[1..], p, low, high, n - 1);
        assert n * Cap(p) == (n - 1) * Cap(p) + Cap(p);
      }
    }
  }

  lemma {:induction false} NoneAdmitted(b: Option<Bucket>, times: seq<int>, p: Policy, low: int, high: int)
    requires Ascending(times) && (times != [] ==> times[0] >= high)
    ensures Admitted(b, times, p, low, high) == 0
    decreases |times|
  {
    if times != [] {
      assert |times| > 1 ==> times[0] <= times[1];
      NoneAdmitted(Some(Consumed(b, times[0], p).0), times[1..], p, low, high);
    }
  }

  /** A window that opens inside the interval: k windows from `low` reach at most k - 1 windows past it. */
  lemma OpenedInside(t: int, times: seq<int>, p: Policy, low: int, k: nat)
    requires p.window > 0 && Ascending([t] + times) && low <= t < low + k * (p.window * SECOND)
    ensures 1 + Admitted(Some(Bucket(t, 1, None)), times, p, low, low + k * (p.window * SECOND)) <= k * Cap(p)
  {
    var w := p.window * SECOND;
    assert times == ([t] + times)[1..];
    assert k >= 1 by { assert k == 0 ==> k * w == 0; }
    assert k * w == (k - 1) * w + w && k * Cap(p) == (k - 1) * Cap(p) + Cap(p);
    WindowsBound(Bucket(t, 1, None), times, p, low, low + k * w, k - 1);
  }

  /** Nothing before the interval matters: from any bucket, k windows admit fewer than k + 1 times the limit. */
  lemma {:induction false} IntervalBound(b: Option<Bucket>, times: seq<int>, p: Policy, low: int, k: nat)
    requires p.window > 0 && Ascending(times) && (b.Some? ==> b.value.count >= 1)
    ensures Admitted(b, times, p, low, low + k * (p.window * SECOND)) < (k + 1) * Cap(p)
    decreases |times|
  {
    var w := p.window * SECOND;
    var high := low + k * w;
    assert (k + 1) * Cap(p) == k * Cap(p) + Cap(p);
    if times != [] {
      assert times == [times[0]] + times[1..];
      if b.Some? && low <= b.value.started + w {
        assert (k + 1) * w == k * w + w;
        WindowsBound(b.value, times, p, low, high, k);
      } else if times[0] >= high {
        NoneAdmitted(b, times, p, low, high);
      } else {
        var (b', d) := Consumed(b, times[0], p);
        if d.allowed && low <= times[0] {
          OpenedInside(times[0], times[1..], p, low, k);
        } else {
          IntervalBound(Some(b'), times[1..], p, low, k);
        }
      }
    }
  }

  /**
   In every run of a subject, any half-open interval of k windows admits fewer than (k + 1)
   times the limit, with a limit of zero counting as one because a new bucket always admits.
   */
  lemma RunBound(times: seq<int>, p: Policy, low: int, k: nat)
    requires p.window > 0 && Ascending(times)
    ensures Admitted(None, times, p, low, low + k * (p.window * SECOND)) < (k + 1) * Cap(p)
  {
    IntervalBound(None, times, p, low, k);
  }

  // ---------------------------------------------------------------------------------
  // The bound is attained
  // ---------------------------------------------------------------------------------

  function Burst(t: int, n: nat): (times: seq<int>)
    ensures |times| == n && forall j | 0 <= j < n :: times[j] == t
  {
    if n == 0 then [] else [t] + Burst(t, n - 1)
  }

  /** A full burst at the start of each window from the i-th to the k-th. */
  function Bursts(i: nat, k: nat, p: Policy): seq<int>
    decreases k + 1 - i
  {
    if i > k then [] else Burst(i * (p.window * SECOND), p.limit) + Bursts(i + 1, k, p)
  }

  lemma {:induction false} BurstAdmitted(b: Bucket, t: int, n: nat, rest: seq<int>, p: Policy, low: int, high: int)
    requires b.blockedUntil.None? && t < b.started + p.window * SECOND && b.count + n <= p.limit && low <= t < high
    ensures Admitted(Some(b), Burst(t, n) + rest, p, low, high)
            == n + Admitted(Some(b.(count := b.count + n)), rest, p, low, high)
    decreases n
  {
    var times := Burst(t, n) + rest;
    if n == 0 {
      assert times == rest;
    } else {
      assert times[0] == t && times[1..] == Burst(t, n - 1) + rest;
      BurstAdmitted(b.(count := b.count + 1), t, n - 1, rest, p, low, high);
    }
  }

  lemma {:induction false} BurstsAdmitted(b: Bucket, i: nat, k: nat, p: Policy, low: int, high: int)
    requires p.window > 0 && p.limit >= 1 && b.blockedUntil.None? && i <= k + 1
    requires b.started + p.window * SECOND <= i * (p.window * SECOND) && low <= i * (p.window * SECOND)
    requires k * (p.window * SECOND) < high
    ensures Admitted(Some(b), Bursts(i, k, p), p, low, high) == (k + 1 - i) * p.limit
    decreases k + 1 - i
  {
    var w := p.window * SECOND;
    if i <= k {
      var t, rest := i * w, Bursts(i + 1, k, p);
      assert (i + 1) * w == i * w + w;
      assert t <= k * w;
      var begun := Bucket(t, 1, None);
      var times := Burst(t, p.limit) + rest;
      assert times[0] == t && times[1..] == Burst(t, p.limit - 1) + rest;
      BurstAdmitted(begun, t, p.limit - 1, rest, p, low, high);
      BurstsAdmitted(begun.(count := p.limit), i + 1, k, p, low, high);
      assert (k + 1 - i) * p.limit == (k - i) * p.limit + p.limit;
    }
  }

  lemma {:induction false} BurstsAscend(i: nat, k: nat, p: Policy)
    requires p.window > 0
    ensures Ascending(Bursts(i, k, p))
    ensures forall j | 0 <= j < |Bursts(i, k, p)| :: i * (p.window * SECOND) <= Bursts(i, k, p)[j]
    decreases k + 1 - i
  {
    if i <= k {
      BurstsAscend(i + 1, k, p);
      assert (i + 1) * (p.window * SECOND) == i * (p.window * SECOND) + p.window * SECOND;
    }
  }

  /** One request opens a window, the rest of its limit comes at its last instant, and then every window starts full. */
  lemma RunBoundAttained(p: Policy, k: nat) returns (times: seq<int>, low: int)
    requires p.window > 0 && p.limit >= 1 && k >= 1
    ensures Ascending(times)
    ensures Admitted(None, times, p, low, low + k * (p.window * SECOND)) == (k + 1) * Cap(p) - 1
  {
    var w := p.window * SECOND;
    low := w - 1;
    var high := low + k * w;
    var rest := Burst(low, p.limit - 1) + Bursts(1, k, p);
    times := [0] + rest;
    BurstsAscend(1, k, p);
    assert times[1..] == rest;
    BurstAdmitted(Bucket(0, 1, None), low, p.limit - 1, Bursts(1, k, p), p, low, high);
    BurstsAdmitted(Bucket(0, p.limit, None), 1, k, p, low, high);
    assert (k + 1) * p.limit == k * p.limit + p.limit;
  }

  // ---------------------------------------------------------------------------------
  // Blocking
  // ---------------------------------------------------------------------------------

  /** What every stored bucket satisfies at `now`: a block was set within its window and for the policy's duration. */
  predicate BucketOk(b: Bucket, p: Policy, now: int) {
    && b.started <= now && b.count >= 1
    && (b.blockedUntil.Some? ==>
          && b.count > p.limit
          && b.started + p.block * SECOND <= b.blockedUntil.value < b.started + p.window * SECOND + p.block * SECOND
          && b.blockedUntil.value <= now + p.block * SECOND)
  }

  lemma {:induction false} EveryRunKeeps(b: Option<Bucket>, times: seq<int>, p: Policy, now: int)
    requires Ascending(times) && (b.Some? ==> BucketOk(b.value, p, now)) && (times != [] ==> now <= times[0])
    ensures var b' := After(b, times, p);
            b'.Some? ==> BucketOk(b'.value, p, if times == [] then now else times[|times| - 1])
    decreases |times|
  {
    if times != [] {
      var b' := Consumed(b, times[0], p).0;
      assert BucketOk(b', p, times[0]);
      EveryRunKeeps(Some(b'), times[1..], p, times[0]);
    }
  }

  /** While blocked, any number of requests is denied and none of them changes anything. */
  lemma {:induction false} BlockedChangesNothing(b: Bucket, times: seq<int>, p: Policy)
    requires b.blockedUntil.Some? && forall i | 0 <= i < |times| :: times[i] < b.blockedUntil.value
    ensures After(Some(b), times, p) == Some(b)
    ensures forall low, high :: Admitted(Some(b), times, p, low, high) == 0
    decreases |times|
  {
    if times != [] {
      BlockedChangesNothing(b, times[1..], p);
      forall low, high ensures Admitted(Some(b), times, p, low, high) == 0 {
        assert Admitted(Some(b), times[1..], p, low, high) == 0;
      }
    }
  }

  /** A block never outlasts window and block counted from the window's start. */
  lemma AdmittedAfterWindowAndBlock(b: Bucket, p: Policy, now: int, later: int)
    requires BucketOk(b, p, now) && b.started + p.window * SECOND + p.block * SECOND <= later
    ensures Consumed(Some(b), later, p).1.allowed && Consumed(Some(b), later, p).0 == Bucket(later, 1, None)
  {
  }

  /** After a denial, coming back once the returned delay has passed is admitted exactly when the window has ended. */
  lemma RetryAdmittedIff(b: Bucket, p: Policy, now: int, later: int)
    requires BucketOk(b, p, now) && !Consumed(Some(b), now, p).1.allowed
    requires now + Consumed(Some(b), now, p).1.retryAfter * SECOND <= later
    ensures Consumed(Some(Consumed(Some(b), now, p).0), later, p).1.allowed <==> b.started + p.window * SECOND <= later
  {
  }

  /** Waiting the returned delay is enough, for every bucket, exactly when a block lasts at least a window. */
  lemma RetryIsEnoughIff(p: Policy)
    requires p.limit >= 1
    ensures (forall b, now, later ::
               BucketOk(b, p, now) && !Consumed(Some(b), now, p).1.allowed
               && now + Consumed(Some(b), now, p).1.retryAfter * SECOND <= later
               ==> Consumed(Some(Consumed(Some(b), now, p).0), later, p).1.allowed)
            <==> p.block >= p.window
  {
    if p.block >= p.window {
      forall b, now, later | BucketOk(b, p, now) && !Consumed(Some(b), now, p).1.allowed
                             && now + Consumed(Some(b), now, p).1.retryAfter * SECOND <= later
        ensures Consumed(Some(Consumed(Some(b), now, p).0), later, p).1.allowed
      {
        RetryAdmittedIff(b, p, now, later);
      }
    } else {
      var full := Bucket(0, p.limit, None);
      assert BucketOk(full, p, 0);
      assert Consumed(Some(full), 0, p).1 == Decision(false, p.block);
      RetryAdmittedIff(full, p, 0, p.block * SECOND);
    }
  }

  /** A request is admitted exactly when no block is on and a window is opened or has room. */
  lemma AdmittedIff(b: Option<Bucket>, p: Policy, now: int)
    ensures Consumed(b, now, p).1.allowed <==>
            || b.None?
            || ((b.value.blockedUntil.Some? ==> b.value.blockedUntil.value <= now)
                && (b.value.started + p.window * SECOND <= now || b.value.count < p.limit))
    ensures Consumed(b, now, p).1.allowed ==> Consumed(b, now, p).1.retryAfter == 0
  {
  }

  /** The delay a denial announces is the least number of whole seconds after which the block is over. */
  lemma RetryIsLeast(b: Bucket, p: Policy, now: int, seconds: nat)
    requires !Consumed(Some(b), now, p).1.allowed && seconds >= 1
    ensures var (b', d) := Consumed(Some(b), now, p);
            && b'.blockedUntil.Some? && d.retryAfter >= 0
            && (now + seconds * SECOND < b'.blockedUntil.value <==> seconds < d.retryAfter)
  {
    var (b', d) := Consumed(Some(b), now, p);
    var wait := b'.blockedUntil.value - now;
    assert CeilSeconds(wait) * SECOND >= wait > (CeilSeconds(wait) - 1) * SECOND;
    if !(b.blockedUntil.Some? && b.blockedUntil.value > now) {
      assert wait == p.block * SECOND && d.retryAfter == p.block;
    }
  }
}
