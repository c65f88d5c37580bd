/** Per-session limits: a lifetime, a transfer quota and a token bucket whose delays the caller waits out.
    Times are nanoseconds on the monotonic clock. */
module Shaping {
  import opened Prelude

  const NANOS: nat := 1_000_000_000
  const U64_MAX: nat := U64_LIMIT - 1
  const U128_MAX: nat := U64_LIMIT * U64_LIMIT - 1
  const MINIMUM_BURST: nat := 16 * 1024
  const MAXIMUM_BURST: nat := 4 * 1024 * 1024
  const MAXIMUM_RATE: nat := 1024 * 1024 * 1024
  const MAXIMUM_LIFETIME: nat := 86400 * NANOS

  datatype PolicyError = InvalidLifetime | InvalidBandwidth | Expired | CounterOverflow | QuotaExceeded |
    ExpiresDuringShaping

  datatype Bucket = Bucket(rate: nat, capacity: nat, tokens: nat, updatedAt: nat) {
    predicate Valid() {
      0 < rate <= MAXIMUM_RATE && tokens <= capacity <= MAXIMUM_BURST
    }
  }

  datatype Policy = Policy(deadline: nat, quota: Option<nat>, transferred: nat, bucket: Bucket) {
    predicate Valid() {
      bucket.Valid() && transferred < U64_LIMIT && (quota.Some? ==> transferred <= quota.value)
    }
  }

  function Clamp(x: nat, low: nat, high: nat): nat {
    if x < low then low else if x > high then high else x
  }

  function NewPolicy(lifetimeSeconds: nat, bandwidth: nat, quotaBytes: nat, now: nat): Result<Policy, PolicyError> {
    if !(60 <= lifetimeSeconds <= 86400) then Err(InvalidLifetime)
    else if !(1024 <= bandwidth <= MAXIMUM_RATE) then Err(InvalidBandwidth)
    else
      var burst := Clamp(bandwidth, MINIMUM_BURST, MAXIMUM_BURST);
      Ok(Policy(now + lifetimeSeconds * NANOS, if quotaBytes != 0 then Some(quotaBytes) else None, 0,
                Bucket(bandwidth, burst, burst, now)))
  }

  // ---- The token bucket ----

  function Elapsed(b: Bucket, now: nat): nat {
    if now < b.updatedAt then 0 else now - b.updatedAt
  }

  /** Tokens at `now`, with every saturation of the source written out. */
  function Filled(b: Bucket, now: nat): nat {
    var replenished := Min(Min(Elapsed(b, now) * b.rate, U128_MAX) / NANOS, U64_MAX);
    Min(Min(b.tokens + replenished, U64_MAX), b.capacity)
  }

  function CeilDiv(a: nat, b: nat): nat
    requires b > 0
  {
    (a + b - 1) / b
  }

  /** The wait for `bytes` when `tokens` are there, before it is capped. */
  function Wait(bytes: nat, tokens: nat, rate: nat): nat
    requires rate > 0
  {
    if bytes <= tokens then 0 else CeilDiv((bytes - tokens) * NANOS, rate)
  }

  function Reserve(b: Bucket, bytes: nat, now: nat): (Bucket, nat)
    requires b.rate > 0
  {
    var tokens := Filled(b, now);
    if bytes <= tokens then (b.(tokens := tokens - bytes, updatedAt := now), 0)
    else
      var delay := Min(Wait(bytes, tokens, b.rate), U64_MAX);
      (b.(tokens := 0, updatedAt := now + delay), delay)
  }

  lemma FloorBounds(a: nat, b: nat)
    requires b > 0
    ensures a / b * b <= a < a / b * b + b
  {
    var q, r := a / b, a % b;
    assert a == q * b + r;
  }

  lemma FloorMonotone(a: nat, b: nat, d: nat)
    requires a <= b && d > 0
    ensures a / d <= b / d
  {
    FloorBounds(a, d);
    FloorBounds(b, d);
    if a / d > b / d { TimesMonotone(b / d + 1, a / d, d); }
  }

  lemma TimesMonotone(i: nat, j: nat, k: nat)
    requires i <= j
    ensures i * k <= j * k && (i + 1) * k == i * k + k
  {
  }

  /** None of the saturations shows: the level is what it would be over unbounded integers. */
  lemma SaturationsDoNotShow(b: Bucket, now: nat)
    requires b.Valid()
    ensures Filled(b, now) == Min(b.tokens + Elapsed(b, now) * b.rate / NANOS, b.capacity)
  {
    var product := Elapsed(b, now) * b.rate;
    FloorMonotone(Min(product, U128_MAX), product, NANOS);
    if product > U128_MAX { FloorMonotone(U128_MAX, product, NANOS); }
  }

  /** The delay is the least wait after which the bytes are covered. */
  lemma WaitIsLeast(bytes: nat, tokens: nat, rate: nat, wait: nat)
    requires rate > 0
    ensures tokens + wait * rate / NANOS >= bytes <==> wait >= Wait(bytes, tokens, rate)
    ensures Wait(bytes, tokens, rate) * rate >= (bytes - tokens) * NANOS
    ensures bytes > tokens ==> Wait(bytes, tokens, rate) * rate < (bytes - tokens) * NANOS + rate
  {
    FloorBounds(wait * rate, NANOS);
    if bytes > tokens {
      var least := Wait(bytes, tokens, rate);
      var need := (bytes - tokens) * NANOS;
      FloorBounds(need + rate - 1, rate);
      if wait >= least {
        TimesMonotone(least, wait, rate);
        if wait * rate / NANOS < bytes - tokens { TimesMonotone(wait * rate / NANOS, bytes - tokens - 1, NANOS); }
      } else {
        TimesMonotone(wait + 1, least, rate);
        if wait * rate / NANOS >= bytes - tokens { TimesMonotone(bytes - tokens, wait * rate / NANOS, NANOS); }
      }
    }
  }

  /** At a settled bucket -- one asked at the time it was last updated for -- the delay is exactly how long
      the caller would have had to wait for the same bytes without one. */
  lemma DelayIsExact(b: Bucket, bytes: nat, later: nat)
    requires b.Valid() && bytes <= b.capacity && later >= b.updatedAt
    ensures Reserve(b, bytes, b.updatedAt).1 < U64_MAX ==>
              (Reserve(b, bytes, later).1 == 0 <==> later >= b.updatedAt + Reserve(b, bytes, b.updatedAt).1)
  {
    SaturationsDoNotShow(b, b.updatedAt);
    SaturationsDoNotShow(b, later);
    WaitIsLeast(bytes, b.tokens, b.rate, later - b.updatedAt);
    WaitIsLeast(bytes, b.tokens, b.rate, 0);
    WaitIsLeast(bytes, Filled(b, later), b.rate, 0);
  }

  /** Tokens in hand, less the bytes the clock has already paid for; in billionths of a byte. */
  function Credit(b: Bucket): int {
    b.tokens * NANOS - b.rate * b.updatedAt
  }

  lemma Distribute(rate: nat, a: nat, b: nat)
    ensures rate * (a + b) == rate * a + rate * b && rate * a == a * rate
  {
  }

  lemma FilledCredit(b: Bucket, now: nat)
    requires b.Valid() && now >= b.updatedAt
    ensures Filled(b, now) * NANOS - b.rate * now <= Credit(b)
    ensures Filled(b, now) <= b.capacity
  {
    SaturationsDoNotShow(b, now);
    FloorBounds(Elapsed(b, now) * b.rate, NANOS);
    Distribute(b.rate, b.updatedAt, now - b.updatedAt);
  }

  /** The account after a call whose delay was not capped. */
  lemma CreditAfter(b: Bucket, bytes: nat, now: nat)
    requires b.Valid() && Reserve(b, bytes, now).1 < U64_MAX
    ensures var b1 := Reserve(b, bytes, now).0;
            var level := Filled(b, now) * NANOS - b.rate * now;
            && level - b.rate < Credit(b1) + bytes * NANOS <= level
            && b1.Valid() && b1.rate == b.rate && b1.capacity == b.capacity
  {
    var tokens := Filled(b, now);
    var delay := Wait(bytes, tokens, b.rate);
    WaitIsLeast(bytes, tokens, b.rate, 0);
    Distribute(b.rate, now, delay);
    SaturationsDoNotShow(b, now);
  }

  /** A call spends no more than there is exactly when it does not come before the time the last one was
      granted for: an early call rewinds that time, and the wait still owed is forgotten. */
  lemma NothingIsForgotten(b: Bucket, bytes: nat, now: nat)
    requires b.Valid() && Reserve(b, bytes, now).1 < U64_MAX
    ensures Credit(Reserve(b, bytes, now).0) + bytes * NANOS <= Credit(b) <==> now >= b.updatedAt
  {
    CreditAfter(b, bytes, now);
    if now >= b.updatedAt {
      FilledCredit(b, now);
    } else {
      SaturationsDoNotShow(b, now);
      assert Elapsed(b, now) * b.rate == 0;
      Distribute(b.rate, now, b.updatedAt - now);
      TimesMonotone(1, b.updatedAt - now, b.rate);
      Distribute(b.rate, b.updatedAt - now, 0);
    }
  }

  // ---- The session policy ----

  function ReservePolicy(p: Policy, bytes: nat, now: nat): (Policy, Result<nat, PolicyError>)
    requires p.bucket.rate > 0
  {
    if now >= p.deadline then (p, Err(Expired))
    else if p.transferred + bytes >= U64_LIMIT then (p, Err(CounterOverflow))
    else if p.quota.Some? && p.transferred + bytes > p.quota.value then (p, Err(QuotaExceeded))
    else
      var (bucket, delay) := Reserve(p.bucket, bytes, now);
      if now + delay >= p.deadline then (p.(bucket := bucket), Err(ExpiresDuringShaping))
      else (p.(bucket := bucket, transferred := p.transferred + bytes), Ok(delay))
  }

  /** The tokens at `now`: what there was and what has come since, up to the capacity. */
  function Level(b: Bucket, now: nat): nat {
    Min(b.tokens + (if now <= b.updatedAt then 0 else (now - b.updatedAt) * b.rate / NANOS), b.capacity)
  }

  /** Asked for at `now`, the bytes are there at `t`. */
  predicate Covers(b: Bucket, bytes: nat, now: nat, t: nat) {
    now <= t && Level(b, now) + (t - now) * b.rate / NANOS >= bytes
  }

  lemma LevelIsFilled(b: Bucket, now: nat)
    requires b.Valid()
    ensures Filled(b, now) == Level(b, now)
  {
    SaturationsDoNotShow(b, now);
  }

  /** The total a grant would leave. */
  predicate InTotal(p: Policy, bytes: nat) {
    p.transferred + bytes < U64_LIMIT
  }

  predicate InQuota(p: Policy, bytes: nat) {
    p.quota.Some? ==> p.transferred + bytes <= p.quota.value
  }

  ghost predicate CoveredInTime(p: Policy, bytes: nat, now: nat) {
    exists t: nat :: t < p.deadline && Covers(p.bucket, bytes, now, t)
  }

  /** When a call is granted, and which refusal it gets otherwise: a grant comes exactly within the lifetime, the
      counter and the quota, if the bytes are there before the deadline; its delay is the least that covers them. */
  lemma GrantedIff(p: Policy, bytes: nat, now: nat)
    requires p.Valid() && p.deadline <= now + MAXIMUM_LIFETIME
    ensures var r := ReservePolicy(p, bytes, now).1;
            && (r == Err(Expired) <==> now >= p.deadline)
            && (r == Err(CounterOverflow) <==> now < p.deadline && !InTotal(p, bytes))
            && (r == Err(QuotaExceeded) <==> now < p.deadline && InTotal(p, bytes) && !InQuota(p, bytes))
            && (r == Err(ExpiresDuringShaping) <==>
                  now < p.deadline && InTotal(p, bytes) && InQuota(p, bytes) && !CoveredInTime(p, bytes, now))
            && (r.Ok? <==> now < p.deadline && InTotal(p, bytes) && InQuota(p, bytes) && CoveredInTime(p, bytes, now))
            && (r.Ok? ==> forall t: nat | now <= t :: Covers(p.bucket, bytes, now, t) <==> t >= now + r.value)
  {
    hide Filled, Level, Wait;
    var b := p.bucket;
    LevelIsFilled(b, now);
    var wait := Wait(bytes, Level(b, now), b.rate);
    forall t: nat | now <= t
      ensures Covers(b, bytes, now, t) <==> t >= now + wait
    {
      WaitIsLeast(bytes, Level(b, now), b.rate, t - now);
    }
    NoWait(bytes, Level(b, now), b.rate);
    if now + wait < p.deadline {
      assert Covers(b, bytes, now, now + wait);
    }
  }

  lemma NoWait(bytes: nat, tokens: nat, rate: nat)
    requires rate > 0
    ensures bytes <= tokens ==> Wait(bytes, tokens, rate) == 0
  {
  }

  /** The first call of a session with a quota. */
  lemma QuotaLeavesRoom()
    ensures var p := NewPolicy(60, 1024, 1500, 0).value;
            && ReservePolicy(p, 1024, 0).1 == Ok(0)
            && ReservePolicy(ReservePolicy(p, 1024, 0).0, 477, NANOS).1 == Err(QuotaExceeded)
            && ReservePolicy(ReservePolicy(p, 1024, 0).0, 476, NANOS).1 == Ok(0)
  {
  }

  /** The limits a session starts with: which are accepted, how much it may send at once, what it may send in all, and
      when it ends. */
  lemma NewSessionGrants(lifetime: nat, bandwidth: nat, quota: nat, now: nat, bytes: nat, later: nat)
    requires bytes < U64_LIMIT
    ensures NewPolicy(lifetime, bandwidth, quota, now).Ok?
            <==> 60 <= lifetime <= 86400 && 1024 <= bandwidth <= 1024 * 1024 * 1024
    ensures NewPolicy(lifetime, bandwidth, quota, now).Ok? ==>
              var p := NewPolicy(lifetime, bandwidth, quota, now).value;
              var burst := if bandwidth < 16384 then 16384
                           else if bandwidth > 4194304 then 4194304 else bandwidth;
              && (ReservePolicy(p, bytes, now).1 == Ok(0) <==> bytes <= burst && (quota == 0 || bytes <= quota))
              && (ReservePolicy(p, bytes, later).1 == Err(QuotaExceeded)
                  <==> later < now + lifetime * 1_000_000_000 && quota != 0 && bytes > quota)
              && (ReservePolicy(p, bytes, later).1 == Err(Expired) <==> later >= now + lifetime * 1_000_000_000)
  {
    if NewPolicy(lifetime, bandwidth, quota, now).Ok? {
      var p := NewPolicy(lifetime, bandwidth, quota, now).value;
      NewPolicyLimits(lifetime, bandwidth, quota, now);
      GrantedIff(p, bytes, now);
    }
  }

  datatype Call = Call(bytes: nat, now: nat)

  /** The policy after the calls, the last one last. */
  function After(p: Policy, calls: seq<Call>): (after: Policy)
    requires p.bucket.rate > 0
    ensures after.bucket.rate == p.bucket.rate && after.deadline == p.deadline
    ensures after.bucket.capacity == p.bucket.capacity && after.quota == p.quota
    decreases |calls|
  {
    if calls == [] then p
    else
      var last := calls[|calls| - 1];
      ReservePolicy(After(p, calls[..|calls| - 1]), last.bytes, last.now).0
  }

  function Outcome(p: Policy, calls: seq<Call>, k: nat): Result<nat, PolicyError>
    requires p.bucket.rate > 0 && k < |calls|
  {
    ReservePolicy(After(p, calls[..k]), calls[k].bytes, calls[k].now).1
  }

  /** When the bytes of call `k` go out; a refused call sends nothing and returns at once. */
  function Release(p: Policy, calls: seq<Call>, k: nat): nat
    requires p.bucket.rate > 0 && k < |calls|
  {
    calls[k].now + match Outcome(p, calls, k) case Ok(delay) => delay case Err(_) => 0
  }

  /** Every call comes after the delay of the one before it. */
  predicate Waited(p: Policy, calls: seq<Call>)
    requires p.bucket.rate > 0
  {
    forall k: nat | 0 < k < |calls| :: calls[k].now >= Release(p, calls, k - 1)
  }

  function Granted(p: Policy, calls: seq<Call>): nat
    requires p.bucket.rate > 0
    decreases |calls|
  {
    if calls == [] then 0
    else
      var n := |calls| - 1;
      Granted(p, calls[..n]) + (if Outcome(p, calls, n).Ok? then calls[n].bytes else 0)
  }

  lemma {:induction false} PrefixOf(p: Policy, calls: seq<Call>, n: nat)
    requires p.bucket.rate > 0 && n <= |calls|
    ensures forall k: nat | k < n :: Release(p, calls[..n], k) == Release(p, calls, k)
    ensures Waited(p, calls) ==> Waited(p, calls[..n])
  {
    hide After, ReservePolicy;
    forall k: nat | k < n
      ensures Release(p, calls[..n], k) == Release(p, calls, k)
    {
      assert calls[..n][..k] == calls[..k];
    }
  }

  lemma ReserveValid(b: Bucket, bytes: nat, now: nat)
    requires b.Valid()
    ensures Reserve(b, bytes, now).0.Valid()
  {
    SaturationsDoNotShow(b, now);
  }

  /** Whatever the outcome, a call keeps the policy valid; a grant is within lifetime and quota, adds to
      the transferred total, and never depends on the cap of the delay. */
  lemma CallKeepsValid(p: Policy, bytes: nat, now: nat)
    requires p.Valid()
    ensures var (p1, r) := ReservePolicy(p, bytes, now);
            && p1.Valid()
            && p1.transferred == p.transferred + (if r.Ok? then bytes else 0)
            && (r.Ok? ==> now + r.value < p.deadline)
            && (r.Ok? && p.deadline <= now + MAXIMUM_LIFETIME ==>
                  r.value == Wait(bytes, Filled(p.bucket, now), p.bucket.rate) < U64_MAX)
  {
    hide Filled;
    ReserveValid(p.bucket, bytes, now);
  }

  lemma {:induction false} RunKeepsValid(p: Policy, calls: seq<Call>)
    requires p.Valid()
    ensures After(p, calls).Valid()
    ensures After(p, calls).transferred == p.transferred + Granted(p, calls)
    decreases |calls|
  {
    hide ReservePolicy;
    if calls != [] {
      var n := |calls| - 1;
      RunKeepsValid(p, calls[..n]);
      CallKeepsValid(After(p, calls[..n]), calls[n].bytes, calls[n].now);
    }
  }

  /** What was granted since `start`, and what is still in the bucket, is covered by a full bucket and the
      time up to `now` or the last update, whichever is earlier. */
  ghost predicate Covered(b: Bucket, granted: nat, start: nat, now: nat) {
    var settled := Min(b.updatedAt, now);
    granted == 0
    || (start <= settled && (granted + b.tokens) * NANOS <= b.capacity * NANOS + b.rate * (settled - start))
  }

  /** The level at `now` counted from any time up to `now`. */
  lemma FilledSince(b: Bucket, before: nat, now: nat)
    requires b.Valid() && before <= now
    ensures Filled(b, now) * NANOS <= b.tokens * NANOS + b.rate * (now - Min(b.updatedAt, before))
    ensures Filled(b, now) <= b.capacity
  {
    var settled := Min(b.updatedAt, before);
    SaturationsDoNotShow(b, now);
    FloorBounds(Elapsed(b, now) * b.rate, NANOS);
    Distribute(b.rate, Elapsed(b, now), now - settled - Elapsed(b, now));
  }

  lemma Spent(b: Bucket, bytes: nat, now: nat)
    requires b.Valid() && Reserve(b, bytes, now).1 < U64_MAX
    ensures var (b1, delay) := Reserve(b, bytes, now);
            b1.updatedAt == now + delay && (bytes + b1.tokens) * NANOS <= Filled(b, now) * NANOS + b.rate * delay
  {
    CreditAfter(b, bytes, now);
    Distribute(b.rate, now, Reserve(b, bytes, now).1);
  }

  lemma GrantCovered(b: Bucket, granted: nat, start: nat, before: nat, bytes: nat, now: nat)
    requires b.Valid() && Covered(b, granted, start, before) && start <= before <= now
    requires Reserve(b, bytes, now).1 < U64_MAX
    ensures var (b1, delay) := Reserve(b, bytes, now); Covered(b1, granted + bytes, start, now + delay)
  {
    hide Filled, Reserve;
    var delay := Reserve(b, bytes, now).1;
    Spent(b, bytes, now);
    FilledSince(b, before, now);
    ReserveKeepsRate(b, bytes, now);
    if granted == 0 {
      Distribute(b.rate, now - start, delay);
    } else {
      var settled := Min(b.updatedAt, before);
      Distribute(b.rate, settled - start, now - settled);
      Distribute(b.rate, now - start, delay);
    }
  }

  lemma ReserveKeepsRate(b: Bucket, bytes: nat, now: nat)
    requires b.rate > 0
    ensures Reserve(b, bytes, now).0.rate == b.rate && Reserve(b, bytes, now).0.capacity == b.capacity
  {
  }

  lemma LaterCovered(b: Bucket, granted: nat, start: nat, before: nat, now: nat)
    requires Covered(b, granted, start, before) && before <= now
    ensures Covered(b, granted, start, now)
  {
    if granted > 0 {
      var a, c := Min(b.updatedAt, before), Min(b.updatedAt, now);
      Distribute(b.rate, a - start, c - a);
    }
  }

  /** A call that empties the bucket and is then refused for the deadline. */
  lemma RefusalCovered(b: Bucket, granted: nat, start: nat, before: nat, bytes: nat, now: nat)
    requires b.Valid() && Covered(b, granted, start, before) && start <= before <= now
    requires bytes > Filled(b, now)
    ensures Covered(Reserve(b, bytes, now).0, granted, start, now)
  {
    if granted > 0 {
      var a := Min(b.updatedAt, before);
      Distribute(b.rate, a - start, now - a);
      assert Min(Reserve(b, bytes, now).0.updatedAt, now) == now;
    }
  }

  lemma CallCovered(p: Policy, granted: nat, start: nat, before: nat, bytes: nat, now: nat)
    requires p.Valid() && Covered(p.bucket, granted, start, before) && start <= before <= now
    requires p.deadline <= now + MAXIMUM_LIFETIME
    ensures var (p1, r) := ReservePolicy(p, bytes, now);
            match r
            case Ok(delay) => Covered(p1.bucket, granted + bytes, start, now + delay)
            case Err(_) => Covered(p1.bucket, granted, start, now)
  {
    hide Filled, Covered;
    var r := ReservePolicy(p, bytes, now).1;
    CallKeepsValid(p, bytes, now);
    LaterCovered(p.bucket, granted, start, before, now);
    if r.Ok? {
      GrantCovered(p.bucket, granted, start, before, bytes, now);
    } else if r.error == ExpiresDuringShaping {
      RefusalCovered(p.bucket, granted, start, before, bytes, now);
    }
  }

  lemma {:induction false} RunCovered(p: Policy, calls: seq<Call>)
    requires p.Valid() && calls != [] && Waited(p, calls) && p.deadline <= calls[0].now + MAXIMUM_LIFETIME
    ensures Covered(After(p, calls).bucket, Granted(p, calls), calls[0].now, Release(p, calls, |calls| - 1))
    ensures calls[0].now <= Release(p, calls, |calls| - 1)
    decreases |calls|
  {
    hide ReservePolicy, Covered, Waited;
    var n := |calls| - 1;
    var last := calls[n];
    RunKeepsValid(p, calls[..n]);
    if n == 0 {
      assert calls[..0] == [];
      NothingCovered(p.bucket, last.now);
      CallCovered(p, 0, last.now, last.now, last.bytes, last.now);
    } else {
      PrefixOf(p, calls, n);
      RunCovered(p, calls[..n]);
      NextWaits(p, calls, n);
      CallCovered(After(p, calls[..n]), Granted(p, calls[..n]), calls[0].now, Release(p, calls, n - 1), last.bytes,
                  last.now);
    }
  }

  lemma NothingCovered(b: Bucket, start: nat)
    ensures Covered(b, 0, start, start)
  {
  }

  lemma NextWaits(p: Policy, calls: seq<Call>, n: nat)
    requires p.bucket.rate > 0 && Waited(p, calls) && 0 < n < |calls|
    ensures calls[n].now >= Release(p, calls, n - 1)
  {
  }

  /** The rate bound, from any policy state: what a run of calls lets through before it returns is at most
      a full bucket and the rate over its duration, if each call waits for the one before it. */
  lemma RateBound(p: Policy, calls: seq<Call>)
    requires p.Valid() && calls != [] && Waited(p, calls) && p.deadline <= calls[0].now + MAXIMUM_LIFETIME
    ensures Granted(p, calls) * NANOS
            <= p.bucket.capacity * NANOS + p.bucket.rate * (Release(p, calls, |calls| - 1) - calls[0].now)
  {
    hide Covered, Waited, Granted, Release, After;
    RunCovered(p, calls);
    RunKeepsValid(p, calls);
    CoveredBounds(After(p, calls).bucket, Granted(p, calls), calls[0].now, Release(p, calls, |calls| - 1));
  }

  lemma CoveredBounds(b: Bucket, granted: nat, start: nat, end: nat)
    requires Covered(b, granted, start, end) && start <= end
    ensures granted * NANOS <= b.capacity * NANOS + b.rate * (end - start)
  {
    if granted > 0 {
      var settled := Min(b.updatedAt, end);
      Distribute(b.rate, settled - start, end - settled);
    } else {
      Distribute(b.rate, 0, end - start);
    }
  }

  lemma {:induction false} AfterSplits(p: Policy, first: seq<Call>, rest: seq<Call>)
    requires p.bucket.rate > 0
    ensures After(p, first + rest) == After(After(p, first), rest)
    decreases |rest|
  {
    if rest == [] {
      assert first + rest == first;
    } else {
      var n := |rest| - 1;
      assert (first + rest)[..|first| + n] == first + rest[..n];
      AfterSplits(p, first, rest[..n]);
    }
  }

  lemma StretchRelease(p: Policy, calls: seq<Call>, i: nat, j: nat, k: nat)
    requires p.bucket.rate > 0 && i <= j < |calls| && i + k <= j
    ensures Release(After(p, calls[..i]), calls[i..j + 1], k) == Release(p, calls, i + k)
  {
    hide ReservePolicy, After;
    var part := calls[i..j + 1];
    AfterSplits(p, calls[..i], part[..k]);
    assert calls[..i] + part[..k] == calls[..i + k];
  }

  /** A stretch of a run is a run from the state it starts in. */
  lemma Stretch(p: Policy, calls: seq<Call>, i: nat, j: nat)
    requires p.bucket.rate > 0 && i <= j < |calls| && Waited(p, calls)
    ensures var reached := After(p, calls[..i]);
            var part := calls[i..j + 1];
            && Waited(reached, part)
            && Release(reached, part, |part| - 1) == Release(p, calls, j)
            && After(reached, part) == After(p, calls[..j + 1])
  {
    hide After, Release;
    var reached := After(p, calls[..i]);
    var part := calls[i..j + 1];
    StretchRelease(p, calls, i, j, |part| - 1);
    forall k: nat | 0 < k < |part|
      ensures part[k].now >= Release(reached, part, k - 1)
    {
      StretchRelease(p, calls, i, j, k - 1);
      NextWaits(p, calls, i + k);
    }
    AfterSplits(p, calls[..i], part);
    assert calls[..i] + part == calls[..j + 1];
  }

  /** Calls i to j of a session's run, for every i <= j: the rate bound, the transferred total, the quota. */
  lemma SessionRateBound(lifetime: nat, bandwidth: nat, quota: nat, created: nat, calls: seq<Call>, i: nat, j: nat)
    requires NewPolicy(lifetime, bandwidth, quota, created).Ok? && i <= j < |calls| && calls[i].now >= created
    requires Waited(NewPolicy(lifetime, bandwidth, quota, created).value, calls)
    ensures var p := NewPolicy(lifetime, bandwidth, quota, created).value;
            var reached := After(p, calls[..i]);
            && Granted(reached, calls[i..j + 1]) * NANOS
               <= p.bucket.capacity * NANOS + bandwidth * (Release(p, calls, j) - calls[i].now)
            && reached.transferred + Granted(reached, calls[i..j + 1]) == After(p, calls[..j + 1]).transferred
            && (quota != 0 ==> After(p, calls).transferred <= quota)
  {
    hide Granted, Waited, Release, After, NewPolicy;
    var p := NewPolicy(lifetime, bandwidth, quota, created).value;
    NewPolicyLimits(lifetime, bandwidth, quota, created);
    StretchRateBound(p, calls, i, j);
    RunKeepsValid(p, calls);
    KeepsLimits(p, calls);
  }

  lemma StretchRateBound(p: Policy, calls: seq<Call>, i: nat, j: nat)
    requires p.Valid() && i <= j < |calls| && Waited(p, calls) && p.deadline <= calls[i].now + MAXIMUM_LIFETIME
    ensures var reached := After(p, calls[..i]);
            && Granted(reached, calls[i..j + 1]) * NANOS
               <= p.bucket.capacity * NANOS + p.bucket.rate * (Release(p, calls, j) - calls[i].now)
            && reached.transferred + Granted(reached, calls[i..j + 1]) == After(p, calls[..j + 1]).transferred
  {
    hide Granted, Waited, Release, After;
    var reached := After(p, calls[..i]);
    var part := calls[i..j + 1];
    Stretch(p, calls, i, j);
    RunKeepsValid(p, calls[..i]);
    KeepsLimits(p, calls[..i]);
    RunKeepsValid(reached, part);
    RateBound(reached, part);
  }

  lemma NewPolicyLimits(lifetime: nat, bandwidth: nat, quota: nat, now: nat)
    requires NewPolicy(lifetime, bandwidth, quota, now).Ok?
    ensures var p := NewPolicy(lifetime, bandwidth, quota, now).value;
            && p.Valid() && p.bucket.rate == bandwidth && p.deadline <= now + MAXIMUM_LIFETIME
            && (quota != 0 ==> p.quota == Some(quota))
  {
  }

  lemma KeepsLimits(p: Policy, calls: seq<Call>)
    requires p.bucket.rate > 0
    ensures var after := After(p, calls);
            && after.bucket.rate == p.bucket.rate && after.bucket.capacity == p.bucket.capacity
            && after.deadline == p.deadline && after.quota == p.quota
  {
  }

  /** The counterexample: a caller that does not wait gets 48 KiB out within 16 s at 1 KiB/s, 16 KiB more
      than burst and rate allow. */
  lemma WithoutWaitingTooMuch()
    ensures var p := NewPolicy(3600, 1024, 0, 0).value;
            var calls := [Call(16384, 0), Call(16384, 0), Call(16384, 0)];
            && !Waited(p, calls)
            && Granted(p, calls) == 49152
            && Release(p, calls, 2) == 16 * NANOS
            && Granted(p, calls) * NANOS > p.bucket.capacity * NANOS
               + p.bucket.rate * (Release(p, calls, 2) - calls[0].now)
  {
    var p := NewPolicy(3600, 1024, 0, 0).value;
    var c := Call(16384, 0);
    var p1 := p.(bucket := Bucket(1024, 16384, 0, 0), transferred := 16384);
    var p2 := p1.(bucket := Bucket(1024, 16384, 0, 16 * NANOS), transferred := 32768);
    assert ReservePolicy(p, 16384, 0) == (p1, Ok(0));
    assert ReservePolicy(p1, 16384, 0) == (p2, Ok(16 * NANOS));
    assert ReservePolicy(p2, 16384, 0).1 == Ok(16 * NANOS);
    var calls := [c, c, c];
    assert calls[..0] == [] && calls[..1] == [c] && calls[..2] == [c, c];
    assert [c][..0] == [] && [c, c][..1] == [c] && [c, c][..0] == [];
    assert After(p, []) == p && After(p, [c]) == p1 && After(p, [c, c]) == p2;
    assert Granted(p, []) == 0 && Granted(p, [c]) == 16384 && Granted(p, [c, c]) == 32768;
    assert Granted(p, calls) == 49152;
    assert Release(p, calls, 1) == 16 * NANOS;
  }

  // ---- The objects ----

  class TokenBucket {
    const rate: nat
    const capacity: nat
    var tokens: nat
    var updatedAt: nat

    function State(): Bucket
      reads this
    {
      Bucket(rate, capacity, tokens, updatedAt)
    }

    constructor (rate: nat, capacity: nat, now: nat)
      ensures State() == Bucket(rate, capacity, capacity, now)
    {
      this.rate := rate;
      this.capacity := capacity;
      tokens := capacity;
      updatedAt := now;
    }

    method ReserveBytes(bytes: nat, now: nat) returns (delay: nat)
      requires State().Valid()
      modifies this
      ensures State().Valid()
      ensures (State(), delay) == Reserve(old(State()), bytes, now)
    {
      ReserveValid(State(), bytes, now);
      var elapsed := if now < updatedAt then 0 else now - updatedAt;
      var replenished := Min(Min(elapsed * rate, U128_MAX) / NANOS, U64_MAX);
      tokens := Min(Min(tokens + replenished, U64_MAX), capacity);
      updatedAt := now;
      if bytes <= tokens {
        tokens := tokens - bytes;
        return 0;
      }
      var deficit := bytes - tokens;
      tokens := 0;
      var nanos := CeilDiv(deficit * NANOS, rate);
      delay := Min(nanos, U64_MAX);
      updatedAt := now + delay;
    }
  }

  class SessionPolicy {
    const deadline: nat
    const quota: Option<nat>
    var transferred: nat
    const bucket: TokenBucket

    function State(): Policy
      reads this, bucket
    {
      Policy(deadline, quota, transferred, bucket.State())
    }

    /** For limits that `NewPolicy` accepts; it refuses the others without making a session. */
    constructor (lifetimeSeconds: nat, bandwidth: nat, quotaBytes: nat, now: nat)
      requires NewPolicy(lifetimeSeconds, bandwidth, quotaBytes, now).Ok?
      ensures State() == NewPolicy(lifetimeSeconds, bandwidth, quotaBytes, now).value && State().Valid()
      ensures fresh(bucket)
    {
      deadline := now + lifetimeSeconds * NANOS;
      quota := if quotaBytes != 0 then Some(quotaBytes) else None;
      transferred := 0;
      bucket := new TokenBucket(bandwidth, Clamp(bandwidth, MINIMUM_BURST, MAXIMUM_BURST), now);
    }

    method ReserveBytes(bytes: nat, now: nat) returns (r: Result<nat, PolicyError>)
      requires State().Valid()
      modifies this, bucket
      ensures State().Valid()
      ensures (State(), r) == ReservePolicy(old(State()), bytes, now)
    {
      hide Filled;
      CallKeepsValid(State(), bytes, now);
      if now >= deadline {
        return Err(Expired);
      }
      if transferred + bytes >= U64_LIMIT {
        return Err(CounterOverflow);
      }
      var nextTotal := transferred + bytes;
      if quota.Some? && nextTotal > quota.value {
        return Err(QuotaExceeded);
      }
      var delay := bucket.ReserveBytes(bytes, now);
      if now + delay >= deadline {
        return Err(ExpiresDuringShaping);
      }
      transferred := nextTotal;
      return Ok(delay);
    }
  }
}
