/**
 * The three limiters, each updating its buckets in place. A locked body never
 * suspends, so one `Acquire` is one step; its clock reading is a parameter.
 */
module RateLimiters {
  import opened Prelude
  import opened TokenBucket

  datatype LimiterError = NotPositive | EmptyTenant | Exceeded

  function Verdict(granted: bool): Result<(), LimiterError> {
    if granted then Ok(()) else Err(Exceeded)
  }

  lemma AccruedOver(l: Limit, from: real, to: real, elapsed: real, rate: real)
    requires rate == l.rate && elapsed == if l.clamped && to < from then 0.0 else to - from
    ensures elapsed * rate == Accrued(l, from, to)
  {
  }

  // -------------------------------------------------- one bucket per tenant

  class AsyncTokenBucket {
    const capacity: real
    const refillPerSecond: real
    var tokens: real
    var updatedAt: real

    function View(): Bucket
      reads this
    {
      Bucket(tokens, updatedAt)
    }

    function Settings(): Limit {
      Limit(capacity, refillPerSecond, false)
    }

    constructor (capacity: int, refillPerSecond: real, now: real)
      ensures Settings() == Limit(capacity as real, refillPerSecond, false)
      ensures View() == Bucket(capacity as real, now)
    {
      this.capacity := capacity as real;
      this.refillPerSecond := refillPerSecond;
      tokens := capacity as real;
      updatedAt := now;
    }

    method Acquire(now: real) returns (granted: bool)
      modifies this
      ensures (View(), granted) == Try(Settings(), old(View()), Attempt(now, 1.0))
    {
      var elapsed := now - updatedAt;
      AccruedOver(Settings(), updatedAt, now, elapsed, refillPerSecond);
      hide Accrued;
      tokens := Min(capacity, tokens + elapsed * refillPerSecond);
      updatedAt := now;
      if tokens < 1.0 {
        return false;
      }
      tokens := tokens - 1.0;
      return true;
    }
  }

  predicate PositiveSettings(capacity: int, refillPerSecond: real) {
    capacity > 0 && refillPerSecond > 0.0
  }

  /** Building a bucket refuses a capacity or a rate that is not positive; it starts full. */
  method NewAsyncTokenBucket(capacity: int, refillPerSecond: real, now: real) returns (r: Option<AsyncTokenBucket>)
    ensures r.Some? <==> PositiveSettings(capacity, refillPerSecond)
    ensures r.Some? ==> fresh(r.value) && r.value.Settings() == Limit(capacity as real, refillPerSecond, false)
    ensures r.Some? ==> r.value.View() == Bucket(capacity as real, now) && Sound(r.value.Settings())
  {
    if capacity <= 0 || refillPerSecond <= 0.0 {
      return None;
    }
    var bucket := new AsyncTokenBucket(capacity, refillPerSecond, now);
    return Some(bucket);
  }

  class TenantRateLimiter {
    const capacity: int
    const refillPerSecond: real
    var buckets: map<string, AsyncTokenBucket>

    function Settings(): string -> Limit {
      var l := Limit(capacity as real, refillPerSecond, false);
      _ => l
    }

    /** Every bucket has the limiter's settings, and no two tenants share one. */
    ghost predicate Valid()
      reads this, buckets.Values
    {
      && (forall k | k in buckets :: buckets[k].Settings() == Limit(capacity as real, refillPerSecond, false))
      && (forall j, k | j in buckets && k in buckets && j != k :: buckets[j] != buckets[k])
    }

    ghost function View(): map<string, Bucket>
      reads this, buckets.Values
    {
      map k | k in buckets :: buckets[k].View()
    }

    constructor (capacity: int, refillPerSecond: real)
      ensures Valid() && View() == map[]
      ensures this.capacity == capacity && this.refillPerSecond == refillPerSecond
    {
      this.capacity := capacity;
      this.refillPerSecond := refillPerSecond;
      buckets := map[];
    }

    method Acquire(tenantId: string, now: real) returns (r: Result<(), LimiterError>)
      requires Valid()
      modifies this, buckets.Values
      ensures Valid() && fresh(buckets.Values - old(buckets.Values))
      ensures tenantId == "" ==> r == Err(EmptyTenant) && View() == old(View())
      ensures tenantId != "" ==>
                var (table, granted) := KeyedTry(Settings(), old(View()), Call(tenantId, Attempt(now, 1.0)));
                View() == table && r == Verdict(granted)
    {
      hide Try;
      if tenantId == "" {
        return Err(EmptyTenant);
      }
      ghost var before := View();
      var bucket: AsyncTokenBucket;
      if tenantId in buckets {
        bucket := buckets[tenantId];
      } else {
        bucket := new AsyncTokenBucket(capacity, refillPerSecond, now);
        buckets := buckets[tenantId := bucket];
      }
      assert bucket.View() == BucketFor(Settings(), before, Call(tenantId, Attempt(now, 1.0)));
      var granted := bucket.Acquire(now);
      assert View() == before[tenantId := bucket.View()];
      return Verdict(granted);
    }
  }

  /** Building a limiter refuses a capacity or a rate that is not positive. */
  method NewTenantRateLimiter(capacity: int, refillPerSecond: real) returns (r: Option<TenantRateLimiter>)
    ensures r.Some? <==> PositiveSettings(capacity, refillPerSecond)
    ensures r.Some? ==> fresh(r.value) && r.value.Valid() && r.value.View() == map[]
    ensures r.Some? ==> forall tenant :: Sound(r.value.Settings()(tenant))
  {
    if capacity <= 0 || refillPerSecond <= 0.0 {
      return None;
    }
    var limiter := new TenantRateLimiter(capacity, refillPerSecond);
    return Some(limiter);
  }

  // ------------------------------------------- one bucket per tenant and tool

  class BucketCell {
    var tokens: real
    var lastRefill: real

    constructor (tokens: real, lastRefill: real)
      ensures this.tokens == tokens && this.lastRefill == lastRefill
    {
      this.tokens, this.lastRefill := tokens, lastRefill;
    }

    function View(): Bucket
      reads this
    {
      Bucket(tokens, lastRefill)
    }

    /** Refills this bucket and draws one token from it, in place. */
    method Draw(capacityPerMinute: int, now: real) returns (granted: bool)
      modifies this
      ensures (View(), granted) == Try(ToolLimit(capacityPerMinute), old(View()), Attempt(now, 1.0))
    {
      var refillPerSecond := capacityPerMinute as real / 60.0;
      var elapsed := now - lastRefill;
      AccruedOver(ToolLimit(capacityPerMinute), lastRefill, now, elapsed, refillPerSecond);
      hide Accrued;
      tokens := Min(capacityPerMinute as real, tokens + elapsed * refillPerSecond);
      lastRefill := now;
      if tokens < 1.0 {
        return false;
      }
      tokens := tokens - 1.0;
      return true;
    }
  }

  /** A tool's limit: a minute's worth of tokens, refilled over a minute. */
  function ToolLimit(capacityPerMinute: int): Limit {
    Limit(capacityPerMinute as real, capacityPerMinute as real / 60.0, false)
  }

  function ToolLimits(capacityPerMinute: int): ((string, string)) -> Limit {
    _ => ToolLimit(capacityPerMinute)
  }

  class ToolRateLimiter {
    var buckets: map<(string, string), BucketCell>

    /** No two keys share a bucket. */
    ghost predicate Valid()
      reads this
    {
      forall j, k | j in buckets && k in buckets && j != k :: buckets[j] != buckets[k]
    }

    ghost function View(): map<(string, string), Bucket>
      reads this, buckets.Values
    {
      map k | k in buckets :: buckets[k].View()
    }

    constructor ()
      ensures Valid() && View() == map[]
    {
      buckets := map[];
    }

    method Acquire(tenantId: string, toolName: string, capacityPerMinute: int, now: real)
      returns (r: Result<(), LimiterError>)
      requires Valid()
      modifies this, buckets.Values
      ensures Valid() && fresh(buckets.Values - old(buckets.Values))
      ensures var (table, granted) :=
                KeyedTry(ToolLimits(capacityPerMinute), old(View()), Call((tenantId, toolName), Attempt(now, 1.0)));
              View() == table && r == Verdict(granted)
    {
      hide Try;
      var key := (tenantId, toolName);
      ghost var before := View();
      var bucket: BucketCell;
      if key in buckets {
        bucket := buckets[key];
      } else {
        bucket := new BucketCell(capacityPerMinute as real, now);
        buckets := buckets[key := bucket];
      }
      assert bucket.View() == BucketFor(ToolLimits(capacityPerMinute), before, Call(key, Attempt(now, 1.0)));
      var granted := bucket.Draw(capacityPerMinute, now);
      assert View() == before[key := bucket.View()];
      return Verdict(granted);
    }
  }

  // ---------------------------------------------- one bucket in a shared store

  datatype Hash = Hash(tokens: real, updatedMs: int)

  function Seconds(ms: int): real {
    ms as real / 1000.0
  }

  function RedisLimits(capacity: real, refillPerSecond: real): string -> Limit {
    _ => Limit(capacity, refillPerSecond, true)
  }

  class Redis {
    var hashes: map<string, Hash>

    function View(): map<string, Bucket>
      reads this
    {
      map k | k in hashes :: Bucket(hashes[k].tokens, Seconds(hashes[k].updatedMs))
    }

    /** The script, which the store runs as one step. */
    method TokenBucketScript(key: string, capacity: real, refillPerSecond: real, nowMs: int, requested: real)
      returns (allowed: bool, replenished: real)
      modifies this
      ensures var (table, granted) :=
                KeyedTry(RedisLimits(capacity, refillPerSecond), old(View()),
                         Call(key, Attempt(Seconds(nowMs), requested)));
              View() == table && allowed == granted && key in table && replenished == table[key].tokens
    {
      var tokens, updatedMs := capacity, nowMs;
      if key in hashes {
        tokens, updatedMs := hashes[key].tokens, hashes[key].updatedMs;
      }
      var elapsedMs := if nowMs - updatedMs > 0 then nowMs - updatedMs else 0;
      var elapsedSeconds := elapsedMs as real / 1000.0;
      AccruedOver(RedisLimits(capacity, refillPerSecond)(key), Seconds(updatedMs), Seconds(nowMs), elapsedSeconds,
                  refillPerSecond);
      hide Accrued, Seconds;
      replenished := Min(capacity, tokens + elapsedSeconds * refillPerSecond);
      allowed := replenished >= requested;
      if allowed {
        replenished := replenished - requested;
      }
      hashes := hashes[key := Hash(replenished, nowMs)];
    }
  }

  class RedisTenantRateLimiter {
    const redis: Redis
    const capacity: int
    const refillPerSecond: real
    const keyPrefix: string

    constructor (redis: Redis, capacity: int, refillPerSecond: real, keyPrefix: string)
      ensures this.redis == redis && this.capacity == capacity
      ensures this.refillPerSecond == refillPerSecond && this.keyPrefix == keyPrefix
    {
      this.redis, this.capacity, this.refillPerSecond, this.keyPrefix := redis, capacity, refillPerSecond, keyPrefix;
    }

    function KeyOf(tenantId: string): string {
      keyPrefix + ":" + tenantId
    }

    /** `isSpace` stands for the characters that stripping a tenant id removes. */
    method Acquire(tenantId: string, tokens: int, nowMs: int, isSpace: char -> bool)
      returns (r: Result<(), LimiterError>)
      modifies redis
      ensures (forall i | 0 <= i < |tenantId| :: isSpace(tenantId[i])) ==>
                r == Err(EmptyTenant) && redis.View() == old(redis.View())
      ensures (exists i :: 0 <= i < |tenantId| && !isSpace(tenantId[i])) && tokens <= 0 ==>
                r == Err(NotPositive) && redis.View() == old(redis.View())
      ensures (exists i :: 0 <= i < |tenantId| && !isSpace(tenantId[i])) && tokens > 0 ==>
                var (table, granted) :=
                  KeyedTry(RedisLimits(capacity as real, refillPerSecond), old(redis.View()),
                           Call(KeyOf(tenantId), Attempt(Seconds(nowMs), tokens as real)));
                redis.View() == table && r == Verdict(granted)
    {
      hide KeyedTry;
      if forall i | 0 <= i < |tenantId| :: isSpace(tenantId[i]) {
        return Err(EmptyTenant);
      }
      if tokens <= 0 {
        return Err(NotPositive);
      }
      var allowed, _ :=
        redis.TokenBucketScript(KeyOf(tenantId), capacity as real, refillPerSecond, nowMs, tokens as real);
      return Verdict(allowed);
    }
  }

  method NewRedisTenantRateLimiter(redis: Redis, capacity: int, refillPerSecond: real, keyPrefix: string)
    returns (r: Option<RedisTenantRateLimiter>)
    ensures r.Some? <==> PositiveSettings(capacity, refillPerSecond)
    ensures r.Some? ==> r.value.redis == redis && r.value.keyPrefix == keyPrefix
    ensures r.Some? ==> r.value.capacity == capacity && r.value.refillPerSecond == refillPerSecond
  {
    if capacity <= 0 || refillPerSecond <= 0.0 {
      return None;
    }
    var limiter := new RedisTenantRateLimiter(redis, capacity, refillPerSecond, keyPrefix);
    return Some(limiter);
  }

  /** Distinct tenants never meet under one key of the shared store. */
  lemma {:induction false} TenantKeysDistinct(limiter: RedisTenantRateLimiter, a: string, b: string)
    requires limiter.KeyOf(a) == limiter.KeyOf(b)
    ensures a == b
  {
    var n := |limiter.keyPrefix| + 1;
    assert limiter.KeyOf(a)[n..] == a;
    assert limiter.KeyOf(b)[n..] == b;
  }

  /** A bucket dropped by the store once `ttl` has passed is as good as full, given a `ttl` long enough to refill. */
  lemma {:induction false} ExpiryChangesNothing(l: Limit, b: Bucket, ttl: real, a: Attempt)
    requires Sound(l) && InRange(l, b) && ttl >= 0.0 && ttl * l.rate >= l.capacity
    requires a.now - b.updatedAt >= ttl
    ensures Try(l, b, a) == Try(l, Bucket(l.capacity, a.now), a)
  {
    assert (a.now - b.updatedAt - ttl) * l.rate >= 0.0;
    assert (a.now - b.updatedAt) * l.rate == (a.now - b.updatedAt - ttl) * l.rate + ttl * l.rate;
    AccruedNow(l, a.now);
  }

  /** A run on the shared store, at clock readings in milliseconds and for whole tokens. */
  function MillisecondRun(ms: seq<int>, tokens: seq<int>): (r: seq<Attempt>)
    requires |ms| == |tokens|
    ensures |r| == |ms|
  {
    seq(|ms|, i requires 0 <= i < |ms| => Attempt(Seconds(ms[i]), tokens[i] as real))
  }

  /** A second is a thousand of the store's clock: on a clock that never goes back grants keep the rate per second. */
  lemma {:induction false} GrantsPerMillisecond(capacity: int, refillPerSecond: real, key: string, ms: seq<int>,
                                                tokens: seq<int>)
    requires PositiveSettings(capacity, refillPerSecond) && ms != [] && |ms| == |tokens|
    requires forall i | 0 <= i < |tokens| :: tokens[i] > 0
    requires forall i, j | 0 <= i <= j < |ms| :: ms[i] <= ms[j]
    ensures var full := Bucket(capacity as real, ms[0] as real / 1000.0);
            Granted(RedisLimits(capacity as real, refillPerSecond)(key), full, MillisecondRun(ms, tokens))
            <= capacity as real + refillPerSecond * ((ms[|ms| - 1] - ms[0]) as real / 1000.0)
  {
    hide *;
    var l := RedisLimits(capacity as real, refillPerSecond)(key);
    var run := MillisecondRun(ms, tokens);
    var full := Bucket(capacity as real, ms[0] as real / 1000.0);
    SecondsBetween(ms[0], ms[|ms| - 1]);
    RunInOrder(ms, tokens, full);
    RedisSettings(capacity, refillPerSecond, key, full.updatedAt);
    assert [] + run + [] == run && [] + run == run;
    NothingGranted(l, full);
    StretchWithinRate(l, full, [], run, []);
  }

  lemma RedisSettings(capacity: int, refillPerSecond: real, key: string, t: real)
    requires PositiveSettings(capacity, refillPerSecond)
    ensures var l := RedisLimits(capacity as real, refillPerSecond)(key);
            && Sound(l) && InRange(l, Bucket(capacity as real, t))
            && l.capacity == capacity as real && l.rate == refillPerSecond
  {
  }

  lemma NothingGranted(l: Limit, b: Bucket)
    ensures Granted(l, b, []) == 0.0
  {
  }

  lemma SecondsBetween(a: int, b: int)
    ensures Seconds(b) - Seconds(a) == (b - a) as real / 1000.0 && Seconds(a) == a as real / 1000.0
    ensures a <= b ==> Seconds(a) <= Seconds(b)
  {
  }

  lemma RunInOrder(ms: seq<int>, tokens: seq<int>, full: Bucket)
    requires |ms| == |tokens| && ms != [] && full.updatedAt == Seconds(ms[0])
    requires forall i | 0 <= i < |tokens| :: tokens[i] > 0
    requires forall i, j | 0 <= i <= j < |ms| :: ms[i] <= ms[j]
    ensures Chronological(full, MillisecondRun(ms, tokens)) && Positive(MillisecondRun(ms, tokens))
    ensures MillisecondRun(ms, tokens)[0].now == Seconds(ms[0])
    ensures MillisecondRun(ms, tokens)[|ms| - 1].now == Seconds(ms[|ms| - 1])
  {
    var run := MillisecondRun(ms, tokens);
    forall i, j | 0 <= i <= j < |run| ensures run[i].now <= run[j].now {
      SecondsBetween(ms[i], ms[j]);
    }
    assert run[0].now == full.updatedAt;
    hide Seconds;
  }
}
