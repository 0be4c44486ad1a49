/**
 * The token bucket behind all three rate limiters, as a value: tokens accrue
 * with time up to a capacity, and an attempt takes its tokens or is refused.
 */
module TokenBucket {
  import opened Prelude

  /** `clamped`: a clock that went back accrues nothing, instead of taking tokens away. */
  datatype Limit = Limit(capacity: real, rate: real, clamped: bool)

  datatype Bucket = Bucket(tokens: real, updatedAt: real)

  datatype Attempt = Attempt(now: real, requested: real)

  predicate Sound(l: Limit) {
    l.capacity >= 0.0 && l.rate >= 0.0
  }

  predicate InRange(l: Limit, b: Bucket) {
    0.0 <= b.tokens <= l.capacity
  }

  function Accrued(l: Limit, from: real, to: real): real {
    (if l.clamped && to < from then 0.0 else to - from) * l.rate
  }

  function Level(l: Limit, b: Bucket, now: real): real {
    Min(l.capacity, b.tokens + Accrued(l, b.updatedAt, now))
  }

  /** One attempt: refill to now, then take the tokens or refuse. The refill stays either way. */
  function Try(l: Limit, b: Bucket, a: Attempt): (Bucket, bool) {
    var level := Level(l, b, a.now);
    if level < a.requested then (Bucket(level, a.now), false)
    else (Bucket(level - a.requested, a.now), true)
  }

  // ------------------------------------------------------------------- runs

  function After(l: Limit, b: Bucket, attempts: seq<Attempt>): Bucket {
    if attempts == [] then b
    else Try(l, After(l, b, attempts[..|attempts| - 1]), attempts[|attempts| - 1]).0
  }

  function Outcomes(l: Limit, b: Bucket, attempts: seq<Attempt>): (r: seq<bool>)
    ensures |r| == |attempts|
  {
    if attempts == [] then []
    else
      var n := |attempts| - 1;
      Outcomes(l, b, attempts[..n]) + [Try(l, After(l, b, attempts[..n]), attempts[n]).1]
  }

  /** The tokens handed out over a run. */
  function Granted(l: Limit, b: Bucket, attempts: seq<Attempt>): real {
    if attempts == [] then 0.0
    else
      var n := |attempts| - 1;
      Granted(l, b, attempts[..n])
      + (if Try(l, After(l, b, attempts[..n]), attempts[n]).1 then attempts[n].requested else 0.0)
  }

  /** What one more attempt adds to a run. */
  lemma AppendAttempt(l: Limit, b: Bucket, attempts: seq<Attempt>, a: Attempt)
    ensures var (b', granted) := Try(l, After(l, b, attempts), a);
            && After(l, b, attempts + [a]) == b'
            && Outcomes(l, b, attempts + [a]) == Outcomes(l, b, attempts) + [granted]
            && Granted(l, b, attempts + [a]) == Granted(l, b, attempts) + (if granted then a.requested else 0.0)
  {
    assert (attempts + [a])[..|attempts|] == attempts;
  }

  /** The clock does not go back: not between attempts, and not before the bucket's last update. */
  ghost predicate Chronological(b: Bucket, attempts: seq<Attempt>) {
    && (forall i, j | 0 <= i <= j < |attempts| :: attempts[i].now <= attempts[j].now)
    && (forall i | 0 <= i < |attempts| :: b.updatedAt <= attempts[i].now)
  }

  ghost predicate Positive(attempts: seq<Attempt>) {
    forall i | 0 <= i < |attempts| :: attempts[i].requested > 0.0
  }

  lemma AccruesForward(l: Limit, from: real, to: real)
    requires Sound(l) && from <= to
    ensures Accrued(l, from, to) >= 0.0
  {
  }

  lemma AccruedSplit(l: Limit, a: real, b: real, c: real)
    requires a <= b <= c
    ensures Accrued(l, a, c) == Accrued(l, a, b) + Accrued(l, b, c)
  {
  }

  lemma AccruedNow(l: Limit, now: real)
    ensures Accrued(l, now, now) == 0.0
  {
  }

  /** Tokens never leave `[0, capacity]`. */
  lemma {:induction false} TokensStayInRange(l: Limit, b: Bucket, attempts: seq<Attempt>)
    requires Sound(l) && InRange(l, b) && Chronological(b, attempts) && Positive(attempts)
    ensures InRange(l, After(l, b, attempts))
    ensures After(l, b, attempts).updatedAt == if attempts == [] then b.updatedAt else attempts[|attempts| - 1].now
  {
    hide Accrued, Sound;
    if attempts != [] {
      var n := |attempts| - 1;
      TokensStayInRange(l, b, attempts[..n]);
      AccruesForward(l, After(l, b, attempts[..n]).updatedAt, attempts[n].now);
      assert l.capacity >= 0.0 by { CapacityNonnegative(l); }
    }
  }

  lemma CapacityNonnegative(l: Limit)
    requires Sound(l)
    ensures l.capacity >= 0.0
  {
  }

  /** What a run hands out, with what is left, is at most what the bucket held at its start plus what accrued since. */
  lemma {:induction false} GrantsAreBounded(l: Limit, b: Bucket, attempts: seq<Attempt>)
    requires Sound(l) && InRange(l, b) && Chronological(b, attempts) && Positive(attempts) && attempts != []
    ensures Granted(l, b, attempts) + After(l, b, attempts).tokens
            <= l.capacity + Accrued(l, attempts[0].now, attempts[|attempts| - 1].now)
  {
    hide Accrued, Sound, Chronological, Positive;
    var n := |attempts| - 1;
    if n == 0 {
      assert attempts[..0] == [];
      AccruedNow(l, attempts[0].now);
    } else {
      ChronologicalPrefix(b, attempts, n);
      ClockOrder(b, attempts, n - 1);
      GrantsAreBounded(l, b, attempts[..n]);
      TokensStayInRange(l, b, attempts[..n]);
      AccruedSplit(l, attempts[0].now, attempts[n - 1].now, attempts[n].now);
    }
  }

  lemma ClockOrder(b: Bucket, attempts: seq<Attempt>, i: nat)
    requires Chronological(b, attempts) && i + 1 < |attempts|
    ensures attempts[0].now <= attempts[i].now <= attempts[i + 1].now
  {
  }

  lemma ChronologicalPrefix(b: Bucket, attempts: seq<Attempt>, n: nat)
    requires Chronological(b, attempts) && Positive(attempts) && n <= |attempts|
    ensures Chronological(b, attempts[..n]) && Positive(attempts[..n])
  {
  }

  /** A stretch of a run is a run from the bucket as it stood. */
  lemma {:induction false} RunsCompose(l: Limit, b: Bucket, xs: seq<Attempt>, ys: seq<Attempt>)
    ensures After(l, b, xs + ys) == After(l, After(l, b, xs), ys)
    ensures Outcomes(l, b, xs + ys) == Outcomes(l, b, xs) + Outcomes(l, After(l, b, xs), ys)
    ensures Granted(l, b, xs + ys) == Granted(l, b, xs) + Granted(l, After(l, b, xs), ys)
  {
    hide Try;
    if ys == [] {
      assert xs + ys == xs;
    } else {
      var n := |ys| - 1;
      assert (xs + ys)[..|xs| + n] == xs + ys[..n];
      RunsCompose(l, b, xs, ys[..n]);
    }
  }

  /**
   * The rate limit itself: over any stretch of any run the tokens granted are at
   * most the capacity plus the rate times the time the stretch took.
   */
  lemma {:induction false} StretchIsBounded(l: Limit, b: Bucket, before: seq<Attempt>, stretch: seq<Attempt>,
                                            later: seq<Attempt>)
    requires Sound(l) && InRange(l, b) && stretch != []
    requires Chronological(b, before + stretch + later) && Positive(before + stretch + later)
    ensures Granted(l, b, before + stretch) - Granted(l, b, before)
            <= l.capacity + Accrued(l, stretch[0].now, stretch[|stretch| - 1].now)
  {
    var all := before + stretch + later;
    assert before == all[..|before|];
    assert stretch == all[|before|..|before| + |stretch|];
    ChronologicalPrefix(b, all, |before|);
    TokensStayInRange(l, b, before);
    RunsCompose(l, b, before, stretch);
    var start := After(l, b, before);
    MiddleIsChronological(l, b, before, stretch, later);
    GrantsAreBounded(l, start, stretch);
    TokensStayInRange(l, start, stretch);
    hide *;
  }

  /** What accrues: the rate for every second forward, and for a clock gone back nothing, or less than nothing. */
  lemma AccruedMeans(l: Limit, from: real, to: real)
    ensures Accrued(l, from, to) == if to < from && l.clamped then 0.0 else l.rate * (to - from)
  {
  }

  /** The same bound in numbers: over any stretch at most the capacity and the rate for every second of it. */
  lemma {:induction false} StretchWithinRate(l: Limit, b: Bucket, before: seq<Attempt>, stretch: seq<Attempt>,
                                             later: seq<Attempt>)
    requires Sound(l) && InRange(l, b) && stretch != []
    requires Chronological(b, before + stretch + later) && Positive(before + stretch + later)
    ensures Granted(l, b, before + stretch) - Granted(l, b, before)
            <= l.capacity + l.rate * (stretch[|stretch| - 1].now - stretch[0].now)
  {
    hide *;
    StretchForward(b, before, stretch, later);
    StretchIsBounded(l, b, before, stretch, later);
    AccruedMeans(l, stretch[0].now, stretch[|stretch| - 1].now);
  }

  lemma StretchForward(b: Bucket, before: seq<Attempt>, stretch: seq<Attempt>, later: seq<Attempt>)
    requires Chronological(b, before + stretch + later) && stretch != []
    ensures stretch[0].now <= stretch[|stretch| - 1].now
  {
    var all := before + stretch + later;
    assert all[|before|] == stretch[0] && all[|before| + |stretch| - 1] == stretch[|stretch| - 1];
  }

  lemma MiddleIsChronological(l: Limit, b: Bucket, before: seq<Attempt>, stretch: seq<Attempt>, later: seq<Attempt>)
    requires Chronological(b, before + stretch + later) && Positive(before + stretch + later)
    requires After(l, b, before).updatedAt == if before == [] then b.updatedAt else before[|before| - 1].now
    ensures Chronological(After(l, b, before), stretch) && Positive(stretch)
  {
    hide After;
    var all := before + stretch + later;
    forall i | 0 <= i < |stretch|
      ensures stretch[i] == all[|before| + i] && After(l, b, before).updatedAt <= stretch[i].now
    {
      assert before != [] ==> all[|before| - 1] == before[|before| - 1];
    }
  }

  // ------------------------------------------------ refused only when it must be

  /** The tokens granted from attempt `k` on. */
  function GrantedFrom(l: Limit, b: Bucket, attempts: seq<Attempt>, k: nat): real
    requires k <= |attempts|
  {
    Granted(l, b, attempts) - Granted(l, b, attempts[..k])
  }

  /**
   * Handing out `x` more at `now` would keep every stretch that ends there
   * within the limit: the stretch of that attempt alone, those that start at an
   * earlier attempt, and the whole run with what the bucket held at its start.
   */
  ghost predicate KeepsLimit(l: Limit, b: Bucket, attempts: seq<Attempt>, now: real, x: real) {
    && x <= l.capacity
    && (forall k | 0 <= k < |attempts| :: StretchFits(l, b, attempts, k, now, x))
    && Granted(l, b, attempts) + x <= b.tokens + Accrued(l, b.updatedAt, now)
  }

  /** The stretch from attempt `k` on has room for `x` more at `now`. */
  predicate StretchFits(l: Limit, b: Bucket, attempts: seq<Attempt>, k: nat, now: real, x: real)
    requires k < |attempts|
  {
    GrantedFrom(l, b, attempts, k) + x <= l.capacity + Accrued(l, attempts[k].now, now)
  }

  /** The bucket holds `x` tokens exactly when handing them out would keep every limit. */
  lemma {:induction false} LevelIsRoom(l: Limit, b: Bucket, attempts: seq<Attempt>, now: real, x: real)
    requires Chronological(b, attempts)
    requires (if attempts == [] then b.updatedAt else attempts[|attempts| - 1].now) <= now
    ensures Level(l, After(l, b, attempts), now) >= x <==> KeepsLimit(l, b, attempts, now, x)
  {
    hide Accrued, Chronological;
    if attempts != [] {
      var n := |attempts| - 1;
      var before, a := attempts[..n], attempts[n];
      var last := if n == 0 then b.updatedAt else attempts[n - 1].now;
      ClockOrders(b, attempts);
      var got := Try(l, After(l, b, before), a);
      var g := if got.1 then a.requested else 0.0;
      var y := x + g - Accrued(l, a.now, now);
      LevelIsRoom(l, b, before, a.now, y);
      RoomStep(l, b, attempts, now, x, g, y);
      AfterStep(l, After(l, b, before), a, now, x);
      hide Level, KeepsLimit, Try;
    }
  }

  lemma ClockOrders(b: Bucket, attempts: seq<Attempt>)
    requires Chronological(b, attempts) && attempts != []
    ensures var n := |attempts| - 1;
            && Chronological(b, attempts[..n])
            && (if n == 0 then b.updatedAt else attempts[n - 1].now) <= attempts[n].now
            && b.updatedAt <= attempts[n].now
            && (forall k | 0 <= k < n :: attempts[k].now <= attempts[n].now)
  {
  }

  lemma AfterStep(l: Limit, b: Bucket, a: Attempt, now: real, x: real)
    ensures var (b', granted) := Try(l, b, a);
            var g := if granted then a.requested else 0.0;
            Level(l, b', now) >= x <==> x <= l.capacity && Level(l, b, a.now) >= x + g - Accrued(l, a.now, now)
  {
    hide Accrued;
  }

  /** Moving the end of a stretch from attempt `a` to `now` moves its room by what accrues between. */
  lemma StretchStep(l: Limit, b: Bucket, attempts: seq<Attempt>, k: nat, now: real, x: real, g: real, y: real)
    requires attempts != [] && k < |attempts|
    requires var n := |attempts| - 1;
             && attempts[k].now <= attempts[n].now <= now
             && Granted(l, b, attempts) == Granted(l, b, attempts[..n]) + g
             && y == x + g - Accrued(l, attempts[n].now, now)
    ensures var n := |attempts| - 1;
            StretchFits(l, b, attempts, k, now, x)
            <==> if k == n then y <= l.capacity else StretchFits(l, b, attempts[..n], k, attempts[n].now, y)
  {
    hide Accrued, Granted;
    var n := |attempts| - 1;
    assert k < n ==> attempts[..n][..k] == attempts[..k];
    AccruedSplit(l, attempts[k].now, attempts[n].now, now);
  }

  lemma RoomStep(l: Limit, b: Bucket, attempts: seq<Attempt>, now: real, x: real, g: real, y: real)
    requires attempts != [] && Chronological(b, attempts) && attempts[|attempts| - 1].now <= now
    requires var n := |attempts| - 1;
             && g == (if Try(l, After(l, b, attempts[..n]), attempts[n]).1 then attempts[n].requested else 0.0)
             && y == x + g - Accrued(l, attempts[n].now, now)
    ensures var n := |attempts| - 1;
            KeepsLimit(l, b, attempts, now, x)
            <==> x <= l.capacity && KeepsLimit(l, b, attempts[..n], attempts[n].now, y)
  {
    ClockOrders(b, attempts);
    var n := |attempts| - 1;
    assert Granted(l, b, attempts) == Granted(l, b, attempts[..n]) + g;
    hide Accrued, Try, After, StretchFits, Chronological, Granted;
    AccruedSplit(l, b.updatedAt, attempts[n].now, now);
    forall k | 0 <= k <= n
      ensures StretchFits(l, b, attempts, k, now, x)
              <==> if k == n then y <= l.capacity else StretchFits(l, b, attempts[..n], k, attempts[n].now, y)
    {
      StretchStep(l, b, attempts, k, now, x, g, y);
    }
    var whole, part := KeepsLimit(l, b, attempts, now, x), KeepsLimit(l, b, attempts[..n], attempts[n].now, y);
    if whole {
      assert StretchFits(l, b, attempts, n, now, x);
      assert forall k | 0 <= k < n ::
          StretchFits(l, b, attempts, k, now, x) ==> StretchFits(l, b, attempts[..n], k, attempts[n].now, y);
    }
    if part {
      assert forall k | 0 <= k < n :: StretchFits(l, b, attempts[..n], k, attempts[n].now, y);
    }
  }

  /**
   * The limiter is as generous as its limit allows: an attempt is refused
   * exactly when granting it would push some stretch that ends with it over
   * its capacity plus rate times duration.
   */
  lemma {:induction false} RefusedOnlyAtTheLimit(l: Limit, b: Bucket, attempts: seq<Attempt>, a: Attempt)
    requires Chronological(b, attempts + [a])
    ensures Try(l, After(l, b, attempts), a).1 <==> KeepsLimit(l, b, attempts, a.now, a.requested)
  {
    var all := attempts + [a];
    assert all[..|attempts|] == attempts && all[|attempts|] == a;
    assert attempts != [] ==> all[|attempts| - 1] == attempts[|attempts| - 1];
    ClockOrders(b, all);
    hide Chronological, KeepsLimit, After;
    LevelIsRoom(l, b, attempts, a.now, a.requested);
  }

  // ------------------------------------------------- refused attempts leave no trace

  function KeepWhere<T>(xs: seq<T>, mask: seq<bool>): seq<T>
    requires |xs| == |mask|
  {
    if xs == [] then []
    else
      var n := |xs| - 1;
      KeepWhere(xs[..n], mask[..n]) + (if mask[n] then [xs[n]] else [])
  }

  /** The mask leaves out refused attempts only. */
  ghost predicate OnlyRefusedDropped(outs: seq<bool>, mask: seq<bool>) {
    |mask| == |outs| && forall i | 0 <= i < |outs| && !mask[i] :: !outs[i]
  }

  /** `lagging` would reach `b` by refilling alone. */
  ghost predicate Lags(l: Limit, lagging: Bucket, b: Bucket) {
    lagging.updatedAt <= b.updatedAt && Level(l, lagging, b.updatedAt) == b.tokens
  }

  /** Refilling in two steps is refilling in one. */
  lemma RefillTwice(l: Limit, b: Bucket, mid: real, now: real)
    requires Sound(l) && b.updatedAt <= mid <= now
    ensures Level(l, Bucket(Level(l, b, mid), mid), now) == Level(l, b, now)
  {
    AccruesForward(l, b.updatedAt, mid);
    AccruesForward(l, mid, now);
    AccruedSplit(l, b.updatedAt, mid, now);
    hide Accrued;
  }

  lemma SameLevel(l: Limit, lagging: Bucket, b: Bucket, now: real)
    requires Sound(l) && Lags(l, lagging, b) && b.updatedAt <= now
    ensures Level(l, lagging, now) == Level(l, b, now)
  {
    RefillTwice(l, lagging, b.updatedAt, now);
    assert b == Bucket(Level(l, lagging, b.updatedAt), b.updatedAt);
  }

  /** A bucket never lags itself by more than nothing. */
  lemma LagsItself(l: Limit, b: Bucket)
    requires b.tokens <= l.capacity
    ensures Lags(l, b, b)
  {
    AccruedNow(l, b.updatedAt);
  }

  /** Deleting any choice of refused attempts from a run changes no other outcome. */
  lemma {:induction false} RefusedLeaveNoTrace(l: Limit, b: Bucket, attempts: seq<Attempt>, mask: seq<bool>)
    requires Sound(l) && InRange(l, b) && Chronological(b, attempts) && Positive(attempts)
    requires OnlyRefusedDropped(Outcomes(l, b, attempts), mask)
    ensures Outcomes(l, b, KeepWhere(attempts, mask)) == KeepWhere(Outcomes(l, b, attempts), mask)
  {
    DeletionLags(l, b, attempts, mask);
  }

  lemma {:induction false} DeletionLags(l: Limit, b: Bucket, attempts: seq<Attempt>, mask: seq<bool>)
    requires Sound(l) && InRange(l, b) && Chronological(b, attempts) && Positive(attempts)
    requires OnlyRefusedDropped(Outcomes(l, b, attempts), mask)
    ensures Outcomes(l, b, KeepWhere(attempts, mask)) == KeepWhere(Outcomes(l, b, attempts), mask)
    ensures Lags(l, After(l, b, KeepWhere(attempts, mask)), After(l, b, attempts))
  {
    if attempts == [] {
      LagsItself(l, b);
    } else {
      var n := |attempts| - 1;
      var before, a, m := attempts[..n], attempts[n], mask[..n];
      assert attempts == before + [a] && mask == m + [mask[n]];
      AppendAttempt(l, b, before, a);
      DropsPrefix(Outcomes(l, b, before), Try(l, After(l, b, before), a).1, m, mask[n]);
      hide *;
      ChronologicalPrefix(b, attempts, n);
      DeletionLags(l, b, before, m);
      TokensStayInRange(l, b, before);
      LaterThanPrefix(b, attempts);
      OneMoreDeletion(l, b, before, a, m, mask[n]);
    }
  }

  lemma DropsPrefix(outs: seq<bool>, out: bool, mask: seq<bool>, keep: bool)
    requires |mask| == |outs| && OnlyRefusedDropped(outs + [out], mask + [keep])
    ensures OnlyRefusedDropped(outs, mask) && (!keep ==> !out)
  {
    assert (outs + [out])[|outs|] == out && (mask + [keep])[|outs|] == keep;
    assert forall i | 0 <= i < |outs| :: (outs + [out])[i] == outs[i] && (mask + [keep])[i] == mask[i];
  }

  /** One more attempt, kept or dropped, on both sides. */
  lemma OneMoreDeletion(l: Limit, b: Bucket, before: seq<Attempt>, a: Attempt, mask: seq<bool>, keep: bool)
    requires Sound(l) && |mask| == |before| && a.requested > 0.0
    requires Lags(l, After(l, b, KeepWhere(before, mask)), After(l, b, before))
             && After(l, b, before).updatedAt <= a.now
    requires Outcomes(l, b, KeepWhere(before, mask)) == KeepWhere(Outcomes(l, b, before), mask)
    requires !keep ==> !Try(l, After(l, b, before), a).1
    ensures var all, m := before + [a], mask + [keep];
            && Outcomes(l, b, KeepWhere(all, m)) == KeepWhere(Outcomes(l, b, all), m)
            && Lags(l, After(l, b, KeepWhere(all, m)), After(l, b, all))
  {
    hide *;
    var kept := KeepWhere(before, mask);
    AppendAttempt(l, b, before, a);
    AppendAttempt(l, b, kept, a);
    KeepWhereSnoc(before, a, mask, keep);
    KeepWhereSnoc(Outcomes(l, b, before), Try(l, After(l, b, before), a).1, mask, keep);
    OneMoreAttempt(l, After(l, b, kept), After(l, b, before), a);
  }

  lemma KeepWhereSnoc<T>(xs: seq<T>, x: T, mask: seq<bool>, keep: bool)
    requires |xs| == |mask|
    ensures KeepWhere(xs + [x], mask + [keep]) == if keep then KeepWhere(xs, mask) + [x] else KeepWhere(xs, mask)
  {
    assert (xs + [x])[..|xs|] == xs && (mask + [keep])[..|xs|] == mask;
  }

  lemma LaterThanPrefix(b: Bucket, attempts: seq<Attempt>)
    requires Chronological(b, attempts) && Positive(attempts) && attempts != []
    ensures var n := |attempts| - 1; (if n == 0 then b.updatedAt else attempts[n - 1].now) <= attempts[n].now
    ensures attempts[|attempts| - 1].requested > 0.0
  {
  }

  /** A lagging bucket answers like the other; taking keeps it level, and missing a refusal keeps it lagging. */
  lemma OneMoreAttempt(l: Limit, lagging: Bucket, b: Bucket, a: Attempt)
    requires Sound(l) && Lags(l, lagging, b) && b.updatedAt <= a.now && a.requested > 0.0
    ensures Try(l, lagging, a) == Try(l, b, a)
    ensures !Try(l, b, a).1 ==> Lags(l, lagging, Try(l, b, a).0)
    ensures Try(l, b, a).0.tokens <= l.capacity
    ensures Lags(l, Try(l, b, a).0, Try(l, b, a).0)
  {
    SameLevel(l, lagging, b, a.now);
    LagsItself(l, Try(l, b, a).0);
  }

  // ------------------------------------------------------------ many buckets

  datatype Call<K> = Call(key: K, attempt: Attempt)

  /** The bucket a call meets: the one on record, or a new full one. */
  function BucketFor<K>(limits: K -> Limit, table: map<K, Bucket>, c: Call<K>): Bucket {
    if c.key in table then table[c.key] else Bucket(limits(c.key).capacity, c.attempt.now)
  }

  function KeyedTry<K>(limits: K -> Limit, table: map<K, Bucket>, c: Call<K>): (map<K, Bucket>, bool) {
    var (bucket, granted) := Try(limits(c.key), BucketFor(limits, table, c), c.attempt);
    (table[c.key := bucket], granted)
  }

  function KeyedAfter<K>(limits: K -> Limit, calls: seq<Call<K>>): map<K, Bucket> {
    if calls == [] then map[]
    else KeyedTry(limits, KeyedAfter(limits, calls[..|calls| - 1]), calls[|calls| - 1]).0
  }

  function KeyedOutcomes<K(==)>(limits: K -> Limit, calls: seq<Call<K>>): (r: seq<bool>)
    ensures |r| == |calls|
  {
    if calls == [] then []
    else
      var n := |calls| - 1;
      KeyedOutcomes(limits, calls[..n]) + [KeyedTry(limits, KeyedAfter(limits, calls[..n]), calls[n]).1]
  }

  /** The attempts made under one key, in order. */
  function Of<K(==)>(calls: seq<Call<K>>, key: K): seq<Attempt> {
    if calls == [] then []
    else
      var n := |calls| - 1;
      Of(calls[..n], key) + (if calls[n].key == key then [calls[n].attempt] else [])
  }

  /** The outcomes of the attempts made under one key, in order. */
  function OutcomesOf<K(==)>(calls: seq<Call<K>>, outs: seq<bool>, key: K): seq<bool>
    requires |outs| == |calls|
  {
    if calls == [] then []
    else
      var n := |calls| - 1;
      OutcomesOf(calls[..n], outs[..n], key) + (if calls[n].key == key then [outs[n]] else [])
  }

  /** The full bucket a key starts with, at the time of its first attempt. */
  function FullAt(l: Limit, attempts: seq<Attempt>): Bucket {
    Bucket(l.capacity, if attempts == [] then 0.0 else attempts[0].now)
  }

  /** Keys are independent: each sees exactly the outcomes of its own attempts on a bucket of its own. */
  lemma {:induction false} KeysAreIndependent<K>(limits: K -> Limit, calls: seq<Call<K>>, key: K)
    ensures var own := Of(calls, key);
            && OutcomesOf(calls, KeyedOutcomes(limits, calls), key)
               == Outcomes(limits(key), FullAt(limits(key), own), own)
            && (key in KeyedAfter(limits, calls) <==> own != [])
            && (own != [] ==> KeyedAfter(limits, calls)[key] == After(limits(key), FullAt(limits(key), own), own))
  {
    hide Try;
    if calls != [] {
      var n := |calls| - 1;
      var c := calls[n];
      KeysAreIndependent(limits, calls[..n], key);
      var outs := KeyedOutcomes(limits, calls);
      assert outs[..n] == KeyedOutcomes(limits, calls[..n]);
      var before, own := Of(calls[..n], key), Of(calls, key);
      if c.key == key {
        assert own[..|own| - 1] == before;
        assert before != [] ==> own[0] == before[0];
        assert BucketFor(limits, KeyedAfter(limits, calls[..n]), c)
               == After(limits(key), FullAt(limits(key), own), before);
      } else {
        assert own == before;
        assert OutcomesOf(calls, outs, key) == OutcomesOf(calls[..n], outs[..n], key);
      }
    }
  }

  /** No call comes before an earlier one on the clock. */
  ghost predicate CallsInOrder<K(!new)>(calls: seq<Call<K>>) {
    forall i, j | 0 <= i <= j < |calls| :: calls[i].attempt.now <= calls[j].attempt.now
  }

  ghost predicate UpTo(attempts: seq<Attempt>, limit: real) {
    forall i | 0 <= i < |attempts| :: attempts[i].now <= limit && attempts[i].requested > 0.0
  }

  ghost predicate InOrder(attempts: seq<Attempt>) {
    forall i, j | 0 <= i <= j < |attempts| :: attempts[i].now <= attempts[j].now
  }

  lemma {:induction false} OwnAreOrdered<K(!new)>(calls: seq<Call<K>>, key: K)
    requires CallsInOrder(calls) && forall i | 0 <= i < |calls| :: calls[i].attempt.requested > 0.0
    ensures InOrder(Of(calls, key))
    ensures calls != [] ==> UpTo(Of(calls, key), calls[|calls| - 1].attempt.now)
  {
    if calls != [] {
      var n := |calls| - 1;
      OwnAreOrdered(calls[..n], key);
      var before := Of(calls[..n], key);
      if n > 0 {
        assert calls[n - 1].attempt.now <= calls[n].attempt.now;
      }
      assert UpTo(before, calls[n].attempt.now);
      OrderedSnoc(before, calls[n].attempt);
      hide InOrder, UpTo, CallsInOrder;
    }
  }

  lemma OrderedSnoc(attempts: seq<Attempt>, a: Attempt)
    requires InOrder(attempts) && UpTo(attempts, a.now) && a.requested > 0.0
    ensures InOrder(attempts + [a]) && UpTo(attempts + [a], a.now)
  {
  }

  lemma {:induction false} OwnIsChronological<K(!new)>(calls: seq<Call<K>>, key: K)
    requires InOrder(Of(calls, key)) && (calls != [] ==> UpTo(Of(calls, key), calls[|calls| - 1].attempt.now))
    ensures forall l: Limit :: Chronological(FullAt(l, Of(calls, key)), Of(calls, key))
    ensures Positive(Of(calls, key))
  {
    hide Of;
    assert calls == [] ==> Of(calls, key) == [] by { NoneOf(key); }
  }

  lemma {:induction false} NoneOf<K(!new)>(key: K)
    ensures Of([], key) == []
  {
  }

  /** Per key: over any stretch of its attempts, whatever the other keys do, grants stay within its own limit. */
  lemma {:induction false} KeyStretchIsBounded<K(!new)>(limits: K -> Limit, calls: seq<Call<K>>, key: K,
                                     before: seq<Attempt>, stretch: seq<Attempt>, later: seq<Attempt>)
    requires Sound(limits(key)) && CallsInOrder(calls)
    requires forall i | 0 <= i < |calls| :: calls[i].attempt.requested > 0.0
    requires Of(calls, key) == before + stretch + later && stretch != []
    ensures var l := limits(key);
            var b := FullAt(l, Of(calls, key));
            && OutcomesOf(calls, KeyedOutcomes(limits, calls), key) == Outcomes(l, b, Of(calls, key))
            && Granted(l, b, before + stretch) - Granted(l, b, before)
               <= l.capacity + Accrued(l, stretch[0].now, stretch[|stretch| - 1].now)
  {
    KeysAreIndependent(limits, calls, key);
    OwnAreOrdered(calls, key);
    var l := limits(key);
    var b := FullAt(l, Of(calls, key));
    OwnIsChronological(calls, key);
    StretchIsBounded(l, b, before, stretch, later);
    hide *;
  }
}
