/**
 * A shared bucket read by callers whose clocks need not agree: what it can
 * grant, and exactly on which readings it keeps its limit.
 */
module SkewedClocks {
  import opened Prelude
  import opened TokenBucket

  /** The clock readings of a run. */
  function Times(attempts: seq<Attempt>): (ts: seq<real>)
    ensures |ts| == |attempts|
    ensures forall i | 0 <= i < |ts| :: ts[i] == attempts[i].now
  {
    seq(|attempts|, i requires 0 <= i < |attempts| => attempts[i].now)
  }

  /** What an empty bucket wins back from one reading to the next: at most its capacity. */
  function Gain(l: Limit, from: real, to: real): real {
    Min(l.capacity, Accrued(l, from, to))
  }

  /** What a bucket emptied at every reading wins back over all the steps of a clock, forward jumps included. */
  function Regained(l: Limit, ts: seq<real>): real {
    if |ts| <= 1 then 0.0
    else
      var n := |ts| - 1;
      Regained(l, ts[..n]) + Gain(l, ts[n - 1], ts[n])
  }

  lemma TimesSnoc(attempts: seq<Attempt>, a: Attempt)
    ensures Times(attempts + [a]) == Times(attempts) + [a.now]
  {
  }

  lemma RegainedSnoc(l: Limit, ts: seq<real>, t: real)
    ensures ts == [] ==> Regained(l, ts + [t]) == 0.0
    ensures ts != [] ==> Regained(l, ts + [t]) == Regained(l, ts) + Gain(l, ts[|ts| - 1], t)
  {
    assert (ts + [t])[..|ts|] == ts;
  }

  /** One more attempt on a clamped bucket: what it grants and leaves is covered by one step's gain. */
  lemma ClampedStep(l: Limit, b: Bucket, a: Attempt)
    requires Sound(l) && l.clamped && InRange(l, b) && a.requested > 0.0
    ensures var (b', granted) := Try(l, b, a);
            && InRange(l, b') && b'.updatedAt == a.now
            && (if granted then a.requested else 0.0) + b'.tokens <= b.tokens + Gain(l, b.updatedAt, a.now)
            && (if granted then a.requested else 0.0) + b'.tokens <= l.capacity
  {
    ClampedAccrues(l, b.updatedAt, a.now);
    hide Accrued;
  }

  /**
   * A clamped bucket keeps its range whatever the clocks read, and it grants at
   * most its capacity plus what can be won back from reading to reading.
   */
  lemma {:induction false} ClampedGrantsAreBounded(l: Limit, b: Bucket, attempts: seq<Attempt>)
    requires Sound(l) && l.clamped && InRange(l, b) && Positive(attempts) && attempts != []
    ensures InRange(l, After(l, b, attempts)) && After(l, b, attempts).updatedAt == attempts[|attempts| - 1].now
    ensures Granted(l, b, attempts) + After(l, b, attempts).tokens <= l.capacity + Regained(l, Times(attempts))
  {
    hide Gain, Try, Sound;
    var n := |attempts| - 1;
    var before, a := attempts[..n], attempts[n];
    assert attempts == before + [a];
    TimesSnoc(before, a);
    RegainedSnoc(l, Times(before), a.now);
    if n == 0 {
      ClampedStep(l, b, a);
    } else {
      ClampedGrantsAreBounded(l, b, before);
      ClampedStep(l, After(l, b, before), a);
    }
  }

  lemma ClampedAccrues(l: Limit, from: real, to: real)
    requires Sound(l) && l.clamped
    ensures Accrued(l, from, to) >= 0.0
  {
  }

  /** On a clock that never goes back, no more can be won back than accrues in the time that passed. */
  lemma {:induction false} RegainedWithinElapsed(l: Limit, b: Bucket, attempts: seq<Attempt>)
    requires Chronological(b, attempts) && attempts != []
    ensures Regained(l, Times(attempts)) <= Accrued(l, attempts[0].now, attempts[|attempts| - 1].now)
  {
    hide Accrued;
    var n := |attempts| - 1;
    var before, a := attempts[..n], attempts[n];
    assert attempts == before + [a];
    TimesSnoc(before, a);
    RegainedSnoc(l, Times(before), a.now);
    if n == 0 {
      AccruedNow(l, attempts[0].now);
    } else {
      RegainedWithinElapsed(l, b, before);
      AccruedSplit(l, attempts[0].now, attempts[n - 1].now, a.now);
    }
  }

  /** Asks for exactly what the bucket holds, or, when it holds nothing, for more than it ever will. */
  function Ask(l: Limit, b: Bucket, now: real): Attempt {
    Attempt(now, if Level(l, b, now) > 0.0 then Level(l, b, now) else l.capacity + 1.0)
  }

  /** The run that empties the bucket at each of the readings. */
  function Drain(l: Limit, b: Bucket, ts: seq<real>): (attempts: seq<Attempt>)
    ensures |attempts| == |ts|
  {
    if ts == [] then []
    else
      var n := |ts| - 1;
      var before := Drain(l, b, ts[..n]);
      before + [Ask(l, After(l, b, before), ts[n])]
  }

  lemma AskEmpties(l: Limit, b: Bucket, now: real)
    requires Sound(l) && l.clamped && InRange(l, b)
    ensures var a := Ask(l, b, now);
            var (b', granted) := Try(l, b, a);
            && a.requested > 0.0 && a.now == now
            && b' == Bucket(0.0, now)
            && (if granted then a.requested else 0.0) == Level(l, b, now)
  {
    ClampedAccrues(l, b.updatedAt, now);
    hide Accrued;
  }

  lemma DrainSnoc(l: Limit, b: Bucket, ts: seq<real>, t: real)
    ensures Drain(l, b, ts + [t]) == Drain(l, b, ts) + [Ask(l, After(l, b, Drain(l, b, ts)), t)]
  {
    assert (ts + [t])[..|ts|] == ts;
  }

  /** An empty bucket next holds what it gains; a full one, read when it was filled, its capacity. */
  lemma EmptyOrFull(l: Limit, t: real, now: real)
    requires Sound(l) && l.clamped
    ensures Level(l, Bucket(0.0, t), now) == Gain(l, t, now)
    ensures Level(l, Bucket(l.capacity, t), t) == l.capacity
  {
    AccruedNow(l, t);
  }

  lemma PositiveSnoc(attempts: seq<Attempt>, a: Attempt)
    requires Positive(attempts) && a.requested > 0.0
    ensures Positive(attempts + [a])
  {
  }

  /** The draining run grants all that the bound allows. */
  lemma {:induction false} DrainGrantsAll(l: Limit, ts: seq<real>)
    requires Sound(l) && l.clamped && ts != []
    ensures var b := Bucket(l.capacity, ts[0]);
            var attempts := Drain(l, b, ts);
            && Positive(attempts) && Times(attempts) == ts
            && After(l, b, attempts) == Bucket(0.0, ts[|ts| - 1])
            && Granted(l, b, attempts) == l.capacity + Regained(l, ts)
  {
    var n := |ts| - 1;
    var earlier, t := ts[..n], ts[n];
    var b := Bucket(l.capacity, ts[0]);
    var before := Drain(l, b, earlier);
    var held := After(l, b, before);
    assert n == 0 ==> before == [] && held == b && Granted(l, b, before) == 0.0;
    CapacityNonnegative(l);
    hide *;
    assert ts == earlier + [t];
    DrainSnoc(l, b, earlier, t);
    TimesSnoc(before, Ask(l, held, t));
    AppendAttempt(l, b, before, Ask(l, held, t));
    RegainedSnoc(l, earlier, t);
    if n > 0 {
      DrainGrantsAll(l, earlier);
      EmptyOrFull(l, ts[n - 1], t);
    } else {
      EmptyOrFull(l, t, t);
      NothingAsked();
    }
    HeldInRange(l, held);
    AskEmpties(l, held, t);
    PositiveSnoc(before, Ask(l, held, t));
  }

  lemma NothingAsked()
    ensures Positive([]) && Times([]) == []
  {
  }

  lemma HeldInRange(l: Limit, b: Bucket)
    requires Sound(l) && (b.tokens == 0.0 || b.tokens == l.capacity)
    ensures InRange(l, b)
  {
  }

  /** Every run at these readings from a full bucket stays within capacity plus rate times elapsed. */
  ghost predicate BoundHolds(l: Limit, ts: seq<real>)
    requires ts != []
  {
    forall attempts | Positive(attempts) && Times(attempts) == ts ::
      Granted(l, Bucket(l.capacity, ts[0]), attempts) <= l.capacity + Accrued(l, ts[0], ts[|ts| - 1])
  }

  /**
   * Exactly the clocks for which the shared bucket keeps its limit: those whose
   * steps win back no more than accrues between the first reading and the last.
   */
  lemma {:induction false} BoundHoldsIff(l: Limit, ts: seq<real>)
    requires Sound(l) && l.clamped && ts != []
    ensures BoundHolds(l, ts) <==> Regained(l, ts) <= Accrued(l, ts[0], ts[|ts| - 1])
  {
    var b := Bucket(l.capacity, ts[0]);
    CapacityNonnegative(l);
    forall attempts | Positive(attempts) && Times(attempts) == ts
      ensures Granted(l, b, attempts) <= l.capacity + Regained(l, ts)
    {
      assert attempts != [];
      ClampedGrantsAreBounded(l, b, attempts);
    }
    DrainGrantsAll(l, ts);
    hide Accrued, Regained, Granted, Drain, Sound, Positive, Times;
    if BoundHolds(l, ts) {
      var attempts := Drain(l, b, ts);
      assert Positive(attempts) && Times(attempts) == ts;
    }
  }

  // The limiter itself asks for whole tokens only, so it leaves fractions behind.

  predicate IsWhole(x: real) {
    x == x.Floor as real
  }

  ghost predicate Whole(attempts: seq<Attempt>) {
    forall i | 0 <= i < |attempts| :: IsWhole(attempts[i].requested)
  }

  /** The reading before the last, or the only one. */
  function Previous(ts: seq<real>): real
    requires ts != []
  {
    if |ts| == 1 then ts[0] else ts[|ts| - 2]
  }

  /** Taking every whole token at every reading from a full bucket: the tokens taken, and the fraction left. */
  function Greedy(l: Limit, ts: seq<real>): (int, real) {
    if ts == [] then (0, l.capacity)
    else
      var n := |ts| - 1;
      var (taken, left) := Greedy(l, ts[..n]);
      var level := Level(l, Bucket(left, Previous(ts)), ts[n]);
      (taken + level.Floor, level - level.Floor as real)
  }

  /** `granted` whole tokens were handed out, and the greedy run is ahead of this one. */
  ghost predicate Behind(l: Limit, ts: seq<real>, granted: real, held: real) {
    var (taken, left) := Greedy(l, ts);
    && IsWhole(granted) && granted + held <= taken as real + left
    && 0.0 <= left <= l.capacity && (ts == [] || left < 1.0)
    && granted <= taken as real
  }

  /** Behind stays behind over a gain of `e` and a grant of `more` whole tokens. */
  lemma AheadByGain(cap: real, e: real, granted: real, held: real, taken: int, left: real, more: real)
    requires 0.0 <= held <= cap && 0.0 <= left <= cap && e >= 0.0
    requires IsWhole(granted) && IsWhole(more) && granted <= taken as real && granted + held <= taken as real + left
    requires 0.0 <= more <= Min(cap, held + e)
    ensures var level := Min(cap, left + e);
            && IsWhole(granted + more)
            && granted + more + (Min(cap, held + e) - more)
               <= (taken + level.Floor) as real + (level - level.Floor as real)
            && granted + more <= (taken + level.Floor) as real
            && 0.0 <= level - level.Floor as real < 1.0 && level - level.Floor as real <= cap
  {
    var level := Min(cap, left + e);
    assert granted + more == (granted.Floor + more.Floor) as real;
    assert granted + more <= taken as real + level;
    assert granted.Floor + more.Floor - taken < level.Floor + 1;
  }

  /** What an attempt for whole tokens takes from a bucket in range. */
  lemma WholeTry(l: Limit, b: Bucket, a: Attempt)
    requires Sound(l) && l.clamped && InRange(l, b) && a.requested > 0.0 && IsWhole(a.requested)
    ensures Accrued(l, b.updatedAt, a.now) >= 0.0
    ensures var (b', ok) := Try(l, b, a);
            var more := if ok then a.requested else 0.0;
            && InRange(l, b') && b'.updatedAt == a.now && IsWhole(more)
            && 0.0 <= more <= Level(l, b, a.now) && b'.tokens == Level(l, b, a.now) - more
  {
    ClampedAccrues(l, b.updatedAt, a.now);
    hide Accrued;
  }

  lemma GreedySnoc(l: Limit, earlier: seq<real>, t: real)
    ensures var (taken, left) := Greedy(l, earlier);
            var level := Level(l, Bucket(left, Previous(earlier + [t])), t);
            Greedy(l, earlier + [t]) == (taken + level.Floor, level - level.Floor as real)
  {
    assert (earlier + [t])[..|earlier|] == earlier;
  }

  /** One reading later, with one more attempt for whole tokens, the greedy run is still ahead. */
  lemma GreedyStaysAhead(l: Limit, earlier: seq<real>, b: Bucket, granted: real, a: Attempt)
    requires Sound(l) && l.clamped && InRange(l, b) && a.requested > 0.0 && IsWhole(a.requested)
    requires b.updatedAt == Previous(earlier + [a.now])
    requires Behind(l, earlier, granted, b.tokens)
    ensures var (b', ok) := Try(l, b, a);
            && InRange(l, b') && b'.updatedAt == a.now
            && Behind(l, earlier + [a.now], granted + (if ok then a.requested else 0.0), b'.tokens)
  {
    hide Accrued, Greedy, IsWhole, Try, Sound, Previous;
    WholeTry(l, b, a);
    GreedySnoc(l, earlier, a.now);
    var (b', ok) := Try(l, b, a);
    var (taken, left) := Greedy(l, earlier);
    AheadByGain(l.capacity, Accrued(l, b.updatedAt, a.now), granted, b.tokens, taken, left,
                if ok then a.requested else 0.0);
  }

  /** No run for whole tokens is granted more than the greedy one takes. */
  lemma {:induction false} GreedyIsMost(l: Limit, attempts: seq<Attempt>)
    requires Sound(l) && l.clamped && Positive(attempts) && Whole(attempts) && attempts != []
    ensures var b := Bucket(l.capacity, attempts[0].now);
            && InRange(l, After(l, b, attempts)) && After(l, b, attempts).updatedAt == attempts[|attempts| - 1].now
            && Behind(l, Times(attempts), Granted(l, b, attempts), After(l, b, attempts).tokens)
  {
    var n := |attempts| - 1;
    var before, a := attempts[..n], attempts[n];
    var b := Bucket(l.capacity, attempts[0].now);
    assert attempts == before + [a];
    PreviousTime(before, a);
    if n > 0 {
      assert Positive(before) && Whole(before);
      hide *;
      GreedyIsMost(l, before);
      TimesSnoc(before, a);
      AppendAttempt(l, b, before, a);
      GreedyStaysAhead(l, Times(before), After(l, b, before), Granted(l, b, before), a);
    } else {
      hide Greedy, Behind, Try, Sound, Previous;
      assert before == [];
      NoneBehind(l, a.now);
      TimesSnoc([], a);
      AppendAttempt(l, b, [], a);
      GreedyStaysAhead(l, [], b, 0.0, a);
    }
  }

  lemma PreviousTime(before: seq<Attempt>, a: Attempt)
    ensures Previous(Times(before) + [a.now]) == if before == [] then a.now else before[|before| - 1].now
  {
  }

  lemma NoneBehind(l: Limit, now: real)
    requires Sound(l)
    ensures Behind(l, Times([]), 0.0, l.capacity) && InRange(l, Bucket(l.capacity, now))
    ensures Times([]) == []
  {
  }

  /** Asks for every whole token there is, or, when there is none, for more than there ever will be. */
  function AskWhole(l: Limit, b: Bucket, now: real): Attempt {
    var whole := Level(l, b, now).Floor;
    Attempt(now, (if whole > 0 then whole else l.capacity.Floor + 1) as real)
  }

  function DrainWhole(l: Limit, b: Bucket, ts: seq<real>): seq<Attempt> {
    if ts == [] then []
    else
      var n := |ts| - 1;
      var before := DrainWhole(l, b, ts[..n]);
      before + [AskWhole(l, After(l, b, before), ts[n])]
  }

  lemma AskWholeTakes(l: Limit, b: Bucket, now: real)
    requires Sound(l) && l.clamped && InRange(l, b)
    ensures var a := AskWhole(l, b, now);
            var (b', granted) := Try(l, b, a);
            var level := Level(l, b, now);
            && a.requested > 0.0 && IsWhole(a.requested) && a.now == now
            && InRange(l, b') && b' == Bucket(level - level.Floor as real, now)
            && (if granted then a.requested else 0.0) == level.Floor as real
  {
    ClampedAccrues(l, b.updatedAt, now);
    hide Accrued;
  }

  lemma DrainWholeSnoc(l: Limit, b: Bucket, ts: seq<real>, t: real)
    ensures DrainWhole(l, b, ts + [t]) == DrainWhole(l, b, ts) + [AskWhole(l, After(l, b, DrainWhole(l, b, ts)), t)]
  {
    assert (ts + [t])[..|ts|] == ts;
  }

  lemma WholeSnoc(attempts: seq<Attempt>, a: Attempt)
    requires Positive(attempts) && Whole(attempts) && a.requested > 0.0 && IsWhole(a.requested)
    ensures Positive(attempts + [a]) && Whole(attempts + [a])
  {
  }

  /** The greedy run is a run: it can be had at these readings. */
  lemma {:induction false} GreedyIsHad(l: Limit, ts: seq<real>)
    requires Sound(l) && l.clamped && ts != []
    ensures var b := Bucket(l.capacity, ts[0]);
            var attempts := DrainWhole(l, b, ts);
            && Positive(attempts) && Whole(attempts) && Times(attempts) == ts
            && InRange(l, After(l, b, attempts)) && After(l, b, attempts) == Bucket(Greedy(l, ts).1, ts[|ts| - 1])
            && Granted(l, b, attempts) == Greedy(l, ts).0 as real
  {
    var n := |ts| - 1;
    var earlier, t := ts[..n], ts[n];
    var b := Bucket(l.capacity, ts[0]);
    assert ts == earlier + [t];
    assert Previous(ts) == if n == 0 then ts[0] else ts[n - 1];
    if n > 0 {
      hide *;
      GreedyIsHad(l, earlier);
      OneMoreWhole(l, earlier, t, b);
    } else {
      assert earlier == [];
      NoneBehind(l, t);
      OneMoreWhole(l, [], t, b);
      hide *;
    }
  }

  lemma OneMoreWhole(l: Limit, earlier: seq<real>, t: real, b: Bucket)
    requires Sound(l) && l.clamped
    requires var before := DrainWhole(l, b, earlier);
             && Positive(before) && Whole(before) && Times(before) == earlier
             && InRange(l, After(l, b, before))
             && After(l, b, before) == Bucket(Greedy(l, earlier).1, Previous(earlier + [t]))
             && Granted(l, b, before) == Greedy(l, earlier).0 as real
    ensures var attempts, ts := DrainWhole(l, b, earlier + [t]), earlier + [t];
            && Positive(attempts) && Whole(attempts) && Times(attempts) == ts
            && InRange(l, After(l, b, attempts)) && After(l, b, attempts) == Bucket(Greedy(l, ts).1, t)
            && Granted(l, b, attempts) == Greedy(l, ts).0 as real
  {
    hide *;
    var before := DrainWhole(l, b, earlier);
    var held := After(l, b, before);
    var a := AskWhole(l, held, t);
    DrainWholeSnoc(l, b, earlier, t);
    AskWholeTakes(l, held, t);
    TimesSnoc(before, a);
    WholeSnoc(before, a);
    AppendAttempt(l, b, before, a);
    GreedySnoc(l, earlier, t);
  }

  /** Every run for whole tokens at these readings from a full bucket stays within capacity plus rate times elapsed. */
  ghost predicate WholeBoundHolds(l: Limit, ts: seq<real>)
    requires ts != []
  {
    forall attempts | Positive(attempts) && Whole(attempts) && Times(attempts) == ts ::
      Granted(l, Bucket(l.capacity, ts[0]), attempts) <= l.capacity + Accrued(l, ts[0], ts[|ts| - 1])
  }

  /**
   * The same for callers that ask for whole tokens, as the limiter does: the
   * limit is kept exactly when the greedy count, computed from the readings
   * alone, keeps it.
   */
  lemma {:induction false} WholeBoundHoldsIff(l: Limit, ts: seq<real>)
    requires Sound(l) && l.clamped && ts != []
    ensures WholeBoundHolds(l, ts) <==> Greedy(l, ts).0 as real <= l.capacity + Accrued(l, ts[0], ts[|ts| - 1])
  {
    var b := Bucket(l.capacity, ts[0]);
    forall attempts | Positive(attempts) && Whole(attempts) && Times(attempts) == ts
      ensures Granted(l, b, attempts) <= Greedy(l, ts).0 as real
    {
      assert attempts != [];
      GreedyIsMost(l, attempts);
    }
    GreedyIsHad(l, ts);
    hide Accrued, Greedy, Granted, DrainWhole, Sound, Positive, Times, Whole, After, InRange;
    if WholeBoundHolds(l, ts) {
      var attempts := DrainWhole(l, b, ts);
      assert Positive(attempts) && Whole(attempts) && Times(attempts) == ts;
    }
  }

  /** Two callers whose clocks disagree: one token a second, and two granted at the same instant. */
  lemma {:induction false} SkewedClocksGrantMore()
    ensures var l := Limit(1.0, 1.0, true);
            var attempts := [Attempt(10.0, 1.0), Attempt(0.0, 1.0), Attempt(10.0, 1.0)];
            Granted(l, Bucket(1.0, 10.0), attempts) == 2.0 > l.capacity + Accrued(l, attempts[0].now, attempts[2].now)
  {
    var l, b := Limit(1.0, 1.0, true), Bucket(1.0, 10.0);
    var attempts := [Attempt(10.0, 1.0), Attempt(0.0, 1.0), Attempt(10.0, 1.0)];
    var one, two := attempts[..1], attempts[..2];
    assert one[..0] == [] && two[..1] == one;
    assert After(l, b, one) == Bucket(0.0, 10.0) && Granted(l, b, one) == 1.0;
    assert After(l, b, two) == Bucket(0.0, 0.0) && Granted(l, b, two) == 1.0;
  }
}
