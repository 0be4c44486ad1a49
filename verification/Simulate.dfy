/**
 * A trigger run over a simulated region. Once it has fired it looks at nothing
 * before the next healthy probe, which resets it.
 */
module Simulate {
  import opened Prelude
  import opened Triggers
  import opened Scenario

  datatype Sim = Sim(trigger: TriggerState, failedOver: bool)

  /** The trigger that looks at the next probe, if any does. */
  function Awake(s: Sim): TriggerState {
    if s.failedOver then ResetState(s.trigger) else s.trigger
  }

  function SimStep(s: Sim, o: Observation): (Sim, bool) {
    if s.failedOver && !IsHealthy(o) then (s, false)
    else
      var (trigger, fires) := ObserveStep(Awake(s), o);
      (Sim(trigger, fires), fires)
  }

  /** The simulation just before probe `k`. */
  function SimAt(t: TriggerState, obs: seq<Observation>, k: nat): Sim
    requires k <= |obs|
  {
    if k == 0 then Sim(t, false) else SimStep(SimAt(t, obs, k - 1), obs[k - 1]).0
  }

  predicate Fired(t: TriggerState, obs: seq<Observation>, k: nat)
    requires k < |obs|
  {
    SimStep(SimAt(t, obs, k), obs[k]).1
  }

  function FiresUpTo(t: TriggerState, obs: seq<Observation>, k: nat): seq<real>
    requires k <= |obs|
  {
    if k == 0 then []
    else FiresUpTo(t, obs, k - 1) + (if Fired(t, obs, k - 1) then [obs[k - 1].now] else [])
  }

  // ------------------------------------------------------------ the loop itself

  /** Either of the two trigger objects. */
  datatype AnyTrigger = OfWindow(w: WindowAllUnhealthy) | OfConsecutive(c: ConsecutiveFailures) {
    function Objects(): set<object> {
      match this
      case OfWindow(w) => {w}
      case OfConsecutive(c) => {c}
    }

    function View(): TriggerState
      reads Objects()
    {
      match this
      case OfWindow(w) => w.View()
      case OfConsecutive(c) => c.View()
    }

    method Observe(o: Observation) returns (fires: bool)
      modifies Objects()
      ensures (View(), fires) == ObserveStep(old(View()), o)
    {
      match this
      case OfWindow(w) => fires := w.Observe(o);
      case OfConsecutive(c) => fires := c.Observe(o);
    }

    method Reset()
      modifies Objects()
      ensures View() == ResetState(old(View()))
    {
      match this
      case OfWindow(w) => w.Reset();
      case OfConsecutive(c) => c.Reset();
    }
  }

  method FireTimes(trigger: AnyTrigger, obs: seq<Observation>) returns (fires: seq<real>)
    modifies trigger.Objects()
    ensures fires == FiresUpTo(old(trigger.View()), obs, |obs|)
    ensures trigger.View() == SimAt(old(trigger.View()), obs, |obs|).trigger
  {
    hide ObserveStep;
    ghost var start := trigger.View();
    fires := [];
    var failedOver := false;
    for k := 0 to |obs|
      invariant fires == FiresUpTo(start, obs, k)
      invariant SimAt(start, obs, k) == Sim(trigger.View(), failedOver)
    {
      if failedOver {
        if !IsHealthy(obs[k]) {
          assert FiresUpTo(start, obs, k + 1) == fires + [];
          continue;
        }
        failedOver := false;
        trigger.Reset();
      }
      var now := trigger.Observe(obs[k]);
      if now {
        fires := fires + [obs[k].now];
        failedOver := true;
      } else {
        assert FiresUpTo(start, obs, k + 1) == fires + [];
      }
    }
  }

  // ------------------------------------------------------------- any trigger

  /** Once it has fired a trigger cannot fire again before a healthy probe: one blip, one failover. */
  lemma {:induction false} FailedOverUntilHealthy(t: TriggerState, obs: seq<Observation>, j: nat, k: nat)
    requires j < k <= |obs| && Fired(t, obs, j)
    requires forall h | j < h < k :: !IsHealthy(obs[h])
    ensures SimAt(t, obs, k).failedOver
  {
    hide ObserveStep;
    if j + 1 < k {
      FailedOverUntilHealthy(t, obs, j, k - 1);
    }
  }

  lemma {:induction false} BlipFiresOnce(t: TriggerState, obs: seq<Observation>, j: nat, k: nat)
    requires j < k < |obs| && Fired(t, obs, j) && Fired(t, obs, k)
    ensures exists h :: j < h <= k && IsHealthy(obs[h])
  {
    hide ObserveStep;
    if forall h | j < h <= k :: !IsHealthy(obs[h]) {
      FailedOverUntilHealthy(t, obs, j, k);
    }
  }

  /** An awake trigger remembers exactly the probes since the start or since the healthy probe that woke it. */
  lemma {:induction false} AwakeSince(t: TriggerState, obs: seq<Observation>, k: nat) returns (r: nat)
    requires t == ResetState(t)
    requires k < |obs| && (SimAt(t, obs, k).failedOver ==> IsHealthy(obs[k]))
    ensures r <= k && (r == 0 || IsHealthy(obs[r]))
    ensures Awake(SimAt(t, obs, k)) == ObserveAll(t, obs[r..k])
  {
    KeepsReset(t, obs, k);
    hide ObserveStep, ResetState;
    if k == 0 || SimAt(t, obs, k).failedOver {
      r := k;
    } else {
      r := AwakeSince(t, obs, k - 1);
      assert obs[r..k][..k - r - 1] == obs[r..k - 1];
      assert obs[r..k][k - r - 1] == obs[k - 1];
    }
  }

  /** Observing never changes a trigger's settings. */
  lemma {:induction false} KeepsReset(t: TriggerState, obs: seq<Observation>, k: nat)
    requires k <= |obs|
    ensures ResetState(SimAt(t, obs, k).trigger) == ResetState(t)
  {
    hide ObserveStep, ResetState;
    if k > 0 {
      KeepsReset(t, obs, k - 1);
      ResetForgets(SimAt(t, obs, k - 1).trigger, obs[k - 1]);
    }
  }

  lemma ResetForgets(t: TriggerState, o: Observation)
    ensures ResetState(ObserveStep(t, o).0) == ResetState(t)
    ensures ResetState(ObserveStep(ResetState(t), o).0) == ResetState(t)
  {
    hide Evict, AllUnhealthy;
  }

  // ------------------------------------------------------ the window trigger

  /** A window trigger that fires has seen nothing healthy for strictly longer than its window. */
  lemma {:induction false} WindowWaitsOut(window: real, silenceIsFailure: bool, obs: seq<Observation>, j: nat, k: nat)
    requires Chronological(obs) && j < k < |obs|
    requires IsHealthy(obs[j]) && Fired(Window(window, silenceIsFailure, []), obs, k)
    ensures obs[k].now - obs[j].now > window
  {
    hide ObserveStep, ObserveAll, Fired;
    var r := FiredSince(Window(window, silenceIsFailure, []), obs, k);
    var healthy := if j < r then r else j;
    assert obs[j].now <= obs[healthy].now;
    ChronologicalSlice(obs, r, k + 1);
    var since := obs[r..k + 1];
    assert since[..|since| - 1] == obs[r..k] && since[|since| - 1] == obs[k];
    hide *;
    WaitsOutSince(window, silenceIsFailure, since, healthy - r);
  }

  /** A fire is decided by the probes since the trigger last woke, and by those alone. */
  lemma FiredSince(t: TriggerState, obs: seq<Observation>, k: nat) returns (r: nat)
    requires t == ResetState(t) && k < |obs| && Fired(t, obs, k)
    ensures r <= k && (r == 0 || IsHealthy(obs[r]))
    ensures ObserveStep(ObserveAll(t, obs[r..k]), obs[k]).1
  {
    FiredAwake(t, obs, k);
    hide *;
    r := AwakeSince(t, obs, k);
  }

  lemma FiredAwake(t: TriggerState, obs: seq<Observation>, k: nat)
    requires k < |obs| && Fired(t, obs, k)
    ensures SimAt(t, obs, k).failedOver ==> IsHealthy(obs[k])
    ensures ObserveStep(Awake(SimAt(t, obs, k)), obs[k]).1
  {
    hide ObserveStep, ResetState;
  }

  lemma ChronologicalSlice(obs: seq<Observation>, a: nat, b: nat)
    requires Chronological(obs) && a <= b <= |obs|
    ensures Chronological(obs[a..b])
  {
  }

  lemma WaitsOutSince(window: real, silenceIsFailure: bool, since: seq<Observation>, healthy: nat)
    requires Chronological(since) && healthy < |since| && IsHealthy(since[healthy])
    requires ObserveStep(ObserveAll(Window(window, silenceIsFailure, []), since[..|since| - 1]), since[|since| - 1]).1
    ensures since[|since| - 1].now - since[healthy].now > window
  {
    WindowFiresIff(window, silenceIsFailure, since);
    HealthyIsRecorded(silenceIsFailure, since, healthy);
    hide ObserveStep, ObserveAll, History, Chronological;
  }

  lemma {:induction false} HealthyIsRecorded(silenceIsFailure: bool, obs: seq<Observation>, i: nat)
    requires i < |obs| && IsHealthy(obs[i])
    ensures Check(obs[i].now, true) in History(silenceIsFailure, obs)
  {
    var n := |obs| - 1;
    if i < n {
      HealthyIsRecorded(silenceIsFailure, obs[..n], i);
    }
  }

  // ------------------------------------------------- the consecutive trigger

  /** Counted failures among probes `a..b`. */
  function FailuresIn(silenceIsFailure: bool, obs: seq<Observation>, a: nat, b: nat): nat
    requires a <= b <= |obs|
    decreases b
  {
    if a == b then 0
    else FailuresIn(silenceIsFailure, obs, a, b - 1) + (if Counts(silenceIsFailure, obs[b - 1]) then 1 else 0)
  }

  /** Counted failures since the last healthy probe before `k`. */
  function Streak(silenceIsFailure: bool, obs: seq<Observation>, k: nat): nat
    requires k <= |obs|
  {
    if k == 0 || IsHealthy(obs[k - 1]) then 0
    else Streak(silenceIsFailure, obs, k - 1) + (if Counts(silenceIsFailure, obs[k - 1]) then 1 else 0)
  }

  /** The whole simulation is a function of the streak. */
  lemma {:induction false} ConsecutiveShape(n: int, silenceIsFailure: bool, obs: seq<Observation>, k: nat)
    requires n >= 1 && k <= |obs|
    ensures var streak := Streak(silenceIsFailure, obs, k);
            SimAt(Consecutive(n, silenceIsFailure, 0), obs, k)
            == Sim(Consecutive(n, silenceIsFailure, if streak < n then streak else n), streak >= n)
  {
    if k > 0 {
      ConsecutiveShape(n, silenceIsFailure, obs, k - 1);
    }
  }

  /** It fires exactly at the n-th counted failure since the last healthy probe. */
  lemma {:induction false} ConsecutiveFiresAt(n: int, silenceIsFailure: bool, obs: seq<Observation>, k: nat)
    requires n >= 1 && k < |obs|
    ensures Fired(Consecutive(n, silenceIsFailure, 0), obs, k)
            <==> Counts(silenceIsFailure, obs[k]) && Streak(silenceIsFailure, obs, k + 1) == n
  {
    ConsecutiveShape(n, silenceIsFailure, obs, k);
  }

  /** A stretch without a healthy probe, starting right after one or at the very beginning. */
  ghost predicate Stretch(obs: seq<Observation>, a: nat, b: nat) {
    && a <= b <= |obs|
    && (a == 0 || IsHealthy(obs[a - 1]))
    && (forall i | a <= i < b :: !IsHealthy(obs[i]))
  }

  lemma {:induction false} StreakInStretch(silenceIsFailure: bool, obs: seq<Observation>, a: nat, b: nat)
    requires Stretch(obs, a, b)
    ensures Streak(silenceIsFailure, obs, b) == FailuresIn(silenceIsFailure, obs, a, b)
    decreases b
  {
    if a < b {
      StreakInStretch(silenceIsFailure, obs, a, b - 1);
    }
  }

  lemma {:induction false} FailuresGrow(silenceIsFailure: bool, obs: seq<Observation>, a: nat, b: nat, c: nat)
    requires a <= b <= c <= |obs|
    ensures FailuresIn(silenceIsFailure, obs, a, b) <= FailuresIn(silenceIsFailure, obs, a, c)
    decreases c
  {
    if b < c {
      FailuresGrow(silenceIsFailure, obs, a, b, c - 1);
    }
  }

  /** The probe at which a stretch reaches its n-th counted failure. */
  lemma {:induction false} NthFailure(n: int, silenceIsFailure: bool, obs: seq<Observation>, a: nat, b: nat)
    returns (k: nat)
    requires n >= 1 && a <= b <= |obs| && FailuresIn(silenceIsFailure, obs, a, b) >= n
    ensures a <= k < b && Counts(silenceIsFailure, obs[k]) && FailuresIn(silenceIsFailure, obs, a, k + 1) == n
    decreases b
  {
    if FailuresIn(silenceIsFailure, obs, a, b - 1) >= n {
      k := NthFailure(n, silenceIsFailure, obs, a, b - 1);
    } else {
      k := b - 1;
    }
  }

  /**
   * One fire per stretch without a healthy probe that holds at least n counted
   * failures, at the n-th of them; no fire in any other stretch.
   */
  lemma {:induction false} OneFirePerStretch(n: int, silenceIsFailure: bool, obs: seq<Observation>, a: nat, b: nat)
    requires n >= 1 && Stretch(obs, a, b)
    ensures forall k | a <= k < b ::
              Fired(Consecutive(n, silenceIsFailure, 0), obs, k)
              <==> Counts(silenceIsFailure, obs[k]) && FailuresIn(silenceIsFailure, obs, a, k + 1) == n
    ensures forall j, k | a <= j < k < b ::
              !(Fired(Consecutive(n, silenceIsFailure, 0), obs, j)
                && Fired(Consecutive(n, silenceIsFailure, 0), obs, k))
    ensures (exists k :: a <= k < b && Fired(Consecutive(n, silenceIsFailure, 0), obs, k))
            <==> FailuresIn(silenceIsFailure, obs, a, b) >= n
  {
    hide Streak, Fired;
    var t := Consecutive(n, silenceIsFailure, 0);
    forall k | a <= k < b
      ensures Fired(t, obs, k)
              <==> Counts(silenceIsFailure, obs[k]) && FailuresIn(silenceIsFailure, obs, a, k + 1) == n
      ensures FailuresIn(silenceIsFailure, obs, a, k + 1) <= FailuresIn(silenceIsFailure, obs, a, b)
    {
      ConsecutiveFiresAt(n, silenceIsFailure, obs, k);
      StreakInStretch(silenceIsFailure, obs, a, k + 1);
      FailuresGrow(silenceIsFailure, obs, a, k + 1, b);
    }
    hide Fired, Stretch;
    if FailuresIn(silenceIsFailure, obs, a, b) >= n {
      var k := NthFailure(n, silenceIsFailure, obs, a, b);
    }
    forall j, k | a <= j < k < b ensures !(Fired(t, obs, j) && Fired(t, obs, k)) {
      FailuresGrow(silenceIsFailure, obs, a, j + 1, k);
    }
  }

  lemma HealthyNeverFires(n: int, silenceIsFailure: bool, obs: seq<Observation>, k: nat)
    requires n >= 1 && k < |obs| && IsHealthy(obs[k])
    ensures !Fired(Consecutive(n, silenceIsFailure, 0), obs, k)
  {
    ConsecutiveFiresAt(n, silenceIsFailure, obs, k);
  }

  /** A stretch that cannot be made longer on either side. */
  ghost predicate Maximal(obs: seq<Observation>, a: nat, b: nat) {
    Stretch(obs, a, b) && a < b && (b == |obs| || IsHealthy(obs[b]))
  }

  /** Every unhealthy probe lies in one maximal stretch, and in no other. */
  lemma {:induction false} MaximalAround(obs: seq<Observation>, k: nat) returns (a: nat, b: nat)
    requires k < |obs| && !IsHealthy(obs[k])
    ensures Maximal(obs, a, b) && a <= k < b
    ensures forall c: nat, d: nat | Maximal(obs, c, d) && c <= k < d :: c == a && d == b
  {
    a, b := k, k + 1;
    while a > 0 && !IsHealthy(obs[a - 1])
      invariant a <= k && forall i | a <= i <= k :: !IsHealthy(obs[i])
    {
      a := a - 1;
    }
    while b < |obs| && !IsHealthy(obs[b])
      invariant k < b <= |obs| && forall i | k <= i < b :: !IsHealthy(obs[i])
      decreases |obs| - b
    {
      b := b + 1;
    }
    forall c: nat, d: nat | Maximal(obs, c, d) && c <= k < d ensures c == a && d == b {
      MaximalUnique(obs, k, a, b, c, d);
    }
  }

  lemma MaximalUnique(obs: seq<Observation>, k: nat, a: nat, b: nat, c: nat, d: nat)
    requires Maximal(obs, a, b) && Maximal(obs, c, d) && a <= k < b && c <= k < d
    ensures a == c && b == d
  {
  }

  /**
   * With `OneFirePerStretch`, fires and qualifying stretches correspond one to
   * one: every fire of a run lies in exactly one maximal stretch without a
   * healthy probe, that stretch holds at least n counted failures, and no other
   * probe of it fires.
   */
  lemma {:induction false} FireHasStretch(n: int, silenceIsFailure: bool, obs: seq<Observation>, k: nat)
    returns (a: nat, b: nat)
    requires n >= 1 && k < |obs| && Fired(Consecutive(n, silenceIsFailure, 0), obs, k)
    ensures Maximal(obs, a, b) && a <= k < b && FailuresIn(silenceIsFailure, obs, a, b) >= n
    ensures forall c: nat, d: nat | Maximal(obs, c, d) && c <= k < d :: c == a && d == b
    ensures forall j | a <= j < b && Fired(Consecutive(n, silenceIsFailure, 0), obs, j) :: j == k
  {
    if IsHealthy(obs[k]) {
      HealthyNeverFires(n, silenceIsFailure, obs, k);
    }
    a, b := MaximalAround(obs, k);
    OneFirePerStretch(n, silenceIsFailure, obs, a, b);
    hide Fired, FailuresIn, Stretch;
  }

  /** Asking for more failures in a row never adds a failover. */
  lemma {:induction false} FailoversFall(n: int, m: int, silenceIsFailure: bool, obs: seq<Observation>)
    requires 1 <= n <= m
    ensures |FiresUpTo(Consecutive(m, silenceIsFailure, 0), obs, |obs|)|
            <= |FiresUpTo(Consecutive(n, silenceIsFailure, 0), obs, |obs|)|
  {
    FailoversGap(n, m, silenceIsFailure, obs, |obs|);
  }

  lemma {:induction false} FailoversGap(n: int, m: int, silenceIsFailure: bool, obs: seq<Observation>, k: nat)
    requires 1 <= n <= m && k <= |obs|
    ensures |FiresUpTo(Consecutive(n, silenceIsFailure, 0), obs, k)|
            >= |FiresUpTo(Consecutive(m, silenceIsFailure, 0), obs, k)|
               + (if n <= Streak(silenceIsFailure, obs, k) < m then 1 else 0)
  {
    hide Fired;
    if k > 0 {
      FailoversGap(n, m, silenceIsFailure, obs, k - 1);
      ConsecutiveFiresAt(n, silenceIsFailure, obs, k - 1);
      ConsecutiveFiresAt(m, silenceIsFailure, obs, k - 1);
    }
  }

  // --------------------------------------------------------- detection delay

  function Before(times: seq<real>, limit: real): seq<real> {
    if times == [] then []
    else Before(times[..|times| - 1], limit)
         + (if times[|times| - 1] < limit then [times[|times| - 1]] else [])
  }

  function After(times: seq<real>, limit: real): seq<real> {
    if times == [] then []
    else After(times[..|times| - 1], limit)
         + (if times[|times| - 1] >= limit then [times[|times| - 1]] else [])
  }

  ghost predicate RecoveredBetween(obs: seq<Observation>, from: real, until: real) {
    exists i :: 0 <= i < |obs| && from < obs[i].now < until && IsHealthy(obs[i])
  }

  /** The delay reported for an outage: 0 if the last fire before it was never recovered from. */
  ghost function Delay(fires: seq<real>, obs: seq<Observation>, outageAt: real): Option<real> {
    var before := Before(fires, outageAt);
    var after := After(fires, outageAt);
    if before != [] && !RecoveredBetween(obs, before[|before| - 1], outageAt) then Some(0.0)
    else if after != [] then Some(after[0] - outageAt)
    else None
  }

  ghost predicate StrictlyChronological(obs: seq<Observation>) {
    forall i, j | 0 <= i < j < |obs| :: obs[i].now < obs[j].now
  }

  /** Probe `k0` is the first one at or after the outage. */
  ghost predicate OutageStarts(obs: seq<Observation>, k0: nat, outageAt: real) {
    && k0 <= |obs|
    && (forall i | 0 <= i < k0 :: obs[i].now < outageAt)
    && (forall i | k0 <= i < |obs| :: obs[i].now >= outageAt)
  }

  ghost predicate FirstFire(t: TriggerState, obs: seq<Observation>, k0: nat, i: nat) {
    k0 <= i < |obs| && Fired(t, obs, i) && forall j | k0 <= j < i :: !Fired(t, obs, j)
  }

  lemma {:induction false} FiresSplit(t: TriggerState, obs: seq<Observation>, k0: nat, k: nat, outageAt: real)
    requires OutageStarts(obs, k0, outageAt) && k <= |obs|
    ensures Before(FiresUpTo(t, obs, k), outageAt) == FiresUpTo(t, obs, if k < k0 then k else k0)
    ensures k <= k0 ==> After(FiresUpTo(t, obs, k), outageAt) == []
    ensures forall i: nat | i < k && FirstFire(t, obs, k0, i) ::
              After(FiresUpTo(t, obs, k), outageAt) != [] && After(FiresUpTo(t, obs, k), outageAt)[0] == obs[i].now
    ensures (forall i | k0 <= i < k :: !Fired(t, obs, i)) ==> After(FiresUpTo(t, obs, k), outageAt) == []
  {
    hide Fired;
    if k > 0 {
      FiresSplit(t, obs, k0, k - 1, outageAt);
      var earlier := FiresUpTo(t, obs, k - 1);
      if Fired(t, obs, k - 1) {
        assert FiresUpTo(t, obs, k)[..|earlier|] == earlier;
      } else {
        assert FiresUpTo(t, obs, k) == earlier;
      }
    }
  }

  /** The last fire before `k`, and whether the trigger is still failed over from it. */
  lemma {:induction false} LastFire(t: TriggerState, obs: seq<Observation>, k: nat) returns (j: nat)
    requires k <= |obs|
    ensures SimAt(t, obs, k).failedOver ==> FiresUpTo(t, obs, k) != []
    ensures FiresUpTo(t, obs, k) != [] ==> j < k && FiresUpTo(t, obs, k)[|FiresUpTo(t, obs, k)| - 1] == obs[j].now
    ensures FiresUpTo(t, obs, k) != [] ==>
              (SimAt(t, obs, k).failedOver <==> forall h | j < h < k :: !IsHealthy(obs[h]))
  {
    hide ObserveStep;
    if k == 0 {
      j := 0;
    } else {
      j := LastFire(t, obs, k - 1);
      if Fired(t, obs, k - 1) {
        j := k - 1;
      } else {
        assert FiresUpTo(t, obs, k) == FiresUpTo(t, obs, k - 1);
      }
    }
  }

  /** The delay runs from the outage to the first fire at or after probe `k0`, and is missing if there is none. */
  ghost predicate RunsToFirstFire(t: TriggerState, obs: seq<Observation>, k0: nat, outageAt: real,
                                  delay: Option<real>) {
    && (forall i: nat | FirstFire(t, obs, k0, i) :: delay == Some(obs[i].now - outageAt))
    && ((forall i: nat | k0 <= i < |obs| :: !Fired(t, obs, i)) ==> delay == None)
  }

  /**
   * The reported delay is 0 if the simulation stands failed over at the
   * first probe of the outage, and otherwise runs to the first fire from then on.
   */
  lemma {:induction false} DelayMeaning(t: TriggerState, obs: seq<Observation>, k0: nat, outageAt: real)
    requires StrictlyChronological(obs) && OutageStarts(obs, k0, outageAt)
    ensures var delay := Delay(FiresUpTo(t, obs, |obs|), obs, outageAt);
            && (SimAt(t, obs, k0).failedOver ==> delay == Some(0.0))
            && (!SimAt(t, obs, k0).failedOver ==> RunsToFirstFire(t, obs, k0, outageAt, delay))
  {
    hide Fired, SimAt, FiresUpTo, RecoveredBetween, StrictlyChronological;
    FiresSplit(t, obs, k0, |obs|, outageAt);
    FailedOverAtOutage(t, obs, k0, outageAt);
    assert forall i: nat | FirstFire(t, obs, k0, i) :: i < |obs|;
  }

  lemma FailedOverAtOutage(t: TriggerState, obs: seq<Observation>, k0: nat, outageAt: real)
    requires StrictlyChronological(obs) && OutageStarts(obs, k0, outageAt)
    ensures var before := FiresUpTo(t, obs, k0);
            before != [] && !RecoveredBetween(obs, before[|before| - 1], outageAt) <==> SimAt(t, obs, k0).failedOver
  {
    var j := LastFire(t, obs, k0);
    if FiresUpTo(t, obs, k0) != [] {
      RecoveryIsHealthy(obs, j, k0, outageAt);
    }
    hide *;
  }

  lemma RecoveryIsHealthy(obs: seq<Observation>, j: nat, k0: nat, outageAt: real)
    requires StrictlyChronological(obs) && OutageStarts(obs, k0, outageAt) && j < k0
    ensures RecoveredBetween(obs, obs[j].now, outageAt) <==> !forall h | j < h < k0 :: !IsHealthy(obs[h])
  {
    if RecoveredBetween(obs, obs[j].now, outageAt) {
      var i :| 0 <= i < |obs| && obs[j].now < obs[i].now < outageAt && IsHealthy(obs[i]);
      assert j < i < k0;
    }
  }

  lemma {:induction false} StreakAfter(silenceIsFailure: bool, obs: seq<Observation>, k0: nat, i: nat)
    requires k0 <= i <= |obs|
    requires forall h | k0 <= h < i :: Counts(silenceIsFailure, obs[h])
    ensures Streak(silenceIsFailure, obs, i) == Streak(silenceIsFailure, obs, k0) + (i - k0)
  {
    if k0 < i {
      StreakAfter(silenceIsFailure, obs, k0, i - 1);
    }
  }

  /** Awake at the outage, with every later probe counted, it fires at the probe that completes the streak. */
  lemma FirstFireInOutage(n: int, silenceIsFailure: bool, obs: seq<Observation>, k0: nat) returns (i: nat)
    requires n >= 1 && k0 + n <= |obs| && Streak(silenceIsFailure, obs, k0) < n
    requires forall h | k0 <= h < |obs| :: Counts(silenceIsFailure, obs[h])
    ensures i < k0 + n && FirstFire(Consecutive(n, silenceIsFailure, 0), obs, k0, i)
  {
    i := k0 + (n - Streak(silenceIsFailure, obs, k0)) - 1;
    forall h | k0 <= h <= i
      ensures Fired(Consecutive(n, silenceIsFailure, 0), obs, h) <==> h == i
    {
      ConsecutiveFiresAt(n, silenceIsFailure, obs, h);
      StreakAfter(silenceIsFailure, obs, k0, h + 1);
    }
    hide Fired;
  }

  /** `obs` is a timeline of these settings, as `Scenario.Timeline` returns it. */
  ghost predicate IsTimeline(s: Settings, blips: seq<Blip>, losses: seq<real>, obs: seq<Observation>)
    requires s.probeInterval > 0.0
  {
    && |losses| == |obs| == Steps(s)
    && forall i | 0 <= i < |obs| ::
         obs[i] == ObservationAt(s, blips, losses[i] < s.probeLoss, ProbeTime(s, i))
  }

  lemma {:induction false} FirstProbeOfOutage(s: Settings, outageAt: real, limit: nat) returns (k0: nat)
    requires s.probeInterval > 0.0
    ensures k0 <= limit
    ensures forall i | 0 <= i < k0 :: ProbeTime(s, i) < outageAt
    ensures k0 < limit ==> ProbeTime(s, k0) >= outageAt
  {
    if limit == 0 {
      k0 := 0;
    } else {
      k0 := FirstProbeOfOutage(s, outageAt, limit - 1);
      if k0 == limit - 1 && ProbeTime(s, k0) < outageAt {
        k0 := limit;
      }
    }
  }

  lemma TimelineSplits(s: Settings, blips: seq<Blip>, losses: seq<real>, obs: seq<Observation>) returns (k0: nat)
    requires s.probeInterval > 0.0 && s.outageAt.Some? && IsTimeline(s, blips, losses, obs)
    ensures StrictlyChronological(obs) && OutageStarts(obs, k0, s.outageAt.value)
    ensures forall i | k0 <= i < |obs| :: DuringOutage(s, obs[i].now)
  {
    k0 := FirstProbeOfOutage(s, s.outageAt.value, |obs|);
    forall i, j | 0 <= i < j < |obs| ensures obs[i].now < obs[j].now {
      LaterProbe(s, i, j);
    }
    forall i | k0 <= i < |obs| ensures obs[i].now >= s.outageAt.value {
      LaterProbe(s, k0, i);
    }
  }

  /**
   * Detection bound: with n more probes due once the outage has begun, all of
   * them counted, the outage is reported in less than n probe intervals.
   */
  lemma {:induction false} ConsecutiveDetectsWithin(n: int, silenceIsFailure: bool, s: Settings, blips: seq<Blip>,
                                                    losses: seq<real>,
                                 obs: seq<Observation>)
    requires n >= 1 && s.probeInterval > 0.0 && IsTimeline(s, blips, losses, obs)
    requires s.outageAt.Some? && s.outageAt.value >= 0.0
    requires silenceIsFailure || (!s.silentOutage && forall i | 0 <= i < |losses| :: losses[i] >= s.probeLoss)
    requires n <= |obs| && ProbeTime(s, |obs| - n) >= s.outageAt.value
    ensures var delay := Delay(FiresUpTo(Consecutive(n, silenceIsFailure, 0), obs, |obs|), obs, s.outageAt.value);
            delay.Some? && 0.0 <= delay.value < ProbeTime(s, n)
  {
    var t := Consecutive(n, silenceIsFailure, 0);
    var outageAt := s.outageAt.value;
    var k0 := TimelineSplits(s, blips, losses, obs);
    OutageIsCounted(n, silenceIsFailure, s, blips, losses, obs, k0);
    LaterProbe(s, 0, n);
    assert ProbeTime(s, 0) == 0.0;
    hide *;
    DelayMeaning(t, obs, k0, outageAt);
    ConsecutiveShape(n, silenceIsFailure, obs, k0);
    if Streak(silenceIsFailure, obs, k0) < n {
      var i := FirstFireInOutage(n, silenceIsFailure, obs, k0);
      FiresSoon(n, s, blips, losses, obs, k0, i);
    }
  }

  lemma OutageIsCounted(n: int, silenceIsFailure: bool, s: Settings, blips: seq<Blip>, losses: seq<real>,
                        obs: seq<Observation>, k0: nat)
    requires n >= 1 && s.probeInterval > 0.0 && IsTimeline(s, blips, losses, obs)
    requires s.outageAt.Some? && OutageStarts(obs, k0, s.outageAt.value)
    requires silenceIsFailure || (!s.silentOutage && forall i | 0 <= i < |losses| :: losses[i] >= s.probeLoss)
    requires n <= |obs| && ProbeTime(s, |obs| - n) >= s.outageAt.value
    ensures k0 + n <= |obs|
    ensures forall i | k0 <= i < |obs| :: Counts(silenceIsFailure, obs[i])
  {
    hide ProbeTime, Steps;
    assert obs[|obs| - n].now == ProbeTime(s, |obs| - n);
  }

  lemma FiresSoon(n: int, s: Settings, blips: seq<Blip>, losses: seq<real>, obs: seq<Observation>, k0: nat, i: nat)
    requires n >= 1 && s.probeInterval > 0.0 && IsTimeline(s, blips, losses, obs)
    requires s.outageAt.Some? && s.outageAt.value >= 0.0
    requires OutageStarts(obs, k0, s.outageAt.value) && k0 <= i < |obs| && i < k0 + n
    ensures 0.0 <= obs[i].now - s.outageAt.value < ProbeTime(s, n)
  {
    assert ProbeTime(s, 0) == 0.0;
    assert obs[i].now == ProbeTime(s, i) && (k0 > 0 ==> obs[k0 - 1].now == ProbeTime(s, k0 - 1));
    hide ObservationAt, IsTimeline, Steps, ProbeTime;
    assert ProbeTime(s, 0) <= s.outageAt.value;
    var from := if k0 == 0 then 0 else k0 - 1;
    LaterProbe(s, 0, i - from);
    LaterProbe(s, i - from, n);
    LaterProbe(s, from, i);
  }

  /** Ignoring silence, a region that goes dark while it is trusted is never reported. */
  lemma {:induction false} DarkRegionUnseen(n: int, s: Settings, blips: seq<Blip>, losses: seq<real>,
                                            obs: seq<Observation>, k0: nat)
    requires n >= 1 && s.probeInterval > 0.0 && IsTimeline(s, blips, losses, obs)
    requires s.outageAt.Some? && s.silentOutage && OutageStarts(obs, k0, s.outageAt.value)
    ensures Delay(FiresUpTo(Consecutive(n, false, 0), obs, |obs|), obs, s.outageAt.value)
            == if Streak(false, obs, k0) >= n then Some(0.0) else None
  {
    var t := Consecutive(n, false, 0);
    var _ := TimelineSplits(s, blips, losses, obs);
    forall i | k0 <= i < |obs| ensures !Fired(t, obs, i) {
      ConsecutiveFiresAt(n, false, obs, i);
    }
    ConsecutiveShape(n, false, obs, k0);
    DelayMeaning(t, obs, k0, s.outageAt.value);
    hide *;
  }
}
