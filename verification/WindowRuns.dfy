/**
 * The window trigger over a whole simulation: when it fires, and what it makes
 * of an outage that goes dark or is counted.
 */
module WindowRuns {
  import opened Prelude
  import opened Triggers
  import opened Scenario
  import opened Simulate

  /** At probe `k` some check of the whole record lies in the window, and none of those is healthy. */
  ghost predicate Down(window: real, silenceIsFailure: bool, obs: seq<Observation>, k: nat)
    requires k < |obs|
  {
    NothingHealthySince(History(silenceIsFailure, obs[..k + 1]), obs[k].now - window)
  }

  // ------------------------------------------------------- the whole record

  lemma {:induction false} HistoryAppend(silenceIsFailure: bool, xs: seq<Observation>, ys: seq<Observation>)
    ensures History(silenceIsFailure, xs + ys) == History(silenceIsFailure, xs) + History(silenceIsFailure, ys)
  {
    hide Recorded;
    if ys == [] {
      assert xs + ys == xs;
    } else {
      var n := |ys| - 1;
      assert (xs + ys)[..|xs| + n] == xs + ys[..n];
      HistoryAppend(silenceIsFailure, xs, ys[..n]);
    }
  }

  /** What a restart at a healthy probe forgets could not have mattered. */
  lemma RestartForgetsNothing(silenceIsFailure: bool, obs: seq<Observation>, r: nat, start: real)
    requires Chronological(obs) && r < |obs| && (r == 0 || IsHealthy(obs[r]))
    ensures NothingHealthySince(History(silenceIsFailure, obs), start)
            <==> NothingHealthySince(History(silenceIsFailure, obs[r..]), start)
  {
    if r == 0 {
      assert obs[0..] == obs;
    } else {
      var old_, new_ := History(silenceIsFailure, obs[..r]), History(silenceIsFailure, obs[r..]);
      assert obs == obs[..r] + obs[r..];
      HistoryAppend(silenceIsFailure, obs[..r], obs[r..]);
      HistoryOrdered(silenceIsFailure, obs[..r]);
      assert obs[..r][r - 1] == obs[r - 1] && obs[r..][0] == obs[r];
      HealthyIsRecorded(silenceIsFailure, obs[r..], 0);
      hide History, IsHealthy;
      assert forall c | c in old_ :: c.now <= obs[r].now;
      assert Check(obs[r].now, true) in new_;
      hide Chronological;
    }
  }

  /** A fire of the simulation, or its continued silence, in terms of the whole record. */
  lemma WindowStep(window: real, silenceIsFailure: bool, obs: seq<Observation>, k: nat)
    requires Chronological(obs) && k < |obs|
    ensures var t := Window(window, silenceIsFailure, []);
            var quiet := SimAt(t, obs, k).failedOver && !IsHealthy(obs[k]);
            && (Fired(t, obs, k) <==> !quiet && Down(window, silenceIsFailure, obs, k))
            && (SimAt(t, obs, k + 1).failedOver <==> quiet || Down(window, silenceIsFailure, obs, k))
  {
    var t := Window(window, silenceIsFailure, []);
    if !(SimAt(t, obs, k).failedOver && !IsHealthy(obs[k])) {
      var r := AwakeSince(t, obs, k);
      AwakeFires(window, silenceIsFailure, obs, r, k);
    }
    hide ObserveStep, ResetState, Down;
  }

  lemma AwakeFires(window: real, silenceIsFailure: bool, obs: seq<Observation>, r: nat, k: nat)
    requires Chronological(obs) && r <= k < |obs| && (r == 0 || IsHealthy(obs[r]))
    ensures ObserveStep(ObserveAll(Window(window, silenceIsFailure, []), obs[r..k]), obs[k]).1
            <==> Down(window, silenceIsFailure, obs, k)
  {
    hide ObserveStep, ObserveAll, History, NothingHealthySince, Chronological, IsHealthy;
    Slices(obs, r, k);
    ChronologicalSlice(obs, r, k + 1);
    ChronologicalSlice(obs, 0, k + 1);
    WindowFiresIff(window, silenceIsFailure, obs[r..k + 1]);
    RestartForgetsNothing(silenceIsFailure, obs[..k + 1], r, obs[k].now - window);
  }

  lemma Slices(obs: seq<Observation>, r: nat, k: nat)
    requires r <= k < |obs|
    ensures var since := obs[r..k + 1]; since[..|since| - 1] == obs[r..k] && since[|since| - 1] == obs[k]
    ensures var all := obs[..k + 1]; obs[0..k + 1] == all && all[r..] == obs[r..k + 1] && all[r] == obs[r]
  {
  }

  /** A healthy probe is never down: its own check is in the window, or nothing is. */
  lemma HealthyNotDown(window: real, silenceIsFailure: bool, obs: seq<Observation>, k: nat)
    requires Chronological(obs) && k < |obs| && IsHealthy(obs[k])
    ensures !Down(window, silenceIsFailure, obs, k)
  {
    var all := obs[..k + 1];
    ChronologicalSlice(obs, 0, k + 1);
    assert obs[0..k + 1] == all && all[k] == obs[k];
    HealthyIsRecorded(silenceIsFailure, all, k);
    HistoryOrdered(silenceIsFailure, all);
    hide History, Chronological, Ordered;
  }

  /** Failed over exactly when the region was down at some probe with no healthy one since. */
  lemma {:induction false} WindowFailedOver(window: real, silenceIsFailure: bool, obs: seq<Observation>, k: nat)
    requires Chronological(obs) && k <= |obs|
    ensures SimAt(Window(window, silenceIsFailure, []), obs, k).failedOver
            <==> exists j :: 0 <= j < k && Down(window, silenceIsFailure, obs, j)
                             && forall h | j < h < k :: !IsHealthy(obs[h])
  {
    hide SimAt, Down, IsHealthy, Chronological;
    if k == 0 {
      NotYet(Window(window, silenceIsFailure, []), obs);
    } else {
      WindowFailedOver(window, silenceIsFailure, obs, k - 1);
      WindowStep(window, silenceIsFailure, obs, k - 1);
      if IsHealthy(obs[k - 1]) {
        HealthyNotDown(window, silenceIsFailure, obs, k - 1);
      }
    }
  }

  lemma NotYet(t: TriggerState, obs: seq<Observation>)
    ensures !SimAt(t, obs, 0).failedOver
  {
  }

  /**
   * When the window trigger fires in a simulation, said of the record alone: at
   * each probe that finds the region down for the first time since it was last
   * healthy.
   */
  lemma {:induction false} WindowFiresAt(window: real, silenceIsFailure: bool, obs: seq<Observation>, k: nat)
    requires Chronological(obs) && k < |obs|
    ensures Fired(Window(window, silenceIsFailure, []), obs, k)
            <==> && Down(window, silenceIsFailure, obs, k)
                 && !exists j :: 0 <= j < k && Down(window, silenceIsFailure, obs, j)
                                 && forall h | j < h < k :: !IsHealthy(obs[h])
  {
    WindowStep(window, silenceIsFailure, obs, k);
    WindowFailedOver(window, silenceIsFailure, obs, k);
    if IsHealthy(obs[k]) {
      HealthyNotDown(window, silenceIsFailure, obs, k);
    }
    hide Fired, SimAt, Down, Chronological;
  }

  // ------------------------------------------------- down, in terms of probes

  /** The checks of a record are its healthy probes and its counted ones, at their times. */
  lemma {:induction false} ChecksAreProbes(silenceIsFailure: bool, obs: seq<Observation>, c: Check)
    ensures c in History(silenceIsFailure, obs)
            <==> exists j :: 0 <= j < |obs| && c in Recorded(silenceIsFailure, obs[j])
  {
    if obs != [] {
      var n := |obs| - 1;
      ChecksAreProbes(silenceIsFailure, obs[..n], c);
      hide Recorded;
      assert forall j | 0 <= j < n :: obs[..n][j] == obs[j];
    }
  }

  predicate InWindow(window: real, obs: seq<Observation>, j: nat, k: nat)
    requires j < |obs| && k < |obs|
  {
    obs[j].now >= obs[k].now - window
  }

  lemma WhatIsRecorded(silenceIsFailure: bool, o: Observation)
    ensures IsHealthy(o) ==> Check(o.now, true) in Recorded(silenceIsFailure, o)
    ensures Counts(silenceIsFailure, o) ==> !IsHealthy(o) && Check(o.now, false) in Recorded(silenceIsFailure, o)
    ensures forall c | c in Recorded(silenceIsFailure, o) ::
              c.now == o.now && (c.ok <==> IsHealthy(o)) && (!c.ok ==> Counts(silenceIsFailure, o))
  {
  }

  /** Down, read off the probes: none in the window is healthy, and some is counted. */
  lemma DownMeans(window: real, silenceIsFailure: bool, obs: seq<Observation>, k: nat)
    requires k < |obs|
    ensures Down(window, silenceIsFailure, obs, k)
            <==> && (exists j: nat :: j <= k && InWindow(window, obs, j, k) && Counts(silenceIsFailure, obs[j]))
                 && (forall j: nat | j <= k && InWindow(window, obs, j, k) :: !IsHealthy(obs[j]))
  {
    var all := obs[..k + 1];
    var start := obs[k].now - window;
    assert forall j | 0 <= j <= k :: all[j] == obs[j];
    forall c ensures c in History(silenceIsFailure, all)
                     <==> exists j :: 0 <= j < |all| && c in Recorded(silenceIsFailure, all[j]) {
      ChecksAreProbes(silenceIsFailure, all, c);
    }
    hide History, Recorded, Counts, IsHealthy;
    if Down(window, silenceIsFailure, obs, k) {
      forall j: nat | j <= k && InWindow(window, obs, j, k) ensures !IsHealthy(obs[j]) {
        WhatIsRecorded(silenceIsFailure, all[j]);
      }
      var c :| c in History(silenceIsFailure, all) && c.now >= start;
      var j :| 0 <= j < |all| && c in Recorded(silenceIsFailure, all[j]);
      WhatIsRecorded(silenceIsFailure, all[j]);
      assert InWindow(window, obs, j, k) && !IsHealthy(obs[j]) && Counts(silenceIsFailure, obs[j]);
    }
    if j: nat :| j <= k && InWindow(window, obs, j, k) && Counts(silenceIsFailure, obs[j]) {
      WhatIsRecorded(silenceIsFailure, all[j]);
    }
  }

  // --------------------------------------------------------- detection delay

  lemma StrictIsChronological(obs: seq<Observation>)
    requires StrictlyChronological(obs)
    ensures Chronological(obs)
  {
  }

  /** Probes that never arrive leave the record as it was. */
  lemma {:induction false} SilenceRecordsNothing(obs: seq<Observation>, k0: nat, k: nat)
    requires k0 <= k <= |obs| && forall i | k0 <= i < k :: obs[i].healthy.None?
    ensures History(false, obs[..k]) == History(false, obs[..k0])
  {
    if k0 < k {
      SilenceRecordsNothing(obs, k0, k - 1);
      assert obs[..k][..k - 1] == obs[..k - 1];
      assert History(false, obs[..k - 1]) + [] == History(false, obs[..k - 1]);
    }
  }

  /** The first fire from probe `k0` on, given that the region is down at some probe `i1` from there. */
  lemma {:induction false} FirstFireBy(window: real, silenceIsFailure: bool, obs: seq<Observation>, k0: nat, i1: nat)
    returns (i: nat)
    requires Chronological(obs) && k0 <= i1 < |obs| && Down(window, silenceIsFailure, obs, i1)
    requires !SimAt(Window(window, silenceIsFailure, []), obs, k0).failedOver
    ensures i <= i1 && FirstFire(Window(window, silenceIsFailure, []), obs, k0, i)
    ensures forall j | k0 <= j < i :: !Down(window, silenceIsFailure, obs, j)
    decreases i1 - k0
  {
    hide SimAt, Fired, Down, Chronological;
    WindowStep(window, silenceIsFailure, obs, k0);
    if Down(window, silenceIsFailure, obs, k0) {
      i := k0;
    } else {
      i := FirstFireBy(window, silenceIsFailure, obs, k0 + 1, i1);
    }
  }

  /** Some fire from `k0` on needs the region down at that probe. */
  lemma FiresOnlyDown(window: real, silenceIsFailure: bool, obs: seq<Observation>, k: nat)
    requires Chronological(obs) && k < |obs| && Fired(Window(window, silenceIsFailure, []), obs, k)
    ensures Down(window, silenceIsFailure, obs, k)
  {
    WindowStep(window, silenceIsFailure, obs, k);
    hide Fired, SimAt, Down;
  }

  /**
   * The checks on record when the outage began, as probe `i` still sees them:
   * some in the window, none of them healthy.
   */
  ghost predicate StillDown(window: real, obs: seq<Observation>, k0: nat, i: nat)
    requires k0 <= |obs| && i < |obs|
  {
    NothingHealthySince(History(false, obs[..k0]), obs[i].now - window)
  }

  ghost predicate FirstStillDown(window: real, obs: seq<Observation>, k0: nat, i: nat) {
    k0 <= i < |obs| && StillDown(window, obs, k0, i) && forall j: nat | k0 <= j < i :: !StillDown(window, obs, k0, j)
  }

  /** The delay runs to the first probe that still finds the record down, and is missing exactly if none does. */
  ghost predicate DarkReport(window: real, obs: seq<Observation>, k0: nat, outageAt: real, delay: Option<real>)
    requires k0 <= |obs|
  {
    && (delay.Some? <==> exists i: nat :: k0 <= i < |obs| && StillDown(window, obs, k0, i))
    && (forall i: nat | FirstStillDown(window, obs, k0, i) :: delay == Some(obs[i].now - outageAt))
  }

  /** In the dark, what decides a probe is the record of before the outage. */
  lemma DarkFires(window: real, obs: seq<Observation>, k0: nat, i: nat)
    requires Chronological(obs) && k0 <= i < |obs| && forall h | k0 <= h < |obs| :: obs[h].healthy.None?
    requires !SimAt(Window(window, false, []), obs, k0).failedOver
    ensures FirstStillDown(window, obs, k0, i) <==> FirstFire(Window(window, false, []), obs, k0, i)
  {
    var t := Window(window, false, []);
    forall h: nat | k0 <= h < |obs| ensures Down(window, false, obs, h) <==> StillDown(window, obs, k0, h) {
      SilenceRecordsNothing(obs, k0, h + 1);
    }
    hide SimAt, Fired, Down, StillDown, Chronological;
    if FirstStillDown(window, obs, k0, i) {
      var f := FirstFireBy(window, false, obs, k0, i);
      FiresOnlyDown(window, false, obs, f);
    }
    if FirstFire(t, obs, k0, i) {
      FiresOnlyDown(window, false, obs, i);
      var f := FirstFireBy(window, false, obs, k0, i);
    }
  }

  /** The first probe at which the record is still down, if there is any. */
  lemma {:induction false} FirstStillDownBy(window: real, obs: seq<Observation>, k0: nat, i: nat) returns (f: nat)
    requires k0 <= i < |obs| && StillDown(window, obs, k0, i)
    ensures f <= i && FirstStillDown(window, obs, k0, f)
  {
    hide StillDown;
    f := i;
    if j: nat :| k0 <= j < i && StillDown(window, obs, k0, j) {
      f := FirstStillDownBy(window, obs, k0, j);
    }
  }

  /**
   * A window trigger that ignores silence, in an outage that goes dark: it
   * reports at the first probe by which the last healthy check has left the
   * window while an unhealthy one is still in it, and if there is no such probe
   * it never does, unless the region was already failed over.
   */
  lemma {:induction false} WindowInDarkRegion(window: real, s: Settings, blips: seq<Blip>, losses: seq<real>,
                                              obs: seq<Observation>, k0: nat)
    requires s.probeInterval > 0.0 && IsTimeline(s, blips, losses, obs)
    requires s.outageAt.Some? && s.silentOutage && OutageStarts(obs, k0, s.outageAt.value)
    ensures var t := Window(window, false, []);
            var delay := Delay(FiresUpTo(t, obs, |obs|), obs, s.outageAt.value);
            && (SimAt(t, obs, k0).failedOver ==> delay == Some(0.0))
            && (!SimAt(t, obs, k0).failedOver ==> DarkReport(window, obs, k0, s.outageAt.value, delay))
  {
    var t := Window(window, false, []);
    DarkProbes(s, blips, losses, obs, k0);
    var delay := Delay(FiresUpTo(t, obs, |obs|), obs, s.outageAt.value);
    hide *;
    StrictIsChronological(obs);
    DelayMeaning(t, obs, k0, s.outageAt.value);
    if !SimAt(t, obs, k0).failedOver {
      DarkDelay(window, obs, k0, s.outageAt.value, delay);
    }
  }

  lemma DarkProbes(s: Settings, blips: seq<Blip>, losses: seq<real>, obs: seq<Observation>, k0: nat)
    requires s.probeInterval > 0.0 && IsTimeline(s, blips, losses, obs)
    requires s.outageAt.Some? && s.silentOutage && OutageStarts(obs, k0, s.outageAt.value)
    ensures StrictlyChronological(obs) && k0 <= |obs|
    ensures forall i | k0 <= i < |obs| :: obs[i].healthy.None?
  {
    var _ := TimelineSplits(s, blips, losses, obs);
    hide StrictlyChronological;
    forall i | k0 <= i < |obs| ensures obs[i].healthy.None? {
      assert obs[i].now >= s.outageAt.value;
    }
  }

  lemma DarkDelay(window: real, obs: seq<Observation>, k0: nat, outageAt: real, delay: Option<real>)
    requires Chronological(obs) && k0 <= |obs| && forall h | k0 <= h < |obs| :: obs[h].healthy.None?
    requires !SimAt(Window(window, false, []), obs, k0).failedOver
    requires RunsToFirstFire(Window(window, false, []), obs, k0, outageAt, delay)
    ensures DarkReport(window, obs, k0, outageAt, delay)
  {
    var t := Window(window, false, []);
    hide SimAt, Fired, Down, StillDown, Chronological;
    forall i: nat | FirstStillDown(window, obs, k0, i) ensures delay == Some(obs[i].now - outageAt) {
      DarkFires(window, obs, k0, i);
    }
    if i: nat :| k0 <= i < |obs| && StillDown(window, obs, k0, i) {
      var f := FirstStillDownBy(window, obs, k0, i);
    } else {
      forall i: nat | k0 <= i < |obs| ensures !Fired(t, obs, i) {
        if Fired(t, obs, i) {
          FiresOnlyDown(window, false, obs, i);
          SilenceRecordsNothing(obs, k0, i + 1);
          DownInTheDark(window, obs, k0, i);
        }
      }
    }
  }

  lemma DownInTheDark(window: real, obs: seq<Observation>, k0: nat, i: nat)
    requires k0 <= i < |obs| && History(false, obs[..i + 1]) == History(false, obs[..k0])
    ensures Down(window, false, obs, i) <==> StillDown(window, obs, k0, i)
  {
  }

  /** Silence is read as health: if the last probe before a dark outage was healthy, it is never reported. */
  lemma {:induction false} SilenceReadAsHealth(window: real, s: Settings, blips: seq<Blip>, losses: seq<real>,
                                               obs: seq<Observation>, k0: nat)
    requires s.probeInterval > 0.0 && IsTimeline(s, blips, losses, obs)
    requires s.outageAt.Some? && s.silentOutage && OutageStarts(obs, k0, s.outageAt.value)
    requires k0 > 0 && IsHealthy(obs[k0 - 1])
    ensures Delay(FiresUpTo(Window(window, false, []), obs, |obs|), obs, s.outageAt.value) == None
  {
    var _ := TimelineSplits(s, blips, losses, obs);
    StrictIsChronological(obs);
    WindowStep(window, false, obs, k0 - 1);
    HealthyNotDown(window, false, obs, k0 - 1);
    forall i: nat | k0 <= i < |obs| ensures !StillDown(window, obs, k0, i) {
      LastHealthyStays(window, obs, k0, i);
    }
    hide SimAt, Fired, Down, StillDown, Delay, FiresUpTo, IsTimeline, OutageStarts, Chronological,
         StrictlyChronological;
    WindowInDarkRegion(window, s, blips, losses, obs, k0);
  }

  lemma LastHealthyStays(window: real, obs: seq<Observation>, k0: nat, i: nat)
    requires Chronological(obs) && 0 < k0 <= i < |obs| && IsHealthy(obs[k0 - 1])
    ensures !StillDown(window, obs, k0, i)
  {
    ChronologicalSlice(obs, 0, k0);
    assert obs[0..k0] == obs[..k0] && obs[..k0][k0 - 1] == obs[k0 - 1];
    HealthyIsRecorded(false, obs[..k0], k0 - 1);
    HistoryOrdered(false, obs[..k0]);
    hide History, Ordered, Chronological, IsHealthy;
  }

  /**
   * Detection bound for the window trigger: with a probe due once the window
   * has passed since the outage began, and every probe of the outage counted,
   * the outage is reported in less than the window plus one probe interval.
   */
  lemma {:induction false} WindowDetectsWithin(window: real, silenceIsFailure: bool, s: Settings, blips: seq<Blip>,
                                               losses: seq<real>, obs: seq<Observation>)
    requires window >= 0.0 && s.probeInterval > 0.0 && IsTimeline(s, blips, losses, obs)
    requires s.outageAt.Some? && s.outageAt.value >= 0.0
    requires silenceIsFailure || (!s.silentOutage && forall i | 0 <= i < |losses| :: losses[i] >= s.probeLoss)
    requires obs != [] && ProbeTime(s, |obs| - 1) >= s.outageAt.value + window
    ensures var delay := Delay(FiresUpTo(Window(window, silenceIsFailure, []), obs, |obs|), obs, s.outageAt.value);
            delay.Some? && 0.0 <= delay.value < window + s.probeInterval
  {
    var t := Window(window, silenceIsFailure, []);
    var outageAt := s.outageAt.value;
    var k0 := TimelineSplits(s, blips, losses, obs);
    StrictIsChronological(obs);
    OutageIsCounted(1, silenceIsFailure, s, blips, losses, obs, k0);
    var i1 := ProbePastWindow(window, s, blips, losses, obs);
    OutageFillsWindow(window, silenceIsFailure, obs, k0, i1, outageAt);
    DelayMeaning(t, obs, k0, outageAt);
    assert forall i: nat | FirstFire(t, obs, k0, i) && i <= i1 :: outageAt <= obs[i].now <= obs[i1].now;
    hide SimAt, Fired, Down, Delay, FiresUpTo, IsTimeline, OutageStarts, StrictlyChronological, Chronological,
         ProbeTime;
    if !SimAt(t, obs, k0).failedOver {
      var i := FirstFireBy(window, silenceIsFailure, obs, k0, i1);
    }
  }

  /** The first probe due once the window has passed, less than one interval late. */
  lemma ProbePastWindow(window: real, s: Settings, blips: seq<Blip>, losses: seq<real>, obs: seq<Observation>)
    returns (i: nat)
    requires window >= 0.0 && s.probeInterval > 0.0 && IsTimeline(s, blips, losses, obs)
    requires s.outageAt.Some? && s.outageAt.value >= 0.0
    requires obs != [] && ProbeTime(s, |obs| - 1) >= s.outageAt.value + window
    ensures i < |obs| && s.outageAt.value + window <= obs[i].now < s.outageAt.value + window + s.probeInterval
  {
    var past := s.outageAt.value + window;
    i := FirstProbeOfOutage(s, past, |obs|);
    if i > 0 {
      LaterProbe(s, i - 1, i);
      assert ProbeTime(s, 1) == s.probeInterval;
    } else {
      assert ProbeTime(s, 0) == 0.0;
    }
  }

  /** Once the window has passed, it holds nothing but the outage. */
  lemma OutageFillsWindow(window: real, silenceIsFailure: bool, obs: seq<Observation>, k0: nat, i: nat, outageAt: real)
    requires window >= 0.0 && OutageStarts(obs, k0, outageAt) && k0 <= |obs| && i < |obs|
    requires forall h | k0 <= h < |obs| :: Counts(silenceIsFailure, obs[h])
    requires obs[i].now >= outageAt + window
    ensures k0 <= i && Down(window, silenceIsFailure, obs, i)
  {
    DownMeans(window, silenceIsFailure, obs, i);
    assert InWindow(window, obs, i, i);
    hide Down;
  }
}
