/**
 * Simulated probe results: healthy except in blips and outages. The random draws are inputs:
 * `gaps` and `lengths` for the blips, `losses` for the probes that go missing.
 */
module Scenario {
  import opened Prelude
  import opened Triggers

  datatype Settings = Settings(
    duration: real,
    probeInterval: real,
    blipsPerHour: real,
    outageAt: Option<real>,
    silentOutage: bool,
    probeLoss: real
  )

  /** An unhealthy interval, closed at its start and open at its end. */
  datatype Blip = Blip(start: real, end: real)

  ghost predicate StartsInOrder(blips: seq<Blip>) {
    forall i, j | 0 <= i <= j < |blips| :: blips[i].start <= blips[j].start
  }

  ghost predicate InBlip(blips: seq<Blip>, t: real) {
    exists i :: 0 <= i < |blips| && blips[i].start <= t < blips[i].end
  }

  /** The instants at which a blip would start: running totals of the gaps drawn. */
  function Arrival(gaps: seq<real>, i: nat): real
    requires i < |gaps|
  {
    SumReal(gaps[..i + 1])
  }

  ghost predicate Nonnegative(xs: seq<real>) {
    forall i | 0 <= i < |xs| :: xs[i] >= 0.0
  }

  lemma ArrivalNext(gaps: seq<real>, i: nat)
    requires i + 1 < |gaps|
    ensures Arrival(gaps, i + 1) == Arrival(gaps, i) + gaps[i + 1]
  {
    TakeOneMore(gaps, i + 1);
    SumRealSnoc(gaps[..i + 1], gaps[i + 1]);
  }

  /**
   * Blips arrive at the running totals of the gaps, each before `duration`, and
   * the list stops at the first arrival that is not.
   */
  method Blips(s: Settings, gaps: seq<real>, lengths: seq<real>) returns (blips: seq<Blip>)
    requires gaps != [] && Nonnegative(gaps) && Nonnegative(lengths)
    requires |lengths| == |gaps| && Arrival(gaps, |gaps| - 1) >= s.duration
    ensures StartsInOrder(blips)
    ensures s.blipsPerHour <= 0.0 ==> blips == []
    ensures s.blipsPerHour > 0.0 ==> |blips| < |gaps| && Arrival(gaps, |blips|) >= s.duration
    ensures forall i | 0 <= i < |blips| ::
              && blips[i] == Blip(Arrival(gaps, i), Arrival(gaps, i) + lengths[i])
              && blips[i].start < s.duration
  {
    blips := [];
    if s.blipsPerHour <= 0.0 {
      return;
    }
    var t := gaps[0];
    assert gaps[..1] == [] + [gaps[0]];
    SumRealSnoc([], gaps[0]);
    while t < s.duration
      invariant |blips| < |gaps| && t == Arrival(gaps, |blips|)
      invariant StartsInOrder(blips)
      invariant forall i | 0 <= i < |blips| ::
                  && blips[i] == Blip(Arrival(gaps, i), Arrival(gaps, i) + lengths[i])
                  && blips[i].start < s.duration && blips[i].start <= t
      decreases |gaps| - |blips|
    {
      ArrivalNext(gaps, |blips|);
      blips := blips + [Blip(t, t + lengths[|blips|])];
      t := t + gaps[|blips|];
    }
  }

  /** How many probes are due: the whole intervals in the duration, none if it is negative. */
  function Steps(s: Settings): nat
    requires s.probeInterval > 0.0
  {
    var whole := (s.duration / s.probeInterval).Floor;
    if whole < 0 then 0 else whole
  }

  function ProbeTime(s: Settings, step: int): real {
    step as real * s.probeInterval
  }

  predicate DuringOutage(s: Settings, t: real) {
    s.outageAt.Some? && t >= s.outageAt.value
  }

  /** What the probe at time `t` reports, said without any sweep over the blips. */
  ghost function ObservationAt(s: Settings, blips: seq<Blip>, lost: bool, t: real): Observation {
    Observation(t,
      if lost || (DuringOutage(s, t) && s.silentOutage) then None
      else Some(!DuringOutage(s, t) && !InBlip(blips, t)))
  }

  lemma LaterProbe(s: Settings, i: int, j: int)
    requires s.probeInterval > 0.0 && i <= j
    ensures ProbeTime(s, i) <= ProbeTime(s, j)
    ensures ProbeTime(s, j) == ProbeTime(s, i) + ProbeTime(s, j - i)
    ensures i < j ==> ProbeTime(s, i) < ProbeTime(s, j)
  {
  }

  /** The single pointer that sweeps the blips sees every blip that covers a probe. */
  method Timeline(s: Settings, blips: seq<Blip>, losses: seq<real>) returns (observations: seq<Observation>)
    requires s.probeInterval > 0.0 && StartsInOrder(blips) && |losses| == Steps(s)
    ensures |observations| == Steps(s)
    ensures forall i | 0 <= i < Steps(s) ::
              observations[i] == ObservationAt(s, blips, losses[i] < s.probeLoss, ProbeTime(s, i))
  {
    observations := [];
    var blipIndex := 0;
    for step := 0 to Steps(s)
      invariant |observations| == step
      invariant forall i | 0 <= i < step ::
                  observations[i] == ObservationAt(s, blips, losses[i] < s.probeLoss, ProbeTime(s, i))
      invariant 0 <= blipIndex <= |blips|
      invariant forall j | 0 <= j < blipIndex :: blips[j].end <= ProbeTime(s, step)
    {
      var t := ProbeTime(s, step);
      var lost := losses[step] < s.probeLoss;
      LaterProbe(s, step, step + 1);
      if DuringOutage(s, t) {
        observations := observations + [Observation(t, if s.silentOutage || lost then None else Some(false))];
      } else {
        while blipIndex < |blips| && blips[blipIndex].end <= t
          invariant 0 <= blipIndex <= |blips|
          invariant forall j | 0 <= j < blipIndex :: blips[j].end <= t
        {
          blipIndex := blipIndex + 1;
        }
        var inBlip := blipIndex < |blips| && blips[blipIndex].start <= t;
        assert inBlip <==> InBlip(blips, t) by {
          SweepFinds(blips, blipIndex, t);
        }
        observations := observations + [Observation(t, if lost then None else Some(!inBlip))];
      }
    }
  }

  /** Only the first blip that has not ended needs looking at. */
  lemma SweepFinds(blips: seq<Blip>, first: nat, t: real)
    requires StartsInOrder(blips) && first <= |blips|
    requires forall j | 0 <= j < first :: blips[j].end <= t
    requires first < |blips| ==> blips[first].end > t
    ensures InBlip(blips, t) <==> first < |blips| && blips[first].start <= t
  {
  }

  /** When a probe arrives, and when it is healthy: the edges of outages and blips included. */
  lemma {:induction false} ProbeReports(s: Settings, blips: seq<Blip>, lost: bool, t: real)
    ensures var o := ObservationAt(s, blips, lost, t);
            && o.now == t
            && (o.healthy == None <==> lost || (s.silentOutage && s.outageAt.Some? && s.outageAt.value <= t))
            && (o.healthy == Some(true) <==>
                  && !lost && !(s.outageAt.Some? && s.outageAt.value <= t)
                  && forall i | 0 <= i < |blips| :: t < blips[i].start || blips[i].end <= t)
  {
  }

  /** Probes are due every interval from 0 on, for as many whole intervals as the duration holds. */
  lemma {:induction false} StepsMeans(s: Settings)
    requires s.probeInterval > 0.0
    ensures s.duration >= 0.0 ==>
              Steps(s) as real * s.probeInterval <= s.duration < (Steps(s) + 1) as real * s.probeInterval
    ensures s.duration < 0.0 ==> Steps(s) == 0
    ensures forall i: int :: ProbeTime(s, i) == i as real * s.probeInterval
  {
    WholeIntervals(s.duration, s.probeInterval);
  }

  lemma WholeIntervals(x: real, k: real)
    requires k > 0.0
    ensures var n := (x / k).Floor; n as real * k <= x < (n + 1) as real * k
    ensures x >= 0.0 <==> (x / k).Floor >= 0
  {
    var q := x / k;
    assert q * k == x;
    Scaled(q.Floor as real, q, k);
    var m := (q.Floor + 1) as real;
    assert q < m;
    Scaled(q, m, k);
    assert x < m * k;
    assert m * k == ((x / k).Floor + 1) as real * k;
    assert x >= 0.0 ==> q >= 0.0;
    assert x < 0.0 ==> q < 0.0;
  }

  lemma Scaled(x: real, y: real, k: real)
    requires x <= y && k > 0.0
    ensures x * k <= y * k && (x < y ==> x * k < y * k)
  {
    assert (y - x) * k >= 0.0;
    assert x < y ==> (y - x) * k > 0.0;
  }
}
