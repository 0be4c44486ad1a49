/**
 * Failover triggers, as objects and as values: one step per probe, which says
 * whether to fail over now. `None` stands for a missing probe.
 */
module Triggers {
  import opened Prelude

  datatype Observation = Observation(now: real, healthy: Option<bool>)

  datatype Check = Check(now: real, ok: bool)

  /** A trigger's configuration and memory, as a value. */
  datatype TriggerState =
    | Window(window: real, silenceIsFailure: bool, checks: seq<Check>)
    | Consecutive(n: int, silenceIsFailure: bool, failures: int)

  predicate IsHealthy(o: Observation) { o.healthy == Some(true) }

  /** The probe counts as a failure: unhealthy, or missing under the silence rule. */
  predicate Counts(silenceIsFailure: bool, o: Observation) {
    o.healthy == Some(false) || (o.healthy.None? && silenceIsFailure)
  }

  function Evict(checks: seq<Check>, start: real): seq<Check> {
    if checks != [] && checks[0].now < start then Evict(checks[1..], start) else checks
  }

  predicate AllUnhealthy(checks: seq<Check>) {
    forall i | 0 <= i < |checks| :: !checks[i].ok
  }

  /** What one probe adds to the record: nothing, or one check. */
  function Recorded(silenceIsFailure: bool, o: Observation): seq<Check> {
    if IsHealthy(o) then [Check(o.now, true)]
    else if Counts(silenceIsFailure, o) then [Check(o.now, false)]
    else []
  }

  function ObserveStep(t: TriggerState, o: Observation): (TriggerState, bool) {
    match t
    case Window(window, silenceIsFailure, checks) =>
      var kept := Evict(checks + Recorded(silenceIsFailure, o), o.now - window);
      (t.(checks := kept), kept != [] && AllUnhealthy(kept))
    case Consecutive(n, silenceIsFailure, failures) =>
      if !IsHealthy(o) && !Counts(silenceIsFailure, o) then (t, false)
      else
        var failures' := if IsHealthy(o) then 0 else failures + 1;
        (t.(failures := failures'), failures' >= n)
  }

  function ResetState(t: TriggerState): TriggerState {
    match t
    case Window(_, _, _) => t.(checks := [])
    case Consecutive(_, _, _) => t.(failures := 0)
  }

  // --------------------------------------------------- the objects themselves

  class WindowAllUnhealthy {
    const window: real
    const silenceIsFailure: bool
    var checks: seq<Check>

    function View(): TriggerState
      reads this
    {
      Window(window, silenceIsFailure, checks)
    }

    constructor (window: real, silenceIsFailure: bool)
      ensures View() == Window(window, silenceIsFailure, [])
    {
      this.window, this.silenceIsFailure, checks := window, silenceIsFailure, [];
    }

    method Observe(o: Observation) returns (fires: bool)
      modifies this
      ensures (View(), fires) == ObserveStep(old(View()), o)
    {
      var healthy := false;
      if o.healthy.None? {
        if !silenceIsFailure {
          assert checks + [] == checks;
          fires := Evaluate(o.now);
          return;
        }
      } else {
        healthy := o.healthy.value;
      }
      checks := checks + [Check(o.now, healthy)];
      fires := Evaluate(o.now);
    }

    /** Drops checks older than the window from the front, then looks at what is left. */
    method Evaluate(now: real) returns (fires: bool)
      modifies this
      ensures checks == Evict(old(checks), now - window)
      ensures fires == (checks != [] && AllUnhealthy(checks))
    {
      var windowStart := now - window;
      while checks != [] && checks[0].now < windowStart
        invariant Evict(checks, windowStart) == Evict(old(checks), windowStart)
        decreases |checks|
      {
        checks := checks[1..];
      }
      fires := checks != [] && AllUnhealthy(checks);
    }

    method Reset()
      modifies this
      ensures View() == ResetState(old(View()))
    {
      checks := [];
    }
  }

  class ConsecutiveFailures {
    const n: int
    const silenceIsFailure: bool
    var failures: int

    function View(): TriggerState
      reads this
    {
      Consecutive(n, silenceIsFailure, failures)
    }

    constructor (n: int, silenceIsFailure: bool)
      ensures View() == Consecutive(n, silenceIsFailure, 0)
    {
      this.n, this.silenceIsFailure, failures := n, silenceIsFailure, 0;
    }

    method Observe(o: Observation) returns (fires: bool)
      modifies this
      ensures (View(), fires) == ObserveStep(old(View()), o)
    {
      var healthy := false;
      if o.healthy.None? {
        if !silenceIsFailure {
          return false;
        }
      } else {
        healthy := o.healthy.value;
      }
      failures := if healthy then 0 else failures + 1;
      fires := failures >= n;
    }

    method Reset()
      modifies this
      ensures View() == ResetState(old(View()))
    {
      failures := 0;
    }
  }

  // --------------------------------------- the deque against the whole history

  /** Everything recorded by a run of observations, nothing ever evicted. */
  function History(silenceIsFailure: bool, obs: seq<Observation>): seq<Check> {
    if obs == [] then []
    else History(silenceIsFailure, obs[..|obs| - 1]) + Recorded(silenceIsFailure, obs[|obs| - 1])
  }

  function ObserveAll(t: TriggerState, obs: seq<Observation>): TriggerState {
    if obs == [] then t else ObserveStep(ObserveAll(t, obs[..|obs| - 1]), obs[|obs| - 1]).0
  }

  ghost predicate Chronological(obs: seq<Observation>) {
    forall i, j | 0 <= i <= j < |obs| :: obs[i].now <= obs[j].now
  }

  ghost predicate Ordered(checks: seq<Check>) {
    forall i, j | 0 <= i <= j < |checks| :: checks[i].now <= checks[j].now
  }

  lemma {:induction false} EvictShape(checks: seq<Check>, start: real)
    requires Ordered(checks)
    ensures Ordered(Evict(checks, start))
    ensures forall c :: c in Evict(checks, start) <==> c in checks && c.now >= start
  {
    if checks != [] && checks[0].now < start {
      assert Ordered(checks[1..]);
      EvictShape(checks[1..], start);
      assert checks == [checks[0]] + checks[1..];
    } else {
      forall c | c in checks ensures c.now >= start {
        var i :| 0 <= i < |checks| && checks[i] == c;
      }
    }
  }

  /** Evicting against an earlier window first loses nothing that a later window would keep. */
  lemma {:induction false} EvictTwice(checks: seq<Check>, more: seq<Check>, early: real, late: real)
    requires early <= late && Ordered(checks + more)
    ensures Evict(Evict(checks, early) + more, late) == Evict(checks + more, late)
    decreases |checks|
  {
    if checks != [] && checks[0].now < early {
      assert (checks + more)[1..] == checks[1..] + more;
      assert Ordered(checks[1..] + more);
      EvictTwice(checks[1..], more, early, late);
    }
  }

  lemma {:induction false} HistoryOrdered(silenceIsFailure: bool, obs: seq<Observation>)
    requires Chronological(obs)
    ensures Ordered(History(silenceIsFailure, obs))
    ensures forall c | c in History(silenceIsFailure, obs) :: obs != [] && c.now <= obs[|obs| - 1].now
  {
    if obs != [] {
      var n := |obs| - 1;
      HistoryOrdered(silenceIsFailure, obs[..n]);
      var earlier := History(silenceIsFailure, obs[..n]);
      forall c | c in earlier ensures c.now <= obs[n].now {
        assert obs[..n][n - 1] == obs[n - 1];
      }
      OrderedAppend(earlier, Recorded(silenceIsFailure, obs[n]), obs[n].now);
    }
  }

  lemma OrderedAppend(earlier: seq<Check>, more: seq<Check>, now: real)
    requires Ordered(earlier) && |more| <= 1
    requires forall c | c in earlier :: c.now <= now
    requires forall c | c in more :: c.now == now
    ensures Ordered(earlier + more)
    ensures forall c | c in earlier + more :: c.now <= now
  {
    forall i | 0 <= i < |earlier| ensures earlier[i].now <= now { assert earlier[i] in earlier; }
    forall i | 0 <= i < |more| ensures more[i].now == now { assert more[i] in more; }
  }

  /** The deque is the part of the whole history that the latest window still holds. */
  lemma {:induction false} DequeIsHistory(window: real, silenceIsFailure: bool, obs: seq<Observation>)
    requires Chronological(obs) && obs != []
    ensures ObserveAll(Window(window, silenceIsFailure, []), obs)
            == Window(window, silenceIsFailure, Evict(History(silenceIsFailure, obs), obs[|obs| - 1].now - window))
  {
    hide Evict, Recorded, Ordered;
    var n := |obs| - 1;
    var t0 := Window(window, silenceIsFailure, []);
    var o := obs[n];
    HistoryOrdered(silenceIsFailure, obs);
    if n > 0 {
      DequeIsHistory(window, silenceIsFailure, obs[..n]);
      assert obs[..n][n - 1] == obs[n - 1];
      EvictTwice(History(silenceIsFailure, obs[..n]), Recorded(silenceIsFailure, o), obs[n - 1].now - window,
                 o.now - window);
    } else {
      assert obs[..n] == [];
    }
  }

  /** Some check since `start` is on record, and none of those is healthy. */
  ghost predicate NothingHealthySince(history: seq<Check>, start: real) {
    (exists c :: c in history && c.now >= start) && (forall c | c in history && c.now >= start :: !c.ok)
  }

  lemma FiresOnKept(history: seq<Check>, start: real)
    requires Ordered(history)
    ensures var kept := Evict(history, start);
            kept != [] && AllUnhealthy(kept) <==> NothingHealthySince(history, start)
  {
    EvictShape(history, start);
    hide Evict, Ordered;
    var kept := Evict(history, start);
    assert kept != [] ==> kept[0] in kept;
    if forall c | c in history && c.now >= start :: !c.ok {
      forall i | 0 <= i < |kept| ensures !kept[i].ok { assert kept[i] in kept; }
    }
  }

  /**
   * The window trigger refines its description over the whole history since
   * its reset: with a clock that never goes back it fires exactly when some
   * recorded check lies in the last `window` seconds and every such check is
   * unhealthy.
   */
  lemma {:induction false} WindowFiresIff(window: real, silenceIsFailure: bool, obs: seq<Observation>)
    requires Chronological(obs) && obs != []
    ensures var n := |obs| - 1;
            ObserveStep(ObserveAll(Window(window, silenceIsFailure, []), obs[..n]), obs[n]).1
            <==> NothingHealthySince(History(silenceIsFailure, obs), obs[n].now - window)
  {
    var n := |obs| - 1;
    HistoryOrdered(silenceIsFailure, obs);
    FiresOnKept(History(silenceIsFailure, obs), obs[n].now - window);
    WindowFires(window, silenceIsFailure, obs);
    hide *;
  }

  lemma WindowFires(window: real, silenceIsFailure: bool, obs: seq<Observation>)
    requires Chronological(obs) && obs != []
    ensures var n := |obs| - 1;
            var kept := Evict(History(silenceIsFailure, obs), obs[n].now - window);
            ObserveStep(ObserveAll(Window(window, silenceIsFailure, []), obs[..n]), obs[n]).1
            <==> kept != [] && AllUnhealthy(kept)
  {
    hide Evict, ObserveStep, History, AllUnhealthy;
    DequeIsHistory(window, silenceIsFailure, obs);
    var n := |obs| - 1;
    WindowObserves(ObserveAll(Window(window, silenceIsFailure, []), obs[..n]), obs[n]);
  }

  lemma WindowObserves(t: TriggerState, o: Observation)
    requires ObserveStep(t, o).0.Window?
    ensures var (t', fires) := ObserveStep(t, o); fires <==> t'.checks != [] && AllUnhealthy(t'.checks)
  {
    hide Evict, AllUnhealthy;
  }
}
