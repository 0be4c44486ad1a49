/**
 * The rate limiter inside the gateway: however calls, decisions, timeouts and
 * handlers interleave, the calls of one tenant to one tool that get past it
 * stay within that tool's own limit.
 */
module GatewayLimits {
  import opened Prelude
  import opened TokenBucket
  import opened RateLimiters
  import opened ToolGateway

  type Key = (string, string)

  /** Every tool is registered with one rate per minute. */
  ghost predicate OneRatePerTool(events: seq<Event>, rates: string -> int) {
    forall k | 0 <= k < |events| && events[k].Begin? && events[k].info.spec.Some? ::
      events[k].info.spec.value.ratePerMinute == rates(events[k].info.tool)
  }

  function Limits(rates: string -> int): Key -> Limit {
    (key: Key) => ToolLimit(rates(key.1))
  }

  predicate ReachesLimiter(e: Event) {
    e.Begin? && e.info.spec.Some? && e.info.inScope && e.info.argumentsValid
  }

  function KeyOf(info: CallInfo): Key { (info.tenant, info.tool) }

  /** What the limiter is asked over a run. */
  function Asked(events: seq<Event>): seq<Call<Key>> {
    if events == [] then []
    else
      var n := |events| - 1;
      Asked(events[..n])
      + (if ReachesLimiter(events[n]) then [Call(KeyOf(events[n].info), Attempt(events[n].now, 1.0))] else [])
  }

  /** The call got past the limiter: it asked for an approval or entered its handler. */
  predicate Passed(call: CallState) {
    call.request.Some? || call.started
  }

  function CountPassed(calls: seq<CallState>, key: Key): nat {
    if calls == [] then 0
    else
      var n := |calls| - 1;
      CountPassed(calls[..n], key) + (if KeyOf(calls[n].info) == key && Passed(calls[n]) then 1 else 0)
  }

  // ------------------------------------------------------------- the limiter

  lemma {:induction false} SameLimit(rates: string -> int, info: CallInfo)
    requires info.spec.Some? && info.spec.value.ratePerMinute == rates(info.tool)
    ensures ToolLimits(info.spec.value.ratePerMinute)(KeyOf(info)) == Limits(rates)(KeyOf(info))
  {
  }

  /** What a step does to the limiter and how it numbers calls. */
  lemma StepAndLimiter(s: State, e: Event)
    requires Enabled(s, e)
    ensures !ReachesLimiter(e) ==> Step(s, e).limiter == s.limiter
    ensures ReachesLimiter(e) ==> Step(s, e).limiter == LimiterTry(s, e.info, e.now).0
    ensures !e.Begin? ==> |Step(s, e).calls| == |s.calls|
    ensures e.Begin? ==>
              && |Step(s, e).calls| == |s.calls| + 1 && Step(s, e).calls[..|s.calls|] == s.calls
              && var call := Step(s, e).calls[|s.calls|];
                 && call.info == e.info
                 && (Passed(call) <==> ReachesLimiter(e) && LimiterTry(s, e.info, e.now).1)
  {
    hide LimiterTry;
  }

  lemma {:induction false} LimiterIsKeyed(events: seq<Event>, rates: string -> int)
    requires OneRatePerTool(events, rates)
    ensures Run(events).limiter == KeyedAfter(Limits(rates), Asked(events))
  {
    if events != [] {
      var n := |events| - 1;
      var s, e := Run(events[..n]), events[n];
      LimiterIsKeyed(events[..n], rates);
      AskedSnoc(events[..n], e);
      assert events == events[..n] + [e];
      if Enabled(s, e) {
        StepAndLimiter(s, e);
      }
      if ReachesLimiter(e) {
        LimiterAnswers(s, e, rates, events[..n]);
      }
      assert Asked(events[..n]) + [] == Asked(events[..n]);
      assert ReachesLimiter(e) ==> Enabled(s, e);
      hide Step, Limits, KeyedTry, Asked, KeyedAfter, LimiterTry;
    }
  }

  lemma AskedSnoc(events: seq<Event>, e: Event)
    ensures Asked(events + [e])
            == Asked(events) + (if ReachesLimiter(e) then [Call(KeyOf(e.info), Attempt(e.now, 1.0))] else [])
  {
    assert (events + [e])[..|events|] == events;
  }

  /** The limiter of a run answers like the keyed buckets over everything asked so far. */
  lemma {:induction false} LimiterAnswers(s: State, e: Event, rates: string -> int, events: seq<Event>)
    requires ReachesLimiter(e) && e.info.spec.value.ratePerMinute == rates(e.info.tool)
    requires s.limiter == KeyedAfter(Limits(rates), Asked(events))
    ensures var c := Call(KeyOf(e.info), Attempt(e.now, 1.0));
            && LimiterTry(s, e.info, e.now) == KeyedTry(Limits(rates), KeyedAfter(Limits(rates), Asked(events)), c)
            && KeyedAfter(Limits(rates), Asked(events) + [c]) == LimiterTry(s, e.info, e.now).0
  {
    var c := Call(KeyOf(e.info), Attempt(e.now, 1.0));
    SameLimit(rates, e.info);
    assert (Asked(events) + [c])[..|Asked(events)|] == Asked(events);
    hide Asked, Limits, ToolLimits, Try;
  }

  // ------------------------------------------------------------- the calls

  lemma CountSnoc(calls: seq<CallState>, call: CallState, key: Key)
    ensures CountPassed(calls + [call], key)
            == CountPassed(calls, key) + (if KeyOf(call.info) == key && Passed(call) then 1 else 0)
  {
    assert (calls + [call])[..|calls|] == calls;
  }

  /** The same calls, as far as the count can tell. */
  ghost predicate SamePassed(calls: seq<CallState>, later: seq<CallState>) {
    && |calls| <= |later|
    && forall c | 0 <= c < |calls| :: later[c].info == calls[c].info && (Passed(later[c]) <==> Passed(calls[c]))
  }

  lemma {:induction false} SameCount(calls: seq<CallState>, later: seq<CallState>, key: Key)
    requires SamePassed(calls, later)
    ensures CountPassed(later[..|calls|], key) == CountPassed(calls, key)
  {
    if calls != [] {
      var n := |calls| - 1;
      SameCount(calls[..n], later, key);
      assert later[..n + 1][..n] == later[..n];
      hide Passed;
    }
  }

  /** A step keeps the calls it finds: only a call that asked for approval can enter its handler later. */
  lemma StepKeepsPassed(s: State, e: Event)
    requires Enabled(s, e) && Phased(s)
    ensures SamePassed(s.calls, Step(s, e).calls)
  {
    if e.Begin? {
      StepAndLimiter(s, e);
      hide Step;
    } else {
      assert e.Resume? ==> CallFits(s.calls[e.c], s.requests);
    }
  }

  lemma {:induction false} RunKeepsPassed(events: seq<Event>, i: nat)
    requires i <= |events|
    ensures SamePassed(Run(events[..i]).calls, Run(events).calls)
  {
    if i == |events| {
      assert events[..i] == events;
    } else {
      var n := |events| - 1;
      var s, e := Run(events[..n]), events[n];
      RunKeepsPassed(events[..n], i);
      assert events[..n][..i] == events[..i];
      RunKeepsInv(events[..n]);
      hide Phased, Passed, Step, Enabled;
      if Enabled(s, e) {
        StepKeepsPassed(s, e);
      }
    }
  }

  /** The calls begun by one event that passed, for one key. */
  lemma CountStep(s: State, e: Event, key: Key)
    requires Enabled(s, e) && Phased(s)
    ensures CountPassed(Step(s, e).calls, key)
            == CountPassed(s.calls, key)
               + (if ReachesLimiter(e) && KeyOf(e.info) == key && LimiterTry(s, e.info, e.now).1 then 1 else 0)
  {
    StepAndLimiter(s, e);
    var calls := Step(s, e).calls;
    if e.Begin? {
      assert calls == s.calls + [calls[|s.calls|]];
      CountSnoc(s.calls, calls[|s.calls|], key);
    } else {
      StepKeepsPassed(s, e);
      SameCount(s.calls, calls, key);
      assert calls[..|s.calls|] == calls;
    }
    hide *;
  }

  /** The bucket a key starts from, as soon as it has one. */
  ghost predicate StartsFull(l: Limit, b: Bucket, own: seq<Attempt>) {
    own != [] ==> b == FullAt(l, own)
  }

  lemma {:induction false} KeyAnswers(rates: string -> int, asked: seq<Call<Key>>, key: Key, a: Attempt, b: Bucket)
    requires StartsFull(Limits(rates)(key), b, Of(asked, key) + [a])
    ensures StartsFull(Limits(rates)(key), b, Of(asked, key))
    ensures KeyedTry(Limits(rates), KeyedAfter(Limits(rates), asked), Call(key, a)).1
            == Try(Limits(rates)(key), After(Limits(rates)(key), b, Of(asked, key)), a).1
  {
    KeysAreIndependent(Limits(rates), asked, key);
    hide Limits, Of, KeyedAfter, KeyedOutcomes, OutcomesOf, Outcomes, Try;
    var own := Of(asked, key);
    assert own != [] ==> (own + [a])[0] == own[0];
  }

  lemma {:induction false} OwnSnoc(asked: seq<Call<Key>>, c: Call<Key>, key: Key)
    ensures Of(asked + [c], key) == if c.key == key then Of(asked, key) + [c.attempt] else Of(asked, key)
  {
    assert (asked + [c])[..|asked|] == asked;
  }

  /** One more event asks the key's bucket for one token, or leaves it alone. */
  lemma {:induction false} AskedOfKey(events: seq<Event>, e: Event, key: Key)
    ensures Of(Asked(events + [e]), key)
            == if ReachesLimiter(e) && KeyOf(e.info) == key then Of(Asked(events), key) + [Attempt(e.now, 1.0)]
               else Of(Asked(events), key)
  {
    AskedSnoc(events, e);
    assert Asked(events) + [] == Asked(events);
    if ReachesLimiter(e) {
      OwnSnoc(Asked(events), Call(KeyOf(e.info), Attempt(e.now, 1.0)), key);
    }
    hide Of, Asked;
  }

  /** The limiter grants the call exactly if the key's own bucket has a token. */
  lemma {:induction false} PassesIffGranted(events: seq<Event>, e: Event, rates: string -> int, b: Bucket)
    requires OneRatePerTool(events, rates) && ReachesLimiter(e)
    requires e.info.spec.value.ratePerMinute == rates(e.info.tool)
    requires StartsFull(Limits(rates)(KeyOf(e.info)), b, Of(Asked(events), KeyOf(e.info)) + [Attempt(e.now, 1.0)])
    ensures var l, own := Limits(rates)(KeyOf(e.info)), Of(Asked(events), KeyOf(e.info));
            && StartsFull(l, b, own)
            && LimiterTry(Run(events), e.info, e.now).1 == Try(l, After(l, b, own), Attempt(e.now, 1.0)).1
  {
    var key, a := KeyOf(e.info), Attempt(e.now, 1.0);
    hide *;
    LimiterIsKeyed(events, rates);
    LimiterAnswers(Run(events), e, rates, events);
    KeyAnswers(rates, Asked(events), key, a, b);
  }

  lemma {:induction false} RunSnoc(events: seq<Event>, e: Event, key: Key)
    ensures CountPassed(Run(events + [e]).calls, key)
            == CountPassed(Run(events).calls, key)
               + (if ReachesLimiter(e) && KeyOf(e.info) == key && LimiterTry(Run(events), e.info, e.now).1
                  then 1 else 0)
  {
    assert (events + [e])[..|events|] == events;
    var s := Run(events);
    assert Run(events + [e]) == if Enabled(s, e) then Step(s, e) else s;
    assert ReachesLimiter(e) ==> Enabled(s, e);
    RunKeepsInv(events);
    hide *;
    if Enabled(s, e) {
      CountStep(s, e, key);
    }
  }

  /** The calls of a key that got past the limiter are the tokens its own bucket handed out. */
  lemma {:induction false} CountIsGranted(events: seq<Event>, rates: string -> int, key: Key, b: Bucket)
    requires OneRatePerTool(events, rates) && StartsFull(Limits(rates)(key), b, Of(Asked(events), key))
    ensures CountPassed(Run(events).calls, key) as real == Granted(Limits(rates)(key), b, Of(Asked(events), key))
  {
    if events != [] {
      var n := |events| - 1;
      var before, e := events[..n], events[n];
      var l, own, a := Limits(rates)(key), Of(Asked(events[..n]), key), Attempt(if e.Begin? then e.now else 0.0, 1.0);
      assert events == before + [e];
      assert ReachesLimiter(e) ==> e.info.spec.value.ratePerMinute == rates(e.info.tool);
      assert OneRatePerTool(before, rates);
      hide *;
      AskedOfKey(before, e, key);
      RunSnoc(before, e, key);
      AppendAttempt(l, b, own, a);
      if ReachesLimiter(e) && KeyOf(e.info) == key {
        assert a == Attempt(e.now, 1.0);
        PassesIffGranted(before, e, rates, b);
      }
      CountIsGranted(before, rates, key, b);
    }
  }

  // ------------------------------------------------------------- over any stretch

  /** Readings of the clock at the starts of calls never go back. */
  ghost predicate ClockInOrder(events: seq<Event>) {
    forall j, k | 0 <= j <= k < |events| && events[j].Begin? && events[k].Begin? :: events[j].now <= events[k].now
  }

  ghost predicate Within(attempts: seq<Attempt>, from: real, to: real) {
    forall k | 0 <= k < |attempts| :: from <= attempts[k].now <= to
  }

  /** Whatever a key asked was asked by a call begun then. */
  lemma {:induction false} OwnFrom(events: seq<Event>, key: Key, a: Attempt) returns (k: nat)
    requires a in Of(Asked(events), key)
    ensures k < |events| && events[k].Begin? && events[k].now == a.now && a.requested == 1.0
  {
    var n := |events| - 1;
    assert events != [] && events == events[..n] + [events[n]];
    AskedOfKey(events[..n], events[n], key);
    if a in Of(Asked(events[..n]), key) {
      k := OwnFrom(events[..n], key, a);
    } else {
      k := n;
    }
  }

  /** Whatever was asked before an event was asked no later. */
  lemma {:induction false} OwnEarlier(events: seq<Event>, e: Event, key: Key)
    requires ClockInOrder(events + [e]) && e.Begin?
    ensures forall k | 0 <= k < |Of(Asked(events), key)| :: Of(Asked(events), key)[k].now <= e.now
  {
    var own := Of(Asked(events), key);
    var all := events + [e];
    hide Of, Asked;
    forall k | 0 <= k < |own| ensures own[k].now <= e.now {
      assert own[k] in own;
      var j := OwnFrom(events, key, own[k]);
      assert all[j] == events[j] && all[|events|] == e;
    }
  }

  lemma InOrderSnoc(own: seq<Attempt>, a: Attempt)
    requires InOrder(own) && Positive(own) && a.requested > 0.0
    requires forall k | 0 <= k < |own| :: own[k].now <= a.now
    ensures InOrder(own + [a]) && Positive(own + [a])
  {
  }

  lemma {:induction false} OwnInOrder(events: seq<Event>, key: Key)
    requires ClockInOrder(events)
    ensures InOrder(Of(Asked(events), key)) && Positive(Of(Asked(events), key))
  {
    if events != [] {
      var n := |events| - 1;
      var e := events[n];
      assert events == events[..n] + [e];
      assert ClockInOrder(events[..n]);
      hide Of, Asked, ClockInOrder, InOrder, Positive, KeyOf;
      OwnInOrder(events[..n], key);
      AskedOfKey(events[..n], e, key);
      if ReachesLimiter(e) {
        OwnEarlier(events[..n], e, key);
        InOrderSnoc(Of(Asked(events[..n]), key), Attempt(e.now, 1.0));
      }
    }
  }

  /** What a key asked from event `i` on it asked between the first and the last reading since then. */
  lemma {:induction false} OwnSince(events: seq<Event>, key: Key, i: nat, from: real, to: real)
    requires i <= |events| && forall k | i <= k < |events| && events[k].Begin? :: from <= events[k].now <= to
    ensures var before, own := Of(Asked(events[..i]), key), Of(Asked(events), key);
            before <= own && Within(own[|before|..], from, to)
  {
    if i == |events| {
      assert events[..i] == events;
    } else {
      var n := |events| - 1;
      OwnSince(events[..n], key, i, from, to);
      assert events[..n][..i] == events[..i] && events == events[..n] + [events[n]];
      AskedOfKey(events[..n], events[n], key);
      hide Of, Asked;
    }
  }

  lemma ToolRate(l: Limit, from: real, first: real, last: real, to: real)
    requires Sound(l) && !l.clamped && from <= first && last <= to
    ensures Accrued(l, first, last) <= l.rate * (to - from)
  {
  }

  lemma {:induction false} CountSplit(calls: seq<CallState>, key: Key, a: nat, b: nat)
    requires a <= b <= |calls|
    ensures CountPassed(calls[..b], key) == CountPassed(calls[..a], key) + CountPassed(calls[a..b], key)
  {
    if a < b {
      CountSplit(calls, key, a, b - 1);
      assert calls[..b] == calls[..b - 1] + [calls[b - 1]] && calls[a..b] == calls[a..b - 1] + [calls[b - 1]];
      CountSnoc(calls[..b - 1], calls[b - 1], key);
      CountSnoc(calls[a..b - 1], calls[b - 1], key);
      hide CountPassed;
    } else {
      assert calls[a..b] == [];
    }
  }

  lemma FullAndOrdered(l: Limit, own: seq<Attempt>)
    requires InOrder(own) && Sound(l)
    ensures InRange(l, FullAt(l, own)) && Chronological(FullAt(l, own), own)
  {
  }

  lemma WithinEnds(stretch: seq<Attempt>, from: real, to: real)
    requires Within(stretch, from, to) && stretch != []
    ensures from <= stretch[0].now && stretch[|stretch| - 1].now <= to
  {
  }

  lemma StartsWith(l: Limit, own: seq<Attempt>, before: seq<Attempt>)
    requires before <= own
    ensures StartsFull(l, FullAt(l, own), before) && StartsFull(l, FullAt(l, own), own)
  {
    assert before != [] ==> before[0] == own[0];
  }

  lemma SpanNonnegative(l: Limit, from: real, to: real)
    requires Sound(l) && from <= to
    ensures l.capacity >= 0.0 && l.rate * (to - from) >= 0.0
  {
  }

  /** The stretch bound of one bucket, said of what was asked since some point. */
  lemma GrantedSince(l: Limit, own: seq<Attempt>, before: seq<Attempt>, from: real, to: real)
    requires Sound(l) && !l.clamped && from <= to && InOrder(own) && Positive(own)
    requires before <= own && Within(own[|before|..], from, to)
    ensures StartsFull(l, FullAt(l, own), before) && StartsFull(l, FullAt(l, own), own)
    ensures Granted(l, FullAt(l, own), own) - Granted(l, FullAt(l, own), before) <= l.capacity + l.rate * (to - from)
  {
    hide *;
    var stretch, b := own[|before|..], FullAt(l, own);
    assert own == before + stretch + [] && own == before + stretch;
    StartsWith(l, own, before);
    SpanNonnegative(l, from, to);
    FullAndOrdered(l, own);
    if stretch != [] {
      WithinEnds(stretch, from, to);
      StretchIsBounded(l, b, before, stretch, []);
      ToolRate(l, from, stretch[0].now, stretch[|stretch| - 1].now, to);
    }
  }

  /** A part of a run is a run of the same kind. */
  lemma {:induction false} PrefixIsSound(events: seq<Event>, rates: string -> int, j: nat)
    requires OneRatePerTool(events, rates) && ClockInOrder(events) && j <= |events|
    ensures OneRatePerTool(events[..j], rates) && ClockInOrder(events[..j])
  {
  }

  lemma {:induction false} LimitIsSound(rates: string -> int, key: Key)
    requires rates(key.1) >= 0
    ensures var l, rate := Limits(rates)(key), rates(key.1) as real;
            Sound(l) && !l.clamped && l.capacity == rate && l.rate == rate / 60.0
  {
  }

  /** From event `i` to the end of a run. */
  lemma {:induction false} PassedSince(events: seq<Event>, rates: string -> int, key: Key, i: nat, from: real, to: real)
    requires OneRatePerTool(events, rates) && ClockInOrder(events) && rates(key.1) >= 0 && i <= |events| && from <= to
    requires forall k | i <= k < |events| && events[k].Begin? :: from <= events[k].now <= to
    ensures CountPassed(Run(events).calls, key) as real - CountPassed(Run(events[..i]).calls, key) as real
            <= rates(key.1) as real + rates(key.1) as real / 60.0 * (to - from)
  {
    hide *;
    var l, before, own := Limits(rates)(key), Of(Asked(events[..i]), key), Of(Asked(events), key);
    OwnSince(events, key, i, from, to);
    OwnInOrder(events, key);
    PrefixIsSound(events, rates, i);
    LimitIsSound(rates, key);
    GrantedSince(l, own, before, from, to);
    CountIsGranted(events[..i], rates, key, FullAt(l, own));
    CountIsGranted(events, rates, key, FullAt(l, own));
  }

  /** The calls numbered so far keep their numbers, and the count over a range is a difference of counts. */
  lemma {:induction false} CountBetween(events: seq<Event>, key: Key, i: nat, j: nat)
    requires i <= j <= |events|
    ensures var calls := Run(events).calls;
            var a, b := |Run(events[..i]).calls|, |Run(events[..j]).calls|;
            && a <= b <= |calls|
            && CountPassed(calls[a..b], key)
               == CountPassed(Run(events[..j]).calls, key) - CountPassed(Run(events[..i]).calls, key)
  {
    assert events[..j][..i] == events[..i];
    RunKeepsPassed(events[..j], i);
    RunKeepsPassed(events, i);
    RunKeepsPassed(events, j);
    hide Run, CountPassed, Passed;
    var calls := Run(events).calls;
    SameCount(Run(events[..i]).calls, calls, key);
    SameCount(Run(events[..j]).calls, calls, key);
    CountSplit(calls, key, |Run(events[..i]).calls|, |Run(events[..j]).calls|);
  }

  /**
   * Over every interleaving: of the calls begun in any stretch of a run, those
   * of one tenant to one tool that got past the limiter are at most the tool's
   * rate per minute plus a sixtieth of it for every second the stretch took.
   */
  lemma {:induction false} CallsStayWithinRate(events: seq<Event>, rates: string -> int, key: Key, i: nat, j: nat,
                                               from: real, to: real)
    requires OneRatePerTool(events, rates) && ClockInOrder(events) && rates(key.1) >= 0
    requires i <= j <= |events| && from <= to
    requires forall k | i <= k < j && events[k].Begin? :: from <= events[k].now <= to
    ensures var calls := Run(events).calls;
            var a, b := |Run(events[..i]).calls|, |Run(events[..j]).calls|;
            && a <= b <= |calls|
            && CountPassed(calls[a..b], key) as real
               <= rates(key.1) as real + rates(key.1) as real / 60.0 * (to - from)
  {
    hide *;
    CountBetween(events, key, i, j);
    PrefixIsSound(events, rates, j);
    assert events[..j][..i] == events[..i];
    assert forall k | i <= k < j :: events[..j][k] == events[k];
    PassedSince(events[..j], rates, key, i, from, to);
  }
}
