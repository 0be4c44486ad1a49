/**
 * How every call of the gateway ends, told from its history alone: what its
 * checks said, whether it was resumed or timed out, and how its handler ended.
 */
module GatewayOutcomes {
  import opened Prelude
  import opened RateLimiters
  import opened ToolGateway

  /** At this point of the run the event happens: it comes next and is possible. */
  ghost predicate HappensAt(events: seq<Event>, k: nat, e: Event) {
    k < |events| && events[k] == e && Enabled(Run(events[..k]), e)
  }

  ghost predicate Happened(events: seq<Event>, e: Event) {
    exists k: nat :: HappensAt(events, k, e)
  }

  /** Event `b` is the beginning of call `c`. */
  ghost predicate BeginsAt(events: seq<Event>, b: nat, c: nat) {
    b < |events| && events[b].Begin? && |Run(events[..b]).calls| == c
  }

  ghost predicate Asks(info: CallInfo) {
    info.spec.Some? && info.spec.value.highRisk
  }

  /** What the checks say of a call, cheapest first; `None` lets it through. */
  ghost function Refusal(info: CallInfo, limiterGrants: bool): Option<CallOutcome> {
    if info.spec.None? then Some(Failed)
    else if !info.inScope then Some(DeniedScope)
    else if !info.argumentsValid then Some(DeniedValidation)
    else if !limiterGrants then Some(DeniedRateLimit)
    else None
  }

  ghost predicate LimiterGrants(s: State, e: Event) {
    e.Begin? && e.info.spec.Some? && LimiterTry(s, e.info, e.now).1
  }

  /** Events that move a call on. */
  datatype Past = Past(resumed: bool, timedOut: bool, returned: bool, raised: bool)

  ghost function PastOf(events: seq<Event>, c: nat): Past {
    Past(Happened(events, Resume(c)), Happened(events, Timeout(c)), Happened(events, HandlerReturned(c)),
         Happened(events, HandlerRaised(c)))
  }

  /** The state of a call, determined by what its checks said, its past and the status of its request. */
  ghost predicate Story(s: State, c: nat, refusal: Option<CallOutcome>, past: Past) {
    && c < |s.calls|
    && (past.returned || past.raised ==> s.calls[c].started)
    && !(past.returned && past.raised) && !(past.resumed && past.timedOut)
    && var call := s.calls[c];
       if refusal.Some? then call.phase == Finished(refusal.value) && !call.started && call.request == None
       else if !Asks(call.info) then
         call.request == None && call.started && call.phase == AfterStart(past)
       else
         && call.request.Some? && call.request.value < |s.requests| && s.requests[call.request.value].call == c
         && var request := s.requests[call.request.value];
            && (past.timedOut <==> request.status == Expired)
            && (past.resumed ==> request.status in {Approved, Denied})
            && (call.started <==> past.resumed && request.status == Approved)
            && call.phase == (if !past.resumed && !past.timedOut then Awaiting(call.request.value)
                              else if call.started then AfterStart(past)
                              else Finished(DeniedApproval))
  }

  ghost function AfterStart(past: Past): Phase {
    if past.returned then Finished(Allowed) else if past.raised then Finished(Failed) else Handling
  }

  // ---------------------------------------------------------------- one step

  /** How a call begins. */
  lemma BeginTells(s: State, e: Event)
    requires e.Begin?
    ensures var s' := Step(s, e);
            && |s'.calls| == |s.calls| + 1 && s'.calls[|s.calls|].info == e.info
            && Story(s', |s.calls|, Refusal(e.info, LimiterGrants(s, e)), Past(false, false, false, false))
            && s'.calls[..|s.calls|] == s.calls && s.requests <= s'.requests
  {
    hide LimiterTry;
  }

  /** What an event adds to the past of a call. */
  function More(past: Past, c: nat, e: Event): Past {
    Past(past.resumed || e == Resume(c), past.timedOut || e == Timeout(c), past.returned || e == HandlerReturned(c),
         past.raised || e == HandlerRaised(c))
  }

  lemma DecideTells(s: State, e: Event, c: nat, refusal: Option<CallOutcome>, past: Past)
    requires Phased(s) && e.Decide? && Story(s, c, refusal, past)
    ensures Step(s, e).calls == s.calls && Story(Step(s, e), c, refusal, past)
  {
    assert CallFits(s.calls[c], s.requests);
  }

  lemma WakeTells(s: State, e: Event, c: nat, refusal: Option<CallOutcome>, past: Past)
    requires Linked(s) && Phased(s) && (e.Resume? || e.Timeout?) && Enabled(s, e) && Story(s, c, refusal, past)
    ensures Step(s, e).calls[c].info == s.calls[c].info
    ensures Story(Step(s, e), c, refusal, More(past, c, e))
  {
    assert CallFits(s.calls[c], s.requests);
    assert CallFits(s.calls[e.c], s.requests);
    var r := s.calls[e.c].phase.request;
    assert s.requests[r].status == Pending ==> !s.requests[r].signalled;
    assert e.c != c && s.calls[c].request.Some? ==> s.calls[c].request != s.calls[e.c].request;
    hide Linked, Phased;
  }

  lemma EndTells(s: State, e: Event, c: nat, refusal: Option<CallOutcome>, past: Past)
    requires (e.HandlerReturned? || e.HandlerRaised?) && Enabled(s, e) && Story(s, c, refusal, past)
    ensures Step(s, e).calls[c].info == s.calls[c].info
    ensures Story(Step(s, e), c, refusal, More(past, c, e))
  {
  }

  /** A call that has begun moves on as its story says. */
  lemma StepTells(s: State, e: Event, c: nat, refusal: Option<CallOutcome>, past: Past)
    requires Linked(s) && Phased(s) && Enabled(s, e) && Story(s, c, refusal, past)
    ensures Step(s, e).calls[c].info == s.calls[c].info
    ensures Story(Step(s, e), c, refusal, More(past, c, e))
  {
    if e.Begin? {
      BeginTells(s, e);
      hide Step, Linked, Phased;
    } else if e.Decide? {
      DecideTells(s, e, c, refusal, past);
      hide Step, Linked, Phased, Story;
    } else if e.Resume? || e.Timeout? {
      WakeTells(s, e, c, refusal, past);
      hide *;
    } else {
      EndTells(s, e, c, refusal, past);
      hide *;
    }
  }

  // -------------------------------------------------------- over every interleaving

  lemma HappenedSnoc(events: seq<Event>, x: Event, e: Event)
    ensures Happened(events + [x], e) <==> Happened(events, e) || (x == e && Enabled(Run(events), e))
  {
    var all := events + [x];
    assert all[..|events|] == events;
    hide Run, Enabled;
    forall k: nat | k < |events| ensures HappensAt(all, k, e) <==> HappensAt(events, k, e) {
      assert all[..k] == events[..k];
    }
    if k: nat :| HappensAt(events, k, e) {
      assert HappensAt(all, k, e);
    }
    if x == e && Enabled(Run(events), e) {
      assert HappensAt(all, |events|, e);
    }
  }

  lemma PastSnoc(events: seq<Event>, x: Event, c: nat)
    ensures PastOf(events + [x], c)
            == if Enabled(Run(events), x) then More(PastOf(events, c), c, x) else PastOf(events, c)
  {
    HappenedSnoc(events, x, Resume(c));
    HappenedSnoc(events, x, Timeout(c));
    HappenedSnoc(events, x, HandlerReturned(c));
    HappenedSnoc(events, x, HandlerRaised(c));
    hide Happened, Run, Enabled;
  }

  /** A call has no past before it begins. */
  lemma {:induction false} NoPast(events: seq<Event>, c: nat)
    requires c >= |Run(events).calls|
    ensures PastOf(events, c) == Past(false, false, false, false)
  {
    if events != [] {
      var n := |events| - 1;
      assert events == events[..n] + [events[n]];
      var s := Run(events[..n]);
      CallsGrow(s, events[n]);
      PastSnoc(events[..n], events[n], c);
      hide Step, PastOf;
      NoPast(events[..n], c);
    }
  }

  lemma CallsGrow(s: State, e: Event)
    ensures Enabled(s, e) ==> |Step(s, e).calls| == |s.calls| + (if e.Begin? then 1 else 0)
    ensures e.Begin? ==> Enabled(s, e)
  {
    hide LimiterTry;
  }

  /**
   * Over every interleaving the state of a call is determined by what its checks
   * said when it began, by whether it was resumed or timed out, by the status of
   * its request, and by how its handler ended.
   */
  lemma {:induction false} CallIsItsStory(events: seq<Event>, c: nat) returns (b: nat)
    requires c < |Run(events).calls|
    ensures BeginsAt(events, b, c) && Run(events).calls[c].info == events[b].info
    ensures Story(Run(events), c, Refusal(events[b].info, LimiterGrants(Run(events[..b]), events[b])),
                  PastOf(events, c))
  {
    var n := |events| - 1;
    var before, e := events[..n], events[n];
    var s := Run(before);
    assert events == before + [e];
    CallsGrow(s, e);
    PastSnoc(before, e, c);
    RunKeepsInv(before);
    hide Linked, Phased, Audited, Decided, Step, Enabled, Story, PastOf, Decisions;
    if c < |s.calls| {
      b := CallIsItsStory(before, c);
      assert before[..b] == events[..b] && before[b] == events[b];
      if Enabled(s, e) {
        StepTells(s, e, c, Refusal(events[b].info, LimiterGrants(Run(events[..b]), events[b])), PastOf(before, c));
      }
    } else {
      b := n;
      NoPast(before, c);
      BeginTells(s, e);
    }
  }

  /** Said outcome by outcome: why a call is denied, and how it comes to be allowed or to fail. */
  lemma {:induction false} OutcomeMeans(events: seq<Event>, c: nat) returns (b: nat)
    requires c < |Run(events).calls|
    ensures BeginsAt(events, b, c) && Run(events).calls[c].info == events[b].info
    ensures var s, info := Run(events), events[b].info;
            var call, granted := s.calls[c], LimiterGrants(Run(events[..b]), events[b]);
            var checked := info.spec.Some? && info.inScope && info.argumentsValid;
            && (call.phase == Finished(DeniedScope) <==> info.spec.Some? && !info.inScope)
            && (call.phase == Finished(DeniedValidation) <==> info.spec.Some? && info.inScope && !info.argumentsValid)
            && (call.phase == Finished(DeniedRateLimit) <==> checked && !granted)
            && (call.phase == Finished(Allowed) <==> Happened(events, HandlerReturned(c)))
            && (call.phase == Finished(Failed) <==> info.spec.None? || Happened(events, HandlerRaised(c)))
            && (call.phase == Finished(DeniedApproval)
                <==> checked && granted && Asks(info) && !call.started
                     && (Happened(events, Resume(c)) || Happened(events, Timeout(c))))
  {
    b := CallIsItsStory(events, c);
    hide Run, Happened, Enabled, LimiterGrants;
  }

  /** A call denied for want of approval has a request that was denied or expired, and an expired one ends its call. */
  lemma {:induction false} DeniedMeansRefused(events: seq<Event>, c: nat)
    requires c < |Run(events).calls| && Run(events).calls[c].request.Some?
    ensures var s, r := Run(events), Run(events).calls[c].request.value;
            && r < |s.requests| && s.requests[r].call == c
            && (s.calls[c].phase == Finished(DeniedApproval) ==> s.requests[r].status in {Denied, Expired})
            && (s.requests[r].status == Expired ==> s.calls[c].phase == Finished(DeniedApproval))
            && (s.requests[r].status == Approved && Happened(events, Resume(c)) ==>
                  s.calls[c].started
                  && s.calls[c].phase in {Handling, Finished(Allowed), Finished(Failed)})
            && (s.requests[r].status == Denied && Happened(events, Resume(c)) ==>
                  s.calls[c].phase == Finished(DeniedApproval))
  {
    var b := CallIsItsStory(events, c);
    hide Run, Happened, Enabled, LimiterGrants;
  }

  // --------------------------------------------------------- nothing gets stuck

  ghost predicate Signalled(s: State) {
    forall r | 0 <= r < |s.requests| && s.requests[r].status in {Approved, Denied} :: s.requests[r].signalled
  }

  lemma StepSignals(s: State, e: Event)
    requires Signalled(s) && Enabled(s, e)
    ensures Signalled(Step(s, e))
  {
    hide LimiterTry;
  }

  lemma {:induction false} RunSignals(events: seq<Event>)
    ensures Signalled(Run(events))
  {
    if events != [] {
      var s, e := Run(events[..|events| - 1]), events[|events| - 1];
      RunSignals(events[..|events| - 1]);
      hide Signalled, Step, Enabled;
      if Enabled(s, e) {
        StepSignals(s, e);
      }
    }
  }

  /**
   * What can happen next: a waiting call resumes as soon as its request is
   * decided, one way or the other, and can time out until then and after; a
   * running handler can end either way; beginnings and decisions always can.
   */
  lemma {:induction false} CanGoOn(events: seq<Event>, c: nat)
    requires c < |Run(events).calls|
    ensures var s := Run(events);
            var phase := s.calls[c].phase;
            && (phase.Awaiting? ==> phase.request < |s.requests|)
            && (Enabled(s, Resume(c)) <==> phase.Awaiting? && s.requests[phase.request].status in {Approved, Denied})
            && (Enabled(s, Timeout(c)) <==> phase.Awaiting?)
            && (Enabled(s, HandlerReturned(c)) <==> phase.Handling?)
            && (Enabled(s, HandlerRaised(c)) <==> phase.Handling?)
  {
    RunSignals(events);
    RunKeepsInv(events);
    var s := Run(events);
    assert CallFits(s.calls[c], s.requests);
    hide Run;
  }

  /** Resuming after an approval enters the handler; after a denial it ends the call. */
  lemma {:induction false} ResumeGoesOn(events: seq<Event>, c: nat)
    requires Enabled(Run(events), Resume(c))
    ensures c < |Run(events).calls| && Run(events).calls[c].phase.Awaiting?
    ensures var s, s' := Run(events), Step(Run(events), Resume(c));
            var status := s.requests[s.calls[c].phase.request].status;
            && s'.requests == s.requests && s'.limiter == s.limiter && |s'.calls| == |s.calls|
            && (status == Approved ==>
                  s'.calls[c].phase == Handling && s'.calls[c].started && s'.audit == s.audit)
            && (status == Denied ==>
                  && s'.calls[c].phase == Finished(DeniedApproval)
                  && s'.audit == s.audit + [AuditEntry(c, DeniedApproval)])
            && status in {Approved, Denied}
            && (forall d | 0 <= d < |s.calls| && d != c :: s'.calls[d] == s.calls[d])
  {
    CanGoOn(events, c);
    hide Run;
  }

  /** A decision on a pending request is kept with who made it and why, and wakes the call; any other does nothing. */
  lemma {:induction false} DecisionIsRecorded(s: State, e: Event)
    requires e.Decide?
    ensures Enabled(s, e)
    ensures var s', r := Step(s, e), e.request;
            if r < |s.requests| && s.requests[r].status == Pending then
              && |s'.requests| == |s.requests|
              && s'.requests[r] == Request(s.requests[r].call, if e.approve then Approved else Denied,
                                           Some(e.decidedBy), e.reason, true)
              && (forall q | 0 <= q < |s.requests| && q != r :: s'.requests[q] == s.requests[q])
              && s'.calls == s.calls && s'.audit == s.audit && s'.limiter == s.limiter
            else s' == s
  {
  }

  /** The status of a request, from the decisions that succeeded and whether its call timed out. */
  lemma {:induction false} StatusMeans(events: seq<Event>, r: nat)
    requires r < |Run(events).requests|
    ensures var status, c := Run(events).requests[r].status, Run(events).requests[r].call;
            && (status == Expired <==> Happened(events, Timeout(c)))
            && (status == Approved <==> Decision(r, true) in Decisions(events) && !Happened(events, Timeout(c)))
            && (status == Denied <==> Decision(r, false) in Decisions(events) && !Happened(events, Timeout(c)))
  {
    RunKeepsInv(events);
    var s, decisions := Run(events), Decisions(events);
    var c := s.requests[r].call;
    assert c < |s.calls| && s.calls[c].request == Some(r);
    var b := CallIsItsStory(events, c);
    hide Run, Happened, Enabled, LimiterGrants, Decisions;
    if Decision(r, true) in decisions && Decision(r, false) in decisions {
      assert false;
    }
  }
}
