/**
 * The tool gateway and its approval queue as a state machine. A call suspends
 * only while it waits for an approval and while its handler runs, so each
 * stretch between those points is one step; calls, human decisions and
 * timeouts interleave freely. Calls and approval requests are numbered in the
 * order they are made.
 */
module ToolGateway {
  import opened Prelude
  import opened TokenBucket
  import opened RateLimiters

  datatype ToolSpec = ToolSpec(highRisk: bool, ratePerMinute: int)

  /** A call with what the registry, the scope policy and the argument schema say of it. */
  datatype CallInfo = CallInfo(tenant: string, tool: string, spec: Option<ToolSpec>, inScope: bool,
                               argumentsValid: bool)

  datatype ApprovalStatus = Pending | Approved | Denied | Expired

  /** `signalled`: the event that wakes the waiting call has been set. */
  datatype Request = Request(
    call: nat, status: ApprovalStatus, decidedBy: Option<string>, reason: Option<string>, signalled: bool)

  datatype CallOutcome = Allowed | DeniedScope | DeniedValidation | DeniedRateLimit | DeniedApproval | Failed

  datatype Phase = Awaiting(request: nat) | Handling | Finished(outcome: CallOutcome)

  /** `started`: its handler has been entered. */
  datatype CallState = CallState(info: CallInfo, phase: Phase, request: Option<nat>, started: bool)

  datatype AuditEntry = AuditEntry(call: nat, outcome: CallOutcome)

  datatype Decision = Decision(request: nat, approve: bool)

  datatype State = State(
    limiter: map<(string, string), Bucket>,
    calls: seq<CallState>,
    requests: seq<Request>,
    audit: seq<AuditEntry>
  )

  datatype Event =
    | Begin(info: CallInfo, now: real)
    | Decide(request: nat, approve: bool, decidedBy: string, reason: Option<string>)
    | Resume(c: nat)
    | Timeout(c: nat)
    | HandlerReturned(c: nat)
    | HandlerRaised(c: nat)

  // ------------------------------------------------------------------- steps

  function Initial(): State {
    State(map[], [], [], [])
  }

  /** A call that never gets past its checks: recorded, then raised. */
  function Turned(s: State, info: CallInfo, outcome: CallOutcome): State {
    s.(calls := s.calls + [CallState(info, Finished(outcome), None, false)],
       audit := s.audit + [AuditEntry(|s.calls|, outcome)])
  }

  function Finish(s: State, c: nat, outcome: CallOutcome): State
    requires c < |s.calls|
  {
    s.(calls := s.calls[c := s.calls[c].(phase := Finished(outcome))], audit := s.audit + [AuditEntry(c, outcome)])
  }

  function LimiterTry(s: State, info: CallInfo, now: real): (map<(string, string), Bucket>, bool)
    requires info.spec.Some?
  {
    KeyedTry(ToolLimits(info.spec.value.ratePerMinute), s.limiter, Call((info.tenant, info.tool), Attempt(now, 1.0)))
  }

  /** Past its checks: a high-risk call asks for approval, any other enters its handler. */
  function Admitted(s: State, info: CallInfo): State
    requires info.spec.Some?
  {
    if info.spec.value.highRisk then
      s.(calls := s.calls + [CallState(info, Awaiting(|s.requests|), Some(|s.requests|), false)],
         requests := s.requests + [Request(|s.calls|, Pending, None, None, false)])
    else s.(calls := s.calls + [CallState(info, Handling, None, true)])
  }

  /** Cheap checks first, then the rate limiter, then a human for a high-risk tool. */
  function BeginCall(s: State, info: CallInfo, now: real): State {
    if info.spec.None? then Turned(s, info, Failed)
    else if !info.inScope then Turned(s, info, DeniedScope)
    else if !info.argumentsValid then Turned(s, info, DeniedValidation)
    else
      var (table, granted) := LimiterTry(s, info, now);
      var s' := s.(limiter := table);
      if !granted then Turned(s', info, DeniedRateLimit)
      else Admitted(s', info)
  }

  /** A decision counts only on a request that exists and is still pending. */
  predicate Succeeds(s: State, e: Event) {
    e.Decide? && e.request < |s.requests| && s.requests[e.request].status == Pending
  }

  function DecidedOn(r: Request, approve: bool, decidedBy: string, reason: Option<string>): Request {
    r.(status := if approve then Approved else Denied,
       decidedBy := Some(decidedBy), reason := reason, signalled := true)
  }

  predicate Enabled(s: State, e: Event) {
    match e
    case Resume(c) =>
      c < |s.calls| && s.calls[c].phase.Awaiting? && s.calls[c].phase.request < |s.requests|
      && s.requests[s.calls[c].phase.request].signalled
    case Timeout(c) => c < |s.calls| && s.calls[c].phase.Awaiting? && s.calls[c].phase.request < |s.requests|
    case HandlerReturned(c) => c < |s.calls| && s.calls[c].phase.Handling?
    case HandlerRaised(c) => c < |s.calls| && s.calls[c].phase.Handling?
    case _ => true
  }

  function Step(s: State, e: Event): State
    requires Enabled(s, e)
  {
    match e
    case Begin(info, now) => BeginCall(s, info, now)
    case Decide(r, approve, decidedBy, reason) =>
      if Succeeds(s, e) then s.(requests := s.requests[r := DecidedOn(s.requests[r], approve, decidedBy, reason)])
      else s
    case Resume(c) =>
      if s.requests[s.calls[c].phase.request].status == Denied then Finish(s, c, DeniedApproval)
      else s.(calls := s.calls[c := s.calls[c].(phase := Handling, started := true)])
    case Timeout(c) =>
      // The deadline may strike after a decision and before the call resumes; the status is overwritten all the same.
      var r := s.calls[c].phase.request;
      Finish(s.(requests := s.requests[r := s.requests[r].(status := Expired)]), c, DeniedApproval)
    case HandlerReturned(c) => Finish(s, c, Allowed)
    case HandlerRaised(c) => Finish(s, c, Failed)
  }

  function Run(events: seq<Event>): State {
    if events == [] then Initial()
    else
      var s := Run(events[..|events| - 1]);
      var e := events[|events| - 1];
      if Enabled(s, e) then Step(s, e) else s
  }

  /** The decisions that succeeded over a run, in order. */
  function Decisions(events: seq<Event>): seq<Decision> {
    if events == [] then []
    else
      var n := |events| - 1;
      Decisions(events[..n])
      + (if Succeeds(Run(events[..n]), events[n]) then [Decision(events[n].request, events[n].approve)] else [])
  }

  // --------------------------------------------------------------- invariant

  predicate HighRisk(call: CallState) {
    call.info.spec.Some? && call.info.spec.value.highRisk
  }

  /** A request belongs to the call that made it, and only high-risk calls make one. */
  ghost predicate Linked(s: State) {
    && (forall r | 0 <= r < |s.requests| ::
          s.requests[r].call < |s.calls| && s.calls[s.requests[r].call].request == Some(r))
    && (forall c | 0 <= c < |s.calls| && s.calls[c].request.Some? ::
          && s.calls[c].request.value < |s.requests|
          && s.requests[s.calls[c].request.value].call == c
          && HighRisk(s.calls[c]))
  }

  /** Where a call stands agrees with its request: it waits while that is undecided, and starts only once approved. */
  predicate CallFits(call: CallState, requests: seq<Request>) {
    match call.phase
    case Awaiting(r) => call.request == Some(r) && !call.started && r < |requests| && requests[r].status != Expired
    case Handling => call.started && (HighRisk(call) ==> call.request.Some?)
    case Finished(_) => call.started && HighRisk(call) ==> call.request.Some?
  }

  ghost predicate Phased(s: State) {
    && (forall c | 0 <= c < |s.calls| :: CallFits(s.calls[c], s.requests))
    && (forall r | 0 <= r < |s.requests| && s.requests[r].status == Pending ::
          s.requests[r].call < |s.calls| && s.calls[s.requests[r].call].phase == Awaiting(r))
    && (forall r | 0 <= r < |s.requests| :: s.requests[r].status == Pending ==> !s.requests[r].signalled)
  }

  /** Exactly one successful decision stands behind every start of a high-risk handler, and it approved. */
  ghost predicate Decided(s: State, decisions: seq<Decision>) {
    && (forall k | 0 <= k < |decisions| ::
          decisions[k].request < |s.requests| && s.requests[decisions[k].request].status != Pending)
    && (forall j, k | 0 <= j < k < |decisions| :: decisions[j].request != decisions[k].request)
    && (forall r | 0 <= r < |s.requests| && s.requests[r].status == Approved :: Decision(r, true) in decisions)
    && (forall r | 0 <= r < |s.requests| && s.requests[r].status == Denied :: Decision(r, false) in decisions)
    && (forall c | 0 <= c < |s.calls| && s.calls[c].started && s.calls[c].request.Some? ::
          Decision(s.calls[c].request.value, true) in decisions)
  }

  /** The audit log holds one entry per finished call, with its outcome, and nothing else. */
  ghost predicate Audited(s: State) {
    && (forall k | 0 <= k < |s.audit| ::
          s.audit[k].call < |s.calls| && s.calls[s.audit[k].call].phase == Finished(s.audit[k].outcome))
    && (forall j, k | 0 <= j < k < |s.audit| :: s.audit[j].call != s.audit[k].call)
    && (forall c | 0 <= c < |s.calls| && s.calls[c].phase.Finished? ::
          AuditEntry(c, s.calls[c].phase.outcome) in s.audit)
  }

  function NewDecision(s: State, e: Event): seq<Decision> {
    if Succeeds(s, e) then [Decision(e.request, e.approve)] else []
  }

  lemma BeginKeepsLinked(s: State, e: Event)
    requires Linked(s) && e.Begin?
    ensures Linked(Step(s, e))
  {
    hide LimiterTry;
  }

  /** Every step keeps requests and calls in step with each other. */
  lemma StepKeepsLinked(s: State, e: Event)
    requires Linked(s) && Enabled(s, e)
    ensures Linked(Step(s, e))
  {
    hide BeginCall, Linked;
    if e.Begin? {
      BeginKeepsLinked(s, e);
    } else {
      SameLinks(s, Step(s, e));
    }
  }

  lemma SameLinks(s: State, t: State)
    requires Linked(s) && |t.calls| == |s.calls| && |t.requests| == |s.requests|
    requires forall c | 0 <= c < |s.calls| ::
               t.calls[c].request == s.calls[c].request && t.calls[c].info == s.calls[c].info
    requires forall r | 0 <= r < |s.requests| :: t.requests[r].call == s.requests[r].call
    ensures Linked(t)
  {
  }

  lemma BeginKeepsPhased(s: State, e: Event)
    requires Linked(s) && Phased(s) && e.Begin?
    ensures Phased(Step(s, e))
  {
    hide LimiterTry;
  }

  /** Every step keeps each call in a phase its request allows. */
  lemma StepKeepsPhased(s: State, e: Event)
    requires Linked(s) && Phased(s) && Enabled(s, e)
    ensures Phased(Step(s, e))
  {
    hide BeginCall;
    if e.Begin? {
      BeginKeepsPhased(s, e);
    }
  }

  lemma BeginKeepsDecided(s: State, e: Event, decisions: seq<Decision>)
    requires Linked(s) && Phased(s) && Decided(s, decisions) && e.Begin?
    ensures Decided(Step(s, e), decisions + NewDecision(s, e))
  {
    hide LimiterTry;
  }

  /** Every step keeps one approval behind each high-risk start. */
  lemma {:induction false} StepKeepsDecided(s: State, e: Event, decisions: seq<Decision>)
    requires Linked(s) && Phased(s) && Decided(s, decisions) && Enabled(s, e)
    ensures Decided(Step(s, e), decisions + NewDecision(s, e))
  {
    hide BeginCall;
    if e.Begin? {
      BeginKeepsDecided(s, e, decisions);
    }
  }

  lemma BeginKeepsAudited(s: State, e: Event)
    requires Audited(s) && e.Begin?
    ensures Audited(Step(s, e))
  {
    hide LimiterTry;
  }

  /** Every step keeps one audit entry per finished call. */
  lemma StepKeepsAudited(s: State, e: Event)
    requires Audited(s) && Enabled(s, e)
    ensures Audited(Step(s, e))
  {
    hide BeginCall;
    if e.Begin? {
      BeginKeepsAudited(s, e);
    }
  }

  // ---------------------------------------------------- over every interleaving

  lemma {:induction false} RunKeepsInv(events: seq<Event>)
    ensures Linked(Run(events)) && Phased(Run(events)) && Audited(Run(events))
    ensures Decided(Run(events), Decisions(events))
  {
    if events != [] {
      hide Linked, Phased, Audited, Decided, Step, Enabled, Succeeds;
      var s := Run(events[..|events| - 1]);
      var e := events[|events| - 1];
      RunKeepsInv(events[..|events| - 1]);
      if Enabled(s, e) {
        StepKeepsLinked(s, e);
        StepKeepsPhased(s, e);
        StepKeepsAudited(s, e);
        StepKeepsDecided(s, e, Decisions(events[..|events| - 1]));
      } else {
        AlwaysDecidable(s, e);
      }
    }
  }

  lemma AlwaysDecidable(s: State, e: Event)
    ensures Succeeds(s, e) ==> Enabled(s, e)
  {
  }

  /**
   * A high-risk handler starts only after exactly one successful decision on
   * its own call's request, and that decision approved it.
   */
  lemma {:induction false} ApprovedBeforeStart(events: seq<Event>, c: nat) returns (k: nat)
    requires c < |Run(events).calls| && HighRisk(Run(events).calls[c]) && Run(events).calls[c].started
    ensures Run(events).calls[c].request.Some?
    ensures var r := Run(events).calls[c].request.value;
            && r < |Run(events).requests| && Run(events).requests[r].call == c
            && k < |Decisions(events)| && Decisions(events)[k] == Decision(r, true)
            && forall j | 0 <= j < |Decisions(events)| && Decisions(events)[j].request == r :: j == k
  {
    RunKeepsInv(events);
    hide Run, Decisions;
    assert CallFits(Run(events).calls[c], Run(events).requests);
    var r := Run(events).calls[c].request.value;
    k :| 0 <= k < |Decisions(events)| && Decisions(events)[k] == Decision(r, true);
  }

  /**
   * A request that has left PENDING never comes back to it, and a finished call
   * and the audit log are never rewritten.
   */
  ghost predicate Later(s: State, t: State) {
    && |s.requests| <= |t.requests| && |s.calls| <= |t.calls| && s.audit <= t.audit
    && (forall r | 0 <= r < |s.requests| && s.requests[r].status != Pending :: t.requests[r].status != Pending)
    && (forall c | 0 <= c < |s.calls| && s.calls[c].phase.Finished? :: t.calls[c] == s.calls[c])
  }

  lemma StepIsLater(s: State, e: Event)
    requires Enabled(s, e)
    ensures Later(s, Step(s, e))
  {
    hide LimiterTry;
  }

  lemma LaterTransitive(s: State, t: State, u: State)
    requires Later(s, t) && Later(t, u)
    ensures Later(s, u)
  {
  }

  lemma LaterReflexive(s: State)
    ensures Later(s, s)
  {
  }

  lemma {:induction false} PendingNeverReentered(events: seq<Event>, more: seq<Event>)
    ensures Later(Run(events), Run(events + more))
  {
    hide Later, Step, Enabled;
    if more == [] {
      LaterReflexive(Run(events));
      assert events + more == events;
    } else {
      var n := |more| - 1;
      PendingNeverReentered(events, more[..n]);
      assert (events + more)[..|events| + n] == events + more[..n];
      var t := Run(events + more[..n]);
      if Enabled(t, more[n]) {
        StepIsLater(t, more[n]);
        LaterTransitive(Run(events), t, Step(t, more[n]));
      }
    }
  }

  function EntriesFor(audit: seq<AuditEntry>, c: nat): seq<AuditEntry> {
    if audit == [] then []
    else
      var n := |audit| - 1;
      EntriesFor(audit[..n], c) + (if audit[n].call == c then [audit[n]] else [])
  }

  lemma {:induction false} OneEntry(audit: seq<AuditEntry>, c: nat, entry: AuditEntry)
    requires forall j, k | 0 <= j < k < |audit| :: audit[j].call != audit[k].call
    ensures entry in audit && entry.call == c ==> EntriesFor(audit, c) == [entry]
    ensures (forall k | 0 <= k < |audit| :: audit[k].call != c) ==> EntriesFor(audit, c) == []
  {
    if audit != [] {
      OneEntry(audit[..|audit| - 1], c, entry);
    }
  }

  /** Each finished call has exactly one audit entry, carrying its outcome; an unfinished one has none yet. */
  lemma {:induction false} OneEntryPerCall(events: seq<Event>, c: nat)
    requires c < |Run(events).calls|
    ensures EntriesFor(Run(events).audit, c)
            == var phase := Run(events).calls[c].phase;
               if phase.Finished? then [AuditEntry(c, phase.outcome)] else []
  {
    RunKeepsInv(events);
    hide Run;
    var s := Run(events);
    OneEntry(s.audit, c, AuditEntry(c, if s.calls[c].phase.Finished? then s.calls[c].phase.outcome else Allowed));
  }

  /** An approval that is still pending is one that a suspended call is waiting for. */
  lemma {:induction false} PendingIsAwaited(events: seq<Event>, r: nat)
    requires r < |Run(events).requests| && Run(events).requests[r].status == Pending
    ensures Run(events).requests[r].call < |Run(events).calls|
    ensures Run(events).calls[Run(events).requests[r].call].phase == Awaiting(r)
    ensures forall k | 0 <= k < |Decisions(events)| :: Decisions(events)[k].request != r
  {
    RunKeepsInv(events);
  }

  /** A decided status changes in one case only: the deadline strikes before the decided call resumes. */
  lemma {:induction false} DecidedChangesOnlyByTimeout(events: seq<Event>, e: Event, r: nat)
    requires Enabled(Run(events), e)
    requires r < |Run(events).requests| && Run(events).requests[r].status in {Approved, Denied}
    ensures Step(Run(events), e).requests[r].status != Run(events).requests[r].status
            <==> e == Timeout(Run(events).requests[r].call) && Run(events).calls[e.c].phase == Awaiting(r)
  {
    RunKeepsInv(events);
    hide Run, BeginCall;
    var s := Run(events);
    if e.Begin? {
      RequestsGrow(s, e.info, e.now);
    }
  }

  lemma RequestsGrow(s: State, info: CallInfo, now: real)
    ensures s.requests <= BeginCall(s, info, now).requests
  {
    hide LimiterTry;
  }

  /** Decided statuses are therefore not final: an approved request can still expire, and its handler never starts. */
  lemma {:induction false} ApprovedThenExpired(info: CallInfo)
    requires info.spec == Some(ToolSpec(true, 60)) && info.inScope && info.argumentsValid
    ensures var events := [Begin(info, 0.0), Decide(0, true, "operator", None), Timeout(0)];
            && Decisions(events) == [Decision(0, true)]
            && |Run(events).requests| == 1 && Run(events).requests[0].status == Expired
            && |Run(events).calls| == 1
            && Run(events).calls[0].phase == Finished(DeniedApproval) && !Run(events).calls[0].started
  {
    var e0, e1, e2 := Begin(info, 0.0), Decide(0, true, "operator", None), Timeout(0);
    var events := [e0, e1, e2];
    var one, two := [e0], [e0, e1];
    assert events[..2] == two && two[..1] == one && one[..0] == [];
    assert Run(one).requests == [Request(0, Pending, None, None, false)];
    assert Run(one).calls == [CallState(info, Awaiting(0), Some(0), false)];
    assert Run(two).requests == [Request(0, Approved, Some("operator"), None, true)];
    assert Run(two).calls == Run(one).calls;
    assert Decisions(one) == [] && Decisions(two) == [Decision(0, true)];
  }

  /** A call refused by a cheap check costs no rate-limit token and no human's attention. */
  lemma {:induction false} CheapChecksFirst(s: State, info: CallInfo, now: real)
    ensures BeginCall(s, info, now).limiter != s.limiter || BeginCall(s, info, now).requests != s.requests ==>
              info.spec.Some? && info.inScope && info.argumentsValid
    ensures BeginCall(s, info, now).requests != s.requests ==> LimiterTry(s, info, now).1 && info.spec.value.highRisk
  {
    hide LimiterTry;
  }
}
