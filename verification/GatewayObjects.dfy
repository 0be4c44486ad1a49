/**
 * The approval queue and the gateway as objects updated in place. Each method
 * is one stretch between two suspension points and moves the gateway's view
 * exactly as a step of the `ToolGateway` machine.
 */
module GatewayObjects {
  import opened Prelude
  import opened TokenBucket
  import opened RateLimiters
  import opened ToolGateway

  class ApprovalRequest {
    /** The call that made the request. */
    ghost const call: nat
    var status: ApprovalStatus
    var decidedBy: Option<string>
    var reason: Option<string>

    constructor (ghost call: nat)
      ensures this.call == call && status == Pending && decidedBy == None && reason == None
    {
      this.call := call;
      status, decidedBy, reason := Pending, None, None;
    }
  }

  class WakeEvent {
    var isSet: bool

    constructor ()
      ensures !isSet
    {
      isSet := false;
    }
  }

  datatype DecideError = NotFound | AlreadyDecided

  class ApprovalQueue {
    /** The requests and their events, by id. */
    var requests: seq<ApprovalRequest>
    var events: seq<WakeEvent>

    ghost function Objects(): set<object>
      reads this
    {
      (set i | 0 <= i < |requests| :: requests[i] as object) + (set i | 0 <= i < |events| :: events[i] as object)
    }

    ghost predicate Valid()
      reads this
    {
      && |requests| == |events|
      && (forall i, j | 0 <= i < j < |requests| :: requests[i] != requests[j])
      && (forall i, j | 0 <= i < j < |events| :: events[i] != events[j])
    }

    ghost function RequestAt(i: nat): Request
      requires i < |requests| && i < |events|
      reads this, Objects()
    {
      Request(requests[i].call, requests[i].status, requests[i].decidedBy, requests[i].reason, events[i].isSet)
    }

    ghost function View(): seq<Request>
      requires Valid()
      reads this, Objects()
    {
      seq(|requests|, i requires 0 <= i < |requests| && Valid() reads this, Objects() => RequestAt(i))
    }

    constructor ()
      ensures Valid() && View() == []
    {
      requests, events := [], [];
    }

    /** A new pending request, up to the point where the caller suspends on its event. */
    method Register(ghost call: nat) returns (id: nat)
      requires Valid()
      modifies this
      ensures Valid() && id == |old(requests)| && fresh(Objects() - old(Objects()))
      ensures View() == old(View()) + [Request(call, Pending, None, None, false)]
    {
      var req := new ApprovalRequest(call);
      var event := new WakeEvent();
      id := |requests|;
      requests := requests + [req];
      events := events + [event];
    }

    method Decide(id: nat, approve: bool, decidedBy: string, reason: Option<string>)
      returns (r: Result<ApprovalRequest, DecideError>)
      requires Valid()
      modifies Objects()
      ensures Valid()
      ensures id >= |View()| ==> r == Err(NotFound) && View() == old(View())
      ensures id < |View()| && old(View())[id].status != Pending ==> r == Err(AlreadyDecided) && View() == old(View())
      ensures id < |View()| && old(View())[id].status == Pending ==>
                && r == Ok(requests[id])
                && View() == old(View())[id := DecidedOn(old(View())[id], approve, decidedBy, reason)]
    {
      if id >= |requests| {
        return Err(NotFound);
      }
      var req := requests[id];
      assert old(View())[id].status == req.status;
      if req.status != Pending {
        return Err(AlreadyDecided);
      }
      req.status := if approve then Approved else Denied;
      req.decidedBy := Some(decidedBy);
      req.reason := reason;
      events[id].isSet := true;
      return Ok(req);
    }

    /** The deadline passed while the caller was suspended. */
    method Expire(id: nat)
      requires Valid() && id < |requests|
      modifies Objects()
      ensures Valid() && View() == old(View())[id := old(View())[id].(status := Expired)]
    {
      requests[id].status := Expired;
    }

    /** The ids of the requests nobody has decided yet, in the order they were made. */
    method ListPending() returns (ids: seq<nat>)
      requires Valid()
      ensures forall k | 0 <= k < |ids| :: ids[k] < |View()| && View()[ids[k]].status == Pending
      ensures forall j, k | 0 <= j < k < |ids| :: ids[j] < ids[k]
      ensures forall i | 0 <= i < |View()| && View()[i].status == Pending :: i in ids
    {
      ids := [];
      for i := 0 to |requests|
        invariant forall k | 0 <= k < |ids| :: ids[k] < i && requests[ids[k]].status == Pending
        invariant forall j, k | 0 <= j < k < |ids| :: ids[j] < ids[k]
        invariant forall j | 0 <= j < i && requests[j].status == Pending :: j in ids
      {
        if requests[i].status == Pending {
          ids := ids + [i];
        }
      }
    }
  }

  class Gateway {
    const limiter: ToolRateLimiter
    const approvals: ApprovalQueue
    var auditLog: seq<AuditEntry>
    /** Where each call's coroutine stands: the values of its local variables. */
    var calls: seq<CallState>

    ghost predicate Valid()
      reads this, limiter, approvals
    {
      limiter.Valid() && approvals.Valid()
    }

    ghost function View(): State
      requires Valid()
      reads this, limiter, limiter.buckets.Values, approvals, approvals.Objects()
    {
      State(limiter.View(), calls, approvals.View(), auditLog)
    }

    constructor ()
      ensures Valid() && View() == Initial()
    {
      limiter := new ToolRateLimiter();
      approvals := new ApprovalQueue();
      auditLog, calls := [], [];
    }

    /** A call refused by its checks: one audit entry, and nothing else to remember of it. */
    method TurnAway(info: CallInfo, outcome: CallOutcome)
      requires Valid()
      modifies this
      ensures Valid() && View() == Turned(old(View()), info, outcome)
    {
      auditLog := auditLog + [AuditEntry(|calls|, outcome)];
      calls := calls + [CallState(info, Finished(outcome), None, false)];
    }

    method Close(c: nat, outcome: CallOutcome)
      requires Valid() && c < |calls|
      modifies this
      ensures Valid() && View() == Finish(old(View()), c, outcome)
    {
      auditLog := auditLog + [AuditEntry(c, outcome)];
      calls := calls[c := calls[c].(phase := Finished(outcome))];
    }

    /** From the start of a call to its first suspension, or to its refusal. */
    method Call(info: CallInfo, now: real)
      requires Valid()
      modifies this, limiter, limiter.buckets.Values, approvals
      ensures Valid() && View() == BeginCall(old(View()), info, now)
      ensures fresh(limiter.buckets.Values - old(limiter.buckets.Values))
      ensures fresh(approvals.Objects() - old(approvals.Objects()))
    {
      hide KeyedTry, ToolLimits, Turned, Admitted;
      if info.spec.None? {
        TurnAway(info, Failed);
        return;
      }
      if !info.inScope {
        TurnAway(info, DeniedScope);
        return;
      }
      if !info.argumentsValid {
        TurnAway(info, DeniedValidation);
        return;
      }
      ghost var s := View();
      var acquired := limiter.Acquire(info.tenant, info.tool, info.spec.value.ratePerMinute, now);
      assert View() == s.(limiter := LimiterTry(s, info, now).0);
      if acquired.Err? {
        TurnAway(info, DeniedRateLimit);
        return;
      }
      Admit(info);
    }

    method Admit(info: CallInfo)
      requires Valid() && info.spec.Some?
      modifies this, approvals
      ensures Valid() && View() == Admitted(old(View()), info)
      ensures fresh(approvals.Objects() - old(approvals.Objects()))
    {
      if info.spec.value.highRisk {
        var id := approvals.Register(|calls|);
        calls := calls + [CallState(info, Awaiting(id), Some(id), false)];
      } else {
        calls := calls + [CallState(info, Handling, None, true)];
      }
    }

    /** The event was set: the call wakes up and looks at the decision. */
    method Wake(c: nat)
      requires Valid() && Enabled(View(), Resume(c))
      modifies this
      ensures Valid() && View() == Step(old(View()), Resume(c))
    {
      var id := calls[c].phase.request;
      assert View().requests[id].status == approvals.requests[id].status;
      if approvals.requests[id].status == Denied {
        Close(c, DeniedApproval);
      } else {
        calls := calls[c := calls[c].(phase := Handling, started := true)];
      }
    }

    /** The approval deadline passed before the call woke up. */
    method TimeOut(c: nat)
      requires Valid() && Enabled(View(), Timeout(c))
      modifies this, approvals.Objects()
      ensures Valid() && View() == Step(old(View()), Timeout(c))
    {
      hide KeyedTry;
      ghost var s := View();
      var id := calls[c].phase.request;
      approvals.Expire(id);
      assert View() == s.(requests := s.requests[id := s.requests[id].(status := Expired)]);
      Close(c, DeniedApproval);
    }

    method HandlerDone(c: nat, raised: bool)
      requires Valid() && Enabled(View(), HandlerReturned(c))
      modifies this
      ensures Valid() && View() == Step(old(View()), if raised then HandlerRaised(c) else HandlerReturned(c))
    {
      Close(c, if raised then Failed else Allowed);
    }

    /** A human decides, at any moment. */
    method Decide(id: nat, approve: bool, decidedBy: string, reason: Option<string>)
      returns (r: Result<ApprovalRequest, DecideError>)
      requires Valid()
      modifies approvals.Objects()
      ensures Valid() && View() == Step(old(View()), Event.Decide(id, approve, decidedBy, reason))
      ensures r.Ok? <==> Succeeds(old(View()), Event.Decide(id, approve, decidedBy, reason))
    {
      ghost var s := View();
      r := approvals.Decide(id, approve, decidedBy, reason);
      assert View() == s.(requests := approvals.View());
    }
  }
}
