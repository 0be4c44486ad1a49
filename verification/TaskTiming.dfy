/**
 * When things happen in the task store: how long a grant or a heartbeat
 * protects a lease, and from when on a retried, requeued or reclaimed record
 * can be delivered again.
 */
module TaskTiming {
  import opened Prelude
  import opened TaskProtocol
  import opened TaskLease
  import opened TaskRuns

  /** The lease of `id` is live and runs out at `until`. */
  ghost predicate HeldUntil(s: StoreState, id: Id, token: Token, until: real) {
    Holds(s, id, token) && s.tasks[id].leasedUntil == Some(until)
  }

  /** A `lease` call ends a live lease exactly when it serves the same queue and its clock has reached the expiry. */
  lemma {:induction false} LeaseEndsAt(s: StoreState, op: Op, id: Id, token: Token, until: real)
    requires Inv(s) && FreshFor(s, op) && op.LeaseNext? && HeldUntil(s, id, token, until)
    ensures Holds(Step(s, op).0, id, token) <==> op.queue != s.tasks[id].queue || op.now < until
    ensures Holds(Step(s, op).0, id, token) ==> HeldUntil(Step(s, op).0, id, token, until)
  {
    LeaseHoldsUnlessExpired(s, op, id, token);
    LeaseEffect(s, op, id);
    hide Step, Inv, Consistent;
  }

  /** A delivery protects its holder for `leaseSeconds` from the moment it is made. */
  lemma {:induction false} GrantProtects(s: StoreState, op: Op, id: Id)
    requires Inv(s) && op.LeaseNext? && GrantsTo(Step(s, op).1, id)
    ensures HeldUntil(Step(s, op).0, id, op.freshToken, op.now + op.leaseSeconds)
  {
    LeaseGrant(s, op, id);
    LeaseEffect(s, op, id);
    hide Step, Inv, Consistent;
  }

  /** An accepted heartbeat protects its holder for `leaseSeconds` from the moment of the heartbeat. */
  lemma {:induction false} HeartbeatProtects(s: StoreState, op: Op)
    requires Consistent(s) && op.Heartbeat? && Holds(s, op.id, op.token)
    ensures HeldUntil(Step(s, op).0, op.id, op.token, op.now + op.leaseSeconds)
  {
    assert s.tasks[op.id].id == op.id;
    hide Consistent;
  }

  /** A `lease` call on this queue at this time finds `id` due and not exhausted. */
  ghost predicate Deliverable(s: StoreState, id: Id, queue: Name, now: real)
    requires Consistent(s)
  {
    var r := ReclaimAll(s, queue, now);
    id in r.tasks && Eligible(r.tasks[id], queue, now) && !Exhausted(r.tasks[id])
  }

  /** `lease` grants only what is deliverable. */
  lemma {:induction false} GrantedIsDeliverable(s: StoreState, op: Op, id: Id)
    requires Inv(s) && op.LeaseNext? && GrantsTo(Step(s, op).1, id)
    ensures Deliverable(s, id, op.queue, op.now)
  {
    LeaseGrant(s, op, id);
    LeaseEffect(s, op, id);
    hide Step, Inv, Consistent;
  }

  /** And grants something whenever anything is. */
  lemma {:induction false} DeliverableIsServed(s: StoreState, op: Op, id: Id)
    requires Inv(s) && op.LeaseNext? && Deliverable(s, id, op.queue, op.now)
    ensures Step(s, op).1.Granted?
  {
    LeaseMeetsSpec(s, op.queue, op.leaseSeconds, op.freshToken, op.now);
    hide Inv, Consistent, LeaseStep;
    var r := ReclaimAll(s, op.queue, op.now);
    assert CanRun(r, id, op.queue, op.now);
  }

  /**
   * Right after an accepted fail the record is deliverable on its queue alone,
   * from the end of its retry delay on, and only with attempts left.
   */
  lemma {:induction false} RetryWaits(s: StoreState, op: Op, queue: Name, now: real)
    requires Inv(s) && op.Fail? && Holds(s, op.id, op.token)
    ensures Consistent(Step(s, op).0)
    ensures Deliverable(Step(s, op).0, op.id, queue, now)
            <==> s.tasks[op.id].attempts < s.tasks[op.id].maxAttempts
                 && queue == s.tasks[op.id].queue && op.now + op.retryIn <= now
  {
    StepConsistent(s, op);
    hide Inv, Consistent;
  }

  /** A requeued dead letter is due at once, and deliverable exactly if its attempts were reset or not used up. */
  lemma {:induction false} RequeueIsDueAtOnce(s: StoreState, op: Op, queue: Name, now: real)
    requires Inv(s) && op.Requeue? && op.id in s.tasks && s.tasks[op.id].status == DeadLetter
    ensures Consistent(Step(s, op).0)
    ensures Deliverable(Step(s, op).0, op.id, queue, now)
            <==> queue == s.tasks[op.id].queue && op.now <= now
                 && (if op.resetAttempts then 0 else s.tasks[op.id].attempts) < s.tasks[op.id].maxAttempts
  {
    StepConsistent(s, op);
    hide Inv, Consistent;
  }

  /** A crashed holder's record is deliverable by the very `lease` call that reclaims it, and not before. */
  lemma {:induction false} CrashIsReclaimed(s: StoreState, id: Id, token: Token, until: real, queue: Name, now: real)
    requires Inv(s) && HeldUntil(s, id, token, until)
    ensures Deliverable(s, id, queue, now)
            <==> queue == s.tasks[id].queue && until <= now && s.tasks[id].attempts < s.tasks[id].maxAttempts
  {
    hide Consistent;
  }

  /** A new submission is due at once. */
  lemma {:induction false} SubmissionIsDueAtOnce(s: StoreState, op: Op, queue: Name, now: real)
    requires Inv(s) && FreshFor(s, op) && op.Submit? && (op.queue, op.key) !in s.index
    ensures Consistent(Step(s, op).0)
    ensures Deliverable(Step(s, op).0, op.freshId, queue, now)
            <==> queue == op.queue && op.now <= now && op.maxAttempts >= 1
  {
    StepConsistent(s, op);
    hide Inv, Consistent;
  }

  // --------------------------------------------------------------- over runs

  /** A pending record with attempts left is touched by nothing but its own delivery. */
  lemma {:induction false} PendingIsUntouched(s: StoreState, op: Op, id: Id)
    requires Inv(s) && FreshFor(s, op) && id in s.tasks
    requires s.tasks[id].status == Pending && !Exhausted(s.tasks[id])
    requires !GrantsTo(Step(s, op).1, id)
    ensures id in Step(s, op).0.tasks && Step(s, op).0.tasks[id] == s.tasks[id]
  {
    if op.LeaseNext? {
      LeaseEffect(s, op, id);
      hide Step, Inv, Consistent;
    } else {
      assert s.tasks[id].id == id;
      hide Inv, Consistent;
    }
  }

  /** Between step `i` and step `j` the record is not delivered. */
  ghost predicate NotGranted(ops: seq<Op>, i: nat, j: nat, id: Id)
    requires Fresh(ops) && j <= |ops|
  {
    forall k | i <= k < j :: !GrantsTo(OutcomeAt(ops, k), id)
  }

  lemma {:induction false} StaysPending(ops: seq<Op>, i: nat, j: nat, id: Id)
    requires Fresh(ops) && i <= j <= |ops| && id in At(ops, i).tasks
    requires At(ops, i).tasks[id].status == Pending && !Exhausted(At(ops, i).tasks[id])
    requires NotGranted(ops, i, j, id)
    ensures id in At(ops, j).tasks && At(ops, j).tasks[id] == At(ops, i).tasks[id]
    decreases j
  {
    hide Step, Inv, FreshFor, Run, At, Exhausted;
    if i < j {
      StaysPending(ops, i, j - 1, id);
      Advance(ops, j - 1);
      assert !GrantsTo(OutcomeAt(ops, j - 1), id);
      PendingIsUntouched(At(ops, j - 1), ops[j - 1], id);
    }
  }

  /** The first delivery of a pending record is made by a clock that has reached its `available_at`. */
  lemma {:induction false} FirstGrantIsDue(ops: seq<Op>, i: nat, j: nat, id: Id)
    requires Fresh(ops) && i <= j < |ops| && id in At(ops, i).tasks
    requires At(ops, i).tasks[id].status == Pending && !Exhausted(At(ops, i).tasks[id])
    requires NotGranted(ops, i, j, id) && GrantsTo(OutcomeAt(ops, j), id)
    ensures ops[j].LeaseNext? && ops[j].queue == At(ops, i).tasks[id].queue
    ensures At(ops, i).tasks[id].availableAt <= ops[j].now
  {
    hide Step, Inv, FreshFor, Run, At;
    StaysPending(ops, i, j, id);
    GrantFacts(ops, j, id);
    GrantedIsDue(At(ops, j), ops[j], id);
  }

  lemma GrantedIsDue(s: StoreState, op: Op, id: Id)
    requires Inv(s) && op.LeaseNext? && GrantsTo(Step(s, op).1, id) && id in s.tasks && s.tasks[id].status == Pending
    ensures op.queue == s.tasks[id].queue && s.tasks[id].availableAt <= op.now
  {
    LeaseEffect(s, op, id);
    hide Step, Inv, Consistent;
  }

  /**
   * Over a whole run: after an accepted fail that leaves attempts, the record is
   * not delivered again before its retry delay has passed by the clock of the
   * `lease` that delivers it, whatever happens in between.
   */
  lemma {:induction false} RetryIsDelayed(ops: seq<Op>, i: nat, j: nat, id: Id)
    requires Fresh(ops) && i < j < |ops| && ops[i].Fail? && ops[i].id == id && OutcomeAt(ops, i).Returned?
    requires OutcomeAt(ops, i).task.status == Pending
    requires NotGranted(ops, i + 1, j, id) && GrantsTo(OutcomeAt(ops, j), id)
    ensures ops[j].LeaseNext? && ops[i].now + ops[i].retryIn <= ops[j].now
  {
    FailLeaves(ops, i, id);
    hide *;
    FirstGrantIsDue(ops, i + 1, j, id);
  }

  lemma FailLeaves(ops: seq<Op>, i: nat, id: Id)
    requires Fresh(ops) && i < |ops| && ops[i].Fail? && ops[i].id == id && OutcomeAt(ops, i).Returned?
    requires OutcomeAt(ops, i).task.status == Pending
    ensures id in At(ops, i + 1).tasks
    ensures var t := At(ops, i + 1).tasks[id];
            t.status == Pending && !Exhausted(t) && t.availableAt == ops[i].now + ops[i].retryIn
  {
    Advance(ops, i);
    var s := At(ops, i);
    hide FreshFor, Run, At;
    FailStep(s, ops[i]);
  }

  lemma FailStep(s: StoreState, op: Op)
    requires Inv(s) && op.Fail? && Step(s, op).1.Returned? && Step(s, op).1.task.status == Pending
    ensures op.id in Step(s, op).0.tasks
    ensures var t := Step(s, op).0.tasks[op.id];
            t.status == Pending && !Exhausted(t) && t.availableAt == op.now + op.retryIn
  {
  }
}
