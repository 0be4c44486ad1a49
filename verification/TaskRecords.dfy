/**
 * Every field of a record, explained by what has happened to it: which `lease`
 * calls delivered, reclaimed or buried it, which settlements were accepted, and
 * the `submit` it came from. None of this mentions how a step is computed.
 */
module TaskRecords {
  import opened Prelude
  import opened TaskProtocol
  import opened TaskLease
  import opened TaskRuns
  import opened TaskHistory

  // ------------------------------------------------------ what can befall a record

  /** A `lease` on its queue finds the record's own lease run out. */
  ghost predicate ReclaimedBy(t: TaskState, op: Op) {
    op.LeaseNext? && t.queue == op.queue && t.status == Leased && t.leasedUntil.Some? && t.leasedUntil.value <= op.now
  }

  /** A `lease` on its queue finds the record waiting, or just reclaimed. */
  ghost predicate DueFor(t: TaskState, op: Op) {
    ReclaimedBy(t, op) || (op.LeaseNext? && t.queue == op.queue && t.status == Pending && t.availableAt <= op.now)
  }

  ghost function VisibleSince(t: TaskState, op: Op): real
    requires op.LeaseNext?
  {
    if ReclaimedBy(t, op) then op.now else t.availableAt
  }

  /** Visible longer when this `lease` looks; among equals, submitted earlier. */
  ghost predicate GoesBefore(s: StoreState, op: Op, a: Id, b: Id)
    requires Consistent(s) && op.LeaseNext? && a in s.tasks && b in s.tasks
  {
    var x, y := VisibleSince(s.tasks[a], op), VisibleSince(s.tasks[b], op);
    x < y || (x == y && Position(s.ids, a) < Position(s.ids, b))
  }

  ghost predicate CouldRun(s: StoreState, op: Op, id: Id) {
    id in s.tasks && DueFor(s.tasks[id], op) && s.tasks[id].attempts < s.tasks[id].maxAttempts
  }

  /** The first of those that could run. */
  ghost predicate FirstToRun(s: StoreState, op: Op, id: Id)
    requires Consistent(s) && op.LeaseNext?
  {
    CouldRun(s, op, id) && forall other | CouldRun(s, op, other) && other != id :: GoesBefore(s, op, id, other)
  }

  /** Due with its attempts used up, and not behind the task that this `lease` delivers. */
  ghost predicate BuriedBy(s: StoreState, op: Op, out: Outcome, id: Id)
    requires Consistent(s)
  {
    && id in s.tasks && DueFor(s.tasks[id], op) && s.tasks[id].attempts >= s.tasks[id].maxAttempts
    && (out.Granted? ==> out.lease.taskId in s.tasks && GoesBefore(s, op, id, out.lease.taskId))
  }

  /** The caller presents the token of the record's present lease. */
  ghost predicate ByHolder(t: TaskState, op: Op) {
    && (op.Heartbeat? || op.Checkpoint? || op.Ack? || op.Fail?)
    && op.id == t.id && t.status == Leased && t.leaseToken == Some(op.token)
  }

  ghost predicate RequeuedBy(t: TaskState, op: Op) {
    op.Requeue? && op.id == t.id && t.status == DeadLetter
  }

  // ------------------------------------------------------------- one `lease`

  /** The snapshot a `lease` looks at, in terms of the one before it. */
  lemma Looks(s: StoreState, op: Op, id: Id)
    requires Consistent(s) && op.LeaseNext? && id in s.tasks
    ensures var r := ReclaimAll(s, op.queue, op.now);
            && id in r.tasks && r.ids == s.ids
            && r.tasks[id] == (if ReclaimedBy(s.tasks[id], op)
                               then s.tasks[id].(status := Pending, availableAt := op.now, leaseToken := None,
                                                 leasedUntil := None, updatedAt := op.now)
                               else s.tasks[id])
            && (Eligible(r.tasks[id], op.queue, op.now) <==> DueFor(s.tasks[id], op))
            && (Exhausted(r.tasks[id]) <==> s.tasks[id].attempts >= s.tasks[id].maxAttempts)
            && (DueFor(s.tasks[id], op) ==> r.tasks[id].availableAt == VisibleSince(s.tasks[id], op))
  {
  }

  lemma LooksInOrder(s: StoreState, op: Op, a: Id, b: Id)
    requires Consistent(s) && op.LeaseNext? && a in s.tasks && b in s.tasks
    requires Consistent(ReclaimAll(s, op.queue, op.now))
    requires DueFor(s.tasks[a], op) && DueFor(s.tasks[b], op)
    ensures var r := ReclaimAll(s, op.queue, op.now);
            a in r.tasks && b in r.tasks && (Before(r, a, b) <==> GoesBefore(s, op, a, b))
  {
    Looks(s, op, a);
    Looks(s, op, b);
    hide Consistent, ReclaimAll, DueFor, VisibleSince, Position;
  }

  /** One record across one `lease`. */
  ghost predicate LeaseLaw(s: StoreState, op: Op, s': StoreState, out: Outcome, id: Id)
    requires Consistent(s) && op.LeaseNext? && id in s.tasks && id in s'.tasks
  {
    var t := s.tasks[id];
    var seen := if ReclaimedBy(t, op)
                then t.(status := Pending, availableAt := op.now, leaseToken := None, leasedUntil := None,
                        updatedAt := op.now)
                else t;
    s'.tasks[id]
    == if GrantsTo(out, id) then
         seen.(status := Leased, attempts := t.attempts + 1, leaseToken := Some(op.freshToken),
               leasedUntil := Some(op.now + op.leaseSeconds), updatedAt := op.now)
       else if BuriedBy(s, op, out, id) then
         seen.(status := DeadLetter, attempts := t.attempts + 1, updatedAt := op.now,
               lastError := if t.lastError == None || t.lastError == Some("")
                            then Some("max delivery attempts exceeded") else t.lastError)
       else seen
  }

  ghost function Delivers(out: Outcome): Option<Id> {
    if out.Granted? then Some(out.lease.taskId) else None
  }

  /** The winner, seen from the original snapshot. */
  lemma FirstIsWinner(s: StoreState, op: Op, w: Option<Id>, id: Id)
    requires Consistent(s) && op.LeaseNext? && Consistent(ReclaimAll(s, op.queue, op.now)) && id in s.tasks
    requires var r := ReclaimAll(s, op.queue, op.now);
             match w
             case Some(x) => IsWinner(r, x, op.queue, op.now)
             case None => forall x | x in r.tasks :: !CanRun(r, x, op.queue, op.now)
    ensures w == Some(id) <==> FirstToRun(s, op, id)
  {
    var r := ReclaimAll(s, op.queue, op.now);
    assert r.tasks.Keys == s.tasks.Keys;
    forall x | x in s.tasks ensures CanRun(r, x, op.queue, op.now) <==> CouldRun(s, op, x) {
      Looks(s, op, x);
    }
    forall x, y | x in s.tasks && y in s.tasks && CouldRun(s, op, x) && CouldRun(s, op, y)
      ensures Before(r, x, y) <==> GoesBefore(s, op, x, y)
    {
      LooksInOrder(s, op, x, y);
    }
    hide Before, CanRun, CouldRun, Consistent, ReclaimAll, Position;
  }

  lemma BuriedIsBuriedBy(s: StoreState, op: Op, w: Option<Id>, out: Outcome, id: Id)
    requires Consistent(s) && op.LeaseNext? && Consistent(ReclaimAll(s, op.queue, op.now)) && id in s.tasks
    requires Delivers(out) == w && (w.Some? ==> w.value in s.tasks && DueFor(s.tasks[w.value], op))
    ensures var r := ReclaimAll(s, op.queue, op.now);
            && id in r.tasks && (w.Some? ==> w.value in r.tasks)
            && (Buried(r, id, w, op.queue, op.now) <==> BuriedBy(s, op, out, id))
  {
    Looks(s, op, id);
    if w.Some? {
      Looks(s, op, w.value);
      if DueFor(s.tasks[id], op) {
        LooksInOrder(s, op, id, w.value);
      }
    }
    hide Before, GoesBefore, Eligible, DueFor, Exhausted, Consistent, ReclaimAll;
  }

  /**
   * A `lease` in one sentence, over the snapshot it is called on: it delivers
   * the first record that is due with attempts left, buries those due before it
   * with none left, and reclaims the run-out leases of its queue.
   */
  lemma {:induction false} LeaseInOneSentence(s: StoreState, op: Op, id: Id)
    requires Consistent(s) && op.LeaseNext? && id in s.tasks
    ensures var (s', out) := Step(s, op);
            && id in s'.tasks && LeaseLaw(s, op, s', out, id)
            && (GrantsTo(out, id) <==> FirstToRun(s, op, id))
            && (GrantsTo(out, id) ==>
                  out.lease == Lease(id, op.freshToken, op.queue, s.tasks[id].attempts + 1, s.tasks[id].payload,
                                     s.tasks[id].checkpoint))
  {
    LeaseMeetsSpec(s, op.queue, op.leaseSeconds, op.freshToken, op.now);
    hide LeaseStep, Winner;
    var r := ReclaimAll(s, op.queue, op.now);
    var w := Winner(r, op.queue, op.now);
    var (s', out) := Step(s, op);
    hide *;
    Sentence(s, op, r, w, s', out, id);
  }

  lemma Sentence(s: StoreState, op: Op, r: StoreState, w: Option<Id>, s': StoreState, out: Outcome, id: Id)
    requires Consistent(s) && op.LeaseNext? && id in s.tasks
    requires r == ReclaimAll(s, op.queue, op.now) && Consistent(r)
    requires LeaseSpec(r, op.queue, op.leaseSeconds, op.freshToken, op.now, w, s', out)
    ensures id in s'.tasks && LeaseLaw(s, op, s', out, id)
    ensures GrantsTo(out, id) <==> FirstToRun(s, op, id)
    ensures GrantsTo(out, id) ==>
              out.lease == Lease(id, op.freshToken, op.queue, s.tasks[id].attempts + 1, s.tasks[id].payload,
                                 s.tasks[id].checkpoint)
  {
    FirstIsWinner(s, op, w, id);
    assert w.Some? ==> r.tasks[w.value].id == w.value;
    Looks(s, op, id);
    if w.Some? {
      Looks(s, op, w.value);
    }
    hide Winner, Buried, BuriedBy, FirstToRun, Consistent, ReclaimAll, DueFor, Exhausted, Before;
    BuriedIsBuriedBy(s, op, w, out, id);
  }

  // ------------------------------------------------------ one record, any operation

  /** An accepted fail with attempts left, and one without. */
  ghost predicate RetriedBy(t: TaskState, op: Op) {
    op.Fail? && ByHolder(t, op) && t.attempts < t.maxAttempts
  }

  ghost predicate FailedBy(t: TaskState, op: Op) {
    op.Fail? && ByHolder(t, op) && t.attempts >= t.maxAttempts
  }

  ghost predicate AckedBy(t: TaskState, op: Op) {
    op.Ack? && ByHolder(t, op)
  }

  ghost predicate SavedBy(t: TaskState, op: Op) {
    op.Checkpoint? && ByHolder(t, op)
  }

  /** Why each field of a record has the value it has after one operation. */
  ghost predicate Explained(t: TaskState, t': TaskState, op: Op, granted: bool, buried: bool) {
    SameIdentity(t, t') && Progress(t, t', op, granted, buried) && Ownership(t, t', op, granted)
    && Content(t, t', op, buried)
  }

  ghost predicate Progress(t: TaskState, t': TaskState, op: Op, granted: bool, buried: bool) {
    && t'.status == (if granted then Leased
                     else if buried || FailedBy(t, op) then DeadLetter
                     else if AckedBy(t, op) then Succeeded
                     else if ReclaimedBy(t, op) || RetriedBy(t, op) || RequeuedBy(t, op) then Pending
                     else t.status)
    && t'.attempts == (if granted || buried then t.attempts + 1
                       else if RequeuedBy(t, op) && op.resetAttempts then 0 else t.attempts)
    && t'.availableAt == (if ReclaimedBy(t, op) || RequeuedBy(t, op) then op.now
                          else if RetriedBy(t, op) then op.now + op.retryIn else t.availableAt)
  }

  ghost predicate Ownership(t: TaskState, t': TaskState, op: Op, granted: bool) {
    var released := ReclaimedBy(t, op) || AckedBy(t, op) || RetriedBy(t, op) || FailedBy(t, op);
    && t'.leaseToken == (if granted && op.LeaseNext? then Some(op.freshToken)
                         else if released then None else t.leaseToken)
    && t'.leasedUntil == (if (granted && op.LeaseNext?) || (op.Heartbeat? && ByHolder(t, op))
                          then Some(op.now + op.leaseSeconds)
                          else if released then None else t.leasedUntil)
  }

  ghost predicate Content(t: TaskState, t': TaskState, op: Op, buried: bool) {
    && t'.lastError == (if op.Fail? && ByHolder(t, op) then Some(op.error)
                        else if buried && (t.lastError == None || t.lastError == Some(""))
                        then Some("max delivery attempts exceeded") else t.lastError)
    && (if SavedBy(t, op) then Overlaid(t.checkpoint, op.patch, t'.checkpoint) else t'.checkpoint == t.checkpoint)
    && (t' != t ==> !op.Get? && !op.ListDeadLetter? && t'.updatedAt == op.now)
  }

  /** A write laid over a checkpoint: its own keys with its own values, every other key as it was. */
  ghost predicate Overlaid(before: Option<Fields>, patch: Fields, after: Option<Fields>) {
    && after.Some?
    && (forall k | k in patch :: k in after.value && after.value[k] == patch[k])
    && (forall k | k !in patch :: k in after.value <==> before.Some? && k in before.value)
    && (forall k | k !in patch && before.Some? && k in before.value && k in after.value ::
          after.value[k] == before.value[k])
  }

  lemma LawExplains(s: StoreState, op: Op, s': StoreState, out: Outcome, id: Id)
    requires Consistent(s) && op.LeaseNext? && id in s.tasks && id in s'.tasks && WellFormed(s.tasks[id])
    requires LeaseLaw(s, op, s', out, id) && (GrantsTo(out, id) ==> FirstToRun(s, op, id))
    ensures Progress(s.tasks[id], s'.tasks[id], op, GrantsTo(out, id), BuriedBy(s, op, out, id))
    ensures Ownership(s.tasks[id], s'.tasks[id], op, GrantsTo(out, id))
  {
    hide Consistent, GoesBefore;
  }

  lemma LawKeepsContent(s: StoreState, op: Op, s': StoreState, out: Outcome, id: Id)
    requires Consistent(s) && op.LeaseNext? && id in s.tasks && id in s'.tasks
    requires LeaseLaw(s, op, s', out, id) && (GrantsTo(out, id) ==> FirstToRun(s, op, id))
    ensures SameIdentity(s.tasks[id], s'.tasks[id])
    ensures Content(s.tasks[id], s'.tasks[id], op, BuriedBy(s, op, out, id))
  {
    hide Consistent, GoesBefore, DueFor;
  }

  lemma LeaseExplained(s: StoreState, op: Op, id: Id)
    requires Inv(s) && op.LeaseNext? && id in s.tasks
    ensures var (s', out) := Step(s, op);
            && id in s'.tasks
            && Explained(s.tasks[id], s'.tasks[id], op, GrantsTo(out, id), BuriedBy(s, op, out, id))
  {
    LeaseInOneSentence(s, op, id);
    assert WellFormed(s.tasks[id]);
    var (s', out) := Step(s, op);
    hide Step, Inv, Consistent, FirstToRun, BuriedBy, LeaseLaw, Progress, Ownership, Content;
    LawExplains(s, op, s', out, id);
    LawKeepsContent(s, op, s', out, id);
  }

  lemma WriteExplained(s: StoreState, op: Op, id: Id)
    requires Consistent(s) && (op.Heartbeat? || op.Checkpoint?) && id in s.tasks
    ensures id in Step(s, op).0.tasks && Explained(s.tasks[id], Step(s, op).0.tasks[id], op, false, false)
  {
    assert s.tasks[id].id == id;
    hide Consistent;
  }

  lemma SettlementExplained(s: StoreState, op: Op, id: Id)
    requires Consistent(s) && (op.Ack? || op.Fail?) && id in s.tasks
    ensures id in Step(s, op).0.tasks && Explained(s.tasks[id], Step(s, op).0.tasks[id], op, false, false)
  {
    assert s.tasks[id].id == id;
    hide Consistent;
  }

  lemma RequeueExplained(s: StoreState, op: Op, id: Id)
    requires Consistent(s) && op.Requeue? && id in s.tasks
    ensures id in Step(s, op).0.tasks && Explained(s.tasks[id], Step(s, op).0.tasks[id], op, false, false)
  {
    assert s.tasks[id].id == id;
    hide Consistent;
  }

  lemma RestExplained(s: StoreState, op: Op, id: Id)
    requires Inv(s) && FreshFor(s, op) && (op.Submit? || op.Get? || op.ListDeadLetter?) && id in s.tasks
    ensures id in Step(s, op).0.tasks && Explained(s.tasks[id], Step(s, op).0.tasks[id], op, false, false)
  {
    assert s.tasks[id].id == id;
    hide Inv, Consistent;
  }

  lemma OtherExplained(s: StoreState, op: Op, id: Id)
    requires Inv(s) && FreshFor(s, op) && !op.LeaseNext? && id in s.tasks
    ensures id in Step(s, op).0.tasks && Explained(s.tasks[id], Step(s, op).0.tasks[id], op, false, false)
  {
    hide Step, Explained, Consistent;
    if op.Heartbeat? || op.Checkpoint? {
      WriteExplained(s, op, id);
    } else if op.Ack? || op.Fail? {
      SettlementExplained(s, op, id);
    } else if op.Requeue? {
      RequeueExplained(s, op, id);
    } else {
      RestExplained(s, op, id);
    }
  }

  /**
   * Every field of a record after any operation, in terms of what that
   * operation was and found: nothing else ever changes a record.
   */
  lemma {:induction false} RecordLaw(s: StoreState, op: Op, id: Id)
    requires Inv(s) && FreshFor(s, op) && id in s.tasks
    ensures var (s', out) := Step(s, op);
            && id in s'.tasks
            && Explained(s.tasks[id], s'.tasks[id], op, GrantsTo(out, id), BuriedBy(s, op, out, id))
    ensures GrantsTo(Step(s, op).1, id) ==> op.LeaseNext? && FirstToRun(s, op, id)
  {
    if op.LeaseNext? {
      LeaseExplained(s, op, id);
      LeaseInOneSentence(s, op, id);
    } else {
      OtherExplained(s, op, id);
      if Step(s, op).1.Granted? {
        OnlyLeaseGrants(s, op);
      }
    }
    hide Step, Explained, Inv;
  }

  // ----------------------------------------------------------------- answers

  /** The operations that name a record answer with it as it then is, or refuse and change nothing. */
  lemma {:induction false} AnswerLaw(s: StoreState, op: Op, id: Id)
    requires Inv(s) && FreshFor(s, op) && !op.Submit? && !op.LeaseNext? && !op.ListDeadLetter? && op.id == id
    ensures var (s', out) := Step(s, op);
            if id !in s.tasks then s' == s && out == TaskNotFound
            else
              var t := s.tasks[id];
              && id in s'.tasks
              && (op.Get? ==> out == Returned(t) && s' == s)
              && (op.Requeue? ==> out == if RequeuedBy(t, op) then Returned(s'.tasks[id]) else WrongStatus(t.status))
              && (op.Ack? || op.Fail? ==> out == if ByHolder(t, op) then Returned(s'.tasks[id]) else LeaseExpired)
              && (op.Heartbeat? || op.Checkpoint? ==> out == if ByHolder(t, op) then Done else LeaseExpired)
              && (!op.Get? && !ByHolder(t, op) && !RequeuedBy(t, op) ==> s' == s)
  {
    assert id in s.tasks ==> s.tasks[id].id == id;
    hide Inv, Consistent;
  }

  // ---------------------------------------------------------------- over runs

  /** The record that a `submit` makes. */
  lemma MadeBySubmit(s: StoreState, op: Op, id: Id)
    requires Inv(s) && FreshFor(s, op) && id !in s.tasks && id in Step(s, op).0.tasks
    ensures op.Submit? && op.freshId == id
    ensures Step(s, op).0.tasks[id]
            == TaskState(id, op.queue, op.key, op.payload, op.maxAttempts, Pending, 0, op.now, None, None, None, None,
                         op.now, op.now)
  {
    StepKeepsTask(s, op, id);
    hide Inv, Consistent;
  }

  /** A record carries the queue, key, payload, limit and time of the `submit` that drew its id. */
  lemma {:induction false} ComesFromSubmit(ops: seq<Op>, n: nat, id: Id) returns (i: nat)
    requires Fresh(ops) && n <= |ops| && id in At(ops, n).tasks
    ensures i < n && ops[i].Submit? && ops[i].freshId == id
    ensures var t := At(ops, n).tasks[id];
            && t.queue == ops[i].queue && t.key == ops[i].key && t.payload == ops[i].payload
            && t.maxAttempts == ops[i].maxAttempts && t.createdAt == ops[i].now && t.id == id
  {
    hide Step, FreshFor, At, Consistent, Holds;
    StartsEmpty(ops);
    Advance(ops, n - 1);
    if id in At(ops, n - 1).tasks {
      i := ComesFromSubmit(ops, n - 1, id);
      TaskPersists(ops, n - 1, n, id);
    } else {
      i := n - 1;
      MadeBySubmit(At(ops, n - 1), ops[n - 1], id);
    }
  }

  /** So does every delivery, and its attempt number is within that limit. */
  lemma {:induction false} DeliversWhatWasSubmitted(ops: seq<Op>, n: nat, id: Id) returns (i: nat)
    requires Fresh(ops) && n < |ops| && GrantsTo(OutcomeAt(ops, n), id)
    ensures i < n && ops[i].Submit? && ops[i].freshId == id
    ensures ops[n].LeaseNext? && ops[n].queue == ops[i].queue
    ensures var lease := OutcomeAt(ops, n).lease;
            && lease.queue == ops[i].queue && lease.payload == ops[i].payload && lease.token == ops[n].freshToken
            && 1 <= lease.attempt <= ops[i].maxAttempts
  {
    GrantFacts(ops, n, id);
    i := ComesFromSubmit(ops, n, id);
    Advance(ops, n);
    hide Step, Inv, FreshFor, At, Run, FirstToRun;
    LeaseInOneSentence(At(ops, n), ops[n], id);
    assert FirstToRun(At(ops, n), ops[n], id);
  }

  // ------------------------------------------------------------- dead letters

  /** Step `k` buries the record, or accepts a fail of its last attempt. */
  ghost predicate DiesAt(ops: seq<Op>, k: nat, id: Id)
    requires Fresh(ops) && k < |ops|
  {
    && id in At(ops, k).tasks
    && (BuriedBy(At(ops, k), ops[k], OutcomeAt(ops, k), id) || FailedBy(At(ops, k).tasks[id], ops[k]))
  }

  ghost predicate RevivedAt(ops: seq<Op>, k: nat, id: Id)
    requires Fresh(ops) && k < |ops|
  {
    ops[k].Requeue? && ops[k].id == id && OutcomeAt(ops, k).Returned?
  }

  /** The status of one record across one step, as far as dead letters go. */
  lemma DeadLetterStep(s: StoreState, op: Op, id: Id)
    requires Inv(s) && FreshFor(s, op) && id in s.tasks
    ensures var (s', out) := Step(s, op);
            var dies := BuriedBy(s, op, out, id) || FailedBy(s.tasks[id], op);
            var revived := op.Requeue? && op.id == id && out.Returned?;
            && id in s'.tasks
            && (s'.tasks[id].status == DeadLetter <==> dies || (s.tasks[id].status == DeadLetter && !revived))
            && (s.tasks[id].status == DeadLetter ==> !GrantsTo(out, id))
            && (revived ==> !dies && s.tasks[id].status == DeadLetter)
  {
    RecordLaw(s, op, id);
    if op.Requeue? && op.id == id {
      AnswerLaw(s, op, id);
    }
    assert s.tasks[id].id == id;
    hide Step, Inv, Consistent, FreshFor, SameIdentity, Ownership, Content, GoesBefore;
  }

  lemma DiesOrStays(ops: seq<Op>, n: nat, id: Id)
    requires Fresh(ops) && n < |ops| && id in At(ops, n).tasks
    ensures id in At(ops, n + 1).tasks
    ensures At(ops, n + 1).tasks[id].status == DeadLetter
            <==> DiesAt(ops, n, id) || (At(ops, n).tasks[id].status == DeadLetter && !RevivedAt(ops, n, id))
    ensures At(ops, n).tasks[id].status == DeadLetter ==> !GrantsTo(OutcomeAt(ops, n), id)
    ensures RevivedAt(ops, n, id) ==> At(ops, n).tasks[id].status == DeadLetter && !DiesAt(ops, n, id)
  {
    Advance(ops, n);
    hide Step, Inv, FreshFor, BuriedBy, FailedBy, GrantsTo, Run, At;
    DeadLetterStep(At(ops, n), ops[n], id);
  }

  lemma Unborn(ops: seq<Op>, n: nat, id: Id)
    requires Fresh(ops) && n < |ops| && id !in At(ops, n).tasks && id in At(ops, n + 1).tasks
    ensures At(ops, n + 1).tasks[id].status == Pending
    ensures forall k: nat | k <= n :: !DiesAt(ops, k, id)
  {
    hide Step, FreshFor, At, Inv;
    Advance(ops, n);
    MadeBySubmit(At(ops, n), ops[n], id);
    forall k: nat | k <= n && id in At(ops, k).tasks ensures false {
      TaskPersists(ops, k, n, id);
    }
  }

  /** Step `k` is where the record died last. */
  ghost predicate DeadSince(ops: seq<Op>, k: nat, n: nat, id: Id)
    requires Fresh(ops) && n <= |ops|
  {
    k < n && DiesAt(ops, k, id) && forall l | k < l < n :: !RevivedAt(ops, l, id)
  }

  /**
   * A task is dead-lettered exactly when a `lease` that found it due with no
   * attempt left, or an accepted fail of its last attempt, came after its last
   * accepted requeue; and while it is, it is not delivered.
   */
  lemma {:induction false} DeadLetterIff(ops: seq<Op>, n: nat, id: Id)
    requires Fresh(ops) && n <= |ops| && id in At(ops, n).tasks
    ensures At(ops, n).tasks[id].status == DeadLetter <==> exists k: nat :: DeadSince(ops, k, n, id)
    ensures At(ops, n).tasks[id].status == DeadLetter && n < |ops| ==> !GrantsTo(OutcomeAt(ops, n), id)
  {
    hide Inv, At, Run, OutcomeAt, Fresh, DiesAt, RevivedAt, GrantsTo;
    if n < |ops| {
      DiesOrStays(ops, n, id);
    }
    StartsEmpty(ops);
    var last := n - 1;
    if id in At(ops, last).tasks {
      DeadLetterIff(ops, last, id);
      DiesOrStays(ops, last, id);
      if !RevivedAt(ops, last, id) {
        if k: nat :| DeadSince(ops, k, last, id) {
          assert DeadSince(ops, k, n, id);
        }
      }
      if DiesAt(ops, last, id) {
        assert DeadSince(ops, last, n, id);
      }
      if k: nat :| DeadSince(ops, k, n, id) && k < last {
        assert DeadSince(ops, k, last, id) && !RevivedAt(ops, last, id);
      }
    } else {
      Unborn(ops, last, id);
    }
  }

  // -------------------------------------------------------------- checkpoints

  /** The last of the writes that has the key. */
  ghost predicate LastWithKey(patches: seq<Fields>, i: nat, key: Name) {
    i < |patches| && key in patches[i] && forall j | i < j < |patches| :: key !in patches[j]
  }

  /** What a merge of writes holds under a key: what the last write with that key put there. */
  lemma {:induction false} MergeIsLastWrite(patches: seq<Fields>, key: Name)
    ensures MergeAll(patches) == None <==> patches == []
    ensures forall i: nat | LastWithKey(patches, i, key) ::
              MergeAll(patches).Some? && key in MergeAll(patches).value
              && MergeAll(patches).value[key] == patches[i][key]
    ensures MergeAll(patches).Some? && key in MergeAll(patches).value ==>
              exists i: nat :: LastWithKey(patches, i, key)
  {
    if patches != [] {
      var n := |patches| - 1;
      MergeIsLastWrite(patches[..n], key);
      if key in patches[n] {
        assert LastWithKey(patches, n, key);
      }
      forall i: nat | LastWithKey(patches, i, key) && i < n ensures LastWithKey(patches[..n], i, key) {
      }
      if key !in patches[n] {
        if i: nat :| LastWithKey(patches[..n], i, key) {
          assert LastWithKey(patches, i, key);
        }
      }
    }
  }

  /** A delivery resumes, key by key, from the last accepted write of that key, whoever made it. */
  lemma {:induction false} ResumesFromLastWrite(ops: seq<Op>, n: nat, id: Id, key: Name)
    requires Fresh(ops) && n < |ops| && GrantsTo(OutcomeAt(ops, n), id)
    ensures var patches, checkpoint := AcceptedPatches(ops, n, id), OutcomeAt(ops, n).lease.checkpoint;
            && (checkpoint == None <==> patches == [])
            && (forall i: nat | LastWithKey(patches, i, key) ::
                  checkpoint.Some? && key in checkpoint.value && checkpoint.value[key] == patches[i][key])
            && (checkpoint.Some? && key in checkpoint.value ==> exists i: nat :: LastWithKey(patches, i, key))
  {
    DeliveryResumes(ops, n, id);
    MergeIsLastWrite(AcceptedPatches(ops, n, id), key);
    hide LastWithKey, OutcomeAt, Fresh, MergeAll;
  }
}
