/**
 * Waiting in the task store: who can be delivered before a task that is due,
 * and after how many `lease` calls on its queue it has been delivered itself.
 */
module TaskFairness {
  import opened Prelude
  import opened TaskProtocol
  import opened TaskLease
  import opened TaskRuns
  import opened TaskTiming

  /** The task is pending on this queue and has attempts left. */
  ghost predicate Waits(s: StoreState, id: Id, queue: Name) {
    id in s.tasks && s.tasks[id].queue == queue && s.tasks[id].status == Pending && !Exhausted(s.tasks[id])
  }

  /** `other` waits on the same queue and comes before `id`. */
  ghost predicate IsAhead(s: StoreState, other: Id, id: Id)
    requires Consistent(s) && id in s.tasks
  {
    && other in s.tasks && s.tasks[other].queue == s.tasks[id].queue && s.tasks[other].status == Pending
    && !Exhausted(s.tasks[other]) && Before(s, other, id)
  }

  ghost function Ahead(s: StoreState, id: Id): set<Id>
    requires Consistent(s) && id in s.tasks
  {
    set other | other in s.tasks && IsAhead(s, other, id)
  }

  /**
   * The clock has passed `since` and no retry is dated back. At an equal
   * reading a record that is dated anew could still go first, by insertion.
   */
  predicate Past(op: Op, since: real) {
    && (op.Submit? || op.LeaseNext? || op.Fail? || op.Requeue? ==> op.now > since)
    && (op.Fail? ==> op.retryIn >= 0.0)
  }

  // ---------------------------------------------------------------- one step

  /** What is pending since no later than `since` was so before the step. */
  lemma OldStaysPut(s: StoreState, op: Op, other: Id, since: real)
    requires Inv(s) && FreshFor(s, op) && Past(op, since)
    requires var s' := Step(s, op).0;
             other in s'.tasks && s'.tasks[other].status == Pending && s'.tasks[other].availableAt <= since
    ensures other in s.tasks && Step(s, op).0.tasks[other] == s.tasks[other]
  {
    if op.LeaseNext? {
      LeaseFrame(s, op);
      LeaseEffect(s, op, other);
      hide Step, Inv, Consistent;
    } else {
      hide Consistent;
    }
  }

  lemma {:induction false} PositionAppend(ids: seq<Id>, id: Id, last: Id)
    requires id in ids
    ensures Position(ids + [last], id) == Position(ids, id)
  {
    assert (ids + [last])[1..] == ids[1..] + [last];
    if ids[0] != id {
      PositionAppend(ids[1..], id, last);
    }
  }

  /** No step changes the order of the tasks it finds. */
  lemma StepKeepsPosition(s: StoreState, op: Op, id: Id)
    requires Inv(s) && FreshFor(s, op) && id in s.tasks
    ensures id in s.ids && id in Step(s, op).0.ids && Position(Step(s, op).0.ids, id) == Position(s.ids, id)
  {
    StepConsistent(s, op);
    if op.Submit? {
      PositionAppend(s.ids, id, op.freshId);
    } else {
      hide Step;
    }
    hide Position, Inv;
  }

  /** Nobody gets ahead of a waiting task. */
  lemma {:induction false} NobodyOvertakes(s: StoreState, op: Op, id: Id, other: Id)
    requires Inv(s) && FreshFor(s, op) && id in s.tasks && Past(op, s.tasks[id].availableAt)
    requires id in Step(s, op).0.tasks && Step(s, op).0.tasks[id] == s.tasks[id]
    ensures Consistent(Step(s, op).0)
    ensures IsAhead(Step(s, op).0, other, id) ==> IsAhead(s, other, id)
  {
    StepConsistent(s, op);
    if IsAhead(Step(s, op).0, other, id) {
      OldStaysPut(s, op, other, s.tasks[id].availableAt);
      StepKeepsPosition(s, op, id);
      StepKeepsPosition(s, op, other);
      hide Step, Position, Past, FreshFor, Consistent;
    }
  }

  /** A `lease` on the queue of a due task that does not deliver it delivers one that was ahead of it. */
  lemma {:induction false} DeliversAhead(s: StoreState, op: Op, id: Id)
    requires Inv(s) && FreshFor(s, op) && op.LeaseNext?
    requires Waits(s, id, op.queue) && op.now > s.tasks[id].availableAt
    requires !GrantsTo(Step(s, op).1, id)
    ensures Step(s, op).1.Granted?
    ensures IsAhead(s, Step(s, op).1.lease.taskId, id)
    ensures Step(s, op).1.lease.taskId in Step(s, op).0.tasks
    ensures Step(s, op).0.tasks[Step(s, op).1.lease.taskId].status == Leased
  {
    assert Deliverable(s, id, op.queue, op.now);
    DeliverableIsServed(s, op, id);
    var w := Step(s, op).1.lease.taskId;
    LeaseFrame(s, op);
    LeaseEffect(s, op, w);
    GrantedIsFirst(s, op, id);
    hide Step, Position;
  }

  /** The delivered task comes before every other that could have been delivered. */
  lemma GrantedIsFirst(s: StoreState, op: Op, id: Id)
    requires Inv(s) && op.LeaseNext? && Step(s, op).1.Granted? && Deliverable(s, id, op.queue, op.now)
    requires Step(s, op).1.lease.taskId != id
    ensures var r := ReclaimAll(s, op.queue, op.now);
            var w := Step(s, op).1.lease.taskId;
            Consistent(r) && w in r.tasks && id in r.tasks && Before(r, w, id)
  {
    LeaseMeetsSpec(s, op.queue, op.leaseSeconds, op.freshToken, op.now);
    var r := ReclaimAll(s, op.queue, op.now);
    var w := Winner(r, op.queue, op.now);
    var d := Delivered(r.tasks[w.value], op.leaseSeconds, op.freshToken, op.now);
    assert LeaseOf(d, op.freshToken).taskId == w.value;
    assert CanRun(r, id, op.queue, op.now);
  }

  /** One step of waiting: nobody is added to those ahead, and a `lease` on the queue takes one of them away. */
  lemma {:induction false} WaitingStep(s: StoreState, op: Op, id: Id, queue: Name)
    requires Inv(s) && FreshFor(s, op) && Waits(s, id, queue) && Past(op, s.tasks[id].availableAt)
    requires !GrantsTo(Step(s, op).1, id)
    ensures var (s', out) := Step(s, op);
            && Consistent(s') && Waits(s', id, queue) && s'.tasks[id] == s.tasks[id]
            && Ahead(s', id) <= Ahead(s, id)
            && (op.LeaseNext? && op.queue == queue ==>
                  out.Granted? && out.lease.taskId in Ahead(s, id) && out.lease.taskId !in Ahead(s', id))
  {
    PendingIsUntouched(s, op, id);
    StepConsistent(s, op);
    forall other ensures IsAhead(Step(s, op).0, other, id) ==> IsAhead(s, other, id) {
      NobodyOvertakes(s, op, id, other);
    }
    if op.LeaseNext? && op.queue == queue {
      DeliversAhead(s, op, id);
    }
    hide Step, Inv, Consistent, FreshFor, Before, GrantsTo;
  }

  // --------------------------------------------------------------- over runs

  /** How many `lease` calls on the queue a stretch of the run holds. */
  function LeaseCalls(ops: seq<Op>, queue: Name, i: nat, j: nat): nat
    requires i <= j <= |ops|
    decreases j
  {
    if i == j then 0
    else LeaseCalls(ops, queue, i, j - 1) + (if ops[j - 1].LeaseNext? && ops[j - 1].queue == queue then 1 else 0)
  }

  ghost predicate PastFrom(ops: seq<Op>, i: nat, j: nat, since: real)
    requires j <= |ops|
  {
    forall k | i <= k < j :: Past(ops[k], since)
  }

  /** One step of a run in which the task waits. */
  lemma {:induction false} WaitingAt(ops: seq<Op>, k: nat, id: Id, queue: Name)
    requires Fresh(ops) && k < |ops| && Waits(At(ops, k), id, queue) && !GrantsTo(OutcomeAt(ops, k), id)
    requires Past(ops[k], At(ops, k).tasks[id].availableAt)
    ensures Waits(At(ops, k + 1), id, queue) && At(ops, k + 1).tasks[id] == At(ops, k).tasks[id]
    ensures Ahead(At(ops, k + 1), id) <= Ahead(At(ops, k), id)
    ensures ops[k].LeaseNext? && ops[k].queue == queue ==>
              && OutcomeAt(ops, k).Granted?
              && OutcomeAt(ops, k).lease.taskId in Ahead(At(ops, k), id)
              && OutcomeAt(ops, k).lease.taskId !in Ahead(At(ops, k + 1), id)
  {
    Advance(ops, k);
    hide Step, Inv, FreshFor, Run, At, Waits, Past, Ahead, Consistent, GrantsTo;
    WaitingStep(At(ops, k), ops[k], id, queue);
  }

  /** While a due task waits, each `lease` call on its queue delivers a task that was ahead of it and leaves fewer. */
  lemma {:induction false} WaitsItsTurn(ops: seq<Op>, i: nat, j: nat, id: Id, queue: Name)
    requires Fresh(ops) && i <= j <= |ops| && Waits(At(ops, i), id, queue)
    requires PastFrom(ops, i, j, At(ops, i).tasks[id].availableAt) && NotGranted(ops, i, j, id)
    ensures Waits(At(ops, j), id, queue) && At(ops, j).tasks[id] == At(ops, i).tasks[id]
    ensures Ahead(At(ops, j), id) <= Ahead(At(ops, i), id)
    ensures LeaseCalls(ops, queue, i, j) + |Ahead(At(ops, j), id)| <= |Ahead(At(ops, i), id)|
    ensures forall k | i <= k < j && ops[k].LeaseNext? && ops[k].queue == queue ::
              OutcomeAt(ops, k).Granted? && OutcomeAt(ops, k).lease.taskId in Ahead(At(ops, i), id)
    decreases j
  {
    hide OutcomeAt, Run, At, Past, Ahead, Consistent, GrantsTo, WellFormed, Holds, Exhausted;
    if i < j {
      var n := j - 1;
      WaitsItsTurn(ops, i, n, id, queue);
      WaitingAt(ops, n, id, queue);
      Smaller(Ahead(At(ops, j), id), Ahead(At(ops, n), id));
      Smaller(Ahead(At(ops, n), id), Ahead(At(ops, i), id));
    }
  }

  lemma Smaller<T>(a: set<T>, b: set<T>)
    requires a <= b
    ensures |a| <= |b| && (a != b ==> |a| < |b|)
  {
    assert b == a + (b - a);
  }

  lemma {:induction false} FirstGrantBy(ops: seq<Op>, i: nat, j: nat, id: Id) returns (k: nat)
    requires Fresh(ops) && i <= j <= |ops| && !NotGranted(ops, i, j, id)
    ensures i <= k < j && GrantsTo(OutcomeAt(ops, k), id) && NotGranted(ops, i, k, id)
    decreases j
  {
    hide OutcomeAt, GrantsTo, Fresh;
    if NotGranted(ops, i, j - 1, id) {
      k := j - 1;
    } else {
      k := FirstGrantBy(ops, i, j - 1, id);
    }
  }

  /**
   * No task starves: a due task with attempts left is delivered by one of the
   * next `lease` calls on its queue, after at most as many others as there are
   * tasks ahead of it now, whatever is submitted, retried, reclaimed or
   * requeued meanwhile.
   */
  lemma {:induction false} ServedInTurn(ops: seq<Op>, i: nat, j: nat, id: Id, queue: Name) returns (k: nat)
    requires Fresh(ops) && i <= j <= |ops| && Waits(At(ops, i), id, queue)
    requires PastFrom(ops, i, j, At(ops, i).tasks[id].availableAt)
    requires LeaseCalls(ops, queue, i, j) > |Ahead(At(ops, i), id)|
    ensures i <= k < j && GrantsTo(OutcomeAt(ops, k), id) && NotGranted(ops, i, k, id)
    ensures LeaseCalls(ops, queue, i, k) <= |Ahead(At(ops, i), id)|
  {
    if NotGranted(ops, i, j, id) {
      WaitsItsTurn(ops, i, j, id, queue);
      assert false;
    }
    k := FirstGrantBy(ops, i, j, id);
    WaitsItsTurn(ops, i, k, id, queue);
  }

  /** No two of those calls deliver the same task. */
  lemma {:induction false} OvertakenOnceEach(ops: seq<Op>, i: nat, k: nat, l: nat, id: Id, queue: Name)
    requires Fresh(ops) && i <= k < l < |ops| && Waits(At(ops, i), id, queue)
    requires PastFrom(ops, i, l + 1, At(ops, i).tasks[id].availableAt) && NotGranted(ops, i, l + 1, id)
    requires ops[k].LeaseNext? && ops[k].queue == queue && ops[l].LeaseNext? && ops[l].queue == queue
    ensures OutcomeAt(ops, k).Granted? && OutcomeAt(ops, l).Granted?
    ensures OutcomeAt(ops, k).lease.taskId != OutcomeAt(ops, l).lease.taskId
  {
    var since := At(ops, i).tasks[id].availableAt;
    hide *;
    StretchOf(ops, i, l + 1, i, k, id, since);
    StretchOf(ops, i, l + 1, k + 1, l, id, since);
    WaitsItsTurn(ops, i, k, id, queue);
    WaitsAt(ops, i, l + 1, k, id, since);
    WaitingAt(ops, k, id, queue);
    WaitsItsTurn(ops, k + 1, l, id, queue);
    WaitsAt(ops, i, l + 1, l, id, since);
    WaitingAt(ops, l, id, queue);
  }

  lemma WaitsAt(ops: seq<Op>, i: nat, j: nat, k: nat, id: Id, since: real)
    requires Fresh(ops) && i <= k < j <= |ops| && PastFrom(ops, i, j, since) && NotGranted(ops, i, j, id)
    ensures Past(ops[k], since) && !GrantsTo(OutcomeAt(ops, k), id)
  {
    hide Past, OutcomeAt, GrantsTo, Fresh;
  }

  lemma StretchOf(ops: seq<Op>, i: nat, j: nat, a: nat, b: nat, id: Id, since: real)
    requires Fresh(ops) && i <= a && b <= j <= |ops| && PastFrom(ops, i, j, since) && NotGranted(ops, i, j, id)
    ensures PastFrom(ops, a, b, since) && NotGranted(ops, a, b, id)
  {
    hide Past, OutcomeAt, GrantsTo, Fresh;
  }

  /** At one clock reading: a task is due with nobody ahead, and a reclaimed one submitted before it goes first. */
  lemma {:induction false} TiesGoByInsertion(queue: Name, k1: Name, k2: Name, a: Id, b: Id, t1: Token, t2: Token)
    requires k1 != k2 && a != b && t1 != t2
    ensures var ops := [Submit(queue, k1, map[], 5, a, 0.0), LeaseNext(queue, 0.0, t1, 0.0),
                        Submit(queue, k2, map[], 5, b, 0.0), LeaseNext(queue, 1.0, t2, 0.0)];
            && Fresh(ops) && Waits(At(ops, 3), b, queue) && Ahead(At(ops, 3), b) == {}
            && GrantsTo(OutcomeAt(ops, 3), a)
  {
    hide LeaseStep, Inv, Run;
    var ops := [Submit(queue, k1, map[], 5, a, 0.0), LeaseNext(queue, 0.0, t1, 0.0),
                Submit(queue, k2, map[], 5, b, 0.0), LeaseNext(queue, 1.0, t2, 0.0)];
    var first, second := NewTask(a, queue, k1, map[], 5, 0.0), NewTask(b, queue, k2, map[], 5, 0.0);
    StartsEmpty(ops);
    Advance(ops, 0);
    Advance(ops, 1);
    Advance(ops, 2);
    assert At(ops, 1) == StoreState([a], map[a := first], map[(queue, k1) := a]);
    LeaseOnlyTask(At(ops, 1), first, 0.0, t1, 0.0);
    var held := Delivered(first, 0.0, t1, 0.0);
    assert At(ops, 3) == StoreState([a, b], map[a := held, b := second], map[(queue, k1) := a, (queue, k2) := b]);
    FirstInsertedGoes(At(ops, 3), ops[3], held, second);
  }

  lemma FirstInsertedGoes(s: StoreState, op: Op, held: TaskState, second: TaskState)
    requires Inv(s) && op.LeaseNext? && s.ids == [held.id, second.id] && held.id != second.id
    requires s.tasks == map[held.id := held, second.id := second]
    requires Expired(held, op.queue, op.now) && held.attempts < held.maxAttempts
    requires Eligible(second, op.queue, op.now) && !Exhausted(second) && second.availableAt == op.now
    ensures Ahead(s, second.id) == {} && GrantsTo(Step(s, op).1, held.id)
  {
    LeaseFrame(s, op);
    DeliverableIsServed(s, op, second.id);
    hide Step, Inv;
    assert [held.id, second.id][1..] == [second.id];
    if Step(s, op).1.lease.taskId == second.id {
      GrantedIsFirst(s, op, held.id);
    }
  }
}
