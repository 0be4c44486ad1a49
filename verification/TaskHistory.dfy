/**
 * Theorems about whole histories of the task store: bounded delivery, single
 * completion, checkpoints that survive crashes, and idempotent submission.
 */
module TaskHistory {
  import opened Prelude
  import opened TaskProtocol
  import opened TaskRuns

  // ---------------------------------------------- one task across one step

  ghost predicate Resets(op: Op, out: Outcome, id: Id) {
    op.Requeue? && op.id == id && op.resetAttempts && out.Returned?
  }

  ghost predicate Completes(op: Op, out: Outcome, id: Id) {
    op.Ack? && op.id == id && out.Returned?
  }

  ghost predicate Saves(op: Op, out: Outcome, id: Id) {
    op.Checkpoint? && op.id == id && out.Done?
  }

  /** What a step does to the counters, status and checkpoint of a task it finds in the store. */
  ghost predicate Evolves(t: TaskState, t': TaskState, op: Op, out: Outcome, id: Id) {
    && (GrantsTo(out, id) ==>
          && t'.attempts == t.attempts + 1 == out.lease.attempt && 1 <= t'.attempts <= t.maxAttempts
          && out.lease.checkpoint == t.checkpoint && out.lease.payload == t.payload
          && t.status != Succeeded)
    && (!Resets(op, out, id) ==> t.attempts <= t'.attempts)
    && (t.status == Succeeded ==> t' == t && !Completes(op, out, id) && !GrantsTo(out, id))
    && (t'.status == Succeeded <==> t.status == Succeeded || Completes(op, out, id))
    && t'.checkpoint == (if Saves(op, out, id) then Merge(t.checkpoint, op.patch) else t.checkpoint)
  }

  lemma LeaseEvolves(s: StoreState, op: Op, id: Id)
    requires Inv(s) && op.LeaseNext? && id in s.tasks && id in Step(s, op).0.tasks
    ensures Evolves(s.tasks[id], Step(s, op).0.tasks[id], op, Step(s, op).1, id)
  {
    hide Step;
    LeaseEffect(s, op, id);
    assert WellFormed(s.tasks[id]);
  }

  lemma StepEvolves(s: StoreState, op: Op, id: Id)
    requires Inv(s) && FreshFor(s, op) && id in s.tasks
    ensures id in Step(s, op).0.tasks
    ensures Evolves(s.tasks[id], Step(s, op).0.tasks[id], op, Step(s, op).1, id)
  {
    StepKeepsTask(s, op, id);
    assert WellFormed(s.tasks[id]);
    if op.LeaseNext? { LeaseEvolves(s, op, id); }
  }

  /** The same, between two consecutive snapshots of a run. */
  lemma RunEvolves(ops: seq<Op>, n: nat, id: Id)
    requires Fresh(ops) && n < |ops| && id in At(ops, n).tasks
    ensures id in At(ops, n + 1).tasks
    ensures SameIdentity(At(ops, n).tasks[id], At(ops, n + 1).tasks[id])
    ensures Evolves(At(ops, n).tasks[id], At(ops, n + 1).tasks[id], ops[n], OutcomeAt(ops, n), id)
  {
    hide Step, Inv, FreshFor, At, Evolves;
    Advance(ops, n);
    StepEvolves(At(ops, n), ops[n], id);
    TaskPersists(ops, n, n + 1, id);
  }

  // -------------------------------------------------------- bounded delivery

  /** The attempt numbers handed out for a task by steps `i` up to `j`. */
  ghost function Deliveries(ops: seq<Op>, i: nat, j: nat, id: Id): seq<int>
    requires Fresh(ops) && i <= j <= |ops|
    decreases j - i
  {
    if i == j then []
    else
      var earlier := Deliveries(ops, i, j - 1, id);
      if GrantsTo(OutcomeAt(ops, j - 1), id) then earlier + [OutcomeAt(ops, j - 1).lease.attempt] else earlier
  }

  /**
   * Attempt numbers handed out while the counter went from `spent` to `counter`:
   * strictly increasing, above the old counter, and within the limit.
   */
  ghost predicate Bounded(numbers: seq<int>, spent: int, limit: int, counter: int) {
    && (forall a, b | 0 <= a < b < |numbers| :: numbers[a] < numbers[b])
    && (forall a | 0 <= a < |numbers| :: spent < numbers[a] <= limit && numbers[a] <= counter)
    && spent + |numbers| <= counter
    && (numbers != [] ==> spent + |numbers| <= limit)
  }

  lemma BoundedStep(numbers: seq<int>, spent: int, limit: int, counter: int, counter': int)
    requires Bounded(numbers, spent, limit, counter)
    ensures counter <= counter' ==> Bounded(numbers, spent, limit, counter')
    ensures counter' == counter + 1 <= limit ==> Bounded(numbers + [counter'], spent, limit, counter')
  {
  }

  /**
   * Bounded delivery. Between resets of its attempt counter a task is handed
   * out with strictly increasing attempt numbers that start above the
   * counter's value and never exceed `maxAttempts`, hence at most
   * `maxAttempts` times less the attempts already spent.
   */
  lemma {:induction false} BoundedDelivery(ops: seq<Op>, i: nat, j: nat, id: Id)
    requires Fresh(ops) && i <= j <= |ops| && id in At(ops, i).tasks
    requires forall k | i <= k < j :: !Resets(ops[k], OutcomeAt(ops, k), id)
    ensures id in At(ops, j).tasks
    ensures var before := At(ops, i).tasks[id];
            Bounded(Deliveries(ops, i, j, id), before.attempts, before.maxAttempts, At(ops, j).tasks[id].attempts)
    decreases j - i
  {
    hide Step, Inv, FreshFor, At, SameIdentity, Merge, Saves, Completes, Resets, Bounded;
    if i == j {
      NothingDelivered(At(ops, i).tasks[id]);
    } else {
      BoundedDelivery(ops, i, j - 1, id);
      SameLimit(ops, i, j - 1, id);
      RunEvolves(ops, j - 1, id);
      var before := At(ops, i).tasks[id];
      BoundedStep(Deliveries(ops, i, j - 1, id), before.attempts, before.maxAttempts,
                  At(ops, j - 1).tasks[id].attempts, At(ops, j).tasks[id].attempts);
    }
  }

  lemma NothingDelivered(t: TaskState)
    ensures Bounded([], t.attempts, t.maxAttempts, t.attempts)
  {
  }

  lemma SameLimit(ops: seq<Op>, i: nat, j: nat, id: Id)
    requires Fresh(ops) && i <= j <= |ops| && id in At(ops, i).tasks
    ensures id in At(ops, j).tasks && At(ops, j).tasks[id].maxAttempts == At(ops, i).tasks[id].maxAttempts
  {
    TaskPersists(ops, i, j, id);
  }

  // ------------------------------------------------------- single completion

  /** SUCCEEDED is absorbing: from then on the task's record never changes again. */
  lemma {:induction false} SucceededIsFinal(ops: seq<Op>, i: nat, j: nat, id: Id)
    requires Fresh(ops) && i <= j <= |ops| && id in At(ops, i).tasks
    requires At(ops, i).tasks[id].status == Succeeded
    ensures id in At(ops, j).tasks && At(ops, j).tasks[id] == At(ops, i).tasks[id]
    decreases j - i
  {
    hide Step, Inv, FreshFor, At;
    if i < j {
      SucceededIsFinal(ops, i, j - 1, id);
      RunEvolves(ops, j - 1, id);
    }
  }

  /** An accepted ack finds its task in the store. */
  lemma AckFindsTask(ops: seq<Op>, n: nat, id: Id)
    requires Fresh(ops) && n < |ops| && Completes(ops[n], OutcomeAt(ops, n), id)
    ensures id in At(ops, n).tasks
  {
  }

  /** Single completion. At most one ack of a task is ever accepted, and no delivery follows it. */
  lemma {:induction false} SingleCompletion(ops: seq<Op>, i: nat, j: nat, id: Id)
    requires Fresh(ops) && i < j < |ops|
    requires Completes(ops[i], OutcomeAt(ops, i), id)
    ensures !Completes(ops[j], OutcomeAt(ops, j), id)
    ensures !GrantsTo(OutcomeAt(ops, j), id)
  {
    hide Step, Inv, FreshFor, At;
    AckFindsTask(ops, i, id);
    RunEvolves(ops, i, id);
    SucceededIsFinal(ops, i + 1, j, id);
    RunEvolves(ops, j, id);
  }

  /** A task is SUCCEEDED exactly when some ack of it was accepted. */
  lemma {:induction false} SucceededIffAcked(ops: seq<Op>, n: nat, id: Id)
    requires Fresh(ops) && n <= |ops| && id in At(ops, n).tasks
    ensures At(ops, n).tasks[id].status == Succeeded
            <==> exists k :: 0 <= k < n && Completes(ops[k], OutcomeAt(ops, k), id)
    decreases n
  {
    hide Step, Inv, FreshFor, At, Completes;
    if n == 0 {
      StartsEmpty(ops);
    } else {
      if id in At(ops, n - 1).tasks {
        SucceededIffAcked(ops, n - 1, id);
        RunEvolves(ops, n - 1, id);
      } else {
        NewTaskIsPending(ops, n - 1, id);
        forall k | 0 <= k < n ensures !Completes(ops[k], OutcomeAt(ops, k), id) {
          if Completes(ops[k], OutcomeAt(ops, k), id) {
            AckFindsTask(ops, k, id);
            TaskPersists(ops, k, n - 1, id);
          }
        }
      }
    }
  }

  /** A task appears pending, unattempted and without a checkpoint. */
  lemma NewTaskIsPending(ops: seq<Op>, n: nat, id: Id)
    requires Fresh(ops) && n < |ops| && id !in At(ops, n).tasks && id in At(ops, n + 1).tasks
    ensures ops[n].Submit? && ops[n].freshId == id
    ensures var t := At(ops, n + 1).tasks[id];
            t.status == Pending && t.attempts == 0 && t.checkpoint.None?
  {
    Advance(ops, n);
    StepKeepsTask(At(ops, n), ops[n], id);
  }

  // -------------------------------------------------------------- checkpoints

  /** The accepted checkpoint writes of a task before step `n`, oldest first. */
  ghost function AcceptedPatches(ops: seq<Op>, n: nat, id: Id): seq<Fields>
    requires Fresh(ops) && n <= |ops|
  {
    if n == 0 then []
    else
      var earlier := AcceptedPatches(ops, n - 1, id);
      if Saves(ops[n - 1], OutcomeAt(ops, n - 1), id) then earlier + [ops[n - 1].patch] else earlier
  }

  /** The left-to-right merge of checkpoint writes; no write, no checkpoint. */
  function MergeAll(patches: seq<Fields>): Option<Fields> {
    if patches == [] then None else Merge(MergeAll(patches[..|patches| - 1]), patches[|patches| - 1])
  }

  lemma SaveFindsTask(ops: seq<Op>, n: nat, id: Id)
    requires Fresh(ops) && n < |ops| && Saves(ops[n], OutcomeAt(ops, n), id)
    ensures id in At(ops, n).tasks
  {
  }

  lemma {:induction false} NoPatchBeforeSubmit(ops: seq<Op>, n: nat, id: Id)
    requires Fresh(ops) && n <= |ops| && id !in At(ops, n).tasks
    ensures AcceptedPatches(ops, n, id) == []
    decreases n
  {
    hide Step, Inv, FreshFor, At, Saves;
    if n > 0 {
      if id in At(ops, n - 1).tasks { TaskPersists(ops, n - 1, n, id); }
      NoPatchBeforeSubmit(ops, n - 1, id);
      if Saves(ops[n - 1], OutcomeAt(ops, n - 1), id) { SaveFindsTask(ops, n - 1, id); }
    }
  }

  /**
   * Checkpoints survive crashes, retries and redelivery: a task's checkpoint is
   * the left-to-right merge of every accepted write since it was submitted.
   */
  lemma {:induction false} CheckpointIsMerge(ops: seq<Op>, n: nat, id: Id)
    requires Fresh(ops) && n <= |ops| && id in At(ops, n).tasks
    ensures At(ops, n).tasks[id].checkpoint == MergeAll(AcceptedPatches(ops, n, id))
    decreases n
  {
    hide Step, Inv, FreshFor, At, Merge, Saves;
    if n == 0 {
      StartsEmpty(ops);
    } else {
      if id in At(ops, n - 1).tasks {
        CheckpointIsMerge(ops, n - 1, id);
        RunEvolves(ops, n - 1, id);
        var earlier := AcceptedPatches(ops, n - 1, id);
        var patches := AcceptedPatches(ops, n, id);
        if Saves(ops[n - 1], OutcomeAt(ops, n - 1), id) {
          assert patches[..|patches| - 1] == earlier;
        }
      } else {
        NewTaskIsPending(ops, n - 1, id);
        NoPatchBeforeSubmit(ops, n - 1, id);
        if Saves(ops[n - 1], OutcomeAt(ops, n - 1), id) { SaveFindsTask(ops, n - 1, id); }
      }
    }
  }

  /** So a delivery resumes from all the progress recorded before it. */
  lemma {:induction false} DeliveryResumes(ops: seq<Op>, n: nat, id: Id)
    requires Fresh(ops) && n < |ops| && GrantsTo(OutcomeAt(ops, n), id)
    ensures OutcomeAt(ops, n).lease.checkpoint == MergeAll(AcceptedPatches(ops, n, id))
  {
    GrantFacts(ops, n, id);
    CheckpointIsMerge(ops, n, id);
    RunEvolves(ops, n, id);
  }

  // ---------------------------------------------------- idempotent submission

  lemma StepKeepsIndex(s: StoreState, op: Op, k: (Name, Name))
    requires Inv(s) && FreshFor(s, op) && k in s.index
    ensures k in Step(s, op).0.index && Step(s, op).0.index[k] == s.index[k]
  {
    if !op.Submit? { StepConsistent(s, op); }
  }

  lemma ResubmitChangesNothing(s: StoreState, op: Op)
    requires Inv(s) && op.Submit? && (op.queue, op.key) in s.index
    ensures Step(s, op).0 == s
  {
  }

  lemma {:induction false} IndexPersists(ops: seq<Op>, i: nat, j: nat, k: (Name, Name))
    requires Fresh(ops) && i <= j <= |ops| && k in At(ops, i).index
    ensures k in At(ops, j).index && At(ops, j).index[k] == At(ops, i).index[k]
    decreases j - i
  {
    hide Step, Inv, FreshFor, At;
    if i < j {
      IndexPersists(ops, i, j - 1, k);
      Advance(ops, j - 1);
      StepKeepsIndex(At(ops, j - 1), ops[j - 1], k);
    }
  }

  /** A submission is always answered with a task of its own queue and key, indexed under them. */
  lemma SubmitAnswers(ops: seq<Op>, n: nat)
    requires Fresh(ops) && n < |ops| && ops[n].Submit?
    ensures OutcomeAt(ops, n).Returned?
    ensures var t := OutcomeAt(ops, n).task; var k := (ops[n].queue, ops[n].key);
            && (t.queue, t.key) == k
            && k in At(ops, n + 1).index && At(ops, n + 1).index[k] == t.id
            && t.id in At(ops, n + 1).tasks && At(ops, n + 1).tasks[t.id] == t
  {
    Advance(ops, n);
  }

  /**
   * Idempotent submission. Two submissions of a run are answered with the same
   * task exactly when they name the same queue and key, and the second answer
   * still carries the first one's payload and attempt limit.
   */
  lemma {:induction false} SubmissionIsIdempotent(ops: seq<Op>, i: nat, j: nat)
    requires Fresh(ops) && i < j < |ops| && ops[i].Submit? && ops[j].Submit?
    ensures OutcomeAt(ops, i).Returned? && OutcomeAt(ops, j).Returned?
    ensures var first := OutcomeAt(ops, i).task; var second := OutcomeAt(ops, j).task;
            && (first.id == second.id <==> (ops[i].queue, ops[i].key) == (ops[j].queue, ops[j].key))
            && (first.id == second.id ==> SameIdentity(first, second) && At(ops, j + 1) == At(ops, j))
  {
    hide Step, Inv, FreshFor, At, OutcomeAt;
    SubmitAnswers(ops, i);
    SubmitAnswers(ops, j);
    var first := OutcomeAt(ops, i).task;
    var second := OutcomeAt(ops, j).task;
    TaskPersists(ops, i + 1, j + 1, first.id);
    if (ops[i].queue, ops[i].key) == (ops[j].queue, ops[j].key) {
      IndexPersists(ops, i + 1, j, (ops[i].queue, ops[i].key));
      Advance(ops, j);
      ResubmitChangesNothing(At(ops, j), ops[j]);
    }
  }
}
