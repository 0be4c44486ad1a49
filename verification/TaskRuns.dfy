/**
 * What every run of the store keeps. A run is any sequence of operations whose
 * freshly drawn task ids and lease tokens never repeat; the clock may read
 * anything at any step.
 */
module TaskRuns {
  import opened Prelude
  import opened TaskProtocol
  import opened TaskLease

  // ------------------------------------------------------------- invariant

  ghost predicate WellFormed(t: TaskState) {
    && (t.status == Leased <==> t.leaseToken.Some?)
    && (t.leaseToken.Some? <==> t.leasedUntil.Some?)
    && t.attempts >= 0
    && (t.status == Leased ==> 1 <= t.attempts <= t.maxAttempts)
  }

  ghost predicate Live(s: StoreState, token: Token) {
    exists id :: Holds(s, id, token)
  }

  ghost predicate Inv(s: StoreState) {
    && Consistent(s)
    && (forall id | id in s.tasks :: WellFormed(s.tasks[id]))
    && (forall a, b, token | Holds(s, a, token) && Holds(s, b, token) :: a == b)
    && (forall id | id in s.tasks ::
          (s.tasks[id].queue, s.tasks[id].key) in s.index && s.index[(s.tasks[id].queue, s.tasks[id].key)] == id)
    && (forall k | k in s.index :: (s.tasks[s.index[k]].queue, s.tasks[s.index[k]].key) == k)
  }

  /** What a task keeps for good. */
  ghost predicate SameIdentity(t: TaskState, t': TaskState) {
    t'.id == t.id && t'.queue == t.queue && t'.key == t.key && t'.payload == t.payload
    && t'.maxAttempts == t.maxAttempts && t'.createdAt == t.createdAt
  }

  ghost predicate GrantsTo(out: Outcome, id: Id) {
    out.Granted? && out.lease.taskId == id
  }

  /** `lease` neither adds nor removes tasks, and grants only a task of the store. */
  lemma LeaseFrame(s: StoreState, op: Op)
    requires Consistent(s) && op.LeaseNext?
    ensures var (s', out) := Step(s, op);
            && s'.ids == s.ids && s'.index == s.index && s'.tasks.Keys == s.tasks.Keys
            && (out.Granted? ==> out.lease.taskId in s.tasks)
            && (out.Granted? || out == NothingToLease)
  {
    hide LeaseStep, Winner, Reclaim, DeadLettered;
    LeaseMeetsSpec(s, op.queue, op.leaseSeconds, op.freshToken, op.now);
    var r := ReclaimAll(s, op.queue, op.now);
    var w := Winner(r, op.queue, op.now);
    assert w.Some? ==>
             var d := Delivered(r.tasks[w.value], op.leaseSeconds, op.freshToken, op.now);
             LeaseOf(d, op.freshToken).taskId == w.value;
  }

  /** What `lease` can do to one task, whether or not it is the one delivered. */
  lemma LeaseEffect(s: StoreState, op: Op, id: Id)
    requires Consistent(s) && op.LeaseNext? && id in s.tasks
    ensures var (s', out) := Step(s, op);
            var r := Reclaim(s.tasks[id], op.queue, op.now);
            && id in s'.tasks
            && (if GrantsTo(out, id) then
                  && s'.tasks[id] == Delivered(r, op.leaseSeconds, op.freshToken, op.now)
                  && out.lease == LeaseOf(s'.tasks[id], op.freshToken)
                  && Eligible(r, op.queue, op.now) && !Exhausted(r)
                else
                  || s'.tasks[id] == r
                  || (s'.tasks[id] == DeadLettered(r, op.now) && Eligible(r, op.queue, op.now) && Exhausted(r)))
  {
    hide LeaseStep, Winner;
    LeaseMeetsSpec(s, op.queue, op.leaseSeconds, op.freshToken, op.now);
    var r := ReclaimAll(s, op.queue, op.now);
    var w := Winner(r, op.queue, op.now);
    assert w.Some? ==>
             var d := Delivered(r.tasks[w.value], op.leaseSeconds, op.freshToken, op.now);
             LeaseOf(d, op.freshToken).taskId == w.value;
  }

  /** The identifiers an operation draws are new to the store. */
  ghost predicate FreshFor(s: StoreState, op: Op) {
    && (op.Submit? ==> op.freshId !in s.tasks)
    && (op.LeaseNext? ==> !Live(s, op.freshToken))
  }

  /** Operations other than `submit` and `lease` rewrite at most one task, and give it no new token. */
  ghost predicate Rewrites(t: TaskState, t': TaskState) {
    && SameIdentity(t, t')
    && (t'.leaseToken.None? || (t'.leaseToken == t.leaseToken && t.status == t'.status == Leased))
    && (WellFormed(t) ==> WellFormed(t'))
  }

  lemma OtherStepShape(s: StoreState, op: Op) returns (changed: Option<TaskState>)
    requires Inv(s) && !op.Submit? && !op.LeaseNext?
    ensures match changed
            case None => Step(s, op).0 == s
            case Some(t) => t.id in s.tasks && Step(s, op).0 == Put(s, t) && Rewrites(s.tasks[t.id], t)
  {
    match op
    case Heartbeat(id, token, leaseSeconds, now) =>
      changed := if Holds(s, id, token) then Some(Extended(s.tasks[id], leaseSeconds, now)) else None;
    case Checkpoint(id, token, patch, now) =>
      changed := if Holds(s, id, token) then Some(Patched(s.tasks[id], patch, now)) else None;
    case Ack(id, token, now) =>
      changed := if Holds(s, id, token) then Some(Acked(s.tasks[id], now)) else None;
    case Fail(id, token, error, retryIn, now) =>
      changed := if Holds(s, id, token) then Some(Failed(s.tasks[id], error, retryIn, now)) else None;
    case Get(id) => changed := None;
    case ListDeadLetter(queue) => changed := None;
    case Requeue(id, resetAttempts, now) =>
      changed := if id in s.tasks && s.tasks[id].status == DeadLetter
                 then Some(Requeued(s.tasks[id], resetAttempts, now)) else None;
  }

  lemma LeaseKeepsTask(s: StoreState, op: Op, id: Id)
    requires Inv(s) && op.LeaseNext? && id in Step(s, op).0.tasks
    ensures id in s.tasks
    ensures SameIdentity(s.tasks[id], Step(s, op).0.tasks[id])
    ensures WellFormed(Step(s, op).0.tasks[id])
  {
    hide Step;
    LeaseFrame(s, op);
    LeaseEffect(s, op, id);
    assert WellFormed(s.tasks[id]);
  }

  /** Tasks are never removed and never change identity; none leaves its well-formed states. */
  lemma StepKeepsTask(s: StoreState, op: Op, id: Id)
    requires Inv(s) && FreshFor(s, op)
    ensures var s' := Step(s, op).0;
            && (id in s.tasks ==> id in s'.tasks && SameIdentity(s.tasks[id], s'.tasks[id]))
            && (id in s'.tasks ==>
                  && WellFormed(s'.tasks[id]) && s'.tasks[id].id == id
                  && (id in s.tasks || (op.Submit? && op.freshId == id)))
  {
    if op.LeaseNext? {
      hide Step;
      LeaseFrame(s, op);
      if id in s.tasks { LeaseKeepsTask(s, op, id); }
    } else if !op.Submit? {
      hide Step;
      var changed := OtherStepShape(s, op);
    }
  }

  /** Only `lease` brings a token to life, and only its own fresh one. */
  lemma StepTokens(s: StoreState, op: Op, id: Id, token: Token)
    requires Inv(s) && FreshFor(s, op)
    requires Holds(Step(s, op).0, id, token)
    ensures || Holds(s, id, token)
            || (op.LeaseNext? && op.freshToken == token && GrantsTo(Step(s, op).1, id))
  {
    hide Consistent, LeaseStep;
    if op.LeaseNext? {
      hide Step;
      LeaseFrame(s, op);
      LeaseEffect(s, op, id);
    } else if !op.Submit? {
      hide Step;
      var changed := OtherStepShape(s, op);
    }
  }

  lemma SubmitConsistent(s: StoreState, op: Op)
    requires Consistent(s) && op.Submit? && FreshFor(s, op)
    ensures Consistent(Step(s, op).0)
  {
    var s' := Step(s, op).0;
    if (op.queue, op.key) !in s.index {
      assert op.freshId !in s.ids;
      assert s'.ids == s.ids + [op.freshId];
    }
  }

  lemma StepConsistent(s: StoreState, op: Op)
    requires Inv(s) && FreshFor(s, op)
    ensures Consistent(Step(s, op).0)
    ensures op.Submit? || (Step(s, op).0.ids == s.ids && Step(s, op).0.index == s.index)
  {
    hide Step, FreshFor;
    var s' := Step(s, op).0;
    if op.LeaseNext? {
      hide Step;
      LeaseFrame(s, op);
      forall id | id in s'.tasks ensures s'.tasks[id].id == id { LeaseKeepsTask(s, op, id); }
    } else if op.Submit? {
      SubmitConsistent(s, op);
    } else {
      hide Step;
      var changed := OtherStepShape(s, op);
    }
  }

  /** Every operation keeps the invariant. */
  lemma {:induction false} StepKeepsInv(s: StoreState, op: Op)
    requires Inv(s) && FreshFor(s, op)
    ensures Inv(Step(s, op).0)
  {
    var s' := Step(s, op).0;
    StepConsistent(s, op);
    forall id | id in s'.tasks
      ensures WellFormed(s'.tasks[id])
      ensures (s'.tasks[id].queue, s'.tasks[id].key) in s'.index
              && s'.index[(s'.tasks[id].queue, s'.tasks[id].key)] == id
    {
      StepKeepsTask(s, op, id);
    }
    forall k | k in s'.index
      ensures (s'.tasks[s'.index[k]].queue, s'.tasks[s'.index[k]].key) == k
    {
      if k in s.index { StepKeepsTask(s, op, s.index[k]); }
    }
    forall a, b, token | Holds(s', a, token) && Holds(s', b, token) ensures a == b {
      StepTokens(s, op, a, token);
      StepTokens(s, op, b, token);
    }
  }

  // ------------------------------------------------------------------ runs

  /** Task ids and lease tokens are drawn fresh: none is drawn twice in a run. */
  ghost predicate Fresh(ops: seq<Op>) {
    forall i, j | 0 <= i < j < |ops| ::
      && (ops[i].Submit? && ops[j].Submit? ==> ops[i].freshId != ops[j].freshId)
      && (ops[i].LeaseNext? && ops[j].LeaseNext? ==> ops[i].freshToken != ops[j].freshToken)
  }

  ghost predicate DrewToken(ops: seq<Op>, token: Token) {
    exists i :: 0 <= i < |ops| && ops[i].LeaseNext? && ops[i].freshToken == token
  }

  ghost predicate DrewId(ops: seq<Op>, id: Id) {
    exists i :: 0 <= i < |ops| && ops[i].Submit? && ops[i].freshId == id
  }

  /** The snapshot after a run from the empty store. */
  ghost function Run(ops: seq<Op>): (s: StoreState)
    requires Fresh(ops)
    ensures Inv(s)
    ensures forall id | id in s.tasks :: DrewId(ops, id)
    ensures forall token | Live(s, token) :: DrewToken(ops, token)
  {
    if ops == [] then EMPTY_STORE
    else
      var n := |ops| - 1;
      var s := Run(ops[..n]);
      RunStep(ops, s);
      Step(s, ops[n]).0
  }

  /** An id drawn earlier in the run is not drawn again by its last operation. */
  lemma DrawnIdEarlier(ops: seq<Op>, id: Id)
    requires ops != [] && Fresh(ops) && DrewId(ops[..|ops| - 1], id)
    ensures DrewId(ops, id)
    ensures ops[|ops| - 1].Submit? ==> ops[|ops| - 1].freshId != id
  {
    var n := |ops| - 1;
    var i :| 0 <= i < n && ops[..n][i].Submit? && ops[..n][i].freshId == id;
    assert ops[i] == ops[..n][i];
  }

  lemma DrawnTokenEarlier(ops: seq<Op>, token: Token)
    requires ops != [] && Fresh(ops) && DrewToken(ops[..|ops| - 1], token)
    ensures DrewToken(ops, token)
    ensures ops[|ops| - 1].LeaseNext? ==> ops[|ops| - 1].freshToken != token
  {
    var n := |ops| - 1;
    var i :| 0 <= i < n && ops[..n][i].LeaseNext? && ops[..n][i].freshToken == token;
    assert ops[i] == ops[..n][i];
  }

  /** One more operation keeps everything the run promises. */
  lemma RunStep(ops: seq<Op>, s: StoreState)
    requires ops != [] && Fresh(ops) && Inv(s)
    requires forall id | id in s.tasks :: DrewId(ops[..|ops| - 1], id)
    requires forall token | Live(s, token) :: DrewToken(ops[..|ops| - 1], token)
    ensures FreshFor(s, ops[|ops| - 1])
    ensures var s' := Step(s, ops[|ops| - 1]).0;
            && Inv(s')
            && (forall id | id in s'.tasks :: DrewId(ops, id))
            && (forall token | Live(s', token) :: DrewToken(ops, token))
  {
    hide Step, Consistent, Holds, WellFormed, DrewId, DrewToken, Fresh;
    var op := ops[|ops| - 1];
    forall id | id in s.tasks ensures DrewId(ops, id) && (op.Submit? ==> op.freshId != id) {
      DrawnIdEarlier(ops, id);
    }
    forall token | Live(s, token) ensures DrewToken(ops, token) && (op.LeaseNext? ==> op.freshToken != token) {
      DrawnTokenEarlier(ops, token);
    }
    StepKeepsInv(s, op);
    var s' := Step(s, op).0;
    forall id | id in s'.tasks ensures DrewId(ops, id) {
      StepKeepsTask(s, op, id);
      if op.Submit? && op.freshId == id { LastDrawn(ops); }
    }
    forall token | Live(s', token) ensures DrewToken(ops, token) {
      var id :| Holds(s', id, token);
      StepTokens(s, op, id, token);
      if Holds(s, id, token) { assert Live(s, token); } else { LastDrawn(ops); }
    }
  }

  lemma LastDrawn(ops: seq<Op>)
    requires ops != []
    ensures ops[|ops| - 1].Submit? ==> DrewId(ops, ops[|ops| - 1].freshId)
    ensures ops[|ops| - 1].LeaseNext? ==> DrewToken(ops, ops[|ops| - 1].freshToken)
  {
  }

  /** The snapshot before step `n` of a run, and the outcome of that step. */
  ghost function At(ops: seq<Op>, n: nat): (s: StoreState)
    requires Fresh(ops) && n <= |ops|
    ensures Inv(s)
  {
    Run(ops[..n])
  }

  ghost function OutcomeAt(ops: seq<Op>, n: nat): Outcome
    requires Fresh(ops) && n < |ops|
  {
    Step(At(ops, n), ops[n]).1
  }

  /** Consecutive snapshots of a run are one step apart, and that step draws fresh identifiers. */
  lemma Advance(ops: seq<Op>, n: nat)
    requires Fresh(ops) && n < |ops|
    ensures At(ops, n + 1) == Step(At(ops, n), ops[n]).0
    ensures FreshFor(At(ops, n), ops[n])
  {
    assert ops[..n + 1][..n] == ops[..n];
    RunStep(ops[..n + 1], Run(ops[..n]));
  }

  /** Tasks persist through a run with the identity they were submitted with. */
  lemma {:induction false} TaskPersists(ops: seq<Op>, i: nat, j: nat, id: Id)
    requires Fresh(ops) && i <= j <= |ops| && id in At(ops, i).tasks
    ensures id in At(ops, j).tasks && SameIdentity(At(ops, i).tasks[id], At(ops, j).tasks[id])
    decreases j - i
  {
    hide Step, Inv, FreshFor, Run;
    if i < j {
      TaskPersists(ops, i, j - 1, id);
      Advance(ops, j - 1);
      StepKeepsTask(At(ops, j - 1), ops[j - 1], id);
    }
  }

  // --------------------------------------------------------------- fencing

  /** The operation presents `token` as proof that the caller owns a task. */
  ghost predicate Presents(op: Op, token: Token) {
    (op.Heartbeat? || op.Checkpoint? || op.Ack? || op.Fail?) && op.token == token
  }

  lemma {:induction false} DroppedStaysDead(ops: seq<Op>, drawn: nat, j: nat, k: nat, token: Token)
    requires Fresh(ops) && drawn < j <= k <= |ops|
    requires ops[drawn].LeaseNext? && ops[drawn].freshToken == token
    requires !Live(At(ops, j), token)
    ensures !Live(At(ops, k), token)
    decreases k - j
  {
    hide Step, Inv, FreshFor, Run, Holds, At;
    if j < k {
      DroppedStaysDead(ops, drawn, j, k - 1, token);
      Advance(ops, k - 1);
      if Live(At(ops, k), token) {
        var id :| Holds(At(ops, k), id, token);
        StepTokens(At(ops, k - 1), ops[k - 1], id, token);
      }
    }
  }

  /**
   * Fencing. Once a token that was drawn for a lease is no longer live, by
   * reclaim, ack or fail, every later call that presents it, for any task, is
   * refused and leaves the whole store unchanged.
   */
  lemma {:induction false} Fencing(ops: seq<Op>, drawn: nat, j: nat, k: nat, token: Token)
    requires Fresh(ops) && drawn < j <= k < |ops|
    requires ops[drawn].LeaseNext? && ops[drawn].freshToken == token
    requires !Live(At(ops, j), token)
    requires Presents(ops[k], token)
    ensures At(ops, k + 1) == At(ops, k)
    ensures OutcomeAt(ops, k) == (if ops[k].id in At(ops, k).tasks then LeaseExpired else TaskNotFound)
  {
    DroppedStaysDead(ops, drawn, j, k, token);
    Advance(ops, k);
    assert !Holds(At(ops, k), ops[k].id, token);
  }

  /** A live token is good for one task only; presented for another it is refused. */
  lemma {:induction false} TokenNamesOneTask(ops: seq<Op>, k: nat, id: Id, token: Token)
    requires Fresh(ops) && k < |ops|
    requires Holds(At(ops, k), id, token)
    requires Presents(ops[k], token) && ops[k].id != id
    ensures At(ops, k + 1) == At(ops, k) && !OutcomeAt(ops, k).Done? && !OutcomeAt(ops, k).Returned?
  {
    hide Consistent, Holds;
    Advance(ops, k);
  }

  /**
   * Exclusion. A second lease of the same task kills the first one's token:
   * from then on at most the newest holder can change the task.
   */
  lemma {:induction false} NewLeaseExcludesOld(ops: seq<Op>, i: nat, j: nat, k: nat, id: Id)
    requires Fresh(ops) && i < j < k <= |ops|
    requires GrantsTo(OutcomeAt(ops, i), id) && GrantsTo(OutcomeAt(ops, j), id)
    ensures !Live(At(ops, k), OutcomeAt(ops, i).lease.token)
    ensures OutcomeAt(ops, i).lease.token != OutcomeAt(ops, j).lease.token
  {
    hide Step, Inv, FreshFor, Run, At;
    Advance(ops, i);
    Advance(ops, j);
    GrantFacts(ops, i, id);
    GrantFacts(ops, j, id);
    var first := OutcomeAt(ops, i).lease.token;
    if Live(At(ops, j + 1), first) {
      var a :| Holds(At(ops, j + 1), a, first);
      StepTokens(At(ops, j), ops[j], a, first);
      assert Holds(At(ops, j), a, first);
      TokenStaysPut(ops, i, j, id, a);
    }
    DroppedStaysDead(ops, i, j + 1, k, first);
  }

  lemma OnlyLeaseGrants(s: StoreState, op: Op)
    requires Consistent(s) && Step(s, op).1.Granted?
    ensures op.LeaseNext?
  {
  }

  lemma LeaseGrant(s: StoreState, op: Op, id: Id)
    requires Inv(s) && op.LeaseNext? && GrantsTo(Step(s, op).1, id)
    ensures var (s', out) := Step(s, op);
            && id in s.tasks && id in s'.tasks
            && Holds(s', id, op.freshToken)
            && out.lease == LeaseOf(s'.tasks[id], op.freshToken)
            && s'.tasks[id].attempts == s.tasks[id].attempts + 1
            && s.tasks[id].status != Succeeded
            && 1 <= out.lease.attempt <= s.tasks[id].maxAttempts
            && s'.tasks[id].checkpoint == s.tasks[id].checkpoint
  {
    hide Step;
    LeaseFrame(s, op);
    LeaseEffect(s, op, id);
    assert WellFormed(s.tasks[id]);
  }

  /** A granted lease is recorded on its task, with the token drawn for it. */
  lemma GrantFacts(ops: seq<Op>, n: nat, id: Id)
    requires Fresh(ops) && n < |ops| && GrantsTo(OutcomeAt(ops, n), id)
    ensures ops[n].LeaseNext? && id in At(ops, n).tasks && id in At(ops, n + 1).tasks
    ensures Holds(At(ops, n + 1), id, ops[n].freshToken)
    ensures OutcomeAt(ops, n).lease == LeaseOf(At(ops, n + 1).tasks[id], ops[n].freshToken)
    ensures At(ops, n + 1).tasks[id].attempts == At(ops, n).tasks[id].attempts + 1
    ensures At(ops, n).tasks[id].status != Succeeded
    ensures 1 <= OutcomeAt(ops, n).lease.attempt <= At(ops, n).tasks[id].maxAttempts
  {
    hide Step, FreshFor, Holds, LeaseOf;
    Advance(ops, n);
    var s := At(ops, n);
    OnlyLeaseGrants(s, ops[n]);
    LeaseGrant(s, ops[n], id);
  }

  /** A token lives on the task it was granted for, or nowhere. */
  lemma {:induction false} TokenStaysPut(ops: seq<Op>, i: nat, j: nat, id: Id, a: Id)
    requires Fresh(ops) && i < j <= |ops| && GrantsTo(OutcomeAt(ops, i), id)
    requires Holds(At(ops, j), a, OutcomeAt(ops, i).lease.token)
    ensures a == id
    decreases j
  {
    hide Step, Inv, FreshFor, Run, Holds;
    GrantFacts(ops, i, id);
    var token := ops[i].freshToken;
    Advance(ops, j - 1);
    StepTokens(At(ops, j - 1), ops[j - 1], a, token);
    if i < j - 1 {
      assert Holds(At(ops, j - 1), a, token);
      TokenStaysPut(ops, i, j - 1, id, a);
    } else {
      Advance(ops, i);
    }
  }

  // ------------------------------------------ what ends a lease, and what does not

  /** The step takes `token` away from task `id`: a settlement with it, or a `lease` on its queue after it ran out. */
  ghost predicate Releases(s: StoreState, op: Op, id: Id, token: Token)
    requires id in s.tasks
  {
    || ((op.Ack? || op.Fail?) && op.id == id && op.token == token)
    || (op.LeaseNext? && Expired(s.tasks[id], op.queue, op.now))
  }

  /** Time alone ends no lease: a token is lost exactly to a settlement or to a reclaiming `lease`. */
  lemma {:induction false} HeldUntilReleased(s: StoreState, op: Op, id: Id, token: Token)
    requires Inv(s) && FreshFor(s, op) && Holds(s, id, token)
    ensures Holds(Step(s, op).0, id, token) <==> !Releases(s, op, id, token)
  {
    assert s.tasks[id].id == id;
    if op.LeaseNext? {
      LeaseHoldsUnlessExpired(s, op, id, token);
    } else {
      hide Consistent;
    }
  }

  lemma LeaseHoldsUnlessExpired(s: StoreState, op: Op, id: Id, token: Token)
    requires Inv(s) && FreshFor(s, op) && op.LeaseNext? && Holds(s, id, token)
    ensures Holds(Step(s, op).0, id, token) <==> !Expired(s.tasks[id], op.queue, op.now)
  {
    LeaseEffect(s, op, id);
    assert op.freshToken != token;
    hide Step, Inv, Consistent;
  }

  /** No step strictly between `i` and `j` takes the token away. */
  ghost predicate NeverReleased(ops: seq<Op>, i: nat, j: nat, id: Id, token: Token)
    requires Fresh(ops) && j <= |ops|
  {
    forall k | i < k < j :: id in At(ops, k).tasks && !Releases(At(ops, k), ops[k], id, token)
  }

  /** So the holder of a lease keeps the right to write until then, however far past `leased_until` the clock is. */
  lemma {:induction false} LeaseEndsOnlyByRelease(ops: seq<Op>, i: nat, j: nat, id: Id, token: Token)
    requires Fresh(ops) && i < j <= |ops| && GrantsTo(OutcomeAt(ops, i), id)
    requires ops[i].LeaseNext? && ops[i].freshToken == token
    ensures Holds(At(ops, j), id, token) <==> NeverReleased(ops, i, j, id, token)
    decreases j
  {
    hide Step, Inv, FreshFor, Run, Holds, Releases;
    GrantFacts(ops, i, id);
    if i + 1 < j {
      LeaseEndsOnlyByRelease(ops, i, j - 1, id, token);
      TaskPersists(ops, i, j - 1, id);
      Advance(ops, j - 1);
      if Holds(At(ops, j - 1), id, token) {
        HeldUntilReleased(At(ops, j - 1), ops[j - 1], id, token);
      } else {
        NotHeldAgain(ops, i, j - 1, id, token);
      }
    }
  }

  lemma NotHeldAgain(ops: seq<Op>, i: nat, j: nat, id: Id, token: Token)
    requires Fresh(ops) && i < j < |ops| && ops[i].LeaseNext? && ops[i].freshToken == token
    requires !Holds(At(ops, j), id, token)
    ensures !Holds(At(ops, j + 1), id, token)
  {
    hide Step, Inv, FreshFor, Run, Holds;
    Advance(ops, j);
    if Holds(At(ops, j + 1), id, token) {
      StepTokens(At(ops, j), ops[j], id, token);
    }
  }

  lemma LeaseOnlyTask(s: StoreState, task: TaskState, leaseSeconds: real, token: Token, now: real)
    requires s.ids == [task.id] && s.tasks == map[task.id := task]
    requires Eligible(task, task.queue, now) && !Exhausted(task)
    ensures var delivered := Delivered(task, leaseSeconds, token, now);
            LeaseStep(s, task.queue, leaseSeconds, token, now)
            == (s.(tasks := map[task.id := delivered]), Granted(LeaseOf(delivered, token)))
  {
    var r := ReclaimAll(s, task.queue, now);
    assert r == s;
    assert EligibleTasks([task.id], s.tasks, task.queue, now) == [task] by {
      assert [task.id][..0] == [];
    }
    assert Candidates(s, task.queue, now) == [task];
    assert s.tasks[task.id := Delivered(task, leaseSeconds, token, now)]
           == map[task.id := Delivered(task, leaseSeconds, token, now)];
  }

  /** A submitted task, leased for one second and acked nine seconds after the lease ran out: the ack is accepted. */
  lemma {:induction false} LateAckIsAccepted(queue: Name, key: Name, id: Id, token: Token)
    ensures var ops := [Submit(queue, key, map[], 5, id, 0.0), LeaseNext(queue, 1.0, token, 0.0), Ack(id, token, 10.0)];
            && Fresh(ops)
            && OutcomeAt(ops, 1).Granted?
            && id in At(ops, 2).tasks && At(ops, 2).tasks[id].leasedUntil == Some(1.0)
            && OutcomeAt(ops, 2).Returned?
  {
    hide LeaseStep, Inv, Run;
    var ops := [Submit(queue, key, map[], 5, id, 0.0), LeaseNext(queue, 1.0, token, 0.0), Ack(id, token, 10.0)];
    var task := NewTask(id, queue, key, map[], 5, 0.0);
    StartsEmpty(ops);
    Advance(ops, 0);
    Advance(ops, 1);
    assert At(ops, 1).ids == [id] && At(ops, 1).tasks == map[id := task];
    LeaseOnlyTask(At(ops, 1), task, 1.0, token, 0.0);
  }

  lemma StartsEmpty(ops: seq<Op>)
    requires Fresh(ops)
    ensures At(ops, 0) == EMPTY_STORE
  {
  }
}
