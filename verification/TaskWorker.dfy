/**
 * Workers over one shared store, as a state machine. A worker's coroutines
 * suspend only at the semaphore, in the handler, in the result callback and in
 * the poll delay, so each stretch between those points is one move. Any number
 * of workers and outside clients interleave their moves freely.
 */
module TaskWorker {
  import opened Prelude
  import opened TaskProtocol
  import opened TaskRuns
  import opened TaskHistory
  import TaskStore

  datatype Verdict = ReportSucceeded | ReportRetrying | ReportDeadLetter

  datatype WorkerResult = WorkerResult(taskId: Id, outcome: Verdict, attempt: int, error: Option<string>)

  /**
   * `inFlight` holds the leases whose handler is running; `closing` counts the
   * processes that have settled their lease but not yet released their permit.
   */
  datatype WorkerState = WorkerState(
    queue: Name, leaseSeconds: real, permits: int, inFlight: seq<Lease>, closing: nat,
    stopping: bool, returned: bool, results: seq<WorkerResult>)

  datatype Move =
    | Poll(w: nat, freshToken: Token, now: real)
    | HandlerReturned(w: nat, k: nat, now: real)
    | HandlerRaised(w: nat, k: nat, error: string, delay: real, now: real)
    | HandlerCancelled(w: nat, k: nat)
    | ReleasePermit(w: nat)
    | Stop(w: nat)
    | Client(op: Op)

  function Without<T>(xs: seq<T>, k: nat): seq<T>
    requires k < |xs|
  {
    xs[..k] + xs[k + 1..]
  }

  // ------------------------------------------------------ one worker's moves

  /** The store operation a move performs, if any. */
  function OpOf(m: Move, w: WorkerState): Option<Op>
    requires (m.HandlerReturned? || m.HandlerRaised?) ==> m.k < |w.inFlight|
  {
    match m
    case Poll(_, freshToken, now) =>
      if w.stopping then None else Some(LeaseNext(w.queue, w.leaseSeconds, freshToken, now))
    case HandlerReturned(_, k, now) => Some(Ack(w.inFlight[k].taskId, w.inFlight[k].token, now))
    case HandlerRaised(_, k, error, delay, now) =>
      Some(Fail(w.inFlight[k].taskId, w.inFlight[k].token, error, delay, now))
    case HandlerCancelled(_, _) => None
    case ReleasePermit(_) => None
    case Stop(_) => None
    case Client(op) => Some(op)
  }

  /** The result a settlement emits; a refused one emits nothing. */
  function Report(m: Move, lease: Lease, out: Outcome): seq<WorkerResult>
    requires m.HandlerReturned? || m.HandlerRaised?
  {
    if !out.Returned? then []
    else if m.HandlerReturned? then [WorkerResult(lease.taskId, ReportSucceeded, lease.attempt, None)]
    else [WorkerResult(lease.taskId, if out.task.status == DeadLetter then ReportDeadLetter else ReportRetrying,
                       lease.attempt, Some(m.error))]
  }

  predicate CanMove(m: Move, w: WorkerState) {
    match m
    case Poll(_, _, _) => !w.returned && (w.stopping || w.permits > 0)
    case HandlerReturned(_, k, _) => k < |w.inFlight|
    case HandlerRaised(_, k, _, _, _) => k < |w.inFlight|
    case HandlerCancelled(_, k) => k < |w.inFlight|
    case ReleasePermit(_) => w.closing > 0
    case Stop(_) => true
    case Client(_) => true
  }

  /** The worker after its move, given what the store answered. */
  function Moved(m: Move, w: WorkerState, out: Outcome): WorkerState
    requires CanMove(m, w)
  {
    match m
    case Poll(_, _, _) =>
      if w.stopping then w.(returned := true)
      else if out.Granted? then w.(permits := w.permits - 1, inFlight := w.inFlight + [out.lease])
      else w
    case HandlerReturned(_, k, _) =>
      w.(inFlight := Without(w.inFlight, k), closing := w.closing + 1,
         results := w.results + Report(m, w.inFlight[k], out))
    case HandlerRaised(_, k, _, _, _) =>
      w.(inFlight := Without(w.inFlight, k), closing := w.closing + 1,
         results := w.results + Report(m, w.inFlight[k], out))
    case HandlerCancelled(_, k) => w.(inFlight := Without(w.inFlight, k), closing := w.closing + 1)
    case ReleasePermit(_) => w.(closing := w.closing - 1, permits := w.permits + 1)
    case Stop(_) => w.(stopping := true)
    case Client(_) => w
  }

  // ------------------------------------------------------------- the system

  /** `ops` is the history of the shared store, whose snapshot is `Run(ops)`. */
  datatype System = System(ops: seq<Op>, workers: seq<WorkerState>)

  ghost predicate Enabled(sys: System, m: Move) {
    && Fresh(sys.ops)
    && (!m.Client? ==> m.w < |sys.workers| && CanMove(m, sys.workers[m.w]))
    && (var op := if m.Client? then Some(m.op) else OpOf(m, sys.workers[m.w]);
        op.Some? ==> Fresh(sys.ops + [op.value]))
  }

  ghost function Next(sys: System, m: Move): System
    requires Enabled(sys, m)
  {
    if m.Client? then sys.(ops := sys.ops + [m.op])
    else
      var w := sys.workers[m.w];
      var op := OpOf(m, w);
      var out := if op.Some? then StoreAnswer(sys, op.value) else Done;
      System(if op.Some? then sys.ops + [op.value] else sys.ops, sys.workers[m.w := Moved(m, w, out)])
  }

  ghost function StoreAnswer(sys: System, op: Op): Outcome
    requires Fresh(sys.ops)
  {
    Step(Run(sys.ops), op).1
  }

  /** A fresh system: an empty store and idle workers, each with its own number of permits. */
  ghost predicate Initial(sys: System, concurrency: seq<nat>) {
    && sys.ops == [] && |sys.workers| == |concurrency|
    && forall w | 0 <= w < |sys.workers| ::
         var ws := sys.workers[w];
         ws.permits == concurrency[w] && ws.inFlight == [] && ws.closing == 0 && ws.results == []
  }

  ghost predicate Succeeds(r: WorkerResult, id: Id) {
    r.outcome == ReportSucceeded && r.taskId == id
  }

  /**
   * The lease was granted by the store: its token was drawn there, it names a
   * task, and while it holds its attempt number is current.
   */
  ghost predicate Faithful(ops: seq<Op>, lease: Lease)
    requires Fresh(ops)
  {
    && DrewToken(ops, lease.token)
    && lease.taskId in Run(ops).tasks
    && (Holds(Run(ops), lease.taskId, lease.token) ==> Run(ops).tasks[lease.taskId].attempts == lease.attempt)
  }

  /** Every permit is free, held by a running handler, or about to be released. */
  ghost predicate Accounted(ops: seq<Op>, ws: WorkerState, concurrency: nat)
    requires Fresh(ops)
  {
    && ws.permits >= 0
    && ws.permits + |ws.inFlight| + ws.closing == concurrency
    && (forall k | 0 <= k < |ws.inFlight| :: Faithful(ops, ws.inFlight[k]))
  }

  ghost predicate Recorded(s: StoreState, ws: WorkerState) {
    forall k | 0 <= k < |ws.results| && ws.results[k].outcome == ReportSucceeded ::
      ws.results[k].taskId in s.tasks && s.tasks[ws.results[k].taskId].status == Succeeded
  }

  /** No two succeeded results of the whole system name the same task. */
  ghost predicate Unique(workers: seq<WorkerState>) {
    forall w1, k1, w2, k2 |
      0 <= w1 < |workers| && 0 <= k1 < |workers[w1].results| && 0 <= w2 < |workers| && 0 <= k2 < |workers[w2].results|
      && workers[w1].results[k1].outcome == ReportSucceeded && workers[w2].results[k2].outcome == ReportSucceeded
      && workers[w1].results[k1].taskId == workers[w2].results[k2].taskId ::
      w1 == w2 && k1 == k2
  }

  ghost predicate SystemInv(sys: System, concurrency: seq<nat>) {
    && Fresh(sys.ops)
    && |sys.workers| == |concurrency|
    && (forall w | 0 <= w < |sys.workers| :: Accounted(sys.ops, sys.workers[w], concurrency[w]))
    && (forall w | 0 <= w < |sys.workers| :: Recorded(Run(sys.ops), sys.workers[w]))
    && Unique(sys.workers)
  }

  // ----------------------------------------------------------------- lemmas

  lemma RunAppend(ops: seq<Op>, op: Op)
    requires Fresh(ops + [op])
    ensures Fresh(ops) && FreshFor(Run(ops), op) && Run(ops + [op]) == Step(Run(ops), op).0
  {
    var all := ops + [op];
    assert all[..|ops|] == ops && all[..|all|] == all;
    assert forall i | 0 <= i < |ops| :: ops[i] == all[i];
    Advance(all, |ops|);
  }

  lemma HeldAcrossStep(s: StoreState, op: Op, id: Id, token: Token)
    requires Inv(s) && FreshFor(s, op) && id in s.tasks && Holds(Step(s, op).0, id, token)
    requires op.LeaseNext? ==> op.freshToken != token
    ensures Holds(s, id, token) && Step(s, op).0.tasks[id].attempts == s.tasks[id].attempts
  {
    StepTokens(s, op, id, token);
    if op.LeaseNext? { LeaseEffect(s, op, id); }
  }

  lemma FaithfulAfter(ops: seq<Op>, op: Op, lease: Lease)
    requires Fresh(ops + [op]) && Fresh(ops) && Faithful(ops, lease)
    ensures Faithful(ops + [op], lease)
  {
    hide Step, Inv, FreshFor, Run, Holds;
    RunAppend(ops, op);
    var all := ops + [op];
    assert all[..|all| - 1] == ops;
    DrawnTokenEarlier(all, lease.token);
    StepKeepsTask(Run(ops), op, lease.taskId);
    if Holds(Run(all), lease.taskId, lease.token) { HeldAcrossStep(Run(ops), op, lease.taskId, lease.token); }
  }

  lemma GrantedIsFaithful(ops: seq<Op>, op: Op)
    requires Fresh(ops + [op]) && Fresh(ops) && Step(Run(ops), op).1.Granted?
    ensures Faithful(ops + [op], Step(Run(ops), op).1.lease)
  {
    hide Step, Consistent, FreshFor, Run;
    RunAppend(ops, op);
    OnlyLeaseGrants(Run(ops), op);
    LeaseGrant(Run(ops), op, Step(Run(ops), op).1.lease.taskId);
    LastDrawn(ops + [op]);
  }

  lemma RecordedAfter(ops: seq<Op>, op: Op, ws: WorkerState)
    requires Fresh(ops + [op]) && Fresh(ops) && Recorded(Run(ops), ws)
    ensures Recorded(Run(ops + [op]), ws)
  {
    hide Step, Inv, FreshFor, Run;
    RunAppend(ops, op);
    forall k | 0 <= k < |ws.results| && ws.results[k].outcome == ReportSucceeded
      ensures ws.results[k].taskId in Run(ops + [op]).tasks
              && Run(ops + [op]).tasks[ws.results[k].taskId].status == Succeeded
    {
      StepEvolves(Run(ops), op, ws.results[k].taskId);
    }
  }

  /** An accepted ack takes its task from LEASED to SUCCEEDED. */
  lemma AckAccepted(s: StoreState, op: Op)
    requires Consistent(s) && op.Ack? && Step(s, op).1.Returned?
    ensures op.id in s.tasks && s.tasks[op.id].status == Leased
    ensures op.id in Step(s, op).0.tasks && Step(s, op).0.tasks[op.id].status == Succeeded
  {
  }

  /** Store operations alone keep every worker's books. */
  lemma OpKeepsInv(sys: System, op: Op, concurrency: seq<nat>)
    requires SystemInv(sys, concurrency) && Fresh(sys.ops + [op])
    ensures SystemInv(sys.(ops := sys.ops + [op]), concurrency)
  {
    hide Step, Inv, FreshFor, Run, Faithful, Fresh, Recorded;
    forall w | 0 <= w < |sys.workers|
      ensures Accounted(sys.ops + [op], sys.workers[w], concurrency[w])
      ensures Recorded(Run(sys.ops + [op]), sys.workers[w])
    {
      forall k | 0 <= k < |sys.workers[w].inFlight| ensures Faithful(sys.ops + [op], sys.workers[w].inFlight[k]) {
        FaithfulAfter(sys.ops, op, sys.workers[w].inFlight[k]);
      }
      RecordedAfter(sys.ops, op, sys.workers[w]);
    }
  }

  /** The results a settlement adds: at most one, and a succeeded one only for an accepted ack. */
  ghost predicate Adds(ws: WorkerState, ws': WorkerState, id: Option<Id>) {
    || ws'.results == ws.results
    || (&& |ws'.results| == |ws.results| + 1 && ws'.results[..|ws.results|] == ws.results
        && (ws'.results[|ws.results|].outcome == ReportSucceeded ==> id == Some(ws'.results[|ws.results|].taskId)))
  }

  lemma UniqueAfter(workers: seq<WorkerState>, w: nat, ws': WorkerState, id: Option<Id>)
    requires w < |workers| && Unique(workers) && Adds(workers[w], ws', id)
    requires id.Some? ==> forall v, k | 0 <= v < |workers| && 0 <= k < |workers[v].results| ::
               !Succeeds(workers[v].results[k], id.value)
    ensures Unique(workers[w := ws'])
  {
    var after := workers[w := ws'];
    var n := |workers[w].results|;
    forall w1, k1, w2, k2 |
      0 <= w1 < |after| && 0 <= k1 < |after[w1].results| && 0 <= w2 < |after| && 0 <= k2 < |after[w2].results|
      && after[w1].results[k1].outcome == ReportSucceeded && after[w2].results[k2].outcome == ReportSucceeded
      && after[w1].results[k1].taskId == after[w2].results[k2].taskId
      ensures w1 == w2 && k1 == k2
    {
      assert (w1 == w && k1 == n) || after[w1].results[k1] == workers[w1].results[k1];
      assert (w2 == w && k2 == n) || after[w2].results[k2] == workers[w2].results[k2];
    }
  }

  /** One move of one worker keeps its books, and records a success only for a task its own ack just completed. */
  lemma MovedKeepsBooks(ops: seq<Op>, m: Move, ws: WorkerState, concurrency: nat) returns (id: Option<Id>)
    requires Fresh(ops) && !m.Client? && CanMove(m, ws) && Accounted(ops, ws, concurrency) && Recorded(Run(ops), ws)
    requires OpOf(m, ws).Some? ==> Fresh(ops + [OpOf(m, ws).value])
    ensures var op := OpOf(m, ws);
            var ops' := if op.Some? then ops + [op.value] else ops;
            var ws' := Moved(m, ws, if op.Some? then Step(Run(ops), op.value).1 else Done);
            && Accounted(ops', ws', concurrency) && Recorded(Run(ops'), ws') && Adds(ws, ws', id)
            && (id.Some? ==> id.value in Run(ops).tasks && Run(ops).tasks[id.value].status != Succeeded)
  {
    hide Step, Consistent, FreshFor, Run, Faithful, Fresh;
    var op := OpOf(m, ws);
    var out := if op.Some? then Step(Run(ops), op.value).1 else Done;
    var ws' := Moved(m, ws, out);
    id := None;
    if op.Some? {
      var ops' := ops + [op.value];
      forall k | 0 <= k < |ws.inFlight| ensures Faithful(ops', ws.inFlight[k]) {
        FaithfulAfter(ops, op.value, ws.inFlight[k]);
      }
      RecordedAfter(ops, op.value, ws);
      RunAppend(ops, op.value);
      if m.Poll? && out.Granted? { GrantedIsFaithful(ops, op.value); }
      if m.HandlerReturned? && out.Returned? {
        AckAccepted(Run(ops), op.value);
        id := Some(op.value.id);
      }
    }
  }

  /** Every move keeps the system invariant. */
  lemma {:induction false} NextKeepsInv(sys: System, m: Move, concurrency: seq<nat>)
    requires SystemInv(sys, concurrency) && Enabled(sys, m)
    ensures SystemInv(Next(sys, m), concurrency)
  {
    hide Step, Inv, FreshFor, Run, Accounted, Recorded, Fresh, Unique, OpOf, Moved;
    if m.Client? {
      OpKeepsInv(sys, m.op, concurrency);
    } else {
      var ws := sys.workers[m.w];
      var id := MovedKeepsBooks(sys.ops, m, ws, concurrency[m.w]);
      var op := OpOf(m, ws);
      if op.Some? { OpKeepsInv(sys, op.value, concurrency); }
      if id.Some? {
        forall v, k | 0 <= v < |sys.workers| && 0 <= k < |sys.workers[v].results|
          ensures !Succeeds(sys.workers[v].results[k], id.value)
        {
          NotYetRecorded(Run(sys.ops), sys.workers[v], k, id.value);
        }
      }
      UniqueAfter(sys.workers, m.w, Next(sys, m).workers[m.w], id);
    }
  }

  lemma NotYetRecorded(s: StoreState, ws: WorkerState, k: nat, id: Id)
    requires Recorded(s, ws) && k < |ws.results| && id in s.tasks && s.tasks[id].status != Succeeded
    ensures !Succeeds(ws.results[k], id)
  {
  }

  // ---------------------------------------------------------- whole histories

  ghost predicate Schedule(systems: seq<System>, moves: seq<Move>) {
    && |systems| == |moves| + 1
    && forall n | 0 <= n < |moves| :: Enabled(systems[n], moves[n]) && systems[n + 1] == Next(systems[n], moves[n])
  }

  lemma {:induction false} ScheduleInv(systems: seq<System>, moves: seq<Move>, concurrency: seq<nat>, n: nat)
    requires Schedule(systems, moves) && Initial(systems[0], concurrency) && n < |systems|
    ensures SystemInv(systems[n], concurrency)
  {
    if n > 0 {
      ScheduleInv(systems, moves, concurrency, n - 1);
      NextKeepsInv(systems[n - 1], moves[n - 1], concurrency);
    }
  }

  /**
   * Single completion across workers: under any interleaving of any number of
   * workers and clients, at most one "succeeded" result is ever emitted for a
   * task, and then the store has the task SUCCEEDED.
   */
  lemma {:induction false} AtMostOneSuccess(systems: seq<System>, moves: seq<Move>, concurrency: seq<nat>, n: nat,
                         w1: nat, k1: nat, w2: nat, k2: nat, id: Id)
    requires Schedule(systems, moves) && Initial(systems[0], concurrency) && n < |systems|
    requires w1 < |systems[n].workers| && k1 < |systems[n].workers[w1].results|
             && Succeeds(systems[n].workers[w1].results[k1], id)
    requires w2 < |systems[n].workers| && k2 < |systems[n].workers[w2].results|
             && Succeeds(systems[n].workers[w2].results[k2], id)
    ensures w1 == w2 && k1 == k2
    ensures Fresh(systems[n].ops) && id in Run(systems[n].ops).tasks
            && Run(systems[n].ops).tasks[id].status == Succeeded
  {
    ScheduleInv(systems, moves, concurrency, n);
    assert Recorded(Run(systems[n].ops), systems[n].workers[w1]);
  }

  /** Bounded concurrency: a worker never runs more handlers than it has permits. */
  lemma {:induction false} ConcurrencyBounded(systems: seq<System>, moves: seq<Move>, concurrency: seq<nat>, n: nat,
                                              w: nat)
    requires Schedule(systems, moves) && Initial(systems[0], concurrency) && n < |systems| && w < |systems[n].workers|
    ensures |concurrency| == |systems[n].workers|
    ensures |systems[n].workers[w].inFlight| + systems[n].workers[w].closing <= concurrency[w]
  {
    ScheduleInv(systems, moves, concurrency, n);
    assert Accounted(systems[n].ops, systems[n].workers[w], concurrency[w]);
  }

  /**
   * A settlement is accepted or refused as expired, never "not found"; and an
   * accepted failure is reported "dead_letter" exactly when it used up the
   * last allowed attempt.
   */
  lemma {:induction false} SettlementAnswer(sys: System, m: Move, concurrency: seq<nat>)
    requires SystemInv(sys, concurrency) && Enabled(sys, m) && (m.HandlerReturned? || m.HandlerRaised?)
    ensures var lease := sys.workers[m.w].inFlight[m.k];
            var out := StoreAnswer(sys, OpOf(m, sys.workers[m.w]).value);
            && lease.taskId in Run(sys.ops).tasks
            && (out.Returned? || out == LeaseExpired)
            && (out.Returned? <==> Holds(Run(sys.ops), lease.taskId, lease.token))
            && (m.HandlerRaised? && out.Returned? ==>
                  Report(m, lease, out) == [WorkerResult(lease.taskId,
                    if lease.attempt >= Run(sys.ops).tasks[lease.taskId].maxAttempts
                    then ReportDeadLetter else ReportRetrying,
                    lease.attempt, Some(m.error))])
  {
    hide Step, Run, FreshFor, Fresh, Consistent;
    var ws := sys.workers[m.w];
    assert Accounted(sys.ops, ws, concurrency[m.w]);
    assert Faithful(sys.ops, ws.inFlight[m.k]);
    SettleStep(Run(sys.ops), OpOf(m, ws).value);
  }

  lemma SettleStep(s: StoreState, op: Op)
    requires Consistent(s) && (op.Ack? || op.Fail?) && op.id in s.tasks
    ensures var out := Step(s, op).1;
            && (out.Returned? || out == LeaseExpired)
            && (out.Returned? <==> Holds(s, op.id, op.token))
            && (op.Fail? && out.Returned? ==>
                  (out.task.status == DeadLetter <==> s.tasks[op.id].attempts >= s.tasks[op.id].maxAttempts))
  {
  }

  ghost predicate IsStopping(sys: System, w: nat) {
    w < |sys.workers| && sys.workers[w].stopping
  }

  /**
   * After shutdown has been requested a worker takes no new lease: its running
   * handlers can only finish, one at a time.
   */
  lemma {:induction false} NoLeaseAfterStop(systems: seq<System>, moves: seq<Move>, i: nat, j: nat, w: nat)
    requires Schedule(systems, moves) && i <= j < |systems| && IsStopping(systems[i], w)
    ensures IsStopping(systems[j], w)
    ensures multiset(systems[j].workers[w].inFlight) <= multiset(systems[i].workers[w].inFlight)
    decreases j - i
  {
    hide Step, Inv, FreshFor, Run, Fresh, StoreAnswer, Report;
    if i < j {
      NoLeaseAfterStop(systems, moves, i, j - 1, w);
      var before := systems[j - 1].workers[w];
      assert systems[j] == Next(systems[j - 1], moves[j - 1]);
      var m := moves[j - 1];
      if (m.HandlerReturned? || m.HandlerRaised? || m.HandlerCancelled?) && m.w == w {
        assert before.inFlight == before.inFlight[..m.k] + [before.inFlight[m.k]] + before.inFlight[m.k + 1..];
      }
    }
  }

  /** Stopping, with no handler running and no permit still to be released. */
  ghost predicate Drained(sys: System, w: nat) {
    w < |sys.workers| && sys.workers[w].stopping && sys.workers[w].inFlight == [] && sys.workers[w].closing == 0
  }

  lemma DrainedStep(sys: System, m: Move, w: nat)
    requires Enabled(sys, m) && Drained(sys, w)
    ensures Drained(Next(sys, m), w)
    ensures Next(sys, m).workers[w].results == sys.workers[w].results
    ensures !m.Client? && m.w == w ==> Next(sys, m).ops == sys.ops
  {
    hide Fresh, StoreAnswer;
  }

  lemma {:induction false} DrainedStays(systems: seq<System>, moves: seq<Move>, i: nat, j: nat, w: nat)
    requires Schedule(systems, moves) && i <= j < |systems| && Drained(systems[i], w)
    ensures Drained(systems[j], w) && w < |systems[i].workers|
    ensures systems[j].workers[w].results == systems[i].workers[w].results
    decreases j - i
  {
    hide Enabled, Next;
    if i < j {
      DrainedStays(systems, moves, i, j - 1, w);
      ScheduleStep(systems, moves, j - 1);
      hide Schedule;
      DrainedStep(systems[j - 1], moves[j - 1], w);
    }
  }

  /**
   * A drained worker is finished: it never again performs a store operation,
   * its results never change, and all its permits are back.
   */
  lemma {:induction false} DrainedForGood(systems: seq<System>, moves: seq<Move>, concurrency: seq<nat>,
                                          i: nat, j: nat, w: nat)
    requires Schedule(systems, moves) && Initial(systems[0], concurrency) && i <= j < |systems|
    requires Drained(systems[i], w)
    ensures Drained(systems[j], w) && w < |systems[i].workers|
    ensures systems[j].workers[w].results == systems[i].workers[w].results
    ensures w < |concurrency| && systems[j].workers[w].permits == concurrency[w]
    ensures forall k | i <= k < j && !moves[k].Client? && moves[k].w == w :: systems[k + 1].ops == systems[k].ops
  {
    ScheduleLength(systems, moves);
    DrainedStays(systems, moves, i, j, w);
    ScheduleInv(systems, moves, concurrency, j);
    PermitsBack(systems[j], concurrency, w);
    forall k | i <= k < j && !moves[k].Client? && moves[k].w == w ensures systems[k + 1].ops == systems[k].ops {
      DrainedStays(systems, moves, i, k, w);
      ScheduleStep(systems, moves, k);
      hide *;
      DrainedStep(systems[k], moves[k], w);
    }
    hide Schedule, Initial, SystemInv;
  }

  lemma ScheduleLength(systems: seq<System>, moves: seq<Move>)
    requires Schedule(systems, moves)
    ensures |systems| == |moves| + 1
  {
  }

  lemma ScheduleStep(systems: seq<System>, moves: seq<Move>, n: nat)
    requires Schedule(systems, moves) && n < |moves|
    ensures |systems| == |moves| + 1 && Enabled(systems[n], moves[n]) && systems[n + 1] == Next(systems[n], moves[n])
  {
  }

  lemma PermitsBack(sys: System, concurrency: seq<nat>, w: nat)
    requires SystemInv(sys, concurrency)
    ensures Drained(sys, w) ==> w < |concurrency| && sys.workers[w].permits == concurrency[w]
  {
    hide Fresh, Recorded, Unique, Faithful;
    if Drained(sys, w) {
      assert Accounted(sys.ops, sys.workers[w], concurrency[w]);
    }
  }

  /** The moves by which a worker's processes come to their end. */
  predicate EndsProcess(m: Move, w: nat) {
    (m.HandlerReturned? || m.HandlerRaised? || m.HandlerCancelled? || m.ReleasePermit?) && m.w == w
  }

  function ProcessMoves(moves: seq<Move>, i: nat, j: nat, w: nat): nat
    requires i <= j <= |moves|
    decreases j
  {
    if i == j then 0 else ProcessMoves(moves, i, j - 1, w) + (if EndsProcess(moves[j - 1], w) then 1 else 0)
  }

  /** How many moves a worker's processes still have ahead: two for each running handler, one for each closing. */
  function Unfinished(w: WorkerState): nat {
    2 * |w.inFlight| + w.closing
  }

  lemma UnfinishedStep(sys: System, m: Move, w: nat)
    requires Enabled(sys, m) && IsStopping(sys, w)
    ensures IsStopping(Next(sys, m), w)
    ensures Unfinished(sys.workers[w]) == Unfinished(Next(sys, m).workers[w]) + (if EndsProcess(m, w) then 1 else 0)
  {
    hide Fresh, StoreAnswer, Report;
  }

  /**
   * What `shutdown` waits for. Once a worker is stopping its processes have a
   * fixed number of moves ahead, whatever the others do and whether they return,
   * raise or are cancelled; it is drained exactly when all of them were made.
   */
  lemma {:induction false} DrainedWhenDone(systems: seq<System>, moves: seq<Move>, i: nat, j: nat, w: nat)
    requires Schedule(systems, moves) && i <= j < |systems| && IsStopping(systems[i], w)
    ensures j <= |moves| && IsStopping(systems[j], w)
    ensures Unfinished(systems[i].workers[w]) == Unfinished(systems[j].workers[w]) + ProcessMoves(moves, i, j, w)
    ensures Drained(systems[j], w) <==> ProcessMoves(moves, i, j, w) == Unfinished(systems[i].workers[w])
    decreases j - i
  {
    ScheduleLength(systems, moves);
    hide Enabled, Next;
    if i < j {
      DrainedWhenDone(systems, moves, i, j - 1, w);
      ScheduleStep(systems, moves, j - 1);
      hide Schedule;
      UnfinishedStep(systems[j - 1], moves[j - 1], w);
    }
  }

  // ------------------------------------------------------ the worker object

  /** What a handler makes of being cancelled: it ends, or swallows that and returns or raises. */
  datatype Ending = Cancelled | Returns(now: real) | Raises(error: string, delay: real, now: real)

  function EndMove(e: Ending): Move {
    match e
    case Cancelled => HandlerCancelled(0, 0)
    case Returns(now) => HandlerReturned(0, 0, now)
    case Raises(error, delay, now) => HandlerRaised(0, 0, error, delay, now)
  }

  /** A settlement keeps the store consistent. */
  lemma SettlementKeepsConsistent(s: StoreState, op: Op)
    requires Consistent(s) && (op.Ack? || op.Fail?)
    ensures Consistent(Step(s, op).0)
  {
  }

  /** The worker and its store after all handlers have ended, one way or the other, and released their permits. */
  ghost function WindUp(w: WorkerState, s: StoreState, endings: seq<Ending>): (r: (WorkerState, StoreState))
    requires Consistent(s) && |endings| == |w.inFlight|
    ensures r.0.inFlight == [] && r.0.closing == 0 && r.0.permits == w.permits + |w.inFlight| + w.closing
    ensures (forall e | e in endings :: e.Cancelled?) ==> r.0.results == w.results && r.1 == s
    decreases |endings|
  {
    if endings == [] then (w.(closing := 0, permits := w.permits + w.closing), s)
    else
      var m := EndMove(endings[0]);
      var op := OpOf(m, w);
      var (s', out) := if op.Some? then Step(s, op.value) else (s, Done);
      if op.Some? then
        SettlementKeepsConsistent(s, op.value);
        WindUp(Moved(m, w, out), s', endings[1..])
      else WindUp(Moved(m, w, out), s', endings[1..])
  }

  lemma WindUpOne(w: WorkerState, s: StoreState, endings: seq<Ending>)
    requires Consistent(s) && |endings| == |w.inFlight| > 0
    ensures var m := EndMove(endings[0]);
            var op := OpOf(m, w);
            var (s', out) := if op.Some? then Step(s, op.value) else (s, Done);
            && |Moved(m, w, out).inFlight| == |w.inFlight| - 1 && Consistent(s')
            && WindUp(w, s, endings) == WindUp(Moved(m, w, out), s', endings[1..])
  {
    var op := OpOf(EndMove(endings[0]), w);
    if op.Some? {
      SettlementKeepsConsistent(s, op.value);
    }
    hide Consistent, Step;
  }

  lemma WindUpNone(w: WorkerState, s: StoreState)
    requires Consistent(s) && w.inFlight == []
    ensures WindUp(w, s, []) == (w.(closing := 0, permits := w.permits + w.closing), s)
  {
  }

  /** A worker's own fields, updated in place move by move against a real store object. */
  class Worker {
    const queue: Name
    const leaseSeconds: real
    var permits: int
    var inFlight: seq<Lease>
    var closing: nat
    var stopping: bool
    var returned: bool
    var results: seq<WorkerResult>

    function View(): WorkerState
      reads this
    {
      WorkerState(queue, leaseSeconds, permits, inFlight, closing, stopping, returned, results)
    }

    constructor (queue: Name, concurrency: nat, leaseSeconds: real)
      ensures View() == WorkerState(queue, leaseSeconds, concurrency, [], 0, false, false, [])
    {
      this.queue, this.leaseSeconds := queue, leaseSeconds;
      permits, inFlight, closing, stopping, returned, results := concurrency, [], 0, false, false, [];
    }

    /** One turn of the run loop, from the moment a permit is available. */
    method Poll(store: TaskStore.InMemoryTaskStore, freshToken: Token, now: real) returns (ghost out: Outcome)
      requires store.Valid() && CanMove(Move.Poll(0, freshToken, now), View())
      modifies this, store.tasks.Values
      ensures store.Valid()
      ensures View() == Moved(Move.Poll(0, freshToken, now), old(View()), out)
      ensures if old(stopping) then store.State() == old(store.State())
              else (store.State(), out) == Step(old(store.State()), LeaseNext(queue, leaseSeconds, freshToken, now))
    {
      hide Consistent, Step, TaskStore.InMemoryTaskStore.Valid;
      out := Done;
      if stopping {
        returned := true;
        return;
      }
      permits := permits - 1;
      var lease := store.Lease(queue, leaseSeconds, freshToken, now);
      if lease.None? {
        out := NothingToLease;
        permits := permits + 1;
        return;
      }
      out := Granted(lease.value);
      inFlight := inFlight + [lease.value];
    }

    /** The handler of `inFlight[k]` returned: ack, and report the success unless the lease was lost. */
    method OnSuccess(store: TaskStore.InMemoryTaskStore, k: nat, now: real) returns (ghost out: Outcome)
      requires store.Valid() && k < |inFlight|
      modifies this, store.tasks.Values
      ensures store.Valid()
      ensures View() == Moved(HandlerReturned(0, k, now), old(View()), out)
      ensures (store.State(), out)
              == Step(old(store.State()), Ack(old(inFlight[k].taskId), old(inFlight[k].token), now))
    {
      hide Consistent, Step, TaskStore.InMemoryTaskStore.Valid;
      var lease := inFlight[k];
      var answer := store.Ack(lease.taskId, lease.token, now);
      out := answer;
      if answer.Returned? {
        results := results + [WorkerResult(lease.taskId, ReportSucceeded, lease.attempt, None)];
      }
      inFlight := Without(inFlight, k);
      closing := closing + 1;
    }

    /** The handler of `inFlight[k]` raised: fail with a delay, and report what the store decided. */
    method OnFailure(store: TaskStore.InMemoryTaskStore, k: nat, error: string, delay: real, now: real)
      returns (ghost out: Outcome)
      requires store.Valid() && k < |inFlight|
      modifies this, store.tasks.Values
      ensures store.Valid()
      ensures View() == Moved(HandlerRaised(0, k, error, delay, now), old(View()), out)
      ensures (store.State(), out)
              == Step(old(store.State()), Fail(old(inFlight[k].taskId), old(inFlight[k].token), error, delay, now))
    {
      hide Consistent, Step, TaskStore.InMemoryTaskStore.Valid;
      var lease := inFlight[k];
      var answer := store.Fail(lease.taskId, lease.token, error, delay, now);
      out := answer;
      if answer.Returned? {
        var outcome := if answer.task.status == DeadLetter then ReportDeadLetter else ReportRetrying;
        results := results + [WorkerResult(lease.taskId, outcome, lease.attempt, Some(error))];
      }
      inFlight := Without(inFlight, k);
      closing := closing + 1;
    }

    /** The handler of `inFlight[k]` was cancelled: nothing is settled and nothing reported. */
    method OnCancelled(k: nat)
      requires k < |inFlight|
      modifies this
      ensures View() == Moved(HandlerCancelled(0, k), old(View()), Done)
    {
      inFlight := Without(inFlight, k);
      closing := closing + 1;
    }

    method Release()
      requires closing > 0
      modifies this
      ensures View() == Moved(ReleasePermit(0), old(View()), Done)
    {
      closing := closing - 1;
      permits := permits + 1;
    }

    /** `shutdown`, up to its wait: it returns at once when nothing is in flight. */
    method Shutdown() returns (drained: bool)
      modifies this
      ensures View() == Moved(Stop(0), old(View()), Done)
      ensures drained <==> inFlight == [] && closing == 0
    {
      stopping := true;
      drained := inFlight == [] && closing == 0;
    }

    /**
     * The end of that wait, in time or not. It answers true exactly if no
     * process was left running then. Those that were are cancelled, and their
     * `endings` say how each takes it; the answer comes after the last of them,
     * so either way nothing is in flight and every permit is back.
     */
    method ShutdownEnds(store: TaskStore.InMemoryTaskStore, endings: seq<Ending>) returns (drained: bool)
      requires store.Valid() && |endings| == |inFlight|
      modifies this, store.tasks.Values
      ensures store.Valid()
      ensures drained <==> old(inFlight) == [] && old(closing) == 0
      ensures (View(), store.State()) == WindUp(old(View()), old(store.State()), endings)
      ensures inFlight == [] && closing == 0 && permits == old(permits + |inFlight| + closing)
    {
      hide Consistent, Step, Moved, OpOf, WindUp, EndMove;
      drained := inFlight == [] && closing == 0;
      assert endings[0..] == endings;
      for i := 0 to |endings|
        invariant store.Valid() && |inFlight| == |endings| - i
        invariant WindUp(View(), store.State(), endings[i..]) == WindUp(old(View()), old(store.State()), endings)
      {
        assert endings[i..][0] == endings[i] && endings[i..][1..] == endings[i + 1..];
        WindUpOne(View(), store.State(), endings[i..]);
        var _ := EndFirst(store, endings[i]);
      }
      WindUpNone(View(), store.State());
      ReleaseAll();
    }

    /** The process of `inFlight[0]` comes to its end. */
    method EndFirst(store: TaskStore.InMemoryTaskStore, e: Ending) returns (ghost out: Outcome)
      requires store.Valid() && inFlight != []
      modifies this, store.tasks.Values
      ensures store.Valid() && Consistent(old(store.State()))
      ensures View() == Moved(EndMove(e), old(View()), out) && |inFlight| == |old(inFlight)| - 1
      ensures var op := OpOf(EndMove(e), old(View()));
              (store.State(), out)
              == if op.Some? then Step(old(store.State()), op.value) else (old(store.State()), Done)
    {
      hide Consistent, Step;
      match e
      case Cancelled => OnCancelled(0); out := Done;
      case Returns(now) => out := OnSuccess(store, 0, now);
      case Raises(error, delay, now) => out := OnFailure(store, 0, error, delay, now);
    }

    method ReleaseAll()
      modifies this
      ensures View() == old(View()).(closing := 0, permits := old(permits + closing))
    {
      while closing > 0
        invariant View() == old(View()).(closing := closing, permits := permits)
        invariant permits + closing == old(permits + closing)
        decreases closing
      {
        Release();
      }
    }
  }
}
