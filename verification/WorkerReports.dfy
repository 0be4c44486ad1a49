/**
 * What workers do and report, seen from outside: which store operation each
 * move performs, and that a worker's results are exactly its accepted
 * settlements, in order.
 */
module WorkerReports {
  import opened Prelude
  import opened TaskProtocol
  import opened TaskRuns
  import opened TaskHistory
  import opened TaskWorker

  /** The move ends the handler of this lease, one way or the other. */
  ghost predicate Settles(sys: System, m: Move, w: nat, lease: Lease) {
    (m.HandlerReturned? || m.HandlerRaised?) && m.w == w < |sys.workers| && m.k < |sys.workers[w].inFlight|
    && sys.workers[w].inFlight[m.k] == lease
  }

  /** The store still knows the lease: the task is LEASED under its token. */
  ghost predicate Current(sys: System, lease: Lease) {
    && Fresh(sys.ops) && lease.taskId in Run(sys.ops).tasks
    && Run(sys.ops).tasks[lease.taskId].status == Leased
    && Run(sys.ops).tasks[lease.taskId].leaseToken == Some(lease.token)
  }

  /** What one move adds to the results of worker `w`. */
  ghost function Added(sys: System, m: Move, w: nat): seq<WorkerResult> {
    if m.Client? || m.w != w || w >= |sys.workers| || !(m.HandlerReturned? || m.HandlerRaised?)
       || m.k >= |sys.workers[w].inFlight| || !Current(sys, sys.workers[w].inFlight[m.k]) then []
    else
      var lease := sys.workers[w].inFlight[m.k];
      var task := Run(sys.ops).tasks[lease.taskId];
      if m.HandlerReturned? then [WorkerResult(lease.taskId, ReportSucceeded, lease.attempt, None)]
      else if task.attempts >= task.maxAttempts then
        [WorkerResult(lease.taskId, ReportDeadLetter, lease.attempt, Some(m.error))]
      else [WorkerResult(lease.taskId, ReportRetrying, lease.attempt, Some(m.error))]
  }

  /** What the store answers to a settlement. */
  lemma StoreSettles(s: StoreState, op: Op)
    requires Consistent(s) && (op.Ack? || op.Fail?) && op.id in s.tasks
    ensures var out := Step(s, op).1;
            var held := s.tasks[op.id].status == Leased && s.tasks[op.id].leaseToken == Some(op.token);
            && (out.Returned? <==> held)
            && (held && op.Fail? ==>
                  (out.task.status == DeadLetter <==> s.tasks[op.id].attempts >= s.tasks[op.id].maxAttempts))
  {
  }

  /** What one move adds to a worker's results. */
  lemma {:induction false} MoveReports(sys: System, m: Move, w: nat, concurrency: seq<nat>)
    requires SystemInv(sys, concurrency) && Enabled(sys, m) && w < |sys.workers|
    ensures |Next(sys, m).workers| == |sys.workers|
    ensures Next(sys, m).workers[w].results == sys.workers[w].results + Added(sys, m, w)
  {
    var ws := sys.workers[w];
    assert ws.results + [] == ws.results;
    if (m.HandlerReturned? || m.HandlerRaised?) && m.w == w {
      assert Accounted(sys.ops, ws, concurrency[w]);
      assert Faithful(sys.ops, ws.inFlight[m.k]);
      StoreSettles(Run(sys.ops), OpOf(m, ws).value);
    }
    hide Step, Run, Fresh, Inv, Consistent, Accounted, Recorded, Unique, Faithful, FreshFor, Without;
  }

  /** The store operation of a worker's move, and what becomes of its leases and permits. */
  ghost predicate ActsAlone(ops: seq<Op>, m: Move, w: WorkerState, ops': seq<Op>, w': WorkerState) {
    if m.Poll? && !w.stopping then
      var op := LeaseNext(w.queue, w.leaseSeconds, m.freshToken, m.now);
      && Fresh(ops) && ops' == ops + [op]
      && var out := Step(Run(ops), op).1;
         w' == if out.Granted? then w.(permits := w.permits - 1, inFlight := w.inFlight + [out.lease]) else w
    else if m.HandlerReturned? || m.HandlerRaised? then
      && m.k < |w.inFlight|
      && var lease := w.inFlight[m.k];
         && ops' == ops + [if m.HandlerReturned? then Ack(lease.taskId, lease.token, m.now)
                           else Fail(lease.taskId, lease.token, m.error, m.delay, m.now)]
         && w' == w.(inFlight := w.inFlight[..m.k] + w.inFlight[m.k + 1..], closing := w.closing + 1,
                     results := w'.results)
    else if m.HandlerCancelled? then
      && m.k < |w.inFlight| && ops' == ops
      && w' == w.(inFlight := w.inFlight[..m.k] + w.inFlight[m.k + 1..], closing := w.closing + 1)
    else if m.ReleasePermit? then
      w.closing > 0 && ops' == ops && w' == w.(closing := w.closing - 1, permits := w.permits + 1)
    else
      ops' == ops && w' == if m.Poll? then w.(returned := true) else if m.Stop? then w.(stopping := true) else w
  }

  /** The same for the whole system: a worker's move leaves the others alone, and a client's all of them. */
  ghost predicate Acts(sys: System, m: Move, sys': System) {
    && |sys'.workers| == |sys.workers|
    && (forall v | 0 <= v < |sys.workers| && (m.Client? || v != m.w) :: sys'.workers[v] == sys.workers[v])
    && (m.Client? ==> sys'.ops == sys.ops + [m.op])
    && (!m.Client? ==>
          m.w < |sys.workers| && ActsAlone(sys.ops, m, sys.workers[m.w], sys'.ops, sys'.workers[m.w]))
  }

  lemma {:induction false} MoveActs(sys: System, m: Move)
    requires Enabled(sys, m)
    ensures Acts(sys, m, Next(sys, m))
  {
    hide Step, Run, Fresh, Consistent, FreshFor, Report;
  }

  /**
   * What can happen next: a worker polls while it runs and has a permit to spare
   * or is stopping; each of its handlers can end any way at any time; a closing
   * process can release its permit; and a shutdown can be asked for.
   */
  lemma {:induction false} WorkerCanGoOn(sys: System, w: nat, k: nat, token: Token, error: string, delay: real,
                                         now: real)
    requires Fresh(sys.ops) && w < |sys.workers|
    ensures var ws := sys.workers[w];
            && (Enabled(sys, Poll(w, token, now))
                <==> !ws.returned && (ws.stopping || (ws.permits > 0 && !DrewToken(sys.ops, token))))
            && (Enabled(sys, HandlerReturned(w, k, now)) <==> k < |ws.inFlight|)
            && (Enabled(sys, HandlerRaised(w, k, error, delay, now)) <==> k < |ws.inFlight|)
            && (Enabled(sys, HandlerCancelled(w, k)) <==> k < |ws.inFlight|)
            && (Enabled(sys, ReleasePermit(w)) <==> ws.closing > 0)
            && Enabled(sys, Stop(w))
  {
    var ws := sys.workers[w];
    StaysFresh(sys.ops, LeaseNext(ws.queue, ws.leaseSeconds, token, now));
    if k < |ws.inFlight| {
      StaysFresh(sys.ops, Ack(ws.inFlight[k].taskId, ws.inFlight[k].token, now));
      StaysFresh(sys.ops, Fail(ws.inFlight[k].taskId, ws.inFlight[k].token, error, delay, now));
    }
    hide Fresh, DrewToken;
  }

  /** One more operation draws nothing twice, unless it draws what was drawn. */
  lemma StaysFresh(ops: seq<Op>, op: Op)
    requires Fresh(ops) && !op.Submit?
    ensures Fresh(ops + [op]) <==> op.LeaseNext? ==> !DrewToken(ops, op.freshToken)
  {
    var all := ops + [op];
    assert forall i | 0 <= i < |ops| :: all[i] == ops[i];
    assert all[|ops|] == op;
  }

  // ------------------------------------------------------------ over schedules

  /** The accepted settlements of worker `w` among the first `n` moves, in order. */
  ghost function Settled(systems: seq<System>, moves: seq<Move>, w: nat, n: nat): seq<WorkerResult>
    requires n <= |moves| < |systems|
  {
    if n == 0 then [] else Settled(systems, moves, w, n - 1) + Added(systems[n - 1], moves[n - 1], w)
  }

  /**
   * A worker's results are exactly its accepted settlements, in order: one
   * report for each return or failure of a handler whose lease the store still
   * knew, and nothing for any other.
   */
  lemma {:induction false} ResultsAreSettlements(systems: seq<System>, moves: seq<Move>, concurrency: seq<nat>, n: nat,
                                                 w: nat)
    requires Schedule(systems, moves) && Initial(systems[0], concurrency) && n < |systems| && w < |concurrency|
    ensures n <= |moves| < |systems| && w < |systems[n].workers|
    ensures systems[n].workers[w].results == Settled(systems, moves, w, n)
  {
    ScheduleLength(systems, moves);
    hide Enabled, Next, SystemInv, Added;
    if n > 0 {
      ResultsAreSettlements(systems, moves, concurrency, n - 1, w);
      ScheduleStep(systems, moves, n - 1);
      ScheduleInv(systems, moves, concurrency, n - 1);
      hide Schedule, Initial;
      MoveReports(systems[n - 1], moves[n - 1], w, concurrency);
    }
  }

  /** At move `n` the ack of a worker for this task is accepted. */
  ghost predicate WorkerAcks(systems: seq<System>, moves: seq<Move>, n: nat, id: Id) {
    && n < |moves| && n < |systems| && moves[n].HandlerReturned? && moves[n].w < |systems[n].workers|
    && moves[n].k < |systems[n].workers[moves[n].w].inFlight|
    && var lease := systems[n].workers[moves[n].w].inFlight[moves[n].k];
       lease.taskId == id && Current(systems[n], lease)
  }

  ghost predicate ReportedSuccess(sys: System, id: Id) {
    exists w: nat, k: nat ::
      w < |sys.workers| && k < |sys.workers[w].results| && Succeeds(sys.workers[w].results[k], id)
  }

  lemma AddedSuccess(systems: seq<System>, moves: seq<Move>, n: nat, w: nat, id: Id)
    requires n < |moves| && n < |systems|
    ensures var added := Added(systems[n], moves[n], w);
            && |added| <= 1
            && (added != [] && Succeeds(added[0], id) ==> WorkerAcks(systems, moves, n, id) && moves[n].w == w)
            && (WorkerAcks(systems, moves, n, id) && moves[n].w == w ==> added != [] && Succeeds(added[0], id))
  {
    hide Current;
  }

  lemma SettledNext(systems: seq<System>, moves: seq<Move>, w: nat, n: nat)
    requires n <= |moves| < |systems|
    ensures n == 0 ==> Settled(systems, moves, w, n) == []
    ensures n > 0 ==>
              Settled(systems, moves, w, n)
              == Settled(systems, moves, w, n - 1) + Added(systems[n - 1], moves[n - 1], w)
  {
    hide Added;
  }

  lemma {:induction false} SettledSuccess(systems: seq<System>, moves: seq<Move>, n: nat, w: nat, k: nat, id: Id)
    returns (i: nat)
    requires n <= |moves| < |systems| && k < |Settled(systems, moves, w, n)|
    requires Succeeds(Settled(systems, moves, w, n)[k], id)
    ensures i < n && WorkerAcks(systems, moves, i, id)
  {
    hide *;
    SettledNext(systems, moves, w, n);
    AddedSuccess(systems, moves, n - 1, w, id);
    if k < |Settled(systems, moves, w, n - 1)| {
      i := SettledSuccess(systems, moves, n - 1, w, k, id);
    } else {
      i := n - 1;
    }
  }

  lemma IsWorkers(systems: seq<System>, moves: seq<Move>, i: nat, id: Id)
    requires WorkerAcks(systems, moves, i, id)
    ensures i < |moves| && moves[i].HandlerReturned?
  {
    hide Current;
  }

  lemma {:induction false} AckIsSettled(systems: seq<System>, moves: seq<Move>, n: nat, i: nat, id: Id) returns (k: nat)
    requires i < n <= |moves| < |systems| && WorkerAcks(systems, moves, i, id)
    ensures k < |Settled(systems, moves, moves[i].w, n)| && Succeeds(Settled(systems, moves, moves[i].w, n)[k], id)
    decreases n
  {
    hide *;
    IsWorkers(systems, moves, i, id);
    var w := moves[i].w;
    SettledNext(systems, moves, w, n);
    SettledNext(systems, moves, w, i + 1);
    AddedSuccess(systems, moves, i, w, id);
    if i < n - 1 {
      k := AckIsSettled(systems, moves, n - 1, i, id);
    } else {
      k := |Settled(systems, moves, w, i)|;
    }
  }

  /**
   * A "succeeded" result for a task exists, then exactly one over all workers,
   * if and only if some worker's ack of it was accepted.
   */
  lemma {:induction false} SuccessIffAcked(systems: seq<System>, moves: seq<Move>, concurrency: seq<nat>, n: nat,
                                           id: Id)
    requires Schedule(systems, moves) && Initial(systems[0], concurrency) && n < |systems|
    ensures ReportedSuccess(systems[n], id) <==> exists i: nat :: i < n && WorkerAcks(systems, moves, i, id)
  {
    ScheduleLength(systems, moves);
    ScheduleInv(systems, moves, concurrency, n);
    assert |systems[n].workers| == |concurrency|;
    hide Schedule, Initial, SystemInv, Current, Settled, Enabled, Next;
    if w: nat, k: nat :| w < |systems[n].workers| && k < |systems[n].workers[w].results|
                         && Succeeds(systems[n].workers[w].results[k], id) {
      ResultsAreSettlements(systems, moves, concurrency, n, w);
      var i := SettledSuccess(systems, moves, n, w, k, id);
    }
    if i: nat :| i < n && WorkerAcks(systems, moves, i, id) {
      WorkersStay(systems, moves, concurrency, i);
      ResultsAreSettlements(systems, moves, concurrency, n, moves[i].w);
      var k := AckIsSettled(systems, moves, n, i, id);
    }
  }

  lemma WorkersStay(systems: seq<System>, moves: seq<Move>, concurrency: seq<nat>, n: nat)
    requires Schedule(systems, moves) && Initial(systems[0], concurrency) && n < |systems|
    ensures |systems[n].workers| == |concurrency|
  {
    ScheduleInv(systems, moves, concurrency, n);
    hide Schedule, Initial;
  }
}
