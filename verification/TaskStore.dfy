/**
 * The in-memory task store itself: task objects that the operations update in
 * place, and the two dictionaries that find them. Each method is proved to be
 * the matching step of TaskProtocol.
 */
module TaskStore {
  import opened Prelude
  import opened TaskProtocol
  import TaskLease
  import TaskRuns

  class Task {
    const id: Id
    const queue: Name
    const key: Name
    const payload: Fields
    const maxAttempts: int
    const createdAt: real
    var status: TaskStatus
    var attempts: int
    var availableAt: real
    var leaseToken: Option<Token>
    var leasedUntil: Option<real>
    var checkpoint: Option<Fields>
    var lastError: Option<string>
    var updatedAt: real

    function View(): TaskState
      reads this
    {
      TaskState(id, queue, key, payload, maxAttempts, status, attempts, availableAt,
                leaseToken, leasedUntil, checkpoint, lastError, createdAt, updatedAt)
    }

    constructor (id: Id, queue: Name, key: Name, payload: Fields, maxAttempts: int, now: real)
      ensures View() == NewTask(id, queue, key, payload, maxAttempts, now)
    {
      this.id, this.queue, this.key, this.payload, this.maxAttempts := id, queue, key, payload, maxAttempts;
      createdAt, updatedAt, availableAt := now, now, now;
      status, attempts := Pending, 0;
      leaseToken, leasedUntil, checkpoint, lastError := None, None, None, None;
    }

    method Touch(now: real)
      modifies this`updatedAt
      ensures updatedAt == now
    {
      updatedAt := now;
    }

    // The assignments each store operation makes to the task it has chosen.

    method ReclaimLease(now: real)
      modifies this
      ensures View()
              == old(View()).(status := Pending, availableAt := now, leaseToken := None, leasedUntil := None,
                              updatedAt := now)
    {
      status := Pending;
      availableAt := now;
      leaseToken := None;
      leasedUntil := None;
      Touch(now);
    }

    /** One more delivery attempt; `delivered` says whether it was still within the limit. */
    method Attempt(leaseSeconds: real, freshToken: Token, now: real) returns (delivered: bool)
      modifies this
      ensures delivered == !Exhausted(old(View()))
      ensures View() == if delivered then Delivered(old(View()), leaseSeconds, freshToken, now)
                        else DeadLettered(old(View()), now)
    {
      attempts := attempts + 1;
      if attempts > maxAttempts {
        status := DeadLetter;
        lastError := if lastError.None? || lastError.value == "" then Some(EXHAUSTED_ERROR) else lastError;
        Touch(now);
        return false;
      }
      status := Leased;
      leaseToken := Some(freshToken);
      leasedUntil := Some(now + leaseSeconds);
      Touch(now);
      return true;
    }

    method Extend(leaseSeconds: real, now: real)
      modifies this
      ensures View() == Extended(old(View()), leaseSeconds, now)
    {
      leasedUntil := Some(now + leaseSeconds);
      Touch(now);
    }

    method Save(state: Fields, now: real)
      modifies this
      ensures View() == Patched(old(View()), state, now)
    {
      checkpoint := Some((if checkpoint.Some? then checkpoint.value else map[]) + state);
      Touch(now);
    }

    method Complete(now: real)
      modifies this
      ensures View() == Acked(old(View()), now)
    {
      status := Succeeded;
      leaseToken := None;
      leasedUntil := None;
      Touch(now);
    }

    method GiveBack(error: string, retryIn: real, now: real)
      modifies this
      ensures View() == Failed(old(View()), error, retryIn, now)
    {
      lastError := Some(error);
      leaseToken := None;
      leasedUntil := None;
      if attempts >= maxAttempts {
        status := DeadLetter;
      } else {
        status := Pending;
        availableAt := now + retryIn;
      }
      Touch(now);
    }

    method Revive(resetAttempts: bool, now: real)
      modifies this
      ensures View() == Requeued(old(View()), resetAttempts, now)
    {
      status := Pending;
      availableAt := now;
      if resetAttempts {
        attempts := 0;
      }
      Touch(now);
    }
  }

  /** The snapshot with the tasks in `done` reclaimed: how far the reclaim loop has come. */
  ghost function Reclaimed(s: StoreState, done: seq<Id>, queue: Name, now: real): StoreState {
    s.(tasks := map id | id in s.tasks :: if id in done then Reclaim(s.tasks[id], queue, now) else s.tasks[id])
  }

  lemma ReclaimedNone(s: StoreState, queue: Name, now: real)
    ensures Reclaimed(s, [], queue, now) == s
  {
    assert Reclaimed(s, [], queue, now).tasks == s.tasks;
  }

  lemma ReclaimedOneMore(s: StoreState, done: seq<Id>, id: Id, queue: Name, now: real)
    requires id in s.tasks && s.tasks[id].id == id
    ensures Put(Reclaimed(s, done, queue, now), Reclaim(s.tasks[id], queue, now))
            == Reclaimed(s, done + [id], queue, now)
  {
    assert Put(Reclaimed(s, done, queue, now), Reclaim(s.tasks[id], queue, now)).tasks
           == Reclaimed(s, done + [id], queue, now).tasks;
  }

  lemma ReclaimedEvery(s: StoreState, queue: Name, now: real)
    requires Consistent(s)
    ensures Reclaimed(s, s.ids, queue, now) == ReclaimAll(s, queue, now)
  {
    assert Reclaimed(s, s.ids, queue, now).tasks == ReclaimAll(s, queue, now).tasks;
  }

  lemma TaskIdOf(t: TaskState, leaseSeconds: real, token: Token, now: real)
    ensures Delivered(t, leaseSeconds, token, now).id == t.id && DeadLettered(t, now).id == t.id
  {
  }

  class InMemoryTaskStore {
    var ids: seq<Id>
    var tasks: map<Id, Task>
    var index: map<(Name, Name), Id>

    function State(): StoreState
      reads this, tasks.Values
    {
      StoreState(ids, map id | id in tasks :: tasks[id].View(), index)
    }

    ghost predicate Valid()
      reads this, tasks.Values
    {
      Consistent(State())
    }

    constructor ()
      ensures Valid() && State() == EMPTY_STORE
    {
      ids, tasks, index := [], map[], map[];
    }

    method Submit(queue: Name, key: Name, payload: Fields, maxAttempts: int, freshId: Id, now: real)
      returns (task: Task)
      requires Valid() && freshId !in tasks
      modifies this
      ensures Valid()
      ensures State() == Step(old(State()), TaskProtocol.Submit(queue, key, payload, maxAttempts, freshId, now)).0
      ensures Returned(task.View())
              == Step(old(State()), TaskProtocol.Submit(queue, key, payload, maxAttempts, freshId, now)).1
      ensures task.id in tasks && tasks[task.id] == task
      ensures old(tasks.Keys) <= tasks.Keys && forall id | id in old(tasks) :: tasks[id] == old(tasks[id])
      ensures forall id | id in tasks && id !in old(tasks) :: fresh(tasks[id])
    {
      hide Consistent, LeaseStep, DeadLetters, Distinct;
      Facts();
      TaskRuns.SubmitConsistent(State(), TaskProtocol.Submit(queue, key, payload, maxAttempts, freshId, now));
      if (queue, key) in index {
        return tasks[index[(queue, key)]];
      }
      task := new Task(freshId, queue, key, payload, maxAttempts, now);
      tasks := tasks[task.id := task];
      ids := ids + [task.id];
      index := index[(queue, key) := task.id];
      OneTaskAdded(task);
    }

    /** Validity in terms of the objects. */
    lemma Facts()
      requires Valid()
      ensures State().tasks.Keys == tasks.Keys
      ensures forall id | id in tasks :: tasks[id].id == id && id in ids && State().tasks[id] == tasks[id].View()
      ensures forall id | id in ids :: id in tasks
      ensures Distinct(ids)
      ensures forall k | k in index :: index[k] in tasks
    {
      forall id | id in tasks ensures tasks[id].id == id { assert State().tasks[id].id == id; }
      forall k | k in index ensures index[k] in tasks { assert index[k] in State().tasks; }
    }

    /** A new object under a new id adds one entry to the snapshot. */
    twostate lemma OneTaskAdded(new task: Task)
      requires task.id !in old(tasks) && tasks == old(tasks)[task.id := task]
      requires forall id | id in old(tasks) :: tasks[id].View() == old(tasks[id].View())
      ensures State().tasks == old(State()).tasks[task.id := task.View()]
    {
    }

    lemma FactsAt(i: nat)
      requires Valid() && i < |ids|
      ensures ids[i] in tasks && ids[i] in State().tasks && State().tasks[ids[i]].id == ids[i]
    {
      Facts();
    }

    /** Writing one task object writes one entry of the snapshot. */
    twostate lemma OneTaskWritten(id: Id)
      requires old(Valid()) && id in old(tasks)
      requires ids == old(ids) && tasks == old(tasks) && index == old(index)
      requires forall other | other in tasks && other != id :: tasks[other].View() == old(tasks[other].View())
      ensures State() == Put(old(State()), tasks[id].View()) && tasks[id].View().id == id
      ensures Valid()
    {
      assert old(State()).tasks[id].id == id;
      assert tasks[id].View().id == id;
      assert State().tasks == old(State()).tasks[id := tasks[id].View()];
    }

    /** One turn of the reclaim loop. */
    method ReclaimOne(id: Id, queue: Name, now: real)
      requires Valid() && id in tasks
      modifies tasks[id]
      ensures Valid()
      ensures id in old(State()).tasks && State() == Put(old(State()), Reclaim(old(State()).tasks[id], queue, now))
      ensures ids == old(ids)
    {
      hide Consistent;
      Facts();
      var task := tasks[id];
      if task.queue == queue && task.status == Leased && task.leasedUntil.Some? && task.leasedUntil.value <= now {
        task.ReclaimLease(now);
      }
      OneTaskWritten(id);
    }

    method ReclaimExpired(queue: Name, now: real)
      requires Valid()
      modifies tasks.Values
      ensures Valid()
      ensures State() == ReclaimAll(old(State()), queue, now)
    {
      ghost var s := State();
      assert s.ids == ids;
      ReclaimedEvery(s, queue, now);
      hide Consistent, Reclaim, State, Valid;
      ReclaimedNone(s, queue, now);
      var i := 0;
      while i < |ids|
        invariant 0 <= i <= |ids| && ids == s.ids
        invariant Valid() && State() == Reclaimed(s, s.ids[..i], queue, now)
      {
        FactsAt(i);
        TakeOneMore(ids, i);
        ReclaimedOneMore(s, ids[..i], ids[i], queue, now);
        ReclaimOne(ids[i], queue, now);
        i := i + 1;
      }
      assert s.ids[..i] == s.ids;
    }

    /** One turn of the delivery loop: the task is delivered, or dead-lettered because it is exhausted. */
    method AttemptOne(id: Id, leaseSeconds: real, freshToken: Token, now: real) returns (lease: Option<Lease>)
      requires Valid() && id in tasks
      modifies tasks[id]
      ensures Valid()
      ensures id in old(State()).tasks && tasks.Keys == old(tasks.Keys)
      ensures var t := old(State()).tasks[id];
              if Exhausted(t) then lease.None? && State() == Put(old(State()), DeadLettered(t, now))
              else lease == Some(LeaseOf(Delivered(t, leaseSeconds, freshToken, now), freshToken))
                   && State() == Put(old(State()), Delivered(t, leaseSeconds, freshToken, now))
    {
      hide Consistent;
      Facts();
      var task := tasks[id];
      var delivered := task.Attempt(leaseSeconds, freshToken, now);
      OneTaskWritten(id);
      lease := if delivered
        then Some(TaskProtocol.Lease(task.id, freshToken, task.queue, task.attempts, task.payload, task.checkpoint))
        else None;
    }

    method Lease(queue: Name, leaseSeconds: real, freshToken: Token, now: real) returns (lease: Option<Lease>)
      requires Valid()
      modifies tasks.Values
      ensures Valid()
      ensures (State(), if lease.Some? then Granted(lease.value) else NothingToLease)
              == Step(old(State()), LeaseNext(queue, leaseSeconds, freshToken, now))
    {
      ReclaimExpired(queue, now);
      ghost var r := State();
      var candidates := Candidates(State(), queue, now);
      TaskLease.CandidatesShape(State(), queue, now);
      lease := Deliver(candidates, leaseSeconds, freshToken, now);
    }

    /** The delivery loop over the sorted candidates. */
    method Deliver(candidates: seq<TaskState>, leaseSeconds: real, freshToken: Token, now: real)
      returns (lease: Option<Lease>)
      requires Valid()
      requires forall i | 0 <= i < |candidates| ::
                 candidates[i].id in State().tasks && candidates[i] == State().tasks[candidates[i].id]
      requires forall i, j | 0 <= i < j < |candidates| :: candidates[i].id != candidates[j].id
      modifies tasks.Values
      ensures Valid()
      ensures (State(), if lease.Some? then Granted(lease.value) else NothingToLease)
              == Scan(old(State()), candidates, leaseSeconds, freshToken, now)
    {
      hide Consistent, Exhausted, Delivered, DeadLettered, LeaseOf;
      ghost var r := State();
      var i := 0;
      while i < |candidates|
        invariant 0 <= i <= |candidates|
        invariant Valid()
        invariant Scan(State(), candidates[i..], leaseSeconds, freshToken, now)
                  == Scan(r, candidates, leaseSeconds, freshToken, now)
        invariant forall j | 0 <= j < |candidates| :: candidates[j].id in State().tasks
        invariant forall j | i <= j < |candidates| :: State().tasks[candidates[j].id] == candidates[j]
      {
        assert candidates[i..][1..] == candidates[i + 1..];
        TaskIdOf(candidates[i], leaseSeconds, freshToken, now);
        lease := AttemptOne(candidates[i].id, leaseSeconds, freshToken, now);
        if lease.Some? {
          return;
        }
        i := i + 1;
      }
      lease := None;
    }

    /** The task, if the caller's token is the one its current lease was granted with. */
    method RequireLeased(id: Id, token: Token) returns (r: Result<Task, Outcome>)
      requires Valid()
      ensures r == if Holds(State(), id, token) then Ok(tasks[id]) else Err(Refusal(State(), id))
    {
      if id !in tasks { return Err(TaskNotFound); }
      var task := tasks[id];
      if task.status != Leased || task.leaseToken != Some(token) { return Err(LeaseExpired); }
      return Ok(task);
    }

    method Heartbeat(id: Id, token: Token, leaseSeconds: real, now: real) returns (out: Outcome)
      requires Valid()
      modifies if id in tasks then {tasks[id]} else {}
      ensures Valid()
      ensures (State(), out) == Step(old(State()), TaskProtocol.Heartbeat(id, token, leaseSeconds, now))
    {
      hide Consistent, LeaseStep, SubmitStep, DeadLetters;
      var r := RequireLeased(id, token);
      if r.Err? { return r.error; }
      var task := r.value;
      Facts();
      task.Extend(leaseSeconds, now);
      OneTaskWritten(id);
      out := Done;
    }

    method Checkpoint(id: Id, token: Token, state: Fields, now: real) returns (out: Outcome)
      requires Valid()
      modifies if id in tasks then {tasks[id]} else {}
      ensures Valid()
      ensures (State(), out) == Step(old(State()), TaskProtocol.Checkpoint(id, token, state, now))
    {
      hide Consistent, LeaseStep, SubmitStep, DeadLetters;
      var r := RequireLeased(id, token);
      if r.Err? { return r.error; }
      var task := r.value;
      Facts();
      task.Save(state, now);
      OneTaskWritten(id);
      out := Done;
    }

    method Ack(id: Id, token: Token, now: real) returns (out: Outcome)
      requires Valid()
      modifies if id in tasks then {tasks[id]} else {}
      ensures Valid()
      ensures (State(), out) == Step(old(State()), TaskProtocol.Ack(id, token, now))
    {
      hide Consistent, LeaseStep, SubmitStep, DeadLetters;
      var r := RequireLeased(id, token);
      if r.Err? { return r.error; }
      var task := r.value;
      Facts();
      task.Complete(now);
      OneTaskWritten(id);
      out := Returned(task.View());
    }

    method Fail(id: Id, token: Token, error: string, retryIn: real, now: real) returns (out: Outcome)
      requires Valid()
      modifies if id in tasks then {tasks[id]} else {}
      ensures Valid()
      ensures (State(), out) == Step(old(State()), TaskProtocol.Fail(id, token, error, retryIn, now))
    {
      hide Consistent, LeaseStep, SubmitStep, DeadLetters;
      var r := RequireLeased(id, token);
      if r.Err? { return r.error; }
      var task := r.value;
      Facts();
      task.GiveBack(error, retryIn, now);
      OneTaskWritten(id);
      out := Returned(task.View());
    }

    method Get(id: Id) returns (out: Outcome)
      requires Valid()
      ensures (State(), out) == Step(State(), TaskProtocol.Get(id))
    {
      out := if id in tasks then Returned(tasks[id].View()) else TaskNotFound;
    }

    method ListDeadLetter(queue: Name) returns (out: Outcome)
      requires Valid()
      ensures (State(), out) == Step(State(), TaskProtocol.ListDeadLetter(queue))
      ensures out.Listed? && TaskLease.ListsDeadLetters(State(), queue, out.tasks)
    {
      hide Consistent, LeaseStep, SubmitStep, TaskLease.ListsDeadLetters, Distinct;
      Facts();
      var listed: seq<TaskState> := [];
      for i := 0 to |ids|
        invariant forall id | id in ids[..i] :: id in State().tasks
        invariant listed == DeadLetters(ids[..i], State().tasks, queue)
      {
        assert ids[..i + 1][..i] == ids[..i];
        var task := tasks[ids[i]];
        if task.queue == queue && task.status == DeadLetter {
          listed := listed + [task.View()];
        }
      }
      assert ids[..|ids|] == ids;
      TaskLease.DeadLettersShape(State(), queue);
      out := Listed(listed);
    }

    method RequeueDeadLetter(id: Id, resetAttempts: bool, now: real) returns (out: Outcome)
      requires Valid()
      modifies if id in tasks then {tasks[id]} else {}
      ensures Valid()
      ensures (State(), out) == Step(old(State()), Requeue(id, resetAttempts, now))
    {
      hide Consistent, LeaseStep, SubmitStep, DeadLetters;
      if id !in tasks { return TaskNotFound; }
      var task := tasks[id];
      if task.status != DeadLetter { return WrongStatus(task.status); }
      Facts();
      task.Revive(resetAttempts, now);
      OneTaskWritten(id);
      out := Returned(task.View());
    }
  }
}
