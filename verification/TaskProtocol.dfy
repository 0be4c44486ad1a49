/**
 * The durable task store as a specification: one total function per store
 * operation, over an immutable snapshot of the store. Every operation runs
 * under one lock and contains no suspension point, so each is a single step.
 */
module TaskProtocol {
  import opened Prelude
  import opened Sorting

  type Id(==, !new)
  type Name(==, !new)
  type Value(==, !new)
  type Token(==, !new)
  type Fields = map<Name, Value>

  datatype TaskStatus = Pending | Leased | Succeeded | DeadLetter

  /** A snapshot of one task. */
  datatype TaskState = TaskState(
    id: Id, queue: Name, key: Name, payload: Fields, maxAttempts: int,
    status: TaskStatus, attempts: int, availableAt: real,
    leaseToken: Option<Token>, leasedUntil: Option<real>,
    checkpoint: Option<Fields>, lastError: Option<string>,
    createdAt: real, updatedAt: real)

  datatype Lease = Lease(taskId: Id, token: Token, queue: Name, attempt: int,
                         payload: Fields, checkpoint: Option<Fields>)

  /** `ids` is the insertion order of the task dictionary. */
  datatype StoreState = StoreState(ids: seq<Id>, tasks: map<Id, TaskState>, index: map<(Name, Name), Id>)

  const EMPTY_STORE := StoreState([], map[], map[])

  datatype Outcome =
    | Returned(task: TaskState)
    | Granted(lease: Lease)
    | NothingToLease
    | Done
    | Listed(tasks: seq<TaskState>)
    | TaskNotFound
    | LeaseExpired
    | WrongStatus(status: TaskStatus)

  /** Every operation, with the clock reading and the fresh identifiers its step uses. */
  datatype Op =
    | Submit(queue: Name, key: Name, payload: Fields, maxAttempts: int, freshId: Id, now: real)
    | LeaseNext(queue: Name, leaseSeconds: real, freshToken: Token, now: real)
    | Heartbeat(id: Id, token: Token, leaseSeconds: real, now: real)
    | Checkpoint(id: Id, token: Token, patch: Fields, now: real)
    | Ack(id: Id, token: Token, now: real)
    | Fail(id: Id, token: Token, error: string, retryIn: real, now: real)
    | Get(id: Id)
    | ListDeadLetter(queue: Name)
    | Requeue(id: Id, resetAttempts: bool, now: real)

  // ---------------------------------------------------------------- submit

  function NewTask(id: Id, queue: Name, key: Name, payload: Fields, maxAttempts: int, now: real): TaskState {
    TaskState(id, queue, key, payload, maxAttempts, Pending, 0, now, None, None, None, None, now, now)
  }

  function SubmitStep(s: StoreState, queue: Name, key: Name, payload: Fields, maxAttempts: int,
                      freshId: Id, now: real): (StoreState, Outcome)
    requires forall k | k in s.index :: s.index[k] in s.tasks
  {
    if (queue, key) in s.index then (s, Returned(s.tasks[s.index[(queue, key)]]))
    else
      var task := NewTask(freshId, queue, key, payload, maxAttempts, now);
      (StoreState(s.ids + [freshId], s.tasks[freshId := task], s.index[(queue, key) := freshId]), Returned(task))
  }

  // ----------------------------------------------------------------- lease

  predicate Expired(t: TaskState, queue: Name, now: real) {
    t.queue == queue && t.status == Leased && t.leasedUntil.Some? && t.leasedUntil.value <= now
  }

  /** A lease that ran out makes its task visible again, from now. */
  function Reclaim(t: TaskState, queue: Name, now: real): TaskState {
    if Expired(t, queue, now)
    then t.(status := Pending, availableAt := now, leaseToken := None, leasedUntil := None, updatedAt := now)
    else t
  }

  function ReclaimAll(s: StoreState, queue: Name, now: real): StoreState {
    s.(tasks := map id | id in s.tasks :: Reclaim(s.tasks[id], queue, now))
  }

  predicate Eligible(t: TaskState, queue: Name, now: real) {
    t.queue == queue && t.status == Pending && t.availableAt <= now
  }

  function EligibleTasks(ids: seq<Id>, tasks: map<Id, TaskState>, queue: Name, now: real): (r: seq<TaskState>)
    requires forall id | id in ids :: id in tasks
  {
    if ids == [] then []
    else
      var rest := EligibleTasks(ids[1..], tasks, queue, now);
      if Eligible(tasks[ids[0]], queue, now) then [tasks[ids[0]]] + rest else rest
  }

  /** The tasks of the queue that are due, oldest visibility first, ties in insertion order. */
  function Candidates(s: StoreState, queue: Name, now: real): seq<TaskState>
    requires forall id | id in s.ids :: id in s.tasks
  {
    SortBy(EligibleTasks(s.ids, s.tasks, queue, now), (t: TaskState) => t.availableAt)
  }

  const EXHAUSTED_ERROR := "max delivery attempts exceeded"

  /** `last_error or "..."`: an absent and an empty error are both replaced. */
  function DeadLettered(t: TaskState, now: real): TaskState {
    t.(attempts := t.attempts + 1, status := DeadLetter,
       lastError := if t.lastError.None? || t.lastError.value == "" then Some(EXHAUSTED_ERROR) else t.lastError,
       updatedAt := now)
  }

  function Delivered(t: TaskState, leaseSeconds: real, token: Token, now: real): TaskState {
    t.(attempts := t.attempts + 1, status := Leased, leaseToken := Some(token),
       leasedUntil := Some(now + leaseSeconds), updatedAt := now)
  }

  function LeaseOf(t: TaskState, token: Token): Lease {
    Lease(t.id, token, t.queue, t.attempts, t.payload, t.checkpoint)
  }

  predicate Exhausted(t: TaskState) { t.attempts + 1 > t.maxAttempts }

  /** The scan over the sorted candidates, which stops at the first delivery. */
  function Scan(s: StoreState, candidates: seq<TaskState>, leaseSeconds: real, token: Token, now: real)
    : (StoreState, Outcome)
    decreases |candidates|
  {
    if candidates == [] then (s, NothingToLease)
    else
      var t := candidates[0];
      if Exhausted(t) then
        Scan(s.(tasks := s.tasks[t.id := DeadLettered(t, now)]), candidates[1..], leaseSeconds, token, now)
      else
        var t' := Delivered(t, leaseSeconds, token, now);
        (s.(tasks := s.tasks[t.id := t']), Granted(LeaseOf(t', token)))
  }

  function LeaseStep(s: StoreState, queue: Name, leaseSeconds: real, token: Token, now: real): (StoreState, Outcome)
    requires forall id | id in s.ids :: id in s.tasks
  {
    var r := ReclaimAll(s, queue, now);
    Scan(r, Candidates(r, queue, now), leaseSeconds, token, now)
  }

  // ------------------------------------------------- operations on a lease

  predicate Holds(s: StoreState, id: Id, token: Token) {
    id in s.tasks && s.tasks[id].status == Leased && s.tasks[id].leaseToken == Some(token)
  }

  function Refusal(s: StoreState, id: Id): Outcome {
    if id !in s.tasks then TaskNotFound else LeaseExpired
  }

  function Put(s: StoreState, t: TaskState): StoreState {
    s.(tasks := s.tasks[t.id := t])
  }

  function Extended(t: TaskState, leaseSeconds: real, now: real): TaskState {
    t.(leasedUntil := Some(now + leaseSeconds), updatedAt := now)
  }

  /** A checkpoint with one more write laid over it; an absent one counts as empty. */
  function Merge(checkpoint: Option<Fields>, patch: Fields): Option<Fields> {
    Some((if checkpoint.Some? then checkpoint.value else map[]) + patch)
  }

  function Patched(t: TaskState, patch: Fields, now: real): TaskState {
    t.(checkpoint := Merge(t.checkpoint, patch), updatedAt := now)
  }

  function Acked(t: TaskState, now: real): TaskState {
    t.(status := Succeeded, leaseToken := None, leasedUntil := None, updatedAt := now)
  }

  function Failed(t: TaskState, error: string, retryIn: real, now: real): TaskState {
    var released := t.(lastError := Some(error), leaseToken := None, leasedUntil := None, updatedAt := now);
    if t.attempts >= t.maxAttempts then released.(status := DeadLetter)
    else released.(status := Pending, availableAt := now + retryIn)
  }

  function Requeued(t: TaskState, resetAttempts: bool, now: real): TaskState {
    t.(status := Pending, availableAt := now, attempts := if resetAttempts then 0 else t.attempts, updatedAt := now)
  }

  predicate IsDeadLetter(t: TaskState, queue: Name) {
    t.queue == queue && t.status == DeadLetter
  }

  function DeadLetters(ids: seq<Id>, tasks: map<Id, TaskState>, queue: Name): seq<TaskState>
    requires forall id | id in ids :: id in tasks
  {
    if ids == [] then []
    else
      var n := |ids| - 1;
      DeadLetters(ids[..n], tasks, queue) + (if IsDeadLetter(tasks[ids[n]], queue) then [tasks[ids[n]]] else [])
  }

  /** What keeps the dictionaries consistent; enough for every operation to be defined. */
  ghost predicate Consistent(s: StoreState) {
    && Distinct(s.ids)
    && (forall id :: id in s.ids <==> id in s.tasks)
    && (forall id | id in s.tasks :: s.tasks[id].id == id)
    && (forall k | k in s.index :: s.index[k] in s.tasks)
  }

  /** One operation of the store: the next snapshot and what the caller gets. */
  function Step(s: StoreState, op: Op): (StoreState, Outcome)
    requires Consistent(s)
  {
    match op
    case Submit(queue, key, payload, maxAttempts, freshId, now) =>
      SubmitStep(s, queue, key, payload, maxAttempts, freshId, now)
    case LeaseNext(queue, leaseSeconds, freshToken, now) =>
      LeaseStep(s, queue, leaseSeconds, freshToken, now)
    case Heartbeat(id, token, leaseSeconds, now) =>
      if !Holds(s, id, token) then (s, Refusal(s, id)) else (Put(s, Extended(s.tasks[id], leaseSeconds, now)), Done)
    case Checkpoint(id, token, patch, now) =>
      if !Holds(s, id, token) then (s, Refusal(s, id)) else (Put(s, Patched(s.tasks[id], patch, now)), Done)
    case Ack(id, token, now) =>
      if !Holds(s, id, token) then (s, Refusal(s, id))
      else (Put(s, Acked(s.tasks[id], now)), Returned(Acked(s.tasks[id], now)))
    case Fail(id, token, error, retryIn, now) =>
      if !Holds(s, id, token) then (s, Refusal(s, id))
      else (Put(s, Failed(s.tasks[id], error, retryIn, now)), Returned(Failed(s.tasks[id], error, retryIn, now)))
    case Get(id) =>
      (s, if id in s.tasks then Returned(s.tasks[id]) else TaskNotFound)
    case ListDeadLetter(queue) =>
      (s, Listed(DeadLetters(s.ids, s.tasks, queue)))
    case Requeue(id, resetAttempts, now) =>
      if id !in s.tasks then (s, TaskNotFound)
      else if s.tasks[id].status != DeadLetter then (s, WrongStatus(s.tasks[id].status))
      else (Put(s, Requeued(s.tasks[id], resetAttempts, now)), Returned(Requeued(s.tasks[id], resetAttempts, now)))
  }
}
