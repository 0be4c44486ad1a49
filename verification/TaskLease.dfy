/**
 * What `lease` means, stated without its sort and its scan: a declarative
 * contract over the reclaimed snapshot, which determines the outcome and the
 * whole next snapshot.
 */
module TaskLease {
  import opened Prelude
  import opened Sorting
  import opened TaskProtocol

  ghost function Position(ids: seq<Id>, id: Id): nat
    requires id in ids
  {
    if ids[0] == id then 0 else 1 + Position(ids[1..], id)
  }

  /** Visible longer; among equals, submitted earlier. */
  ghost predicate Before(s: StoreState, a: Id, b: Id)
    requires Consistent(s) && a in s.tasks && b in s.tasks
  {
    || s.tasks[a].availableAt < s.tasks[b].availableAt
    || (s.tasks[a].availableAt == s.tasks[b].availableAt && Position(s.ids, a) < Position(s.ids, b))
  }

  ghost predicate CanRun(s: StoreState, id: Id, queue: Name, now: real)
    requires id in s.tasks
  {
    Eligible(s.tasks[id], queue, now) && !Exhausted(s.tasks[id])
  }

  /** The first task of the reclaimed snapshot, in `Before` order, that still has a delivery left. */
  ghost predicate IsWinner(r: StoreState, id: Id, queue: Name, now: real)
    requires Consistent(r)
  {
    && id in r.tasks
    && CanRun(r, id, queue, now)
    && (forall other | other in r.tasks && other != id && CanRun(r, other, queue, now) :: Before(r, id, other))
  }

  /** An exhausted due task that the scan meets before the winner, or any if there is no winner. */
  ghost predicate Buried(r: StoreState, id: Id, winner: Option<Id>, queue: Name, now: real)
    requires Consistent(r) && id in r.tasks && (winner.Some? ==> winner.value in r.tasks)
  {
    && Eligible(r.tasks[id], queue, now) && Exhausted(r.tasks[id])
    && (winner.Some? ==> Before(r, id, winner.value))
  }

  /** The declarative contract of `lease`. `r` is the snapshot after reclaiming. */
  ghost predicate LeaseSpec(r: StoreState, queue: Name, leaseSeconds: real, token: Token, now: real,
                            winner: Option<Id>, s': StoreState, out: Outcome)
    requires Consistent(r)
  {
    && (match winner
        case Some(w) => IsWinner(r, w, queue, now)
        case None => forall id | id in r.tasks :: !CanRun(r, id, queue, now))
    && s'.ids == r.ids && s'.index == r.index && s'.tasks.Keys == r.tasks.Keys
    && (forall id | id in r.tasks ::
          var t := r.tasks[id];
          s'.tasks[id] ==
            if winner == Some(id) then
              t.(status := Leased, attempts := t.attempts + 1, leaseToken := Some(token),
                 leasedUntil := Some(now + leaseSeconds), updatedAt := now)
            else if Buried(r, id, winner, queue, now) then
              t.(status := DeadLetter, attempts := t.attempts + 1, updatedAt := now,
                 lastError := if t.lastError == None || t.lastError == Some("") then Some(EXHAUSTED_ERROR)
                              else t.lastError)
            else t)
    && out == (match winner
               case Some(w) =>
                 var t := r.tasks[w];
                 Granted(Lease(t.id, token, t.queue, t.attempts + 1, t.payload, t.checkpoint))
               case None => NothingToLease)
  }

  lemma ReclaimAllConsistent(s: StoreState, queue: Name, now: real)
    requires Consistent(s)
    ensures Consistent(ReclaimAll(s, queue, now))
  {
  }

  ghost function Rank(ids: seq<Id>, t: TaskState): int {
    if t.id in ids then Position(ids, t.id) else 0
  }

  ghost predicate InInsertionOrder(ids: seq<Id>, ts: seq<TaskState>) {
    forall i, j | 0 <= i < j < |ts| :: Rank(ids, ts[i]) < Rank(ids, ts[j])
  }

  /** The filter keeps only eligible tasks. */
  lemma {:induction false} EligibleTasksSound(ids: seq<Id>, tasks: map<Id, TaskState>, queue: Name, now: real,
                                              t: TaskState)
    requires forall id | id in ids :: id in tasks && tasks[id].id == id
    requires t in EligibleTasks(ids, tasks, queue, now)
    ensures t.id in ids && t == tasks[t.id] && Eligible(t, queue, now)
  {
    hide Eligible;
    if ids != [] && t in EligibleTasks(ids[1..], tasks, queue, now) {
      EligibleTasksSound(ids[1..], tasks, queue, now, t);
    }
  }

  /** The filter keeps every eligible task. */
  lemma {:induction false} EligibleTasksComplete(ids: seq<Id>, tasks: map<Id, TaskState>, queue: Name, now: real,
                                                 id: Id)
    requires forall id | id in ids :: id in tasks && tasks[id].id == id
    requires id in ids && Eligible(tasks[id], queue, now)
    ensures tasks[id] in EligibleTasks(ids, tasks, queue, now)
  {
    hide Eligible;
    if id != ids[0] {
      EligibleTasksComplete(ids[1..], tasks, queue, now, id);
    }
  }

  /** The filter keeps insertion order. */
  lemma {:induction false} EligibleTasksOrder(ids: seq<Id>, tasks: map<Id, TaskState>, queue: Name, now: real)
    requires Distinct(ids)
    requires forall id | id in ids :: id in tasks && tasks[id].id == id
    ensures InInsertionOrder(ids, EligibleTasks(ids, tasks, queue, now))
  {
    hide Eligible;
    if ids != [] {
      EligibleTasksOrder(ids[1..], tasks, queue, now);
      var e := EligibleTasks(ids, tasks, queue, now);
      var rest := EligibleTasks(ids[1..], tasks, queue, now);
      var k := |e| - |rest|;
      forall i, j | 0 <= i < j < |e| ensures Rank(ids, e[i]) < Rank(ids, e[j]) {
        assert e[j] == rest[j - k];
        EligibleTasksSound(ids[1..], tasks, queue, now, rest[j - k]);
        if i >= k {
          assert e[i] == rest[i - k];
          EligibleTasksSound(ids[1..], tasks, queue, now, rest[i - k]);
          assert Rank(ids[1..], rest[i - k]) < Rank(ids[1..], rest[j - k]);
        }
      }
    }
  }

  /** How many candidates the scan passes over before it delivers. */
  function Passed(candidates: seq<TaskState>): (n: nat)
    ensures n <= |candidates|
    ensures forall i | 0 <= i < n :: Exhausted(candidates[i])
    ensures n < |candidates| ==> !Exhausted(candidates[n])
  {
    if candidates == [] || !Exhausted(candidates[0]) then 0 else 1 + Passed(candidates[1..])
  }

  /** The scan touches the tasks it passes and the one it delivers, nothing else. */
  lemma {:induction false} ScanShape(s: StoreState, candidates: seq<TaskState>, leaseSeconds: real, token: Token,
                                     now: real)
    requires forall i | 0 <= i < |candidates| :: candidates[i].id in s.tasks
    requires forall i, j | 0 <= i < j < |candidates| :: candidates[i].id != candidates[j].id
    ensures var (s', out) := Scan(s, candidates, leaseSeconds, token, now);
            var n := Passed(candidates);
            && s'.ids == s.ids && s'.index == s.index && s'.tasks.Keys == s.tasks.Keys
            && (forall i | 0 <= i < n :: s'.tasks[candidates[i].id] == DeadLettered(candidates[i], now))
            && (n < |candidates| ==>
                  && s'.tasks[candidates[n].id] == Delivered(candidates[n], leaseSeconds, token, now)
                  && out == Granted(LeaseOf(Delivered(candidates[n], leaseSeconds, token, now), token)))
            && (n == |candidates| ==> out == NothingToLease)
            && (forall id | id in s.tasks && (forall i | 0 <= i <= n && i < |candidates| :: candidates[i].id != id) ::
                  s'.tasks[id] == s.tasks[id])
    decreases |candidates|
  {
    hide DeadLettered, Delivered, LeaseOf, Exhausted;
    if candidates != [] && Exhausted(candidates[0]) {
      var t := candidates[0];
      var s1 := s.(tasks := s.tasks[t.id := DeadLettered(t, now)]);
      var rest := candidates[1..];
      ScanShape(s1, rest, leaseSeconds, token, now);
      var (s', out) := Scan(s, candidates, leaseSeconds, token, now);
      var n := Passed(candidates);
      assert s1.tasks.Keys == s.tasks.Keys;
      assert s'.tasks[t.id] == s1.tasks[t.id];
      forall i | 0 <= i < n ensures s'.tasks[candidates[i].id] == DeadLettered(candidates[i], now) {
        if i > 0 { assert candidates[i] == rest[i - 1]; }
      }
      forall id | id in s.tasks && (forall i | 0 <= i <= n && i < |candidates| :: candidates[i].id != id)
        ensures s'.tasks[id] == s.tasks[id]
      {
        assert id != t.id;
        forall i | 0 <= i <= n - 1 && i < |rest| ensures rest[i].id != id {
          assert rest[i] == candidates[i + 1];
        }
      }
    }
  }

  /** The candidates are exactly the eligible tasks. */
  lemma CandidatesMembers(r: StoreState, queue: Name, now: real)
    requires Consistent(r)
    ensures var c := Candidates(r, queue, now);
            && (forall i | 0 <= i < |c| :: c[i].id in r.tasks && c[i] == r.tasks[c[i].id] && Eligible(c[i], queue, now))
            && (forall id | id in r.tasks && Eligible(r.tasks[id], queue, now) :: r.tasks[id] in c)
  {
    var e := EligibleTasks(r.ids, r.tasks, queue, now);
    var c := Candidates(r, queue, now);
    forall i | 0 <= i < |c|
      ensures c[i].id in r.tasks && c[i] == r.tasks[c[i].id] && Eligible(c[i], queue, now)
    {
      SameElement(c, e, c[i]);
      EligibleTasksSound(r.ids, r.tasks, queue, now, c[i]);
    }
    forall id | id in r.tasks && Eligible(r.tasks[id], queue, now) ensures r.tasks[id] in c {
      EligibleTasksComplete(r.ids, r.tasks, queue, now, id);
      SameElement(c, e, r.tasks[id]);
    }
  }

  /** The candidates come in `Before` order. */
  lemma CandidatesOrder(r: StoreState, queue: Name, now: real, i: nat, j: nat)
    requires Consistent(r)
    requires i < j < |Candidates(r, queue, now)|
    ensures var c := Candidates(r, queue, now);
            c[i].id in r.tasks && c[j].id in r.tasks && c[i].id != c[j].id && Before(r, c[i].id, c[j].id)
  {
    var e := EligibleTasks(r.ids, r.tasks, queue, now);
    var c := Candidates(r, queue, now);
    var key := (t: TaskState) => t.availableAt;
    ghost var pos := (t: TaskState) => Rank(r.ids, t);
    EligibleTasksOrder(r.ids, r.tasks, queue, now);
    forall i, j | 0 <= i < j < |e| ensures pos(e[i]) < pos(e[j]) {
      assert Rank(r.ids, e[i]) < Rank(r.ids, e[j]);
    }
    SortByStable(e, key, pos);
    assert c == SortBy(e, key);
    assert key(c[i]) < key(c[j]) || (key(c[i]) == key(c[j]) && pos(c[i]) < pos(c[j]));
    SameElement(c, e, c[i]);
    SameElement(c, e, c[j]);
    EligibleTasksSound(r.ids, r.tasks, queue, now, c[i]);
    EligibleTasksSound(r.ids, r.tasks, queue, now, c[j]);
  }

  lemma {:induction false} CandidatesShape(r: StoreState, queue: Name, now: real)
    requires Consistent(r)
    ensures var c := Candidates(r, queue, now);
            && (forall i | 0 <= i < |c| :: c[i].id in r.tasks && c[i] == r.tasks[c[i].id] && Eligible(c[i], queue, now))
            && (forall id | id in r.tasks && Eligible(r.tasks[id], queue, now) :: r.tasks[id] in c)
            && (forall i, j | 0 <= i < j < |c| :: c[i].id != c[j].id && Before(r, c[i].id, c[j].id))
  {
    var c := Candidates(r, queue, now);
    CandidatesMembers(r, queue, now);
    forall i, j | 0 <= i < j < |c| ensures c[i].id != c[j].id && Before(r, c[i].id, c[j].id) {
      CandidatesOrder(r, queue, now, i, j);
    }
  }

  ghost function Winner(r: StoreState, queue: Name, now: real): Option<Id>
    requires Consistent(r)
  {
    var c := Candidates(r, queue, now);
    var n := Passed(c);
    if n < |c| then Some(c[n].id) else None
  }

  lemma WinnerIsFirst(r: StoreState, queue: Name, now: real)
    requires Consistent(r)
    ensures match Winner(r, queue, now)
            case Some(w) => IsWinner(r, w, queue, now)
            case None => forall id | id in r.tasks :: !CanRun(r, id, queue, now)
  {
    hide Eligible, Candidates;
    var c := Candidates(r, queue, now);
    var n := Passed(c);
    CandidatesShape(r, queue, now);
    forall id | id in r.tasks && CanRun(r, id, queue, now)
      ensures n < |c| && (id == c[n].id || Before(r, c[n].id, id))
    {
      var k :| 0 <= k < |c| && c[k] == r.tasks[id];
    }
  }

  /** The candidates passed over are exactly the buried tasks. */
  lemma PassedAreBuried(r: StoreState, id: Id, queue: Name, now: real)
    requires Consistent(r) && id in r.tasks
    ensures var c := Candidates(r, queue, now);
            && (Winner(r, queue, now).Some? ==> Winner(r, queue, now).value in r.tasks)
            && (Buried(r, id, Winner(r, queue, now), queue, now)
                <==> exists k :: 0 <= k < Passed(c) && c[k] == r.tasks[id])
  {
    hide Candidates;
    var c := Candidates(r, queue, now);
    var n := Passed(c);
    CandidatesShape(r, queue, now);
    if Eligible(r.tasks[id], queue, now) {
      var k :| 0 <= k < |c| && c[k] == r.tasks[id];
      if k > n { assert Before(r, c[n].id, id); }
      if k < n < |c| { assert Before(r, id, c[n].id); }
    }
  }

  /** What the step does to one task of the reclaimed snapshot. */
  lemma LeaseStepAt(r: StoreState, queue: Name, leaseSeconds: real, token: Token, now: real, id: Id)
    requires Consistent(r) && id in r.tasks
    ensures var (s', out) := Scan(r, Candidates(r, queue, now), leaseSeconds, token, now);
            var winner := Winner(r, queue, now);
            && (winner.Some? ==> winner.value in r.tasks)
            && id in s'.tasks
            && s'.tasks[id] ==
                 if winner == Some(id) then Delivered(r.tasks[id], leaseSeconds, token, now)
                 else if Buried(r, id, winner, queue, now) then DeadLettered(r.tasks[id], now)
                 else r.tasks[id]
  {
    hide DeadLettered, Delivered, Eligible, Exhausted, Scan, Candidates, Before, CanRun, Passed;
    var c := Candidates(r, queue, now);
    var n := Passed(c);
    CandidatesShape(r, queue, now);
    ScanShape(r, c, leaseSeconds, token, now);
    PassedAreBuried(r, id, queue, now);
    if forall i | 0 <= i <= n && i < |c| :: c[i].id != id {
    } else {
      var i :| 0 <= i <= n && i < |c| && c[i].id == id;
      assert c[i] == r.tasks[id];
    }
  }

  /** `lease` meets its declarative contract from every consistent snapshot. */
  lemma {:induction false} LeaseMeetsSpec(s: StoreState, queue: Name, leaseSeconds: real, token: Token, now: real)
    requires Consistent(s)
    ensures Consistent(ReclaimAll(s, queue, now))
    ensures var r := ReclaimAll(s, queue, now);
            var (s', out) := LeaseStep(s, queue, leaseSeconds, token, now);
            LeaseSpec(r, queue, leaseSeconds, token, now, Winner(r, queue, now), s', out)
  {
    hide DeadLettered, Delivered, Eligible, Exhausted, Scan, Candidates, Before, CanRun, Buried, Consistent, Reclaim,
         LeaseOf;
    ReclaimAllConsistent(s, queue, now);
    var r := ReclaimAll(s, queue, now);
    var c := Candidates(r, queue, now);
    WinnerIsFirst(r, queue, now);
    var (s', out) := LeaseStep(s, queue, leaseSeconds, token, now);
    assert s'.ids == r.ids && s'.index == r.index && s'.tasks.Keys == r.tasks.Keys
           && out == (match Winner(r, queue, now)
                      case Some(w) => Granted(LeaseOf(Delivered(r.tasks[w], leaseSeconds, token, now), token))
                      case None => NothingToLease) by {
      CandidatesShape(r, queue, now);
      ScanShape(r, c, leaseSeconds, token, now);
    }
    forall id | id in r.tasks
      ensures Spelled(r.tasks[id], leaseSeconds, token, now)
      ensures s'.tasks[id] ==
              if Winner(r, queue, now) == Some(id) then Delivered(r.tasks[id], leaseSeconds, token, now)
              else if Buried(r, id, Winner(r, queue, now), queue, now) then DeadLettered(r.tasks[id], now)
              else r.tasks[id]
    {
      LeaseStepAt(r, queue, leaseSeconds, token, now, id);
      SpelledOut(r.tasks[id], leaseSeconds, token, now);
    }
  }

  ghost predicate Spelled(t: TaskState, leaseSeconds: real, token: Token, now: real) {
    && Delivered(t, leaseSeconds, token, now)
       == t.(status := Leased, attempts := t.attempts + 1, leaseToken := Some(token),
             leasedUntil := Some(now + leaseSeconds), updatedAt := now)
    && DeadLettered(t, now)
       == t.(status := DeadLetter, attempts := t.attempts + 1, updatedAt := now,
             lastError := if t.lastError == None || t.lastError == Some("") then Some(EXHAUSTED_ERROR)
                          else t.lastError)
    && LeaseOf(Delivered(t, leaseSeconds, token, now), token)
       == Lease(t.id, token, t.queue, t.attempts + 1, t.payload, t.checkpoint)
  }

  lemma SpelledOut(t: TaskState, leaseSeconds: real, token: Token, now: real)
    ensures Spelled(t, leaseSeconds, token, now)
  {
  }

  /** The contract leaves no freedom: it fixes the winner, the outcome and every task. */
  lemma {:induction false} LeaseSpecDetermines(r: StoreState, queue: Name, leaseSeconds: real, token: Token, now: real,
                            w1: Option<Id>, s1: StoreState, out1: Outcome,
                            w2: Option<Id>, s2: StoreState, out2: Outcome)
    requires Consistent(r)
    requires LeaseSpec(r, queue, leaseSeconds, token, now, w1, s1, out1)
    requires LeaseSpec(r, queue, leaseSeconds, token, now, w2, s2, out2)
    ensures w1 == w2 && s1 == s2 && out1 == out2
  {
    hide Consistent;
    assert w1 == w2;
    assert s1.tasks == s2.tasks;
  }

  // ------------------------------------------------------------ dead letters

  /** The dead-lettered tasks of the queue, all of them, each once, in the order they were submitted. */
  ghost predicate ListsDeadLetters(s: StoreState, queue: Name, ts: seq<TaskState>) {
    && (forall i | 0 <= i < |ts| ::
          && ts[i].id in s.tasks && ts[i] == s.tasks[ts[i].id]
          && ts[i].queue == queue && ts[i].status == DeadLetter)
    && (forall id | id in s.tasks && s.tasks[id].queue == queue && s.tasks[id].status == DeadLetter ::
          s.tasks[id] in ts)
    && InInsertionOrder(s.ids, ts)
  }

  lemma {:induction false} PositionAt(ids: seq<Id>, k: nat)
    requires Distinct(ids) && k < |ids|
    ensures Position(ids, ids[k]) == k
  {
    if k > 0 {
      PositionAt(ids[1..], k - 1);
    }
  }

  /** What `ListsDeadLetters` says, of the first `n` tasks. */
  ghost predicate ListsUpTo(s: StoreState, queue: Name, n: nat, ts: seq<TaskState>)
    requires n <= |s.ids| && forall id | id in s.ids :: id in s.tasks
  {
    && (forall t | t in ts :: t.id in s.tasks && t == s.tasks[t.id] && IsDeadLetter(t, queue) && Rank(s.ids, t) < n)
    && (forall k | 0 <= k < n && IsDeadLetter(s.tasks[s.ids[k]], queue) :: s.tasks[s.ids[k]] in ts)
    && InInsertionOrder(s.ids, ts)
  }

  lemma ListsOneMore(s: StoreState, queue: Name, n: nat, ts: seq<TaskState>)
    requires Consistent(s) && n < |s.ids| && ListsUpTo(s, queue, n, ts)
    ensures var t := s.tasks[s.ids[n]];
            ListsUpTo(s, queue, n + 1, ts + (if IsDeadLetter(t, queue) then [t] else []))
  {
    var t := s.tasks[s.ids[n]];
    PositionAt(s.ids, n);
    assert t.id == s.ids[n] && Rank(s.ids, t) == n;
    InOrderSnoc(s.ids, ts, t);
    assert ts + [] == ts;
    hide Position, IsDeadLetter, InInsertionOrder, Consistent, Rank;
  }

  lemma {:induction false} DeadLettersUpTo(s: StoreState, queue: Name, n: nat)
    requires Consistent(s) && n <= |s.ids|
    ensures forall id | id in s.ids :: id in s.tasks
    ensures ListsUpTo(s, queue, n, DeadLetters(s.ids[..n], s.tasks, queue))
  {
    if n > 0 {
      hide ListsUpTo, IsDeadLetter;
      DeadLettersUpTo(s, queue, n - 1);
      assert s.ids[..n][..n - 1] == s.ids[..n - 1];
      ListsOneMore(s, queue, n - 1, DeadLetters(s.ids[..n - 1], s.tasks, queue));
    }
  }

  lemma InOrderSnoc(ids: seq<Id>, ts: seq<TaskState>, t: TaskState)
    requires InInsertionOrder(ids, ts) && forall i | 0 <= i < |ts| :: Rank(ids, ts[i]) < Rank(ids, t)
    ensures InInsertionOrder(ids, ts + [t])
  {
    hide Rank;
  }

  lemma {:induction false} DeadLettersShape(s: StoreState, queue: Name)
    requires Consistent(s)
    ensures ListsDeadLetters(s, queue, DeadLetters(s.ids, s.tasks, queue))
  {
    DeadLettersUpTo(s, queue, |s.ids|);
    assert s.ids[..|s.ids|] == s.ids;
    hide IsDeadLetter, InInsertionOrder;
    assert forall i | 0 <= i < |DeadLetters(s.ids, s.tasks, queue)| ::
        DeadLetters(s.ids, s.tasks, queue)[i] in DeadLetters(s.ids, s.tasks, queue);
    forall id | id in s.tasks && IsDeadLetter(s.tasks[id], queue)
      ensures s.tasks[id] in DeadLetters(s.ids, s.tasks, queue)
    {
      var k :| 0 <= k < |s.ids| && s.ids[k] == id;
    }
  }
}
