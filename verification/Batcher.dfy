/**
 * Dynamic batching. Locked bodies never suspend, so a submission, the taking
 * of a batch and a settlement are one step each; the handler runs in between,
 * and any number of batches may be running at once. Futures are numbered in
 * the order their submissions were accepted.
 */
module Batcher {
  import opened Prelude

  type Payload(!new)
  type Output(!new)
  type Error(!new)

  datatype FutureState = Waiting | Resolved(output: Output) | Failed(error: Error) | Cancelled

  datatype Progress = Running | Returned(outputs: seq<Output>) | Raised(error: Error)

  datatype Batch = Batch(items: seq<nat>, progress: Progress)

  datatype State = State(
    maxBatchSize: int,
    payloads: seq<Payload>,
    futures: seq<FutureState>,
    pending: seq<nat>,
    batches: seq<Batch>,
    full: bool,
    stopping: bool
  )

  datatype Event =
    | Submit(payload: Payload)
    | Flush
    | Shutdown
    | HandlerReturned(b: nat, outputs: seq<Output>)
    | HandlerRaised(b: nat, error: Error)
    | Cancel(f: nat)

  // ------------------------------------------------------------------- steps

  function Initial(maxBatchSize: int): State {
    State(maxBatchSize, [], [], [], [], false, false)
  }

  /** Everything pending becomes one batch, however large; an empty list makes none. */
  function TakeBatch(s: State): State {
    s.(pending := [], full := false,
       batches := if s.pending == [] then s.batches else s.batches + [Batch(s.pending, Running)])
  }

  /** Settling what is still waiting: position `i` of the batch receives output `i`, as far as both lists go. */
  function Resolve(futures: seq<FutureState>, items: seq<nat>, outputs: seq<Output>, k: nat): (r: seq<FutureState>)
    requires k <= |items| && k <= |outputs| && forall i | 0 <= i < |items| :: items[i] < |futures|
    ensures |r| == |futures|
  {
    if k == 0 then futures
    else
      var before := Resolve(futures, items, outputs, k - 1);
      if before[items[k - 1]].Waiting? then before[items[k - 1] := Resolved(outputs[k - 1])] else before
  }

  function Reject(futures: seq<FutureState>, items: seq<nat>, error: Error, k: nat): (r: seq<FutureState>)
    requires k <= |items| && forall i | 0 <= i < |items| :: items[i] < |futures|
    ensures |r| == |futures|
  {
    if k == 0 then futures
    else
      var before := Reject(futures, items, error, k - 1);
      if before[items[k - 1]].Waiting? then before[items[k - 1] := Failed(error)] else before
  }

  function Shorter<A, B>(xs: seq<A>, ys: seq<B>): nat {
    if |xs| <= |ys| then |xs| else |ys|
  }

  ghost predicate ItemsKnown(s: State) {
    forall b, i | 0 <= b < |s.batches| && 0 <= i < |s.batches[b].items| :: s.batches[b].items[i] < |s.futures|
  }

  ghost predicate Enabled(s: State, e: Event) {
    && (e.HandlerReturned? || e.HandlerRaised? ==> e.b < |s.batches| && s.batches[e.b].progress.Running?)
    && (e.Cancel? ==> e.f < |s.futures|)
  }

  ghost function Step(s: State, e: Event): State
    requires Enabled(s, e) && ItemsKnown(s)
  {
    match e
    case Submit(payload) =>
      if s.stopping then s
      else
        s.(payloads := s.payloads + [payload], futures := s.futures + [Waiting],
           pending := s.pending + [|s.futures|],
           full := s.full || |s.pending| + 1 >= s.maxBatchSize)
    case Flush => TakeBatch(s)
    case Shutdown => TakeBatch(s.(stopping := true, full := true))
    case HandlerReturned(b, outputs) =>
      var items := s.batches[b].items;
      s.(futures := Resolve(s.futures, items, outputs, Shorter(items, outputs)),
         batches := s.batches[b := Batch(items, Returned(outputs))])
    case HandlerRaised(b, error) =>
      var items := s.batches[b].items;
      s.(futures := Reject(s.futures, items, error, |items|),
         batches := s.batches[b := Batch(items, Raised(error))])
    case Cancel(f) =>
      if s.futures[f].Waiting? then s.(futures := s.futures[f := Cancelled]) else s
  }

  // --------------------------------------------------------------- invariant

  function Flatten(batches: seq<Batch>): seq<nat> {
    if batches == [] then [] else Flatten(batches[..|batches| - 1]) + batches[|batches| - 1].items
  }

  function UpTo(n: nat): (r: seq<nat>)
    ensures |r| == n && forall i | 0 <= i < n :: r[i] == i
  {
    if n == 0 then [] else UpTo(n - 1) + [n - 1]
  }

  /** The taken batches in order, then the pending list, are the accepted submissions in order. */
  ghost predicate Conserved(s: State) {
    Flatten(s.batches) + s.pending == UpTo(|s.futures|) && |s.payloads| == |s.futures|
  }

  /** What a future at position `i` of a batch may be, given how far the batch has come. */
  predicate Fits(progress: Progress, i: nat, f: FutureState) {
    f.Cancelled? ||
    match progress
    case Running => f.Waiting?
    case Returned(outputs) => if i < |outputs| then f == Resolved(outputs[i]) else f.Waiting?
    case Raised(error) => f == Failed(error)
  }

  ghost predicate Settlements(s: State)
    requires ItemsKnown(s)
  {
    forall b, i | 0 <= b < |s.batches| && 0 <= i < |s.batches[b].items| ::
      Fits(s.batches[b].progress, i, s.futures[s.batches[b].items[i]])
  }

  ghost predicate PendingWaits(s: State) {
    forall i | 0 <= i < |s.pending| ::
      s.pending[i] < |s.futures| && (s.futures[s.pending[i]].Waiting? || s.futures[s.pending[i]].Cancelled?)
  }

  ghost predicate Inv(s: State) {
    && Conserved(s) && ItemsKnown(s) && Settlements(s) && PendingWaits(s)
    && (s.stopping ==> s.pending == [])
    && (s.maxBatchSize >= 1 ==> (s.full <==> |s.pending| >= s.maxBatchSize))
  }

  // ---------------------------------------------- each future has one place

  function Start(batches: seq<Batch>, b: nat): nat
    requires b <= |batches|
  {
    |Flatten(batches[..b])|
  }

  lemma {:induction false} FlattenAt(batches: seq<Batch>, b: nat, i: nat)
    requires b < |batches| && i < |batches[b].items|
    ensures Start(batches, b) + i < Start(batches, b + 1) <= |Flatten(batches)|
    ensures Flatten(batches)[Start(batches, b) + i] == batches[b].items[i]
  {
    var n := |batches| - 1;
    if b == n {
      assert batches[..b + 1] == batches;
    } else {
      FlattenAt(batches[..n], b, i);
      assert batches[..n][..b] == batches[..b] && batches[..n][..b + 1] == batches[..b + 1];
    }
    assert batches[..b + 1][..b] == batches[..b];
  }

  lemma {:induction false} StartsGrow(batches: seq<Batch>, a: nat, b: nat)
    requires a <= b <= |batches|
    ensures Start(batches, a) <= Start(batches, b)
    decreases b
  {
    if a < b {
      StartsGrow(batches, a, b - 1);
      assert batches[..b][..b - 1] == batches[..b - 1];
    }
  }

  /** No future stands at two positions of the batches. */
  lemma OnePlace(s: State, b: nat, i: nat, c: nat, j: nat)
    requires Conserved(s)
    requires b < |s.batches| && i < |s.batches[b].items| && c < |s.batches| && j < |s.batches[c].items|
    requires s.batches[b].items[i] == s.batches[c].items[j]
    ensures b == c && i == j
  {
    FlattenAt(s.batches, b, i);
    FlattenAt(s.batches, c, j);
    hide Flatten, Start;
    var all := Flatten(s.batches) + s.pending;
    assert all[Start(s.batches, b) + i] == Start(s.batches, b) + i;
    assert all[Start(s.batches, c) + j] == Start(s.batches, c) + j;
    if b < c {
      StartsGrow(s.batches, b + 1, c);
    } else if c < b {
      StartsGrow(s.batches, c + 1, b);
    }
  }

  /** Nor in a batch and on the pending list. */
  lemma BatchedOrPending(s: State, b: nat, i: nat, j: nat)
    requires Conserved(s)
    requires b < |s.batches| && i < |s.batches[b].items| && j < |s.pending|
    ensures s.batches[b].items[i] < s.pending[j] < |s.futures|
  {
    FlattenAt(s.batches, b, i);
    hide Flatten, Start;
    var all := Flatten(s.batches) + s.pending;
    assert all[Start(s.batches, b) + i] == Start(s.batches, b) + i;
    assert all[|Flatten(s.batches)| + j] == |Flatten(s.batches)| + j;
  }

  lemma ItemsDistinct(s: State, b: nat)
    requires Conserved(s) && b < |s.batches|
    ensures Distinct(s.batches[b].items)
  {
    var items := s.batches[b].items;
    forall i, j | 0 <= i < j < |items| ensures items[i] != items[j] {
      if items[i] == items[j] {
        OnePlace(s, b, i, b, j);
      }
    }
  }

  lemma {:induction false} Locate(batches: seq<Batch>, k: nat) returns (b: nat, i: nat)
    requires k < |Flatten(batches)|
    ensures b < |batches| && i < |batches[b].items| && Flatten(batches)[k] == batches[b].items[i]
  {
    var n := |batches| - 1;
    if k < |Flatten(batches[..n])| {
      b, i := Locate(batches[..n], k);
    } else {
      b, i := n, k - |Flatten(batches[..n])|;
    }
  }

  // ------------------------------------------------ what a settlement changes

  lemma {:induction false} ResolveShape(futures: seq<FutureState>, items: seq<nat>, outputs: seq<Output>, k: nat)
    requires k <= |items| && k <= |outputs| && Distinct(items)
    requires forall i | 0 <= i < |items| :: items[i] < |futures|
    ensures forall f | 0 <= f < |futures| && f !in items[..k] :: Resolve(futures, items, outputs, k)[f] == futures[f]
    ensures forall i | 0 <= i < k ::
              Resolve(futures, items, outputs, k)[items[i]]
              == if futures[items[i]].Waiting? then Resolved(outputs[i]) else futures[items[i]]
  {
    if k > 0 {
      ResolveShape(futures, items, outputs, k - 1);
      TakeOneMore(items, k - 1);
      assert items[k - 1] !in items[..k - 1];
    }
  }

  lemma {:induction false} RejectShape(futures: seq<FutureState>, items: seq<nat>, error: Error, k: nat)
    requires k <= |items| && Distinct(items)
    requires forall i | 0 <= i < |items| :: items[i] < |futures|
    ensures forall f | 0 <= f < |futures| && f !in items[..k] :: Reject(futures, items, error, k)[f] == futures[f]
    ensures forall i | 0 <= i < k ::
              Reject(futures, items, error, k)[items[i]]
              == if futures[items[i]].Waiting? then Failed(error) else futures[items[i]]
  {
    if k > 0 {
      RejectShape(futures, items, error, k - 1);
      TakeOneMore(items, k - 1);
      assert items[k - 1] !in items[..k - 1];
    }
  }

  // ------------------------------------------------ every step keeps the invariant

  lemma SubmitKeepsInv(s: State, payload: Payload)
    requires Inv(s)
    ensures Inv(Step(s, Submit(payload)))
  {
    if !s.stopping {
      var n := |s.futures|;
      assert Flatten(s.batches) + (s.pending + [n]) == (Flatten(s.batches) + s.pending) + [n];
    }
  }

  lemma TakeKeepsInv(s: State)
    requires Conserved(s) && ItemsKnown(s) && Settlements(s) && PendingWaits(s)
    ensures Inv(TakeBatch(s))
  {
    if s.pending != [] {
      var taken := s.batches + [Batch(s.pending, Running)];
      assert taken[..|s.batches|] == s.batches;
    }
    assert Flatten(s.batches) + s.pending + [] == Flatten(s.batches) + s.pending;
  }

  lemma {:induction false} FlattenSameItems(xs: seq<Batch>, ys: seq<Batch>)
    requires |xs| == |ys| && forall b | 0 <= b < |xs| :: xs[b].items == ys[b].items
    ensures Flatten(xs) == Flatten(ys)
  {
    if xs != [] {
      FlattenSameItems(xs[..|xs| - 1], ys[..|ys| - 1]);
    }
  }

  /** A batch settles its own futures and no other; all others stay as they were. */
  ghost predicate OnlySettles(s: State, b: nat, progress: Progress, futures: seq<FutureState>)
    requires ItemsKnown(s) && b < |s.batches|
  {
    && |futures| == |s.futures|
    && (forall f | 0 <= f < |futures| && f !in s.batches[b].items :: futures[f] == s.futures[f])
    && (forall i | 0 <= i < |s.batches[b].items| :: Fits(progress, i, futures[s.batches[b].items[i]]))
  }

  lemma SettlementKeepsInv(s: State, b: nat, progress: Progress, futures: seq<FutureState>)
    requires Inv(s) && b < |s.batches| && OnlySettles(s, b, progress, futures)
    ensures Inv(s.(futures := futures, batches := s.batches[b := Batch(s.batches[b].items, progress)]))
  {
    var s' := s.(futures := futures, batches := s.batches[b := Batch(s.batches[b].items, progress)]);
    FlattenSameItems(s.batches, s'.batches);
    hide Fits, Flatten;
    forall c, j | 0 <= c < |s.batches| && 0 <= j < |s.batches[c].items|
      ensures Fits(s'.batches[c].progress, j, futures[s.batches[c].items[j]])
    {
      if c != b && s.batches[c].items[j] in s.batches[b].items {
        var i :| 0 <= i < |s.batches[b].items| && s.batches[b].items[i] == s.batches[c].items[j];
        OnePlace(s, b, i, c, j);
      }
    }
    forall j | 0 <= j < |s.pending| ensures s.pending[j] !in s.batches[b].items {
      if s.pending[j] in s.batches[b].items {
        var i :| 0 <= i < |s.batches[b].items| && s.batches[b].items[i] == s.pending[j];
        BatchedOrPending(s, b, i, j);
      }
    }
  }

  lemma ReturnedOnlySettles(s: State, b: nat, outputs: seq<Output>)
    requires Inv(s) && b < |s.batches| && s.batches[b].progress.Running?
    ensures OnlySettles(s, b, Returned(outputs),
                        Resolve(s.futures, s.batches[b].items, outputs, Shorter(s.batches[b].items, outputs)))
  {
    hide Flatten;
    var items := s.batches[b].items;
    var k := Shorter(items, outputs);
    ItemsDistinct(s, b);
    ResolveShape(s.futures, items, outputs, k);
    forall i | 0 <= i < |items|
      ensures Fits(Returned(outputs), i, Resolve(s.futures, items, outputs, k)[items[i]])
    {
      assert Fits(Running, i, s.futures[items[i]]);
      if i >= k {
        assert items[i] !in items[..k];
      }
    }
  }

  lemma RaisedOnlySettles(s: State, b: nat, error: Error)
    requires Inv(s) && b < |s.batches| && s.batches[b].progress.Running?
    ensures OnlySettles(s, b, Raised(error), Reject(s.futures, s.batches[b].items, error, |s.batches[b].items|))
  {
    hide Flatten;
    var items := s.batches[b].items;
    ItemsDistinct(s, b);
    RejectShape(s.futures, items, error, |items|);
    assert items[..|items|] == items;
    forall i | 0 <= i < |items|
      ensures Fits(Raised(error), i, Reject(s.futures, items, error, |items|)[items[i]])
    {
      assert Fits(Running, i, s.futures[items[i]]);
    }
  }

  lemma {:induction false} StepKeepsInv(s: State, e: Event)
    requires Inv(s) && Enabled(s, e)
    ensures Inv(Step(s, e))
  {
    match e
    case Submit(payload) => SubmitKeepsInv(s, payload);
    case Flush => TakeKeepsInv(s);
    case Shutdown => TakeKeepsInv(s.(stopping := true, full := true));
    case HandlerReturned(b, outputs) =>
      ReturnedOnlySettles(s, b, outputs);
      SettlementKeepsInv(s, b, Returned(outputs),
                         Resolve(s.futures, s.batches[b].items, outputs, Shorter(s.batches[b].items, outputs)));
      hide Inv, Resolve;
    case HandlerRaised(b, error) =>
      RaisedOnlySettles(s, b, error);
      SettlementKeepsInv(s, b, Raised(error), Reject(s.futures, s.batches[b].items, error, |s.batches[b].items|));
      hide Inv, Reject;
    case Cancel(f) =>
      hide Flatten;
  }

  // -------------------------------------------------------------------- runs

  /** The batcher after a run; an event that cannot happen there is skipped. */
  ghost function Run(maxBatchSize: int, events: seq<Event>): State {
    if events == [] then Initial(maxBatchSize)
    else
      var s := Run(maxBatchSize, events[..|events| - 1]);
      var e := events[|events| - 1];
      if Enabled(s, e) && ItemsKnown(s) then Step(s, e) else s
  }

  lemma {:induction false} RunKeepsInv(maxBatchSize: int, events: seq<Event>)
    ensures Inv(Run(maxBatchSize, events))
  {
    if events == [] {
      assert Flatten([]) + [] == UpTo(0);
    } else {
      RunKeepsInv(maxBatchSize, events[..|events| - 1]);
      var s := Run(maxBatchSize, events[..|events| - 1]);
      assert ItemsKnown(s);
      if Enabled(s, events[|events| - 1]) {
        StepKeepsInv(s, events[|events| - 1]);
      }
      hide Inv, Step, ItemsKnown, Enabled;
    }
  }

  /** The payloads of the submissions that were not turned away. */
  ghost function Accepted(maxBatchSize: int, events: seq<Event>): seq<Payload> {
    if events == [] then []
    else
      var n := |events| - 1;
      Accepted(maxBatchSize, events[..n])
      + (if events[n].Submit? && !Run(maxBatchSize, events[..n]).stopping then [events[n].payload] else [])
  }

  /**
   * Conservation, in every interleaving: the batches taken, in order, followed
   * by the pending list, are the accepted submissions in order, each once.
   */
  lemma {:induction false} BatchesThenPending(maxBatchSize: int, events: seq<Event>)
    ensures var s := Run(maxBatchSize, events);
            && s.payloads == Accepted(maxBatchSize, events)
            && Flatten(s.batches) + s.pending == UpTo(|Accepted(maxBatchSize, events)|)
  {
    RunKeepsInv(maxBatchSize, events);
    PayloadsAreAccepted(maxBatchSize, events);
    hide Flatten, UpTo, Run, Accepted;
  }

  lemma {:induction false} PayloadsAreAccepted(maxBatchSize: int, events: seq<Event>)
    ensures Run(maxBatchSize, events).payloads == Accepted(maxBatchSize, events)
  {
    if events != [] {
      var n := |events| - 1;
      var s := Run(maxBatchSize, events[..n]);
      PayloadsAreAccepted(maxBatchSize, events[..n]);
      RunKeepsInv(maxBatchSize, events[..n]);
      if Enabled(s, events[n]) {
        StepPayloads(s, events[n]);
      }
      hide Step, Conserved, Settlements, PendingWaits;
    }
  }

  lemma StepPayloads(s: State, e: Event)
    requires Enabled(s, e) && ItemsKnown(s)
    ensures Step(s, e).payloads == if e.Submit? && !s.stopping then s.payloads + [e.payload] else s.payloads
  {
  }

  /** A future that has its answer holds its own position's output, or its batch's error. */
  lemma {:induction false} AnswerIsOwn(maxBatchSize: int, events: seq<Event>, f: nat) returns (b: nat, i: nat)
    requires f < |Run(maxBatchSize, events).futures|
    requires var answer := Run(maxBatchSize, events).futures[f]; answer.Resolved? || answer.Failed?
    ensures var s := Run(maxBatchSize, events);
            && b < |s.batches| && i < |s.batches[b].items| && s.batches[b].items[i] == f
            && (s.futures[f].Resolved? ==>
                  && s.batches[b].progress.Returned? && i < |s.batches[b].progress.outputs|
                  && s.futures[f].output == s.batches[b].progress.outputs[i])
            && (s.futures[f].Failed? ==> s.batches[b].progress == Raised(s.futures[f].error))
  {
    RunKeepsInv(maxBatchSize, events);
    var s := Run(maxBatchSize, events);
    hide Run, Flatten;
    b, i := PlaceOf(s, f);
    assert Fits(s.batches[b].progress, i, s.futures[s.batches[b].items[i]]);
  }

  /** A future that is neither waiting on the pending list nor cancelled there stands in a batch. */
  lemma PlaceOf(s: State, f: nat) returns (b: nat, i: nat)
    requires Inv(s) && f < |s.futures|
    requires !(s.futures[f].Waiting? || s.futures[f].Cancelled?) || s.pending == []
    ensures b < |s.batches| && i < |s.batches[b].items| && s.batches[b].items[i] == f
  {
    hide Flatten;
    BatchedElsePending(s, f);
    b, i := Locate(s.batches, f);
  }

  lemma BatchedElsePending(s: State, f: nat)
    requires Conserved(s) && f < |s.futures|
    ensures var k := |Flatten(s.batches)|;
            (f < k && Flatten(s.batches)[f] == f) || (k <= f < k + |s.pending| && s.pending[f - k] == f)
  {
    hide Flatten;
    var all := Flatten(s.batches) + s.pending;
    assert all[f] == f;
  }

  /** Two readings of one batcher: nothing accepted is lost, and what is settled stays settled. */
  ghost predicate Later(s: State, t: State) {
    && |s.futures| <= |t.futures| && |s.batches| <= |t.batches|
    && (forall f | 0 <= f < |s.futures| && !s.futures[f].Waiting? :: t.futures[f] == s.futures[f])
    && (forall b | 0 <= b < |s.batches| ::
          && t.batches[b].items == s.batches[b].items
          && (!s.batches[b].progress.Running? ==> t.batches[b] == s.batches[b]))
    && (s.stopping ==> t.stopping && t.payloads == s.payloads)
  }

  lemma StepIsLater(s: State, e: Event)
    requires ItemsKnown(s) && Enabled(s, e)
    ensures Later(s, Step(s, e))
  {
    match e
    case HandlerReturned(b, outputs) =>
      ResolveCancelsNone(s.futures, s.batches[b].items, outputs, Shorter(s.batches[b].items, outputs));
    case HandlerRaised(b, error) =>
      RejectCancelsNone(s.futures, s.batches[b].items, error, |s.batches[b].items|);
    case _ =>
  }

  lemma LaterReflexive(s: State)
    ensures Later(s, s)
  {
  }

  lemma LaterTransitive(s: State, t: State, u: State)
    requires Later(s, t) && Later(t, u)
    ensures Later(s, u)
  {
  }

  /** Every future is settled at most once: however the run goes on, its answer never changes. */
  lemma {:induction false} SettledOnce(maxBatchSize: int, events: seq<Event>, more: seq<Event>)
    ensures Later(Run(maxBatchSize, events), Run(maxBatchSize, events + more))
  {
    hide Later, Step, Enabled, ItemsKnown;
    if more == [] {
      LaterReflexive(Run(maxBatchSize, events));
      assert events + more == events;
    } else {
      var n := |more| - 1;
      SettledOnce(maxBatchSize, events, more[..n]);
      assert (events + more)[..|events| + n] == events + more[..n];
      var t := Run(maxBatchSize, events + more[..n]);
      if Enabled(t, more[n]) && ItemsKnown(t) {
        StepIsLater(t, more[n]);
        LaterTransitive(Run(maxBatchSize, events), t, Step(t, more[n]));
      }
    }
  }

  /** After a shutdown nothing is ever accepted or pending again. */
  lemma {:induction false} NothingAfterShutdown(maxBatchSize: int, events: seq<Event>, more: seq<Event>)
    requires Run(maxBatchSize, events).stopping
    ensures Run(maxBatchSize, events + more).pending == []
    ensures Run(maxBatchSize, events + more).payloads == Run(maxBatchSize, events).payloads
  {
    SettledOnce(maxBatchSize, events, more);
    RunKeepsInv(maxBatchSize, events + more);
    hide Run;
  }

  /**
   * Exactly which waiters of a batch have no answer. A future still waits if it
   * was not cancelled and its own batch is running or came back with too few
   * outputs for its position; what happened to other batches does not matter.
   */
  lemma {:induction false} UnansweredIff(maxBatchSize: int, events: seq<Event>, b: nat, i: nat)
    requires b < |Run(maxBatchSize, events).batches| && i < |Run(maxBatchSize, events).batches[b].items|
    ensures var s := Run(maxBatchSize, events);
            var progress, f := s.batches[b].progress, s.batches[b].items[i];
            && f < |s.futures|
            && (s.futures[f].Waiting? <==>
                  !s.futures[f].Cancelled? && (progress.Running? || (progress.Returned? && i >= |progress.outputs|)))
            && (!progress.Running? ==>
                  (s.futures[f].Waiting? || s.futures[f].Cancelled?
                   <==> s.futures[f].Cancelled? || (progress.Returned? && i >= |progress.outputs|)))
  {
    RunKeepsInv(maxBatchSize, events);
    var s := Run(maxBatchSize, events);
    hide Run, Conserved, PendingWaits;
    assert Fits(s.batches[b].progress, i, s.futures[s.batches[b].items[i]]);
  }

  /**
   * Once the batcher has stopped every accepted submission stands in a batch,
   * and it waits only if its own batch is running or was too short for it.
   */
  lemma {:induction false} EveryoneHears(maxBatchSize: int, events: seq<Event>, f: nat) returns (b: nat, i: nat)
    requires Run(maxBatchSize, events).stopping && f < |Run(maxBatchSize, events).futures|
    ensures var s := Run(maxBatchSize, events);
            && b < |s.batches| && i < |s.batches[b].items| && s.batches[b].items[i] == f
            && (s.batches[b].progress.Raised?
                || (s.batches[b].progress.Returned? && i < |s.batches[b].progress.outputs|)
                ==> !s.futures[f].Waiting?)
  {
    RunKeepsInv(maxBatchSize, events);
    b, i := PlaceOf(Run(maxBatchSize, events), f);
    UnansweredIff(maxBatchSize, events, b, i);
    hide Run;
  }

  /**
   * A handler that returns too few outputs leaves the rest of its batch without
   * an answer for good: they wait on unless someone cancels them.
   */
  lemma {:induction false} ShortOutputStrands(maxBatchSize: int, events: seq<Event>, more: seq<Event>, b: nat, i: nat)
    requires b < |Run(maxBatchSize, events).batches| && i < |Run(maxBatchSize, events).batches[b].items|
    requires var progress := Run(maxBatchSize, events).batches[b].progress;
             progress.Returned? && i >= |progress.outputs|
    ensures var f := Run(maxBatchSize, events).batches[b].items[i];
            var s, t := Run(maxBatchSize, events), Run(maxBatchSize, events + more);
            && f < |s.futures| <= |t.futures|
            && (t.futures[f].Waiting? || t.futures[f].Cancelled?)
            && (t.futures[f].Waiting? <==> s.futures[f].Waiting? && Cancel(f) !in more)
  {
    UnansweredIff(maxBatchSize, events, b, i);
    SettledOnce(maxBatchSize, events, more);
    UnansweredIff(maxBatchSize, events + more, b, i);
    hide Run;
    var f := Run(maxBatchSize, events).batches[b].items[i];
    if Run(maxBatchSize, events).futures[f].Waiting? {
      CancelledByCancel(maxBatchSize, events, more, f);
    }
  }

  /** Two items in one batch, one output: the first is answered and the second waits. */
  lemma {:induction false} ShortRun(p: Payload, q: Payload, o: Output)
    ensures var s := Run(2, [Submit(p), Submit(q), Flush, HandlerReturned(0, [o])]);
            && s.batches == [Batch([0, 1], Returned([o]))]
            && s.futures == [Resolved(o), Waiting]
  {
    hide Run, Step, Resolve;
    var taken := State(2, [p, q], [Waiting, Waiting], [], [Batch([0, 1], Running)], false, false);
    var three, last := [Submit(p), Submit(q), Flush], HandlerReturned(0, [o]);
    TwoTaken(p, q);
    RunSnoc(2, three, last);
    assert three + [last] == [Submit(p), Submit(q), Flush, last];
    FirstAnswered(taken, o);
  }

  lemma FirstAnswered(s: State, o: Output)
    requires s.futures == [Waiting, Waiting] && s.batches == [Batch([0, 1], Running)]
    ensures ItemsKnown(s) && Enabled(s, HandlerReturned(0, [o]))
    ensures Step(s, HandlerReturned(0, [o])).futures == [Resolved(o), Waiting]
    ensures Step(s, HandlerReturned(0, [o])).batches == [Batch([0, 1], Returned([o]))]
  {
    assert Resolve(s.futures, [0, 1], [o], 0) == s.futures;
  }

  lemma {:induction false} TwoTaken(p: Payload, q: Payload)
    ensures Run(2, [Submit(p), Submit(q), Flush])
            == State(2, [p, q], [Waiting, Waiting], [], [Batch([0, 1], Running)], false, false)
  {
    var one, two := [Submit(p)], [Submit(p), Submit(q)];
    assert Run(2, []) == Initial(2);
    hide *;
    assert [] + one == one && one + [Submit(q)] == two && two + [Flush] == [Submit(p), Submit(q), Flush];
    RunSnoc(2, [], Submit(p));
    RunSnoc(2, one, Submit(q));
    RunSnoc(2, two, Flush);
    TwoSubmitted(p, q);
  }

  lemma TwoSubmitted(p: Payload, q: Payload)
    ensures var one := State(2, [p], [Waiting], [0], [], false, false);
            var two := State(2, [p, q], [Waiting, Waiting], [0, 1], [], true, false);
            && Enabled(Initial(2), Submit(p)) && ItemsKnown(Initial(2)) && Step(Initial(2), Submit(p)) == one
            && Enabled(one, Submit(q)) && ItemsKnown(one) && Step(one, Submit(q)) == two
            && Enabled(two, Flush) && ItemsKnown(two)
            && Step(two, Flush) == State(2, [p, q], [Waiting, Waiting], [], [Batch([0, 1], Running)], false, false)
  {
  }

  lemma RunSnoc(maxBatchSize: int, events: seq<Event>, e: Event)
    ensures var s := Run(maxBatchSize, events);
            Run(maxBatchSize, events + [e]) == if Enabled(s, e) && ItemsKnown(s) then Step(s, e) else s
  {
    assert (events + [e])[..|events|] == events;
  }

  /** A waiting future turns out cancelled only if it was cancelled; and one that was cancelled waits no more. */
  lemma {:induction false} CancelledByCancel(maxBatchSize: int, events: seq<Event>, more: seq<Event>, f: nat)
    requires f < |Run(maxBatchSize, events).futures| && Run(maxBatchSize, events).futures[f].Waiting?
    ensures f < |Run(maxBatchSize, events + more).futures|
    ensures Run(maxBatchSize, events + more).futures[f].Cancelled? ==> Cancel(f) in more
    ensures Cancel(f) in more ==> !Run(maxBatchSize, events + more).futures[f].Waiting?
  {
    if more == [] {
      assert events + more == events;
    } else {
      hide *;
      var n := |more| - 1;
      assert events + more == (events + more[..n]) + [more[n]] && more == more[..n] + [more[n]];
      CancelledByCancel(maxBatchSize, events, more[..n], f);
      LastEventCancels(maxBatchSize, events + more[..n], more[n], f);
    }
  }

  lemma LastEventCancels(maxBatchSize: int, events: seq<Event>, e: Event, f: nat)
    requires f < |Run(maxBatchSize, events).futures|
    ensures var s, t := Run(maxBatchSize, events), Run(maxBatchSize, events + [e]);
            && f < |t.futures|
            && (t.futures[f].Cancelled? ==> s.futures[f].Cancelled? || e == Cancel(f))
            && (e == Cancel(f) || !s.futures[f].Waiting? ==> !t.futures[f].Waiting?)
  {
    var s := Run(maxBatchSize, events);
    RunSnoc(maxBatchSize, events, e);
    KnownAndEnabled(maxBatchSize, events, e, f);
    hide Run, Step, Enabled, ItemsKnown;
    if Enabled(s, e) {
      OnlyCancelCancels(s, e, f);
    }
  }

  lemma KnownAndEnabled(maxBatchSize: int, events: seq<Event>, e: Event, f: nat)
    requires f < |Run(maxBatchSize, events).futures|
    ensures ItemsKnown(Run(maxBatchSize, events))
    ensures e == Cancel(f) ==> Enabled(Run(maxBatchSize, events), e)
  {
    RunKeepsInv(maxBatchSize, events);
    hide Run;
  }

  lemma OnlyCancelCancels(s: State, e: Event, f: nat)
    requires ItemsKnown(s) && Enabled(s, e) && f < |s.futures|
    ensures f < |Step(s, e).futures|
    ensures Step(s, e).futures[f].Cancelled? <==> s.futures[f].Cancelled? || (e == Cancel(f) && s.futures[f].Waiting?)
    ensures !s.futures[f].Waiting? ==> Step(s, e).futures[f] == s.futures[f]
  {
    match e
    case HandlerReturned(b, outputs) =>
      ResolveCancelsNone(s.futures, s.batches[b].items, outputs, Shorter(s.batches[b].items, outputs));
    case HandlerRaised(b, error) =>
      RejectCancelsNone(s.futures, s.batches[b].items, error, |s.batches[b].items|);
    case _ =>
  }

  lemma {:induction false} ResolveCancelsNone(futures: seq<FutureState>, items: seq<nat>, outputs: seq<Output>, k: nat)
    requires k <= |items| && k <= |outputs| && forall i | 0 <= i < |items| :: items[i] < |futures|
    ensures forall f | 0 <= f < |futures| ::
              && (Resolve(futures, items, outputs, k)[f].Cancelled? <==> futures[f].Cancelled?)
              && (!futures[f].Waiting? ==> Resolve(futures, items, outputs, k)[f] == futures[f])
  {
    if k > 0 {
      ResolveCancelsNone(futures, items, outputs, k - 1);
    }
  }

  lemma {:induction false} RejectCancelsNone(futures: seq<FutureState>, items: seq<nat>, error: Error, k: nat)
    requires k <= |items| && forall i | 0 <= i < |items| :: items[i] < |futures|
    ensures forall f | 0 <= f < |futures| ::
              && (Reject(futures, items, error, k)[f].Cancelled? <==> futures[f].Cancelled?)
              && (!futures[f].Waiting? ==> Reject(futures, items, error, k)[f] == futures[f])
  {
    if k > 0 {
      RejectCancelsNone(futures, items, error, k - 1);
    }
  }

  // -------------------------------------------------- flushing and shutting down

  /** A flush makes one batch of everything pending, in order, and of nothing no batch; a shutdown stops besides. */
  lemma {:induction false} FlushTakesAll(maxBatchSize: int, events: seq<Event>, e: Event)
    requires e.Flush? || e.Shutdown?
    ensures var s, t := Run(maxBatchSize, events), Run(maxBatchSize, events + [e]);
            && t.pending == [] && t.payloads == s.payloads && t.futures == s.futures
            && t.batches == s.batches + (if s.pending == [] then [] else [Batch(s.pending, Running)])
            && t.stopping == (s.stopping || e.Shutdown?)
  {
    RunSnoc(maxBatchSize, events, e);
    RunKeepsInv(maxBatchSize, events);
    assert Run(maxBatchSize, events).batches + [] == Run(maxBatchSize, events).batches;
    hide Run, Conserved, PendingWaits;
  }

  /** A submission is accepted, at the end of the list and with its own payload, exactly until a shutdown. */
  lemma {:induction false} SubmitWaitsOrIsRefused(maxBatchSize: int, events: seq<Event>, payload: Payload)
    ensures var s, t := Run(maxBatchSize, events), Run(maxBatchSize, events + [Submit(payload)]);
            if s.stopping then t == s
            else
              && t.payloads == s.payloads + [payload] && t.futures == s.futures + [Waiting]
              && t.pending == s.pending + [|s.futures|] && t.batches == s.batches && !t.stopping
    ensures Run(maxBatchSize, events).stopping <==> Shutdown in events
  {
    RunSnoc(maxBatchSize, events, Submit(payload));
    RunKeepsInv(maxBatchSize, events);
    StoppingIff(maxBatchSize, events);
    hide Run, Conserved, PendingWaits;
  }

  lemma {:induction false} StoppingIff(maxBatchSize: int, events: seq<Event>)
    ensures Run(maxBatchSize, events).stopping <==> Shutdown in events
  {
    if events != [] {
      var n := |events| - 1;
      StoppingIff(maxBatchSize, events[..n]);
      assert events == events[..n] + [events[n]];
      RunKeepsInv(maxBatchSize, events[..n]);
      hide Resolve, Reject, Inv;
    }
  }

  /** What can happen next: a handler ends, either way, as long as its batch runs; anything else at any time. */
  lemma {:induction false} BatcherCanGoOn(s: State, e: Event)
    ensures e.Submit? || e.Flush? || e.Shutdown? ==> Enabled(s, e)
    ensures e.HandlerReturned? || e.HandlerRaised? ==>
              (Enabled(s, e) <==> e.b < |s.batches| && s.batches[e.b].progress == Running)
    ensures e.Cancel? ==> (Enabled(s, e) <==> e.f < |s.futures|)
  {
  }
}
