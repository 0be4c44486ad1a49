/**
 * The batcher object and the futures it settles, updated in place. Each method
 * is one stretch of the source between two suspension points, and moves the
 * object's view exactly as a step of the `Batcher` machine.
 */
module DynamicBatchers {
  import opened Prelude
  import opened Batcher

  class Future {
    /** The place of its submission among those accepted. */
    ghost const id: nat
    var state: FutureState

    constructor (ghost id: nat)
      ensures this.id == id && state == Waiting
    {
      this.id := id;
      state := Waiting;
    }
  }

  datatype Pending = Pending(payload: Payload, future: Future)

  ghost function Ids(items: seq<Pending>): (r: seq<nat>)
    ensures |r| == |items|
  {
    seq(|items|, i requires 0 <= i < |items| => items[i].future.id)
  }

  ghost function Payloads(items: seq<Pending>): seq<Payload> {
    seq(|items|, i requires 0 <= i < |items| => items[i].payload)
  }

  ghost function States(items: seq<Pending>): seq<FutureState>
    reads set i | 0 <= i < |items| :: items[i].future
  {
    seq(|items|, i requires 0 <= i < |items| reads set j | 0 <= j < |items| :: items[j].future => items[i].future.state)
  }

  class DynamicBatcher {
    const maxBatchSize: int
    var pending: seq<Pending>
    var batchFull: bool
    var stopping: bool
    var batchesProcessed: nat
    ghost var accepted: seq<Pending>
    ghost var batches: seq<Batch>

    ghost function Futures(): set<Future>
      reads this
    {
      set i | 0 <= i < |accepted| :: accepted[i].future
    }

    ghost function View(): State
      reads this, Futures()
    {
      State(maxBatchSize, Payloads(accepted), States(accepted), Ids(pending), batches, batchFull, stopping)
    }

    ghost predicate Numbered()
      reads this
    {
      forall i | 0 <= i < |accepted| :: accepted[i].future.id == i
    }

    /** Its items are submissions this batcher accepted. */
    ghost predicate Owns(items: seq<Pending>)
      reads this
    {
      forall i | 0 <= i < |items| :: Holds(items[i])
    }

    ghost predicate Holds(item: Pending)
      reads this
    {
      item.future.id < |accepted| && accepted[item.future.id] == item
    }

    ghost predicate Valid()
      reads this, Futures()
    {
      && Numbered()
      && Owns(pending)
      && batchesProcessed == |batches|
      && Inv(View())
    }

    constructor (maxBatchSize: int)
      ensures Valid() && View() == Initial(maxBatchSize)
    {
      this.maxBatchSize := maxBatchSize;
      pending, batchFull, stopping, batchesProcessed := [], false, false, 0;
      accepted, batches := [], [];
      new;
      RunKeepsInv(maxBatchSize, []);
      assert View() == Initial(maxBatchSize);
    }

    /** Up to the point where the caller starts waiting on its future. */
    method Submit(payload: Payload) returns (r: Option<Future>)
      requires Valid()
      modifies this
      ensures Valid() && View() == Step(old(View()), Event.Submit(payload))
      ensures r.None? <==> old(stopping)
      ensures r.Some? ==> fresh(r.value) && accepted == old(accepted) + [Pending(payload, r.value)]
    {
      StepKeepsInv(View(), Event.Submit(payload));
      hide Inv, ItemsKnown;
      if stopping {
        return None;
      }
      ghost var before := View();
      var future := new Future(|accepted|);
      var item := Pending(payload, future);
      pending := pending + [item];
      accepted := accepted + [item];
      if |pending| >= maxBatchSize {
        batchFull := true;
      }
      assert View().payloads == before.payloads + [payload];
      assert View().futures == before.futures + [Waiting];
      assert View().pending == before.pending + [|before.futures|];
      return Some(future);
    }

    /** The locked part of a flush: everything pending becomes one batch. */
    method TakeBatch() returns (batch: seq<Pending>)
      requires Valid()
      modifies this
      ensures Valid() && View() == Step(old(View()), Flush)
      ensures batch == old(pending) && accepted == old(accepted)
      ensures batch != [] ==> |batches| > 0 && batches[|batches| - 1] == Batch(Ids(batch), Running) && Owns(batch)
    {
      StepKeepsInv(View(), Flush);
      hide Inv, ItemsKnown;
      batch := pending;
      pending := [];
      batchFull := false;
      if |batch| == 0 {
        return;
      }
      batchesProcessed := batchesProcessed + 1;
      batches := batches + [Batch(Ids(batch), Running)];
    }

    method SetState(item: Pending, state: FutureState)
      requires Numbered() && Holds(item)
      modifies item.future
      ensures item.future.state == state
      ensures States(accepted) == old(States(accepted))[item.future.id := state]
    {
      item.future.state := state;
      forall i | 0 <= i < |accepted| && i != item.future.id ensures accepted[i].future != item.future {
        assert accepted[i].future.id == i;
      }
    }

    /** Outputs and items are walked together; whoever is no longer waiting is passed over. */
    method ResolveAll(batch: seq<Pending>, outputs: seq<Output>)
      requires Numbered() && Owns(batch)
      modifies Futures()
      ensures forall i | 0 <= i < |batch| :: Ids(batch)[i] < |States(accepted)|
      ensures States(accepted) == Resolve(old(States(accepted)), Ids(batch), outputs, Shorter(Ids(batch), outputs))
    {
      ghost var before := States(accepted);
      for i := 0 to Shorter(batch, outputs)
        invariant States(accepted) == Resolve(before, Ids(batch), outputs, i)
      {
        assert Holds(batch[i]) && Ids(batch)[i] == batch[i].future.id;
        assert batch[i].future.state == States(accepted)[batch[i].future.id];
        if batch[i].future.state.Waiting? {
          SetState(batch[i], Resolved(outputs[i]));
        }
      }
    }

    method RejectAll(batch: seq<Pending>, error: Error)
      requires Numbered() && Owns(batch)
      modifies Futures()
      ensures forall i | 0 <= i < |batch| :: Ids(batch)[i] < |States(accepted)|
      ensures States(accepted) == Reject(old(States(accepted)), Ids(batch), error, |Ids(batch)|)
    {
      ghost var before := States(accepted);
      for i := 0 to |batch|
        invariant States(accepted) == Reject(before, Ids(batch), error, i)
      {
        assert Holds(batch[i]) && Ids(batch)[i] == batch[i].future.id;
        assert batch[i].future.state == States(accepted)[batch[i].future.id];
        if batch[i].future.state.Waiting? {
          SetState(batch[i], Failed(error));
        }
      }
    }

    /** The handler came back with outputs for batch `b`. */
    method Deliver(batch: seq<Pending>, outputs: seq<Output>, ghost b: nat)
      requires Valid() && Owns(batch) && b < |batches| && batches[b] == Batch(Ids(batch), Running)
      modifies this, Futures()
      ensures Valid() && View() == Step(old(View()), HandlerReturned(b, outputs))
      ensures accepted == old(accepted) && pending == old(pending)
    {
      StepKeepsInv(View(), HandlerReturned(b, outputs));
      hide Inv, ItemsKnown, Resolve, Shorter;
      ResolveAll(batch, outputs);
      batches := batches[b := Batch(Ids(batch), Returned(outputs))];
    }

    /** The handler raised: every waiter of batch `b` hears it. */
    method DeliverError(batch: seq<Pending>, error: Error, ghost b: nat)
      requires Valid() && Owns(batch) && b < |batches| && batches[b] == Batch(Ids(batch), Running)
      modifies this, Futures()
      ensures Valid() && View() == Step(old(View()), HandlerRaised(b, error))
      ensures accepted == old(accepted) && pending == old(pending)
    {
      StepKeepsInv(View(), HandlerRaised(b, error));
      hide Inv, ItemsKnown, Reject;
      RejectAll(batch, error);
      batches := batches[b := Batch(Ids(batch), Raised(error))];
    }

    /** Up to the point where the last batch's handler starts. */
    method Shutdown() returns (batch: seq<Pending>)
      requires Valid()
      modifies this
      ensures Valid() && View() == Step(old(View()), Event.Shutdown)
      ensures batch == old(pending) && pending == [] && accepted == old(accepted)
    {
      ghost var before := View();
      StepKeepsInv(before, Event.Shutdown);
      hide Inv, ItemsKnown;
      stopping := true;
      batchFull := true;
      batch := pending;
      pending := [];
      batchFull := false;
      if |batch| == 0 {
        return;
      }
      batchesProcessed := batchesProcessed + 1;
      batches := batches + [Batch(Ids(batch), Running)];
    }
  }
}
