/**
 * From which confidence on an answer is acted upon rather than handed over. A
 * record is any type with a confidence signal and a correctness mark.
 */
module Threshold {
  import opened Prelude
  import opened Sorting

  function Tally<T>(xs: seq<T>, p: T -> bool): (n: nat)
    ensures n <= |xs|
  {
    if xs == [] then 0 else (if p(xs[0]) then 1 else 0) + Tally(xs[1..], p)
  }

  function AtLeast<T>(signal: T -> real, x: real): T -> bool {
    r => signal(r) >= x
  }

  function RightAtLeast<T>(signal: T -> real, correct: T -> bool, x: real): T -> bool {
    r => signal(r) >= x && correct(r)
  }

  function KeptCount<T>(records: seq<T>, signal: T -> real, x: real): nat {
    Tally(records, AtLeast(signal, x))
  }

  function RightCount<T>(records: seq<T>, signal: T -> real, correct: T -> bool, x: real): nat {
    Tally(records, RightAtLeast(signal, correct, x))
  }

  /** Enough answers are kept at threshold `x`, and few enough of them are wrong. */
  predicate MeetsTarget(kept: nat, right: nat, target: real, minKept: int) {
    kept >= 1 && kept >= minKept && 1.0 - right as real / kept as real <= target
  }

  predicate Feasible<T>(records: seq<T>, signal: T -> real, correct: T -> bool, target: real, minKept: int, x: real) {
    MeetsTarget(KeptCount(records, signal, x), RightCount(records, signal, correct, x), target, minKept)
  }

  ghost predicate IsSignal<T>(records: seq<T>, signal: T -> real, v: real) {
    exists r :: r in records && signal(r) == v
  }

  ghost predicate Descending<T>(xs: seq<T>, signal: T -> real) {
    forall i, j | 0 <= i < j < |xs| :: signal(xs[i]) >= signal(xs[j])
  }

  function Falling<T>(signal: T -> real): T -> real {
    r => -signal(r)
  }

  /** `sorted(records, key=signal, reverse=True)`: descending, equal signals in their original order. */
  function Ranked<T>(records: seq<T>, signal: T -> real): seq<T> {
    SortBy(records, Falling(signal))
  }

  // ------------------------------------------------------- counting and order

  lemma {:induction false} TallyAppend<T>(xs: seq<T>, x: T, p: T -> bool)
    ensures Tally(xs + [x], p) == Tally(xs, p) + (if p(x) then 1 else 0)
  {
    if xs != [] {
      assert (xs + [x])[1..] == xs[1..] + [x];
      TallyAppend(xs[1..], x, p);
    }
  }

  lemma {:induction false} TallyInsert<T>(x: T, xs: seq<T>, key: T -> real, p: T -> bool)
    ensures Tally(Insert(x, xs, key), p) == Tally(xs, p) + (if p(x) then 1 else 0)
  {
    if xs == [] {
    } else if key(x) <= key(xs[0]) {
      assert ([x] + xs)[1..] == xs;
    } else {
      TallyInsert(x, xs[1..], key, p);
      assert Insert(x, xs, key)[1..] == Insert(x, xs[1..], key);
    }
  }

  lemma {:induction false} TallySort<T>(xs: seq<T>, key: T -> real, p: T -> bool)
    ensures Tally(SortBy(xs, key), p) == Tally(xs, p)
  {
    if xs != [] {
      TallySort(xs[1..], key, p);
      TallyInsert(xs[0], SortBy(xs[1..], key), key, p);
    }
  }

  lemma {:induction false} RankedShape<T>(records: seq<T>, signal: T -> real, correct: T -> bool)
    ensures Descending(Ranked(records, signal), signal)
    ensures forall x :: KeptCount(Ranked(records, signal), signal, x) == KeptCount(records, signal, x)
    ensures forall x ::
              RightCount(Ranked(records, signal), signal, correct, x) == RightCount(records, signal, correct, x)
    ensures forall r :: r in Ranked(records, signal) <==> r in records
  {
    SortBySorted(records, Falling(signal));
    forall x
      ensures KeptCount(Ranked(records, signal), signal, x) == KeptCount(records, signal, x)
      ensures RightCount(Ranked(records, signal), signal, correct, x) == RightCount(records, signal, correct, x)
    {
      TallySort(records, Falling(signal), AtLeast(signal, x));
      TallySort(records, Falling(signal), RightAtLeast(signal, correct, x));
    }
    forall r ensures r in Ranked(records, signal) <==> r in records {
      SameElement(Ranked(records, signal), records, r);
    }
  }

  lemma {:induction false} RankedFeasible<T>(records: seq<T>, signal: T -> real, correct: T -> bool, target: real,
                                             minKept: int, x: real)
    ensures Feasible(Ranked(records, signal), signal, correct, target, minKept, x)
            <==> Feasible(records, signal, correct, target, minKept, x)
  {
    RankedShape(records, signal, correct);
    hide KeptCount, RightCount, MeetsTarget, Ranked;
  }

  /** Position `i` is the end of a run of equal signals. */
  ghost predicate Boundary<T>(ranked: seq<T>, signal: T -> real, i: nat) {
    i <= |ranked| && (0 < i < |ranked| ==> signal(ranked[i - 1]) > signal(ranked[i]))
  }

  /** A threshold at the last value before a boundary keeps exactly the records before it. */
  lemma {:induction false} KeptIsPrefix<T>(ranked: seq<T>, signal: T -> real, correct: T -> bool, i: nat)
    requires Descending(ranked, signal) && 0 < i && Boundary(ranked, signal, i)
    ensures KeptCount(ranked, signal, signal(ranked[i - 1])) == i
    ensures RightCount(ranked, signal, correct, signal(ranked[i - 1])) == Tally(ranked[..i], correct)
  {
    var x := signal(ranked[i - 1]);
    TallyPrefix(ranked, AtLeast(signal, x), r => true, i);
    TallyPrefix(ranked, RightAtLeast(signal, correct, x), correct, i);
    TallyAll(ranked[..i]);
  }

  lemma {:induction false} PrefixFeasible<T>(ranked: seq<T>, signal: T -> real, correct: T -> bool, target: real,
                                             minKept: int, i: nat)
    requires Descending(ranked, signal) && 0 < i && Boundary(ranked, signal, i)
    ensures Feasible(ranked, signal, correct, target, minKept, signal(ranked[i - 1]))
            <==> MeetsTarget(i, Tally(ranked[..i], correct), target, minKept)
  {
    KeptIsPrefix(ranked, signal, correct, i);
    hide KeptCount, RightCount, MeetsTarget;
  }

  lemma {:induction false} TallyAll<T>(xs: seq<T>)
    ensures Tally(xs, r => true) == |xs|
  {
    if xs != [] {
      TallyAll(xs[1..]);
    }
  }

  lemma {:induction false} TallyPrefix<T>(xs: seq<T>, p: T -> bool, q: T -> bool, i: nat)
    requires i <= |xs|
    requires forall j | 0 <= j < i :: p(xs[j]) == q(xs[j])
    requires forall j | i <= j < |xs| :: !p(xs[j])
    ensures Tally(xs, p) == Tally(xs[..i], q)
  {
    if xs != [] {
      if i == 0 {
        TallyPrefix(xs[1..], p, q, 0);
      } else {
        TallyPrefix(xs[1..], p, q, i - 1);
        assert xs[..i][1..] == xs[1..][..i - 1];
      }
    }
  }

  // ------------------------------------------------------------ the one pass

  /** `best` is the lowest feasible value among the first `i` ranked records. */
  ghost predicate BestSoFar<T>(ranked: seq<T>, signal: T -> real, correct: T -> bool, target: real, minKept: int,
                               i: nat, best: Option<real>)
    requires i <= |ranked|
  {
    && (best.Some? ==>
          && (exists j :: 0 <= j < i && signal(ranked[j]) == best.value)
          && Feasible(ranked, signal, correct, target, minKept, best.value))
    && (forall j | 0 <= j < i && Feasible(ranked, signal, correct, target, minKept, signal(ranked[j])) ::
          best.Some? && best.value <= signal(ranked[j]))
  }

  /**
   * A feasible signal value, no higher than any other, whose kept records
   * include those kept by any feasible threshold whatever.
   */
  ghost predicate LowestFeasible<T>(records: seq<T>, signal: T -> real, correct: T -> bool, target: real, minKept: int,
                                    best: real)
  {
    && IsSignal(records, signal, best)
    && Feasible(records, signal, correct, target, minKept, best)
    && (forall v | IsSignal(records, signal, v) && Feasible(records, signal, correct, target, minKept, v) :: best <= v)
    && (forall x | Feasible(records, signal, correct, target, minKept, x) :: KeepsAtLeast(records, signal, best, x))
  }

  /** Threshold `low` keeps every record that threshold `high` keeps. */
  ghost predicate KeepsAtLeast<T>(records: seq<T>, signal: T -> real, low: real, high: real) {
    forall r | r in records && signal(r) >= high :: signal(r) >= low
  }

  method FitThreshold<T>(records: seq<T>, signal: T -> real, correct: T -> bool, target: real, minKept: int)
    returns (best: Option<real>)
    ensures best.Some? ==> LowestFeasible(records, signal, correct, target, minKept, best.value)
    ensures best.None? <==> forall x :: !Feasible(records, signal, correct, target, minKept, x)
  {
    hide Feasible, BestSoFar, LowestFeasible, Ranked, Tally;
    var ranked := Ranked(records, signal);
    RankedShape(records, signal, correct);
    EmptyBest(ranked, signal, correct, target, minKept);
    best := None;
    var kept, right := 0, 0;
    var i := 0;
    while i < |ranked|
      invariant i <= |ranked| && Boundary(ranked, signal, i)
      invariant kept == i && right == Tally(ranked[..i], correct)
      invariant BestSoFar(ranked, signal, correct, target, minKept, i, best)
    {
      var value := signal(ranked[i]);
      ghost var from := i;
      while i < |ranked| && signal(ranked[i]) == value
        invariant from <= i <= |ranked|
        invariant i == from ==> i < |ranked| && signal(ranked[i]) == value
        invariant forall j | from <= j < i :: signal(ranked[j]) == value
        invariant kept == i && right == Tally(ranked[..i], correct)
      {
        TakeOneMore(ranked, i);
        TallyAppend(ranked[..i], ranked[i], correct);
        right := right + (if correct(ranked[i]) then 1 else 0);
        kept := kept + 1;
        i := i + 1;
      }
      PrefixFeasible(ranked, signal, correct, target, minKept, i);
      var better := kept >= minKept && 1.0 - right as real / kept as real <= target;
      NextBest(ranked, signal, correct, target, minKept, from, i, best, better);
      if better {
        best := Some(value);
      }
    }
    BestOverall(records, ranked, signal, correct, target, minKept, best);
  }

  lemma {:induction false} EmptyBest<T>(ranked: seq<T>, signal: T -> real, correct: T -> bool, target: real,
                                        minKept: int)
    ensures BestSoFar(ranked, signal, correct, target, minKept, 0, None)
  {
  }

  /** One run of equal values: the loop's update keeps `best` the lowest feasible value. */
  lemma {:induction false} NextBest<T>(ranked: seq<T>, signal: T -> real, correct: T -> bool, target: real,
                                       minKept: int,
                    from: nat, i: nat, best: Option<real>, better: bool)
    requires Descending(ranked, signal) && from < i <= |ranked|
    requires forall j | from <= j < i :: signal(ranked[j]) == signal(ranked[from])
    requires BestSoFar(ranked, signal, correct, target, minKept, from, best)
    requires better <==> Feasible(ranked, signal, correct, target, minKept, signal(ranked[from]))
    ensures BestSoFar(ranked, signal, correct, target, minKept, i, if better then Some(signal(ranked[from])) else best)
  {
    hide Feasible;
  }

  /** Any feasible threshold can be raised to the next signal value without changing what it keeps. */
  lemma {:induction false} NextSignal<T>(ranked: seq<T>, signal: T -> real, correct: T -> bool, x: real, i: nat)
    returns (j: nat)
    requires Descending(ranked, signal) && i <= |ranked| && (forall k | i <= k < |ranked| :: signal(ranked[k]) < x)
    requires KeptCount(ranked, signal, x) >= 1
    ensures j < i && signal(ranked[j]) >= x && (forall k | j < k < |ranked| :: signal(ranked[k]) < x)
    ensures KeptCount(ranked, signal, signal(ranked[j])) == KeptCount(ranked, signal, x)
    ensures RightCount(ranked, signal, correct, signal(ranked[j])) == RightCount(ranked, signal, correct, x)
  {
    if i == 0 {
      TallyPrefix(ranked, AtLeast(signal, x), r => true, 0);
      assert false;
    } else if signal(ranked[i - 1]) < x {
      j := NextSignal(ranked, signal, correct, x, i - 1);
    } else {
      j := i - 1;
      var v := signal(ranked[j]);
      TallySame(ranked, AtLeast(signal, x), AtLeast(signal, v));
      TallySame(ranked, RightAtLeast(signal, correct, x), RightAtLeast(signal, correct, v));
    }
  }

  lemma {:induction false} TallySame<T>(xs: seq<T>, p: T -> bool, q: T -> bool)
    requires forall j | 0 <= j < |xs| :: p(xs[j]) == q(xs[j])
    ensures Tally(xs, p) == Tally(xs, q)
  {
    if xs != [] {
      TallySame(xs[1..], p, q);
    }
  }

  lemma {:induction false} BestOverall<T>(records: seq<T>, ranked: seq<T>, signal: T -> real, correct: T -> bool,
                                          target: real,
                       minKept: int, best: Option<real>)
    requires ranked == Ranked(records, signal)
    requires BestSoFar(ranked, signal, correct, target, minKept, |ranked|, best)
    ensures best.Some? ==> LowestFeasible(records, signal, correct, target, minKept, best.value)
    ensures best.None? <==> forall x :: !Feasible(records, signal, correct, target, minKept, x)
  {
    RankedShape(records, signal, correct);
    forall x ensures Feasible(ranked, signal, correct, target, minKept, x)
                     <==> Feasible(records, signal, correct, target, minKept, x) {
      RankedFeasible(records, signal, correct, target, minKept, x);
    }
    forall x | Feasible(records, signal, correct, target, minKept, x)
      ensures best.Some? && KeepsAtLeast(records, signal, best.value, x)
    {
      BestKeepsMost(ranked, signal, correct, target, minKept, best, x);
      hide Feasible, Ranked, BestSoFar;
    }
    hide Feasible, Ranked, KeepsAtLeast;
  }

  lemma {:induction false} BestKeepsMost<T>(ranked: seq<T>, signal: T -> real, correct: T -> bool, target: real,
                                            minKept: int,
                         best: Option<real>, x: real)
    requires Descending(ranked, signal)
    requires BestSoFar(ranked, signal, correct, target, minKept, |ranked|, best)
    requires Feasible(ranked, signal, correct, target, minKept, x)
    ensures best.Some? && KeepsAtLeast(ranked, signal, best.value, x)
  {
    var j := NextSignal(ranked, signal, correct, x, |ranked|);
    assert Feasible(ranked, signal, correct, target, minKept, signal(ranked[j]));
    hide Feasible;
  }

  // ------------------------------------------------------------- the sweep

  datatype SweepPoint = SweepPoint(threshold: real, kept: nat, total: nat, accuracy: real)

  function PointAt<T>(records: seq<T>, signal: T -> real, correct: T -> bool, x: real): SweepPoint {
    var kept := KeptCount(records, signal, x);
    SweepPoint(x, kept, |records|,
      if kept == 0 then 0.0 else RightCount(records, signal, correct, x) as real / kept as real)
  }

  /** The accuracy is the share of the kept that are right, and nothing when none is kept. */
  predicate ShareOf(p: SweepPoint, total: nat, right: nat) {
    && p.total == total && (p.kept == 0 ==> p.accuracy == 0.0)
    && (p.kept > 0 ==> p.accuracy * p.kept as real == right as real)
  }

  function Same(x: real): real { x }

  method Sweep<T>(records: seq<T>, thresholds: seq<real>, signal: T -> real, correct: T -> bool)
    returns (points: seq<SweepPoint>)
    ensures |points| == |thresholds|
    ensures multiset(seq(|points|, i requires 0 <= i < |points| => points[i].threshold)) == multiset(thresholds)
    ensures forall i, j | 0 <= i < j < |points| ::
              points[i].threshold <= points[j].threshold && points[i].kept >= points[j].kept
    ensures forall i | 0 <= i < |points| :: points[i] == PointAt(records, signal, correct, points[i].threshold)
    ensures forall i | 0 <= i < |points| ::
              && points[i].kept == KeptCount(records, signal, points[i].threshold)
              && ShareOf(points[i], |records|, RightCount(records, signal, correct, points[i].threshold))
  {
    hide KeptCount, RightCount, PointAt;
    var sorted := SortBy(thresholds, Same);
    SortBySorted(thresholds, Same);
    points := [];
    for i := 0 to |sorted|
      invariant |points| == i
      invariant forall j | 0 <= j < i ::
                  && points[j] == PointAt(records, signal, correct, sorted[j]) && points[j].threshold == sorted[j]
                  && points[j].kept == KeptCount(records, signal, sorted[j])
                  && ShareOf(points[j], |records|, RightCount(records, signal, correct, sorted[j]))
    {
      var kept, right := KeptCount(records, signal, sorted[i]), RightCount(records, signal, correct, sorted[i]);
      var accuracy := if kept == 0 then 0.0 else right as real / kept as real;
      AccuracyIsShare(records, signal, correct, sorted[i]);
      points := points + [SweepPoint(sorted[i], kept, |records|, accuracy)];
    }
    assert seq(|points|, i requires 0 <= i < |points| => points[i].threshold) == sorted;
    forall i, j | 0 <= i < j < |points| ensures points[i].kept >= points[j].kept {
      CoverageFalls(records, signal, sorted[i], sorted[j]);
    }
  }

  lemma {:induction false} AccuracyIsShare<T>(records: seq<T>, signal: T -> real, correct: T -> bool, x: real)
    ensures var kept, right := KeptCount(records, signal, x), RightCount(records, signal, correct, x);
            && PointAt(records, signal, correct, x)
               == SweepPoint(x, kept, |records|, if kept == 0 then 0.0 else right as real / kept as real)
            && ShareOf(PointAt(records, signal, correct, x), |records|, right)
  {
    hide KeptCount, RightCount;
  }

  /** A record counts as kept exactly from its own signal down, and as right if it is kept and correct. */
  lemma {:induction false} CountsAddUp<T>(records: seq<T>, signal: T -> real, correct: T -> bool, x: real, r: T)
    ensures KeptCount([], signal, x) == 0 && RightCount([], signal, correct, x) == 0
    ensures KeptCount(records + [r], signal, x) == KeptCount(records, signal, x) + (if signal(r) >= x then 1 else 0)
    ensures RightCount(records + [r], signal, correct, x)
            == RightCount(records, signal, correct, x) + (if signal(r) >= x && correct(r) then 1 else 0)
  {
    TallyAppend(records, r, AtLeast(signal, x));
    TallyAppend(records, r, RightAtLeast(signal, correct, x));
  }

  /** A higher threshold never keeps more. */
  lemma {:induction false} CoverageFalls<T>(records: seq<T>, signal: T -> real, low: real, high: real)
    requires low <= high
    ensures KeptCount(records, signal, low) >= KeptCount(records, signal, high)
  {
    if records != [] {
      CoverageFalls(records[1..], signal, low, high);
    }
  }

  /** The fit agrees with brute force over the sweep: a sweep point meets the target iff its threshold is feasible. */
  lemma {:induction false} SweepDecides<T>(records: seq<T>, signal: T -> real, correct: T -> bool, target: real,
                                           minKept: int, x: real)
    ensures var p := PointAt(records, signal, correct, x);
            Feasible(records, signal, correct, target, minKept, x)
            <==> p.kept >= 1 && p.kept >= minKept && 1.0 - p.accuracy <= target
  {
  }
}
