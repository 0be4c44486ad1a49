/**
 * From a draft plan to a plan in seconds. The length of every cited excerpt is
 * divided over its beats by largest remainder; a beat's target is then capped by
 * what its own part of the text can carry.
 */
module Apportion {
  import opened Prelude
  import opened LargestRemainder

  datatype DraftBeat = DraftBeat(title: string, intent: string, excerptIds: seq<string>, weight: real)

  datatype PlannedBeat = PlannedBeat(title: string, intent: string, excerptIds: seq<string>, weight: real,
                                     targetSeconds: real, allocatedCharacters: int)

  datatype Budget = Budget(requestedSeconds: real, expansionFactor: real, charsPerSecond: real)

  datatype Shortfall = Shortfall(seconds: real, thinBeats: seq<string>)

  datatype Plan = Plan(beats: seq<PlannedBeat>, plannedSeconds: real, shortfall: Option<Shortfall>)

  datatype PlanError = LengthMismatch | NoSupportingText

  /** What the plan schema and the budget check establish before this stage. */
  ghost predicate ValidInput(beats: seq<DraftBeat>, budget: Budget) {
    && (forall b | 0 <= b < |beats| :: beats[b].weight > 0.0)
    && budget.requestedSeconds > 0.0 && budget.expansionFactor > 0.0 && budget.charsPerSecond > 0.0
  }

  // ------------------------------------------------------ who cites a passage

  /** The first `n` beats that cite `id`, in draft order. */
  function Citing(beats: seq<DraftBeat>, id: string, n: nat): (r: seq<nat>)
    requires n <= |beats|
    ensures forall k | 0 <= k < |r| :: r[k] < n && id in beats[r[k]].excerptIds
    ensures forall k, l | 0 <= k < l < |r| :: r[k] < r[l]
    ensures forall b | 0 <= b < n && id in beats[b].excerptIds :: b in r
  {
    if n == 0 then []
    else
      var earlier := Citing(beats, id, n - 1);
      if id in beats[n - 1].excerptIds then earlier + [n - 1] else earlier
  }

  function WeightsOf(beats: seq<DraftBeat>, citing: seq<nat>): (r: seq<real>)
    requires forall k | 0 <= k < |citing| :: citing[k] < |beats|
    ensures |r| == |citing|
    ensures forall k | 0 <= k < |r| :: r[k] == beats[citing[k]].weight
  {
    seq(|citing|, k requires 0 <= k < |citing| => beats[citing[k]].weight)
  }

  /** Adds each share to the beat it belongs to. */
  function AddShares(totals: seq<int>, citing: seq<nat>, shares: seq<int>): (r: seq<int>)
    requires |citing| == |shares| && forall k | 0 <= k < |citing| :: citing[k] < |totals|
    ensures |r| == |totals|
    decreases |citing|
  {
    if citing == [] then totals
    else AddShares(totals[citing[0] := totals[citing[0]] + shares[0]], citing[1..], shares[1..])
  }

  lemma {:induction false} AddSharesSum(totals: seq<int>, citing: seq<nat>, shares: seq<int>)
    requires |citing| == |shares| && forall k | 0 <= k < |citing| :: citing[k] < |totals|
    ensures SumInt(AddShares(totals, citing, shares)) == SumInt(totals) + SumFrom(shares, 0)
    decreases |citing|
  {
    if citing != [] {
      var b := citing[0];
      SumIntUpdate(totals, b, totals[b] + shares[0]);
      AddSharesSum(totals[b := totals[b] + shares[0]], citing[1..], shares[1..]);
      SumFromShift(shares, 1);
    }
  }

  /** The sum read from the front. */
  ghost function SumFrom(xs: seq<int>, i: nat): int
    requires i <= |xs|
    decreases |xs| - i
  {
    if i == |xs| then 0 else xs[i] + SumFrom(xs, i + 1)
  }

  lemma {:induction false} SumFromShift(xs: seq<int>, i: nat)
    requires 1 <= i <= |xs|
    ensures SumFrom(xs[1..], i - 1) == SumFrom(xs, i)
    decreases |xs| - i
  {
    if i < |xs| { SumFromShift(xs, i + 1); }
  }

  lemma {:induction false} SumFromIsSum(xs: seq<int>, i: nat)
    requires i <= |xs|
    ensures SumInt(xs) == SumInt(xs[..i]) + SumFrom(xs, i)
    decreases |xs| - i
  {
    if i == |xs| {
      assert xs[..i] == xs;
    } else {
      SumFromIsSum(xs, i + 1);
      TakeOneMore(xs, i);
      SumIntSnoc(xs[..i], xs[i]);
    }
  }

  /** A beat outside the list is not touched; shares are only ever added. */
  lemma {:induction false} AddSharesAt(totals: seq<int>, citing: seq<nat>, shares: seq<int>, b: nat)
    requires |citing| == |shares| && forall k | 0 <= k < |citing| :: citing[k] < |totals|
    requires b < |totals| && forall k | 0 <= k < |shares| :: shares[k] >= 0
    ensures AddShares(totals, citing, shares)[b] >= totals[b]
    ensures b !in citing ==> AddShares(totals, citing, shares)[b] == totals[b]
    decreases |citing|
  {
    if citing != [] {
      var first := citing[0];
      AddSharesAt(totals[first := totals[first] + shares[0]], citing[1..], shares[1..], b);
      assert b !in citing ==> b != first && b !in citing[1..];
    }
  }

  // -------------------------------------------------- what every beat receives

  /** The allocation after the first `p` passages. */
  function AllocatedUpTo(beats: seq<DraftBeat>, excerpts: seq<string>, ids: seq<string>, p: nat): (r: seq<int>)
    requires p <= |ids| == |excerpts|
    ensures |r| == |beats|
  {
    if p == 0 then seq(|beats|, _ => 0)
    else Allocate(AllocatedUpTo(beats, excerpts, ids, p - 1), beats, ids[p - 1], |excerpts[p - 1]|)
  }

  /** One passage: nothing changes when no beat cites it or it is empty. */
  function Allocate(totals: seq<int>, beats: seq<DraftBeat>, id: string, characters: nat): (r: seq<int>)
    requires |totals| == |beats|
    ensures |r| == |beats|
  {
    var citing := Citing(beats, id, |beats|);
    if citing == [] || characters == 0 then totals
    else AddShares(totals, citing, SplitOf(characters, WeightsOf(beats, citing)))
  }

  ghost predicate IsCited(beats: seq<DraftBeat>, id: string) {
    exists b :: 0 <= b < |beats| && id in beats[b].excerptIds
  }

  /** The total length of the first `p` passages that at least one beat cites. */
  ghost function CitedCharacters(beats: seq<DraftBeat>, excerpts: seq<string>, ids: seq<string>, p: nat): nat
    requires p <= |ids| == |excerpts|
  {
    if p == 0 then 0
    else CitedCharacters(beats, excerpts, ids, p - 1) + (if IsCited(beats, ids[p - 1]) then |excerpts[p - 1]| else 0)
  }

  /** The total length of the first `p` passages that beat `b` itself cites. */
  ghost function OwnCharacters(beats: seq<DraftBeat>, excerpts: seq<string>, ids: seq<string>, p: nat, b: nat): nat
    requires p <= |ids| == |excerpts| && b < |beats|
  {
    if p == 0 then 0
    else OwnCharacters(beats, excerpts, ids, p - 1, b)
         + (if ids[p - 1] in beats[b].excerptIds then |excerpts[p - 1]| else 0)
  }

  lemma {:induction false} PositiveSum(ws: seq<real>)
    requires forall i | 0 <= i < |ws| :: ws[i] > 0.0
    ensures ws != [] ==> SumReal(ws) > 0.0
    ensures SumReal(ws) >= 0.0
  {
    if ws != [] { PositiveSum(ws[..|ws| - 1]); }
  }

  /** One cited passage adds exactly its length to the total, and only to beats that cite it. */
  lemma AllocateConserves(totals: seq<int>, beats: seq<DraftBeat>, id: string, characters: nat)
    requires |totals| == |beats| && forall b | 0 <= b < |beats| :: beats[b].weight > 0.0
    ensures var after := Allocate(totals, beats, id, characters);
            && SumInt(after) == SumInt(totals) + (if IsCited(beats, id) then characters else 0)
            && (forall b | 0 <= b < |beats| :: after[b] >= totals[b])
            && (forall b | 0 <= b < |beats| && id !in beats[b].excerptIds :: after[b] == totals[b])
  {
    var citing := Citing(beats, id, |beats|);
    if citing != [] && characters != 0 {
      var weights := WeightsOf(beats, citing);
      var shares := SplitOf(characters, weights);
      SplitObeysLaw(characters, weights);
      PositiveSum(weights);
      AddSharesSum(totals, citing, shares);
      SumFromIsSum(shares, 0);
      assert citing[0] in citing && id in beats[citing[0]].excerptIds;
      forall k | 0 <= k < |shares| ensures shares[k] >= 0 { SharesNonnegative(characters, weights, shares, k); }
      forall b | 0 <= b < |beats|
        ensures AddShares(totals, citing, shares)[b] >= totals[b]
        ensures id !in beats[b].excerptIds ==> AddShares(totals, citing, shares)[b] == totals[b]
      {
        AddSharesAt(totals, citing, shares, b);
      }
    }
  }

  lemma {:induction false} ZeroSum(n: nat)
    ensures SumInt(seq(n, _ => 0)) == 0
  {
    if n > 0 {
      ZeroSum(n - 1);
      assert seq(n, _ => 0)[..n - 1] == seq(n - 1, _ => 0);
    }
  }

  /**
   * Conservation. However often and by however many beats a passage is cited,
   * the characters allocated over all beats are exactly the total length of
   * the passages cited by at least one beat.
   */
  lemma {:induction false} CharactersConserved(beats: seq<DraftBeat>, excerpts: seq<string>, ids: seq<string>, p: nat)
    requires p <= |ids| == |excerpts| && forall b | 0 <= b < |beats| :: beats[b].weight > 0.0
    ensures SumInt(AllocatedUpTo(beats, excerpts, ids, p)) == CitedCharacters(beats, excerpts, ids, p)
  {
    hide Allocate, IsCited, SumInt;
    if p == 0 {
      ZeroSum(|beats|);
    } else {
      CharactersConserved(beats, excerpts, ids, p - 1);
      AllocateConserves(AllocatedUpTo(beats, excerpts, ids, p - 1), beats, ids[p - 1], |excerpts[p - 1]|);
    }
  }

  lemma {:induction false} AddedAtMost(totals: seq<int>, after: seq<int>, b: nat)
    requires |totals| == |after| && b < |totals| && forall i | 0 <= i < |totals| :: totals[i] <= after[i]
    ensures after[b] - totals[b] <= SumInt(after) - SumInt(totals)
  {
    var n := |totals| - 1;
    if b < n {
      AddedAtMost(totals[..n], after[..n], b);
    } else {
      SumsCompare(totals[..n], after[..n]);
    }
  }

  /** A beat never receives more characters than the passages it cites hold. */
  lemma {:induction false} OwnMaterialOnly(beats: seq<DraftBeat>, excerpts: seq<string>, ids: seq<string>, p: nat,
                                           b: nat)
    requires p <= |ids| == |excerpts| && b < |beats| && forall b | 0 <= b < |beats| :: beats[b].weight > 0.0
    ensures 0 <= AllocatedUpTo(beats, excerpts, ids, p)[b] <= OwnCharacters(beats, excerpts, ids, p, b)
  {
    hide Allocate;
    if p > 0 {
      OwnMaterialOnly(beats, excerpts, ids, p - 1, b);
      var totals := AllocatedUpTo(beats, excerpts, ids, p - 1);
      AllocateConserves(totals, beats, ids[p - 1], |excerpts[p - 1]|);
      AddedAtMost(totals, Allocate(totals, beats, ids[p - 1], |excerpts[p - 1]|), b);
    }
  }

  // -------------------------------------------------------------- the seconds

  function Desired(requested: real, weight: real, totalWeight: real): real
    requires totalWeight != 0.0
  {
    requested * weight / totalWeight
  }

  function Supportable(budget: Budget, characters: int): real
    requires budget.charsPerSecond != 0.0
  {
    budget.expansionFactor * characters as real / budget.charsPerSecond
  }

  /** First occurrences, in order: the members of a `Set` built from the list. */
  function Deduplicated(ids: seq<string>): seq<string> {
    if ids == [] then []
    else
      var earlier := Deduplicated(ids[..|ids| - 1]);
      if ids[|ids| - 1] in earlier then earlier else earlier + [ids[|ids| - 1]]
  }

  function TotalWeight(beats: seq<DraftBeat>): real {
    SumReal(WeightsUpTo(beats, |beats|))
  }

  function WeightsUpTo(beats: seq<DraftBeat>, n: nat): (r: seq<real>)
    requires n <= |beats|
    ensures |r| == n && forall i | 0 <= i < n :: r[i] == beats[i].weight
  {
    seq(n, i requires 0 <= i < n => beats[i].weight)
  }

  function Planned(beat: DraftBeat, characters: int, budget: Budget, totalWeight: real): PlannedBeat
    requires totalWeight != 0.0 && budget.charsPerSecond != 0.0
  {
    PlannedBeat(beat.title, beat.intent, Deduplicated(beat.excerptIds), beat.weight,
                Min(Desired(budget.requestedSeconds, beat.weight, totalWeight), Supportable(budget, characters)),
                characters)
  }

  /** The tolerance, relative to what was desired. */
  function Slack(desired: real, epsilon: real): real { desired * epsilon }

  predicate IsThin(beat: DraftBeat, characters: int, budget: Budget, totalWeight: real, epsilon: real)
    requires totalWeight != 0.0 && budget.charsPerSecond != 0.0
  {
    var desired := Desired(budget.requestedSeconds, beat.weight, totalWeight);
    desired - Supportable(budget, characters) > Slack(desired, epsilon)
  }

  function PlannedUpTo(beats: seq<DraftBeat>, characters: seq<int>, budget: Budget, totalWeight: real, n: nat)
    : (r: seq<PlannedBeat>)
    requires n <= |beats| == |characters| && (n > 0 ==> totalWeight != 0.0) && budget.charsPerSecond != 0.0
    ensures |r| == n
    ensures forall b | 0 <= b < n :: r[b] == Planned(beats[b], characters[b], budget, totalWeight)
  {
    if n == 0 then []
    else PlannedUpTo(beats, characters, budget, totalWeight, n - 1)
         + [Planned(beats[n - 1], characters[n - 1], budget, totalWeight)]
  }

  function ThinUpTo(beats: seq<DraftBeat>, characters: seq<int>, budget: Budget, totalWeight: real, epsilon: real,
                    n: nat): seq<string>
    requires n <= |beats| == |characters| && (n > 0 ==> totalWeight != 0.0) && budget.charsPerSecond != 0.0
  {
    if n == 0 then []
    else
      var earlier := ThinUpTo(beats, characters, budget, totalWeight, epsilon, n - 1);
      if IsThin(beats[n - 1], characters[n - 1], budget, totalWeight, epsilon)
      then earlier + [beats[n - 1].title]
      else earlier
  }

  function TargetSum(beats: seq<PlannedBeat>): real {
    if beats == [] then 0.0 else TargetSum(beats[..|beats| - 1]) + beats[|beats| - 1].targetSeconds
  }

  /** The plan as a function of its inputs. `epsilon` is the relative tolerance for calling a beat thin. */
  ghost function PlanOf(beats: seq<DraftBeat>, excerpts: seq<string>, ids: seq<string>, budget: Budget, epsilon: real)
    : Result<Plan, PlanError>
    requires ValidInput(beats, budget)
  {
    if |excerpts| != |ids| then Err(LengthMismatch)
    else
      var characters := AllocatedUpTo(beats, excerpts, ids, |ids|);
      var total := TotalWeight(beats);
      PositiveSum(WeightsUpTo(beats, |beats|));
      var planned := PlannedUpTo(beats, characters, budget, total, |beats|);
      var thin := ThinUpTo(beats, characters, budget, total, epsilon, |beats|);
      var seconds := Min(TargetSum(planned), budget.requestedSeconds);
      if seconds <= 0.0 then Err(NoSupportingText)
      else
        var gap := budget.requestedSeconds - seconds;
        Ok(Plan(planned, seconds, if thin == [] then None else Some(Shortfall(if gap > 0.0 then gap else 0.0, thin))))
  }

  method AddEach(totals: seq<int>, citing: seq<nat>, shares: seq<int>) returns (r: seq<int>)
    requires |citing| == |shares| && forall k | 0 <= k < |citing| :: citing[k] < |totals|
    ensures r == AddShares(totals, citing, shares)
  {
    r := totals;
    var k := 0;
    while k < |citing|
      invariant 0 <= k <= |citing| && |r| == |totals|
      invariant AddShares(r, citing[k..], shares[k..]) == AddShares(totals, citing, shares)
    {
      assert citing[k..][1..] == citing[k + 1..] && shares[k..][1..] == shares[k + 1..];
      r := r[citing[k] := r[citing[k]] + shares[k]];
      k := k + 1;
    }
  }

  /** One passage: its shares are added to the beats that cite it. */
  method AllocatePassage(totals: seq<int>, beats: seq<DraftBeat>, id: string, characters: nat) returns (r: seq<int>)
    requires |totals| == |beats|
    ensures r == Allocate(totals, beats, id, characters)
  {
    hide SplitOf, AddShares, Splits;
    var citing := Citing(beats, id, |beats|);
    if citing == [] || characters == 0 {
      return totals;
    }
    var shares := AllocateCharacters(characters, WeightsOf(beats, citing));
    r := AddEach(totals, citing, shares);
  }

  method AllocateAll(beats: seq<DraftBeat>, excerpts: seq<string>, ids: seq<string>)
    returns (allocatedCharacters: seq<int>)
    requires |excerpts| == |ids|
    ensures allocatedCharacters == AllocatedUpTo(beats, excerpts, ids, |ids|)
  {
    hide Allocate;
    allocatedCharacters := seq(|beats|, _ => 0);
    var position := 0;
    while position < |ids|
      invariant 0 <= position <= |ids|
      invariant allocatedCharacters == AllocatedUpTo(beats, excerpts, ids, position)
    {
      allocatedCharacters := AllocatePassage(allocatedCharacters, beats, ids[position], |excerpts[position]|);
      position := position + 1;
    }
  }

  lemma BeatSpelled(beat: DraftBeat, characters: int, budget: Budget, totalWeight: real, epsilon: real)
    requires totalWeight != 0.0 && budget.charsPerSecond != 0.0
    ensures var desired := budget.requestedSeconds * beat.weight / totalWeight;
            var supportable := budget.expansionFactor * characters as real / budget.charsPerSecond;
            && (IsThin(beat, characters, budget, totalWeight, epsilon) <==> desired - supportable > desired * epsilon)
            && Planned(beat, characters, budget, totalWeight)
               == PlannedBeat(beat.title, beat.intent, Deduplicated(beat.excerptIds), beat.weight,
                              Min(desired, supportable), characters)
  {
    assert Desired(budget.requestedSeconds, beat.weight, totalWeight)
           == budget.requestedSeconds * beat.weight / totalWeight;
    assert Supportable(budget, characters) == budget.expansionFactor * characters as real / budget.charsPerSecond;
    hide Deduplicated, Min, Desired, Supportable;
  }

  method PlanBeats(beats: seq<DraftBeat>, allocatedCharacters: seq<int>, budget: Budget, totalWeight: real,
                   epsilon: real)
    returns (planned: seq<PlannedBeat>, thinBeats: seq<string>)
    requires |allocatedCharacters| == |beats| && (beats != [] ==> totalWeight != 0.0) && budget.charsPerSecond != 0.0
    ensures planned == PlannedUpTo(beats, allocatedCharacters, budget, totalWeight, |beats|)
    ensures thinBeats == ThinUpTo(beats, allocatedCharacters, budget, totalWeight, epsilon, |beats|)
  {
    hide Deduplicated, Planned, IsThin, Min;
    planned, thinBeats := [], [];
    var index := 0;
    while index < |beats|
      invariant 0 <= index <= |beats|
      invariant planned == PlannedUpTo(beats, allocatedCharacters, budget, totalWeight, index)
      invariant thinBeats == ThinUpTo(beats, allocatedCharacters, budget, totalWeight, epsilon, index)
    {
      var beat, characters := beats[index], allocatedCharacters[index];
      var desired := budget.requestedSeconds * beat.weight / totalWeight;
      var supportable := budget.expansionFactor * characters as real / budget.charsPerSecond;
      BeatSpelled(beat, characters, budget, totalWeight, epsilon);
      if desired - supportable > desired * epsilon {
        thinBeats := thinBeats + [beat.title];
      }
      planned := planned + [PlannedBeat(beat.title, beat.intent, Deduplicated(beat.excerptIds), beat.weight,
                                        Min(desired, supportable), characters)];
      index := index + 1;
    }
  }

  method Apportion(beats: seq<DraftBeat>, excerpts: seq<string>, ids: seq<string>, budget: Budget, epsilon: real)
    returns (r: Result<Plan, PlanError>)
    requires ValidInput(beats, budget)
    ensures r == PlanOf(beats, excerpts, ids, budget, epsilon)
  {
    hide AllocatedUpTo, PlannedUpTo, ThinUpTo, SumReal;
    if |excerpts| != |ids| {
      return Err(LengthMismatch);
    }
    var allocatedCharacters := AllocateAll(beats, excerpts, ids);
    var totalWeight := TotalWeight(beats);
    PositiveSum(WeightsUpTo(beats, |beats|));
    var planned, thinBeats := PlanBeats(beats, allocatedCharacters, budget, totalWeight, epsilon);
    var plannedSeconds := Min(TargetSum(planned), budget.requestedSeconds);
    if plannedSeconds <= 0.0 {
      return Err(NoSupportingText);
    }
    var gap := budget.requestedSeconds - plannedSeconds;
    var shortfall := if thinBeats == [] then None else Some(Shortfall(if gap > 0.0 then gap else 0.0, thinBeats));
    r := Ok(Plan(planned, plannedSeconds, shortfall));
  }

  // ------------------------------------------------------- what the plan keeps

  lemma DesiredAdds(requested: real, a: real, b: real, total: real)
    requires total != 0.0
    ensures Desired(requested, a + b, total) == Desired(requested, a, total) + Desired(requested, b, total)
    ensures Desired(requested, 0.0, total) == 0.0
    ensures Desired(requested, total, total) == requested
  {
  }

  lemma SupportableAdds(budget: Budget, a: int, b: int)
    requires budget.charsPerSecond != 0.0
    ensures Supportable(budget, a + b) == Supportable(budget, a) + Supportable(budget, b)
    ensures Supportable(budget, 0) == 0.0
  {
  }

  lemma Positive(requested: real, weight: real, total: real)
    requires requested > 0.0 && weight > 0.0 && total > 0.0
    ensures Desired(requested, weight, total) > 0.0
  {
  }

  lemma SupportableSign(budget: Budget, characters: int)
    requires budget.expansionFactor > 0.0 && budget.charsPerSecond > 0.0 && characters >= 0
    ensures Supportable(budget, characters) >= 0.0
    ensures Supportable(budget, characters) > 0.0 <==> characters > 0
  {
    var x := budget.expansionFactor * characters as real;
    assert characters > 0 ==> x > 0.0;
    assert characters == 0 ==> x == 0.0;
  }

  /** The summed wish of the first `n` beats, and their summed characters. */
  ghost function Wish(beats: seq<DraftBeat>, budget: Budget, total: real, n: nat): real
    requires n <= |beats| && total != 0.0
  {
    Desired(budget.requestedSeconds, SumReal(WeightsUpTo(beats, n)), total)
  }

  lemma WishStep(beats: seq<DraftBeat>, budget: Budget, total: real, n: nat)
    requires 0 < n <= |beats| && total > 0.0 && ValidInput(beats, budget)
    ensures Wish(beats, budget, total, n)
            == Wish(beats, budget, total, n - 1) + Desired(budget.requestedSeconds, beats[n - 1].weight, total)
    ensures Desired(budget.requestedSeconds, beats[n - 1].weight, total) > 0.0
    ensures Wish(beats, budget, total, 0) == 0.0
  {
    hide Desired;
    var w := WeightsUpTo(beats, n - 1);
    assert WeightsUpTo(beats, n) == w + [beats[n - 1].weight];
    SumRealSnoc(w, beats[n - 1].weight);
    DesiredAdds(budget.requestedSeconds, SumReal(w), beats[n - 1].weight, total);
    Positive(budget.requestedSeconds, beats[n - 1].weight, total);
  }

  lemma CharactersStep(characters: seq<int>, budget: Budget, n: nat)
    requires 0 < n <= |characters| && characters[n - 1] >= 0 && budget.expansionFactor > 0.0
             && budget.charsPerSecond > 0.0
    ensures SumInt(characters[..n]) == SumInt(characters[..n - 1]) + characters[n - 1]
    ensures Supportable(budget, SumInt(characters[..n]))
            == Supportable(budget, SumInt(characters[..n - 1])) + Supportable(budget, characters[n - 1])
    ensures Supportable(budget, characters[n - 1]) >= 0.0
    ensures Supportable(budget, characters[n - 1]) > 0.0 <==> characters[n - 1] > 0
  {
    hide Supportable;
    assert characters[..n] == characters[..n - 1] + [characters[n - 1]];
    SumIntSnoc(characters[..n - 1], characters[n - 1]);
    SupportableAdds(budget, SumInt(characters[..n - 1]), characters[n - 1]);
    SupportableSign(budget, characters[n - 1]);
  }

  ghost function TargetUpTo(beats: seq<DraftBeat>, characters: seq<int>, budget: Budget, total: real, n: nat): real
    requires n <= |beats| == |characters| && total != 0.0 && budget.charsPerSecond != 0.0
  {
    TargetSum(PlannedUpTo(beats, characters, budget, total, n))
  }

  lemma TargetStep(beats: seq<DraftBeat>, characters: seq<int>, budget: Budget, total: real, n: nat)
    requires 0 < n <= |beats| == |characters| && total != 0.0 && budget.charsPerSecond != 0.0
    ensures TargetUpTo(beats, characters, budget, total, n) == TargetUpTo(beats, characters, budget, total, n - 1)
              + Min(Desired(budget.requestedSeconds, beats[n - 1].weight, total),
                    Supportable(budget, characters[n - 1]))
    ensures TargetUpTo(beats, characters, budget, total, 0) == 0.0
  {
    hide Desired, Supportable, Deduplicated;
    var planned := PlannedUpTo(beats, characters, budget, total, n);
    assert planned[..n - 1] == PlannedUpTo(beats, characters, budget, total, n - 1);
  }

  /** Sums over the first `n` beats: the target is squeezed between the tolerance and both ceilings. */
  lemma {:induction false} TargetSums(beats: seq<DraftBeat>, characters: seq<int>, budget: Budget, total: real,
                                      epsilon: real, n: nat)
    requires n <= |beats| == |characters| && total > 0.0 && ValidInput(beats, budget) && epsilon >= 0.0
    requires forall b | 0 <= b < |characters| :: characters[b] >= 0
    ensures var t := TargetUpTo(beats, characters, budget, total, n);
            && t <= Wish(beats, budget, total, n) && t <= Supportable(budget, SumInt(characters[..n]))
            && t >= 0.0 && SumInt(characters[..n]) >= 0
            && (t > 0.0 <==> SumInt(characters[..n]) > 0)
            && (ThinUpTo(beats, characters, budget, total, epsilon, n) == [] ==>
                  Wish(beats, budget, total, n) - t <= Slack(Wish(beats, budget, total, n), epsilon))
    decreases n
  {
    hide Desired, Supportable, Slack, Wish, TargetUpTo;
    if n == 0 {
      Nothing(beats, characters, budget, total, epsilon);
    } else {
      TargetSums(beats, characters, budget, total, epsilon, n - 1);
      WishStep(beats, budget, total, n);
      CharactersStep(characters, budget, n);
      TargetStep(beats, characters, budget, total, n);
      Tolerance(Wish(beats, budget, total, n - 1), Desired(budget.requestedSeconds, beats[n - 1].weight, total),
                epsilon);
    }
  }

  lemma Nothing(beats: seq<DraftBeat>, characters: seq<int>, budget: Budget, total: real, epsilon: real)
    requires |beats| == |characters| && total != 0.0 && budget.charsPerSecond != 0.0
    ensures TargetUpTo(beats, characters, budget, total, 0) == 0.0 == Wish(beats, budget, total, 0)
    ensures characters[..0] == [] && Supportable(budget, 0) == 0.0 && Slack(0.0, epsilon) == 0.0
  {
    DesiredAdds(budget.requestedSeconds, 0.0, 0.0, total);
    SupportableAdds(budget, 0, 0);
  }

  lemma Tolerance(a: real, b: real, epsilon: real)
    ensures Slack(a + b, epsilon) == Slack(a, epsilon) + Slack(b, epsilon)
    ensures b >= 0.0 && epsilon >= 0.0 ==> Slack(b, epsilon) >= 0.0
  {
  }

  /**
   * The plan's promises. It never plans more than was requested, nor more than
   * the expansion factor times the cited material supports; it fails exactly
   * when no cited passage has any text; and when no beat is reported thin, the
   * request is met up to the tolerance.
   */
  lemma {:induction false} PlanIsBounded(beats: seq<DraftBeat>, excerpts: seq<string>, ids: seq<string>,
                                         budget: Budget, epsilon: real)
    requires ValidInput(beats, budget) && |excerpts| == |ids| && epsilon >= 0.0
    ensures var cited := CitedCharacters(beats, excerpts, ids, |ids|);
            match PlanOf(beats, excerpts, ids, budget, epsilon)
            case Err(_) => cited == 0
            case Ok(plan) =>
              && cited > 0
              && 0.0 < plan.plannedSeconds <= budget.requestedSeconds
              && plan.plannedSeconds <= Supportable(budget, cited)
              && (plan.shortfall.None?
                  ==> budget.requestedSeconds - plan.plannedSeconds <= Slack(budget.requestedSeconds, epsilon))
              && (plan.shortfall.Some? ==>
                  && plan.shortfall.value.thinBeats != []
                  && plan.shortfall.value.seconds == budget.requestedSeconds - plan.plannedSeconds)
  {
    hide Desired, Supportable, Slack, SumInt, AllocatedUpTo, CitedCharacters;
    var characters := AllocatedUpTo(beats, excerpts, ids, |ids|);
    CharactersConserved(beats, excerpts, ids, |ids|);
    assert characters[..|beats|] == characters;
    PositiveSum(WeightsUpTo(beats, |beats|));
    if beats == [] {
      NothingCited(characters);
    } else {
      forall b | 0 <= b < |beats| ensures characters[b] >= 0 { OwnMaterialOnly(beats, excerpts, ids, |ids|, b); }
      TargetSums(beats, characters, budget, TotalWeight(beats), epsilon, |beats|);
      DesiredAdds(budget.requestedSeconds, 0.0, 0.0, TotalWeight(beats));
    }
  }

  lemma NothingCited(characters: seq<int>)
    requires characters == []
    ensures SumInt(characters) == 0
  {
  }
}
