/**
 * What a plan says, read off the draft: who shares each excerpt and by which
 * law, what each beat is planned for, and exactly when a shortfall is reported
 * and whom it names.
 */
module PlanMeaning {
  import opened Prelude
  import opened LargestRemainder
  import opened Apportion

  // -------------------------------------------------------- who gets which text

  ghost predicate Increasing(xs: seq<nat>) {
    forall i, j | 0 <= i < j < |xs| :: xs[i] < xs[j]
  }

  /** The positions of exactly the beats that cite the excerpt, in draft order. */
  ghost predicate Cites(beats: seq<DraftBeat>, id: string, citing: seq<nat>) {
    && Increasing(citing)
    && forall b: nat :: b in citing <==> b < |beats| && id in beats[b].excerptIds
  }

  /** The weights of the listed beats. */
  ghost predicate WeighedBy(beats: seq<DraftBeat>, citing: seq<nat>, weights: seq<real>) {
    && |weights| == |citing|
    && forall k | 0 <= k < |citing| :: citing[k] < |beats| && weights[k] == beats[citing[k]].weight
  }

  /** Each listed beat gets its own share on top, and no other beat anything. */
  ghost predicate Handed(before: seq<int>, after: seq<int>, citing: seq<nat>, shares: seq<int>) {
    && |after| == |before| && |shares| == |citing|
    && (forall k | 0 <= k < |citing| :: citing[k] < |before| && after[citing[k]] == before[citing[k]] + shares[k])
    && (forall b: nat | b < |before| && b !in citing :: after[b] == before[b])
  }

  lemma {:induction false} SharesAreHanded(totals: seq<int>, citing: seq<nat>, shares: seq<int>)
    requires |citing| == |shares| && Increasing(citing) && forall k | 0 <= k < |citing| :: citing[k] < |totals|
    ensures Handed(totals, AddShares(totals, citing, shares), citing, shares)
    decreases |citing|
  {
    if citing != [] {
      var first := totals[citing[0] := totals[citing[0]] + shares[0]];
      SharesAreHanded(first, citing[1..], shares[1..]);
      var after := AddShares(totals, citing, shares);
      assert after == AddShares(first, citing[1..], shares[1..]);
      assert citing[0] !in citing[1..];
      forall k | 0 <= k < |citing| ensures after[citing[k]] == totals[citing[k]] + shares[k] {
        if k > 0 {
          assert citing[1..][k - 1] == citing[k] && shares[1..][k - 1] == shares[k];
        }
      }
      hide AddShares;
    }
  }

  /**
   * One excerpt: its characters are split, by largest remainder and by their
   * weights, among exactly the beats that cite it.
   */
  lemma {:induction false} PassageIsShared(beats: seq<DraftBeat>, excerpts: seq<string>, ids: seq<string>, p: nat)
    returns (citing: seq<nat>, weights: seq<real>, shares: seq<int>)
    requires p < |ids| == |excerpts|
    ensures Cites(beats, ids[p], citing) && WeighedBy(beats, citing, weights)
    ensures Splits(|excerpts[p]|, weights, shares)
    ensures Handed(AllocatedUpTo(beats, excerpts, ids, p), AllocatedUpTo(beats, excerpts, ids, p + 1), citing, shares)
    ensures forall b: nat | b < |beats| :: AllocatedUpTo(beats, excerpts, ids, 0)[b] == 0
  {
    citing := Citing(beats, ids[p], |beats|);
    weights := WeightsOf(beats, citing);
    shares := SplitOf(|excerpts[p]|, weights);
    assert Cites(beats, ids[p], citing) && WeighedBy(beats, citing, weights) && Increasing(citing);
    AllocatedNext(beats, excerpts, ids, p);
    hide *;
    SplitObeysLaw(|excerpts[p]|, weights);
    var totals := AllocatedUpTo(beats, excerpts, ids, p);
    SharesAreHanded(totals, citing, shares);
    PassageStep(totals, beats, ids[p], |excerpts[p]|, citing, weights, shares);
  }

  lemma AllocatedNext(beats: seq<DraftBeat>, excerpts: seq<string>, ids: seq<string>, p: nat)
    requires p < |ids| == |excerpts|
    ensures AllocatedUpTo(beats, excerpts, ids, p + 1)
            == Allocate(AllocatedUpTo(beats, excerpts, ids, p), beats, ids[p], |excerpts[p]|)
    ensures forall b: nat | b < |beats| :: AllocatedUpTo(beats, excerpts, ids, 0)[b] == 0
  {
    hide Allocate;
  }

  lemma PassageStep(totals: seq<int>, beats: seq<DraftBeat>, id: string, characters: nat, citing: seq<nat>,
                    weights: seq<real>, shares: seq<int>)
    requires |totals| == |beats| && citing == Citing(beats, id, |beats|) && weights == WeightsOf(beats, citing)
    requires shares == SplitOf(characters, weights) && Splits(characters, weights, shares)
    requires Handed(totals, AddShares(totals, citing, shares), citing, shares)
    ensures Handed(totals, Allocate(totals, beats, id, characters), citing, shares)
  {
    hide SplitOf, AddShares, Citing;
    if characters == 0 {
      NothingToSplit(weights, shares);
    }
    hide Splits;
  }

  lemma NothingToSplit(weights: seq<real>, shares: seq<int>)
    requires Splits(0, weights, shares)
    ensures |shares| == |weights| && forall k | 0 <= k < |shares| :: shares[k] == 0
  {
  }

  // -------------------------------------------------------------- what is planned

  /** Each of the ids once, in the order they first appear; `places` says where that is. */
  ghost predicate FirstsAt(ids: seq<string>, kept: seq<string>, places: seq<nat>) {
    && |places| == |kept| && Increasing(places)
    && (forall k | 0 <= k < |kept| :: places[k] < |ids| && ids[places[k]] == kept[k])
    && (forall k, i | 0 <= k < |kept| && 0 <= i < places[k] && i < |ids| :: ids[i] != kept[k])
    && (forall i | 0 <= i < |ids| :: ids[i] in kept)
  }

  lemma {:induction false} DeduplicatedAreFirsts(ids: seq<string>) returns (places: seq<nat>)
    ensures FirstsAt(ids, Deduplicated(ids), places)
  {
    places := [];
    if ids != [] {
      var n := |ids| - 1;
      places := DeduplicatedAreFirsts(ids[..n]);
      var earlier := Deduplicated(ids[..n]);
      assert forall i | 0 <= i < n :: ids[..n][i] == ids[i];
      if ids[n] !in earlier {
        places := places + [n];
      }
    }
  }

  /** What a beat wants: its part of the requested seconds, by weight. */
  ghost function Wanted(budget: Budget, weight: real, total: real): real
    requires total != 0.0
  {
    budget.requestedSeconds * weight / total
  }

  /** What its own text supports. */
  ghost function Carried(budget: Budget, characters: int): real
    requires budget.charsPerSecond != 0.0
  {
    budget.expansionFactor * characters as real / budget.charsPerSecond
  }

  /** The beat wants more than its text supports, by more than the tolerance. */
  ghost predicate Falls(beats: seq<DraftBeat>, characters: seq<int>, budget: Budget, total: real, epsilon: real, b: nat)
    requires b < |beats| == |characters| && total != 0.0 && budget.charsPerSecond != 0.0
  {
    var want := Wanted(budget, beats[b].weight, total);
    want - Carried(budget, characters[b]) > epsilon * want
  }

  /** The titles of exactly the beats that fall short, in draft order; `thin` says which those are. */
  ghost predicate Names(beats: seq<DraftBeat>, characters: seq<int>, budget: Budget, total: real, epsilon: real, n: nat,
                        titles: seq<string>, thin: seq<nat>)
    requires n <= |beats| == |characters| && total != 0.0 && budget.charsPerSecond != 0.0
  {
    && |titles| == |thin| && Increasing(thin)
    && (forall b: nat :: b in thin <==> b < n && Falls(beats, characters, budget, total, epsilon, b))
    && (forall k | 0 <= k < |thin| :: thin[k] < n && titles[k] == beats[thin[k]].title)
  }

  lemma {:induction false} ThinIsNamed(beats: seq<DraftBeat>, characters: seq<int>, budget: Budget, total: real,
                                       epsilon: real, n: nat) returns (thin: seq<nat>)
    requires n <= |beats| == |characters| && total != 0.0 && budget.charsPerSecond != 0.0
    ensures Names(beats, characters, budget, total, epsilon, n,
                  ThinUpTo(beats, characters, budget, total, epsilon, n), thin)
  {
    thin := [];
    if n > 0 {
      BeatSpelled(beats[n - 1], characters[n - 1], budget, total, epsilon);
      hide IsThin;
      assert IsThin(beats[n - 1], characters[n - 1], budget, total, epsilon)
             <==> Falls(beats, characters, budget, total, epsilon, n - 1);
      hide Falls;
      thin := ThinIsNamed(beats, characters, budget, total, epsilon, n - 1);
      if Falls(beats, characters, budget, total, epsilon, n - 1) {
        thin := thin + [n - 1];
      }
    }
  }

  /** One planned beat against its draft. */
  ghost predicate PlannedFrom(draft: DraftBeat, p: PlannedBeat, characters: int, want: real, has: real) {
    && p.title == draft.title && p.intent == draft.intent && p.weight == draft.weight
    && (exists places :: FirstsAt(draft.excerptIds, p.excerptIds, places))
    && p.allocatedCharacters == characters && p.targetSeconds == (if want < has then want else has)
  }

  lemma BeatIsPlanned(beats: seq<DraftBeat>, characters: seq<int>, budget: Budget, total: real, b: nat)
    requires b < |beats| == |characters| && total != 0.0 && budget.charsPerSecond != 0.0
    ensures PlannedFrom(beats[b], Planned(beats[b], characters[b], budget, total), characters[b],
                        Wanted(budget, beats[b].weight, total), Carried(budget, characters[b]))
  {
    BeatSpelled(beats[b], characters[b], budget, total, 0.0);
    var places := DeduplicatedAreFirsts(beats[b].excerptIds);
    hide Planned, IsThin, FirstsAt, Deduplicated;
  }

  ghost function WeightSum(beats: seq<DraftBeat>, n: nat): real
    requires n <= |beats|
  {
    if n == 0 then 0.0 else WeightSum(beats, n - 1) + beats[n - 1].weight
  }

  lemma {:induction false} TotalIsSum(beats: seq<DraftBeat>, n: nat)
    requires n <= |beats|
    ensures SumReal(WeightsUpTo(beats, n)) == WeightSum(beats, n)
  {
    if n > 0 {
      TotalIsSum(beats, n - 1);
      assert WeightsUpTo(beats, n) == WeightsUpTo(beats, n - 1) + [beats[n - 1].weight];
      SumRealSnoc(WeightsUpTo(beats, n - 1), beats[n - 1].weight);
    }
  }

  /** What the planned beats are. */
  ghost predicate BeatsSay(beats: seq<DraftBeat>, characters: seq<int>, budget: Budget, total: real,
                           planned: seq<PlannedBeat>)
    requires |beats| == |characters| && total != 0.0 && budget.charsPerSecond != 0.0
  {
    && |planned| == |beats|
    && forall b | 0 <= b < |beats| ::
         PlannedFrom(beats[b], planned[b], characters[b], Wanted(budget, beats[b].weight, total),
                     Carried(budget, characters[b]))
  }

  /** When there is a shortfall, and whom it names. */
  ghost predicate ShortfallSays(beats: seq<DraftBeat>, characters: seq<int>, budget: Budget, total: real, epsilon: real,
                                shortfall: Option<Shortfall>, thin: seq<nat>)
    requires |beats| == |characters| && total != 0.0 && budget.charsPerSecond != 0.0
  {
    && (shortfall.None? <==> forall b: nat | b < |beats| :: !Falls(beats, characters, budget, total, epsilon, b))
    && (shortfall.Some? ==>
          Names(beats, characters, budget, total, epsilon, |beats|, shortfall.value.thinBeats, thin))
  }

  lemma BeatsDoSay(beats: seq<DraftBeat>, characters: seq<int>, budget: Budget, total: real)
    requires |beats| == |characters| && total != 0.0 && budget.charsPerSecond != 0.0
    ensures BeatsSay(beats, characters, budget, total, PlannedUpTo(beats, characters, budget, total, |beats|))
  {
    hide Planned, PlannedFrom, PlannedUpTo, Wanted, Carried;
    var planned := PlannedUpTo(beats, characters, budget, total, |beats|);
    forall b | 0 <= b < |beats|
      ensures PlannedFrom(beats[b], planned[b], characters[b], Wanted(budget, beats[b].weight, total),
                          Carried(budget, characters[b]))
    {
      BeatIsPlanned(beats, characters, budget, total, b);
    }
  }

  lemma ShortfallDoesSay(beats: seq<DraftBeat>, characters: seq<int>, budget: Budget, total: real, epsilon: real,
                         shortfall: Option<Shortfall>, thin: seq<nat>)
    requires |beats| == |characters| && total != 0.0 && budget.charsPerSecond != 0.0
    requires var titles := ThinUpTo(beats, characters, budget, total, epsilon, |beats|);
             && (shortfall.None? <==> titles == [])
             && (shortfall.Some? ==> shortfall.value.thinBeats == titles)
             && Names(beats, characters, budget, total, epsilon, |beats|, titles, thin)
    ensures ShortfallSays(beats, characters, budget, total, epsilon, shortfall, thin)
  {
    hide ThinUpTo, Falls;
    if thin != [] {
      assert thin[0] in thin;
    }
  }

  /** A plan, in terms of the functions that compute it. */
  lemma PlanShape(beats: seq<DraftBeat>, excerpts: seq<string>, ids: seq<string>, budget: Budget, epsilon: real)
    requires ValidInput(beats, budget) && |excerpts| == |ids| && PlanOf(beats, excerpts, ids, budget, epsilon).Ok?
    ensures var plan := PlanOf(beats, excerpts, ids, budget, epsilon).value;
            var total, characters := TotalWeight(beats), AllocatedUpTo(beats, excerpts, ids, |ids|);
            && total > 0.0 && beats != []
            && plan.plannedSeconds == Min(TargetSum(plan.beats), budget.requestedSeconds)
            && plan.beats == PlannedUpTo(beats, characters, budget, total, |beats|)
            && (plan.shortfall.None? <==> ThinUpTo(beats, characters, budget, total, epsilon, |beats|) == [])
            && (plan.shortfall.Some? ==>
                  plan.shortfall.value.thinBeats == ThinUpTo(beats, characters, budget, total, epsilon, |beats|))
  {
    PositiveSum(WeightsUpTo(beats, |beats|));
    hide AllocatedUpTo, ThinUpTo, SumReal, WeightsUpTo, Planned;
  }

  ghost function SecondsSum(planned: seq<PlannedBeat>, n: nat): real
    requires n <= |planned|
  {
    if n == 0 then 0.0 else SecondsSum(planned, n - 1) + planned[n - 1].targetSeconds
  }

  lemma {:induction false} SumsAgree(planned: seq<PlannedBeat>, n: nat)
    requires n <= |planned|
    ensures TargetSum(planned[..n]) == SecondsSum(planned, n)
  {
    if n > 0 {
      SumsAgree(planned, n - 1);
      assert planned[..n][..n - 1] == planned[..n - 1];
    }
  }

  /** Over reals the targets never add up to more than was asked for. */
  lemma SumStaysWithin(beats: seq<DraftBeat>, excerpts: seq<string>, ids: seq<string>, budget: Budget)
    requires ValidInput(beats, budget) && |excerpts| == |ids| && beats != [] && TotalWeight(beats) > 0.0
    ensures var characters := AllocatedUpTo(beats, excerpts, ids, |ids|);
            TargetSum(PlannedUpTo(beats, characters, budget, TotalWeight(beats), |beats|)) <= budget.requestedSeconds
  {
    hide Desired, Supportable, Slack, SumInt, AllocatedUpTo, CitedCharacters;
    forall b | 0 <= b < |beats| ensures AllocatedUpTo(beats, excerpts, ids, |ids|)[b] >= 0 {
      OwnMaterialOnly(beats, excerpts, ids, |ids|, b);
    }
    TargetSums(beats, AllocatedUpTo(beats, excerpts, ids, |ids|), budget, TotalWeight(beats), 0.0, |beats|);
    DesiredAdds(budget.requestedSeconds, 0.0, 0.0, TotalWeight(beats));
  }

  /**
   * What a plan says. Every beat keeps its title, intent, weight and cited
   * excerpts and is planned for the smaller of what it wants and what its text
   * supports; a shortfall is reported exactly if some beat falls short, names
   * exactly those that do, in draft order, and says by how much in all.
   */
  lemma {:induction false} PlanMeans(beats: seq<DraftBeat>, excerpts: seq<string>, ids: seq<string>, budget: Budget,
                                     epsilon: real) returns (thin: seq<nat>)
    requires ValidInput(beats, budget) && |excerpts| == |ids| && epsilon >= 0.0
    requires PlanOf(beats, excerpts, ids, budget, epsilon).Ok?
    ensures budget.charsPerSecond != 0.0 && WeightSum(beats, |beats|) > 0.0
    ensures var plan := PlanOf(beats, excerpts, ids, budget, epsilon).value;
            var total, characters := WeightSum(beats, |beats|), AllocatedUpTo(beats, excerpts, ids, |ids|);
            && BeatsSay(beats, characters, budget, total, plan.beats)
            && ShortfallSays(beats, characters, budget, total, epsilon, plan.shortfall, thin)
            && plan.plannedSeconds == SecondsSum(plan.beats, |plan.beats|)
            && (plan.shortfall.Some? ==>
                  plan.shortfall.value.seconds == budget.requestedSeconds - plan.plannedSeconds)
  {
    var characters := AllocatedUpTo(beats, excerpts, ids, |ids|);
    var total := TotalWeight(beats);
    TotalIsSum(beats, |beats|);
    PlanShape(beats, excerpts, ids, budget, epsilon);
    PlanIsBounded(beats, excerpts, ids, budget, epsilon);
    SumStaysWithin(beats, excerpts, ids, budget);
    var plan := PlanOf(beats, excerpts, ids, budget, epsilon).value;
    SumsAgree(plan.beats, |plan.beats|);
    assert plan.beats[..|plan.beats|] == plan.beats;
    hide PlanOf, TargetSum, SecondsSum, AllocatedUpTo, CitedCharacters, PlannedUpTo, ThinUpTo, BeatsSay, ShortfallSays,
         Names, SumReal, WeightsUpTo, WeightSum, Supportable, Slack;
    BeatsDoSay(beats, characters, budget, total);
    thin := ThinIsNamed(beats, characters, budget, total, epsilon, |beats|);
    ShortfallDoesSay(beats, characters, budget, total, epsilon,
                     PlanOf(beats, excerpts, ids, budget, epsilon).value.shortfall, thin);
  }
}
