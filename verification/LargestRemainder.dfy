/**
 * Splitting a whole number of characters across weights by largest remainder.
 * Weights are reals; the shares are integers that sum to the characters exactly.
 */
module LargestRemainder {
  import opened Prelude
  import opened Sorting

  function Share(characters: int, weight: real, total: real): real
    requires total != 0.0
  {
    characters as real * weight / total
  }

  /** The exact, fractional entitlement of one weight. */
  function Quota(characters: int, weights: seq<real>, i: nat): real
    requires i < |weights| && SumReal(weights) != 0.0
  {
    Share(characters, weights[i], SumReal(weights))
  }

  function Remainder(x: real): real { x - x.Floor as real }

  /** `i` comes before `j` when the leftover units are handed out. */
  ghost predicate Ahead(characters: int, weights: seq<real>, i: nat, j: nat)
    requires i < |weights| && j < |weights| && SumReal(weights) != 0.0
  {
    var ri, rj := Remainder(Quota(characters, weights, i)), Remainder(Quota(characters, weights, j));
    ri > rj || (ri == rj && i < j)
  }

  ghost predicate Bumped(characters: int, weights: seq<real>, shares: seq<int>, i: nat)
    requires i < |weights| == |shares| && SumReal(weights) != 0.0
  {
    shares[i] == Quota(characters, weights, i).Floor + 1
  }

  /**
   * The law of largest remainder, without any procedure: the shares sum to the
   * characters, each is its quota's floor or one more, and every bumped
   * position is ahead of every position that is not.
   */
  ghost predicate IsApportionment(characters: int, weights: seq<real>, shares: seq<int>)
    requires SumReal(weights) != 0.0
  {
    && |shares| == |weights|
    && SumInt(shares) == characters
    && (forall i | 0 <= i < |weights| ::
          shares[i] == Quota(characters, weights, i).Floor || Bumped(characters, weights, shares, i))
    && (forall i, j | 0 <= i < |weights| && 0 <= j < |weights|
                      && Bumped(characters, weights, shares, i) && !Bumped(characters, weights, shares, j) ::
          Ahead(characters, weights, i, j))
  }

  ghost predicate Splits(characters: int, weights: seq<real>, shares: seq<int>) {
    if SumReal(weights) <= 0.0 || characters <= 0
    then |shares| == |weights| && forall i | 0 <= i < |shares| :: shares[i] == 0
    else IsApportionment(characters, weights, shares)
  }

  // ---------------------------------------------------- the leftover units

  function Shares(characters: int, weights: seq<real>, total: real): (r: seq<real>)
    requires total != 0.0
    ensures |r| == |weights|
    ensures forall i | 0 <= i < |weights| :: r[i] == Share(characters, weights[i], total)
  {
    seq(|weights|, i requires 0 <= i < |weights| => Share(characters, weights[i], total))
  }

  function Floors(xs: seq<real>): (r: seq<int>)
    ensures |r| == |xs|
    ensures forall i | 0 <= i < |xs| :: r[i] == xs[i].Floor
  {
    seq(|xs|, i requires 0 <= i < |xs| => xs[i].Floor)
  }

  lemma ShareAdds(characters: int, a: real, b: real, total: real)
    requires total != 0.0
    ensures Share(characters, a + b, total) == Share(characters, a, total) + Share(characters, b, total)
    ensures Share(characters, 0.0, total) == 0.0
    ensures Share(characters, total, total) == characters as real
  {
  }

  /** Entitlements add up to the share of the summed weight. */
  lemma {:induction false} SharesSum(characters: int, weights: seq<real>, total: real)
    requires total != 0.0
    ensures SumReal(Shares(characters, weights, total)) == Share(characters, SumReal(weights), total)
  {
    hide Share;
    ShareAdds(characters, 0.0, 0.0, total);
    if weights != [] {
      var n := |weights| - 1;
      SharesSum(characters, weights[..n], total);
      ShareAdds(characters, SumReal(weights[..n]), weights[n], total);
      assert Shares(characters, weights, total)[..n] == Shares(characters, weights[..n], total);
    }
  }

  /** Rounding everything down loses at least nothing and less than one unit a position. */
  lemma {:induction false} FloorsSum(xs: seq<real>)
    ensures SumInt(Floors(xs)) as real <= SumReal(xs)
    ensures xs != [] ==> SumReal(xs) < (SumInt(Floors(xs)) + |xs|) as real
  {
    if xs != [] {
      var n := |xs| - 1;
      FloorsSum(xs[..n]);
      assert Floors(xs)[..n] == Floors(xs[..n]);
    }
  }

  /** So the leftover is nonnegative and smaller than the number of positions: one pass suffices. */
  lemma {:induction false} LeftoverBound(characters: int, weights: seq<real>)
    requires SumReal(weights) > 0.0
    ensures 0 <= characters - SumInt(Floors(Shares(characters, weights, SumReal(weights)))) < |weights|
  {
    var total := SumReal(weights);
    SharesSum(characters, weights, total);
    ShareAdds(characters, total, 0.0, total);
    FloorsSum(Shares(characters, weights, total));
  }

  // --------------------------------------------------------------- the code

  datatype Entry = Entry(index: nat, fraction: real)

  function Entries(exact: seq<real>): (r: seq<Entry>)
    ensures |r| == |exact|
    ensures forall i | 0 <= i < |exact| :: r[i] == Entry(i, Remainder(exact[i]))
  {
    seq(|exact|, i requires 0 <= i < |exact| => Entry(i, Remainder(exact[i])))
  }

  function ByRemainder(exact: seq<real>): seq<Entry> {
    SortBy(Entries(exact), (e: Entry) => -e.fraction)
  }

  /** The sorted list names every position once, largest remainder first, ties to the earlier position. */
  lemma ByRemainderShape(exact: seq<real>)
    ensures var r := ByRemainder(exact);
            && |r| == |exact|
            && (forall k | 0 <= k < |r| :: r[k].index < |exact| && r[k].fraction == Remainder(exact[r[k].index]))
            && (forall i | 0 <= i < |exact| :: Entry(i, Remainder(exact[i])) in r)
            && (forall k, l | 0 <= k < l < |r| ::
                  && r[k].index != r[l].index
                  && (r[k].fraction > r[l].fraction || (r[k].fraction == r[l].fraction && r[k].index < r[l].index)))
  {
    var e, r := Entries(exact), ByRemainder(exact);
    var key := (x: Entry) => -x.fraction;
    ghost var pos := (x: Entry) => x.index as int;
    SortByStable(e, key, pos);
    forall k | 0 <= k < |r| ensures r[k] in e { SameElement(r, e, r[k]); }
    forall i | 0 <= i < |exact| ensures Entry(i, Remainder(exact[i])) in r {
      assert e[i] in e;
      SameElement(r, e, e[i]);
    }
    forall k, l | 0 <= k < l < |r|
      ensures r[k].index != r[l].index
      ensures r[k].fraction > r[l].fraction || (r[k].fraction == r[l].fraction && r[k].index < r[l].index)
    {
      assert key(r[k]) < key(r[l]) || (key(r[k]) == key(r[l]) && pos(r[k]) < pos(r[l]));
    }
  }

  ghost predicate Among(r: seq<Entry>, k: nat, i: nat)
    requires k <= |r|
  {
    exists m :: 0 <= m < k && r[m].index == i
  }

  ghost predicate Indexes(order: seq<Entry>, n: nat) {
    && (forall k | 0 <= k < |order| :: order[k].index < n)
    && (forall k, l | 0 <= k < l < |order| :: order[k].index != order[l].index)
  }

  lemma ByRemainderIndexes(exact: seq<real>)
    ensures |ByRemainder(exact)| == |exact| && Indexes(ByRemainder(exact), |exact|)
  {
    ByRemainderShape(exact);
  }

  /** One unit to each entry in order, while units remain. */
  function HandOut(shares: seq<int>, order: seq<Entry>, remaining: int): (r: seq<int>)
    requires forall k | 0 <= k < |order| :: order[k].index < |shares|
    ensures |r| == |shares|
    decreases |order|
  {
    if order == [] || remaining <= 0 then shares
    else
      var i := order[0].index;
      HandOut(shares[i := shares[i] + 1], order[1..], remaining - 1)
  }

  lemma {:induction false} HandOutSum(shares: seq<int>, order: seq<Entry>, remaining: nat)
    requires Indexes(order, |shares|) && remaining <= |order|
    ensures SumInt(HandOut(shares, order, remaining)) == SumInt(shares) + remaining
    decreases |order|
  {
    if remaining > 0 {
      var i := order[0].index;
      SumIntUpdate(shares, i, shares[i] + 1);
      HandOutSum(shares[i := shares[i] + 1], order[1..], remaining - 1);
    }
  }

  /** Exactly the first `remaining` entries get one unit each. */
  lemma {:induction false} HandOutAt(shares: seq<int>, order: seq<Entry>, remaining: nat, i: nat)
    requires Indexes(order, |shares|) && remaining <= |order| && i < |shares|
    ensures HandOut(shares, order, remaining)[i] == shares[i] + (if Among(order, remaining, i) then 1 else 0)
    decreases |order|
  {
    if remaining > 0 {
      var first := order[0].index;
      var rest := order[1..];
      HandOutAt(shares[first := shares[first] + 1], rest, remaining - 1, i);
      assert Among(order, remaining, i) <==> first == i || Among(rest, remaining - 1, i) by {
        if m :| 0 <= m < remaining && order[m].index == i && m > 0 { assert rest[m - 1] == order[m]; }
        if m :| 0 <= m < remaining - 1 && rest[m].index == i { assert order[m + 1] == rest[m]; }
        if first == i { assert order[0].index == i; }
      }
      if first == i {
        assert forall m | 0 <= m < |rest| :: rest[m] == order[m + 1];
      }
    }
  }

  /** The split as a function of characters and weights. */
  function SplitOf(characters: int, weights: seq<real>): (r: seq<int>)
    ensures |r| == |weights|
  {
    var totalWeight := SumReal(weights);
    if totalWeight <= 0.0 || characters <= 0 then seq(|weights|, _ => 0)
    else
      var exact := Shares(characters, weights, totalWeight);
      ByRemainderIndexes(exact);
      HandOut(Floors(exact), ByRemainder(exact), characters - SumInt(Floors(exact)))
  }

  /** The split obeys the law for any weights and any number of characters. */
  lemma SplitObeysLaw(characters: int, weights: seq<real>)
    ensures Splits(characters, weights, SplitOf(characters, weights))
  {
    if SumReal(weights) > 0.0 && characters > 0 {
      var exact := Shares(characters, weights, SumReal(weights));
      var order := ByRemainder(exact);
      var leftover := characters - SumInt(Floors(exact));
      LeftoverBound(characters, weights);
      ByRemainderIndexes(exact);
      HandOutSum(Floors(exact), order, leftover);
      forall i | 0 <= i < |weights|
        ensures SplitOf(characters, weights)[i]
                == Quota(characters, weights, i).Floor + (if Among(order, leftover, i) then 1 else 0)
      {
        HandOutAt(Floors(exact), order, leftover, i);
      }
      BumpedAreAhead(characters, weights, order, leftover, SplitOf(characters, weights));
    }
  }

  method AllocateCharacters(characters: int, weights: seq<real>) returns (shares: seq<int>)
    ensures shares == SplitOf(characters, weights)
    ensures Splits(characters, weights, shares)
  {
    SplitObeysLaw(characters, weights);
    hide Share, Remainder, IsApportionment, ByRemainder;
    var totalWeight := SumReal(weights);
    if totalWeight <= 0.0 || characters <= 0 {
      return seq(|weights|, _ => 0);
    }
    var exact := Shares(characters, weights, totalWeight);
    shares := Floors(exact);
    var remaining := characters - SumInt(shares);
    var byRemainder := ByRemainder(exact);
    ByRemainderIndexes(exact);
    var k := 0;
    while k < |byRemainder|
      invariant 0 <= k <= |byRemainder| && |shares| == |weights|
      invariant HandOut(shares, byRemainder[k..], remaining) == SplitOf(characters, weights)
    {
      if remaining <= 0 {
        break;
      }
      assert byRemainder[k..][1..] == byRemainder[k + 1..];
      var index := byRemainder[k].index;
      shares := shares[index := shares[index] + 1];
      remaining := remaining - 1;
      k := k + 1;
    }
  }

  lemma BumpedAreAhead(characters: int, weights: seq<real>, r: seq<Entry>, k: nat, shares: seq<int>)
    requires SumReal(weights) > 0.0 && |shares| == |weights|
    requires r == ByRemainder(Shares(characters, weights, SumReal(weights))) && k <= |r|
    requires forall i | 0 <= i < |weights| ::
               shares[i] == Quota(characters, weights, i).Floor + (if Among(r, k, i) then 1 else 0)
    ensures forall i, j | 0 <= i < |weights| && 0 <= j < |weights|
                          && Bumped(characters, weights, shares, i) && !Bumped(characters, weights, shares, j) ::
              Ahead(characters, weights, i, j)
  {
    var exact := Shares(characters, weights, SumReal(weights));
    ByRemainderShape(exact);
    forall i, j | 0 <= i < |weights| && 0 <= j < |weights|
                  && Bumped(characters, weights, shares, i) && !Bumped(characters, weights, shares, j)
      ensures Ahead(characters, weights, i, j)
    {
      var m :| 0 <= m < k && r[m].index == i;
      assert Entry(j, Remainder(exact[j])) in r;
      var l :| 0 <= l < |r| && r[l] == Entry(j, Remainder(exact[j]));
      assert l >= k;
      assert r[m].fraction > r[l].fraction || (r[m].fraction == r[l].fraction && r[m].index < r[l].index);
    }
  }

  // --------------------------------------------------------------- uniqueness

  lemma {:induction false} SumsCompare(xs: seq<int>, ys: seq<int>)
    requires |xs| == |ys|
    requires forall i | 0 <= i < |xs| :: xs[i] <= ys[i]
    ensures SumInt(xs) <= SumInt(ys)
    ensures SumInt(xs) == SumInt(ys) ==> xs == ys
  {
    if xs != [] {
      var n := |xs| - 1;
      SumsCompare(xs[..n], ys[..n]);
      if SumInt(xs) == SumInt(ys) {
        assert xs == xs[..n] + [xs[n]] && ys == ys[..n] + [ys[n]];
      }
    }
  }

  /** If `xs` bumps `i` alone, `ys` cannot bump `j` alone: each would be ahead of the other. */
  lemma NoCrossing(characters: int, weights: seq<real>, xs: seq<int>, ys: seq<int>, i: nat, j: nat)
    requires SumReal(weights) != 0.0 && i < |weights| && j < |weights|
    requires IsApportionment(characters, weights, xs) && IsApportionment(characters, weights, ys)
    requires xs[i] > ys[i]
    ensures ys[j] <= xs[j]
  {
    assert !(Ahead(characters, weights, i, j) && Ahead(characters, weights, j, i));
    assert Bumped(characters, weights, xs, i) && !Bumped(characters, weights, ys, i);
    var inXs, inYs := Bumped(characters, weights, xs, j), Bumped(characters, weights, ys, j);
    assert ys[j] > xs[j] ==> inYs && !inXs;
  }

  /** The law leaves no freedom: characters and weights determine the shares. */
  lemma {:induction false} SplitIsUnique(characters: int, weights: seq<real>, xs: seq<int>, ys: seq<int>)
    requires Splits(characters, weights, xs) && Splits(characters, weights, ys)
    ensures xs == ys
  {
    if SumReal(weights) > 0.0 && characters > 0 {
      if i :| 0 <= i < |xs| && xs[i] > ys[i] {
        assert Bumped(characters, weights, xs, i) && !Bumped(characters, weights, ys, i);
        forall j | 0 <= j < |xs| ensures ys[j] <= xs[j] {
          NoCrossing(characters, weights, xs, ys, i, j);
        }
        SumsCompare(ys, xs);
      } else {
        SumsCompare(xs, ys);
      }
    }
  }

  /** No share is negative for a nonnegative weight. */
  lemma {:induction false} SharesNonnegative(characters: int, weights: seq<real>, shares: seq<int>, i: nat)
    requires Splits(characters, weights, shares) && i < |weights| && weights[i] >= 0.0
    ensures shares[i] >= 0
  {
    if SumReal(weights) > 0.0 && characters > 0 {
      QuotaNonnegative(characters, weights[i], SumReal(weights));
    }
  }

  lemma QuotaNonnegative(characters: int, weight: real, total: real)
    requires characters >= 0 && weight >= 0.0 && total > 0.0
    ensures Share(characters, weight, total) >= 0.0
  {
  }
}
