/**
 * A window of seconds against a number of failures in a row, on evenly spaced
 * probes: exactly when the two triggers report the same, and what a longer
 * window changes.
 */
module WindowsAndCounts {
  import opened Prelude
  import opened Triggers
  import opened Simulate
  import opened WindowRuns

  /** Probes `spacing` apart. */
  ghost predicate Evenly(obs: seq<Observation>, spacing: real) {
    spacing > 0.0 && forall i | 0 <= i < |obs| :: obs[i].now == obs[0].now + i as real * spacing
  }

  lemma Larger(x: real, y: real, k: real)
    requires x >= y && k > 0.0
    ensures x * k >= y * k && (x > y ==> x * k > y * k)
  {
    assert (x - y) * k >= 0.0;
    assert x > y ==> (x - y) * k > 0.0;
  }

  /** How many of the last probes a window covers. */
  function Span(window: real, spacing: real): (n: int)
    requires spacing > 0.0
    ensures window >= 0.0 ==> n >= 1
  {
    assert window >= 0.0 ==> window / spacing >= 0.0;
    (window / spacing).Floor + 1
  }

  lemma WholeSteps(m: int, spacing: real, window: real)
    requires spacing > 0.0
    ensures m as real * spacing > window <==> m >= Span(window, spacing)
  {
    var q := window / spacing;
    assert q * spacing == window;
    if m as real > q {
      Larger(m as real, q, spacing);
    } else {
      Larger(q, m as real, spacing);
    }
  }

  lemma EvenlyApart(obs: seq<Observation>, spacing: real)
    requires Evenly(obs, spacing)
    ensures Chronological(obs) && StrictlyChronological(obs)
    ensures forall j, k | 0 <= j <= k < |obs| :: obs[k].now - obs[j].now == (k - j) as real * spacing
  {
    forall j, k | 0 <= j <= k < |obs|
      ensures obs[k].now - obs[j].now == (k - j) as real * spacing
      ensures obs[j].now <= obs[k].now && (j < k ==> obs[j].now < obs[k].now)
    {
      Larger(k as real, j as real, spacing);
    }
  }

  lemma InWindowIff(window: real, obs: seq<Observation>, spacing: real, j: nat, k: nat)
    requires Evenly(obs, spacing) && j <= k < |obs|
    ensures InWindow(window, obs, j, k) <==> k - j < Span(window, spacing)
  {
    EvenlyApart(obs, spacing);
    WholeSteps(k - j, spacing, window);
    hide Evenly, Chronological, StrictlyChronological;
  }

  /** Down, on evenly spaced probes: some of the last `n` is counted and none of them healthy. */
  ghost predicate DownOver(n: int, silenceIsFailure: bool, obs: seq<Observation>, k: nat)
    requires k < |obs|
  {
    && (exists j: nat :: k - n < j <= k && Counts(silenceIsFailure, obs[j]))
    && (forall j: nat | k - n < j <= k :: !IsHealthy(obs[j]))
  }

  lemma DownIsDownOver(window: real, silenceIsFailure: bool, obs: seq<Observation>, spacing: real, k: nat)
    requires Evenly(obs, spacing) && k < |obs|
    ensures Down(window, silenceIsFailure, obs, k) <==> DownOver(Span(window, spacing), silenceIsFailure, obs, k)
  {
    var n := Span(window, spacing);
    DownMeans(window, silenceIsFailure, obs, k);
    forall j: nat | j <= k ensures InWindow(window, obs, j, k) <==> k - j < n {
      InWindowIff(window, obs, spacing, j, k);
    }
    hide Down, Evenly, InWindow, IsHealthy, Counts, Span;
    assert forall j: nat | j <= k :: InWindow(window, obs, j, k) <==> k - n < j;
  }

  /** When the window trigger fires on evenly spaced probes. */
  lemma {:induction false} EvenFires(window: real, silenceIsFailure: bool, obs: seq<Observation>, spacing: real,
                                     k: nat)
    requires Evenly(obs, spacing) && k < |obs|
    ensures var n := Span(window, spacing);
            Fired(Window(window, silenceIsFailure, []), obs, k)
            <==> && DownOver(n, silenceIsFailure, obs, k)
                 && !exists j :: 0 <= j < k && DownOver(n, silenceIsFailure, obs, j)
                                 && forall h | j < h < k :: !IsHealthy(obs[h])
  {
    EvenlyApart(obs, spacing);
    WindowFiresAt(window, silenceIsFailure, obs, k);
    forall j: nat | j < |obs|
      ensures Down(window, silenceIsFailure, obs, j) <==> DownOver(Span(window, spacing), silenceIsFailure, obs, j)
    {
      DownIsDownOver(window, silenceIsFailure, obs, spacing, j);
    }
    hide *;
  }

  // ----------------------------------------------- when nothing goes missing

  /** The streak counts the probes since the last healthy one, if every probe is healthy or counted. */
  lemma {:induction false} StreakReaches(silenceIsFailure: bool, obs: seq<Observation>, m: nat, n: nat)
    requires m <= |obs| && forall i | 0 <= i < m :: IsHealthy(obs[i]) || Counts(silenceIsFailure, obs[i])
    ensures Streak(silenceIsFailure, obs, m) >= n <==> n <= m && forall j | m - n <= j < m :: !IsHealthy(obs[j])
  {
    if m > 0 && n > 0 {
      StreakReaches(silenceIsFailure, obs, m - 1, n - 1);
    }
  }

  /** No probe is missing from the record: each is healthy or counted, and the first is healthy. */
  ghost predicate Complete(silenceIsFailure: bool, obs: seq<Observation>) {
    && obs != [] && IsHealthy(obs[0])
    && (forall i | 0 <= i < |obs| :: IsHealthy(obs[i]) || Counts(silenceIsFailure, obs[i]))
  }

  lemma DownIsLongStreak(n: nat, silenceIsFailure: bool, obs: seq<Observation>, k: nat)
    requires Complete(silenceIsFailure, obs) && n >= 1 && k < |obs|
    ensures DownOver(n, silenceIsFailure, obs, k) <==> Streak(silenceIsFailure, obs, k + 1) >= n
  {
    StreakReaches(silenceIsFailure, obs, k + 1, n);
    assert IsHealthy(obs[k]) || Counts(silenceIsFailure, obs[k]);
    hide Streak, Counts, IsHealthy;
    if forall j: nat | k - n < j <= k :: !IsHealthy(obs[j]) {
      assert k - n < k <= k && Counts(silenceIsFailure, obs[k]);
      assert !(k - n < 0 <= k);
    }
  }

  /** What the two triggers have to agree on at one probe. */
  ghost predicate SameAt(window: real, n: int, silenceIsFailure: bool, obs: seq<Observation>, k: nat)
    requires k < |obs|
  {
    Fired(Window(window, silenceIsFailure, []), obs, k) <==> Fired(Consecutive(n, silenceIsFailure, 0), obs, k)
  }

  lemma {:induction false} SameIfComplete(window: real, silenceIsFailure: bool, obs: seq<Observation>, spacing: real,
                                          k: nat)
    requires Evenly(obs, spacing) && Complete(silenceIsFailure, obs) && window >= 0.0 && k < |obs|
    ensures SameAt(window, Span(window, spacing), silenceIsFailure, obs, k)
  {
    var n := Span(window, spacing);
    EvenFires(window, silenceIsFailure, obs, spacing, k);
    ConsecutiveFiresAt(n, silenceIsFailure, obs, k);
    forall j: nat | j <= k
      ensures DownOver(n, silenceIsFailure, obs, j) <==> Streak(silenceIsFailure, obs, j + 1) >= n
    {
      DownIsLongStreak(n, silenceIsFailure, obs, j);
    }
    assert Counts(silenceIsFailure, obs[k]) || IsHealthy(obs[k]);
    StreakGoesOn(silenceIsFailure, obs, k);
    hide Span, Fired, DownOver, Evenly, Complete, IsHealthy, Counts, Streak;
    if j: nat :| j < k && DownOver(n, silenceIsFailure, obs, j) && forall h | j < h < k :: !IsHealthy(obs[h]) {
      StreakKeeps(silenceIsFailure, obs, j + 1, k);
    }
    if Streak(silenceIsFailure, obs, k) >= n {
      StreakStarts(silenceIsFailure, obs);
      assert DownOver(n, silenceIsFailure, obs, k - 1);
    }
  }

  lemma StreakStarts(silenceIsFailure: bool, obs: seq<Observation>)
    ensures Streak(silenceIsFailure, obs, 0) == 0
  {
  }

  lemma StreakGoesOn(silenceIsFailure: bool, obs: seq<Observation>, k: nat)
    requires k < |obs|
    ensures Streak(silenceIsFailure, obs, k + 1)
            == if IsHealthy(obs[k]) then 0
               else Streak(silenceIsFailure, obs, k) + (if Counts(silenceIsFailure, obs[k]) then 1 else 0)
  {
  }

  lemma {:induction false} StreakKeeps(silenceIsFailure: bool, obs: seq<Observation>, j: nat, k: nat)
    requires j <= k <= |obs| && forall h | j <= h < k :: !IsHealthy(obs[h])
    ensures Streak(silenceIsFailure, obs, j) <= Streak(silenceIsFailure, obs, k)
  {
    if j < k {
      StreakKeeps(silenceIsFailure, obs, j, k - 1);
    }
  }

  lemma {:induction false} SameReports(t: TriggerState, u: TriggerState, obs: seq<Observation>, k: nat)
    requires k <= |obs| && forall i: nat | i < k :: Fired(t, obs, i) <==> Fired(u, obs, i)
    ensures FiresUpTo(t, obs, k) == FiresUpTo(u, obs, k)
  {
    hide Fired;
    if k > 0 {
      SameReports(t, u, obs, k - 1);
    }
  }

  ghost predicate Agree(window: real, n: int, silenceIsFailure: bool, obs: seq<Observation>) {
    FiresUpTo(Window(window, silenceIsFailure, []), obs, |obs|)
    == FiresUpTo(Consecutive(n, silenceIsFailure, 0), obs, |obs|)
  }

  lemma {:induction false} AgreeIfSame(window: real, n: int, silenceIsFailure: bool, obs: seq<Observation>)
    requires forall k: nat | k < |obs| :: SameAt(window, n, silenceIsFailure, obs, k)
    ensures Agree(window, n, silenceIsFailure, obs)
  {
    hide Fired, FiresUpTo;
    var t, u := Window(window, silenceIsFailure, []), Consecutive(n, silenceIsFailure, 0);
    forall i: nat | i < |obs| ensures Fired(t, obs, i) <==> Fired(u, obs, i) {
      assert SameAt(window, n, silenceIsFailure, obs, i);
    }
    SameReports(t, u, obs, |obs|);
  }

  /**
   * A window of `window` seconds reports the same times as a trigger for
   * window / spacing + 1 failures in a row, if no probe is missing.
   */
  lemma {:induction false} WindowIsConsecutive(window: real, silenceIsFailure: bool, obs: seq<Observation>,
                                               spacing: real)
    requires Evenly(obs, spacing) && Complete(silenceIsFailure, obs) && window >= 0.0
    ensures Agree(window, Span(window, spacing), silenceIsFailure, obs)
  {
    forall k: nat | k < |obs| ensures SameAt(window, Span(window, spacing), silenceIsFailure, obs, k) {
      SameIfComplete(window, silenceIsFailure, obs, spacing, k);
    }
    hide *;
    AgreeIfSame(window, Span(window, spacing), silenceIsFailure, obs);
  }

  // ------------------------------------------------ when some probes go missing

  /** A streak of one failure: nothing was counted since the last healthy probe but this. */
  lemma {:induction false} StreakZero(silenceIsFailure: bool, obs: seq<Observation>, k: nat)
    requires k <= |obs|
    ensures Streak(silenceIsFailure, obs, k) == 0
            <==> !exists j :: 0 <= j < k && Counts(silenceIsFailure, obs[j])
                              && forall h | j < h < k :: !IsHealthy(obs[h])
  {
    if k > 0 {
      StreakZero(silenceIsFailure, obs, k - 1);
      var last := k - 1;
      assert 0 <= last < k && (Counts(silenceIsFailure, obs[last]) ==> !IsHealthy(obs[last]));
    }
  }

  /** A window that covers one probe only is a trigger for one failure, whatever is missing. */
  lemma {:induction false} SameForOne(window: real, silenceIsFailure: bool, obs: seq<Observation>, spacing: real,
                                      k: nat)
    requires Evenly(obs, spacing) && Span(window, spacing) == 1 && k < |obs|
    ensures SameAt(window, 1, silenceIsFailure, obs, k)
  {
    EvenFires(window, silenceIsFailure, obs, spacing, k);
    ConsecutiveFiresAt(1, silenceIsFailure, obs, k);
    StreakZero(silenceIsFailure, obs, k);
    StreakGoesOn(silenceIsFailure, obs, k);
    forall j: nat | j <= k ensures DownOver(1, silenceIsFailure, obs, j) <==> Counts(silenceIsFailure, obs[j]) {
      assert j - 1 < j <= j;
    }
    hide Span, Fired, DownOver, Evenly, Streak;
  }

  /** Each probe adds at most one failure to a streak. */
  lemma {:induction false} StreakAtMost(silenceIsFailure: bool, obs: seq<Observation>, h: nat, k: nat)
    requires h < k <= |obs| && IsHealthy(obs[h])
    ensures Streak(silenceIsFailure, obs, k) <= k - h - 1
    decreases k
  {
    if h < k - 1 {
      StreakAtMost(silenceIsFailure, obs, h, k - 1);
    }
  }

  /** With no more probes than the window covers, the healthy first one never leaves it. */
  lemma {:induction false} SameForFew(window: real, silenceIsFailure: bool, obs: seq<Observation>, spacing: real,
                                      k: nat)
    requires Evenly(obs, spacing) && window >= 0.0 && k < |obs| <= Span(window, spacing) && IsHealthy(obs[0])
    ensures SameAt(window, Span(window, spacing), silenceIsFailure, obs, k)
  {
    var n := Span(window, spacing);
    EvenFires(window, silenceIsFailure, obs, spacing, k);
    ConsecutiveFiresAt(n, silenceIsFailure, obs, k);
    StreakAtMost(silenceIsFailure, obs, 0, k + 1);
    assert k - n < 0 <= k;
  }

  /** With nothing counted at all, neither trigger fires. */
  lemma {:induction false} SameIfSilent(window: real, silenceIsFailure: bool, obs: seq<Observation>, spacing: real,
                                        k: nat)
    requires Evenly(obs, spacing) && window >= 0.0 && k < |obs|
    requires forall i | 0 <= i < |obs| :: !Counts(silenceIsFailure, obs[i])
    ensures SameAt(window, Span(window, spacing), silenceIsFailure, obs, k)
  {
    EvenFires(window, silenceIsFailure, obs, spacing, k);
    ConsecutiveFiresAt(Span(window, spacing), silenceIsFailure, obs, k);
  }

  /** A run of evenly spaced probes of which exactly those of `mask` arrive, the first one healthy. */
  ghost predicate Follows(obs: seq<Observation>, mask: seq<bool>, spacing: real) {
    && |obs| == |mask| && obs != [] && Evenly(obs, spacing) && IsHealthy(obs[0])
    && forall i | 0 <= i < |obs| :: obs[i].healthy.Some? <==> mask[i]
  }

  /**
   * The arrivals on which a window over `n` probes and a count of `n` cannot be
   * told apart: silence counts, or one probe is enough, or there are too few to
   * fire at all, or none goes missing after the first, or none arrives.
   */
  ghost predicate CannotTell(n: int, silenceIsFailure: bool, mask: seq<bool>) {
    || silenceIsFailure || n == 1 || |mask| <= n
    || (forall i | 1 <= i < |mask| :: mask[i])
    || (forall i | 1 <= i < |mask| :: !mask[i])
  }

  lemma ArrivedOrMissing(silenceIsFailure: bool, o: Observation)
    ensures o.healthy.Some? || silenceIsFailure ==> IsHealthy(o) || Counts(silenceIsFailure, o)
  {
    assert o.healthy.Some? && o.healthy.value ==> o.healthy == Some(true);
  }

  lemma {:induction false} SameIfCannotTell(window: real, silenceIsFailure: bool, obs: seq<Observation>,
                                            mask: seq<bool>, spacing: real, k: nat)
    requires window >= 0.0 && Follows(obs, mask, spacing) && k < |obs|
    requires CannotTell(Span(window, spacing), silenceIsFailure, mask)
    ensures SameAt(window, Span(window, spacing), silenceIsFailure, obs, k)
  {
    var n := Span(window, spacing);
    hide Span, SameAt, Evenly;
    if n == 1 {
      SameForOne(window, silenceIsFailure, obs, spacing, k);
    } else if |mask| <= n {
      SameForFew(window, silenceIsFailure, obs, spacing, k);
    } else if silenceIsFailure || forall i | 1 <= i < |mask| :: mask[i] {
      forall i | 0 <= i < |obs| ensures IsHealthy(obs[i]) || Counts(silenceIsFailure, obs[i]) {
        assert i == 0 || silenceIsFailure || mask[i];
        ArrivedOrMissing(silenceIsFailure, obs[i]);
      }
      SameIfComplete(window, silenceIsFailure, obs, spacing, k);
    } else {
      SameIfSilent(window, silenceIsFailure, obs, spacing, k);
    }
  }

  // -------------------------------------------------- a run that tells them apart

  /** Healthy up to probe `h` and failing from then on, as far as its probes arrive. */
  function FailingAfter(mask: seq<bool>, spacing: real, h: nat): (obs: seq<Observation>)
    ensures |obs| == |mask|
  {
    seq(|mask|, i requires 0 <= i < |mask| => Observation(i as real * spacing, if mask[i] then Some(i <= h) else None))
  }

  lemma FailingAfterFollows(mask: seq<bool>, spacing: real, h: nat)
    requires spacing > 0.0 && mask != [] && mask[0]
    ensures Follows(FailingAfter(mask, spacing, h), mask, spacing)
  {
    var obs := FailingAfter(mask, spacing, h);
    assert obs[0].now == 0.0;
  }

  /** Where the run is down: past the window after `h`, once a failure has arrived. */
  lemma FailingAfterDown(n: int, mask: seq<bool>, spacing: real, h: nat, k: nat)
    requires n >= 1 && h < |mask| && k < |mask| && forall i | 0 <= i <= h :: mask[i]
    ensures DownOver(n, false, FailingAfter(mask, spacing, h), k)
            <==> k >= h + n && exists j: nat :: k - n < j <= k && mask[j]
  {
    var obs := FailingAfter(mask, spacing, h);
    assert forall i: nat | i < |mask| :: IsHealthy(obs[i]) <==> mask[i] && i <= h;
    assert forall i: nat | i < |mask| :: Counts(false, obs[i]) <==> mask[i] && i > h;
    hide FailingAfter, IsHealthy, Counts;
    assert IsHealthy(obs[h]);
    if DownOver(n, false, obs, k) {
      var j: nat :| k - n < j <= k && Counts(false, obs[j]);
      assert !(k - n < h <= k);
    }
    if j: nat :| k - n < j <= k && mask[j] && k >= h + n {
      assert Counts(false, obs[j]);
    }
  }

  /** A missing probe leaves the streak short. */
  lemma {:induction false} StreakMisses(obs: seq<Observation>, h: nat, m: nat, k: nat)
    requires h < m < k <= |obs| && IsHealthy(obs[h]) && obs[m].healthy.None?
    ensures Streak(false, obs, k) <= k - h - 2
    decreases k
  {
    if m < k - 1 {
      StreakMisses(obs, h, m, k - 1);
    } else {
      StreakAtMost(false, obs, h, m);
    }
  }

  lemma {:induction false} StreakIdle(obs: seq<Observation>, h: nat, k: nat)
    requires h < k <= |obs| && IsHealthy(obs[h]) && forall i | h < i < k :: obs[i].healthy.None?
    ensures Streak(false, obs, k) == 0
    decreases k
  {
    if h < k - 1 {
      StreakIdle(obs, h, k - 1);
    }
  }

  /**
   * On any other arrivals there is a run on which only the window fires at some
   * probe: it covers a missing one, which the count still waits for.
   */
  lemma {:induction false} ToldApart(window: real, mask: seq<bool>, spacing: real)
    returns (obs: seq<Observation>, k: nat)
    requires window >= 0.0 && spacing > 0.0 && mask != [] && mask[0]
    requires !CannotTell(Span(window, spacing), false, mask)
    ensures Follows(obs, mask, spacing) && k < |obs|
    ensures Fired(Window(window, false, []), obs, k)
    ensures !Fired(Consecutive(Span(window, spacing), false, 0), obs, k)
  {
    var n := Span(window, spacing);
    hide Span;
    var m := FirstWhere(mask, false, 1);
    var h := if m > n then m - n else 0;
    obs := FailingAfter(mask, spacing, h);
    FailingAfterFollows(mask, spacing, h);
    assert h > 0 ==> mask[h + 1];
    var a := FirstWhere(mask, true, h + 1);
    k := if a <= h + n then h + n else a;
    assert IsHealthy(obs[h]);
    StreakStaysShort(n, obs, h, m, a, k);
    forall j: nat | j <= k ensures DownOver(n, false, obs, j) <==> j == k {
      FailingAfterDown(n, mask, spacing, h, j);
    }
    EvenFires(window, false, obs, spacing, k);
    ConsecutiveFiresAt(n, false, obs, k);
    hide *;
  }

  lemma StreakStaysShort(n: int, obs: seq<Observation>, h: nat, m: nat, a: nat, k: nat)
    requires n >= 2 && h < |obs| && IsHealthy(obs[h]) && h < m < |obs| && obs[m].healthy.None?
    requires h < a < |obs| && k < |obs| && k == if a <= h + n then h + n else a
    requires if a <= h + n then m <= h + n else forall i | h < i < a :: obs[i].healthy.None?
    ensures Streak(false, obs, k + 1) < n
  {
    if a <= h + n {
      StreakMisses(obs, h, m, k + 1);
    } else {
      StreakIdle(obs, h, k);
      StreakGoesOn(false, obs, k);
    }
  }

  /** The first position from `start` on that holds `b`. */
  lemma {:induction false} FirstWhere(mask: seq<bool>, b: bool, start: nat) returns (m: nat)
    requires exists i :: start <= i < |mask| && mask[i] == b
    ensures start <= m < |mask| && mask[m] == b && forall i | start <= i < m :: mask[i] != b
  {
    m := start;
    while mask[m] != b
      invariant start <= m < |mask| && forall i | start <= i < m :: mask[i] != b
      invariant exists i :: m <= i < |mask| && mask[i] == b
      decreases |mask| - m
    {
      m := m + 1;
    }
  }

  // ------------------------------------------------------- the exact condition

  lemma {:induction false} FiresMember(t: TriggerState, obs: seq<Observation>, i: nat, k: nat)
    requires StrictlyChronological(obs) && i < |obs| && k <= |obs|
    ensures obs[i].now in FiresUpTo(t, obs, k) <==> i < k && Fired(t, obs, i)
  {
    hide Fired;
    if k > 0 {
      FiresMember(t, obs, i, k - 1);
      assert i != k - 1 ==> obs[i].now != obs[k - 1].now;
    }
  }

  lemma ApartIfOneFires(window: real, n: int, silenceIsFailure: bool, obs: seq<Observation>, k: nat)
    requires StrictlyChronological(obs) && k < |obs| && !SameAt(window, n, silenceIsFailure, obs, k)
    ensures !Agree(window, n, silenceIsFailure, obs)
  {
    FiresMember(Window(window, silenceIsFailure, []), obs, k, |obs|);
    FiresMember(Consecutive(n, silenceIsFailure, 0), obs, k, |obs|);
    hide Fired, FiresUpTo;
  }

  /**
   * Exactly on which arrivals a window of `window` seconds and a count of
   * window / spacing + 1 failures report the same times, whatever the probes
   * that arrive say after a healthy first one.
   */
  lemma {:induction false} AgreeIff(window: real, silenceIsFailure: bool, mask: seq<bool>, spacing: real)
    requires window >= 0.0 && spacing > 0.0 && mask != [] && mask[0]
    ensures (forall obs | Follows(obs, mask, spacing) :: Agree(window, Span(window, spacing), silenceIsFailure, obs))
            <==> CannotTell(Span(window, spacing), silenceIsFailure, mask)
  {
    var n := Span(window, spacing);
    if CannotTell(n, silenceIsFailure, mask) {
      forall obs | Follows(obs, mask, spacing) ensures Agree(window, n, silenceIsFailure, obs) {
        forall k: nat | k < |obs| ensures SameAt(window, n, silenceIsFailure, obs, k) {
          SameIfCannotTell(window, silenceIsFailure, obs, mask, spacing, k);
        }
        hide *;
        AgreeIfSame(window, n, silenceIsFailure, obs);
      }
    } else {
      var obs, k := ToldApart(window, mask, spacing);
      EvenlyApart(obs, spacing);
      hide Span, Fired, Agree, Follows, Evenly;
      ApartIfOneFires(window, n, false, obs, k);
    }
  }

  /** Healthy, failing, missing, ten seconds apart: a window of 15 seconds fires, a count of two never does. */
  lemma {:induction false} MissingProbeTellsApart()
    ensures var obs := [Observation(0.0, Some(true)), Observation(10.0, Some(false)), Observation(20.0, None)];
            && Follows(obs, [true, true, false], 10.0) && Span(15.0, 10.0) == 2
            && FiresUpTo(Window(15.0, false, []), obs, 3) == [20.0]
            && FiresUpTo(Consecutive(2, false, 0), obs, 3) == []
  {
    var obs := [Observation(0.0, Some(true)), Observation(10.0, Some(false)), Observation(20.0, None)];
    hide FiresUpTo;
    HealthyFailingMissing(15.0, 10.0, obs);
  }

  lemma {:induction false} HealthyFailingMissing(window: real, spacing: real, obs: seq<Observation>)
    requires |obs| == 3 && Evenly(obs, spacing) && Span(window, spacing) == 2
    requires IsHealthy(obs[0]) && obs[1].healthy == Some(false) && obs[2].healthy.None?
    ensures FiresUpTo(Window(window, false, []), obs, 3) == [obs[2].now]
    ensures FiresUpTo(Consecutive(2, false, 0), obs, 3) == []
  {
    OnlyThirdIsDown(obs);
    StreakStarts(false, obs);
    StreakGoesOn(false, obs, 0);
    StreakGoesOn(false, obs, 1);
    StreakGoesOn(false, obs, 2);
    hide Span, Evenly, DownOver, Fired, Streak, FiresUpTo;
    forall k: nat | k < 3
      ensures Fired(Window(window, false, []), obs, k) <==> k == 2
      ensures !Fired(Consecutive(2, false, 0), obs, k)
    {
      EvenFires(window, false, obs, spacing, k);
      ConsecutiveFiresAt(2, false, obs, k);
    }
    ThirdFires(Window(window, false, []), obs);
    ThirdFires(Consecutive(2, false, 0), obs);
  }

  lemma OnlyThirdIsDown(obs: seq<Observation>)
    requires |obs| == 3 && IsHealthy(obs[0]) && !IsHealthy(obs[1]) && !IsHealthy(obs[2]) && Counts(false, obs[1])
    ensures !DownOver(2, false, obs, 0) && !DownOver(2, false, obs, 1) && DownOver(2, false, obs, 2)
  {
    assert 0 - 2 < 0 <= 0 && 1 - 2 < 0 <= 1;
    assert 2 - 2 < 1 <= 2;
  }

  lemma ThirdFires(t: TriggerState, obs: seq<Observation>)
    requires |obs| == 3 && !Fired(t, obs, 0) && !Fired(t, obs, 1)
    ensures FiresUpTo(t, obs, 3) == if Fired(t, obs, 2) then [obs[2].now] else []
  {
    hide Fired;
    assert FiresUpTo(t, obs, 1) == [] && FiresUpTo(t, obs, 2) == [];
  }

  /**
   * If the first thing on record is a failure, the window fires there and the
   * count only if it is one: the two agree exactly for a window that covers one
   * probe, whatever follows.
   */
  lemma {:induction false} FailureFirst(window: real, silenceIsFailure: bool, obs: seq<Observation>, spacing: real,
                                        a: nat)
    requires window >= 0.0 && Evenly(obs, spacing) && a < |obs| && Counts(silenceIsFailure, obs[a])
    requires forall i | 0 <= i < a :: !IsHealthy(obs[i]) && !Counts(silenceIsFailure, obs[i])
    ensures Fired(Window(window, silenceIsFailure, []), obs, a)
    ensures Agree(window, Span(window, spacing), silenceIsFailure, obs) <==> Span(window, spacing) == 1
  {
    var n := Span(window, spacing);
    EvenlyApart(obs, spacing);
    EvenFires(window, silenceIsFailure, obs, spacing, a);
    assert a - n < a <= a;
    ConsecutiveFiresAt(n, silenceIsFailure, obs, a);
    StreakZero(silenceIsFailure, obs, a);
    StreakGoesOn(silenceIsFailure, obs, a);
    hide Span, Fired, Streak, Agree, Evenly;
    if n == 1 {
      forall k: nat | k < |obs| ensures SameAt(window, 1, silenceIsFailure, obs, k) {
        SameForOne(window, silenceIsFailure, obs, spacing, k);
      }
      AgreeIfSame(window, n, silenceIsFailure, obs);
    } else {
      ApartIfOneFires(window, n, silenceIsFailure, obs, a);
    }
  }

  // ------------------------------------------------------------ longer windows

  /** What is down over the longer window was down over the shorter one, with nothing healthy since. */
  lemma DownShorter(n: int, m: int, silenceIsFailure: bool, obs: seq<Observation>, k: nat) returns (j: nat)
    requires 1 <= n <= m && k < |obs| && DownOver(m, silenceIsFailure, obs, k)
    ensures j <= k && DownOver(n, silenceIsFailure, obs, j) && forall h | j < h <= k :: !IsHealthy(obs[h])
  {
    var c: nat :| k - m < c <= k && Counts(silenceIsFailure, obs[c]);
    j := if c + n - 1 <= k then c + n - 1 else k;
    hide IsHealthy;
    assert j - n < c <= j;
  }

  /** A window trigger is failed over exactly when it was down with nothing healthy since. */
  lemma {:induction false} EvenFailedOver(window: real, silenceIsFailure: bool, obs: seq<Observation>, spacing: real,
                                          k: nat)
    requires Evenly(obs, spacing) && k <= |obs|
    ensures SimAt(Window(window, silenceIsFailure, []), obs, k).failedOver
            <==> exists j :: 0 <= j < k && DownOver(Span(window, spacing), silenceIsFailure, obs, j)
                             && forall h | j < h < k :: !IsHealthy(obs[h])
  {
    EvenlyApart(obs, spacing);
    WindowFailedOver(window, silenceIsFailure, obs, k);
    forall j: nat | j < |obs|
      ensures Down(window, silenceIsFailure, obs, j) <==> DownOver(Span(window, spacing), silenceIsFailure, obs, j)
    {
      DownIsDownOver(window, silenceIsFailure, obs, spacing, j);
    }
    hide *;
  }

  lemma LongerIsWider(v: real, w: real, spacing: real)
    requires 0.0 <= v <= w && spacing > 0.0
    ensures 1 <= Span(v, spacing) <= Span(w, spacing)
  {
    assert (w - v) / spacing >= 0.0;
    assert w / spacing == v / spacing + (w - v) / spacing;
  }

  /** Whoever the longer window has failed over, the shorter one has. */
  lemma {:induction false} ShorterFailsOverToo(v: real, w: real, silenceIsFailure: bool, obs: seq<Observation>,
                                               spacing: real, k: nat)
    requires Evenly(obs, spacing) && 0.0 <= v <= w && k <= |obs|
    requires SimAt(Window(w, silenceIsFailure, []), obs, k).failedOver
    ensures SimAt(Window(v, silenceIsFailure, []), obs, k).failedOver
  {
    LongerIsWider(v, w, spacing);
    EvenFailedOver(v, silenceIsFailure, obs, spacing, k);
    EvenFailedOver(w, silenceIsFailure, obs, spacing, k);
    hide SimAt, DownOver, Span, IsHealthy, Evenly;
    var i :| 0 <= i < k && DownOver(Span(w, spacing), silenceIsFailure, obs, i)
             && forall h | i < h < k :: !IsHealthy(obs[h]);
    var j := DownShorter(Span(v, spacing), Span(w, spacing), silenceIsFailure, obs, i);
  }

  /** Each step of a simulation either fires and is failed over, or was failed over, or is not. */
  lemma FiresIntoFailover(t: TriggerState, obs: seq<Observation>, k: nat)
    requires k < |obs|
    ensures SimAt(t, obs, k + 1).failedOver <==> Fired(t, obs, k) || (SimAt(t, obs, k).failedOver && !IsHealthy(obs[k]))
    ensures Fired(t, obs, k) ==> !SimAt(t, obs, k).failedOver || IsHealthy(obs[k])
    ensures FiresUpTo(t, obs, k + 1) == FiresUpTo(t, obs, k) + (if Fired(t, obs, k) then [obs[k].now] else [])
  {
    hide ObserveStep, ResetState;
  }

  /** Asking for a longer window never adds a failover, whatever is missing. */
  lemma {:induction false} LongerWindowsFailOverLess(v: real, w: real, silenceIsFailure: bool, obs: seq<Observation>,
                                                     spacing: real, k: nat)
    requires Evenly(obs, spacing) && 0.0 <= v <= w && k <= |obs|
    ensures |FiresUpTo(Window(w, silenceIsFailure, []), obs, k)|
            <= |FiresUpTo(Window(v, silenceIsFailure, []), obs, k)|
  {
    FailoverGap(v, w, silenceIsFailure, obs, spacing, k);
  }

  lemma {:induction false} FailoverGap(v: real, w: real, silenceIsFailure: bool, obs: seq<Observation>,
                                       spacing: real, k: nat)
    requires Evenly(obs, spacing) && 0.0 <= v <= w && k <= |obs|
    ensures var short, long := Window(v, silenceIsFailure, []), Window(w, silenceIsFailure, []);
            && |FiresUpTo(short, obs, k)|
               >= |FiresUpTo(long, obs, k)|
                  + (if SimAt(short, obs, k).failedOver && !SimAt(long, obs, k).failedOver then 1 else 0)
  {
    if k > 0 {
      var short, long := Window(v, silenceIsFailure, []), Window(w, silenceIsFailure, []);
      FiresIntoFailover(short, obs, k - 1);
      FiresIntoFailover(long, obs, k - 1);
      EvenlyApart(obs, spacing);
      if IsHealthy(obs[k - 1]) {
        HealthyIsQuiet(v, silenceIsFailure, obs, k - 1);
        HealthyIsQuiet(w, silenceIsFailure, obs, k - 1);
      }
      hide SimAt, Fired, FiresUpTo, IsHealthy;
      FailoverGap(v, w, silenceIsFailure, obs, spacing, k - 1);
      if SimAt(long, obs, k).failedOver {
        ShorterFailsOverToo(v, w, silenceIsFailure, obs, spacing, k);
      }
    }
  }

  lemma HealthyIsQuiet(window: real, silenceIsFailure: bool, obs: seq<Observation>, k: nat)
    requires Chronological(obs) && k < |obs| && IsHealthy(obs[k])
    ensures !Fired(Window(window, silenceIsFailure, []), obs, k)
  {
    WindowStep(window, silenceIsFailure, obs, k);
    HealthyNotDown(window, silenceIsFailure, obs, k);
    hide Fired, SimAt, Down;
  }
}
