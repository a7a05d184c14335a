/** What the control law keeps over whole runs. */
module BoostTheorems {
  import opened Boost

  // ---------------------------------------------------------------- the shape of the floors

  /** The loop writes floors in this window. */
  predicate Writes(cfg: Config, s: State, w: Window) {
    (Demand(cfg, w) && !s.boosted) || (Quiet(cfg, w) && MayRelease(cfg, s, w))
  }

  ghost function NextProgress(cfg: Config, s: State, w: Window, j: nat): (r: nat)
    requires Fits(cfg, s) && Answers(cfg, w) && j <= |cfg.policies|
    ensures r <= |cfg.policies|
  {
    if !Writes(cfg, s, w) then j
    else if Written(w.ok) == |cfg.policies| then 0
    else if Written(w.ok) > j then Written(w.ok)
    else j
  }

  /** How far the unfinished raise or release has got since the last completed one. */
  ghost function Progress(cfg: Config, s: State, ws: seq<Window>): (j: nat)
    requires Fits(cfg, s) && AllAnswer(cfg, ws)
    ensures j <= |cfg.policies|
  {
    if ws == [] then 0
    else
      var n := |ws| - 1;
      NextProgress(cfg, After(cfg, s, ws[..n]), ws[n], Progress(cfg, s, ws[..n]))
  }

  /** Some window before the end of the run left the controller boosted. */
  ghost predicate EverBoosted(cfg: Config, s: State, ws: seq<Window>)
    requires Fits(cfg, s) && AllAnswer(cfg, ws)
  {
    s.boosted || (ws != [] && (EverBoosted(cfg, s, ws[..|ws| - 1]) || After(cfg, s, ws).boosted))
  }

  /** Where the floors are down: as start-up left them until the first completed raise,
      and at mn from then on. */
  ghost function Down(cfg: Config, s: State, ws: seq<Window>): (down: seq<int>)
    requires Fits(cfg, s) && AllAnswer(cfg, ws)
    ensures |down| == |cfg.policies|
  {
    if EverBoosted(cfg, s, ws) then Minima(cfg) else s.floors
  }

  /** Not boosted, the first j floors are at hw and the rest where they are down; boosted,
      the first j are back at mn and the rest at hw. */
  ghost predicate OnTheWay(cfg: Config, s: State, down: seq<int>, j: nat)
    requires j <= |cfg.policies| == |down|
  {
    s.floors == if s.boosted then Mix(Minima(cfg), Maxima(cfg), j) else Mix(Maxima(cfg), down, j)
  }

  lemma MixAgain(xs: seq<int>, ys: seq<int>, j: nat, k: nat)
    requires j <= |xs| == |ys| && k <= |xs|
    ensures Mix(xs, Mix(xs, ys, j), k) == Mix(xs, ys, if k > j then k else j)
  {
  }

  lemma MixEnds(xs: seq<int>, ys: seq<int>)
    requires |xs| == |ys|
    ensures Mix(xs, ys, 0) == ys && Mix(xs, ys, |xs|) == xs
  {
  }

  lemma ShapeStep(cfg: Config, s: State, w: Window, down: seq<int>, after: seq<int>, j: nat)
    requires Fits(cfg, s) && Answers(cfg, w) && j <= |cfg.policies| == |down| && OnTheWay(cfg, s, down, j)
    requires after == if s.boosted || Step(cfg, s, w).boosted then Minima(cfg) else down
    ensures OnTheWay(cfg, Step(cfg, s, w), after, NextProgress(cfg, s, w, j))
  {
    if Writes(cfg, s, w) {
      var lo, hi, k := Minima(cfg), Maxima(cfg), Written(w.ok);
      var target, base := if s.boosted then lo else hi, if s.boosted then hi else down;
      assert s.floors == Mix(target, base, j);
      assert Step(cfg, s, w).floors == Mix(target, s.floors, k);
      if k == |cfg.policies| {
        MixEnds(target, s.floors);
        MixEnds(if s.boosted then hi else lo, target);
      } else {
        MixAgain(target, base, j, k);
      }
    }
  }

  /** Whatever writes fail, at start-up or later, the floors are a prefix on the way to the
      other side. */
  lemma {:induction false} FloorsShape(cfg: Config, s: State, ws: seq<Window>)
    requires Fits(cfg, s) && !s.boosted && AllAnswer(cfg, ws)
    ensures OnTheWay(cfg, After(cfg, s, ws), Down(cfg, s, ws), Progress(cfg, s, ws))
    ensures After(cfg, s, ws).boosted ==> EverBoosted(cfg, s, ws)
  {
    if ws == [] {
      MixEnds(Maxima(cfg), s.floors);
    } else {
      var n := |ws| - 1;
      var before := After(cfg, s, ws[..n]);
      FloorsShape(cfg, s, ws[..n]);
      ShapeStep(cfg, before, ws[n], if before.boosted then Minima(cfg) else Down(cfg, s, ws[..n]),
                Down(cfg, s, ws), Progress(cfg, s, ws[..n]));
    }
  }

  predicate NoFailures(ws: seq<Window>) {
    forall k :: 0 <= k < |ws| ==> Written(ws[k].ok) == |ws[k].ok|
  }

  /** Without failures the flag tells the truth. */
  lemma {:induction false} FlagIsTrue(cfg: Config, ws: seq<Window>)
    requires AllAnswer(cfg, ws) && NoFailures(ws)
    ensures var s := After(cfg, Rested(cfg), ws);
      && s.floors == (if s.boosted then Maxima(cfg) else Minima(cfg))
      && (Maxima(cfg) != Minima(cfg) ==> (s.boosted <==> s.floors == Maxima(cfg)))
  {
    FloorsShape(cfg, Rested(cfg), ws);
    NothingUnfinished(cfg, ws);
    MixEnds(Maxima(cfg), Minima(cfg));
    MixEnds(Minima(cfg), Maxima(cfg));
  }

  lemma {:induction false} NothingUnfinished(cfg: Config, ws: seq<Window>)
    requires AllAnswer(cfg, ws) && NoFailures(ws)
    ensures Progress(cfg, Rested(cfg), ws) == 0
  {
    if ws != [] {
      NothingUnfinished(cfg, ws[..|ws| - 1]);
    }
  }

  // ---------------------------------------------------------------- the thresholds

  /** A boost takes load over one of the boost thresholds, user against user and system
      against system, and then comes at once, if it is not there yet and all writes work. */
  lemma BoostCause(cfg: Config, s: State, w: Window)
    requires Fits(cfg, s) && Answers(cfg, w)
    ensures var r := Step(cfg, s, w);
      (!s.boosted && r.boosted) <==>
        !s.boosted && (w.user >= cfg.boostCores || w.system >= cfg.sysBoost) && forall i :: 0 <= i < |w.ok| ==> w.ok[i]
    ensures !s.boosted && Step(cfg, s, w).boosted ==> Step(cfg, s, w).boostedAt == w.now
  {
  }

  /** A release takes less than both quiet thresholds in a window without load, the
      drop_after-th such in a row, min_boost after the boost. */
  lemma ReleaseCause(cfg: Config, s: State, w: Window)
    requires Fits(cfg, s) && Answers(cfg, w)
    ensures var r := Step(cfg, s, w);
      (s.boosted && !r.boosted) <==>
        && s.boosted && w.user < cfg.boostCores && w.system < cfg.sysBoost
        && w.user < cfg.dropCores && w.system < cfg.sysQuiet
        && s.idle + 1 >= cfg.dropAfter && w.now - s.boostedAt >= cfg.minBoost
        && forall i :: 0 <= i < |w.ok| ==> w.ok[i]
  {
  }

  /** Windows below both quiet thresholds and without load are counted; any other, and a
      release, starts the count again. */
  lemma IdleCount(cfg: Config, s: State, w: Window)
    requires Fits(cfg, s) && Answers(cfg, w)
    ensures var r := Step(cfg, s, w);
      r.idle ==
        if w.user >= cfg.boostCores || w.system >= cfg.sysBoost || w.user >= cfg.dropCores || w.system >= cfg.sysQuiet
           || (s.boosted && !r.boosted)
        then 0 else s.idle + 1
  {
  }

  /** A floor goes up only under load, to its policy's hw, and down only in a window below
      the quiet thresholds, to its mn. */
  lemma FloorCause(cfg: Config, s: State, w: Window, i: nat)
    requires Fits(cfg, s) && Answers(cfg, w) && i < |cfg.policies|
    ensures var f, g := s.floors[i], Step(cfg, s, w).floors[i];
      f != g ==>
        || (!s.boosted && g == cfg.policies[i].hw && (w.user >= cfg.boostCores || w.system >= cfg.sysBoost))
        || (s.boosted && g == cfg.policies[i].mn && w.user < cfg.dropCores && w.system < cfg.sysQuiet)
  {
  }

  /** Load and working writes leave every floor of an unboosted controller at hw. */
  lemma LoadRaises(cfg: Config, s: State, w: Window)
    requires Fits(cfg, s) && Answers(cfg, w) && !s.boosted
    requires w.user >= cfg.boostCores || w.system >= cfg.sysBoost
    requires forall i :: 0 <= i < |w.ok| ==> w.ok[i]
    ensures forall i :: 0 <= i < |cfg.policies| ==> Step(cfg, s, w).floors[i] == cfg.policies[i].hw
  {
  }

  /** With the default thresholds for eight cores the background load of one core that is
      not the user's raises nothing. */
  lemma BackgroundIgnored(cfg: Config, s: State, now: real, ok: seq<bool>)
    requires Fits(cfg, s) && |ok| == |cfg.policies| && !s.boosted
    requires cfg.boostCores == 0.6 && cfg.dropCores == 0.15 && cfg.sysBoost == 5.6 && cfg.sysQuiet == 0.96
    ensures var r := Step(cfg, s, Window(0.1, 0.9, now, ok)); r.floors == s.floors && !r.boosted && r.idle == s.idle + 1
  {
  }

  // ---------------------------------------------------------------- when it boosts and releases

  function At(cfg: Config, s: State, ws: seq<Window>, k: nat): State
    requires Fits(cfg, s) && AllAnswer(cfg, ws) && k <= |ws|
  {
    After(cfg, s, ws[..k])
  }

  predicate BoostsIn(cfg: Config, s: State, ws: seq<Window>, k: nat)
    requires Fits(cfg, s) && AllAnswer(cfg, ws) && k < |ws|
  {
    !At(cfg, s, ws, k).boosted && At(cfg, s, ws, k + 1).boosted
  }

  predicate ReleasesIn(cfg: Config, s: State, ws: seq<Window>, k: nat)
    requires Fits(cfg, s) && AllAnswer(cfg, ws) && k < |ws|
  {
    At(cfg, s, ws, k).boosted && !At(cfg, s, ws, k + 1).boosted
  }

  /** The quiet windows a release takes: the counter is at least 1 when it is compared. */
  function Patience(cfg: Config): (d: int)
    ensures d >= 1 && d >= cfg.dropAfter
  {
    if cfg.dropAfter >= 1 then cfg.dropAfter else 1
  }

  lemma AtNext(cfg: Config, s: State, ws: seq<Window>, k: nat)
    requires Fits(cfg, s) && AllAnswer(cfg, ws) && k < |ws|
    ensures At(cfg, s, ws, k + 1) == Step(cfg, At(cfg, s, ws, k), ws[k])
  {
    assert ws[..k + 1][..k] == ws[..k];
  }

  /** The window in which the boost that now holds began, with the clock it recorded. */
  ghost predicate Since(cfg: Config, s: State, ws: seq<Window>, j: nat, k: nat)
    requires Fits(cfg, s) && AllAnswer(cfg, ws) && j < k <= |ws|
  {
    && BoostsIn(cfg, s, ws, j)
    && (forall i :: j < i <= k ==> At(cfg, s, ws, i).boosted)
    && At(cfg, s, ws, k).boostedAt == ws[j].now
  }

  /** The idle counter counts the windows since the last one that was not quiet. */
  ghost predicate IdleStreak(cfg: Config, s: State, ws: seq<Window>, k: nat)
    requires Fits(cfg, s) && AllAnswer(cfg, ws) && k <= |ws|
  {
    var idle := At(cfg, s, ws, k).idle;
    idle <= k && forall i :: k - idle <= i < k ==> Quiet(cfg, ws[i])
  }

  lemma {:induction false} Streak(cfg: Config, s: State, ws: seq<Window>, k: nat)
    requires Fits(cfg, s) && AllAnswer(cfg, ws) && k <= |ws| && s.idle == 0
    ensures IdleStreak(cfg, s, ws, k)
  {
    if k > 0 {
      Streak(cfg, s, ws, k - 1);
      AtNext(cfg, s, ws, k - 1);
    }
  }

  lemma {:induction false} LastBoost(cfg: Config, s: State, ws: seq<Window>, k: nat) returns (j: nat)
    requires Fits(cfg, s) && AllAnswer(cfg, ws) && k <= |ws|
    requires !s.boosted && s.idle == 0 && At(cfg, s, ws, k).boosted
    ensures j < k && Since(cfg, s, ws, j, k)
  {
    AtNext(cfg, s, ws, k - 1);
    if At(cfg, s, ws, k - 1).boosted {
      j := LastBoost(cfg, s, ws, k - 1);
    } else {
      j := k - 1;
    }
  }

  /** A release ends the boost of an earlier window: it comes at least min_boost after it,
      in a window where every write succeeds, and the last drop_after windows, all of them
      after that boost, were quiet. */
  lemma ReleaseDiscipline(cfg: Config, s: State, ws: seq<Window>, k: nat) returns (j: nat)
    requires Fits(cfg, s) && AllAnswer(cfg, ws) && k < |ws| && !s.boosted && s.idle == 0
    requires ReleasesIn(cfg, s, ws, k)
    ensures j < k && Since(cfg, s, ws, j, k)
    ensures ws[k].now - ws[j].now >= cfg.minBoost && Written(ws[k].ok) == |ws[k].ok|
    ensures k - j >= Patience(cfg)
    ensures forall i :: k - Patience(cfg) < i <= k ==> Quiet(cfg, ws[i])
  {
    j := LastBoost(cfg, s, ws, k);
    Streak(cfg, s, ws, k);
    AtNext(cfg, s, ws, j);
    AtNext(cfg, s, ws, k);
    assert Demand(cfg, ws[j]) && Quiet(cfg, ws[k]);
    assert MayRelease(cfg, At(cfg, s, ws, k), ws[k]);
  }

  /** Boosts and releases alternate. */
  lemma {:induction false} ReleasedBetween(cfg: Config, s: State, ws: seq<Window>, j: nat, k: nat) returns (r: nat)
    requires Fits(cfg, s) && AllAnswer(cfg, ws) && j < k < |ws|
    requires At(cfg, s, ws, j + 1).boosted && !At(cfg, s, ws, k).boosted
    ensures j < r < k && ReleasesIn(cfg, s, ws, r)
    decreases k
  {
    if At(cfg, s, ws, k - 1).boosted {
      r := k - 1;
    } else {
      r := ReleasedBetween(cfg, s, ws, j, k - 1);
    }
  }

  lemma BoostSpacing(cfg: Config, s: State, ws: seq<Window>, j: nat, k: nat)
    requires Fits(cfg, s) && AllAnswer(cfg, ws) && j < k < |ws| && !s.boosted && s.idle == 0
    requires BoostsIn(cfg, s, ws, j) && BoostsIn(cfg, s, ws, k)
    ensures k - j >= Patience(cfg) + 1
  {
    var r := ReleasedBetween(cfg, s, ws, j, k);
    var b := ReleaseDiscipline(cfg, s, ws, r);
    assert b >= j;
  }

  // ---------------------------------------------------------------- bounded release

  function Ceil(x: real): int {
    -(-x).Floor
  }

  /** max(drop_after, ceil(min_boost / interval)), and at least one window. */
  function Bound(cfg: Config, interval: real): (b: int)
    requires interval > 0.0
    ensures b >= Patience(cfg)
  {
    var dwell := Ceil(cfg.minBoost / interval);
    if dwell > Patience(cfg) then dwell else Patience(cfg)
  }

  lemma DwellInWindows(cfg: Config, interval: real, n: int)
    requires interval > 0.0
    ensures n as real * interval >= cfg.minBoost <==> n >= Ceil(cfg.minBoost / interval)
  {
    var q := cfg.minBoost / interval;
    assert q * interval == cfg.minBoost;
    if n as real >= q {
      assert n as real * interval >= q * interval;
    } else {
      assert n as real * interval < q * interval;
    }
  }

  /** Quiet windows, at least `interval` apart, from a time when the boost already held. */
  predicate QuietSpell(cfg: Config, s: State, ws: seq<Window>, from: real, interval: real) {
    && s.boostedAt <= from
    && forall k :: 0 <= k < |ws| ==> Quiet(cfg, ws[k]) && ws[k].now >= from + (k + 1) as real * interval
  }

  lemma {:induction false} ReleasedBy(cfg: Config, s: State, ws: seq<Window>, from: real, interval: real)
    requires interval > 0.0 && Fits(cfg, s) && AllAnswer(cfg, ws) && NoFailures(ws)
    requires QuietSpell(cfg, s, ws, from, interval)
    ensures var r := After(cfg, s, ws);
      && (r.boosted ==> s.boosted && r.idle == s.idle + |ws| && r.boostedAt == s.boostedAt && |ws| < Bound(cfg, interval))
      && (!r.boosted && s.boosted ==> r.floors == Minima(cfg))
  {
    if ws != [] {
      var n := |ws| - 1;
      var r := After(cfg, s, ws[..n]);
      ReleasedBy(cfg, s, ws[..n], from, interval);
      MixEnds(Minima(cfg), r.floors);
      if r.boosted && |ws| >= Bound(cfg, interval) {
        DwellInWindows(cfg, interval, |ws|);
        assert MayRelease(cfg, r, ws[n]);
      }
    }
  }

  /** If every window from some point on is quiet and the writes succeed, a boosted
      controller has every floor at mn within Bound windows. */
  lemma BoundedRelease(cfg: Config, s: State, ws: seq<Window>, from: real, interval: real)
    requires interval > 0.0 && Fits(cfg, s) && AllAnswer(cfg, ws) && NoFailures(ws) && s.boosted
    requires QuietSpell(cfg, s, ws, from, interval) && |ws| >= Bound(cfg, interval)
    ensures !After(cfg, s, ws).boosted && After(cfg, s, ws).floors == Minima(cfg)
  {
    ReleasedBy(cfg, s, ws, from, interval);
  }

  lemma {:induction false} AfterSplit(cfg: Config, s: State, ws: seq<Window>, m: nat)
    requires Fits(cfg, s) && AllAnswer(cfg, ws) && m <= |ws|
    ensures After(cfg, s, ws) == After(cfg, After(cfg, s, ws[..m]), ws[m..])
  {
    var n := |ws| - 1;
    if m == |ws| {
      assert ws[..m] == ws;
    } else {
      AfterSplit(cfg, s, ws[..n], m);
      assert ws[..n][..m] == ws[..m] && ws[..n][m..] == ws[m..][..n - m];
    }
  }

  /** The sleep keeps the windows at least `interval` apart. */
  predicate Spaced(ws: seq<Window>, interval: real) {
    forall j, k :: 0 <= j < k < |ws| ==> ws[k].now >= ws[j].now + (k - j) as real * interval
  }

  predicate QuietFrom(cfg: Config, ws: seq<Window>, m: nat) {
    forall k :: m <= k < |ws| ==> Quiet(cfg, ws[k]) && Written(ws[k].ok) == |ws[k].ok|
  }

  lemma BoostedBefore(cfg: Config, s: State, ws: seq<Window>, m: nat, interval: real)
    requires Fits(cfg, s) && !s.boosted && s.idle == 0 && AllAnswer(cfg, ws) && m <= |ws|
    requires interval > 0.0 && Spaced(ws, interval) && At(cfg, s, ws, m).boosted
    ensures m >= 1 && At(cfg, s, ws, m).boostedAt <= ws[m - 1].now
  {
    var j := LastBoost(cfg, s, ws, m);
    if j < m - 1 {
      assert (m - 1 - j) as real * interval >= 0.0;
    }
  }

  lemma SpellFrom(cfg: Config, r: State, ws: seq<Window>, m: nat, interval: real)
    requires interval > 0.0 && Spaced(ws, interval) && QuietFrom(cfg, ws, m) && 1 <= m <= |ws|
    requires r.boostedAt <= ws[m - 1].now
    ensures QuietSpell(cfg, r, ws[m..], ws[m - 1].now, interval) && NoFailures(ws[m..])
  {
    forall k | 0 <= k < |ws[m..]| ensures ws[m..][k].now >= ws[m - 1].now + (k + 1) as real * interval {
      assert ws[m + k].now >= ws[m - 1].now + (m + k - (m - 1)) as real * interval;
    }
  }

  /** The same within one run, quiet from window m on. */
  lemma BoundedReleaseInRun(cfg: Config, s: State, ws: seq<Window>, m: nat, interval: real)
    requires Fits(cfg, s) && !s.boosted && s.idle == 0
    requires interval > 0.0 && AllAnswer(cfg, ws) && m + Bound(cfg, interval) <= |ws|
    requires Spaced(ws, interval) && QuietFrom(cfg, ws, m)
    requires At(cfg, s, ws, m).boosted
    ensures var r := After(cfg, s, ws); !r.boosted && r.floors == Minima(cfg)
  {
    var r := At(cfg, s, ws, m);
    BoostedBefore(cfg, s, ws, m, interval);
    SpellFrom(cfg, r, ws, m, interval);
    AfterSplit(cfg, s, ws, m);
    BoundedRelease(cfg, r, ws[m..], ws[m - 1].now, interval);
  }

  /** The bound is exact: right after a boost, with windows exactly `interval` apart, the
      release comes in window Bound and in no earlier one. */
  lemma {:induction false} ReleaseExactly(cfg: Config, s: State, ws: seq<Window>, interval: real)
    requires interval > 0.0 && Fits(cfg, s) && AllAnswer(cfg, ws) && NoFailures(ws)
    requires s.boosted && s.idle == 0
    requires forall k :: 0 <= k < |ws| ==>
      Quiet(cfg, ws[k]) && ws[k].now == s.boostedAt + (k + 1) as real * interval
    ensures After(cfg, s, ws).boosted <==> |ws| < Bound(cfg, interval)
  {
    ReleasedBy(cfg, s, ws, s.boostedAt, interval);
    if ws != [] && |ws| < Bound(cfg, interval) {
      var n := |ws| - 1;
      ReleaseExactly(cfg, s, ws[..n], interval);
      ReleasedBy(cfg, s, ws[..n], s.boostedAt, interval);
      DwellInWindows(cfg, interval, |ws|);
    }
  }

  // ---------------------------------------------------------------- half a raise, half a release

  /** A raise that stopped half way leaves floors at hw that no window without demand
      lowers, because only a boosted controller releases. */
  lemma {:induction false} HalfRaisedStaysUp(cfg: Config, s: State, ws: seq<Window>)
    requires Fits(cfg, s) && AllAnswer(cfg, ws) && !s.boosted
    requires forall k :: 0 <= k < |ws| ==> !Demand(cfg, ws[k])
    ensures After(cfg, s, ws).floors == s.floors && !After(cfg, s, ws).boosted
  {
    if ws != [] {
      HalfRaisedStaysUp(cfg, s, ws[..|ws| - 1]);
    }
  }

  /** A release that stopped half way leaves floors at mn that no demand raises. */
  lemma {:induction false} HalfReleasedStaysDown(cfg: Config, s: State, ws: seq<Window>)
    requires Fits(cfg, s) && AllAnswer(cfg, ws) && s.boosted
    requires forall k :: 0 <= k < |ws| ==> Demand(cfg, ws[k])
    ensures After(cfg, s, ws).floors == s.floors && After(cfg, s, ws).boosted
  {
    if ws != [] {
      HalfReleasedStaysDown(cfg, s, ws[..|ws| - 1]);
    }
  }

  /** The first j policies have only one frequency to choose from. */
  predicate FixedUpTo(cfg: Config, j: nat)
    requires j <= |cfg.policies|
  {
    forall i :: 0 <= i < j ==> cfg.policies[i].hw == cfg.policies[i].mn
  }

  /** From policy j on the floors are at mn. */
  predicate LowFrom(cfg: Config, floors: seq<int>, j: nat)
    requires |floors| == |cfg.policies|
  {
    forall i :: j <= i < |floors| ==> floors[i] == cfg.policies[i].mn
  }

  lemma HalfIsWhole(cfg: Config, down: seq<int>, j: nat)
    requires j <= |cfg.policies| == |down|
    ensures Mix(Maxima(cfg), down, j) == Minima(cfg) <==> FixedUpTo(cfg, j) && LowFrom(cfg, down, j)
    ensures Mix(Minima(cfg), Maxima(cfg), j) == Maxima(cfg) <==> FixedUpTo(cfg, j)
  {
    var lo, hi := Minima(cfg), Maxima(cfg);
    var up, low := Mix(hi, down, j), Mix(lo, hi, j);
    assert forall i :: 0 <= i < |lo| ==> up[i] == (if i < j then hi[i] else down[i]) && low[i] == (if i < j then lo[i] else hi[i]);
    assert forall i :: 0 <= i < |lo| ==> lo[i] == cfg.policies[i].mn && hi[i] == cfg.policies[i].hw;
    if up == lo {
      forall i | 0 <= i < |lo| ensures if i < j then cfg.policies[i].hw == cfg.policies[i].mn else down[i] == cfg.policies[i].mn {
        assert up[i] == lo[i];
      }
    }
    if low == hi {
      forall i | 0 <= i < j ensures cfg.policies[i].hw == cfg.policies[i].mn {
        assert low[i] == hi[i];
      }
    }
  }

  /** Start-up's writes that matter have worked: from policy j on, the floor was written or
      was at mn already. */
  predicate LoweredFrom(cfg: Config, present: seq<int>, ok: seq<bool>, j: nat)
    requires |present| == |ok| == |cfg.policies|
  {
    forall i :: j <= i < |ok| ==> ok[i] || present[i] == cfg.policies[i].mn
  }

  /** What a quiet spell needs to find after the run ws: a boosted controller, or no raise
      left half done on a policy that has two frequencies and, if no raise was ever
      completed, no floor that start-up failed to lower among the others. */
  ghost predicate CanSettle(cfg: Config, present: seq<int>, ok: seq<bool>, ws: seq<Window>)
    requires |present| == |ok| == |cfg.policies| && AllAnswer(cfg, ws)
  {
    var start := Start(cfg, present, ok);
    var j := Progress(cfg, start, ws);
    || After(cfg, start, ws).boosted
    || (FixedUpTo(cfg, j) && (EverBoosted(cfg, start, ws) || LoweredFrom(cfg, present, ok, j)))
  }

  lemma UnboostedSettlesIff(cfg: Config, present: seq<int>, ok: seq<bool>, ws: seq<Window>)
    requires |present| == |ok| == |cfg.policies| && AllAnswer(cfg, ws)
    requires !After(cfg, Start(cfg, present, ok), ws).boosted
    ensures After(cfg, Start(cfg, present, ok), ws).floors == Minima(cfg) <==> CanSettle(cfg, present, ok, ws)
  {
    var start := Start(cfg, present, ok);
    var j, down := Progress(cfg, start, ws), Down(cfg, start, ws);
    FloorsShape(cfg, start, ws);
    HalfIsWhole(cfg, down, j);
    assert LowFrom(cfg, Minima(cfg), j);
    assert forall i :: 0 <= i < |ok| ==> start.floors[i] == if ok[i] then cfg.policies[i].mn else present[i];
  }

  /** A quiet spell of Bound windows with successful writes brings every floor down exactly
      when it finds one of these. */
  lemma {:induction false} QuietLowersIff(cfg: Config, present: seq<int>, ok: seq<bool>, ws: seq<Window>,
                                          quiet: seq<Window>, from: real, interval: real)
    requires |present| == |ok| == |cfg.policies|
    requires interval > 0.0 && AllAnswer(cfg, ws) && AllAnswer(cfg, quiet) && NoFailures(quiet)
    requires QuietSpell(cfg, After(cfg, Start(cfg, present, ok), ws), quiet, from, interval)
    requires |quiet| >= Bound(cfg, interval)
    ensures After(cfg, After(cfg, Start(cfg, present, ok), ws), quiet).floors == Minima(cfg) <==>
      CanSettle(cfg, present, ok, ws)
  {
    var s := After(cfg, Start(cfg, present, ok), ws);
    if s.boosted {
      BoundedRelease(cfg, s, quiet, from, interval);
    } else {
      HalfRaisedStaysUp(cfg, s, quiet);
      UnboostedSettlesIff(cfg, present, ok, ws);
    }
  }

  lemma HalfRaisedFrom(cfg: Config, s: State, ws: seq<Window>, m: nat)
    requires Fits(cfg, s) && AllAnswer(cfg, ws) && m <= |ws| && !At(cfg, s, ws, m).boosted
    requires forall k :: m <= k < |ws| ==> !Demand(cfg, ws[k])
    ensures After(cfg, s, ws).floors == At(cfg, s, ws, m).floors
  {
    AfterSplit(cfg, s, ws, m);
    HalfRaisedStaysUp(cfg, At(cfg, s, ws, m), ws[m..]);
  }

  /** The same within one run, quiet from window m on. */
  lemma {:induction false} QuietLowersInRunIff(cfg: Config, present: seq<int>, ok: seq<bool>, ws: seq<Window>,
                                               m: nat, interval: real)
    requires |present| == |ok| == |cfg.policies|
    requires interval > 0.0 && AllAnswer(cfg, ws) && m + Bound(cfg, interval) <= |ws|
    requires Spaced(ws, interval) && QuietFrom(cfg, ws, m)
    ensures After(cfg, Start(cfg, present, ok), ws).floors == Minima(cfg) <==> CanSettle(cfg, present, ok, ws[..m])
  {
    var start := Start(cfg, present, ok);
    if At(cfg, start, ws, m).boosted {
      BoundedReleaseInRun(cfg, start, ws, m, interval);
    } else {
      HalfRaisedFrom(cfg, start, ws, m);
      UnboostedSettlesIff(cfg, present, ok, ws[..m]);
    }
  }

  lemma {:induction false} DemandRaises(cfg: Config, s: State, busy: seq<Window>)
    requires Fits(cfg, s) && AllAnswer(cfg, busy) && NoFailures(busy) && busy != [] && !s.boosted
    requires forall k :: 0 <= k < |busy| ==> Demand(cfg, busy[k])
    ensures After(cfg, s, busy).boosted && After(cfg, s, busy).floors == Maxima(cfg)
  {
    var n := |busy| - 1;
    var r := After(cfg, s, busy[..n]);
    if n > 0 {
      DemandRaises(cfg, s, busy[..n]);
    }
    MixEnds(Maxima(cfg), r.floors);
  }

  /** Demand with successful writes brings every floor up exactly when it finds the
      controller not boosted, or no release left half done on a policy with two frequencies;
      what start-up failed to write does not matter. */
  lemma {:induction false} DemandRaisesIff(cfg: Config, present: seq<int>, ok: seq<bool>, ws: seq<Window>, busy: seq<Window>)
    requires |present| == |ok| == |cfg.policies|
    requires AllAnswer(cfg, ws) && AllAnswer(cfg, busy) && NoFailures(busy) && busy != []
    requires forall k :: 0 <= k < |busy| ==> Demand(cfg, busy[k])
    ensures var start := Start(cfg, present, ok);
      var s := After(cfg, start, ws);
      After(cfg, s, busy).floors == Maxima(cfg) <==> !s.boosted || FixedUpTo(cfg, Progress(cfg, start, ws))
  {
    var start := Start(cfg, present, ok);
    var s := After(cfg, start, ws);
    if s.boosted {
      FloorsShape(cfg, start, ws);
      HalfReleasedStaysDown(cfg, s, busy);
      HalfIsWhole(cfg, Down(cfg, start, ws), Progress(cfg, start, ws));
    } else {
      DemandRaises(cfg, s, busy);
    }
  }

  // Two policies, the default thresholds for eight cores, two quiet windows to a release.
  const TWO: Config := Config([Policy(1800, 600), Policy(2000, 800)], 0.6, 0.15, 5.6, 0.96, 2, 5.0)

  function Busy(now: real, ok: seq<bool>): Window { Window(1.0, 1.0, now, ok) }

  function Idle(now: real, ok: seq<bool>): Window { Window(0.0, 0.0, now, ok) }

  lemma AfterOne(cfg: Config, s: State, w: Window)
    requires Fits(cfg, s) && Answers(cfg, w)
    ensures AllAnswer(cfg, [w]) && After(cfg, s, [w]) == Step(cfg, s, w)
  {
    assert [w][..0] == [];
  }

  lemma AfterNext(cfg: Config, s: State, ws: seq<Window>, w: Window)
    requires Fits(cfg, s) && AllAnswer(cfg, ws) && Answers(cfg, w)
    ensures AllAnswer(cfg, ws + [w]) && After(cfg, s, ws + [w]) == Step(cfg, After(cfg, s, ws), w)
  {
    assert (ws + [w])[..|ws|] == ws;
  }

  lemma SecondWriteFails()
    ensures Written([true, false]) == 1 && Written([true, true]) == 2
  {
    assert [true, false][1..] == [false] && [true, true][1..] == [true] && [true][1..] == [];
  }

  /** A floor that start-up fails to lower stays up until there is demand. */
  lemma LeftUpForEver() returns (cfg: Config)
    ensures cfg.policies == [Policy(3, 1)] && !Start(cfg, [3], [false]).boosted
    ensures forall quiet :: AllAnswer(cfg, quiet) && (forall k :: 0 <= k < |quiet| ==> Quiet(cfg, quiet[k])) ==>
      After(cfg, Start(cfg, [3], [false]), quiet).floors == [3] != Minima(cfg)
  {
    cfg := TWO.(policies := [Policy(3, 1)]);
    var s := Start(cfg, [3], [false]);
    assert s.floors == [3] && Minima(cfg)[0] == 1;
    forall quiet | AllAnswer(cfg, quiet) && (forall k :: 0 <= k < |quiet| ==> Quiet(cfg, quiet[k]))
      ensures After(cfg, s, quiet).floors == [3]
    {
      HalfRaisedStaysUp(cfg, s, quiet);
    }
  }

  /** One busy window whose second write fails, and the first floor stays at 1800. */
  lemma HalfRaisedForEver() returns (ws: seq<Window>)
    ensures AllAnswer(TWO, ws) && !After(TWO, Rested(TWO), ws).boosted
    ensures forall quiet :: AllAnswer(TWO, quiet) && (forall k :: 0 <= k < |quiet| ==> Quiet(TWO, quiet[k])) ==>
      After(TWO, After(TWO, Rested(TWO), ws), quiet).floors == [1800, 800] != Minima(TWO)
  {
    var w := Busy(1.0, [true, false]);
    ws := [w];
    SecondWriteFails();
    AfterOne(TWO, Rested(TWO), w);
    var s := After(TWO, Rested(TWO), ws);
    assert s.floors == [1800, 800] && Minima(TWO)[0] == 600;
    forall quiet | AllAnswer(TWO, quiet) && (forall k :: 0 <= k < |quiet| ==> Quiet(TWO, quiet[k]))
      ensures After(TWO, s, quiet).floors == [1800, 800]
    {
      HalfRaisedStaysUp(TWO, s, quiet);
    }
  }

  /** A boost, two quiet windows, the second write of the release fails: the first floor
      stays at 600 for as long as there is demand. */
  lemma HalfReleasedForEver() returns (ws: seq<Window>)
    ensures AllAnswer(TWO, ws) && After(TWO, Rested(TWO), ws).boosted
    ensures forall busy :: AllAnswer(TWO, busy) && (forall k :: 0 <= k < |busy| ==> Demand(TWO, busy[k])) ==>
      After(TWO, After(TWO, Rested(TWO), ws), busy).floors == [600, 2000] != Maxima(TWO)
  {
    var all, half := [true, true], [true, false];
    SecondWriteFails();
    ws := [Busy(1.0, all)];
    AfterOne(TWO, Rested(TWO), ws[0]);
    AfterNext(TWO, Rested(TWO), ws, Idle(2.0, all));
    AfterNext(TWO, Rested(TWO), ws + [Idle(2.0, all)], Idle(7.0, half));
    var raised := After(TWO, Rested(TWO), ws);
    assert raised.floors == [1800, 2000] && raised.boosted && raised.boostedAt == 1.0;
    ws := ws + [Idle(2.0, all)];
    assert After(TWO, Rested(TWO), ws) == raised.(idle := 1);
    ws := ws + [Idle(7.0, half)];
    var s := After(TWO, Rested(TWO), ws);
    assert s.floors == [600, 2000] && s.boosted && Maxima(TWO)[0] == 1800;
    forall busy | AllAnswer(TWO, busy) && (forall k :: 0 <= k < |busy| ==> Demand(TWO, busy[k]))
      ensures After(TWO, s, busy).floors == [600, 2000]
    {
      HalfReleasedStaysDown(TWO, s, busy);
    }
  }

  // ---------------------------------------------------------------- the safety cap

  ghost predicate AllUnder(xs: seq<int>, cap: int) {
    forall i :: 0 <= i < |xs| ==> xs[i] <= cap
  }

  /** The cores in use are never negative. */
  predicate Plausible(ws: seq<Window>) {
    forall k :: 0 <= k < |ws| ==> ws[k].user >= 0.0 && ws[k].system >= 0.0
  }

  /** With these thresholds a window can be quiet at all. */
  predicate CanRest(cfg: Config) {
    cfg.boostCores > 0.0 && cfg.dropCores > 0.0 && cfg.sysBoost > 0.0 && cfg.sysQuiet > 0.0
  }

  /** No run after this start-up takes a floor above the cap. */
  ghost predicate NeverAbove(cfg: Config, s: State, cap: int)
    requires Fits(cfg, s)
  {
    forall ws | AllAnswer(cfg, ws) && Plausible(ws) :: AllUnder(After(cfg, s, ws).floors, cap)
  }

  lemma {:induction false} StaysUnder(cfg: Config, s: State, ws: seq<Window>, cap: int)
    requires Fits(cfg, s) && AllAnswer(cfg, ws) && Plausible(ws)
    requires AllUnder(s.floors, cap) && AllUnder(Maxima(cfg), cap) && (CanRest(cfg) ==> AllUnder(Minima(cfg), cap))
    ensures AllUnder(After(cfg, s, ws).floors, cap)
  {
    if ws != [] {
      StaysUnder(cfg, s, ws[..|ws| - 1], cap);
    }
  }

  function AllOk(n: nat): (ok: seq<bool>)
    ensures |ok| == n && Written(ok) == n
  {
    if n == 0 then []
    else
      var ok := [true] + AllOk(n - 1);
      assert ok[1..] == AllOk(n - 1);
      ok
  }

  function QuietAt(cfg: Config, now: real): (w: Window)
    requires CanRest(cfg)
    ensures Quiet(cfg, w) && Answers(cfg, w) && w.now == now && Written(w.ok) == |w.ok|
    ensures w.user == w.system == 0.0
  {
    Window(0.0, 0.0, now, AllOk(|cfg.policies|))
  }

  function QuietSeconds(cfg: Config, n: nat): (quiet: seq<Window>)
    requires CanRest(cfg)
    ensures |quiet| == n && AllAnswer(cfg, quiet) && NoFailures(quiet) && Plausible(quiet)
    ensures forall k :: 0 <= k < n ==> Quiet(cfg, quiet[k]) && quiet[k].now == (k + 1) as real
  {
    seq(n, k requires 0 <= k < n => QuietAt(cfg, (k + 1) as real))
  }

  /** Some run raises every floor and lowers it again. */
  lemma RaiseAndLower(cfg: Config, s: State) returns (ws: seq<Window>)
    requires Fits(cfg, s) && !s.boosted && CanRest(cfg)
    ensures AllAnswer(cfg, ws) && Plausible(ws) && After(cfg, s, ws).floors == Minima(cfg)
  {
    var w := Window(cfg.boostCores, 0.0, 0.0, AllOk(|cfg.policies|));
    AfterOne(cfg, s, w);
    var quiet := QuietSeconds(cfg, Bound(cfg, 1.0));
    BoundedRelease(cfg, After(cfg, s, [w]), quiet, 0.0, 1.0);
    ws := [w] + quiet;
    assert ws[..1] == [w] && ws[1..] == quiet;
    AfterSplit(cfg, s, ws, 1);
  }

  /** What keeps policy i under the cap: its minimum, which is written uncapped, by
      start-up or by a release if there can be one, and the floor that start-up leaves if
      its write fails. */
  predicate Capable(cfg: Config, cap: int, mn: int, present: int, ok: bool) {
    (ok || CanRest(cfg) ==> mn <= cap) && (ok || present <= cap)
  }

  /** With --max-floor no run ever takes a floor above the cap exactly when each policy is
      kept under it so. */
  lemma CapHoldsIff(cfg: Config, found: seq<Policy>, cap: int, present: seq<int>, ok: seq<bool>)
    requires cap != 0 && cfg.policies == Capped(found, cap) && |present| == |ok| == |found|
    ensures NeverAbove(cfg, Start(cfg, present, ok), cap) <==>
      forall i :: 0 <= i < |found| ==> Capable(cfg, cap, found[i].mn, present[i], ok[i])
  {
    var s := Start(cfg, present, ok);
    assert forall i :: 0 <= i < |found| ==> Maxima(cfg)[i] <= cap && Minima(cfg)[i] == found[i].mn;
    assert forall i :: 0 <= i < |found| ==> s.floors[i] == if ok[i] then found[i].mn else present[i];
    if NeverAbove(cfg, s, cap) {
      assert AllAnswer(cfg, []) && Plausible([]) && After(cfg, s, []) == s;
      if CanRest(cfg) {
        var ws := RaiseAndLower(cfg, s);
        assert AllUnder(After(cfg, s, ws).floors, cap);
        assert forall i :: 0 <= i < |found| ==> After(cfg, s, ws).floors[i] == found[i].mn;
      }
    }
    if forall i :: 0 <= i < |found| ==> Capable(cfg, cap, found[i].mn, present[i], ok[i]) {
      forall ws | AllAnswer(cfg, ws) && Plausible(ws) ensures AllUnder(After(cfg, s, ws).floors, cap) {
        StaysUnder(cfg, s, ws, cap);
      }
    }
  }
}
