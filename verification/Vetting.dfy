/**
 The two signatures of a mispriced breakdown: two stages equal to within 1%, and a stage
 longer than its frame.  harness.py warns about them at run time over every job;
 logcheck.py looks for them afterwards in the first six jobs, which is what the log keeps.
 */
module Vetting {
  import opened Options
  import opened Jobs
  import opened Sorting

  /** Python's floats: the exact result of an operation, rounded to a double. */
  type Rounding = real -> real

  function Abs(x: real): real {
    if x < 0.0 then -x else x
  }

  predicate ErrsLittle(r: real, x: real) {
    Abs(r - x) * 9007199254740992.0 <= Abs(x)
  }

  /** All that is used of it: it keeps the order, and errs by at most 2^-53 of the value. */
  ghost predicate ToNearest(fl: Rounding) {
    && (forall x, y :: x <= y ==> fl(x) <= fl(y))
    && (forall x :: ErrsLittle(fl(x), x))
  }

  datatype Record = Record(jobs: seq<Job>, msPerFrame: Option<real>)

  datatype Reason = CloseStages(high: real, low: real) | StageTooLong(stage: real, frame: real)

  /** Are these two stages, the longer one first, too close? */
  type Test = (real, real) -> bool

  // ds[i + 1] > 0 and abs(ds[i] - ds[i + 1]) / ds[i + 1] < 0.01
  predicate WithinOnePercent(fl: Rounding, high: real, low: real) {
    low > 0.0 && fl(Abs(fl(high - low)) / low) < fl(0.01)
  }

  function OnePercent(fl: Rounding): Test {
    (high, low) => WithinOnePercent(fl, high, low)
  }

  function Durations(jobs: seq<Job>): (ds: seq<real>)
    ensures |ds| == |jobs|
  {
    seq(|jobs|, i requires 0 <= i < |jobs| => jobs[i].ms)
  }

  function Itself(d: real): real {
    d
  }

  /** sorted(ds, reverse=True) */
  function Descending(xs: seq<real>): seq<real> {
    SortDescending(xs, Itself)
  }

  function Max(xs: seq<real>): (m: real)
    requires xs != []
    ensures m in xs && forall x :: x in xs ==> x <= m
  {
    if |xs| == 1 then xs[0]
    else
      var m := Max(xs[..|xs| - 1]);
      var x := xs[|xs| - 1];
      assert forall y :: y in xs ==> y in xs[..|xs| - 1] || y == x;
      if x > m then x else m
  }

  // ---------------------------------------------------------------- what the scans look for

  /** The two stages, in whichever order, are too close. */
  predicate Near(test: Test, x: real, y: real) {
    if x >= y then test(x, y) else test(y, x)
  }

  /** Closing the gap from above keeps the pair close. */
  ghost predicate Narrows(test: Test) {
    forall high, mid, low :: high >= mid >= low && test(high, low) ==> test(mid, low)
  }

  /** Some two stages are that close. */
  ghost predicate TwoStagesClose(test: Test, ds: seq<real>) {
    exists p, q :: 0 <= p < q < |ds| && Near(test, ds[p], ds[q])
  }

  ghost predicate StageOutlasts(fl: Rounding, r: Record) {
    && r.jobs != [] && r.msPerFrame.Some? && r.msPerFrame.value != 0.0
    && exists k :: 0 <= k < |r.jobs| && r.jobs[k].ms > fl(r.msPerFrame.value * 1.5)
  }

  predicate CloseAt(test: Test, ds: seq<real>, i: int) {
    0 <= i && i + 1 < |ds| && test(ds[i], ds[i + 1])
  }

  // ---------------------------------------------------------------- proofs about the scan

  /** In a descending list the closest pairs are neighbours. */
  lemma NeighboursSuffice(test: Test, ds: seq<real>)
    requires Narrows(test) && IsDescending(ds, Itself)
    ensures TwoStagesClose(test, ds) <==> exists i :: CloseAt(test, ds, i)
  {
    if p, q :| 0 <= p < q < |ds| && Near(test, ds[p], ds[q]) {
      var i := q - 1;
      assert Itself(ds[i]) >= Itself(ds[q]) && (p == i || Itself(ds[p]) >= Itself(ds[i]));
      assert CloseAt(test, ds, i);
    }
    if i :| CloseAt(test, ds, i) {
      var q := i + 1;
      assert Itself(ds[i]) >= Itself(ds[q]);
      assert Near(test, ds[i], ds[q]);
    }
  }

  ghost predicate NearSome(test: Test, x: real, ds: seq<real>) {
    exists y :: y in ds && Near(test, x, y)
  }

  lemma CloseLast(test: Test, init: seq<real>, last: real)
    ensures TwoStagesClose(test, init + [last]) <==> TwoStagesClose(test, init) || NearSome(test, last, init)
  {
    var n, ds := |init|, init + [last];
    if p, q :| 0 <= p < q < |ds| && Near(test, ds[p], ds[q]) {
      if q < n {
        assert Near(test, init[p], init[q]);
      } else {
        assert init[p] in init && Near(test, last, init[p]);
      }
    }
    if p, q :| 0 <= p < q < |init| && Near(test, init[p], init[q]) {
      assert Near(test, ds[p], ds[q]);
    }
    if y :| y in init && Near(test, last, y) {
      var k :| 0 <= k < n && init[k] == y;
      assert Near(test, ds[k], ds[n]);
    }
  }

  /** Sorting one more stage in brings no close pair into being and hides none. */
  lemma {:induction false} InsertClose(test: Test, x: real, xs: seq<real>)
    ensures TwoStagesClose(test, Insert(x, xs, Itself)) <==> TwoStagesClose(test, xs) || NearSome(test, x, xs)
  {
    if xs == [] {
    } else if x > xs[|xs| - 1] {
      var init, last := xs[..|xs| - 1], xs[|xs| - 1];
      assert xs == init + [last];
      InsertClose(test, x, init);
      InsertKeeps(x, init, Itself);
      CloseLast(test, init, last);
      CloseLast(test, Insert(x, init, Itself), last);
      NearSomeInsert(test, x, init, last);
    } else {
      CloseLast(test, xs, x);
    }
  }

  lemma NearSomeInsert(test: Test, x: real, init: seq<real>, last: real)
    ensures NearSome(test, last, Insert(x, init, Itself)) <==> NearSome(test, last, init) || Near(test, last, x)
    ensures NearSome(test, x, init + [last]) <==> NearSome(test, x, init) || Near(test, last, x)
  {
    InsertKeeps(x, init, Itself);
    var all := init + [last];
    assert all[|init|] == last && Near(test, x, last) == Near(test, last, x);
    assert forall y :: y in all <==> y in init || y == last;
    if y :| y in init && Near(test, x, y) {
      assert y in all;
    }
  }

  lemma {:induction false} SortingKeepsClose(test: Test, ds: seq<real>)
    ensures TwoStagesClose(test, Descending(ds)) <==> TwoStagesClose(test, ds)
  {
    if ds != [] {
      var init, last := ds[..|ds| - 1], ds[|ds| - 1];
      assert ds == init + [last];
      SortingKeepsClose(test, init);
      InsertClose(test, last, Descending(init));
      SortingSorts(init, Itself);
      assert forall y :: y in init <==> y in multiset(init);
      assert forall y :: y in Descending(init) <==> y in multiset(Descending(init));
      CloseLast(test, init, last);
    }
  }

  /** The adjacent scan of the sorted list finds a close pair exactly when there is one. */
  lemma ScanMeaning(test: Test, ds: seq<real>)
    requires Narrows(test)
    ensures (exists i :: CloseAt(test, Descending(ds), i)) <==> TwoStagesClose(test, ds)
  {
    SortingSorts(ds, Itself);
    SortingKeepsClose(test, ds);
    NeighboursSuffice(test, Descending(ds));
  }

  // ---------------------------------------------------------------- the test in floating point

  /** Rounding keeps the order, so the computed test narrows too. */
  lemma OnePercentNarrows(fl: Rounding)
    requires ToNearest(fl)
    ensures Narrows(OnePercent(fl))
  {
    forall high, mid, low | high >= mid >= low && OnePercent(fl)(high, low)
      ensures OnePercent(fl)(mid, low)
    {
      Closer(fl, high, mid, low);
    }
  }

  lemma Closer(fl: Rounding, high: real, mid: real, low: real)
    requires ToNearest(fl) && high >= mid >= low && WithinOnePercent(fl, high, low)
    ensures WithinOnePercent(fl, mid, low)
  {
    var m, h := fl(mid - low), fl(high - low);
    ZeroStays(fl);
    assert 0.0 <= m <= h by {
      assert fl(0.0) <= fl(mid - low) <= fl(high - low);
    }
    QuotientGrows(m, h, low);
    assert fl(m / low) <= fl(h / low);
  }

  lemma ZeroStays(fl: Rounding)
    requires ToNearest(fl)
    ensures fl(0.0) == 0.0
  {
    assert ErrsLittle(fl(0.0), 0.0);
  }

  lemma QuotientGrows(m: real, n: real, d: real)
    requires d > 0.0 && m <= n
    ensures m / d <= n / d
  {
    assert (n - m) / d >= 0.0;
  }

  // ---------------------------------------------------------------- the scans

  /** The first neighbours that are close, in the descending list. */
  method FirstClose(fl: Rounding, ds: seq<real>) returns (i: int)
    ensures 0 <= i && (CloseAt(OnePercent(fl), ds, i) <==> exists h :: CloseAt(OnePercent(fl), ds, h))
    ensures forall h :: CloseAt(OnePercent(fl), ds, h) ==> i <= h
  {
    i := 0;
    while i < |ds| - 1
      invariant 0 <= i
      invariant forall h :: CloseAt(OnePercent(fl), ds, h) ==> i <= h
    {
      if ds[i + 1] > 0.0 && fl(Abs(fl(ds[i] - ds[i + 1])) / ds[i + 1]) < fl(0.01) {
        break;
      }
      i := i + 1;
    }
  }

  /** These two stages, one of them the longer, pass the 1% test. */
  ghost predicate ClosePair(fl: Rounding, r: Record, high: real, low: real) {
    && (exists p, q :: 0 <= p < |r.jobs| && 0 <= q < |r.jobs| && p != q && r.jobs[p].ms == high && r.jobs[q].ms == low)
    && high >= low > 0.0 && fl(fl(high - low) / low) < fl(0.01)
  }

  /** This is the longest stage, and longer than one and a half of the record's frames. */
  ghost predicate LongStage(fl: Rounding, r: Record, stage: real, frame: real) {
    && (exists k :: 0 <= k < |r.jobs| && r.jobs[k].ms == stage)
    && (forall k :: 0 <= k < |r.jobs| ==> r.jobs[k].ms <= stage)
    && r.msPerFrame == Some(frame) && frame != 0.0 && stage > fl(frame * 1.5)
  }

  lemma TwoOfAKind(ys: seq<real>, i: nat, j: nat)
    requires i < j < |ys| && ys[i] == ys[j]
    ensures multiset(ys)[ys[i]] >= 2
  {
    assert ys == ys[..i] + [ys[i]] + ys[i + 1..j] + [ys[j]] + ys[j + 1..];
  }

  lemma OtherPosition(xs: seq<real>, p: nat) returns (q: nat)
    requires p < |xs| && multiset(xs)[xs[p]] >= 2
    ensures q < |xs| && q != p && xs[q] == xs[p]
  {
    var x, rest := xs[p], xs[..p] + xs[p + 1..];
    assert xs == xs[..p] + [x] + xs[p + 1..];
    assert multiset(xs) == multiset(rest) + multiset{x};
    assert x in multiset(rest);
    var k :| 0 <= k < |rest| && rest[k] == x;
    q := if k < p then k else k + 1;
  }

  /** Two positions of a list are two positions of its permutation. */
  lemma TwoPositions(xs: seq<real>, ys: seq<real>, i: nat, j: nat) returns (p: nat, q: nat)
    requires multiset(xs) == multiset(ys) && i < j < |ys|
    ensures p < |xs| && q < |xs| && p != q && xs[p] == ys[i] && xs[q] == ys[j]
  {
    assert ys[i] in multiset(ys) && ys[j] in multiset(ys);
    p :| p < |xs| && xs[p] == ys[i];
    if ys[i] != ys[j] {
      q :| q < |xs| && xs[q] == ys[j];
    } else {
      TwoOfAKind(ys, i, j);
      q := OtherPosition(xs, p);
    }
  }

  /** With the values in descending order, so may the positions be. */
  lemma InOrderPositions(sorted: seq<real>, ds: seq<real>, i: nat, j: nat) returns (p: nat, q: nat)
    requires multiset(sorted) == multiset(ds) && IsDescending(sorted, Itself)
    requires i < |ds| && j < |ds| && i != j && ds[i] >= ds[j]
    ensures p < q < |sorted| && sorted[p] == ds[i] && sorted[q] == ds[j]
  {
    if i < j {
      p, q := TwoPositions(sorted, ds, i, j);
    } else {
      q, p := TwoPositions(sorted, ds, j, i);
    }
    if p > q {
      assert Itself(sorted[q]) >= Itself(sorted[p]);
      p, q := q, p;
    }
  }

  /** Every close pair of a descending list has its shorter stage at or after the first
      close neighbours, and none lies between these. */
  lemma FirstNeighbours(test: Test, sorted: seq<real>, i: int, p: nat, q: nat)
    requires Narrows(test) && IsDescending(sorted, Itself) && CloseAt(test, sorted, i)
    requires forall h :: CloseAt(test, sorted, h) ==> i <= h
    requires p < q < |sorted| && test(sorted[p], sorted[q])
    ensures sorted[q] <= sorted[i + 1]
  {
    assert Itself(sorted[q - 1]) >= Itself(sorted[q]) && (p == q - 1 || Itself(sorted[p]) >= Itself(sorted[q - 1]));
    assert CloseAt(test, sorted, q - 1);
    assert q == i + 1 || Itself(sorted[i + 1]) >= Itself(sorted[q]);
  }

  lemma NothingBetween(sorted: seq<real>, i: nat, d: real)
    requires IsDescending(sorted, Itself) && i + 1 < |sorted| && d in multiset(sorted)
    ensures d >= sorted[i] || d <= sorted[i + 1]
  {
    var m :| 0 <= m < |sorted| && sorted[m] == d;
    assert m < i ==> Itself(sorted[m]) >= Itself(sorted[i]);
    assert m > i + 1 ==> Itself(sorted[i + 1]) >= Itself(sorted[m]);
  }

  /** The pair with the longest shorter stage, and no stage between the two. */
  ghost predicate TopPair(fl: Rounding, r: Record, high: real, low: real) {
    && ClosePair(fl, r, high, low)
    && (forall k :: 0 <= k < |r.jobs| ==> r.jobs[k].ms >= high || r.jobs[k].ms <= low)
    && forall h, l :: ClosePair(fl, r, h, l) ==> l <= low
  }

  method CloseReason(fl: Rounding, r: Record) returns (out: seq<Reason>)
    requires ToNearest(fl)
    ensures |out| == if exists high, low :: ClosePair(fl, r, high, low) then 1 else 0
    ensures out != [] ==> out[0].CloseStages? && TopPair(fl, r, out[0].high, out[0].low)
  {
    out := [];
    var ds := Durations(r.jobs);
    ClosePairIff(fl, r);
    OnePercentNarrows(fl);
    ScanMeaning(OnePercent(fl), ds);
    if |r.jobs| >= 2 {
      var sorted := Descending(ds);
      var i := FirstClose(fl, sorted);
      if CloseAt(OnePercent(fl), sorted, i) {
        out := [CloseStages(sorted[i], sorted[i + 1])];
        FirstIsTop(fl, r, i);
      }
    }
  }

  method FrameReason(fl: Rounding, r: Record) returns (out: seq<Reason>)
    ensures |out| == if exists stage, frame :: LongStage(fl, r, stage, frame) then 1 else 0
    ensures out != [] ==> out[0].StageTooLong? && LongStage(fl, r, out[0].stage, out[0].frame)
  {
    out := [];
    var ds := Durations(r.jobs);
    if r.jobs != [] && r.msPerFrame.Some? && r.msPerFrame.value != 0.0 {
      var mx := Max(ds);
      var k :| 0 <= k < |ds| && ds[k] == mx;
      assert r.jobs[k].ms == mx;
      assert forall h :: 0 <= h < |r.jobs| ==> r.jobs[h].ms == ds[h] && ds[h] in ds;
      if mx > fl(r.msPerFrame.value * 1.5) {
        out := [StageTooLong(mx, r.msPerFrame.value)];
        assert LongStage(fl, r, mx, r.msPerFrame.value);
      }
    }
  }

  lemma ClosePairIff(fl: Rounding, r: Record)
    requires ToNearest(fl)
    ensures (exists high, low :: ClosePair(fl, r, high, low)) <==> TwoStagesClose(OnePercent(fl), Durations(r.jobs))
  {
    if high, low :| ClosePair(fl, r, high, low) {
      ClosePairIsNear(fl, r, high, low);
    }
    var ds := Durations(r.jobs);
    if p, q :| 0 <= p < q < |ds| && Near(OnePercent(fl), ds[p], ds[q]) {
      NearIsClosePair(fl, r, p, q);
    }
  }

  lemma ClosePairIsNear(fl: Rounding, r: Record, high: real, low: real)
    requires ToNearest(fl) && ClosePair(fl, r, high, low)
    ensures TwoStagesClose(OnePercent(fl), Durations(r.jobs))
  {
    var ds := Durations(r.jobs);
    var p, q :| 0 <= p < |ds| && 0 <= q < |ds| && p != q && r.jobs[p].ms == high && r.jobs[q].ms == low;
    PlainTest(fl, high, low);
    assert ds[p] == high && ds[q] == low;
    assert Near(OnePercent(fl), ds[p], ds[q]) && Near(OnePercent(fl), ds[q], ds[p]);
  }

  lemma NearIsClosePair(fl: Rounding, r: Record, p: nat, q: nat)
    requires ToNearest(fl) && p < q < |r.jobs| && Near(OnePercent(fl), r.jobs[p].ms, r.jobs[q].ms)
    ensures exists high, low :: ClosePair(fl, r, high, low)
  {
    var x, y := r.jobs[p].ms, r.jobs[q].ms;
    if x >= y {
      PlainTest(fl, x, y);
      assert ClosePair(fl, r, x, y);
    } else {
      PlainTest(fl, y, x);
      assert ClosePair(fl, r, y, x);
    }
  }

  /** Of the longer and the shorter the difference has no sign to drop. */
  lemma PlainTest(fl: Rounding, high: real, low: real)
    requires ToNearest(fl) && high >= low
    ensures WithinOnePercent(fl, high, low) <==> low > 0.0 && fl(fl(high - low) / low) < fl(0.01)
  {
    ZeroStays(fl);
    assert fl(0.0) <= fl(high - low);
  }

  lemma NeighboursAreClosePair(fl: Rounding, r: Record, i: int)
    requires ToNearest(fl) && CloseAt(OnePercent(fl), Descending(Durations(r.jobs)), i)
    ensures var sorted := Descending(Durations(r.jobs)); ClosePair(fl, r, sorted[i], sorted[i + 1])
  {
    var ds := Durations(r.jobs);
    var sorted := Descending(ds);
    SortingSorts(ds, Itself);
    var p, q := TwoPositions(ds, sorted, i, i + 1);
    assert r.jobs[p].ms == ds[p] && r.jobs[q].ms == ds[q];
    assert Itself(sorted[i]) >= Itself(sorted[i + 1]);
    PlainTest(fl, sorted[i], sorted[i + 1]);
  }

  lemma PairAfterFirst(fl: Rounding, r: Record, i: int, high: real, low: real)
    requires ToNearest(fl) && CloseAt(OnePercent(fl), Descending(Durations(r.jobs)), i)
    requires forall h :: CloseAt(OnePercent(fl), Descending(Durations(r.jobs)), h) ==> i <= h
    requires ClosePair(fl, r, high, low)
    ensures low <= Descending(Durations(r.jobs))[i + 1]
  {
    var ds := Durations(r.jobs);
    var sorted := Descending(ds);
    SortingSorts(ds, Itself);
    var j, k :| 0 <= j < |r.jobs| && 0 <= k < |r.jobs| && j != k && r.jobs[j].ms == high && r.jobs[k].ms == low;
    assert ds[j] == high && ds[k] == low;
    var p, q := InOrderPositions(sorted, ds, j, k);
    PlainTest(fl, high, low);
    OnePercentNarrows(fl);
    FirstNeighbours(OnePercent(fl), sorted, i, p, q);
  }

  lemma FirstIsTop(fl: Rounding, r: Record, i: int)
    requires ToNearest(fl) && CloseAt(OnePercent(fl), Descending(Durations(r.jobs)), i)
    requires forall h :: CloseAt(OnePercent(fl), Descending(Durations(r.jobs)), h) ==> i <= h
    ensures var sorted := Descending(Durations(r.jobs)); TopPair(fl, r, sorted[i], sorted[i + 1])
  {
    var ds := Durations(r.jobs);
    var sorted := Descending(ds);
    NeighboursAreClosePair(fl, r, i);
    SortingSorts(ds, Itself);
    forall k | 0 <= k < |r.jobs| ensures r.jobs[k].ms >= sorted[i] || r.jobs[k].ms <= sorted[i + 1] {
      assert ds[k] in multiset(ds);
      NothingBetween(sorted, i, ds[k]);
    }
    forall h, l | ClosePair(fl, r, h, l) ensures l <= sorted[i + 1] {
      PairAfterFirst(fl, r, i, h, l);
    }
  }

  /** bad_reasons(r): at most one reason of each kind, given exactly when the record has
      such stages, and naming stages that it has. */
  method BadReasons(fl: Rounding, r: Record) returns (out: seq<Reason>)
    requires ToNearest(fl)
    ensures var close, long := exists high, low :: ClosePair(fl, r, high, low), exists stage, frame :: LongStage(fl, r, stage, frame);
      && |out| == (if close then 1 else 0) + (if long then 1 else 0)
      && (close ==> out[0].CloseStages? && TopPair(fl, r, out[0].high, out[0].low))
      && (long ==> var last := out[|out| - 1]; last.StageTooLong? && LongStage(fl, r, last.stage, last.frame))
    ensures out != [] <==> Suspicious(fl, r)
  {
    var close := CloseReason(fl, r);
    var long := FrameReason(fl, r);
    ClosePairIff(fl, r);
    LongStageIff(fl, r);
    out := close + long;
  }

  lemma LongStageIff(fl: Rounding, r: Record)
    ensures (exists stage, frame :: LongStage(fl, r, stage, frame)) <==> StageOutlasts(fl, r)
  {
    if StageOutlasts(fl, r) {
      var ds := Durations(r.jobs);
      var mx := Max(ds);
      var k :| 0 <= k < |ds| && ds[k] == mx;
      assert r.jobs[k].ms == mx;
      assert forall h :: 0 <= h < |r.jobs| ==> r.jobs[h].ms == ds[h] && ds[h] in ds;
      assert LongStage(fl, r, mx, r.msPerFrame.value);
    }
  }

  // ---------------------------------------------------------------- the log against the run

  /** What the log keeps of a run, before rounding: the first six jobs. */
  function Logged(r: Record): Record {
    r.(jobs := if |r.jobs| <= 6 then r.jobs else r.jobs[..6])
  }

  ghost predicate Suspicious(fl: Rounding, r: Record) {
    TwoStagesClose(OnePercent(fl), Durations(r.jobs)) || StageOutlasts(fl, r)
  }

  lemma CloseInPart(test: Test, r: Record)
    requires TwoStagesClose(test, Durations(Logged(r).jobs))
    ensures TwoStagesClose(test, Durations(r.jobs))
  {
    var part, all := Durations(Logged(r).jobs), Durations(r.jobs);
    assert forall k :: 0 <= k < |part| ==> part[k] == all[k];
    var p, q :| 0 <= p < q < |part| && Near(test, part[p], part[q]);
    assert Near(test, all[p], all[q]);
  }

  /** Whatever the log's filter flags, the run had warned about. */
  lemma LoggedWasWarned(fl: Rounding, r: Record)
    ensures TwoStagesClose(OnePercent(fl), Durations(Logged(r).jobs)) ==> TwoStagesClose(OnePercent(fl), Durations(r.jobs))
    ensures StageOutlasts(fl, Logged(r)) ==> StageOutlasts(fl, r)
  {
    if TwoStagesClose(OnePercent(fl), Durations(Logged(r).jobs)) {
      CloseInPart(OnePercent(fl), r);
    }
  }

  /** A stage that outlasts the frame is never lost, since the jobs are logged longest first. */
  lemma LongestIsLogged(fl: Rounding, r: Record)
    requires IsDescending(r.jobs, Ms)
    ensures StageOutlasts(fl, Logged(r)) <==> StageOutlasts(fl, r)
  {
    if StageOutlasts(fl, r) {
      var k :| 0 <= k < |r.jobs| && r.jobs[k].ms > fl(r.msPerFrame.value * 1.5);
      assert Logged(r).jobs[0] == r.jobs[0];
      assert k == 0 || r.jobs[0].ms >= r.jobs[k].ms;
    } else {
      LoggedWasWarned(fl, r);
    }
  }

  lemma LongestFirstIsDescending(jobs: seq<Job>)
    requires IsDescending(jobs, Ms)
    ensures IsDescending(Durations(jobs), Itself)
  {
  }

  lemma CloseInSixIff(test: Test, r: Record)
    requires Narrows(test) && IsDescending(r.jobs, Ms)
    ensures TwoStagesClose(test, Durations(Logged(r).jobs)) <==> exists i :: CloseAt(test, Durations(r.jobs), i) && i <= 4
  {
    var part, all := Durations(Logged(r).jobs), Durations(r.jobs);
    LongestFirstIsDescending(r.jobs);
    LongestFirstIsDescending(Logged(r).jobs);
    NeighboursSuffice(test, part);
    assert forall i :: CloseAt(test, part, i) <==> CloseAt(test, all, i) && i <= 4;
  }

  /** A close pair is lost exactly when no neighbours before the seventh job are close. */
  lemma ClosePairIsLoggedIff(fl: Rounding, r: Record)
    requires ToNearest(fl) && IsDescending(r.jobs, Ms)
    ensures TwoStagesClose(OnePercent(fl), Durations(Logged(r).jobs)) <==>
      exists i :: CloseAt(OnePercent(fl), Durations(r.jobs), i) && i <= 4
  {
    OnePercentNarrows(fl);
    CloseInSixIff(OnePercent(fl), r);
  }

  function Halving(): (r: Record) {
    var ms := [64.0, 32.0, 16.0, 8.0, 4.0, 2.0, 2.0];
    Record(seq(7, i requires 0 <= i < 7 => Job("stage", ms[i])), None)
  }

  lemma SeventhIsClose(test: Test)
    requires test(2.0, 2.0) && forall high, low :: low > 0.0 && high >= 2.0 * low ==> !test(high, low)
    ensures TwoStagesClose(test, Durations(Halving().jobs)) && !TwoStagesClose(test, Durations(Logged(Halving()).jobs))
  {
    var ms := [64.0, 32.0, 16.0, 8.0, 4.0, 2.0, 2.0];
    var all, six := Durations(Halving().jobs), Durations(Logged(Halving()).jobs);
    assert all == ms && six == ms[..6];
    assert Near(test, all[5], all[6]);
    assert forall p, q :: 0 <= p < q < 6 ==> six[p] >= 2.0 * six[q] && six[q] >= 2.0;
  }

  lemma HalvingIsSorted()
    ensures IsDescending(Halving().jobs, Ms)
  {
  }

  lemma EqualIsClose(fl: Rounding, d: real)
    requires ToNearest(fl) && d > 0.0
    ensures WithinOnePercent(fl, d, d)
  {
    ZeroStays(fl);
    assert ErrsLittle(fl(0.01), 0.01);
    assert 0.0 / d == 0.0;
  }

  /** The filter can miss what the run warned about: seven stages, the close pair at the end. */
  lemma SixHideTheSeventh(fl: Rounding)
    requires ToNearest(fl)
    ensures IsDescending(Halving().jobs, Ms) && Suspicious(fl, Halving()) && !Suspicious(fl, Logged(Halving()))
  {
    HalvingIsSorted();
    EqualIsClose(fl, 2.0);
    forall high, low | low > 0.0 && high >= 2.0 * low ensures !OnePercent(fl)(high, low) {
      TwiceIsFar(fl, high, low);
    }
    SeventhIsClose(OnePercent(fl));
  }

  lemma TwiceIsFar(fl: Rounding, high: real, low: real)
    requires ToNearest(fl) && low > 0.0 && high >= 2.0 * low
    ensures !WithinOnePercent(fl, high, low)
  {
    var n := fl(high - low);
    assert n >= 0.5 * low by {
      assert ErrsLittle(fl(high - low), high - low);
    }
    QuotientGrows(0.5 * low, n, low);
    assert 0.5 * low / low == 0.5;
    assert fl(0.01) <= fl(n / low);
  }
}
