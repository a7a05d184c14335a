/**
 What rounding the logged durations to three digits does to the filter's verdicts.

 `th` gives the thousandths that round(d, 3) keeps, whatever its rule for halves; the
 double nearest to them goes to the log and comes back from it.
 */
module StoredRecord {
  import opened Options
  import opened Jobs
  import opened Vetting

  ghost predicate NearestThousandth(th: real -> int) {
    forall d :: Abs(th(d) as real - d * 1000.0) <= 0.5
  }

  function Rounded(fl: Rounding, th: real -> int, d: real): real {
    fl(th(d) as real / 1000.0)
  }

  /** Up to eleven days, in milliseconds: a thousandth is then far above the last bit. */
  predicate Moderate(d: real) {
    -1000000000.0 <= d <= 1000000000.0
  }

  /** The filter's test, for the two stages in whichever order. */
  predicate Flagged(fl: Rounding, x: real, y: real) {
    if x >= y then WithinOnePercent(fl, x, y) else WithinOnePercent(fl, y, x)
  }

  lemma FlaggedIsNear(fl: Rounding, x: real, y: real)
    ensures Flagged(fl, x, y) == Near(OnePercent(fl), x, y)
  {
  }

  // ---------------------------------------------------------------- the computed quotient

  lemma QuotientAtMost(n: real, d: real, limit: real)
    requires d > 0.0
    ensures n <= limit * d ==> n / d <= limit
    ensures n >= limit * d ==> n / d >= limit
  {
    var q := n / d;
    assert q * d == n;
    if q > limit {
      assert q * d > limit * d;
    } else if q < limit {
      assert q * d < limit * d;
    }
  }

  /** Two rounded operations and a rounded constant cannot make up for one part in 10^15. */
  lemma CloseForCertain(fl: Rounding, high: real, low: real)
    requires ToNearest(fl) && high >= low > 0.0 && high - low <= 0.00999999999999999 * low
    ensures Flagged(fl, high, low)
  {
    var n := fl(high - low);
    ZeroStays(fl);
    assert 0.0 <= n by {
      assert fl(0.0) <= fl(high - low);
    }
    assert ErrsLittle(n, high - low);
    assert n <= 0.009999999999999992 * low;
    QuotientAtMost(n, low, 0.009999999999999992);
    QuotientAtMost(n, low, 0.0);
    assert ErrsLittle(fl(n / low), n / low);
    assert ErrsLittle(fl(0.01), 0.01);
  }

  lemma FarForCertain(fl: Rounding, high: real, low: real)
    requires ToNearest(fl) && high >= low && (low <= 0.0 || high - low >= 0.01000000000000001 * low)
    ensures !Flagged(fl, high, low)
  {
    if low > 0.0 {
      var n := fl(high - low);
      assert ErrsLittle(n, high - low);
      assert n >= 0.01 * low;
      QuotientAtMost(n, low, 0.01);
      assert fl(0.01) <= fl(n / low);
    }
  }

  // ---------------------------------------------------------------- measured and stored pairs

  /** How far the greater is from being 1% above the less; negative for a close pair. */
  function Margin(x: real, y: real): real {
    if x >= y then (x - y) - 0.01 * y else (y - x) - 0.01 * x
  }

  /** The pair is further from the 1% limit than rounding can take it. */
  predicate Clear(x: real, y: real) {
    Moderate(x) && Moderate(y) && (Margin(x, y) < -0.001005 || Margin(x, y) > 0.001005)
  }

  predicate SameVerdict(fl: Rounding, th: real -> int, x: real, y: real) {
    Flagged(fl, Rounded(fl, th, x), Rounded(fl, th, y)) <==> Flagged(fl, x, y)
  }

  lemma MeasuredVerdict(fl: Rounding, x: real, y: real)
    requires ToNearest(fl) && x >= y && Clear(x, y)
    ensures Flagged(fl, x, y) <==> Margin(x, y) < 0.0
  {
    if Margin(x, y) < 0.0 {
      CloseForCertain(fl, x, y);
    } else {
      FarForCertain(fl, x, y);
    }
  }

  lemma SlightlyLess(x: real, y: real, x': real, y': real)
    requires 0.0 < y <= x <= 1.01 * y - 0.00001 && y <= 2000000000.0
    requires ErrsLittle(x', x) && ErrsLittle(y', y)
    ensures y' > 0.0 && x' - y' <= 0.00999999999999999 * y'
  {
  }

  lemma SlightlyMore(x: real, y: real, x': real, y': real)
    requires 0.0 < y <= 2000000000.0 && 1.01 * y + 0.00001 <= x
    requires ErrsLittle(x', x) && ErrsLittle(y', y)
    ensures x' - y' >= 0.01000000000000001 * y'
  {
    if x > 2.0 * y {
      assert x' >= 1.5 * y && y' <= 1.1 * y;
    }
  }

  /** In thousandths the test is exact, but for a ratio of exactly 1.01. */
  lemma StoredVerdict(fl: Rounding, h: int, l: int)
    requires ToNearest(fl) && h >= l && -1000000000001 <= l <= 1000000000001 && 100 * h != 101 * l
    ensures Flagged(fl, fl(h as real / 1000.0), fl(l as real / 1000.0)) <==> 100 * h < 101 * l
  {
    var x, y := h as real / 1000.0, l as real / 1000.0;
    var x', y' := fl(x), fl(y);
    assert x' >= y';
    assert ErrsLittle(x', x) && ErrsLittle(y', y);
    if 100 * h < 101 * l {
      SlightlyLess(x, y, x', y');
      CloseForCertain(fl, x', y');
    } else if l > 0 {
      SlightlyMore(x, y, x', y');
      FarForCertain(fl, x', y');
    } else {
      assert y' <= 0.0;
      FarForCertain(fl, x', y');
    }
  }

  lemma ThousandthsOrdered(th: real -> int, x: real, y: real)
    requires NearestThousandth(th) && x >= y
    ensures th(x) >= th(y)
  {
  }

  lemma MarginOfThousandths(x: real, y: real, h: int, l: int)
    requires x >= y && Clear(x, y) && Abs(h as real - x * 1000.0) <= 0.5 && Abs(l as real - y * 1000.0) <= 0.5
    ensures 100 * h != 101 * l && (100 * h < 101 * l <==> Margin(x, y) < 0.0)
    ensures -1000000000001 <= l <= 1000000000001
  {
    var d := 100.0 * h as real - 101.0 * l as real;
    assert d == (100 * h - 101 * l) as real;
    assert -100.5 <= d - 100000.0 * Margin(x, y) <= 100.5;
  }

  lemma MarginKept(fl: Rounding, th: real -> int, x: real, y: real)
    requires ToNearest(fl) && NearestThousandth(th) && x >= y && Clear(x, y)
    ensures SameVerdict(fl, th, x, y)
  {
    var h, l := th(x), th(y);
    ThousandthsOrdered(th, x, y);
    MeasuredVerdict(fl, x, y);
    MarginOfThousandths(x, y, h, l);
    StoredVerdict(fl, h, l);
    assert h as real / 1000.0 >= l as real / 1000.0;
  }

  /** A clear pair keeps its verdict, however halves are rounded. */
  lemma KeptOutside(fl: Rounding, th: real -> int, x: real, y: real)
    requires ToNearest(fl) && NearestThousandth(th) && Clear(x, y)
    ensures SameVerdict(fl, th, x, y)
  {
    if x >= y {
      MarginKept(fl, th, x, y);
    } else {
      MarginKept(fl, th, y, x);
    }
  }

  // ---------------------------------------------------------------- no smaller margins will do

  /** Whatever the rounding, pairs at least a inside the limit or at least b outside it keep
      their verdict. */
  ghost predicate Suffice(a: real, b: real) {
    forall fl: Rounding, th: real -> int, x, y ::
      ToNearest(fl) && NearestThousandth(th) && Moderate(x) && Moderate(y)
        && (Margin(x, y) <= -a || Margin(x, y) >= b)
      ==> SameVerdict(fl, th, x, y)
  }

  /** Halves to even. */
  function HalfEven(d: real): int {
    var f := (d * 1000.0).Floor;
    var rest := d * 1000.0 - f as real;
    if rest < 0.5 then f else if rest > 0.5 then f + 1 else if f % 2 == 0 then f else f + 1
  }

  function Exactly(x: real): real {
    x
  }

  /** Errs downwards just below 1%. */
  function Shy(x: real): real {
    if 0.0 < x < 0.01 then x - x / 9007199254740992.0 else x
  }

  lemma ShyToNearest()
    ensures ToNearest(Shy) && ToNearest(Exactly)
  {
  }

  lemma EvenIsNearest()
    ensures NearestThousandth(HalfEven)
  {
  }

  /** 0.2015 and 0.2005 are close; 0.202 and 0.2 are 1% apart. */
  lemma PulledApart()
    ensures Margin(0.2015, 0.2005) == -0.001005 && !SameVerdict(Exactly, HalfEven, 0.2015, 0.2005)
  {
    assert HalfEven(0.2015) == 202 && HalfEven(0.2005) == 200;
  }

  /** 0.2025 and 0.1995 are not close; 0.202 and 0.2 may be computed to be. */
  lemma PushedTogether()
    ensures Margin(0.2025, 0.1995) == 0.001005 && !SameVerdict(Shy, HalfEven, 0.2025, 0.1995)
  {
    assert HalfEven(0.2025) == 202 && HalfEven(0.1995) == 200;
  }

  lemma AboveSuffices(a: real, b: real)
    requires a > 0.001005 && b > 0.001005
    ensures Suffice(a, b)
  {
    forall fl: Rounding, th: real -> int, x, y |
      ToNearest(fl) && NearestThousandth(th) && Moderate(x) && Moderate(y)
        && (Margin(x, y) <= -a || Margin(x, y) >= b)
      ensures SameVerdict(fl, th, x, y)
    {
      KeptOutside(fl, th, x, y);
    }
  }

  lemma OutsideSufficed(a: real, b: real, fl: Rounding, th: real -> int, x: real, y: real)
    requires Suffice(a, b) && ToNearest(fl) && NearestThousandth(th) && Moderate(x) && Moderate(y)
    requires Margin(x, y) <= -a || Margin(x, y) >= b
    ensures SameVerdict(fl, th, x, y)
  {
  }

  /** The verdict survives rounding exactly from these margins on. */
  lemma RoundingKeepsIff(a: real, b: real)
    ensures Suffice(a, b) <==> a > 0.001005 && b > 0.001005
  {
    ShyToNearest();
    EvenIsNearest();
    if a > 0.001005 && b > 0.001005 {
      AboveSuffices(a, b);
    } else if Suffice(a, b) {
      PulledApart();
      PushedTogether();
      if a <= 0.001005 {
        OutsideSufficed(a, b, Exactly, HalfEven, 0.2015, 0.2005);
      } else {
        OutsideSufficed(a, b, Shy, HalfEven, 0.2025, 0.1995);
      }
      assert false;
    }
  }

  // ---------------------------------------------------------------- doubles

  predicate OnGrid(k: int, z: real, x: real) {
    z * 4503599627370496.0 == k as real && Abs(k as real - x * 4503599627370496.0) <= 0.5
  }

  /** From 1 to 2 the doubles are the multiples of 2^-52, and the nearest is taken. */
  ghost predicate Doubles(fl: Rounding) {
    forall x :: 1.0 <= x < 2.0 ==> exists k: int :: OnGrid(k, fl(x), x)
  }

  lemma TwoDoubles(fl: Rounding)
    requires Doubles(fl)
    ensures fl(1.111) == 5003499186008621.0 / 4503599627370496.0 && fl(1.1) == 4953959590107546.0 / 4503599627370496.0
  {
    var h: int :| OnGrid(h, fl(1.111), 1.111);
    var l: int :| OnGrid(l, fl(1.1), 1.1);
    assert h == 5003499186008621 && l == 4953959590107546;
  }

  /** With doubles 1.111 and 1.1 come out below 1%: two stages that were not close when
      measured, and are further out than 0.000995, are flagged once rounded. */
  lemma OnePercentFlagged(fl: Rounding, th: real -> int)
    requires ToNearest(fl) && Doubles(fl) && NearestThousandth(th)
    ensures Margin(1.111499, 1.099501) > 0.000995
    ensures !Flagged(fl, 1.111499, 1.099501)
    ensures Flagged(fl, Rounded(fl, th, 1.111499), Rounded(fl, th, 1.099501))
  {
    assert th(1.111499) == 1111 && th(1.099501) == 1100;
    TwoDoubles(fl);
    FarForCertain(fl, 1.111499, 1.099501);
    CloseForCertain(fl, fl(1.111), fl(1.1));
  }

  // ---------------------------------------------------------------- whole records

  /** What the log holds: the first six jobs, rounded.  The frame time is not. */
  function Stored(fl: Rounding, th: real -> int, r: Record): (q: Record)
    ensures |q.jobs| == |Logged(r).jobs|
  {
    var jobs := Logged(r).jobs;
    r.(jobs := seq(|jobs|, i requires 0 <= i < |jobs| => Job(jobs[i].name, Rounded(fl, th, jobs[i].ms))))
  }

  /** No two of the stages are at the 1% limit. */
  ghost predicate ClearPairs(ds: seq<real>) {
    forall p, q :: 0 <= p < q < |ds| ==> Clear(ds[p], ds[q])
  }

  /** No stage is within half a thousandth, and a trifle, of 1.5 frames. */
  predicate ClearStages(fl: Rounding, r: Record) {
    r.msPerFrame.Some? ==>
      var limit := fl(r.msPerFrame.value * 1.5);
      forall k :: 0 <= k < |r.jobs| ==>
        Moderate(r.jobs[k].ms) && (r.jobs[k].ms <= limit - 0.000501 || r.jobs[k].ms >= limit + 0.000501)
  }

  lemma PairsSurvive(fl: Rounding, th: real -> int, r: Record)
    requires ToNearest(fl) && NearestThousandth(th) && ClearPairs(Durations(Logged(r).jobs))
    ensures TwoStagesClose(OnePercent(fl), Durations(Stored(fl, th, r).jobs)) <==> TwoStagesClose(OnePercent(fl), Durations(Logged(r).jobs))
  {
    var ds, rs := Durations(Logged(r).jobs), Durations(Stored(fl, th, r).jobs);
    assert forall k :: 0 <= k < |ds| ==> rs[k] == Rounded(fl, th, ds[k]);
    forall p, q | 0 <= p < q < |ds|
      ensures Near(OnePercent(fl), rs[p], rs[q]) <==> Near(OnePercent(fl), ds[p], ds[q])
    {
      KeptOutside(fl, th, ds[p], ds[q]);
      FlaggedIsNear(fl, rs[p], rs[q]);
      FlaggedIsNear(fl, ds[p], ds[q]);
    }
  }

  lemma LimitKept(fl: Rounding, th: real -> int, d: real, limit: real)
    requires ToNearest(fl) && NearestThousandth(th) && Moderate(d)
    requires d <= limit - 0.000501 || d >= limit + 0.000501
    ensures Rounded(fl, th, d) > limit <==> d > limit
  {
    var t := th(d) as real / 1000.0;
    assert Abs(t - d) <= 0.0005;
    assert ErrsLittle(fl(t), t);
  }

  lemma StagesSurvive(fl: Rounding, th: real -> int, r: Record)
    requires ToNearest(fl) && NearestThousandth(th) && ClearStages(fl, Logged(r))
    ensures StageOutlasts(fl, Stored(fl, th, r)) <==> StageOutlasts(fl, Logged(r))
  {
    var l, s := Logged(r), Stored(fl, th, r);
    if l.msPerFrame.Some? {
      var limit := fl(l.msPerFrame.value * 1.5);
      forall k | 0 <= k < |l.jobs| ensures s.jobs[k].ms > limit <==> l.jobs[k].ms > limit {
        LimitKept(fl, th, l.jobs[k].ms, limit);
      }
    }
  }

  /** So away from the two limits the filter says of the log what it would say of the
      first six jobs as they were measured. */
  lemma StoredAsMeasured(fl: Rounding, th: real -> int, r: Record)
    requires ToNearest(fl) && NearestThousandth(th)
    requires ClearPairs(Durations(Logged(r).jobs)) && ClearStages(fl, Logged(r))
    ensures Suspicious(fl, Stored(fl, th, r)) <==> Suspicious(fl, Logged(r))
  {
    PairsSurvive(fl, th, r);
    StagesSurvive(fl, th, r);
  }

  /** Nearer to the limit it goes both ways, whatever the rounding: these become equal,
      those become more than 1% apart. */
  lemma RoundingChangesVerdicts(fl: Rounding, th: real -> int)
    requires ToNearest(fl) && NearestThousandth(th)
    ensures !SameVerdict(fl, th, 0.0014, 0.0006) && !Flagged(fl, 0.0014, 0.0006)
    ensures !SameVerdict(fl, th, 0.05055, 0.05045) && Flagged(fl, 0.05055, 0.05045)
  {
    assert th(0.0014) == 1 && th(0.0006) == 1 && th(0.05055) == 51 && th(0.05045) == 50;
    StoredVerdict(fl, 1, 1);
    StoredVerdict(fl, 51, 50);
    FarForCertain(fl, 0.0014, 0.0006);
    CloseForCertain(fl, 0.05055, 0.05045);
  }
}
