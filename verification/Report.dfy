/** parse_jobs as a whole: which branch reports, in what order, and what the log keeps of it. */
module Report {
  import opened Options
  import opened Sorting
  import opened Jobs
  import opened JobsTheorems
  import opened Vetting

  // sorted(..., key=lambda r: -r[1])
  function Parse(trace: seq<Event>): (seq<Job>, Source) {
    if DrmJobs(trace) != [] then (SortDescending(DrmJobs(trace), Ms), DrmSched)
    else (SortDescending(PairFences(trace).jobs, Ms), PvrFence)
  }

  /** Some job start is the first of its name and has a signal that is not before it. */
  ghost predicate DrmHasJob(trace: seq<Event>) {
    exists i, j :: FirstOfName(trace, i) && SignalAt(trace, j, trace[i].fence) && trace[j].t >= trace[i].t
  }

  /** Longest first, and equal ones in the order given. */
  ghost predicate Ranks(jobs: seq<Job>, found: seq<Job>) {
    && (forall p, q :: 0 <= p < q < |jobs| ==> jobs[p].ms >= jobs[q].ms)
    && multiset(jobs) == multiset(found)
    && forall ms :: WithKey(jobs, Ms, ms) == WithKey(found, Ms, ms)
  }

  lemma SortRanks(found: seq<Job>)
    ensures Ranks(SortDescending(found, Ms), found)
  {
    var jobs := SortDescending(found, Ms);
    SortingSorts(found, Ms);
    assert forall p, q :: 0 <= p < q < |jobs| ==> Ms(jobs[p]) >= Ms(jobs[q]);
    forall ms ensures WithKey(jobs, Ms, ms) == WithKey(found, Ms, ms) {
      SortingIsStable(found, Ms, ms);
    }
  }

  lemma EarliestExists(trace: seq<Event>, i: int, j: int)
    requires FirstOfName(trace, i) && SignalAt(trace, j, trace[i].fence) && trace[j].t >= trace[i].t
    ensures exists k :: EarliestSignal(trace, i, k)
  {
    var s := StartOf(trace[i]);
    assert SignalIs(trace, j, Signal(trace[j].t, s.fence));
    SignalFound(trace, Signal(trace[j].t, s.fence));
    CandidateFound(Signals(trace), s, trace[j].t);
    var k := PricedHasEarliest(trace, i, s);
  }

  lemma DrmReportsIff(trace: seq<Event>)
    ensures DrmJobs(trace) != [] <==> DrmHasJob(trace)
  {
    if DrmJobs(trace) != [] {
      DrmMeaning(trace, DrmJobs(trace)[0]);
    }
    if i, j :| FirstOfName(trace, i) && SignalAt(trace, j, trace[i].fence) && trace[j].t >= trace[i].t {
      EarliestExists(trace, i, j);
      var k :| EarliestSignal(trace, i, k);
      var job := Job(NameOf(trace[i].entity, trace[i].id), (trace[k].t - trace[i].t) * 1000.0);
      assert JobOf(trace, i, k, job);
      DrmMeaning(trace, job);
    }
  }

  lemma ParseRanks(trace: seq<Event>)
    ensures Parse(trace).1 == if DrmHasJob(trace) then DrmSched else PvrFence
    ensures Ranks(Parse(trace).0, if DrmHasJob(trace) then DrmJobs(trace) else EndedJobs(trace, |trace|))
  {
    DrmReportsIff(trace);
    FenceBranchMeaning(trace);
    SortRanks(DrmJobs(trace));
    SortRanks(EndedJobs(trace, |trace|));
  }

  /** parse_jobs: the pvr_fence events are looked at only when drm_sched gave nothing.  What
      `DrmJobs` and `EndedJobs` hold, and in what order, `DrmMeaning`, `ReportedOnce`,
      `DrmInOrder` and the definition of `EndedJobs` say of the trace. */
  method ParseJobs(trace: seq<Event>) returns (jobs: seq<Job>, source: Source)
    ensures source == if DrmHasJob(trace) then DrmSched else PvrFence
    ensures Ranks(jobs, if DrmHasJob(trace) then DrmJobs(trace) else EndedJobs(trace, |trace|))
    ensures (jobs, source) == Parse(trace)
  {
    ParseRanks(trace);
    var runs, procs := CollectDrm(trace);
    var out := PriceStarts(runs, procs);
    if out != [] {
      return SortDescending(out, Ms), DrmSched;
    }
    var res := PairEvents(trace);
    return SortDescending(res, Ms), PvrFence;
  }

  /** A drm_sched report of a thinned trace lists no job that the full report lacks, and
      none cheaper. */
  lemma LostSignalsInReport(trace: seq<Event>, keep: seq<bool>, job: Job) returns (full: Job)
    requires |keep| == |trace| && Parse(Lose(trace, keep)).1 == DrmSched && job in Parse(Lose(trace, keep)).0
    ensures Parse(trace).1 == DrmSched && full in Parse(trace).0
    ensures full.name == job.name && 0.0 <= full.ms <= job.ms
  {
    SortingSorts(DrmJobs(Lose(trace, keep)), Ms);
    SortingSorts(DrmJobs(trace), Ms);
    assert job in multiset(DrmJobs(Lose(trace, keep)));
    full := LostSignals(trace, keep, job);
    assert full in multiset(DrmJobs(trace));
  }

  /** So the first six of a report are its longest, and what the log loses of the warnings
      is what the first six lose. */
  lemma ReportIsLogged(fl: Rounding, trace: seq<Event>, msPerFrame: Option<real>)
    requires ToNearest(fl)
    ensures var r := Record(Parse(trace).0, msPerFrame);
      && (StageOutlasts(fl, Logged(r)) <==> StageOutlasts(fl, r))
      && (TwoStagesClose(OnePercent(fl), Durations(Logged(r).jobs)) <==>
            exists i :: CloseAt(OnePercent(fl), Durations(r.jobs), i) && i <= 4)
      && forall p, q :: 0 <= p < 6 <= q < |r.jobs| ==> r.jobs[p].ms >= r.jobs[q].ms
  {
    var r := Record(Parse(trace).0, msPerFrame);
    ParseRanks(trace);
    assert IsDescending(r.jobs, Ms);
    LongestIsLogged(fl, r);
    ClosePairIsLoggedIff(fl, r);
  }
}
