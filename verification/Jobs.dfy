/**
 Stage pricing in harness.py: trace events, already parsed, become jobs with durations.

 The drm_sched branch matches each job start with the earliest signal on its fence; the
 pvr_fence branch, tried only when the first finds nothing, keeps one pending enable per
 timeline.  The functions say what each branch computes; the methods compute it the way
 the script does.
 */
module Jobs {
  datatype Event =
    | RunJob(t: real, entity: string, id: string, fence: string)
    | ProcessJob(t: real, fence: string)
    | EnableSignaling(t: real, timeline: string)
    | SignalFence(t: real, timeline: string)
    | OtherFenceEvent(t: real, timeline: string)
    | Unmatched

  datatype Start = Start(key: string, t: real, fence: string)
  datatype Signal = Signal(t: real, fence: string)
  datatype Job = Job(name: string, ms: real)
  datatype Source = DrmSched | PvrFence

  // ---------------------------------------------------------------- drm_sched

  // m.group(2)[-6:]
  function LastSix(entity: string): string {
    if |entity| <= 6 then entity else entity[|entity| - 6..]
  }

  function JobKey(entity: string, id: string): string {
    LastSix(entity) + "#" + id
  }

  function StartOf(e: Event): Start
    requires e.RunJob?
  {
    Start(JobKey(e.entity, e.id), e.t, e.fence)
  }

  predicate HasKey(starts: seq<Start>, key: string) {
    exists k :: 0 <= k < |starts| && starts[k].key == key
  }

  /** setdefault: the first start of a key stays. */
  function AddStart(starts: seq<Start>, e: Event): seq<Start> {
    if e.RunJob? && !HasKey(starts, StartOf(e).key) then starts + [StartOf(e)] else starts
  }

  function Starts(trace: seq<Event>): seq<Start> {
    if trace == [] then [] else AddStart(Starts(trace[..|trace| - 1]), trace[|trace| - 1])
  }

  function AddSignal(signals: seq<Signal>, e: Event): seq<Signal> {
    if e.ProcessJob? then signals + [Signal(e.t, e.fence)] else signals
  }

  function Signals(trace: seq<Event>): seq<Signal> {
    if trace == [] then [] else AddSignal(Signals(trace[..|trace| - 1]), trace[|trace| - 1])
  }

  /** [x for x, q in procs if q == f and x >= t] */
  function Candidates(signals: seq<Signal>, start: Start): seq<real> {
    if signals == [] then []
    else
      var n := |signals| - 1;
      var rest := Candidates(signals[..n], start);
      if signals[n].fence == start.fence && signals[n].t >= start.t then rest + [signals[n].t] else rest
  }

  function Min(xs: seq<real>): (m: real)
    requires xs != []
    ensures m in xs && forall x :: x in xs ==> m <= x
  {
    if |xs| == 1 then xs[0]
    else
      var m := Min(xs[..|xs| - 1]);
      var x := xs[|xs| - 1];
      assert forall y :: y in xs ==> y in xs[..|xs| - 1] || y == x;
      if x < m then x else m
  }

  function Priced(signals: seq<Signal>, start: Start): seq<Job> {
    var c := Candidates(signals, start);
    if c == [] then [] else [Job(start.key, (Min(c) - start.t) * 1000.0)]
  }

  function PriceAll(signals: seq<Signal>, starts: seq<Start>): seq<Job> {
    if starts == [] then []
    else PriceAll(signals, starts[..|starts| - 1]) + Priced(signals, starts[|starts| - 1])
  }

  function DrmJobs(trace: seq<Event>): seq<Job> {
    PriceAll(Signals(trace), Starts(trace))
  }

  // ---------------------------------------------------------------- pvr_fence

  // tl.split("-")[0]
  function Prefix(timeline: string): (p: string)
    ensures p <= timeline && '-' !in p && (p == timeline || timeline[|p|] == '-')
  {
    if timeline == "" || timeline[0] == '-' then "" else [timeline[0]] + Prefix(timeline[1..])
  }

  datatype Pairing = Pairing(pending: map<string, real>, jobs: seq<Job>)

  function PairOne(p: Pairing, e: Event): Pairing {
    match e
    case EnableSignaling(t, tl) => p.(pending := p.pending[tl := t])
    case SignalFence(t, tl) =>
      if tl in p.pending
      then Pairing(p.pending - {tl}, p.jobs + [Job(Prefix(tl), (t - p.pending[tl]) * 1000.0)])
      else p
    case _ => p
  }

  function PairFences(trace: seq<Event>): Pairing {
    if trace == [] then Pairing(map[], []) else PairOne(PairFences(trace[..|trace| - 1]), trace[|trace| - 1])
  }

  // ---------------------------------------------------------------- the report

  function Ms(j: Job): real {
    j.ms
  }

  /** First pass: starts, in the order their keys first appear, and every signal. */
  method CollectDrm(trace: seq<Event>) returns (runs: seq<Start>, procs: seq<Signal>)
    ensures runs == Starts(trace) && procs == Signals(trace)
  {
    runs, procs := [], [];
    for n := 0 to |trace|
      invariant runs == Starts(trace[..n]) && procs == Signals(trace[..n])
    {
      assert trace[..n + 1][..n] == trace[..n];
      match trace[n]
      case RunJob(t, entity, id, fence) =>
        var key := JobKey(entity, id);
        if !HasKey(runs, key) {
          runs := runs + [Start(key, t, fence)];
        }
      case ProcessJob(t, fence) => procs := procs + [Signal(t, fence)];
      case _ =>
    }
    assert trace[..|trace|] == trace;
  }

  lemma PriceNext(signals: seq<Signal>, starts: seq<Start>, n: nat)
    requires n < |starts|
    ensures PriceAll(signals, starts[..n + 1]) == PriceAll(signals, starts[..n]) + Priced(signals, starts[n])
  {
    assert starts[..n + 1][..n] == starts[..n];
  }

  method PriceStart(procs: seq<Signal>, start: Start) returns (out: seq<Job>)
    ensures out == Priced(procs, start)
  {
    var c := CandidateTimes(procs, start);
    out := if c == [] then [] else [Job(start.key, (Min(c) - start.t) * 1000.0)];
  }

  method PriceStarts(runs: seq<Start>, procs: seq<Signal>) returns (out: seq<Job>)
    ensures out == PriceAll(procs, runs)
  {
    out := [];
    for n := 0 to |runs|
      invariant out == PriceAll(procs, runs[..n])
    {
      PriceNext(procs, runs, n);
      var job := PriceStart(procs, runs[n]);
      out := out + job;
    }
    assert runs[..|runs|] == runs;
  }

  method PairEvents(trace: seq<Event>) returns (res: seq<Job>)
    ensures res == PairFences(trace).jobs
  {
    var pend: map<string, real> := map[];
    res := [];
    for n := 0 to |trace|
      invariant Pairing(pend, res) == PairFences(trace[..n])
    {
      assert trace[..n + 1][..n] == trace[..n];
      match trace[n]
      case EnableSignaling(t, tl) => pend := pend[tl := t];
      case SignalFence(t, tl) =>
        if tl in pend {
          res := res + [Job(Prefix(tl), (t - pend[tl]) * 1000.0)];
          pend := pend - {tl};
        }
      case _ =>
    }
    assert trace[..|trace|] == trace;
  }

  method CandidateTimes(procs: seq<Signal>, start: Start) returns (c: seq<real>)
    ensures c == Candidates(procs, start)
  {
    c := [];
    for n := 0 to |procs|
      invariant c == Candidates(procs[..n], start)
    {
      assert procs[..n + 1][..n] == procs[..n];
      if procs[n].fence == start.fence && procs[n].t >= start.t {
        c := c + [procs[n].t];
      }
    }
    assert procs[..|procs|] == procs;
  }
}
