/** When the pairing is right, and what lost events do to it. */
module JobsTheorems {
  import opened Jobs

  // ---------------------------------------------------------------- keys

  lemma HashNotLater(prefix: string, id: string, prefix': string, id': string)
    requires '#' !in prefix' && prefix + "#" + id == prefix' + "#" + id'
    ensures |prefix'| <= |prefix|
  {
    var s := prefix' + "#" + id';
    assert s[|prefix|] == '#' by {
      assert s == prefix + "#" + id;
    }
    assert forall k :: 0 <= k < |prefix'| ==> s[k] in prefix';
  }

  lemma HashEnds(prefix: string, id: string, prefix': string, id': string)
    requires '#' !in prefix && '#' !in prefix'
    ensures prefix + "#" + id == prefix' + "#" + id' <==> prefix == prefix' && id == id'
  {
    var s, s' := prefix + "#" + id, prefix' + "#" + id';
    if s == s' {
      HashNotLater(prefix, id, prefix', id');
      HashNotLater(prefix', id', prefix, id);
      assert prefix == s[..|prefix|] && prefix' == s'[..|prefix'|];
      assert id == s[|prefix| + 1..] && id' == s'[|prefix'| + 1..];
    }
  }

  /** Two starts are taken for one job exactly when their ids agree and the last six
      characters of their entities do. */
  lemma KeysCollideIff(entity: string, id: string, entity': string, id': string)
    requires '#' !in entity && '#' !in entity'
    ensures JobKey(entity, id) == JobKey(entity', id') <==>
      && id == id'
      && (if |entity| <= 6 then entity else entity[|entity| - 6..])
           == (if |entity'| <= 6 then entity' else entity'[|entity'| - 6..])
  {
    HashEnds(LastSix(entity), id, LastSix(entity'), id');
  }

  // ---------------------------------------------------------------- what a price says

  predicate SignalAt(trace: seq<Event>, j: int, f: string) {
    0 <= j < |trace| && trace[j].ProcessJob? && trace[j].fence == f
  }

  predicate StartAt(trace: seq<Event>, i: int, f: string) {
    0 <= i < |trace| && trace[i].RunJob? && trace[i].fence == f
  }

  predicate OnFence(trace: seq<Event>, k: int, f: string) {
    SignalAt(trace, k, f) || StartAt(trace, k, f)
  }

  predicate KeyIs(trace: seq<Event>, i: int, key: string) {
    0 <= i < |trace| && trace[i].RunJob? && StartOf(trace[i]).key == key
  }

  /** Event j is a signal with this fence and time. */
  predicate SignalIs(trace: seq<Event>, j: int, x: Signal) {
    SignalAt(trace, j, x.fence) && trace[j].t == x.t
  }

  /** Event i is the first start of its key, and it is this one. */
  predicate FirstStartIs(trace: seq<Event>, i: int, s: Start) {
    && 0 <= i < |trace| && trace[i].RunJob? && StartOf(trace[i]) == s
    && forall h :: 0 <= h < i ==> !KeyIs(trace, h, s.key)
  }

  lemma {:induction false} SignalFound(trace: seq<Event>, x: Signal)
    ensures x in Signals(trace) <==> exists j :: SignalIs(trace, j, x)
  {
    if trace != [] {
      var n := |trace| - 1;
      SignalFound(trace[..n], x);
      assert forall j :: 0 <= j < n ==> (SignalIs(trace[..n], j, x) <==> SignalIs(trace, j, x));
      assert x in Signals(trace) <==> x in Signals(trace[..n]) || SignalIs(trace, n, x);
    }
  }

  lemma AddStartKeys(starts: seq<Start>, e: Event, key: string)
    ensures HasKey(AddStart(starts, e), key) <==> HasKey(starts, key) || (e.RunJob? && StartOf(e).key == key)
  {
    var r := AddStart(starts, e);
    if r != starts {
      assert r[|starts|] == StartOf(e);
      assert forall k :: 0 <= k < |starts| ==> r[k] == starts[k];
    }
  }

  lemma {:induction false} KeyFound(trace: seq<Event>, key: string)
    ensures HasKey(Starts(trace), key) <==> exists i :: KeyIs(trace, i, key)
  {
    if trace != [] {
      var n := |trace| - 1;
      KeyFound(trace[..n], key);
      AddStartKeys(Starts(trace[..n]), trace[n], key);
      assert forall i :: 0 <= i < n ==> (KeyIs(trace[..n], i, key) <==> KeyIs(trace, i, key));
      assert HasKey(Starts(trace), key) <==> HasKey(Starts(trace[..n]), key) || KeyIs(trace, n, key);
      if i :| KeyIs(trace, i, key) && i < n {
        assert KeyIs(trace[..n], i, key);
      }
    }
  }

  lemma AddStartHas(starts: seq<Start>, e: Event, s: Start)
    ensures s in AddStart(starts, e) <==>
      s in starts || (e.RunJob? && StartOf(e) == s && !HasKey(starts, s.key))
  {}

  lemma FirstStartEarlier(trace: seq<Event>, n: nat, i: int, s: Start)
    requires i < n <= |trace|
    ensures FirstStartIs(trace[..n], i, s) <==> FirstStartIs(trace, i, s)
  {
    assert forall h :: 0 <= h < n ==> (KeyIs(trace[..n], h, s.key) <==> KeyIs(trace, h, s.key));
  }

  lemma FirstStartAtEnd(trace: seq<Event>, s: Start)
    requires trace != []
    ensures var n := |trace| - 1;
      FirstStartIs(trace, n, s) <==>
        trace[n].RunJob? && StartOf(trace[n]) == s && !HasKey(Starts(trace[..n]), s.key)
  {
    var n := |trace| - 1;
    KeyFound(trace[..n], s.key);
    assert forall h :: 0 <= h < n ==> (KeyIs(trace[..n], h, s.key) <==> KeyIs(trace, h, s.key));
  }

  lemma {:induction false} StartFound(trace: seq<Event>, s: Start)
    ensures s in Starts(trace) <==> exists i :: FirstStartIs(trace, i, s)
  {
    if trace != [] {
      var n := |trace| - 1;
      StartFound(trace[..n], s);
      AddStartHas(Starts(trace[..n]), trace[n], s);
      FirstStartAtEnd(trace, s);
      forall i | 0 <= i < n ensures FirstStartIs(trace[..n], i, s) <==> FirstStartIs(trace, i, s) {
        FirstStartEarlier(trace, n, i, s);
      }
    }
  }

  lemma {:induction false} CandidateFound(signals: seq<Signal>, start: Start, x: real)
    ensures x in Candidates(signals, start) <==> Signal(x, start.fence) in signals && x >= start.t
  {
    if signals != [] {
      var n := |signals| - 1;
      CandidateFound(signals[..n], start, x);
      assert signals == signals[..n] + [signals[n]];
    }
  }

  lemma {:induction false} JobFound(signals: seq<Signal>, starts: seq<Start>, job: Job)
    ensures job in PriceAll(signals, starts) <==> exists k :: 0 <= k < |starts| && job in Priced(signals, starts[k])
  {
    if starts != [] {
      var n := |starts| - 1;
      JobFound(signals, starts[..n], job);
      assert starts == starts[..n] + [starts[n]];
    }
  }

  // ---------------------------------------------------------------- what the branch reports

  /** Event i starts a job; signal j is the earliest on its fence that is not before it. */
  ghost predicate EarliestSignal(trace: seq<Event>, i: int, j: int) {
    && 0 <= i < |trace| && trace[i].RunJob?
    && SignalAt(trace, j, trace[i].fence) && trace[j].t >= trace[i].t
    && forall k :: SignalAt(trace, k, trace[i].fence) && trace[k].t >= trace[i].t ==> trace[j].t <= trace[k].t
  }

  /** No earlier start has its name. */
  ghost predicate FirstOfName(trace: seq<Event>, i: int) {
    && 0 <= i < |trace| && trace[i].RunJob?
    && forall h :: 0 <= h < i ==> !KeyIs(trace, h, JobKey(trace[i].entity, trace[i].id))
  }

  /** What the branch has to report for start i and signal j: the last six characters of
      the entity and the id, and the time between them in milliseconds. */
  ghost predicate JobOf(trace: seq<Event>, i: int, j: int, job: Job) {
    && EarliestSignal(trace, i, j) && FirstOfName(trace, i)
    && job.name == NameOf(trace[i].entity, trace[i].id)
    && job.ms == (trace[j].t - trace[i].t) * 1000.0
  }

  ghost function NameOf(entity: string, id: string): string {
    (if |entity| <= 6 then entity else entity[|entity| - 6..]) + "#" + id
  }

  lemma KeyIsName(entity: string, id: string)
    ensures JobKey(entity, id) == NameOf(entity, id)
  {
  }

  /** The same with the key for the name. */
  ghost predicate KeyedJob(trace: seq<Event>, i: int, j: int, job: Job) {
    && EarliestSignal(trace, i, j) && FirstStartIs(trace, i, StartOf(trace[i])) && job == Lasting(trace, i, j)
  }

  lemma JobOfIff(trace: seq<Event>, i: int, j: int, job: Job)
    ensures JobOf(trace, i, j, job) <==> KeyedJob(trace, i, j, job)
  {
    if EarliestSignal(trace, i, j) {
      KeyIsName(trace[i].entity, trace[i].id);
    }
  }

  predicate StartedBy(trace: seq<Event>, i: int, s: Start) {
    0 <= i < |trace| && trace[i].RunJob? && trace[i].fence == s.fence && trace[i].t == s.t
  }

  lemma EarliestIsCandidate(trace: seq<Event>, i: int, j: int, s: Start)
    requires EarliestSignal(trace, i, j) && StartedBy(trace, i, s)
    ensures Priced(Signals(trace), s) == [Job(s.key, (trace[j].t - s.t) * 1000.0)]
  {
    var signals, x := Signals(trace), trace[j].t;
    var c := Candidates(signals, s);
    assert SignalIs(trace, j, Signal(x, s.fence));
    SignalFound(trace, Signal(x, s.fence));
    CandidateFound(signals, s, x);
    var m := Min(c);
    CandidateFound(signals, s, m);
    SignalFound(trace, Signal(m, s.fence));
    var k :| SignalIs(trace, k, Signal(m, s.fence));
    assert x <= trace[k].t;
  }

  lemma PricedHasEarliest(trace: seq<Event>, i: int, s: Start) returns (j: int)
    requires StartedBy(trace, i, s)
    requires Candidates(Signals(trace), s) != []
    ensures EarliestSignal(trace, i, j)
  {
    var signals := Signals(trace);
    var m := Min(Candidates(signals, s));
    CandidateFound(signals, s, m);
    SignalFound(trace, Signal(m, s.fence));
    j :| SignalIs(trace, j, Signal(m, s.fence));
    forall k | SignalAt(trace, k, s.fence) && trace[k].t >= s.t ensures m <= trace[k].t {
      assert SignalIs(trace, k, Signal(trace[k].t, s.fence));
      SignalFound(trace, Signal(trace[k].t, s.fence));
      CandidateFound(signals, s, trace[k].t);
    }
  }

  lemma ReportedHasJob(trace: seq<Event>, job: Job)
    requires job in DrmJobs(trace)
    ensures exists i, j :: KeyedJob(trace, i, j, job)
  {
    var signals, starts := Signals(trace), Starts(trace);
    JobFound(signals, starts, job);
    var k :| 0 <= k < |starts| && job in Priced(signals, starts[k]);
    StartFound(trace, starts[k]);
    var i :| FirstStartIs(trace, i, starts[k]);
    var j := PricedHasEarliest(trace, i, starts[k]);
    EarliestIsCandidate(trace, i, j, starts[k]);
    assert KeyedJob(trace, i, j, job);
  }

  lemma EarliestIsReported(trace: seq<Event>, i: int, j: int, s: Start)
    requires EarliestSignal(trace, i, j) && StartedBy(trace, i, s) && s in Starts(trace)
    ensures Job(s.key, (trace[j].t - s.t) * 1000.0) in DrmJobs(trace)
  {
    var signals, starts := Signals(trace), Starts(trace);
    EarliestIsCandidate(trace, i, j, s);
    var k :| 0 <= k < |starts| && starts[k] == s;
    assert Job(s.key, (trace[j].t - s.t) * 1000.0) in Priced(signals, starts[k]);
    JobFound(signals, starts, Job(s.key, (trace[j].t - s.t) * 1000.0));
  }

  lemma FirstIsReportedAs(trace: seq<Event>, i: int, j: int, s: Start)
    requires EarliestSignal(trace, i, j) && StartedBy(trace, i, s) && FirstStartIs(trace, i, s)
    ensures Job(s.key, (trace[j].t - s.t) * 1000.0) in DrmJobs(trace)
  {
    StartFound(trace, s);
    EarliestIsReported(trace, i, j, s);
  }

  lemma JobIsReported(trace: seq<Event>, i: int, j: int, job: Job)
    requires KeyedJob(trace, i, j, job)
    ensures job in DrmJobs(trace)
  {
    FirstIsReportedAs(trace, i, j, StartOf(trace[i]));
  }

  /** Whatever the trace, the branch reports exactly these jobs. */
  lemma DrmMeaning(trace: seq<Event>, job: Job)
    ensures job in DrmJobs(trace) <==> exists i, j :: JobOf(trace, i, j, job)
  {
    if job in DrmJobs(trace) {
      ReportedHasJob(trace, job);
      var i, j :| KeyedJob(trace, i, j, job);
      JobOfIff(trace, i, j, job);
    }
    if i, j :| JobOf(trace, i, j, job) {
      JobOfIff(trace, i, j, job);
      JobIsReported(trace, i, j, job);
    }
  }

  /** In the order in which their names first start. */
  ghost predicate StartsBefore(trace: seq<Event>, name: string, name': string) {
    exists h, i :: h < i && IsFirst(trace, h, name) && IsFirst(trace, i, name')
  }

  ghost predicate IsFirst(trace: seq<Event>, i: int, name: string) {
    KeyIs(trace, i, name) && forall h :: 0 <= h < i ==> !KeyIs(trace, h, name)
  }

  lemma IsFirstEarlier(trace: seq<Event>, n: nat, i: int, name: string)
    requires i < n <= |trace|
    ensures IsFirst(trace[..n], i, name) <==> IsFirst(trace, i, name)
  {
    assert forall h :: 0 <= h < n ==> (KeyIs(trace[..n], h, name) <==> KeyIs(trace, h, name));
  }

  lemma StartsBeforeEarlier(trace: seq<Event>, n: nat, name: string, name': string)
    requires n <= |trace| && StartsBefore(trace[..n], name, name')
    ensures StartsBefore(trace, name, name')
  {
    var h, i :| h < i && IsFirst(trace[..n], h, name) && IsFirst(trace[..n], i, name');
    IsFirstEarlier(trace, n, h, name);
    IsFirstEarlier(trace, n, i, name');
  }

  lemma NewStartIsLast(trace: seq<Event>, name: string, last: string)
    requires trace != [] && KeyIs(trace, |trace| - 1, last)
    requires !HasKey(Starts(trace[..|trace| - 1]), last) && HasKey(Starts(trace[..|trace| - 1]), name)
    ensures StartsBefore(trace, name, last)
  {
    var n := |trace| - 1;
    KeyFound(trace[..n], last);
    KeyFound(trace[..n], name);
    assert forall h :: 0 <= h < n ==> (KeyIs(trace[..n], h, last) <==> KeyIs(trace, h, last));
    var i :| KeyIs(trace[..n], i, name);
    var h := FirstWith(trace[..n], name, i);
    IsFirstEarlier(trace, n, h, name);
    assert IsFirst(trace, n, last);
  }

  lemma {:induction false} FirstWith(trace: seq<Event>, name: string, i: nat) returns (h: nat)
    requires KeyIs(trace, i, name)
    ensures h <= i && IsFirst(trace, h, name)
    decreases i
  {
    h := i;
    if k :| 0 <= k < i && KeyIs(trace, k, name) {
      h := FirstWith(trace, name, k);
    }
  }

  lemma {:induction false} StartsInOrder(trace: seq<Event>, p: nat, q: nat)
    requires p < q < |Starts(trace)|
    ensures StartsBefore(trace, Starts(trace)[p].key, Starts(trace)[q].key)
  {
    var n := |trace| - 1;
    var before := Starts(trace[..n]);
    if q < |before| {
      StartsInOrder(trace[..n], p, q);
      StartsBeforeEarlier(trace, n, before[p].key, before[q].key);
    } else {
      assert HasKey(before, before[p].key);
      NewStartIsLast(trace, before[p].key, StartOf(trace[n]).key);
    }
  }

  /** Jobs a and b belong to starts in this order. */
  lemma {:induction false} PricedInOrder(signals: seq<Signal>, starts: seq<Start>, p: nat, q: nat) returns (k: nat, l: nat)
    requires p < q < |PriceAll(signals, starts)|
    ensures k < l < |starts|
    ensures PriceAll(signals, starts)[p].name == starts[k].key && PriceAll(signals, starts)[q].name == starts[l].key
  {
    var n := |starts| - 1;
    var before := PriceAll(signals, starts[..n]);
    if q < |before| {
      k, l := PricedInOrder(signals, starts[..n], p, q);
    } else {
      l := n;
      assert before[p] in before;
      JobFound(signals, starts[..n], before[p]);
      k :| 0 <= k < n && before[p] in Priced(signals, starts[..n][k]);
    }
  }

  lemma DrmInOrder(trace: seq<Event>, p: nat, q: nat)
    requires p < q < |DrmJobs(trace)|
    ensures StartsBefore(trace, DrmJobs(trace)[p].name, DrmJobs(trace)[q].name)
  {
    var k, l := PricedInOrder(Signals(trace), Starts(trace), p, q);
    StartsInOrder(trace, k, l);
  }

  // ---------------------------------------------------------------- exact pairing

  /** The job started by event i is the one event j signals: nothing happens on their
      fence in between. */
  predicate Own(trace: seq<Event>, i: int, j: int) {
    && 0 <= i < j < |trace| && trace[i].RunJob?
    && SignalAt(trace, j, trace[i].fence)
    && forall k :: i < k < j ==> !OnFence(trace, k, trace[i].fence)
  }

  function Lasting(trace: seq<Event>, i: int, j: int): Job
    requires 0 <= i < |trace| && 0 <= j < |trace| && trace[i].RunJob? && trace[j].ProcessJob?
  {
    Job(StartOf(trace[i]).key, (trace[j].t - trace[i].t) * 1000.0)
  }

  predicate IsOwnJob(trace: seq<Event>, job: Job, i: int, j: int) {
    Own(trace, i, j) && job == Lasting(trace, i, j)
  }

  /** The report lists every completed job with its own signal, and nothing else. */
  ghost predicate Exact(trace: seq<Event>) {
    forall job :: job in DrmJobs(trace) <==> exists i, j :: IsOwnJob(trace, job, i, j)
  }

  /** On each fence, time moves on from event to event. */
  ghost predicate Rising(trace: seq<Event>) {
    forall f, i, j :: i < j && OnFence(trace, i, f) && OnFence(trace, j, f) ==> trace[i].t < trace[j].t
  }

  ghost predicate DistinctKeys(trace: seq<Event>) {
    forall key, i, j :: KeyIs(trace, i, key) && KeyIs(trace, j, key) ==> i == j
  }

  /** No signal was lost that a later job's signal could stand in for. */
  ghost predicate Answered(trace: seq<Event>) {
    forall f, i, h, j :: i < h < j && StartAt(trace, i, f) && StartAt(trace, h, f) && SignalAt(trace, j, f) ==>
      exists k :: i < k < h && SignalAt(trace, k, f)
  }

  /** Starts and signals take turns on every fence. */
  ghost predicate Alternating(trace: seq<Event>) {
    forall f, i, j :: i < j && OnFence(trace, i, f) && OnFence(trace, j, f) && trace[i].RunJob? == trace[j].RunJob? ==>
      exists k :: i < k < j && OnFence(trace, k, f) && trace[k].RunJob? != trace[i].RunJob?
  }

  /** The first signal on f after event i, or the length of the trace. */
  function NextSignal(trace: seq<Event>, f: string, i: nat): (j: nat)
    requires i <= |trace|
    ensures i <= j <= |trace|
    ensures j < |trace| ==> SignalAt(trace, j, f)
    ensures forall k :: i <= k < j ==> !SignalAt(trace, k, f)
    decreases |trace| - i
  {
    if i == |trace| || SignalAt(trace, i, f) then i else NextSignal(trace, f, i + 1)
  }

  /** With rising times, the candidates of a start are the signals that follow it. */
  lemma CandidateLater(trace: seq<Event>, i: int, s: Start, x: real)
    requires StartedBy(trace, i, s) && Rising(trace)
    ensures x in Candidates(Signals(trace), s) <==> exists k :: k > i && SignalIs(trace, k, Signal(x, s.fence))
  {
    CandidateFound(Signals(trace), s, x);
    SignalFound(trace, Signal(x, s.fence));
    assert OnFence(trace, i, s.fence);
    forall k | SignalIs(trace, k, Signal(x, s.fence)) ensures x >= trace[i].t <==> k > i {
      assert OnFence(trace, k, s.fence);
    }
  }

  lemma NextIsCandidate(trace: seq<Event>, i: int, s: Start)
    requires StartedBy(trace, i, s) && Rising(trace)
    ensures var j := NextSignal(trace, s.fence, i); j < |trace| ==> trace[j].t in Candidates(Signals(trace), s)
  {
    var j := NextSignal(trace, s.fence, i);
    if j < |trace| {
      assert SignalIs(trace, j, Signal(trace[j].t, s.fence));
      CandidateLater(trace, i, s, trace[j].t);
    }
  }

  lemma CandidateNotBeforeNext(trace: seq<Event>, i: int, s: Start, x: real)
    requires StartedBy(trace, i, s) && Rising(trace) && x in Candidates(Signals(trace), s)
    ensures var j := NextSignal(trace, s.fence, i); j < |trace| && trace[j].t <= x
  {
    CandidateLater(trace, i, s, x);
    var k :| k > i && SignalIs(trace, k, Signal(x, s.fence));
    var j := NextSignal(trace, s.fence, i);
    assert j <= k;
    assert OnFence(trace, k, s.fence) && OnFence(trace, j, s.fence);
  }

  /** The earliest of them is the next one. */
  lemma PricedByNext(trace: seq<Event>, i: int, s: Start)
    requires StartedBy(trace, i, s) && Rising(trace)
    ensures var j := NextSignal(trace, s.fence, i);
      Priced(Signals(trace), s) == if j < |trace| then [Job(s.key, (trace[j].t - s.t) * 1000.0)] else []
  {
    var c := Candidates(Signals(trace), s);
    NextIsCandidate(trace, i, s);
    if c != [] {
      CandidateNotBeforeNext(trace, i, s, Min(c));
    }
  }

  /** A job is reported exactly when it is some start's, priced by the next signal. */
  ghost predicate IsNextJob(trace: seq<Event>, job: Job, i: int) {
    && 0 <= i < |trace| && trace[i].RunJob?
    && var j := NextSignal(trace, trace[i].fence, i);
       j < |trace| && job == Lasting(trace, i, j)
  }

  lemma ReportedIsNext(trace: seq<Event>, job: Job)
    requires Rising(trace) && job in DrmJobs(trace)
    ensures exists i :: IsNextJob(trace, job, i) && FirstStartIs(trace, i, StartOf(trace[i]))
  {
    var signals, starts := Signals(trace), Starts(trace);
    JobFound(signals, starts, job);
    var k :| 0 <= k < |starts| && job in Priced(signals, starts[k]);
    StartFound(trace, starts[k]);
    var i :| FirstStartIs(trace, i, starts[k]);
    PricedByNext(trace, i, starts[k]);
    assert IsNextJob(trace, job, i);
  }

  lemma FirstIsReported(trace: seq<Event>, job: Job, i: int)
    requires Rising(trace) && IsNextJob(trace, job, i) && FirstStartIs(trace, i, StartOf(trace[i]))
    ensures job in DrmJobs(trace)
  {
    var signals, starts := Signals(trace), Starts(trace);
    var s := StartOf(trace[i]);
    StartFound(trace, s);
    PricedByNext(trace, i, s);
    var k :| 0 <= k < |starts| && starts[k] == s;
    assert job in Priced(signals, starts[k]);
    JobFound(signals, starts, job);
  }

  lemma NextIsReported(trace: seq<Event>, job: Job, i: int)
    requires Rising(trace) && DistinctKeys(trace) && IsNextJob(trace, job, i)
    ensures job in DrmJobs(trace)
  {
    assert KeyIs(trace, i, StartOf(trace[i]).key);
    FirstIsReported(trace, job, i);
  }

  lemma ReportedFromNext(trace: seq<Event>, job: Job)
    requires Rising(trace) && DistinctKeys(trace)
    ensures job in DrmJobs(trace) <==> exists i :: IsNextJob(trace, job, i)
  {
    if job in DrmJobs(trace) {
      ReportedIsNext(trace, job);
    }
    if i :| IsNextJob(trace, job, i) {
      NextIsReported(trace, job, i);
    }
  }

  lemma AnsweredIsExact(trace: seq<Event>)
    requires Rising(trace) && DistinctKeys(trace) && Answered(trace)
    ensures Exact(trace)
  {
    forall job ensures job in DrmJobs(trace) <==> exists i, j :: IsOwnJob(trace, job, i, j) {
      ReportedFromNext(trace, job);
      if i :| IsNextJob(trace, job, i) {
        var f := trace[i].fence;
        var j := NextSignal(trace, f, i);
        assert StartAt(trace, i, f);
        assert forall k :: i < k < j ==> !OnFence(trace, k, f);
        assert IsOwnJob(trace, job, i, j);
      }
      if i, j :| IsOwnJob(trace, job, i, j) {
        var n := NextSignal(trace, trace[i].fence, i);
        assert n == j by {
          assert i < n <= j;
          assert OnFence(trace, n, trace[i].fence);
        }
        assert IsNextJob(trace, job, i);
      }
    }
  }

  /** A start with no signal of its own is priced by the signal of a later job. */
  lemma ExactIsAnswered(trace: seq<Event>)
    requires Rising(trace) && DistinctKeys(trace) && Exact(trace)
    ensures Answered(trace)
  {
    forall f, i, h, j | i < h < j && StartAt(trace, i, f) && StartAt(trace, h, f) && SignalAt(trace, j, f)
      ensures exists k :: i < k < h && SignalAt(trace, k, f)
    {
      var n := NextSignal(trace, f, i);
      if n > h {
        var job := Lasting(trace, i, n);
        assert IsNextJob(trace, job, i) && KeyIs(trace, i, job.name) && OnFence(trace, h, f);
        ReportedFromNext(trace, job);
        forall i', j' | IsOwnJob(trace, job, i', j') ensures i' == i {
          assert KeyIs(trace, i', job.name);
        }
      }
      assert SignalAt(trace, n, f);
    }
  }

  /** With rising times and distinct keys, the pairing is exact exactly when between two
      starts on one fence a signal was seen, unless that fence never signals again. */
  lemma PairingIff(trace: seq<Event>)
    requires Rising(trace) && DistinctKeys(trace)
    ensures Exact(trace) <==> Answered(trace)
  {
    if Answered(trace) {
      AnsweredIsExact(trace);
    } else if Exact(trace) {
      ExactIsAnswered(trace);
    }
  }

  /** The signal of the first job is lost; its fence is used again, and signals. */
  function LostFirstSignal(): seq<Event> {
    [RunJob(1.0, "aaaaaa", "1", "f"), RunJob(2.0, "aaaaaa", "2", "f"), ProcessJob(3.0, "f")]
  }

  /** Then the first job is reported with the second one's signal, as lasting 2000 ms. */
  lemma WrongSignalReported()
    ensures var trace := LostFirstSignal();
      && Rising(trace) && DistinctKeys(trace) && !Answered(trace)
      && Job("aaaaaa#1", 2000.0) in DrmJobs(trace)
      && !exists i, j :: IsOwnJob(trace, Job("aaaaaa#1", 2000.0), i, j)
  {
    var trace, job := LostFirstSignal(), Job("aaaaaa#1", 2000.0);
    KeysCollideIff("aaaaaa", "1", "aaaaaa", "2");
    assert LastSix("aaaaaa") == "aaaaaa" && JobKey("aaaaaa", "1") == "aaaaaa#1";
    assert StartAt(trace, 0, "f") && StartAt(trace, 1, "f") && SignalAt(trace, 2, "f");
    assert !SignalAt(trace, 1, "f") && OnFence(trace, 1, "f");
    assert NextSignal(trace, "f", 0) == 2;
    assert IsNextJob(trace, job, 0);
    ReportedFromNext(trace, job);
    forall i, j ensures !IsOwnJob(trace, job, i, j) {
      if IsOwnJob(trace, job, i, j) {
        assert KeyIs(trace, i, job.name) && KeyIs(trace, 0, job.name);
      }
    }
  }

  /** Keys that collide: a start is reported, priced by the next signal on its fence,
      exactly when it is the first of its key; a later one never is. */
  lemma OnlyFirstOfKeyReported(trace: seq<Event>, job: Job)
    requires Rising(trace)
    ensures job in DrmJobs(trace) <==> exists i :: IsNextJob(trace, job, i) && FirstStartIs(trace, i, StartOf(trace[i]))
  {
    if job in DrmJobs(trace) {
      ReportedIsNext(trace, job);
    }
    if i :| IsNextJob(trace, job, i) && FirstStartIs(trace, i, StartOf(trace[i])) {
      FirstIsReported(trace, job, i);
    }
  }

  lemma FirstUnique(trace: seq<Event>, h: int, k: int, key: string)
    requires KeyIs(trace, h, key) && KeyIs(trace, k, key)
    requires FirstStartIs(trace, h, StartOf(trace[h])) && FirstStartIs(trace, k, StartOf(trace[k]))
    ensures h == k
  {
  }

  /** So a completed start that is not the first of its key goes unreported, unless the
      first has the very same duration. */
  lemma CollidingStart(trace: seq<Event>, h: int, i: int, j: int)
    requires Rising(trace) && 0 <= h < i && Own(trace, i, j)
    requires KeyIs(trace, h, StartOf(trace[i]).key) && FirstStartIs(trace, h, StartOf(trace[h]))
    ensures Lasting(trace, i, j) in DrmJobs(trace) <==> IsNextJob(trace, Lasting(trace, i, j), h)
  {
    var job := Lasting(trace, i, j);
    OnlyFirstOfKeyReported(trace, job);
    forall k | IsNextJob(trace, job, k) && FirstStartIs(trace, k, StartOf(trace[k])) ensures k == h {
      FirstUnique(trace, h, k, job.name);
    }
  }

  /** Two entities that differ before their last six characters, and no signal lost. */
  function SameLastSix(): seq<Event> {
    [RunJob(1.0, "x111111", "1", "f"), ProcessJob(2.0, "f"), RunJob(3.0, "y111111", "1", "g"), ProcessJob(5.0, "g")]
  }

  lemma NothingLost()
    ensures Rising(SameLastSix()) && Answered(SameLastSix())
    ensures Own(SameLastSix(), 0, 1) && Own(SameLastSix(), 2, 3)
  {
    var trace := SameLastSix();
    assert forall f, k :: OnFence(trace, k, f) <==> (k in {0, 1} && f == "f") || (k in {2, 3} && f == "g");
  }

  /** The second job, which lasts 2000 ms, is missing from the report. */
  lemma CollisionUnreported()
    ensures var trace := SameLastSix();
      Own(trace, 2, 3) && Lasting(trace, 2, 3).ms == 2000.0 && Lasting(trace, 2, 3) !in DrmJobs(trace)
  {
    var trace := SameLastSix();
    NothingLost();
    assert LastSix("x111111") == "111111" == LastSix("y111111");
    assert KeyIs(trace, 0, StartOf(trace[2]).key);
    CollidingStart(trace, 0, 2, 3);
    assert SignalAt(trace, 1, "f");
    assert NextSignal(trace, "f", 0) == 1;
  }

  /** In particular reusing a fence handle is harmless while its events alternate. */
  lemma AlternatingIsExact(trace: seq<Event>)
    requires Rising(trace) && DistinctKeys(trace) && Alternating(trace)
    ensures Exact(trace)
  {
    forall f, i, h, j | i < h < j && StartAt(trace, i, f) && StartAt(trace, h, f) && SignalAt(trace, j, f)
      ensures exists k :: i < k < h && SignalAt(trace, k, f)
    {
      assert OnFence(trace, i, f) && OnFence(trace, h, f);
      var k :| i < k < h && OnFence(trace, k, f) && trace[k].RunJob? != trace[i].RunJob?;
      assert SignalAt(trace, k, f);
    }
    AnsweredIsExact(trace);
  }

  ghost predicate UniqueKeys(starts: seq<Start>) {
    forall p, q :: 0 <= p < q < |starts| ==> starts[p].key != starts[q].key
  }

  ghost predicate UniqueNames(jobs: seq<Job>) {
    forall p, q :: 0 <= p < q < |jobs| ==> jobs[p].name != jobs[q].name
  }

  lemma {:induction false} StartKeysUnique(trace: seq<Event>)
    ensures UniqueKeys(Starts(trace))
  {
    if trace != [] {
      StartKeysUnique(trace[..|trace| - 1]);
    }
  }

  lemma {:induction false} PricedUnique(signals: seq<Signal>, starts: seq<Start>)
    requires UniqueKeys(starts)
    ensures UniqueNames(PriceAll(signals, starts))
  {
    if starts != [] {
      var n := |starts| - 1;
      var before := PriceAll(signals, starts[..n]);
      PricedUnique(signals, starts[..n]);
      forall p | 0 <= p < |before| ensures before[p].name != starts[n].key {
        assert before[p] in before;
        JobFound(signals, starts[..n], before[p]);
      }
    }
  }

  /** No job is reported twice, whatever the trace. */
  lemma ReportedOnce(trace: seq<Event>)
    ensures UniqueNames(DrmJobs(trace))
  {
    StartKeysUnique(trace);
    PricedUnique(Signals(trace), Starts(trace));
  }

  // ---------------------------------------------------------------- lost signals

  /** The trace without the signal events that were not kept. */
  function Lose(trace: seq<Event>, keep: seq<bool>): seq<Event>
    requires |keep| == |trace|
  {
    if trace == [] then []
    else
      var n := |trace| - 1;
      Lose(trace[..n], keep[..n]) + (if trace[n].ProcessJob? && !keep[n] then [] else [trace[n]])
  }

  lemma AddSignalKeeps(signals: seq<Signal>, e: Event, x: Signal)
    ensures x in AddSignal(signals, e) <==> x in signals || (e.ProcessJob? && x == Signal(e.t, e.fence))
  {
  }

  lemma {:induction false} LoseKeepsStarts(trace: seq<Event>, keep: seq<bool>)
    requires |keep| == |trace|
    ensures Starts(Lose(trace, keep)) == Starts(trace)
    ensures forall x :: x in Signals(Lose(trace, keep)) ==> x in Signals(trace)
  {
    if trace != [] {
      var n := |trace| - 1;
      var rest, e := Lose(trace[..n], keep[..n]), trace[n];
      LoseKeepsStarts(trace[..n], keep[..n]);
      if e.ProcessJob? && !keep[n] {
        assert Lose(trace, keep) == rest;
      } else {
        assert Lose(trace, keep) == rest + [e] && (rest + [e])[..|rest|] == rest;
      }
      forall x | x in Signals(Lose(trace, keep)) ensures x in Signals(trace) {
        AddSignalKeeps(Signals(rest), e, x);
        AddSignalKeeps(Signals(trace[..n]), e, x);
      }
    }
  }

  /** With more signals a start that had a price still has one, and no higher. */
  lemma MoreSignals(fewer: seq<Signal>, more: seq<Signal>, start: Start)
    requires forall x :: x in fewer ==> x in more
    requires Candidates(fewer, start) != []
    ensures Candidates(more, start) != []
    ensures start.t <= Min(Candidates(more, start)) <= Min(Candidates(fewer, start))
  {
    var m := Min(Candidates(fewer, start));
    CandidateFound(fewer, start, m);
    CandidateFound(more, start, m);
    CandidateFound(more, start, Min(Candidates(more, start)));
  }

  /** A duration is never negative, and losing signals never shortens one: what is still
      reported was reported before, for the same job, with at most that duration. */
  lemma LostSignals(trace: seq<Event>, keep: seq<bool>, job: Job) returns (full: Job)
    requires |keep| == |trace| && job in DrmJobs(Lose(trace, keep))
    ensures full in DrmJobs(trace) && full.name == job.name && 0.0 <= full.ms <= job.ms
  {
    var fewer, more, starts := Signals(Lose(trace, keep)), Signals(trace), Starts(trace);
    LoseKeepsStarts(trace, keep);
    JobFound(fewer, starts, job);
    var k :| 0 <= k < |starts| && job in Priced(fewer, starts[k]);
    MoreSignals(fewer, more, starts[k]);
    full := Priced(more, starts[k])[0];
    JobFound(more, starts, full);
  }

  // ---------------------------------------------------------------- pvr_fence

  predicate EnableAt(trace: seq<Event>, i: int, tl: string) {
    0 <= i < |trace| && trace[i].EnableSignaling? && trace[i].timeline == tl
  }

  predicate SignalsTimeline(trace: seq<Event>, j: int, tl: string) {
    0 <= j < |trace| && trace[j].SignalFence? && trace[j].timeline == tl
  }

  predicate OnTimeline(trace: seq<Event>, k: int, tl: string) {
    EnableAt(trace, k, tl) || SignalsTimeline(trace, k, tl)
  }

  /** Enable i is the latest on its timeline before event n, with no signal since. */
  predicate Outstanding(trace: seq<Event>, i: int, n: int, tl: string) {
    i < n && EnableAt(trace, i, tl) && forall k :: i < k < n ==> !OnTimeline(trace, k, tl)
  }

  /** Signal j ends enable i. */
  predicate Ends(trace: seq<Event>, i: int, j: int) {
    0 <= i < j < |trace| && trace[j].SignalFence? && Outstanding(trace, i, j, trace[j].timeline)
  }

  /** What signal j is worth: the time since the enable it ends, if it ends one. */
  ghost function Ended(trace: seq<Event>, j: int): seq<Job>
    requires 0 <= j < |trace|
  {
    if i :| Ends(trace, i, j) then [Job(Prefix(trace[j].timeline), (trace[j].t - trace[i].t) * 1000.0)] else []
  }

  /** The reference: the signals that end an enable, in trace order, with their durations. */
  ghost function EndedJobs(trace: seq<Event>, n: nat): seq<Job>
    requires n <= |trace|
  {
    if n == 0 then [] else EndedJobs(trace, n - 1) + Ended(trace, n - 1)
  }

  lemma OutstandingUnique(trace: seq<Event>, i: int, i': int, n: int, tl: string)
    requires Outstanding(trace, i, n, tl) && Outstanding(trace, i', n, tl)
    ensures i == i'
  {
    assert OnTimeline(trace, i, tl) && OnTimeline(trace, i', tl);
  }

  lemma OutstandingNext(trace: seq<Event>, i: int, n: nat, tl: string)
    requires n < |trace|
    ensures Outstanding(trace, i, n + 1, tl) <==>
      if EnableAt(trace, n, tl) then i == n
      else !SignalsTimeline(trace, n, tl) && Outstanding(trace, i, n, tl)
  {
    if i < n && OnTimeline(trace, n, tl) {
      assert !Outstanding(trace, i, n + 1, tl);
    }
  }

  /** The pending table holds exactly the outstanding enables. */
  ghost predicate TableFor(trace: seq<Event>, n: int, pending: map<string, real>, tl: string) {
    && (tl in pending <==> exists i :: Outstanding(trace, i, n, tl))
    && forall i :: Outstanding(trace, i, n, tl) ==> tl in pending && pending[tl] == trace[i].t
  }

  lemma TableNext(trace: seq<Event>, n: nat, m: int, p: Pairing, tl: string)
    requires n < |trace| && m == n + 1 && TableFor(trace, n, p.pending, tl)
    ensures TableFor(trace, m, PairOne(p, trace[n]).pending, tl)
  {
    forall i ensures Outstanding(trace, i, m, tl) <==>
      if EnableAt(trace, n, tl) then i == n
      else !SignalsTimeline(trace, n, tl) && Outstanding(trace, i, n, tl)
    {
      OutstandingNext(trace, i, n, tl);
    }
    if EnableAt(trace, n, tl) {
      assert Outstanding(trace, n, m, tl);
    }
  }

  lemma EndedByTable(trace: seq<Event>, j: int, p: Pairing)
    requires 0 <= j < |trace|
    requires trace[j].SignalFence? ==> TableFor(trace, j, p.pending, trace[j].timeline)
    ensures PairOne(p, trace[j]).jobs == p.jobs + Ended(trace, j)
  {
    if trace[j].SignalFence? {
      var tl := trace[j].timeline;
      assert forall i :: Ends(trace, i, j) ==> Outstanding(trace, i, j, tl);
      assert forall i :: Outstanding(trace, i, j, tl) && 0 <= i ==> Ends(trace, i, j);
    }
  }

  lemma {:induction false} FencesPaired(trace: seq<Event>, n: nat)
    requires n <= |trace|
    ensures PairFences(trace[..n]).jobs == EndedJobs(trace, n)
    ensures forall tl :: TableFor(trace, n, PairFences(trace[..n]).pending, tl)
  {
    if n > 0 {
      var p, e := PairFences(trace[..n - 1]), trace[n - 1];
      FencesPaired(trace, n - 1);
      assert trace[..n][..n - 1] == trace[..n - 1];
      forall tl ensures TableFor(trace, n, PairFences(trace[..n]).pending, tl) {
        TableNext(trace, n - 1, n, p, tl);
      }
      EndedByTable(trace, n - 1, p);
    }
  }

  /** The branch pairs each signal with the latest enable on its timeline since that
      timeline's previous signal, and reports exactly those pairs. */
  lemma FenceBranchMeaning(trace: seq<Event>)
    ensures PairFences(trace).jobs == EndedJobs(trace, |trace|)
  {
    FencesPaired(trace, |trace|);
    assert trace[..|trace|] == trace;
  }

  /** No enable is used twice, and no signal ends two. */
  lemma EndsOneToOne(trace: seq<Event>, i: int, j: int, i': int, j': int)
    requires Ends(trace, i, j) && Ends(trace, i', j')
    ensures i == i' <==> j == j'
  {
    var tl := trace[j].timeline;
    if j == j' {
      OutstandingUnique(trace, i, i', j, tl);
    } else if i == i' {
      assert OnTimeline(trace, j, tl) && OnTimeline(trace, j', tl);
    }
  }

  ghost predicate TimeOrdered(trace: seq<Event>) {
    forall i, j :: 0 <= i < j < |trace| && !trace[i].Unmatched? && !trace[j].Unmatched? ==> trace[i].t <= trace[j].t
  }

  /** On a time-ordered trace no duration is negative. */
  lemma {:induction false} FenceDurations(trace: seq<Event>, n: nat)
    requires n <= |trace| && TimeOrdered(trace)
    ensures forall p :: 0 <= p < |EndedJobs(trace, n)| ==> EndedJobs(trace, n)[p].ms >= 0.0
  {
    if n > 0 {
      FenceDurations(trace, n - 1);
    }
  }
}
