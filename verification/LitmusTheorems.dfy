/** What the detector's counters mean, memory by memory. */
module LitmusTheorems {
  import opened Litmus

  // ---------------------------------------------------------------- the store sequence

  /** Pairs of stores the writer makes in all. */
  function Pairs(passes: int): nat {
    if passes >= 1 then passes * SLOTS else 0
  }

  /** The n-th store of the writer, counting from 0: pairs in order, then writer_done. */
  function StoreAt(passes: int, n: nat): Store {
    var pair := n / 2;
    if pair >= Pairs(passes) then StoreDone
    else if n % 2 == 0 then StoreA(pair % SLOTS, (SLOTS + pair) % WRAP)
    else StoreB(pair % SLOTS, (SLOTS + pair) % WRAP)
  }

  /** How many stores the writer has made. */
  function Issued(passes: int, w: Writer): int {
    match w
    case Writing(p, i, second) => 2 * ((p - 1) * SLOTS + i) + (if second then 1 else 0)
    case Finishing => 2 * Pairs(passes)
    case Finished => 2 * Pairs(passes) + 1
  }

  predicate WriterAt(passes: int, w: Writer) {
    w.Writing? ==> 1 <= w.p <= passes && w.i < SLOTS
  }

  lemma WriterInOrder(passes: int, w: Writer)
    requires WriterAt(passes, w) && !w.Finished?
    ensures WriterAt(passes, NextWriter(passes, w))
    ensures Issued(passes, NextWriter(passes, w)) == Issued(passes, w) + 1
    ensures Issued(passes, w) >= 0 && NextStore(w) == StoreAt(passes, Issued(passes, w))
  {
    if w.Writing? {
      var pair := (w.p - 1) * SLOTS + w.i;
      assert pair % SLOTS == w.i && SLOTS + pair == w.p * SLOTS + w.i;
      assert (w.p - 1) * SLOTS >= 0 && w.p * SLOTS <= passes * SLOTS;
      assert Issued(passes, w) / 2 == pair && (Issued(passes, w) % 2 == 1 <==> w.second);
    }
  }

  /** The value slot i holds once the first c pairs have reached it, without wrap-around. */
  function Latest(c: nat, i: nat): nat
    requires i < SLOTS
  {
    if c <= i then 0 else SLOTS * ((c - 1 - i) / SLOTS + 1) + i
  }

  lemma LatestMonotone(c: nat, c': nat, i: nat)
    requires i < SLOTS && c <= c'
    ensures Latest(c, i) <= Latest(c', i)
  {
  }

  lemma LatestNext(c: nat, i: nat)
    requires i < SLOTS
    ensures Latest(c + 1, i) == if c % SLOTS == i then SLOTS + c else Latest(c, i)
    ensures Latest(c, i) != 0 ==> Latest(c + 1, i) <= Latest(c, i) + SLOTS
    ensures Latest(c, i) != 0 ==> SLOTS <= Latest(c, i) < SLOTS + c && Latest(c, i) % SLOTS == i
  {
  }

  // ---------------------------------------------------------------- ordered memories

  /** How many stores have reached memory. */
  ghost function Drained(passes: int, s: State): int {
    Issued(passes, s.writer) - |s.buffer|
  }

  /** The pairs whose first store is among the first d stores. */
  function FirstHalves(passes: int, d: nat): nat {
    if (d + 1) / 2 <= Pairs(passes) then (d + 1) / 2 else Pairs(passes)
  }

  /** Memory holds what the first d stores of the writer leave in it. */
  ghost predicate MemoryIs(passes: int, m: Shared, d: int) {
    && m.Shaped() && 0 <= d <= 2 * Pairs(passes) + 1
    && (forall i :: 0 <= i < SLOTS ==> m.a[i] == Latest(FirstHalves(passes, d), i) % WRAP)
    && (forall i :: 0 <= i < SLOTS ==> m.b[i] == Latest(d / 2, i) % WRAP)
    && (m.done <==> d == 2 * Pairs(passes) + 1)
  }

  ghost predicate Fifo(passes: int, buffer: seq<Store>, d: int) {
    d >= 0 && forall j :: 0 <= j < |buffer| ==> buffer[j] == StoreAt(passes, d + j)
  }

  ghost predicate Ordered(mem: Memory, passes: int, s: State) {
    && WriterAt(passes, s.writer)
    && Issued(passes, s.writer) <= 2 * Pairs(passes) + 1
    && (mem.Sc? ==> s.buffer == [])
    && Fifo(passes, s.buffer, Drained(passes, s))
    && MemoryIs(passes, s.memory, Drained(passes, s))
  }

  /** The n-th store takes memory from the first n stores to the first n + 1. */
  lemma ApplyNext(passes: int, m: Shared, d: nat)
    requires MemoryIs(passes, m, d) && d <= 2 * Pairs(passes)
    ensures MemoryIs(passes, m.Apply(StoreAt(passes, d)), d + 1)
  {
    var r := m.Apply(StoreAt(passes, d));
    if d == 2 * Pairs(passes) {
      assert (d + 1) / 2 == d / 2 == Pairs(passes);
    } else {
      forall i | 0 <= i < SLOTS
        ensures r.a[i] == Latest(FirstHalves(passes, d + 1), i) % WRAP && r.b[i] == Latest((d + 1) / 2, i) % WRAP
      {
        LatestNext(d / 2, i);
      }
    }
  }

  lemma WriterIssues(passes: int, w: Writer)
    requires WriterAt(passes, w)
    ensures Issued(passes, w) <= 2 * Pairs(passes) + 1
    ensures !w.Finished? ==> Issued(passes, w) <= 2 * Pairs(passes)
  {
    if w.Writing? {
      assert (w.p - 1) * SLOTS <= (passes - 1) * SLOTS;
    }
  }

  lemma WriterOrdered(mem: Memory, passes: int, s: State)
    requires !mem.PerLocation? && s.Shaped() && Ordered(mem, passes, s) && !s.writer.Finished?
    ensures Ordered(mem, passes, WriterStep(mem, passes, s))
    ensures Drained(passes, WriterStep(mem, passes, s)) >= Drained(passes, s)
  {
    WriterInOrder(passes, s.writer);
    WriterIssues(passes, s.writer);
    WriterIssues(passes, NextWriter(passes, s.writer));
    if mem.Sc? {
      ApplyNext(passes, s.memory, Drained(passes, s));
    }
  }

  lemma DrainOrdered(mem: Memory, passes: int, s: State)
    requires s.Shaped() && Ordered(mem, passes, s) && s.buffer != []
    ensures Ordered(mem, passes, s.(memory := s.memory.Apply(s.buffer[0]), buffer := s.buffer[1..]))
  {
    assert s.buffer[0] == StoreAt(passes, Drained(passes, s));
    WriterIssues(passes, s.writer);
    ApplyNext(passes, s.memory, Drained(passes, s));
  }

  lemma StepOrdered(mem: Memory, passes: int, s: State, t: Turn)
    requires !mem.PerLocation? && s.Shaped() && Ordered(mem, passes, s)
    ensures Ordered(mem, passes, Step(mem, passes, s, t))
    ensures Drained(passes, Step(mem, passes, s, t)) >= Drained(passes, s)
  {
    if t == WriterTurn && !s.writer.Finished? {
      WriterOrdered(mem, passes, s);
    } else if t.DrainTurn? && MayDrain(mem, s.buffer, t.k) {
      DrainOrdered(mem, passes, s);
      assert s.buffer[..0] + s.buffer[1..] == s.buffer[1..];
    }
  }

  lemma {:induction false} ExecOrdered(mem: Memory, passes: int, schedule: seq<Turn>)
    requires !mem.PerLocation?
    ensures Ordered(mem, passes, Exec(mem, passes, schedule))
  {
    if schedule != [] {
      var n := |schedule| - 1;
      ExecOrdered(mem, passes, schedule[..n]);
      StepOrdered(mem, passes, Exec(mem, passes, schedule[..n]), schedule[n]);
    }
  }

  // ---------------------------------------------------------------- the claim, without wrap-around

  /** No stored value is reused: the last one, (passes + 1) * SLOTS - 1, fits in 32 bits. */
  predicate NoWrap(passes: int) {
    (passes + 1) * SLOTS <= WRAP
  }

  /** The pair count of a is that of b, or one more. */
  lemma HalvesClose(passes: int, d: nat)
    requires d <= 2 * Pairs(passes) + 1
    ensures d / 2 <= FirstHalves(passes, d) <= d / 2 + 1
    ensures FirstHalves(passes, d) <= Pairs(passes)
  {
  }

  lemma LatestFits(passes: int, c: nat, i: nat)
    requires NoWrap(passes) && c <= Pairs(passes) && i < SLOTS
    ensures Latest(c, i) % WRAP == Latest(c, i)
    ensures Latest(c, i) != 0 ==> SLOTS <= Latest(c, i) < SLOTS + Pairs(passes) && Latest(c, i) % SLOTS == i
  {
    LatestNext(c, i);
  }

  /** Per slot a never lags b, and never leads it by more than the writer's next store. */
  lemma AheadByOne(passes: int, m: Shared, d: int, i: nat)
    requires MemoryIs(passes, m, d) && NoWrap(passes) && i < SLOTS
    ensures m.b[i] <= m.a[i]
    ensures m.b[i] != 0 ==> m.a[i] <= m.b[i] + SLOTS && m.b[i] >= SLOTS && m.b[i] % SLOTS == i
    ensures m.a[i] != 0 ==> SLOTS <= m.a[i] < SLOTS + Pairs(passes) && m.a[i] % SLOTS == i
    ensures m.a[i] == Latest(FirstHalves(passes, d), i) && m.b[i] == Latest(d / 2, i)
  {
    HalvesClose(passes, d);
    LatestFits(passes, d / 2, i);
    LatestFits(passes, FirstHalves(passes, d), i);
    LatestMonotone(d / 2, FirstHalves(passes, d), i);
    LatestMonotone(FirstHalves(passes, d), d / 2 + 1, i);
    LatestNext(d / 2, i);
  }

  lemma MemoryGrows(passes: int, m: Shared, d: int, m': Shared, d': int, i: nat)
    requires MemoryIs(passes, m, d) && MemoryIs(passes, m', d') && d <= d' && NoWrap(passes) && i < SLOTS
    ensures m.a[i] <= m'.a[i] && m.b[i] <= m'.b[i]
  {
    AheadByOne(passes, m, d, i);
    AheadByOne(passes, m', d', i);
    LatestMonotone(d / 2, d' / 2, i);
    LatestMonotone(FirstHalves(passes, d), FirstHalves(passes, d'), i);
  }

  /** What the loads already made say about memory now. */
  ghost predicate LoadsBehind(s: State)
    requires s.Shaped()
  {
    match s.reader
    case LoadA(i, b1) => b1 != 0 && b1 % SLOTS == i && b1 <= s.memory.b[i]
    case LoadBAgain(i, b1, a) =>
      b1 != 0 && b1 % SLOTS == i && b1 <= s.memory.b[i] && a % SLOTS == i && b1 <= a <= s.memory.a[i]
    case _ => true
  }

  lemma NextInSlot(a: nat, b: nat, i: nat)
    requires a % SLOTS == i && b % SLOTS == i && b <= a <= b + SLOTS
    ensures a == b || a == b + SLOTS
  {
  }

  /** The second load of b pins a to two values. */
  lemma PinnedSample(mem: Memory, passes: int, s: State)
    requires s.Shaped() && Ordered(mem, passes, s) && NoWrap(passes) && LoadsBehind(s)
    requires s.reader.LoadBAgain? && s.memory.b[s.reader.i] == s.reader.b1
    ensures s.reader.a == s.reader.b1 || s.reader.a == s.reader.b1 + SLOTS
    ensures s.reader.a < SLOTS + Pairs(passes) && s.reader.b1 >= SLOTS
  {
    AheadByOne(passes, s.memory, Drained(passes, s), s.reader.i);
    NextInSlot(s.reader.a, s.reader.b1, s.reader.i);
  }

  lemma StepLoads(mem: Memory, passes: int, s: State, t: Turn)
    requires !mem.PerLocation? && s.Shaped() && Ordered(mem, passes, s) && NoWrap(passes) && LoadsBehind(s)
    ensures LoadsBehind(Step(mem, passes, s, t))
    ensures Step(mem, passes, s, t).counters.reordered == s.counters.reordered
  {
    var r := Step(mem, passes, s, t);
    StepOrdered(mem, passes, s, t);
    if t != ReaderTurn {
      if s.reader.LoadA? || s.reader.LoadBAgain? {
        MemoryGrows(passes, s.memory, Drained(passes, s), r.memory, Drained(passes, r), s.reader.i);
      }
    } else if s.reader.LoadB? || s.reader.LoadA? {
      AheadByOne(passes, s.memory, Drained(passes, s), s.reader.i);
    } else if s.reader.LoadBAgain? && s.memory.b[s.reader.i] == s.reader.b1 {
      PinnedSample(mem, passes, s);
    }
  }

  lemma {:induction false} ExecLoads(mem: Memory, passes: int, schedule: seq<Turn>)
    requires !mem.PerLocation? && NoWrap(passes)
    ensures LoadsBehind(Exec(mem, passes, schedule))
    ensures Exec(mem, passes, schedule).counters.reordered == 0
  {
    if schedule != [] {
      var n := |schedule| - 1;
      ExecLoads(mem, passes, schedule[..n]);
      ExecOrdered(mem, passes, schedule[..n]);
      StepLoads(mem, passes, Exec(mem, passes, schedule[..n]), schedule[n]);
    }
  }

  lemma ExecNext(mem: Memory, passes: int, schedule: seq<Turn>, t: Turn)
    ensures Exec(mem, passes, schedule + [t]) == Step(mem, passes, Exec(mem, passes, schedule), t)
  {
    assert (schedule + [t])[..|schedule|] == schedule;
  }

  /** The counters change only when the reader loads b for the second time and finds the
      value it had, and then so: one sample more, one violation more if a was another
      value, and one reordering more if a was the lower one. */
  lemma CountedExactly(mem: Memory, passes: int, schedule: seq<Turn>, t: Turn)
    ensures var s, r := Exec(mem, passes, schedule), Exec(mem, passes, schedule + [t]);
      if t == ReaderTurn && s.reader.LoadBAgain? && s.memory.b[s.reader.i] == s.reader.b1
      then && r.counters.samples == s.counters.samples + 1
           && r.counters.violations == s.counters.violations + (if s.reader.a != s.reader.b1 then 1 else 0)
           && r.counters.reordered == s.counters.reordered + (if s.reader.a < s.reader.b1 then 1 else 0)
      else r.counters == s.counters
  {
    ExecNext(mem, passes, schedule, t);
  }

  /** A step that counts a sample has a == b1, or the value the writer stores there next. */
  lemma CountedSample(mem: Memory, passes: int, schedule: seq<Turn>, t: Turn)
    requires !mem.PerLocation? && (passes + 1) * 32768 <= 0x1_0000_0000
    requires Exec(mem, passes, schedule + [t]).counters.samples != Exec(mem, passes, schedule).counters.samples
    ensures var s := Exec(mem, passes, schedule);
      && t == ReaderTurn && s.reader.LoadBAgain? && s.memory.b[s.reader.i] == s.reader.b1
      && (s.reader.a == s.reader.b1 || s.reader.a == s.reader.b1 + 32768)
  {
    CountedExactly(mem, passes, schedule, t);
    ExecOrdered(mem, passes, schedule);
    ExecLoads(mem, passes, schedule);
    PinnedSample(mem, passes, Exec(mem, passes, schedule));
  }

  lemma {:induction false} DrainedGrows(mem: Memory, passes: int, schedule: seq<Turn>, more: seq<Turn>)
    requires !mem.PerLocation?
    ensures Drained(passes, Exec(mem, passes, schedule)) <= Drained(passes, Exec(mem, passes, schedule + more))
  {
    if more == [] {
      assert schedule + more == schedule;
    } else {
      var n := |more| - 1;
      DrainedGrows(mem, passes, schedule, more[..n]);
      assert schedule + more == (schedule + more[..n]) + [more[n]];
      ExecNext(mem, passes, schedule + more[..n], more[n]);
      ExecOrdered(mem, passes, schedule + more[..n]);
      StepOrdered(mem, passes, Exec(mem, passes, schedule + more[..n]), more[n]);
    }
  }

  /** Once b == v is visible in a slot, its a stays at v or above for the rest of the run. */
  lemma FirstStoreVisible(mem: Memory, passes: int, schedule: seq<Turn>, more: seq<Turn>, i: nat)
    requires !mem.PerLocation? && NoWrap(passes) && i < SLOTS
    ensures Exec(mem, passes, schedule).memory.b[i] <= Exec(mem, passes, schedule + more).memory.a[i]
  {
    var s, t := Exec(mem, passes, schedule), Exec(mem, passes, schedule + more);
    ExecOrdered(mem, passes, schedule);
    ExecOrdered(mem, passes, schedule + more);
    DrainedGrows(mem, passes, schedule, more);
    AheadByOne(passes, s.memory, Drained(passes, s), i);
    MemoryGrows(passes, s.memory, Drained(passes, s), t.memory, Drained(passes, t), i);
  }

  /** With at most one pass a slot holds no value but its own, so nothing is counted. */
  lemma {:induction false} OnePassClean(mem: Memory, passes: int, schedule: seq<Turn>)
    requires !mem.PerLocation? && passes <= 1
    ensures Exec(mem, passes, schedule).counters.violations == 0
  {
    if schedule != [] {
      var n := |schedule| - 1;
      var s := Exec(mem, passes, schedule[..n]);
      OnePassClean(mem, passes, schedule[..n]);
      ExecOrdered(mem, passes, schedule[..n]);
      ExecLoads(mem, passes, schedule[..n]);
      if s.reader.LoadBAgain? && s.memory.b[s.reader.i] == s.reader.b1 {
        PinnedSample(mem, passes, s);
      }
    }
  }

  /** In any memory a reordered sample is a violation, and a violation is a sample. */
  lemma {:induction false} CountersNested(mem: Memory, passes: int, schedule: seq<Turn>)
    ensures var c := Exec(mem, passes, schedule).counters; c.reordered <= c.violations <= c.samples
  {
    if schedule != [] {
      var n := |schedule| - 1;
      CountersNested(mem, passes, schedule[..n]);
    }
  }

  // ---------------------------------------------------------------- reaching a sample

  ghost predicate Reaches(mem: Memory, passes: int, schedule: seq<Turn>, s: State) {
    Exec(mem, passes, schedule) == s
  }

  ghost predicate Reachable(mem: Memory, passes: int, s: State) {
    exists schedule :: Reaches(mem, passes, schedule, s)
  }

  lemma Extend(mem: Memory, passes: int, s: State, t: Turn)
    requires Reachable(mem, passes, s)
    ensures s.Shaped() && Reachable(mem, passes, Step(mem, passes, s, t))
  {
    var schedule :| Reaches(mem, passes, schedule, s);
    assert (schedule + [t])[..|schedule|] == schedule;
    assert Reaches(mem, passes, schedule + [t], Step(mem, passes, s, t));
  }

  /** The writer runs alone and everything it stores drains at once. */
  lemma {:induction false} WriterAlone(mem: Memory, passes: int, e: nat) returns (s: State)
    requires !mem.PerLocation? && e <= 2 * Pairs(passes)
    ensures Reachable(mem, passes, s) && s.Shaped()
    ensures s.reader == Checking && s.counters == Counters(0, 0, 0) && s.buffer == []
    ensures WriterAt(passes, s.writer) && Issued(passes, s.writer) == e
    decreases e
  {
    if e == 0 {
      s := Init(passes);
      assert Reaches(mem, passes, [], s);
    } else {
      s := WriterAlone(mem, passes, e - 1);
      assert !s.writer.Finished?;
      WriterInOrder(passes, s.writer);
      Extend(mem, passes, s, WriterTurn);
      s := WriterStep(mem, passes, s);
      if mem.Tso? {
        Extend(mem, passes, s, DrainTurn(0));
        s := DrainStep(mem, s, 0);
      }
    }
  }

  /** The reader, left alone with slot 0, counts what it finds there. */
  lemma SampleSlot0(mem: Memory, passes: int, s: State)
    requires Reachable(mem, passes, s) && s.Shaped()
    requires s.reader == Checking && !s.memory.done && s.memory.b[0] != 0
    ensures Reachable(mem, passes, s.(reader := NextSlot(0), counters := Count(s.counters, s.memory.a[0], s.memory.b[0])))
  {
    var b1 := s.memory.b[0];
    Extend(mem, passes, s, ReaderTurn);
    Extend(mem, passes, s.(reader := LoadB(0)), ReaderTurn);
    Extend(mem, passes, s.(reader := LoadA(0, b1)), ReaderTurn);
    Extend(mem, passes, s.(reader := LoadBAgain(0, b1, s.memory.a[0])), ReaderTurn);
  }

  /** Slot 0 between the two stores of one of its later pairs. */
  lemma BetweenStores(passes: int, m: Shared, pair: nat)
    requires SLOTS <= pair < Pairs(passes) && pair % SLOTS == 0 && MemoryIs(passes, m, 2 * pair + 1)
    ensures m.a[0] == (SLOTS + pair) % WRAP && m.b[0] == pair % WRAP && !m.done
  {
    assert FirstHalves(passes, 2 * pair + 1) == pair + 1 && (2 * pair + 1) / 2 == pair;
    LatestNext(pair, 0);
    assert Latest(pair, 0) == pair;
  }

  /** The writer, left alone, gets there. */
  lemma ReachBetween(mem: Memory, passes: int, pair: nat) returns (s: State)
    requires !mem.PerLocation? && SLOTS <= pair < Pairs(passes) && pair % SLOTS == 0
    ensures Reachable(mem, passes, s) && s.Shaped() && s.reader == Checking && s.counters == Counters(0, 0, 0)
    ensures s.memory.a[0] == (SLOTS + pair) % WRAP && s.memory.b[0] == pair % WRAP && !s.memory.done
  {
    s := WriterAlone(mem, passes, 2 * pair + 1);
    var found :| Reaches(mem, passes, found, s);
    ExecOrdered(mem, passes, found);
    BetweenStores(passes, s.memory, pair);
  }

  /** And the reader can catch it there. */
  lemma SampleBetween(mem: Memory, passes: int, pair: nat) returns (schedule: seq<Turn>)
    requires !mem.PerLocation? && SLOTS <= pair < Pairs(passes) && pair % SLOTS == 0
    requires pair % WRAP != 0
    ensures Exec(mem, passes, schedule).counters
         == Count(Counters(0, 0, 0), (SLOTS + pair) % WRAP, pair % WRAP)
  {
    var s := ReachBetween(mem, passes, pair);
    SampleSlot0(mem, passes, s);
    schedule :| Reaches(mem, passes, schedule,
                        s.(reader := NextSlot(0), counters := Count(s.counters, s.memory.a[0], s.memory.b[0])));
  }

  // ---------------------------------------------------------------- reaching the end

  predicate NoFewer(c: Counters, d: Counters) {
    c.samples <= d.samples && c.violations <= d.violations && c.reordered <= d.reordered
  }

  /** No step takes a count back. */
  lemma StepCounts(s: State)
    requires s.Shaped()
    ensures NoFewer(s.counters, ReaderStep(s).counters)
  {
  }

  lemma ReachableOrdered(mem: Memory, passes: int, s: State)
    requires !mem.PerLocation? && Reachable(mem, passes, s)
    ensures s.Shaped() && Ordered(mem, passes, s)
  {
    var schedule :| Reaches(mem, passes, schedule, s);
    ExecOrdered(mem, passes, schedule);
  }

  /** The writer makes its remaining stores. */
  lemma {:induction false} FinishWriter(mem: Memory, passes: int, s: State) returns (r: State)
    requires !mem.PerLocation? && Reachable(mem, passes, s)
    ensures Reachable(mem, passes, r) && r.writer.Finished? && r.counters == s.counters
    decreases 2 * Pairs(passes) + 1 - Issued(passes, s.writer)
  {
    ReachableOrdered(mem, passes, s);
    r := s;
    if !s.writer.Finished? {
      WriterInOrder(passes, s.writer);
      WriterIssues(passes, s.writer);
      Extend(mem, passes, s, WriterTurn);
      r := FinishWriter(mem, passes, WriterStep(mem, passes, s));
    }
  }

  /** The buffer drains. */
  lemma {:induction false} DrainAll(mem: Memory, passes: int, s: State) returns (r: State)
    requires !mem.PerLocation? && Reachable(mem, passes, s) && s.writer.Finished?
    ensures Reachable(mem, passes, r) && r.writer.Finished? && r.buffer == [] && r.counters == s.counters
    decreases |s.buffer|
  {
    ReachableOrdered(mem, passes, s);
    r := s;
    if s.buffer != [] {
      assert MayDrain(mem, s.buffer, 0);
      Extend(mem, passes, s, DrainTurn(0));
      r := DrainAll(mem, passes, DrainStep(mem, s, 0));
    }
  }

  /** How far the reader is from its next look at writer_done. */
  function TurnsLeft(r: Reader): int {
    match r
    case Stopped => 0
    case Checking => 1
    case LoadB(i) => 3 * (SLOTS - i) + 1
    case LoadA(i, _) => 3 * (SLOTS - i)
    case LoadBAgain(i, _, _) => 3 * (SLOTS - i) - 1
  }

  lemma ReaderNears(s: State)
    requires s.Shaped() && s.memory.done && !s.reader.Stopped?
    ensures 0 <= TurnsLeft(ReaderStep(s).reader) < TurnsLeft(s.reader)
    ensures ReaderStep(s).memory == s.memory && ReaderStep(s).writer == s.writer
  {
  }

  /** The reader finishes its sweep and stops. */
  lemma {:induction false} FinishReader(mem: Memory, passes: int, s: State) returns (r: State)
    requires Reachable(mem, passes, s) && s.Shaped() && s.writer.Finished? && s.memory.done
    ensures Reachable(mem, passes, r) && Ended(r) && NoFewer(s.counters, r.counters)
    decreases TurnsLeft(s.reader)
  {
    r := s;
    if !s.reader.Stopped? {
      ReaderNears(s);
      StepCounts(s);
      Extend(mem, passes, s, ReaderTurn);
      r := FinishReader(mem, passes, ReaderStep(s));
    }
  }

  /** Every run can be carried to its end, and keeps what it has counted. */
  lemma RunToEnd(mem: Memory, passes: int, s: State) returns (r: State)
    requires !mem.PerLocation? && Reachable(mem, passes, s)
    ensures Reachable(mem, passes, r) && Ended(r) && NoFewer(s.counters, r.counters)
  {
    var written := FinishWriter(mem, passes, s);
    var drained := DrainAll(mem, passes, written);
    ReachableOrdered(mem, passes, drained);
    r := FinishReader(mem, passes, drained);
  }

  // ---------------------------------------------------------------- exactly when

  /** `reordered` stays 0 in every run exactly when no value wraps around. */
  lemma ReorderedIff(mem: Memory, passes: int)
    requires !mem.PerLocation?
    ensures (forall schedule :: Exec(mem, passes, schedule).counters.reordered == 0)
       <==> (passes + 1) * 32768 <= 0x1_0000_0000
  {
    if NoWrap(passes) {
      forall schedule ensures Exec(mem, passes, schedule).counters.reordered == 0 {
        ExecLoads(mem, passes, schedule);
      }
    } else {
      // Value 2^32 is stored as 0, below the previous value of slot 0.
      var schedule := SampleBetween(mem, passes, WRAP - SLOTS);
      assert Exec(mem, passes, schedule).counters.reordered == 1;
    }
  }

  /** No finished run counts a violation exactly when there is at most one pass: from the
      second pass on, even without any reordering, a sample can catch the writer between
      its two stores.  So an exit status of 1 by itself condemns nothing. */
  lemma ViolationsIff(mem: Memory, passes: int)
    requires !mem.PerLocation?
    ensures (forall schedule | Ended(Exec(mem, passes, schedule)) :: ExitStatus(Exec(mem, passes, schedule)) == 0)
       <==> passes <= 1
  {
    if passes <= 1 {
      forall schedule ensures ExitStatus(Exec(mem, passes, schedule)) == 0 {
        OnePassClean(mem, passes, schedule);
      }
    } else {
      var schedule := SampleBetween(mem, passes, SLOTS);
      assert Exec(mem, passes, schedule).counters.violations == 1;
      assert Reaches(mem, passes, schedule, Exec(mem, passes, schedule));
      var r := RunToEnd(mem, passes, Exec(mem, passes, schedule));
      var whole :| Reaches(mem, passes, whole, r);
      assert ExitStatus(Exec(mem, passes, whole)) == 1;
    }
  }

  // ---------------------------------------------------------------- the weak memory

  /** Nothing but writer_done is ever stored. */
  ghost predicate NothingStored(s: State) {
    && s.Shaped() && !s.writer.Writing? && s.counters.reordered == 0
    && (forall j :: 0 <= j < |s.buffer| ==> s.buffer[j] == StoreDone)
    && (forall i :: 0 <= i < SLOTS ==> s.memory.b[i] == 0)
    && !s.reader.LoadA? && !s.reader.LoadBAgain?
  }

  lemma DrainNothing(mem: Memory, s: State, k: nat)
    requires NothingStored(s)
    ensures NothingStored(DrainStep(mem, s, k))
  {
    if MayDrain(mem, s.buffer, k) {
      var r := DrainStep(mem, s, k);
      assert s.buffer[k] == StoreDone;
      assert r.memory.b == s.memory.b;
      assert forall j :: 0 <= j < |r.buffer| ==> r.buffer[j] == s.buffer[if j < k then j else j + 1];
    }
  }

  lemma WriteNothing(mem: Memory, passes: int, s: State)
    requires NothingStored(s)
    ensures NothingStored(WriterStep(mem, passes, s))
  {
    if !s.writer.Finished? {
      assert NextStore(s.writer) == StoreDone;
      assert s.memory.Apply(StoreDone).b == s.memory.b;
    }
  }

  lemma ReadNothing(s: State)
    requires NothingStored(s)
    ensures NothingStored(ReaderStep(s))
  {
  }

  lemma {:induction false} NoPassNothing(mem: Memory, passes: int, schedule: seq<Turn>)
    requires passes <= 0
    ensures NothingStored(Exec(mem, passes, schedule))
  {
    if schedule != [] {
      var n := |schedule| - 1;
      var s := Exec(mem, passes, schedule[..n]);
      NoPassNothing(mem, passes, schedule[..n]);
      match schedule[n]
      case WriterTurn => WriteNothing(mem, passes, s);
      case ReaderTurn => ReadNothing(s);
      case DrainTurn(k) => DrainNothing(mem, s, k);
    }
  }

  lemma BufferFirst(passes: int, s: State)
    requires Reachable(PerLocation, passes, s) && s.Shaped() && s.writer == Writing(1, 0, false) && s.buffer == []
    ensures Reachable(PerLocation, passes, s.(writer := Writing(1, 0, true), buffer := [StoreA(0, SLOTS)]))
  {
    Extend(PerLocation, passes, s, WriterTurn);
    assert s.buffer + [StoreA(0, SLOTS)] == [StoreA(0, SLOTS)];
  }

  lemma BufferSecond(passes: int, s: State)
    requires Reachable(PerLocation, passes, s) && s.Shaped()
    requires s.writer == Writing(1, 0, true) && s.buffer == [StoreA(0, SLOTS)]
    ensures Reachable(PerLocation, passes, s.(writer := NextWriter(passes, s.writer),
                                              buffer := [StoreA(0, SLOTS), StoreB(0, SLOTS)]))
  {
    assert Value(1, 0) == SLOTS;
    assert s.buffer + [StoreB(0, SLOTS)] == [StoreA(0, SLOTS), StoreB(0, SLOTS)];
    assert WriterStep(PerLocation, passes, s) ==
      s.(writer := NextWriter(passes, s.writer), buffer := [StoreA(0, SLOTS), StoreB(0, SLOTS)]);
    Extend(PerLocation, passes, s, WriterTurn);
  }

  /** Slot 0 with its second store in memory and its first still buffered. */
  lemma SecondStoreFirst(passes: int) returns (s: State)
    requires passes >= 1
    ensures Reachable(PerLocation, passes, s) && s.Shaped()
    ensures s.reader == Checking && s.counters == Counters(0, 0, 0) && !s.memory.done
    ensures s.memory.a[0] == 0 && s.memory.b[0] == SLOTS
  {
    s := Init(passes);
    assert Reaches(PerLocation, passes, [], s);
    BufferFirst(passes, s);
    s := s.(writer := Writing(1, 0, true), buffer := [StoreA(0, SLOTS)]);
    BufferSecond(passes, s);
    s := s.(writer := NextWriter(passes, s.writer), buffer := [StoreA(0, SLOTS), StoreB(0, SLOTS)]);
    Extend(PerLocation, passes, s, DrainTurn(1));
    s := DrainStep(PerLocation, s, 1);
  }

  /** If the two stores of a pair may drain in either order, the detector can fire. */
  lemma WeakMemoryDetected(passes: int) returns (schedule: seq<Turn>)
    requires passes >= 1
    ensures Exec(PerLocation, passes, schedule).counters.reordered == 1
  {
    var s := SecondStoreFirst(passes);
    SampleSlot0(PerLocation, passes, s);
    schedule :| Reaches(PerLocation, passes, schedule,
                        s.(reader := NextSlot(0), counters := Count(s.counters, s.memory.a[0], s.memory.b[0])));
  }

  lemma WeakMemoryIff(passes: int)
    ensures (exists schedule :: Exec(PerLocation, passes, schedule).counters.reordered > 0) <==> passes >= 1
  {
    if passes >= 1 {
      var schedule := WeakMemoryDetected(passes);
      assert Exec(PerLocation, passes, schedule).counters.reordered > 0;
    } else {
      forall schedule ensures Exec(PerLocation, passes, schedule).counters.reordered == 0 {
        NoPassNothing(PerLocation, passes, schedule);
      }
    }
  }
}
