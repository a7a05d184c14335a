/**
 The detector as the program writes it: the loops of writer() and reader() over real
 arrays, and main's verdict.

 Each thread is followed on its own.  Before each of its accesses `Others` lets the other
 thread and the store buffer take any number of turns, which are steps of the machine; the
 statement itself then has to be the machine's next step of this thread.  `moves` records
 every turn and `Valid` says that the fields are the state the turns lead to, so whatever
 the interleaving, an execution of either loop is one of the runs the theorems speak of.
 */
module LitmusRig {
  import opened Litmus
  import opened LitmusTheorems

  datatype Thread = TheWriter | TheReader

  /** This turn is taken by someone else. */
  predicate Foreign(me: Thread, t: Turn) {
    match me
    case TheWriter => t != WriterTurn
    case TheReader => t != ReaderTurn
  }

  lemma Record(mem: Memory, passes: int, moves: seq<Turn>, t: Turn, s: State)
    requires s == Step(mem, passes, Exec(mem, passes, moves), t)
    ensures s == Exec(mem, passes, moves + [t])
  {
    assert (moves + [t])[..|moves|] == moves;
  }

  /** A thread's position and its counters are its own. */
  lemma ForeignKeeps(mem: Memory, passes: int, s: State, t: Turn)
    requires s.Shaped()
    ensures Foreign(TheWriter, t) ==> Step(mem, passes, s, t).writer == s.writer
    ensures Foreign(TheReader, t) ==> Step(mem, passes, s, t).reader == s.reader
    ensures Foreign(TheReader, t) ==> Step(mem, passes, s, t).counters == s.counters
  {
  }

  /** These are the stores the writer has made when it stands here. */
  ghost predicate StoresUpTo(passes: int, w: Writer, stores: seq<Store>) {
    && WriterAt(passes, w) && |stores| == Issued(passes, w)
    && forall n :: 0 <= n < |stores| ==> stores[n] == StoreAt(passes, n)
  }

  lemma StoresNext(passes: int, w: Writer, stores: seq<Store>)
    requires StoresUpTo(passes, w, stores) && !w.Finished?
    ensures StoresUpTo(passes, NextWriter(passes, w), stores + [NextStore(w)])
  {
    WriterInOrder(passes, w);
  }

  /** What reader() loaded from a slot; nothing after the first b if that was 0. */
  datatype Look = Look(slot: nat, b1: nat, a: nat, b2: nat)

  predicate Agrees(l: Look) {
    l.b1 != 0 && l.b2 == l.b1
  }

  /** What the counters have to be after these looks. */
  function Tally(looks: seq<Look>): Counters {
    if looks == [] then Counters(0, 0, 0)
    else
      var c, l := Tally(looks[..|looks| - 1]), looks[|looks| - 1];
      Counters(c.samples + (if Agrees(l) then 1 else 0),
               c.violations + (if Agrees(l) && l.a != l.b1 then 1 else 0),
               c.reordered + (if Agrees(l) && l.a < l.b1 then 1 else 0))
  }

  lemma TallyNext(looks: seq<Look>, l: Look)
    ensures Tally(looks + [l]) ==
      if Agrees(l)
      then Counters(Tally(looks).samples + 1,
                    Tally(looks).violations + (if l.a != l.b1 then 1 else 0),
                    Tally(looks).reordered + (if l.a < l.b1 then 1 else 0))
      else Tally(looks)
  {
    assert (looks + [l])[..|looks|] == looks;
  }

  /** So many whole sweeps and the first i slots of another, in order. */
  predicate InSweeps(looks: seq<Look>, sweeps: nat, i: nat) {
    && |looks| == sweeps * 32768 + i
    && forall k :: 0 <= k < |looks| ==> looks[k].slot == k % 32768
  }

  lemma SweepNext(looks: seq<Look>, sweeps: nat, i: nat, l: Look)
    requires InSweeps(looks, sweeps, i) && i < 32768 && l.slot == i
    ensures InSweeps(looks + [l], sweeps, i + 1)
  {
    assert (sweeps * 32768 + i) % 32768 == i;
  }

  /** The two stores of every pair, pass by pass and slot by slot, a before b, each once,
      and writer_done last. */
  ghost predicate AllPairs(passes: int, stored: seq<Store>) {
    && |stored| == (if passes >= 1 then 2 * passes * 32768 else 0) + 1
    && stored[|stored| - 1] == StoreDone
    && forall p, i :: 1 <= p <= passes && 0 <= i < 32768 ==> PairStored(stored, p, i)
  }

  ghost predicate PairStored(stored: seq<Store>, p: int, i: nat) {
    var n, v := 2 * ((p - 1) * 32768 + i), (p * 32768 + i) % 0x1_0000_0000;
    p >= 1 && n + 1 < |stored| && stored[n] == StoreA(i, v) && stored[n + 1] == StoreB(i, v)
  }

  lemma StoresOfPair(passes: int, pair: nat)
    requires pair < Pairs(passes)
    ensures StoreAt(passes, 2 * pair) == StoreA(pair % 32768, (32768 + pair) % 0x1_0000_0000)
    ensures StoreAt(passes, 2 * pair + 1) == StoreB(pair % 32768, (32768 + pair) % 0x1_0000_0000)
  {
    assert (2 * pair) / 2 == pair && (2 * pair) % 2 == 0;
    assert (2 * pair + 1) / 2 == pair && (2 * pair + 1) % 2 == 1;
  }

  /** Pass p stores to slot i as its pair number (p - 1) * 32768 + i. */
  lemma PairOf(passes: int, p: int, i: nat)
    requires 1 <= p <= passes && i < 32768
    ensures 0 <= (p - 1) * 32768 + i < Pairs(passes)
    ensures ((p - 1) * 32768 + i) % 32768 == i
  {
  }

  lemma FinishedStored(passes: int, stored: seq<Store>)
    requires StoresUpTo(passes, Finished, stored)
    ensures AllPairs(passes, stored)
  {
    forall p, i | 1 <= p <= passes && 0 <= i < 32768 ensures PairStored(stored, p, i) {
      PairOf(passes, p, i);
      StoresOfPair(passes, (p - 1) * 32768 + i);
    }
  }

  class Rig {
    const mem: Memory
    const passes: int
    const a: array<nat>
    const b: array<nat>
    var writerDone: bool
    var buffer: seq<Store>        // issued, not yet in memory
    var samples: nat
    var violations: nat
    var reordered: nat
    var writer: Writer            // where the threads are
    var reader: Reader

    ghost var moves: seq<Turn>
    ghost var stored: seq<Store>  // what writer() has stored so far
    ghost var looks: seq<Look>    // what reader() has loaded so far

    function Abs(): State
      reads this, a, b
    {
      State(Shared(a[..], b[..], writerDone), buffer, writer, reader, Counters(samples, violations, reordered))
    }

    ghost predicate Formed()
      reads this, a, b
    {
      a != b && a.Length == b.Length == SLOTS && Abs().Shaped()
    }

    ghost predicate Valid()
      reads this, a, b
    {
      Formed() && Abs() == Exec(mem, passes, moves)
    }

    constructor (mem: Memory, passes: int)
      ensures Valid() && moves == [] && stored == [] && looks == [] && fresh(a) && fresh(b)
      ensures this.mem == mem && this.passes == passes
    {
      this.mem, this.passes := mem, passes;
      a := new nat[SLOTS](_ => 0);
      b := new nat[SLOTS](_ => 0);
      writerDone, buffer := false, [];
      writer := if passes >= 1 then Writing(1, 0, false) else Finishing;
      reader := Checking;
      samples, violations, reordered := 0, 0, 0;
      moves, stored, looks := [], [], [];
      new;
      assert a[..] == seq(SLOTS, _ => 0) == b[..];
    }

    /** The fields have just been changed the way turn t changes the state. */
    ghost method Commit(t: Turn)
      requires Formed() && Abs() == Step(mem, passes, Exec(mem, passes, moves), t)
      modifies this`moves
      ensures Valid() && moves == old(moves) + [t]
    {
      ghost var now := Abs();
      Record(mem, passes, moves, t, now);
      moves := moves + [t];
      assert Abs() == now;
    }

    /** One turn of someone else. */
    method Foreigner(me: Thread, t: Turn)
      requires Valid() && Foreign(me, t)
      modifies this`writerDone, this`buffer, this`samples, this`violations, this`reordered,
               this`writer, this`reader, this`moves, a, b
      ensures Valid() && moves == old(moves) + [t]
      ensures me.TheWriter? ==> writer == old(writer)
      ensures me.TheReader? ==> reader == old(reader) && Abs().counters == old(Abs()).counters
    {
      var r := Step(mem, passes, Abs(), t);
      ForeignKeeps(mem, passes, Abs(), t);
      forall i | 0 <= i < SLOTS { a[i] := r.memory.a[i]; }
      forall i | 0 <= i < SLOTS { b[i] := r.memory.b[i]; }
      writerDone, buffer, writer, reader := r.memory.done, r.buffer, r.writer, r.reader;
      samples, violations, reordered := r.counters.samples, r.counters.violations, r.counters.reordered;
      assert a[..] == r.memory.a && b[..] == r.memory.b;
      assert Abs() == r;
      Commit(t);
    }

    /** Any number of turns of everyone else. */
    method Others(me: Thread)
      requires Valid()
      modifies this`writerDone, this`buffer, this`samples, this`violations, this`reordered,
               this`writer, this`reader, this`moves, a, b
      ensures Valid() && old(moves) <= moves
      ensures me.TheWriter? ==> writer == old(writer)
      ensures me.TheReader? ==> reader == old(reader) && Abs().counters == old(Abs()).counters
    {
      var turns :| turns >= 0;
      for n := 0 to turns
        invariant Valid() && old(moves) <= moves
        invariant me.TheWriter? ==> writer == old(writer)
        invariant me.TheReader? ==> reader == old(reader) && Abs().counters == old(Abs()).counters
      {
        var t: Turn :| Foreign(me, t) by {
          assert Foreign(me, DrainTurn(0));
        }
        Foreigner(me, t);
      }
    }

    // -------------------------------------------------------------- writer()

    ghost predicate Writes()
      reads this`writer, this`stored
    {
      StoresUpTo(passes, writer, stored)
    }

    /** A store: into memory at once, or behind the stores already buffered. */
    method Issue(s: Store)
      requires Formed()
      modifies this`writerDone, this`buffer, a, b
      ensures Formed()
      ensures Abs() == if mem.Sc? then old(Abs()).(memory := old(Abs()).memory.Apply(s))
                       else old(Abs()).(buffer := old(buffer) + [s])
    {
      if mem.Sc? {
        match s
        case StoreA(i, v) => if i < SLOTS { a[i] := v; }
        case StoreB(i, v) => if i < SLOTS { b[i] := v; }
        case StoreDone => writerDone := true;
      } else {
        buffer := buffer + [s];
      }
    }

    method WriterTurns(s: Store)
      requires Valid() && !writer.Finished? && s == NextStore(writer)
      modifies this`writerDone, this`buffer, this`writer, this`moves, a, b
      ensures Valid() && writer == NextWriter(passes, old(writer))
    {
      ghost var was := Abs();
      Issue(s);
      writer := NextWriter(passes, writer);
      assert Abs() == WriterStep(mem, passes, was);
      Commit(WriterTurn);
    }

    method Store(s: Store)
      requires Valid() && Writes() && !writer.Finished? && s == NextStore(writer)
      modifies this, a, b
      ensures Valid() && Writes() && writer == NextWriter(passes, old(writer))
    {
      Others(TheWriter);
      StoresNext(passes, writer, stored);
      WriterTurns(s);
      stored := stored + [s];
    }

    /** The slot loop of pass p. */
    method WritePass(p: nat)
      requires Valid() && Writes() && 1 <= p <= passes && writer == Writing(p, 0, false)
      modifies this, a, b
      ensures Valid() && Writes() && writer == if p + 1 <= passes then Writing(p + 1, 0, false) else Finishing
    {
      var i := 0;
      while i < SLOTS
        invariant Valid() && Writes() && 0 <= i <= SLOTS
        invariant writer == if i < SLOTS then Writing(p, i, false)
                            else if p + 1 <= passes then Writing(p + 1, 0, false) else Finishing
      {
        var v := (p * SLOTS + i) % WRAP;
        Store(StoreA(i, v));
        Store(StoreB(i, v));
        i := i + 1;
      }
    }

    /** writer(): whatever the others do meanwhile. */
    method WriterThread()
      requires Valid() && moves == [] && stored == []
      modifies this, a, b
      ensures Valid() && writer == Finished && AllPairs(passes, stored)
    {
      var p := 1;
      while p <= passes
        invariant Valid() && Writes() && p >= 1
        invariant writer == if p <= passes then Writing(p, 0, false) else Finishing
        decreases passes - p
      {
        WritePass(p);
        p := p + 1;
      }
      Store(StoreDone);
      FinishedStored(passes, stored);
    }

    // -------------------------------------------------------------- reader()

    /** A statement of reader() has taken the thread to `next`. */
    method Goto(next: Reader, ghost was: State)
      requires Formed() && was == Exec(mem, passes, moves)
      requires Abs().(reader := next) == ReaderStep(was)
      modifies this`reader, this`moves
      ensures Valid() && reader == next
    {
      reader := next;
      ghost var now := Abs();
      assert now == ReaderStep(was);
      Record(mem, passes, moves, ReaderTurn, now);
      moves := moves + [ReaderTurn];
      assert Abs() == now;
    }

    ghost predicate Tallied()
      reads this
    {
      Counters(samples, violations, reordered) == Tally(looks)
    }

    // buf[i].b, and whether the slot is skipped
    method LoadB1(i: nat) returns (b1: nat)
      requires Valid() && i < SLOTS && reader == LoadB(i)
      modifies this, a, b
      ensures Valid() && b1 == b[i] && reader == (if b1 == 0 then NextSlot(i) else LoadA(i, b1))
      ensures Abs().counters == old(Abs()).counters && looks == old(looks)
    {
      Others(TheReader);
      b1 := b[i];
      Goto(if b1 == 0 then NextSlot(i) else LoadA(i, b1), Abs());
    }

    method LoadA1(i: nat, b1: nat) returns (a1: nat)
      requires Valid() && i < SLOTS && reader == LoadA(i, b1)
      modifies this, a, b
      ensures Valid() && a1 == a[i] && reader == LoadBAgain(i, b1, a1)
      ensures Abs().counters == old(Abs()).counters && looks == old(looks)
    {
      Others(TheReader);
      a1 := a[i];
      Goto(LoadBAgain(i, b1, a1), Abs());
    }

    /** The second load of b, and what it makes of the sample. */
    method Judge(i: nat, b1: nat, a1: nat) returns (b2: nat)
      requires Valid() && i < SLOTS && reader == LoadBAgain(i, b1, a1)
      modifies this, a, b
      ensures Valid() && b2 == b[i] && reader == NextSlot(i) && looks == old(looks)
      ensures samples == old(samples) + (if b2 == b1 then 1 else 0)
      ensures violations == old(violations) + (if b2 == b1 && a1 != b1 then 1 else 0)
      ensures reordered == old(reordered) + (if b2 == b1 && a1 < b1 then 1 else 0)
    {
      Others(TheReader);
      ghost var was := Abs();
      b2 := b[i];
      if b1 == b2 {
        samples := samples + 1;
        if a1 != b1 {
          violations := violations + 1;
          if a1 < b1 {
            reordered := reordered + 1;
          }
        }
      }
      Goto(NextSlot(i), was);
    }

    ghost predicate CountedFor(l: Look, c: Counters)
      reads this
    {
      && samples == c.samples + (if Agrees(l) then 1 else 0)
      && violations == c.violations + (if Agrees(l) && l.a != l.b1 then 1 else 0)
      && reordered == c.reordered + (if Agrees(l) && l.a < l.b1 then 1 else 0)
    }

    /** The body of the slot loop.  Each of the three loads sees memory as the others have
        left it by then. */
    method LookAt(i: nat) returns (ghost look: Look)
      requires Valid() && i < SLOTS && reader == LoadB(i)
      modifies this, a, b
      ensures Valid() && reader == NextSlot(i) && looks == old(looks)
      ensures look.slot == i && CountedFor(look, old(Abs()).counters)
    {
      var b1 := LoadB1(i);
      look := Look(i, b1, 0, 0);
      if b1 != 0 {
        var a1 := LoadA1(i, b1);
        var b2 := Judge(i, b1, a1);
        look := Look(i, b1, a1, b2);
      }
    }

    method ReadSlot(i: nat)
      requires Valid() && Tallied() && i < SLOTS && reader == LoadB(i)
      modifies this, a, b
      ensures Valid() && Tallied() && reader == NextSlot(i)
      ensures |looks| == |old(looks)| + 1 && looks == old(looks) + [looks[|old(looks)|]]
      ensures looks[|old(looks)|].slot == i
    {
      ghost var look := LookAt(i);
      TallyNext(looks, look);
      looks := looks + [look];
    }

    /** for (i = 0; i < SLOTS; i++): every slot once, in order. */
    method Sweep(ghost sweeps: nat)
      requires Valid() && Tallied() && reader == LoadB(0) && InSweeps(looks, sweeps, 0)
      modifies this, a, b
      ensures Valid() && Tallied() && reader == Checking && InSweeps(looks, sweeps + 1, 0)
    {
      var i := 0;
      while i < SLOTS
        invariant Valid() && Tallied() && 0 <= i <= SLOTS && reader == if i < SLOTS then LoadB(i) else Checking
        invariant InSweeps(looks, sweeps, i)
      {
        ghost var before := looks;
        ReadSlot(i);
        SweepNext(before, sweeps, i, looks[|before|]);
        i := i + 1;
      }
      assert sweeps * 32768 + 32768 == (sweeps + 1) * 32768;
    }

    /** reader(), for as many sweeps over the slots as it makes before this run is left:
        nothing says that writer_done is ever seen.  The counters are those of its loads. */
    method ReaderThread(sweeps: nat) returns (stopped: bool, full: nat)
      requires Valid() && moves == [] && looks == []
      modifies this, a, b
      ensures Valid() && Tallied() && reader == (if stopped then Stopped else Checking)
      ensures InSweeps(looks, full, 0)
      ensures if stopped then writerDone && full < sweeps else full == sweeps
    {
      stopped, full := false, 0;
      while full < sweeps
        invariant Valid() && Tallied() && reader == Checking && InSweeps(looks, full, 0) && full <= sweeps
      {
        Others(TheReader);
        if writerDone {
          Goto(Stopped, Abs());
          stopped := true;
          return;
        }
        Goto(LoadB(0), Abs());
        Sweep(full);
        full := full + 1;
      }
    }

    /** main: the reader beside the writer, then the exit status. */
    method Detect(sweeps: nat) returns (status: int)
      requires Valid() && moves == [] && looks == []
      modifies this, a, b
      ensures Valid() && status == (if violations == 0 then 0 else 1) == ExitStatus(Abs())
      ensures Counters(samples, violations, reordered) == Tally(looks)
      ensures reordered <= violations <= samples
      ensures !mem.PerLocation? && (passes + 1) * 32768 <= 0x1_0000_0000 ==> reordered == 0
      ensures !mem.PerLocation? && passes <= 1 ==> status == 0
    {
      var _, _ := ReaderThread(sweeps);
      status := if violations == 0 then 0 else 1;
      CountersNested(mem, passes, moves);
      if !mem.PerLocation? {
        ReorderedIff(mem, passes);
        if passes <= 1 {
          OnePassClean(mem, passes, moves);
        }
      }
    }
  }
}
