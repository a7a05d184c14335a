/**
 The tsolitmus detector: a writer that stores a then b in every slot, a reader that
 loads b, a and b again, and the memory between them.

 The x86-TSO machine (Sewell et al., "x86-TSO", CACM 2010) is shared memory plus one FIFO
 store buffer per thread.  The reader stores nothing that is shared, so only the writer's
 buffer matters.  Two other memories are modelled beside it: a sequentially consistent one
 without a buffer, and a weaker one whose buffer keeps the order of stores to one location
 only.  A schedule says who takes each step.
 */
module Litmus {
  const SLOTS: nat := 32768
  const WRAP: nat := 0x1_0000_0000

  datatype Memory = Sc | Tso | PerLocation

  /** One buffered store: slot[i].a = v, slot[i].b = v, or writer_done = 1. */
  datatype Store = StoreA(slot: nat, value: nat) | StoreB(slot: nat, value: nat) | StoreDone

  predicate SameLocation(s: Store, t: Store) {
    match s
    case StoreA(i, _) => t.StoreA? && t.slot == i
    case StoreB(i, _) => t.StoreB? && t.slot == i
    case StoreDone => t.StoreDone?
  }

  datatype Shared = Shared(a: seq<nat>, b: seq<nat>, done: bool) {
    predicate Shaped() { |a| == |b| == SLOTS }

    function Apply(s: Store): (r: Shared)
      requires Shaped()
      ensures r.Shaped()
    {
      match s
      case StoreA(i, v) => if i < SLOTS then this.(a := a[i := v]) else this
      case StoreB(i, v) => if i < SLOTS then this.(b := b[i := v]) else this
      case StoreDone => this.(done := true)
    }
  }

  /** The two nested loops of the writer, and which store of the pair comes next. */
  datatype Writer = Writing(p: nat, i: nat, second: bool) | Finishing | Finished

  datatype Reader =
    | Checking                             // while (!writer_done)
    | LoadB(i: nat)
    | LoadA(i: nat, b1: nat)
    | LoadBAgain(i: nat, b1: nat, a: nat)
    | Stopped

  datatype Counters = Counters(samples: nat, violations: nat, reordered: nat)

  datatype State = State(memory: Shared, buffer: seq<Store>, writer: Writer, reader: Reader, counters: Counters) {
    predicate Shaped() {
      && memory.Shaped()
      && (writer.Writing? ==> writer.i < SLOTS)
      && (reader.LoadB? || reader.LoadA? || reader.LoadBAgain? ==> reader.i < SLOTS)
    }
  }

  datatype Turn = WriterTurn | ReaderTurn | DrainTurn(k: nat)

  function Init(passes: int): (s: State)
    ensures s.Shaped()
  {
    var zeros := seq(SLOTS, _ => 0);
    State(Shared(zeros, zeros, false), [], if passes >= 1 then Writing(1, 0, false) else Finishing,
          Checking, Counters(0, 0, 0))
  }

  // (unsigned)(p * SLOTS + i)
  function Value(p: nat, i: nat): nat {
    (p * SLOTS + i) % WRAP
  }

  function NextStore(w: Writer): Store
    requires !w.Finished?
  {
    match w
    case Writing(p, i, second) => if second then StoreB(i, Value(p, i)) else StoreA(i, Value(p, i))
    case Finishing => StoreDone
  }

  function NextWriter(passes: int, w: Writer): Writer
    requires !w.Finished?
  {
    match w
    case Writing(p, i, false) => Writing(p, i, true)
    case Writing(p, i, true) =>
      if i + 1 < SLOTS then Writing(p, i + 1, false)
      else if p + 1 <= passes then Writing(p + 1, 0, false)
      else Finishing
    case Finishing => Finished
  }

  function WriterStep(mem: Memory, passes: int, s: State): (r: State)
    requires s.Shaped()
    ensures r.Shaped()
  {
    if s.writer.Finished? then s
    else
      var store := NextStore(s.writer);
      var w := NextWriter(passes, s.writer);
      if mem.Sc? then s.(memory := s.memory.Apply(store), writer := w)
      else s.(buffer := s.buffer + [store], writer := w)
  }

  /** The buffered store that may reach memory next: the oldest under TSO; under the weak
      memory any that no older store to its own location precedes. */
  predicate MayDrain(mem: Memory, buffer: seq<Store>, k: nat) {
    && k < |buffer|
    && match mem
       case Sc => false
       case Tso => k == 0
       case PerLocation => forall j :: 0 <= j < k ==> !SameLocation(buffer[j], buffer[k])
  }

  function DrainStep(mem: Memory, s: State, k: nat): (r: State)
    requires s.Shaped()
    ensures r.Shaped()
  {
    if MayDrain(mem, s.buffer, k)
    then s.(memory := s.memory.Apply(s.buffer[k]), buffer := s.buffer[..k] + s.buffer[k + 1..])
    else s
  }

  function NextSlot(i: nat): Reader {
    if i + 1 < SLOTS then LoadB(i + 1) else Checking
  }

  /** samples++, and violations++ and reordered++ where the loads call for it. */
  function Count(c: Counters, a: nat, b1: nat): Counters {
    Counters(c.samples + 1,
             if a != b1 then c.violations + 1 else c.violations,
             if a < b1 then c.reordered + 1 else c.reordered)
  }

  function ReaderStep(s: State): (r: State)
    requires s.Shaped()
    ensures r.Shaped()
  {
    match s.reader
    case Checking => s.(reader := if s.memory.done then Stopped else LoadB(0))
    case LoadB(i) =>
      var b1 := s.memory.b[i];
      s.(reader := if b1 == 0 then NextSlot(i) else LoadA(i, b1))
    case LoadA(i, b1) => s.(reader := LoadBAgain(i, b1, s.memory.a[i]))
    case LoadBAgain(i, b1, a) =>
      s.(reader := NextSlot(i), counters := if s.memory.b[i] == b1 then Count(s.counters, a, b1) else s.counters)
    case Stopped => s
  }

  function Step(mem: Memory, passes: int, s: State, t: Turn): (r: State)
    requires s.Shaped()
    ensures r.Shaped()
  {
    match t
    case WriterTurn => WriterStep(mem, passes, s)
    case ReaderTurn => ReaderStep(s)
    case DrainTurn(k) => DrainStep(mem, s, k)
  }

  function Exec(mem: Memory, passes: int, schedule: seq<Turn>): (s: State)
    ensures s.Shaped()
  {
    if schedule == [] then Init(passes)
    else Step(mem, passes, Exec(mem, passes, schedule[..|schedule| - 1]), schedule[|schedule| - 1])
  }

  /** Both threads have returned, so main can join them. */
  predicate Ended(s: State) {
    s.writer.Finished? && s.reader.Stopped?
  }

  /** main returns 0 only when no violation was counted. */
  function ExitStatus(s: State): int {
    if s.counters.violations == 0 then 0 else 1
  }
}
