/** What every reachable state of the page-flip protocol satisfies. */
module PageFlipInvariant {
  import opened Options
  import opened PageFlip

  // ---------------------------------------------------------------- counting flips

  /** How many of the frames 1..m are shown from buffer b. */
  ghost function Flips(cfg: Config, m: nat, b: nat): nat
    requires cfg.Valid()
  {
    if m == 0 then 0 else Flips(cfg, m - 1, b) + (if Buffer(cfg, m) == b then 1 else 0)
  }

  ghost function Total(counts: seq<nat>): nat {
    if counts == [] then 0 else Total(counts[..|counts| - 1]) + counts[|counts| - 1]
  }

  lemma {:induction false} FlipsMonotone(cfg: Config, m: nat, m': nat, b: nat)
    requires cfg.Valid() && m <= m'
    ensures Flips(cfg, m, b) <= Flips(cfg, m', b)
    ensures m < m' && Buffer(cfg, m') == b ==> Flips(cfg, m, b) < Flips(cfg, m', b)
  {
    if m < m' {
      FlipsMonotone(cfg, m, m' - 1, b);
    }
  }

  lemma {:induction false} TotalBump(counts: seq<nat>, b: nat)
    requires b < |counts|
    ensures Total(counts[b := counts[b] + 1]) == Total(counts) + 1
  {
    var bumped := counts[b := counts[b] + 1];
    var n := |counts| - 1;
    if b == n {
      assert bumped[..n] == counts[..n];
    } else {
      TotalBump(counts[..n], b);
      assert bumped[..n] == counts[..n][b := counts[b] + 1];
    }
  }

  lemma {:induction false} TotalZero(counts: seq<nat>)
    requires forall b :: 0 <= b < |counts| ==> counts[b] == 0
    ensures Total(counts) == 0
  {
    if counts != [] {
      TotalZero(counts[..|counts| - 1]);
    }
  }

  /** Every flip is of exactly one buffer, so the per-buffer counts add up. */
  lemma {:induction false} TotalFlips(cfg: Config, m: nat, counts: seq<nat>)
    requires cfg.Valid() && |counts| == cfg.nbuf
    requires forall b :: 0 <= b < cfg.nbuf ==> counts[b] == Flips(cfg, m, b)
    ensures Total(counts) == m
  {
    if m == 0 {
      TotalZero(counts);
    } else {
      var before := seq(cfg.nbuf, b requires 0 <= b => Flips(cfg, m - 1, b));
      var b := Buffer(cfg, m);
      TotalFlips(cfg, m - 1, before);
      TotalBump(before, b);
      assert counts == before[b := before[b] + 1];
    }
  }

  // ---------------------------------------------------------------- the invariant

  /** Flips the display has taken: those that reached the screen and the one in flight. */
  ghost function Accepted(d: Display): int {
    |d.shown| - 1 + (if d.inFlight.Some? then 1 else 0)
  }

  /** Completions the handler has seen. */
  ghost function Seen(d: Display): int {
    |d.shown| - 1 - |d.events|
  }

  /** Flips the program has counted as issued. */
  ghost function Credited(s: State): int {
    Accepted(s.display) - (if s.pc == Account then 1 else 0)
  }

  /** These are the buffers of consecutive frames, starting with frame `first`. */
  ghost predicate Consecutive(cfg: Config, buffers: seq<nat>, first: nat) {
    && cfg.Valid()
    && forall i :: 0 <= i < |buffers| ==> buffers[i] == Buffer(cfg, first + i)
  }

  /** Everything the display holds belongs to consecutive frames. */
  ghost predicate InOrder(cfg: Config, d: Display) {
    && cfg.Valid()
    && |d.shown| >= 1 && Seen(d) >= 0
    && Consecutive(cfg, d.shown, 0)
    && d.screen == Buffer(cfg, |d.shown| - 1)
    && (d.inFlight.Some? ==> d.inFlight.value == Buffer(cfg, |d.shown|))
    && Consecutive(cfg, d.events, Seen(d) + 1)
  }

  /** The counters have the value `counts` gives for the first m flips. */
  ghost predicate Counts(cfg: Config, counters: seq<nat>, m: int) {
    && cfg.Valid() && m >= 0 && |counters| == cfg.nbuf
    && forall b :: 0 <= b < cfg.nbuf ==> counters[b] == Flips(cfg, m, b)
  }

  ghost predicate Ledger(cfg: Config, d: Display, issued: seq<nat>, completed: seq<nat>, pending: nat, credited: int) {
    && InOrder(cfg, d)
    && Counts(cfg, issued, credited)
    && Counts(cfg, completed, Seen(d))
    && pending == credited - Seen(d)
  }

  ghost predicate Balanced(cfg: Config, s: State) {
    Ledger(cfg, s.display, s.issued, s.completed, s.pending, Credited(s))
  }

  predicate BeforeFlip(pc: Pc) {
    pc in {WaitFree, Rendering, Gate, FirstFlip, BusyPoll, SecondFlip}
  }

  /** Where the program stands fixes how many flips the display has taken. */
  ghost predicate Paced(cfg: Config, s: State)
    requires Shaped(cfg, s)
  {
    && (!s.pc.Drain? && !s.pc.Done? ==> s.frame < cfg.frames)
    && (s.pc in {Gate, FirstFlip, BusyPoll, SecondFlip, Account} ==> s.frame >= 1)
    && (s.pc.Drain? || s.pc.Done? ==> s.frame == cfg.frames && Accepted(s.display) == cfg.frames - 1)
    && (BeforeFlip(s.pc) || s.pc.Dead? ==> Accepted(s.display) == if s.frame == 0 then 0 else s.frame - 1)
    && (s.pc == Account || s.pc == Advance ==> Accepted(s.display) == s.frame)
  }

  predicate Phased(s: State) {
    s.phase == 4 * s.frame % 64
  }

  /** What holds on top of that while no counted poll has timed out. */
  ghost predicate OnTime(cfg: Config, s: State)
    requires Shaped(cfg, s)
  {
    s.timeouts == 0 ==>
      && (s.pc in {Rendering, Gate, FirstFlip, BusyPoll, SecondFlip} ==> !InUse(cfg, s, Buffer(cfg, s.frame)))
      && (s.pc == FirstFlip && !cfg.retry ==> s.pending == 0)
      && (s.pc in {BusyPoll, SecondFlip} ==> cfg.retry)
      && (s.pc.Drain? ==> forall b :: 0 <= b < s.pc.buffer ==> !InUse(cfg, s, b))
      && (s.pc.Done? ==> forall b :: 0 <= b < cfg.nbuf ==> !InUse(cfg, s, b))
  }

  ghost predicate Inv(cfg: Config, s: State) {
    Shaped(cfg, s) && Balanced(cfg, s) && Paced(cfg, s) && Phased(s) && OnTime(cfg, s)
  }

  lemma InitInv(cfg: Config)
    requires cfg.Valid()
    ensures Inv(cfg, Init(cfg))
  {
  }

  lemma VblankInOrder(cfg: Config, d: Display)
    requires InOrder(cfg, d)
    ensures InOrder(cfg, d.Vblank())
    ensures Accepted(d.Vblank()) == Accepted(d) && Seen(d.Vblank()) == Seen(d)
  {
  }

  lemma AcceptInOrder(cfg: Config, d: Display)
    requires InOrder(cfg, d) && d.inFlight.None?
    ensures InOrder(cfg, d.(inFlight := Some(Buffer(cfg, |d.shown|))))
  {
    var r := d.(inFlight := Some(Buffer(cfg, |d.shown|)));
    assert r.shown == d.shown && r.events == d.events && Seen(r) == Seen(d);
  }

  /** The handler counts a completion of the right buffer, and of one that was issued. */
  lemma HandleHeadBalanced(cfg: Config, s: State)
    requires Shaped(cfg, s) && Balanced(cfg, s) && s.display.events != [] && s.pc != Account
    ensures Balanced(cfg, HandleHead(cfg, s))
  {
    var d := s.display;
    var r := HandleHead(cfg, s);
    assert Consecutive(cfg, r.display.events, Seen(d) + 2) by {
      assert forall i :: 0 <= i < |r.display.events| ==> r.display.events[i] == d.events[i + 1];
    }
    assert d.events[0] == Buffer(cfg, Seen(d) + 1);
  }

  lemma {:induction false} HandleEventsBalanced(cfg: Config, s: State, n: nat)
    requires Shaped(cfg, s) && Balanced(cfg, s) && n <= |s.display.events| && s.pc != Account
    ensures var r := HandleEvents(cfg, s, n);
      && Balanced(cfg, r)
      && r == s.(completed := r.completed, pending := r.pending,
                 display := s.display.(events := s.display.events[n..]))
      && forall b :: 0 <= b < cfg.nbuf ==> s.completed[b] <= r.completed[b]
    decreases n
  {
    if n > 0 {
      HandleHeadBalanced(cfg, s);
      HandleEventsBalanced(cfg, HandleHead(cfg, s), n - 1);
      assert s.display.events[1..][n - 1..] == s.display.events[n..];
    }
  }

  lemma ReadyInv(cfg: Config, s: State, n: nat)
    requires Inv(cfg, s) && Polling(cfg, s) && 1 <= n <= |s.display.events|
    ensures Inv(cfg, ReadyStep(cfg, s, n))
  {
    HandleEventsBalanced(cfg, s, n);
    var h := HandleEvents(cfg, s, n);
    assert Credited(h) == Credited(ReadyStep(cfg, s, n));
    assert forall b :: 0 <= b < cfg.nbuf && !InUse(cfg, s, b) ==> !InUse(cfg, h, b);
  }

  lemma AcceptInv(cfg: Config, s: State)
    requires Inv(cfg, s) && s.pc in {FirstFlip, SecondFlip} && s.display.inFlight.None?
    ensures Inv(cfg, AcceptFlip(cfg, s))
  {
    AcceptInOrder(cfg, s.display);
    assert Credited(AcceptFlip(cfg, s)) == Credited(s);
  }

  lemma AccountInv(cfg: Config, s: State)
    requires Inv(cfg, s) && s.pc == Account
    ensures Inv(cfg, RunStep(cfg, s))
  {
    var r := RunStep(cfg, s);
    assert Credited(r) == Credited(s) + 1 == s.frame;
    assert Counts(cfg, r.issued, Credited(r));
  }

  /** The balance mentions the program counter only through the flip not yet accounted. */
  lemma SameBalance(cfg: Config, s: State, r: State)
    requires Balanced(cfg, s)
    requires r == s.(pc := r.pc, frame := r.frame, phase := r.phase, timeouts := r.timeouts)
    requires s.pc == Account <==> r.pc == Account
    ensures Balanced(cfg, r)
  {
    assert Credited(r) == Credited(s);
  }

  lemma MoveOnPaced(cfg: Config, s: State)
    requires Inv(cfg, s)
    requires s.pc != Account
    requires s.pc in {FirstFlip, SecondFlip} ==> s.display.inFlight.Some?
    ensures Paced(cfg, RunStep(cfg, s))
  {
  }

  lemma MoveOnOnTime(cfg: Config, s: State)
    requires Inv(cfg, s)
    requires s.pc != Account
    requires s.pc in {FirstFlip, SecondFlip} ==> s.display.inFlight.Some?
    ensures OnTime(cfg, RunStep(cfg, s))
  {
    var r := RunStep(cfg, s);
    assert forall b :: 0 <= b < cfg.nbuf ==> InUse(cfg, r, b) == InUse(cfg, s, b);
  }

  lemma MoveOnBalanced(cfg: Config, s: State)
    requires Inv(cfg, s)
    requires s.pc != Account
    requires s.pc in {FirstFlip, SecondFlip} ==> s.display.inFlight.Some?
    ensures Balanced(cfg, RunStep(cfg, s))
  {
    SameBalance(cfg, s, RunStep(cfg, s));
  }

  lemma MoveOnPhased(cfg: Config, s: State)
    requires Shaped(cfg, s) && Phased(s)
    ensures Phased(RunStep(cfg, s))
  {
  }

  /** Statements that touch neither the display nor the counters. */
  lemma MoveOnInv(cfg: Config, s: State)
    requires Inv(cfg, s)
    requires s.pc != Account
    requires s.pc in {FirstFlip, SecondFlip} ==> s.display.inFlight.Some?
    ensures Inv(cfg, RunStep(cfg, s))
  {
    MoveOnPaced(cfg, s);
    MoveOnOnTime(cfg, s);
    MoveOnPhased(cfg, s);
    MoveOnBalanced(cfg, s);
  }

  lemma TimedOutInv(cfg: Config, s: State)
    requires Inv(cfg, s) && Polling(cfg, s)
    ensures Inv(cfg, TimedOutStep(cfg, s))
  {
    SameBalance(cfg, s, TimedOutStep(cfg, s));
  }

  lemma FaultInv(cfg: Config, s: State)
    requires Inv(cfg, s)
    ensures Inv(cfg, Step(cfg, s, Fault))
  {
    SameBalance(cfg, s, Step(cfg, s, Fault));
  }

  lemma VblankInv(cfg: Config, s: State)
    requires Inv(cfg, s)
    ensures Inv(cfg, Step(cfg, s, Vblank))
  {
    VblankInOrder(cfg, s.display);
    var r := Step(cfg, s, Vblank);
    assert Credited(r) == Credited(s);
    assert forall b :: 0 <= b < cfg.nbuf ==> InUse(cfg, r, b) == InUse(cfg, s, b);
  }

  lemma StepInv(cfg: Config, s: State, m: Move)
    requires Inv(cfg, s)
    ensures Inv(cfg, Step(cfg, s, m))
  {
    match m
    case Vblank => VblankInv(cfg, s);
    case Run =>
      if s.pc == Account {
        AccountInv(cfg, s);
      } else if s.pc in {FirstFlip, SecondFlip} && s.display.inFlight.None? {
        AcceptInv(cfg, s);
      } else {
        MoveOnInv(cfg, s);
      }
    case Ready(n) =>
      if Polling(cfg, s) && 1 <= n <= |s.display.events| {
        ReadyInv(cfg, s, n);
      }
    case TimedOut =>
      if Polling(cfg, s) {
        TimedOutInv(cfg, s);
      }
    case Fault => FaultInv(cfg, s);
  }

  lemma {:induction false} ExecInv(cfg: Config, moves: seq<Move>)
    requires cfg.Valid()
    ensures Inv(cfg, Exec(cfg, moves))
  {
    if moves == [] {
      InitInv(cfg);
    } else {
      ExecInv(cfg, moves[..|moves| - 1]);
      StepInv(cfg, Exec(cfg, moves[..|moves| - 1]), moves[|moves| - 1]);
    }
  }
}
