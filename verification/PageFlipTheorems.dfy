/** What the invariant says about whole runs of pvranimate. */
module PageFlipTheorems {
  import opened Options
  import opened PageFlip
  import opened PageFlipInvariant

  // ---------------------------------------------------------------- rendering

  /** render_frame is drawing into a buffer the panel scans or is about to scan. */
  ghost predicate DrawsOnScreen(cfg: Config, s: State)
    requires cfg.Valid()
  {
    var b := Buffer(cfg, s.frame);
    s.pc == Rendering && s.frame >= 1 && (s.display.screen == b || s.display.inFlight == Some(b))
  }

  /** Frames closer than a full turn use different buffers. */
  lemma BuffersDiffer(cfg: Config, f: nat, k: nat)
    requires cfg.Valid() && 1 <= k < cfg.nbuf && k <= f
    ensures Buffer(cfg, f) != Buffer(cfg, f - k)
  {
    if Buffer(cfg, f) == Buffer(cfg, f - k) {
      MultipleTooSmall(cfg.nbuf, f / cfg.nbuf - (f - k) / cfg.nbuf, k);
    }
  }

  lemma MultipleTooSmall(n: int, q: int, k: int)
    requires 0 < k < n
    ensures n * q != k
  {
    if q >= 1 {
      assert n * q >= n * 1;
    } else {
      assert n * q <= 0;
    }
  }

  lemma FirstTurn(cfg: Config, f: nat)
    requires cfg.Valid() && f < cfg.nbuf
    ensures Buffer(cfg, f) == f
  {
  }

  /** The screen shows one of the last two frames, and only the last can be in flight. */
  lemma RenderSafe(cfg: Config, moves: seq<Move>)
    requires cfg.Valid() && (cfg.nbuf >= 3 || cfg.frames <= cfg.nbuf)
    ensures !DrawsOnScreen(cfg, Exec(cfg, moves))
  {
    ExecInv(cfg, moves);
    var s := Exec(cfg, moves);
    if s.pc == Rendering && s.frame >= 1 && cfg.nbuf >= 2 {
      BuffersDiffer(cfg, s.frame, 1);
      if s.frame >= 2 && cfg.nbuf >= 3 {
        BuffersDiffer(cfg, s.frame, 2);
      }
    }
  }

  // ---------------------------------------------------------------- runs without timeouts

  ghost predicate Prompt(moves: seq<Move>) {
    forall i :: 0 <= i < |moves| ==> moves[i] != TimedOut && moves[i] != Fault
  }

  ghost predicate Reaches(cfg: Config, moves: seq<Move>, s: State)
    requires cfg.Valid()
  {
    Prompt(moves) && Exec(cfg, moves) == s
  }

  ghost predicate Reachable(cfg: Config, s: State)
    requires cfg.Valid()
  {
    exists moves :: Reaches(cfg, moves, s)
  }

  lemma Extend(cfg: Config, s: State, m: Move)
    requires cfg.Valid() && Reachable(cfg, s) && m != TimedOut && m != Fault
    ensures Shaped(cfg, s) && Reachable(cfg, Step(cfg, s, m))
  {
    var moves :| Reaches(cfg, moves, s);
    assert (moves + [m])[..|moves|] == moves;
    assert Reaches(cfg, moves + [m], Step(cfg, s, m));
  }

  function Flipped(cfg: Config, s: State): (r: State)
    requires Shaped(cfg, s)
    ensures Shaped(cfg, r)
  {
    var b := Buffer(cfg, s.frame);
    s.(frame := s.frame + 1, phase := NextPhase(s.phase), issued := s.issued[b := s.issued[b] + 1],
       pending := s.pending + 1, display := s.display.(inFlight := Some(b)))
  }

  lemma StartReachable(cfg: Config)
    requires cfg.Valid() && cfg.frames >= 2
    ensures Reachable(cfg, Init(cfg).(frame := 1, phase := 4))
  {
    assert Reaches(cfg, [], Init(cfg));
    var s := Init(cfg);
    for i := 0 to 3
      invariant Reachable(cfg, s)
      invariant s == Init(cfg).(pc := s.pc, frame := s.frame, phase := s.phase)
      invariant i == 0 ==> s.frame == s.phase == 0 && s.pc == WaitFree
      invariant i == 1 ==> s.frame == s.phase == 0 && s.pc == Rendering
      invariant i == 2 ==> s.frame == s.phase == 0 && s.pc == Advance
      invariant i == 3 ==> s == Init(cfg).(frame := 1, phase := 4)
    {
      Extend(cfg, s, Run);
      s := RunStep(cfg, s);
    }
  }

  /** A step that only moves the program on. */
  lemma ReachPc(cfg: Config, s: State, from: Pc, to: Pc)
    requires cfg.Valid() && Shaped(cfg, s.(pc := from)) && Reachable(cfg, s.(pc := from))
    requires RunStep(cfg, s.(pc := from)) == s.(pc := to)
    ensures Reachable(cfg, s.(pc := to))
  {
    Extend(cfg, s.(pc := from), Run);
  }

  /** From the top of the loop the program can always get as far as its flip. */
  lemma ReachFlip(cfg: Config, s: State)
    requires cfg.Valid() && Reachable(cfg, s) && Shaped(cfg, s)
    requires s.pc == WaitFree && s.frame >= 1 && !InUse(cfg, s, Buffer(cfg, s.frame))
    requires cfg.retry || s.pending == 0
    ensures Reachable(cfg, s.(pc := Rendering)) && Reachable(cfg, s.(pc := FirstFlip))
  {
    assert s == s.(pc := WaitFree);
    ReachPc(cfg, s, WaitFree, Rendering);
    ReachPc(cfg, s, Rendering, Gate);
    ReachPc(cfg, s, Gate, FirstFlip);
  }

  lemma ReachAccepted(cfg: Config, s: State)
    requires cfg.Valid() && Shaped(cfg, s) && s.display.inFlight.None?
    requires Reachable(cfg, s.(pc := FirstFlip))
    ensures Reachable(cfg, AcceptFlip(cfg, s))
  {
    Extend(cfg, s.(pc := FirstFlip), Run);
  }

  lemma ReachNext(cfg: Config, s: State, r: State)
    requires cfg.Valid() && Shaped(cfg, s) && Reachable(cfg, s) && s.pc == Advance && s.frame < cfg.frames - 1
    requires r == s.(pc := WaitFree, frame := s.frame + 1, phase := NextPhase(s.phase))
    ensures Reachable(cfg, r)
  {
    Extend(cfg, s, Run);
  }

  lemma ReachIssued(cfg: Config, s: State, r: State)
    requires cfg.Valid() && Shaped(cfg, s) && Reachable(cfg, AcceptFlip(cfg, s))
    requires var b := Buffer(cfg, s.frame);
      r == AcceptFlip(cfg, s).(pc := Advance, issued := s.issued[b := s.issued[b] + 1], pending := s.pending + 1)
    ensures Reachable(cfg, r)
  {
    Extend(cfg, AcceptFlip(cfg, s), Run);
  }

  lemma ReachCounted(cfg: Config, s: State)
    requires cfg.Valid() && Shaped(cfg, s) && s.pc == WaitFree && s.frame < cfg.frames - 1
    requires Reachable(cfg, AcceptFlip(cfg, s))
    ensures Reachable(cfg, Flipped(cfg, s))
  {
    var b := Buffer(cfg, s.frame);
    var counted := AcceptFlip(cfg, s).(pc := Advance, issued := s.issued[b := s.issued[b] + 1], pending := s.pending + 1);
    ReachIssued(cfg, s, counted);
    ReachNext(cfg, counted, Flipped(cfg, s));
  }

  lemma ReachFlipped(cfg: Config, s: State)
    requires cfg.Valid() && Reachable(cfg, s) && Shaped(cfg, s)
    requires s.pc == WaitFree && 1 <= s.frame < cfg.frames - 1 && !InUse(cfg, s, Buffer(cfg, s.frame))
    requires (cfg.retry || s.pending == 0) && s.display.inFlight.None?
    ensures Reachable(cfg, Flipped(cfg, s))
  {
    ReachFlip(cfg, s);
    ReachAccepted(cfg, s);
    ReachCounted(cfg, s);
  }

  /** With two buffers (or one) a long enough run draws into a buffer in use. */
  lemma TooFewBuffers(cfg: Config) returns (s: State)
    requires cfg.Valid() && cfg.nbuf < 3 && cfg.frames > cfg.nbuf
    ensures Reachable(cfg, s) && DrawsOnScreen(cfg, s)
  {
    StartReachable(cfg);
    s := Init(cfg).(frame := 1, phase := 4);
    if cfg.nbuf == 2 {
      ReachFlipped(cfg, s);
      s := Flipped(cfg, s);
    }
    Extend(cfg, s, Run);
    s := s.(pc := Rendering);
  }

  /** Three buffers are enough, and for runs longer than the buffers they are needed. */
  lemma RenderSafeIff(cfg: Config)
    requires cfg.Valid()
    ensures (forall moves :: !DrawsOnScreen(cfg, Exec(cfg, moves)))
       <==> cfg.nbuf >= 3 || cfg.frames <= cfg.nbuf
  {
    if cfg.nbuf >= 3 || cfg.frames <= cfg.nbuf {
      forall moves ensures !DrawsOnScreen(cfg, Exec(cfg, moves)) {
        RenderSafe(cfg, moves);
      }
    } else {
      var s := TooFewBuffers(cfg);
      var moves :| Reaches(cfg, moves, s);
      assert DrawsOnScreen(cfg, Exec(cfg, moves));
    }
  }

  // ---------------------------------------------------------------- what the panel shows

  /** The panel shows frames 0, 1, 2, ... in order, whatever the timing; a run that
      finishes has lost at most the last one, and none if no poll timed out. */
  lemma ScreenOrder(cfg: Config, moves: seq<Move>)
    requires cfg.Valid()
    ensures var s := Exec(cfg, moves);
      && 1 <= |s.display.shown| <= cfg.frames
      && (forall i :: 0 <= i < |s.display.shown| ==> s.display.shown[i] == Buffer(cfg, i))
      && (s.pc.Done? ==> |s.display.shown| >= cfg.frames - 1)
      && (s.pc.Done? && s.timeouts == 0 ==> |s.display.shown| == cfg.frames && s.display.events == [])
  {
    ExecInv(cfg, moves);
    var s := Exec(cfg, moves);
    if s.pc.Done? && s.timeouts == 0 {
      var last := Credited(s);
      if Seen(s.display) < last {
        FlipsMonotone(cfg, Seen(s.display), last, Buffer(cfg, last));
        assert InUse(cfg, s, Buffer(cfg, last));
      }
    }
  }

  // ---------------------------------------------------------------- the pending counter

  /** flips_pending is the sum over buffers of issued minus completed, and it counts
      exactly the flips in flight and the completions not yet read. */
  lemma PendingIsSum(cfg: Config, moves: seq<Move>)
    requires cfg.Valid()
    ensures var s := Exec(cfg, moves);
      && s.pending == Total(s.issued) - Total(s.completed)
      && s.pending + (if s.pc == Account then 1 else 0)
         == |s.display.events| + (if s.display.inFlight.Some? then 1 else 0)
  {
    ExecInv(cfg, moves);
    var s := Exec(cfg, moves);
    TotalFlips(cfg, Credited(s), s.issued);
    TotalFlips(cfg, Seen(s.display), s.completed);
  }

  /** The `> 0` guard in the handler never hides an event. */
  lemma HandlerGuardIdle(cfg: Config, moves: seq<Move>)
    requires cfg.Valid()
    ensures var s := Exec(cfg, moves);
      Polling(cfg, s) ==> |s.display.events| <= s.pending && forall e :: e in s.display.events ==> e < cfg.nbuf
  {
    ExecInv(cfg, moves);
  }

  // ---------------------------------------------------------------- EBUSY

  /** Gated on the previous flip, and with no timed-out poll, no flip meets EBUSY. */
  lemma GateNeverBusy(cfg: Config, moves: seq<Move>)
    requires cfg.Valid() && !cfg.retry
    ensures var s := Exec(cfg, moves);
      s.timeouts == 0 ==> s.pc !in {BusyPoll, SecondFlip} && (s.pc == FirstFlip ==> s.display.inFlight.None?)
  {
    ExecInv(cfg, moves);
    PendingIsSum(cfg, moves);
  }

  /** So in that pacing only a failing call ends the program early. */
  lemma {:induction false} GateDeathIsFault(cfg: Config, moves: seq<Move>)
    requires cfg.Valid()
    ensures var s := Exec(cfg, moves);
      !cfg.retry && s.timeouts == 0 && s.pc.Dead? ==> Fault in moves
  {
    if moves != [] {
      var n := |moves| - 1;
      GateDeathIsFault(cfg, moves[..n]);
      if !cfg.retry {
        GateNeverBusy(cfg, moves[..n]);
      }
      WaysToDie(cfg, Exec(cfg, moves[..n]), moves[n]);
    }
  }

  lemma WaysToDie(cfg: Config, s: State, m: Move)
    requires Shaped(cfg, s)
    ensures Step(cfg, s, m).timeouts >= s.timeouts
    ensures Step(cfg, s, m).pc.Dead? ==> s.pc == SecondFlip || s.pc.Dead? || m == Fault
  {
    if m.Ready? && Polling(cfg, s) && 1 <= m.n <= |s.display.events| {
      HandleEventsFrame(cfg, s, m.n);
    }
  }

  /** Either the CRTC is already free or the poll can only be woken by the flip in flight. */
  ghost predicate RetryWillWork(f: nat, s: State) {
    || s.frame > f
    || (s.frame == f && s.pc in {Account, Advance, Dead})
    || (s.frame == f && s.pc == SecondFlip && s.display.inFlight.None?)
    || (s.frame == f && s.pc == BusyPoll && (s.display.inFlight.None? || s.display.events == []))
  }

  lemma RetryWillWorkStep(cfg: Config, f: nat, s: State, m: Move)
    requires Shaped(cfg, s) && RetryWillWork(f, s) && m != TimedOut
    ensures RetryWillWork(f, Step(cfg, s, m))
  {
    match m
    case Ready(n) =>
      if Polling(cfg, s) && 1 <= n <= |s.display.events| {
        HandleEventsFrame(cfg, s, n);
      }
    case _ =>
  }

  lemma {:induction false} HandleEventsFrame(cfg: Config, s: State, n: nat)
    requires Shaped(cfg, s) && n <= |s.display.events|
    ensures var r := HandleEvents(cfg, s, n);
      (r.frame, r.pc, r.timeouts, r.display.inFlight) == (s.frame, s.pc, s.timeouts, s.display.inFlight)
    decreases n
  {
    if n > 0 {
      HandleEventsFrame(cfg, HandleHead(cfg, s), n - 1);
    }
  }

  lemma {:induction false} RetryWillWorkRun(cfg: Config, f: nat, s: State, more: seq<Move>)
    requires Shaped(cfg, s) && RetryWillWork(f, s) && Prompt(more)
    ensures RetryWillWork(f, ExecFrom(cfg, s, more))
  {
    if more != [] {
      var n := |more| - 1;
      RetryWillWorkRun(cfg, f, s, more[..n]);
      RetryWillWorkStep(cfg, f, ExecFrom(cfg, s, more[..n]), more[n]);
    }
  }

  ghost predicate BusyAgain(cfg: Config, s: State, more: seq<Move>)
    requires Shaped(cfg, s)
  {
    var t := ExecFrom(cfg, s, more);
    Prompt(more) && t.pc == SecondFlip && t.frame == s.frame && t.display.inFlight.Some?
  }

  /** After a first EBUSY the retry can meet EBUSY again, without a timed-out poll,
      exactly when a completion was already waiting to be read. */
  lemma SecondBusyIff(cfg: Config, s: State)
    requires Shaped(cfg, s) && s.pc == FirstFlip && s.display.inFlight.Some?
    ensures (exists more :: BusyAgain(cfg, RunStep(cfg, s), more)) <==> s.display.events != []
  {
    var p := RunStep(cfg, s);
    if s.display.events != [] {
      var more := [Ready(1)];
      HandleEventsFrame(cfg, p, 1);
      assert more[..0] == [];
      assert ExecFrom(cfg, p, more) == Step(cfg, p, Ready(1));
      assert BusyAgain(cfg, p, more);
    } else {
      forall more | Prompt(more) ensures !BusyAgain(cfg, p, more) {
        RetryWillWorkRun(cfg, p.frame, p, more);
      }
    }
  }

  lemma FullTurn(cfg: Config, f: nat)
    requires cfg.Valid() && f >= cfg.nbuf
    ensures Buffer(cfg, f) == Buffer(cfg, f - cfg.nbuf)
  {
    var n, g := cfg.nbuf, f - cfg.nbuf;
    assert f == n * (g / n + 1) + g % n;
    QuotientUnique(n, f / n, f % n, g / n + 1, g % n);
  }

  lemma QuotientUnique(n: nat, q: int, r: nat, q': int, r': nat)
    requires r < n && r' < n && n * q + r == n * q' + r'
    ensures r == r'
  {
    if r != r' {
      MultipleTooSmall(n, if r < r' then q - q' else q' - q, if r < r' then r' - r else r - r');
    }
  }

  /** Having waited for its buffer, the program has read every flip up to a turn ago. */
  lemma ReadUpToLastTurn(cfg: Config, s: State)
    requires Inv(cfg, s) && s.timeouts == 0
    requires s.pc in {Rendering, Gate, FirstFlip, BusyPoll, SecondFlip} && s.frame > cfg.nbuf
    ensures Seen(s.display) >= s.frame - cfg.nbuf
  {
    var g := s.frame - cfg.nbuf;
    var b := Buffer(cfg, s.frame);
    FullTurn(cfg, s.frame);
    if Seen(s.display) < g {
      FlipsMonotone(cfg, Seen(s.display), g, b);
      FlipsMonotone(cfg, g, s.frame - 1, b);
      assert InUse(cfg, s, b);
    }
  }

  /** At a busy first flip: too few buffers or frames leave no completion unread. */
  lemma NothingUnread(cfg: Config, s: State)
    requires Inv(cfg, s) && s.timeouts == 0 && s.pc in {FirstFlip, BusyPoll} && s.display.inFlight.Some?
    requires cfg.nbuf <= 2 || cfg.frames <= 3
    ensures s.display.events == []
  {
    if s.frame > 2 {
      ReadUpToLastTurn(cfg, s);
    }
  }

  ghost predicate Undead(s: State) {
    s.timeouts == 0 && !s.pc.Dead? && (s.pc == SecondFlip ==> s.display.inFlight.None?)
  }

  lemma {:induction false} NeverFatal(cfg: Config, moves: seq<Move>)
    requires cfg.Valid() && Prompt(moves)
    requires !cfg.retry || cfg.nbuf <= 2 || cfg.frames <= 3
    ensures Undead(Exec(cfg, moves))
  {
    if moves != [] {
      var n := |moves| - 1;
      NeverFatal(cfg, moves[..n]);
      ExecInv(cfg, moves[..n]);
      var s := Exec(cfg, moves[..n]);
      if moves[n].Ready? && Polling(cfg, s) && 1 <= moves[n].n <= |s.display.events| {
        HandleEventsBalanced(cfg, s, moves[n].n);
        if s.pc == BusyPoll && s.display.inFlight.Some? {
          NothingUnread(cfg, s);
        }
      }
    }
  }

  /** The top of frame 2, the first flip having reached the screen unread. */
  lemma FirstFlipUnread(cfg: Config) returns (s: State)
    requires cfg.Valid() && cfg.retry && cfg.nbuf >= 3 && cfg.frames >= 4
    ensures Reachable(cfg, s) && Shaped(cfg, s) && s.pc == WaitFree && s.frame == 2
    ensures forall b :: 0 <= b < cfg.nbuf ==> s.issued[b] == (if b == 1 then 1 else 0) && s.completed[b] == 0
    ensures s.display.inFlight.None? && |s.display.events| == 1
  {
    StartReachable(cfg);
    FirstTurn(cfg, 1);
    s := Init(cfg).(frame := 1, phase := 4);
    ReachFlipped(cfg, s);
    s := Flipped(cfg, s);
    Extend(cfg, s, Vblank);
    s := Step(cfg, s, Vblank);
  }

  /** A completion is unread and another flip is in flight when frame 3 wants to flip. */
  lemma OneUnreadOneInFlight(cfg: Config) returns (s: State)
    requires cfg.Valid() && cfg.retry && cfg.nbuf >= 3 && cfg.frames >= 4
    ensures Reachable(cfg, s) && Shaped(cfg, s) && s.pc == FirstFlip
    ensures s.display.inFlight.Some? && |s.display.events| == 1
  {
    FirstTurn(cfg, 2);
    BuffersDiffer(cfg, 3, 1);
    BuffersDiffer(cfg, 3, 2);
    FirstTurn(cfg, 1);
    s := FirstFlipUnread(cfg);
    ReachFlipped(cfg, s);
    s := Flipped(cfg, s);
    ReachFlip(cfg, s);
    s := s.(pc := FirstFlip);
  }

  /** The default pacing can die of EBUSY with no poll ever timing out: at frame 3 the
      poll after EBUSY is woken by the old completion, and the retry is busy again. */
  lemma FatalRun(cfg: Config) returns (s: State)
    requires cfg.Valid() && cfg.retry && cfg.nbuf >= 3 && cfg.frames >= 4
    ensures Reachable(cfg, s) && s.pc.Dead?
  {
    s := OneUnreadOneInFlight(cfg);
    Extend(cfg, s, Run);
    s := s.(pc := BusyPoll);
    HandleEventsFrame(cfg, s, 1);
    Extend(cfg, s, Ready(1));
    s := Step(cfg, s, Ready(1));
    Extend(cfg, s, Run);
    s := RunStep(cfg, s);
  }

  /** A run can end in DIE without a timeout and without a failing call exactly when it
      uses the retry pacing, at least three buffers and at least four frames. */
  lemma FatalIff(cfg: Config)
    requires cfg.Valid()
    ensures (exists moves :: Prompt(moves) && Exec(cfg, moves).pc.Dead?)
       <==> cfg.retry && cfg.nbuf >= 3 && cfg.frames >= 4
  {
    if cfg.retry && cfg.nbuf >= 3 && cfg.frames >= 4 {
      var s := FatalRun(cfg);
      var moves :| Reaches(cfg, moves, s);
      assert Prompt(moves) && Exec(cfg, moves).pc.Dead?;
    } else {
      forall moves | Prompt(moves) ensures !Exec(cfg, moves).pc.Dead? {
        NeverFatal(cfg, moves);
      }
    }
  }
}
