/** What holds on every way out. */
module ReleaseTheorems {
  import opened Options
  import opened Release

  // ---------------------------------------------------------------- the stack

  predicate HasTried(line: Line) {
    line.Clear? || line.Confirm? || line.Settle?
  }

  /** Activations that have made their switch-off call. */
  function Tried(stack: Stack): nat {
    if stack.Empty? then 0 else Tried(stack.below) + (if HasTried(stack.line) then 1 else 0)
  }

  function Depth(stack: Stack): (d: nat)
    ensures Tried(stack) <= d
  {
    if stack.Empty? then 0 else 1 + Depth(stack.below)
  }

  /** The call main itself made, if the outermost activation is one. */
  function Own(stack: Stack): Option<Level> {
    if stack.Empty? then None
    else if stack.below.Frame? then Own(stack.below)
    else if stack.level.Handler? then None
    else Some(stack.level)
  }

  /** All activations but the outermost are handlers. */
  predicate HandlersInside(stack: Stack) {
    stack.Frame? && stack.below.Frame? ==> stack.level.Handler? && HandlersInside(stack.below)
  }

  /** Confirming starts once the saved CRTC has been cleared, and is bounded. */
  predicate LineOk(line: Line, crtc: nat) {
    && (line.Confirm? || line.Settle? ==> crtc == 0)
    && (line.Confirm? ==> line.polls <= POLLS)
    && (line.Settle? ==> line.polls <= POLLS)
  }

  predicate LinesOk(stack: Stack, crtc: nat) {
    stack.Frame? ==> LineOk(stack.line, crtc) && LinesOk(stack.below, crtc)
  }

  predicate AllAtCheck(stack: Stack) {
    stack.Frame? ==> stack.line == Check && AllAtCheck(stack.below)
  }

  lemma {:induction false} LinesOkCleared(stack: Stack, crtc: nat)
    requires LinesOk(stack, crtc)
    ensures LinesOk(stack, 0)
  {
    if stack.Frame? {
      LinesOkCleared(stack.below, crtc);
    }
  }

  // ---------------------------------------------------------------- the invariant

  function Signals(s: State): nat {
    (if s.intSeen then 1 else 0) + (if s.termSeen then 1 else 0)
  }

  predicate Nested(s: State) {
    && HandlersInside(s.stack)
    && (s.main == Running ==> Own(s.stack) != Some(AtExit))
    && (s.main == Exiting ==> Own(s.stack) == Some(AtExit))
    && (s.main in {Returning, Execing} ==> Own(s.stack) == None)
    && Depth(s.stack) <= Signals(s) + (if Own(s.stack).Some? then 1 else 0)
  }

  /** Switch-off calls: one for every activation past that line, or the one of main's
      completed release. */
  predicate Tallied(s: State) {
    && (s.main in {Returning, Execing} ==> s.released)
    && (s.main == Running ==> !s.released)
    && (!s.released && s.main != Ended ==> s.tries == Tried(s.stack))
    && (s.released ==> s.tries == 1 && AllAtCheck(s.stack))
    && s.tries <= 1 + Signals(s)
  }

  predicate Safe(s: State) {
    && s.fd >= 0 && s.confirm != 0 && (s.crtc == 0 || s.crtc == s.confirm)
    && s.scanned == (if s.offOk then 0 else s.lastPut)
    && (s.offOk ==> s.tries >= 1) && (s.crtc == 0 ==> s.tries >= 1)
    && (s.released || s.main == Ended ==> s.crtc == 0)
    && (s.main == Ended ==> s.stack == Empty)
  }

  predicate Inv(s: State) {
    Safe(s) && Nested(s) && LinesOk(s.stack, s.crtc) && Tallied(s)
  }

  lemma ReturnInv(s: State)
    requires Inv(s) && s.stack.Frame? && s.main != Ended && s.crtc == 0
    requires s.stack.line == Check || s.stack.line.Settle?
    ensures Inv(Return(s))
  {
  }

  /** Moving the innermost release to another line changes neither callers nor depth. */
  lemma AtNested(s: State, line: Line)
    requires s.stack.Frame? && Nested(s)
    ensures Nested(At(s, line))
  {
  }

  lemma CheckInv(s: State)
    requires Inv(s) && s.stack.Frame? && s.main != Ended && s.stack.line == Check && s.crtc != 0
    ensures Inv(At(s, SwitchOff))
  {
    AtNested(s, SwitchOff);
  }

  lemma SwitchOffInv(s: State, ok: bool)
    requires Inv(s) && s.stack.Frame? && s.main != Ended && s.stack.line == SwitchOff
    ensures Inv(LineStep(s, ok))
  {
    AtNested(s, Clear);
  }

  lemma ClearInv(s: State)
    requires Inv(s) && s.stack.Frame? && s.main != Ended && s.stack.line == Clear
    ensures Inv(At(s.(crtc := 0), Confirm(0)))
  {
    AtNested(s, Confirm(0));
    LinesOkCleared(s.stack.below, s.crtc);
  }

  lemma ConfirmInv(s: State, line: Line)
    requires Inv(s) && s.stack.Frame? && s.main != Ended && s.stack.line.Confirm?
    requires (line.Confirm? || line.Settle?) && line.polls <= POLLS
    ensures Inv(At(s, line))
  {
    AtNested(s, line);
  }

  lemma LineInv(s: State, ok: bool)
    requires Inv(s) && s.stack.Frame? && s.main != Ended
    ensures Inv(LineStep(s, ok))
  {
    match s.stack.line
    case Check => if s.crtc == 0 { ReturnInv(s); } else { CheckInv(s); }
    case SwitchOff => SwitchOffInv(s, ok);
    case Clear => ClearInv(s);
    case Confirm(_) => ConfirmInv(s, LineStep(s, ok).stack.line);
    case Settle(_) => ReturnInv(s);
  }

  lemma DeliverInv(s: State, sig: Sig)
    requires Inv(s) && s.main != Ended
    ensures Inv(Step(s, Deliver(sig)))
  {
  }

  lemma StepInv(s: State, m: Move)
    requires Inv(s)
    ensures Inv(Step(s, m))
  {
    if s.main != Ended {
      if m.Line? && s.stack.Frame? {
        LineInv(s, m.ok);
      } else if m.Deliver? {
        DeliverInv(s, m.sig);
      }
    }
  }

  lemma {:induction false} ExecInv(s: State, moves: seq<Move>)
    requires Inv(s)
    ensures Inv(ExecFrom(s, moves))
  {
    if moves != [] {
      ExecInv(s, moves[..|moves| - 1]);
      StepInv(ExecFrom(s, moves[..|moves| - 1]), moves[|moves| - 1]);
    }
  }

  // ---------------------------------------------------------------- on every way out

  lemma ArmedInv(fd: nat, crtc: nat, scanned: nat)
    requires crtc != 0
    ensures Inv(Armed(fd, crtc, scanned))
  {
  }

  /** However the process ends, it has tried to switch the CRTC off, and the CRTC is off
      exactly when some attempt succeeded or the last thing shown was nothing: after a
      successful attempt no step points it at a buffer again. */
  lemma EndsOff(fd: nat, crtc: nat, scanned: nat, moves: seq<Move>)
    requires crtc != 0
    ensures var s := ExecFrom(Armed(fd, crtc, scanned), moves);
      && (s.offOk ==> s.scanned == 0)
      && (s.main == Ended ==> 1 <= s.tries <= 1 + Signals(s))
      && (s.main == Ended ==> (s.scanned == 0 <==> s.offOk || s.lastPut == 0))
  {
    ArmedInv(fd, crtc, scanned);
    ExecInv(Armed(fd, crtc, scanned), moves);
  }

  /** The innermost release has polled at most 50 times, and polls only once the saved
      CRTC is cleared. */
  lemma PollsBounded(fd: nat, crtc: nat, scanned: nat, moves: seq<Move>)
    requires crtc != 0
    ensures var s := ExecFrom(Armed(fd, crtc, scanned), moves);
      s.stack.Frame? && (s.stack.line.Confirm? || s.stack.line.Settle?) ==> s.stack.line.polls <= 50 && s.crtc == 0
  {
    ArmedInv(fd, crtc, scanned);
    ExecInv(Armed(fd, crtc, scanned), moves);
  }

  // ---------------------------------------------------------------- later releases

  predicate NoneSwitching(stack: Stack) {
    stack.Frame? ==> stack.line != SwitchOff && NoneSwitching(stack.below)
  }

  /** The saved CRTC is cleared, nobody is about to switch it off, and main is past setting
      the display or interrupted for good. */
  predicate Spent(s: State) {
    s.crtc == 0 && NoneSwitching(s.stack) && (s.main == Running ==> s.stack.Frame?)
  }

  predicate SameDisplay(s: State, r: State) {
    r.scanned == s.scanned && r.tries == s.tries && r.lastPut == s.lastPut
  }

  lemma SpentLine(s: State, ok: bool)
    requires Spent(s) && s.stack.Frame?
    ensures Spent(LineStep(s, ok)) && SameDisplay(s, LineStep(s, ok))
  {
  }

  lemma SpentStep(s: State, m: Move)
    requires Spent(s)
    ensures Spent(Step(s, m)) && SameDisplay(s, Step(s, m))
  {
    if m.Line? && s.stack.Frame? {
      SpentLine(s, m.ok);
    }
  }

  /** From then on releases do nothing more: the CRTC keeps what it has, right or wrong.
      In particular a switch-off that failed is never tried again. */
  lemma {:induction false} SpentForGood(s: State, more: seq<Move>)
    requires Spent(s)
    ensures Spent(ExecFrom(s, more)) && SameDisplay(s, ExecFrom(s, more))
  {
    if more != [] {
      SpentForGood(s, more[..|more| - 1]);
      SpentStep(ExecFrom(s, more[..|more| - 1]), more[|more| - 1]);
    }
  }

  lemma {:induction false} AtCheckNotSwitching(stack: Stack)
    requires AllAtCheck(stack)
    ensures NoneSwitching(stack)
  {
    if stack.Frame? {
      AtCheckNotSwitching(stack.below);
    }
  }

  /** Main's own release, once it has returned, leaves that state. */
  lemma ReleasedIsSpent(fd: nat, crtc: nat, scanned: nat, moves: seq<Move>)
    requires crtc != 0
    ensures var s := ExecFrom(Armed(fd, crtc, scanned), moves); s.released ==> Spent(s)
  {
    ArmedInv(fd, crtc, scanned);
    ExecInv(Armed(fd, crtc, scanned), moves);
    AtCheckNotSwitching(if ExecFrom(Armed(fd, crtc, scanned), moves).released
                        then ExecFrom(Armed(fd, crtc, scanned), moves).stack else Empty);
  }
}
