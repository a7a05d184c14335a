/**
 Handing the display back: release_display of pvrscanout and pvranimate, on every way out
 of the process once arm_crtc_restore has run.

 release_display can be entered again from a signal handler while it runs, so the state
 holds a stack of activations, each at its own line.  A handler ends the process when its
 release returns and never resumes what it interrupted.  A run is a sequence of moves; the
 results of the kernel calls are part of the moves.
 */
module Release {
  datatype Sig = Int | Term

  /** Who called release_display. */
  datatype Level = AtReturn | AtExec | AtExit | Handler(sig: Sig)

  /** The next line of release_display; `polls` counts the confirm polls made so far. */
  datatype Line = Check | SwitchOff | Clear | Confirm(polls: nat) | Settle(polls: nat)

  /** Activations of release_display, innermost first. */
  datatype Stack = Empty | Frame(level: Level, line: Line, below: Stack)

  /** Running: the display may be set.  Exiting: exit() runs the atexit handler. */
  datatype Main = Running | Returning | Execing | Exiting | Ended

  datatype State = State(fd: int, crtc: nat, confirm: nat,      // g_restore_*
                         scanned: nat,                          // the CRTC's framebuffer, 0 when off
                         main: Main, stack: Stack,
                         lastPut: nat, tries: nat, offOk: bool, released: bool,
                         intSeen: bool, termSeen: bool)         // what has happened so far

  datatype Move =
    | Put(fb: nat, ok: bool)   // drmModeSetCrtc or a page flip by main
    | Call(level: Level)       // main calls release_display before return or exec
    | Exit                     // DIE, return from main, or a failed execl
    | Exec                     // execl succeeds
    | Deliver(sig: Sig)
    | Line(ok: bool)           // the innermost release executes a line; ok: its call succeeds

  const POLLS: nat := 50

  /** arm_crtc_restore(fd, crtc) has run, and the CRTC scans whatever it did before. */
  function Armed(fd: nat, crtc: nat, scanned: nat): State {
    State(fd, crtc, crtc, scanned, Running, Empty, scanned, 0, false, false, false, false)
  }

  function Push(s: State, level: Level): State {
    s.(stack := Frame(level, Check, s.stack))
  }

  function At(s: State, line: Line): State
    requires s.stack.Frame?
  {
    s.(stack := s.stack.(line := line))
  }

  /** The innermost release returns to its caller. */
  function Return(s: State): State
    requires s.stack.Frame?
  {
    match s.stack.level
    case AtReturn => s.(stack := s.stack.below, main := Returning, released := true)
    case AtExec => s.(stack := s.stack.below, main := Execing, released := true)
    case AtExit => s.(stack := Empty, main := Ended)
    case Handler(_) => s.(stack := Empty, main := Ended)
  }

  function LineStep(s: State, ok: bool): State
    requires s.stack.Frame?
  {
    match s.stack.line
    case Check => if s.fd < 0 || s.crtc == 0 then Return(s) else At(s, SwitchOff)
    case SwitchOff =>
      At(s.(tries := s.tries + 1, offOk := s.offOk || ok, scanned := if ok then 0 else s.scanned), Clear)
    case Clear => At(s.(crtc := 0), Confirm(0))
    case Confirm(i) =>
      if i >= POLLS then At(s, Settle(i))
      else if !ok || s.scanned == 0 then At(s, Settle(i + 1))
      else At(s, Confirm(i + 1))
    case Settle(_) => Return(s)
  }

  function Step(s: State, m: Move): State {
    if s.main == Ended then s else
    match m
    case Put(fb, ok) =>
      if s.main == Running && s.stack == Empty && fb != 0 && ok then s.(scanned := fb, lastPut := fb) else s
    case Call(level) =>
      if s.main == Running && s.stack == Empty && level in {AtReturn, AtExec} then Push(s, level) else s
    case Exit => if s.main != Exiting && s.stack == Empty then Push(s.(main := Exiting), AtExit) else s
    case Exec => if s.main == Execing && s.stack == Empty then s.(main := Ended) else s
    case Deliver(sig) =>
      if sig.Int? && !s.intSeen then Push(s.(intSeen := true), Handler(Int))
      else if sig.Term? && !s.termSeen then Push(s.(termSeen := true), Handler(Term))
      else s
    case Line(ok) => if s.stack.Frame? then LineStep(s, ok) else s
  }

  function ExecFrom(s: State, moves: seq<Move>): State {
    if moves == [] then s else Step(ExecFrom(s, moves[..|moves| - 1]), moves[|moves| - 1])
  }
}
