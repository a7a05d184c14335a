/**
 The page-flip pacing of pvranimate: a program that renders round-robin into
 `nbuf` buffers and a display controller that accepts one flip at a time.

 The two parties take turns in any order.  A schedule is a sequence of moves, and
 the state a schedule leads to is computed by `Exec`; a statement about every
 schedule is a statement about every timing of vblanks, of polls that succeed and
 of polls that time out.
 */
module PageFlip {
  import opened Options

  datatype Config = Config(nbuf: nat, frames: nat, retry: bool) {
    // NBUF is a positive constant, and the program refuses to start with frames < 1.
    predicate Valid() { nbuf >= 1 && frames >= 1 }
  }

  /** The CRTC: what it scans, the flip it has accepted, and completions nobody has read. */
  datatype Display = Display(screen: nat, inFlight: Option<nat>, events: seq<nat>, shown: seq<nat>) {
    function Vblank(): Display {
      if inFlight.None? then this
      else Display(inFlight.value, None, events + [inFlight.value], shown + [inFlight.value])
    }
  }

  /** Where the program stands in the present loop and the drain. */
  datatype Pc =
    | WaitFree            // waiting until the buffer's previous flip completed
    | Rendering           // inside render_frame
    | Gate                // the PACE=gate loop
    | FirstFlip           // about to issue the flip
    | BusyPoll            // the flip met EBUSY; polling once
    | SecondFlip          // about to retry
    | Account             // flip accepted, counters not yet updated
    | Advance             // end of the loop body
    | Drain(buffer: nat)  // letting the last flips land
    | Done
    | Dead                // DIE

  datatype State = State(pc: Pc, frame: nat, issued: seq<nat>, completed: seq<nat>, pending: nat,
                         timeouts: nat, phase: nat, display: Display)

  datatype Move =
    | Vblank           // the panel refreshes
    | Run              // the program executes its next statement
    | Ready(n: nat)    // poll reports the card readable and the handler consumes n events
    | TimedOut         // poll returns without an event
    | Fault            // rendering, or a flip, fails with something other than EBUSY

  function Init(cfg: Config): State {
    State(WaitFree, 0, seq(cfg.nbuf, _ => 0), seq(cfg.nbuf, _ => 0), 0, 0, 0, Display(0, None, [], [0]))
  }

  function Buffer(cfg: Config, frame: nat): (b: nat)
    requires cfg.Valid()
    ensures b < cfg.nbuf
  {
    frame % cfg.nbuf
  }

  predicate Shaped(cfg: Config, s: State) {
    && cfg.Valid()
    && |s.issued| == |s.completed| == cfg.nbuf
    && (s.pc.Drain? ==> s.pc.buffer <= cfg.nbuf)
  }

  predicate InUse(cfg: Config, s: State, b: nat)
    requires Shaped(cfg, s) && b < cfg.nbuf
  {
    s.issued[b] > s.completed[b]
  }

  /** page_flip_handler, applied to the oldest unread event. */
  function HandleHead(cfg: Config, s: State): (r: State)
    requires Shaped(cfg, s) && s.display.events != []
    ensures Shaped(cfg, r)
  {
    var b := s.display.events[0];
    s.(completed := if b < cfg.nbuf then s.completed[b := s.completed[b] + 1] else s.completed,
       pending := if s.pending > 0 then s.pending - 1 else s.pending,
       display := s.display.(events := s.display.events[1..]))
  }

  /** drmHandleEvent, when one read delivers the n oldest events. */
  function HandleEvents(cfg: Config, s: State, n: nat): (r: State)
    requires Shaped(cfg, s) && n <= |s.display.events|
    ensures Shaped(cfg, r)
    decreases n
  {
    if n == 0 then s else HandleEvents(cfg, HandleHead(cfg, s), n - 1)
  }

  /** The program is blocked in poll(). */
  predicate Polling(cfg: Config, s: State)
    requires Shaped(cfg, s)
  {
    match s.pc
    case WaitFree => InUse(cfg, s, Buffer(cfg, s.frame))
    case Gate => !cfg.retry && s.pending > 0
    case BusyPoll => true
    case Drain(i) => i < cfg.nbuf && InUse(cfg, s, i)
    case _ => false
  }

  function AcceptFlip(cfg: Config, s: State): State
    requires cfg.Valid()
  {
    s.(pc := Account, display := s.display.(inFlight := Some(Buffer(cfg, s.frame))))
  }

  function NextPhase(phase: nat): nat {
    if phase + 4 >= 64 then phase + 4 - 64 else phase + 4
  }

  function RunStep(cfg: Config, s: State): (r: State)
    requires Shaped(cfg, s)
    ensures Shaped(cfg, r)
  {
    if Polling(cfg, s) then s else
    match s.pc
    case WaitFree => s.(pc := Rendering)
    case Rendering => s.(pc := if s.frame > 0 then Gate else Advance)
    case Gate => s.(pc := FirstFlip)
    case FirstFlip => if s.display.inFlight.None? then AcceptFlip(cfg, s) else s.(pc := BusyPoll)
    case BusyPoll => s
    case SecondFlip => if s.display.inFlight.None? then AcceptFlip(cfg, s) else s.(pc := Dead)
    case Account =>
      var b := Buffer(cfg, s.frame);
      s.(pc := Advance, issued := s.issued[b := s.issued[b] + 1], pending := s.pending + 1)
    case Advance =>
      s.(pc := if s.frame + 1 < cfg.frames then WaitFree else Drain(0),
         frame := s.frame + 1, phase := NextPhase(s.phase))
    case Drain(i) => if i == cfg.nbuf then s.(pc := Done) else s.(pc := Drain(i + 1))
    case Done => s
    case Dead => s
  }

  function ReadyStep(cfg: Config, s: State, n: nat): (r: State)
    requires Shaped(cfg, s) && Polling(cfg, s) && 1 <= n <= |s.display.events|
    ensures Shaped(cfg, r)
  {
    var h := HandleEvents(cfg, s, n);
    if s.pc.BusyPoll? then h.(pc := SecondFlip) else h.(pc := s.pc)
  }

  // The poll after EBUSY is the one whose timeout is not counted.
  function TimedOutStep(cfg: Config, s: State): (r: State)
    requires Shaped(cfg, s) && Polling(cfg, s)
    ensures Shaped(cfg, r)
  {
    match s.pc
    case WaitFree => s.(pc := Rendering, timeouts := s.timeouts + 1)
    case Gate => s.(pc := FirstFlip, timeouts := s.timeouts + 1)
    case BusyPoll => s.(pc := SecondFlip)
    case Drain(i) => s.(pc := Drain(i + 1), timeouts := s.timeouts + 1)
  }

  /** One move.  A move that is not possible in a state leaves the state as it is. */
  function Step(cfg: Config, s: State, m: Move): (r: State)
    requires Shaped(cfg, s)
    ensures Shaped(cfg, r)
  {
    match m
    case Vblank => s.(display := s.display.Vblank())
    case Run => RunStep(cfg, s)
    case Ready(n) => if Polling(cfg, s) && 1 <= n <= |s.display.events| then ReadyStep(cfg, s, n) else s
    case TimedOut => if Polling(cfg, s) then TimedOutStep(cfg, s) else s
    case Fault => if s.pc in {Rendering, FirstFlip, SecondFlip} then s.(pc := Dead) else s
  }

  function ExecFrom(cfg: Config, s: State, moves: seq<Move>): (r: State)
    requires Shaped(cfg, s)
    ensures Shaped(cfg, r)
  {
    if moves == [] then s
    else Step(cfg, ExecFrom(cfg, s, moves[..|moves| - 1]), moves[|moves| - 1])
  }

  /** The state after a schedule, from the moment drmModeSetCrtc has shown buffer 0. */
  function Exec(cfg: Config, moves: seq<Move>): (r: State)
    requires cfg.Valid()
    ensures Shaped(cfg, r)
  {
    ExecFrom(cfg, Init(cfg), moves)
  }
}
