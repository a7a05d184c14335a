/**
 The present loop of pvranimate as the program writes it, over its global counters.

 The kernel's side of the display is the field `display`; `Elapse` lets a vblank happen.
 Every effect is recorded as a move, and `Valid` ties the fields to the state that the
 recorded moves lead to.  So every execution of `Present`, whatever the timing, is one of
 the runs the theorems speak of.
 */
module Presenter {
  import opened Options
  import opened PageFlip
  import opened PageFlipInvariant
  import opened PageFlipTheorems

  const EBUSY: int := 16

  /** One rendered frame. */
  datatype Shot = Shot(buffer: nat, phase: nat)

  /** The machine has made a move that stands for a failing call. */
  predicate Faulty(moves: seq<Move>) {
    moves != [] && (Faulty(moves[..|moves| - 1]) || moves[|moves| - 1] == Fault)
  }

  lemma {:induction false} FaultyIff(moves: seq<Move>)
    ensures Faulty(moves) <==> Fault in moves
  {
    if moves != [] {
      FaultyIff(moves[..|moves| - 1]);
      assert moves == moves[..|moves| - 1] + [moves[|moves| - 1]];
    }
  }

  lemma Record(cfg: Config, moves: seq<Move>, m: Move, s: State)
    requires cfg.Valid() && s == Step(cfg, Exec(cfg, moves), m)
    ensures s == Exec(cfg, moves + [m])
    ensures Faulty(moves + [m]) <==> Faulty(moves) || m == Fault
  {
    assert (moves + [m])[..|moves|] == moves;
  }

  class Animator {
    const nbuf: nat
    const retry: bool
    const issued: array<nat>
    const completed: array<nat>
    var pending: nat
    var timeouts: nat
    var phase: nat
    var display: Display

    ghost const cfg: Config
    ghost var pc: Pc
    ghost var frame: nat
    ghost var moves: seq<Move>

    // What the kernel and the GPU have been asked, and what they said.
    ghost var unanswered: nat     // polls that timed out, but for those after EBUSY
    ghost var answered: nat       // polls that said an event can be read
    ghost var obeyed: nat         // reads after such a poll, each of at least one event
    ghost var busyPolls: nat      // polls after EBUSY
    ghost var attempts: nat       // drmModePageFlip
    ghost var failed: bool        // some call failed, other than with EBUSY
    ghost var shots: seq<Shot>    // what was rendered

    ghost function Abs(): State
      reads this`pc, this`frame, this`pending, this`timeouts, this`phase, this`display, issued, completed
    {
      State(pc, frame, issued[..], completed[..], pending, timeouts, phase, display)
    }

    ghost predicate Formed()
      reads this`pc, this`frame, this`pending, this`timeouts, this`phase, this`display, issued, completed
    {
      && cfg.Valid() && cfg.nbuf == nbuf && cfg.retry == retry
      && issued != completed && issued.Length == completed.Length == nbuf
      && Shaped(cfg, Abs())
    }

    ghost predicate Valid()
      reads this`pc, this`frame, this`pending, this`timeouts, this`phase, this`display, this`moves,
            this`failed, issued, completed
    {
      Formed() && Abs() == Exec(cfg, moves) && (Faulty(moves) ==> failed)
    }

    /** The counters are zero and drmModeSetCrtc has put buffer 0 on screen. */
    constructor (nbuf: nat, frames: nat, retry: bool)
      requires nbuf >= 1 && frames >= 1
      ensures Valid() && fresh(issued) && fresh(completed)
      ensures cfg == Config(nbuf, frames, retry) && moves == [] && shots == []
      ensures Orderly() && timeouts == 0 && !failed
    {
      this.nbuf, this.retry := nbuf, retry;
      issued := new nat[nbuf](_ => 0);
      completed := new nat[nbuf](_ => 0);
      pending, timeouts, phase := 0, 0, 0;
      display := Display(0, None, [], [0]);
      cfg := Config(nbuf, frames, retry);
      pc, frame, moves, shots := WaitFree, 0, [], [];
      unanswered, answered, obeyed, busyPolls, attempts, failed := 0, 0, 0, 0, 0, false;
    }

    /** Every answered poll was followed by a read, and the unanswered ones were counted. */
    ghost predicate Orderly()
      reads this`timeouts, this`unanswered, this`answered, this`obeyed
    {
      timeouts == unanswered && obeyed == answered
    }

    /** The fields have just been changed the way move m changes the state. */
    ghost method Commit(m: Move)
      requires Formed() && Abs() == Step(cfg, Exec(cfg, moves), m)
      requires Faulty(moves) || m == Fault ==> failed
      modifies this`moves
      ensures Valid()
    {
      ghost var now := Abs();
      Record(cfg, moves, m, now);
      moves := moves + [m];
      assert Abs() == now;
    }

    /** Time passes: the panel may refresh. */
    method Elapse()
      requires Valid()
      modifies this`display, this`moves
      ensures Valid()
      ensures display == old(display) || display == old(display).Vblank()
    {
      if * {
        display := display.Vblank();
        Commit(Vblank);
      }
    }

    method PageFlipHandler(idx: nat)
      requires Formed()
      modifies this`pending, completed
      ensures completed[..] == if idx < nbuf then old(completed[..])[idx := old(completed[..])[idx] + 1]
                               else old(completed[..])
      ensures pending == if old(pending) > 0 then old(pending) - 1 else old(pending)
    {
      if idx < nbuf {
        completed[idx] := completed[idx] + 1;
      }
      if pending > 0 {
        pending := pending - 1;
      }
    }

    /** The handler runs once for each event the read delivered, oldest first. */
    method DispatchEvents(count: nat)
      requires Formed() && count <= |display.events|
      modifies this`pending, this`display, completed
      ensures Formed() && Abs() == HandleEvents(cfg, old(Abs()), count)
    {
      for k := 0 to count
        invariant Formed() && count - k <= |display.events|
        invariant HandleEvents(cfg, Abs(), count - k) == HandleEvents(cfg, old(Abs()), count)
      {
        ghost var head := HandleHead(cfg, Abs());
        var idx := display.events[0];
        display := display.(events := display.events[1..]);
        PageFlipHandler(idx);
        assert Abs() == head;
      }
    }

    /** drmHandleEvent, after a poll that said there is something to read: one read takes
        some of the waiting events. */
    method HandleEvent() returns (ghost n: nat)
      requires Valid() && Polling(cfg, Abs()) && display.events != []
      requires timeouts == unanswered && answered == obeyed + 1
      modifies this`pending, this`display, this`pc, this`moves, this`obeyed, completed
      ensures Valid() && Orderly() && 1 <= n <= |old(display.events)|
      ensures display == old(display).(events := old(display).events[n..])
      ensures pc == if old(pc) == BusyPoll then SecondFlip else old(pc)
    {
      var count :| 1 <= count <= |display.events|;
      n := TakeEvents(count);
      obeyed := obeyed + 1;
    }

    method TakeEvents(count: nat) returns (ghost n: nat)
      requires Valid() && Polling(cfg, Abs()) && 1 <= count <= |display.events|
      modifies this`pending, this`display, this`pc, this`moves, completed
      ensures Valid() && n == count
      ensures display == old(display).(events := old(display).events[n..])
      ensures pc == if old(pc) == BusyPoll then SecondFlip else old(pc)
    {
      n := count;
      ghost var was := Abs();
      ExecInv(cfg, moves);
      HandleEventsBalanced(cfg, was, n);
      DispatchEvents(count);
      pc := ReadyStep(cfg, was, n).pc;
      assert Abs() == Step(cfg, was, Ready(n));
      Commit(Ready(n));
    }

    /** poll() for at most a second: readable only if an event is waiting. */
    method KernelPoll() returns (readable: bool)
      requires Valid()
      modifies this`display, this`moves
      ensures Valid()
      ensures display == old(display) || display == old(display).Vblank()
      ensures readable ==> display.events != []
    {
      Elapse();
      readable := *;
      readable := readable && display.events != [];
    }

    method Poll() returns (readable: bool)
      requires Valid()
      modifies this`display, this`moves, this`answered, this`unanswered
      ensures Valid()
      ensures answered == old(answered) + (if readable then 1 else 0)
      ensures unanswered == old(unanswered) + (if readable then 0 else 1)
      ensures display == old(display) || display == old(display).Vblank()
      ensures readable ==> display.events != []
    {
      readable := KernelPoll();
      if readable {
        answered := answered + 1;
      } else {
        unanswered := unanswered + 1;
      }
    }

    /** The poll after EBUSY, whose timeout the program does not count. */
    method PollAfterBusy() returns (readable: bool)
      requires Valid()
      modifies this`display, this`moves, this`answered, this`busyPolls
      ensures Valid() && busyPolls == old(busyPolls) + 1
      ensures answered == old(answered) + (if readable then 1 else 0)
      ensures display == old(display) || display == old(display).Vblank()
      ensures readable ==> display.events != []
    {
      readable := KernelPoll();
      busyPolls := busyPolls + 1;
      if readable {
        answered := answered + 1;
      }
    }

    /** What a wait can still be woken by: the events waiting and the flip in flight. */
    ghost function Upcoming(): nat
      reads this`display
    {
      |display.events| + if display.inFlight.Some? then 1 else 0
    }

    /** The program moves on without touching a counter. */
    ghost method Proceed(next: Pc)
      requires Valid() && RunStep(cfg, Abs()) == Abs().(pc := next)
      modifies this`pc, this`moves
      ensures Valid() && pc == next
    {
      pc := next;
      Commit(Run);
    }

    /** flip_timeouts++, for the poll that has just gone unanswered. */
    method GiveUp(ghost next: Pc)
      requires Valid() && Polling(cfg, Abs())
      requires unanswered == timeouts + 1 && obeyed == answered
      requires TimedOutStep(cfg, Abs()) == Abs().(pc := next, timeouts := timeouts + 1)
      modifies this`pc, this`moves, this`timeouts
      ensures Valid() && Orderly() && pc == next && timeouts == old(timeouts) + 1
    {
      timeouts := timeouts + 1;
      pc := next;
      Commit(TimedOut);
    }

    method WaitForBuffer(cur: nat)
      requires Valid() && Orderly() && pc == WaitFree && cur == Buffer(cfg, frame)
      modifies this`pending, this`display, this`pc, this`moves, this`timeouts, this`answered, this`unanswered, this`obeyed,
               completed
      ensures Valid() && Orderly() && pc == Rendering
      ensures if issued[cur] <= completed[cur] then timeouts == old(timeouts) else timeouts == old(timeouts) + 1
    {
      while issued[cur] > completed[cur]
        invariant Valid() && Orderly() && pc == WaitFree && cur < nbuf
        invariant timeouts == old(timeouts)
        decreases Upcoming()
      {
        var readable := Poll();
        if readable {
          ghost var n := HandleEvent();
        } else {
          GiveUp(Rendering);
          return;
        }
      }
      Proceed(Rendering);
    }

    predicate Untouched(b: nat, d: Display) {
      d.screen != b && d.inFlight != Some(b)
    }

    /** The program ends in DIE after a failing call. */
    ghost method Die()
      requires Valid() && failed && pc in {Rendering, FirstFlip, SecondFlip}
      modifies this`pc, this`moves
      ensures Valid() && pc == Dead
    {
      pc := Dead;
      Commit(Fault);
    }

    lemma SafeNow(cur: nat)
      requires Valid() && pc == Rendering && cur == Buffer(cfg, frame)
      ensures frame >= 1 && (nbuf >= 3 || cfg.frames <= nbuf) ==> Untouched(cur, display)
    {
      if nbuf >= 3 || cfg.frames <= nbuf {
        RenderSafe(cfg, moves);
      }
    }

    /** render_frame.  From frame 1 on, with three buffers, the panel does not read what
        is being drawn, neither when the GPU starts nor when it finishes. */
    method RenderFrame(cur: nat) returns (ok: bool)
      requires Valid() && Orderly() && pc == Rendering && cur == Buffer(cfg, frame)
      modifies this`display, this`pc, this`moves, this`failed, this`shots
      ensures Valid() && Orderly() && pc == if ok then Rendering else Dead
      ensures shots == old(shots) + [Shot(cur, phase)] && failed == (old(failed) || !ok)
      ensures frame >= 1 && (nbuf >= 3 || cfg.frames <= nbuf) ==>
                Untouched(cur, old(display)) && Untouched(cur, display)
    {
      SafeNow(cur);
      Elapse();
      SafeNow(cur);
      ok := *;
      shots := shots + [Shot(cur, phase)];
      if !ok {
        failed := true;
        Die();
      }
    }

    method WaitAtGate()
      requires Valid() && Orderly() && pc == Gate
      modifies this`pending, this`display, this`pc, this`moves, this`timeouts, this`answered, this`unanswered, this`obeyed,
               completed
      ensures Valid() && Orderly() && pc == FirstFlip
      ensures retry ==> timeouts == old(timeouts) && answered == old(answered)
      ensures !retry ==> if pending == 0 then timeouts == old(timeouts) else timeouts == old(timeouts) + 1
    {
      while !retry && pending > 0
        invariant Valid() && Orderly() && pc == Gate && (retry ==> answered == old(answered))
        invariant timeouts == old(timeouts)
        decreases Upcoming()
      {
        var readable := Poll();
        if !readable {
          GiveUp(FirstFlip);
          return;
        }
        ghost var n := HandleEvent();
      }
      Proceed(FirstFlip);
    }

    method Accept(b: nat)
      requires Valid() && pc in {FirstFlip, SecondFlip} && b == Buffer(cfg, frame) && display.inFlight.None?
      modifies this`display, this`pc, this`moves
      ensures Valid() && pc == Account && display == old(display).(inFlight := Some(b))
    {
      pc, display := Account, display.(inFlight := Some(b));
      Commit(Run);
    }

    /** drmModePageFlip: the CRTC takes one flip at a time; other errors may happen. */
    method DrmModePageFlip(b: nat) returns (r: int)
      requires Valid() && Orderly() && pc in {FirstFlip, SecondFlip} && b == Buffer(cfg, frame)
      modifies this`display, this`pc, this`moves, this`failed, this`attempts
      ensures Valid() && Orderly() && attempts == old(attempts) + 1
      ensures failed == (old(failed) || (r != 0 && r != -EBUSY))
      ensures r == 0 ==> pc == Account && old(display).inFlight.None? && display == old(display).(inFlight := Some(b))
      ensures r == -EBUSY ==> old(display).inFlight.Some? && pc == if old(pc) == FirstFlip then BusyPoll else Dead
      ensures r != 0 && r != -EBUSY ==> pc == Dead
    {
      attempts := attempts + 1;
      if * {
        r := *;
        if r == 0 || r == -EBUSY {
          r := -1;
        }
        failed := true;
        Die();
      } else if display.inFlight.Some? {
        r := -EBUSY;
        Proceed(if pc == FirstFlip then BusyPoll else Dead);
      } else {
        r := 0;
        Accept(b);
      }
    }

    ghost method UncountedTimeout()
      requires Valid() && pc == BusyPoll
      modifies this`pc, this`moves
      ensures Valid() && pc == SecondFlip
    {
      pc := SecondFlip;
      Commit(TimedOut);
    }

    /** After EBUSY: one poll, whose timeout is not counted, and one read if it is answered. */
    method AwaitIdle()
      requires Valid() && Orderly() && pc == BusyPoll
      modifies this`pending, this`display, this`pc, this`moves, this`answered, this`busyPolls, this`obeyed, completed
      ensures Valid() && Orderly() && pc == SecondFlip && busyPolls == old(busyPolls) + 1
    {
      var readable := PollAfterBusy();
      if readable {
        ghost var n := HandleEvent();
      } else {
        UncountedTimeout();
      }
    }

    /** And one more attempt. */
    method RetryFlip(cur: nat) returns (fr: int)
      requires Valid() && Orderly() && pc == BusyPoll && cur == Buffer(cfg, frame)
      modifies this`pending, this`display, this`pc, this`moves, this`answered, this`busyPolls, this`obeyed,
               this`failed, this`attempts, completed
      ensures Valid() && Orderly() && pc == if fr == 0 then Account else Dead
      ensures attempts == old(attempts) + 1 && busyPolls == old(busyPolls) + 1
      ensures failed == (old(failed) || (fr != 0 && fr != -EBUSY))
    {
      AwaitIdle();
      Elapse();
      fr := DrmModePageFlip(cur);
    }

    /** Issue the flip: one attempt, and after EBUSY, and only then, one poll and another. */
    method Flip(cur: nat) returns (fr: int)
      requires Valid() && Orderly() && pc == FirstFlip && cur == Buffer(cfg, frame)
      modifies this`pending, this`display, this`pc, this`moves, this`answered, this`busyPolls, this`obeyed,
               this`failed, this`attempts, completed
      ensures Valid() && Orderly() && pc == if fr == 0 then Account else Dead
      ensures || (attempts == old(attempts) + 1 && busyPolls == old(busyPolls) && fr != -EBUSY)
              || (attempts == old(attempts) + 2 && busyPolls == old(busyPolls) + 1)
      ensures failed == (old(failed) || (fr != 0 && fr != -EBUSY))
    {
      Elapse();
      fr := DrmModePageFlip(cur);
      if fr == -EBUSY {
        fr := RetryFlip(cur);
      }
    }

    method CountFlip(cur: nat)
      requires Valid() && Orderly() && pc == Account && cur == Buffer(cfg, frame)
      modifies this`pending, this`pc, this`moves, issued
      ensures Valid() && Orderly() && pc == Advance
      ensures issued[..] == old(issued[..])[cur := old(issued[cur]) + 1] && pending == old(pending) + 1
    {
      issued[cur] := issued[cur] + 1;
      pending := pending + 1;
      pc := Advance;
      Commit(Run);
    }

    method NextFrame()
      requires Valid() && Orderly() && pc == Advance
      modifies this`phase, this`frame, this`pc, this`moves
      ensures Valid() && Orderly() && frame == old(frame) + 1
      ensures phase == if old(phase) + 4 >= 64 then old(phase) + 4 - 64 else old(phase) + 4
      ensures pc == if frame < cfg.frames then WaitFree else Drain(0)
    {
      phase := phase + 4;
      if phase >= 64 {
        phase := phase - 64;
      }
      frame := frame + 1;
      pc := if frame < cfg.frames then WaitFree else Drain(0);
      Commit(Run);
    }

    method CountedFlip(cur: nat) returns (died: bool)
      requires Valid() && Orderly() && pc == FirstFlip && cur == Buffer(cfg, frame)
      modifies this`pending, this`display, this`pc, this`moves, this`answered, this`obeyed,
               this`busyPolls, this`failed, this`attempts, issued, completed
      ensures Valid() && Orderly() && pc == (if died then Dead else Advance)
      ensures attempts in {old(attempts) + 1, old(attempts) + 2}
      ensures busyPolls - old(busyPolls) == attempts - old(attempts) - 1
    {
      var fr := Flip(cur);
      died := fr != 0;
      if !died {
        CountFlip(cur);
      }
    }

    /** From frame 1 on: wait at the gate, flip, count the flip. */
    method FlipFrame(cur: nat) returns (died: bool)
      requires Valid() && Orderly() && pc == Rendering && frame >= 1 && cur == Buffer(cfg, frame)
      modifies this`pending, this`display, this`pc, this`moves, this`timeouts, this`answered, this`unanswered,
               this`obeyed, this`busyPolls, this`failed, this`attempts, issued, completed
      ensures Valid() && Orderly() && pc == (if died then Dead else Advance)
      ensures attempts in {old(attempts) + 1, old(attempts) + 2}
      ensures busyPolls - old(busyPolls) == attempts - old(attempts) - 1
    {
      Proceed(Gate);
      WaitAtGate();
      died := CountedFlip(cur);
    }

    /** Every frame so far was rendered once, into its buffer and with its phase. */
    ghost predicate AllShot(n: nat)
      reads this`shots
    {
      nbuf >= 1 && |shots| == n && forall k :: 0 <= k < n ==> shots[k] == Shot(k % nbuf, 4 * k % 64)
    }

    lemma ThisShot(f: nat)
      requires Valid() && f == frame
      ensures phase == 4 * f % 64 && Buffer(cfg, f) == f % nbuf
    {
      ExecInv(cfg, moves);
    }

    /** Wait for the buffer and render the frame into it. */
    method DrawFrame(f: nat) returns (ok: bool)
      requires Valid() && Orderly() && pc == WaitFree && f == frame && AllShot(f)
      modifies this`pending, this`display, this`pc, this`moves, this`timeouts, this`answered, this`unanswered,
               this`obeyed, this`failed, this`shots, completed
      ensures Valid() && Orderly() && AllShot(f + 1) && pc == if ok then Rendering else Dead
    {
      var cur := f % nbuf;
      WaitForBuffer(cur);
      ThisShot(f);
      ok := RenderFrame(cur);
    }

    method PresentFrame(f: nat) returns (died: bool)
      requires Valid() && Orderly() && pc == WaitFree && f == frame && AllShot(f)
      modifies this, issued, completed
      ensures Valid() && Orderly() && AllShot(f + 1)
      ensures if died then pc == Dead
              else frame == f + 1 && pc == if frame < cfg.frames then WaitFree else Drain(0)
    {
      var ok := DrawFrame(f);
      if !ok {
        return true;
      }
      if f > 0 {
        died := FlipFrame(f % nbuf);
        if died {
          return;
        }
      } else {
        Proceed(Advance);
      }
      NextFrame();
      died := false;
    }

    method DrainBuffer(i: nat)
      requires Valid() && Orderly() && pc == Drain(i) && i < nbuf
      modifies this`pending, this`display, this`pc, this`moves, this`timeouts, this`answered, this`unanswered, this`obeyed,
               completed
      ensures Valid() && Orderly() && pc == Drain(i + 1)
      ensures if issued[i] <= completed[i] then timeouts == old(timeouts) else timeouts == old(timeouts) + 1
    {
      while issued[i] > completed[i]
        invariant Valid() && Orderly() && pc == Drain(i)
        invariant timeouts == old(timeouts)
        decreases Upcoming()
      {
        var readable := Poll();
        if !readable {
          GiveUp(Drain(i + 1));
          return;
        }
        ghost var n := HandleEvent();
      }
      Proceed(Drain(i + 1));
    }

    /** The present loop and the drain.  Every frame is rendered once, in order; the panel
        has shown the frames in order; at most the last is missing, and none if every poll
        was answered.  `timeouts` counts the polls that were not, and a gated run whose
        polls are all answered dies only of a failing call. */
    method Present(frames: nat) returns (died: bool)
      requires Valid() && Orderly() && moves == [] && shots == [] && timeouts == 0 && frames == cfg.frames
      modifies this, issued, completed
      ensures Valid() && pc == if died then Dead else Done
      ensures timeouts == unanswered && obeyed == answered
      ensures |shots| <= frames && (!died ==> |shots| == frames)
      ensures forall k :: 0 <= k < |shots| ==> shots[k] == Shot(k % nbuf, 4 * k % 64)
      ensures |display.shown| <= frames
      ensures forall i :: 0 <= i < |display.shown| ==> display.shown[i] == i % nbuf
      ensures !died ==> |display.shown| >= frames - 1
      ensures !died && unanswered == 0 ==> |display.shown| == frames
      ensures died && unanswered == 0 && !retry ==> failed
    {
      died := false;
      var f := 0;
      while f < frames
        invariant Valid() && Orderly() && f == frame <= frames && AllShot(f)
        invariant pc == if f < frames then WaitFree else Drain(0)
      {
        died := PresentFrame(f);
        if died {
          ScreenOrder(cfg, moves);
          GateDeathIsFault(cfg, moves);
          FaultyIff(moves);
          return;
        }
        f := f + 1;
      }
      for i := 0 to nbuf
        invariant Valid() && Orderly() && pc == Drain(i) && AllShot(frames)
      {
        DrainBuffer(i);
      }
      Proceed(Done);
      ScreenOrder(cfg, moves);
    }
  }
}
