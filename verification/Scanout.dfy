/**
 release_display and arm_crtc_restore over the program's globals.

 The methods describe a release that is not interrupted: a handler that interrupts one
 never returns to it.  Each records the moves it makes, so its effect is that of a run of
 the machine.
 */
module Scanout {
  import opened Release
  import opened ReleaseTheorems

  lemma Record(s: State, moves: seq<Move>, m: Move, r: State)
    requires r == Step(ExecFrom(s, moves), m)
    ensures r == ExecFrom(s, moves + [m])
  {
    assert (moves + [m])[..|moves|] == moves;
  }

  /** How the process image ends. */
  datatype Ending = Execed | Exited(status: int)

  /** What drmModeGetCrtc will say, poll by poll: whether it finds the CRTC at all. */
  predicate Answers(found: seq<bool>) {
    |found| == 50
  }

  /** The polls made when the loop stands at poll k: it goes on while the CRTC is found and
      not off. */
  function PollsFrom(found: seq<bool>, scanned: nat, k: nat): (polls: nat)
    requires Answers(found) && k <= 50
    ensures k <= polls <= 50
    ensures forall i :: k <= i < polls - 1 ==> found[i]
    ensures polls > k + 1 ==> scanned != 0
    ensures k < polls < 50 ==> !(found[polls - 1] && scanned != 0)
    decreases 50 - k
  {
    if k == 50 then 50 else if found[k] && scanned != 0 then PollsFrom(found, scanned, k + 1) else k + 1
  }

  class Program {
    var restoreFd: int
    var restoreCrtc: nat
    var restoreCrtcConfirm: nat
    var scanned: nat              // the kernel's side: the framebuffer of the CRTC

    ghost var start: State
    ghost var moves: seq<Move>
    ghost var run: State          // where the moves lead

    ghost predicate Valid()
      reads this
    {
      && run == ExecFrom(start, moves) && Inv(start)
      && run.fd == restoreFd && run.crtc == restoreCrtc && run.confirm == restoreCrtcConfirm && run.scanned == scanned
    }

    constructor (scanned: nat)
      ensures restoreFd == -1 && restoreCrtc == 0 && this.scanned == scanned
    {
      restoreFd, restoreCrtc, restoreCrtcConfirm := -1, 0, 0;
      this.scanned := scanned;
    }

    method ArmCrtcRestore(fd: nat, crtc: nat)
      requires crtc != 0
      modifies this
      ensures Valid() && run == Armed(fd, crtc, scanned) && scanned == old(scanned)
      ensures restoreFd == fd && restoreCrtc == crtc == restoreCrtcConfirm
    {
      restoreFd, restoreCrtc, restoreCrtcConfirm := fd, crtc, crtc;
      start, moves := Armed(fd, crtc, scanned), [];
      run := start;
    }

    ghost method Commit(m: Move)
      requires run == ExecFrom(start, moves) && Inv(start)
      modifies this`moves, this`run
      ensures run == Step(old(run), m) == ExecFrom(start, moves) && moves == old(moves) + [m]
    {
      ghost var next := Step(run, m);
      Record(start, moves, m, next);
      run, moves := next, moves + [m];
    }

    /** The innermost release is at this line, called from within `outer`. */
    ghost predicate AtLine(line: Line, outer: Stack, level: Level)
      reads this`run
    {
      run.main != Ended && run.stack == Frame(level, line, outer)
    }

    /** The innermost release has passed this line, with these effects on the display. */
    ghost method Pass(ok: bool, line: Line, crtc: nat, scanned: nat, tries: nat, outer: Stack, level: Level)
      requires run == ExecFrom(start, moves) && Inv(start) && run.main != Ended && run.stack.Frame?
      requires LineStep(run, ok).(offOk := run.offOk)
            == run.(stack := Frame(level, line, outer), crtc := crtc, scanned := scanned, tries := tries)
      modifies this`moves, this`run
      ensures run == ExecFrom(start, moves) && AtLine(line, outer, level)
      ensures run.crtc == crtc && run.scanned == scanned && run.tries == tries
      ensures run.fd == old(run).fd && run.confirm == old(run).confirm
    {
      ghost var next := LineStep(run, ok);
      assert next == Step(run, Line(ok));
      Commit(Line(ok));
      assert run == next;
    }

    /** The switch-off call, whose failure is only reported, and `g_restore_crtc = 0`. */
    method SwitchCrtcOff(offWorks: bool, ghost outer: Stack, ghost level: Level)
      requires Valid() && AtLine(SwitchOff, outer, level)
      modifies this
      ensures Valid() && AtLine(Confirm(0), outer, level)
      ensures restoreCrtc == 0 && scanned == (if offWorks then 0 else old(scanned)) && run.tries == old(run).tries + 1
    {
      if offWorks {
        scanned := 0;
      }
      Pass(offWorks, Clear, run.crtc, scanned, run.tries + 1, outer, level);
      restoreCrtc := 0;
      Pass(true, Confirm(0), 0, scanned, run.tries, outer, level);
    }

    method ConfirmPoll(found: bool, ghost polls: nat, ghost outer: Stack, ghost level: Level) returns (again: bool)
      requires Valid() && AtLine(Confirm(polls), outer, level) && polls < 50
      modifies this`moves, this`run
      ensures Valid() && run.tries == old(run).tries
      ensures AtLine(if again then Confirm(polls + 1) else Settle(polls + 1), outer, level)
      ensures again == (found && scanned != 0)
    {
      again := found && scanned != 0;
      Pass(found, if again then Confirm(polls + 1) else Settle(polls + 1), run.crtc, run.scanned, run.tries, outer, level);
    }

    ghost method PollsSpent(outer: Stack, level: Level)
      requires Valid() && AtLine(Confirm(50), outer, level)
      modifies this`moves, this`run
      ensures Valid() && AtLine(Settle(50), outer, level) && run.tries == old(run).tries
    {
      Pass(true, Settle(50), run.crtc, run.scanned, run.tries, outer, level);
    }

    /** Before the next poll, or past the last. */
    ghost predicate Between(polls: nat, again: bool, tries: nat, outer: Stack, level: Level)
      reads this
    {
      && Valid() && run.tries == tries && polls <= 50
      && AtLine(if again then Confirm(polls) else Settle(polls), outer, level)
    }

    method NextPoll(found: bool, polls: nat, ghost tries: nat, ghost outer: Stack, ghost level: Level) returns (again: bool)
      requires Between(polls, true, tries, outer, level) && polls < 50
      modifies this`moves, this`run
      ensures Between(polls + 1, again, tries, outer, level) && again == (found && scanned != 0)
    {
      again := ConfirmPoll(found, polls, outer, level);
    }

    method ConfirmLoop(found: seq<bool>, ghost outer: Stack, ghost level: Level) returns (polls: nat, again: bool)
      requires Valid() && AtLine(Confirm(0), outer, level) && Answers(found)
      modifies this`moves, this`run
      ensures Valid() && run.tries == old(run).tries && polls <= 50 && (again ==> polls == 50)
      ensures AtLine(if again then Confirm(polls) else Settle(polls), outer, level)
      ensures again || polls == PollsFrom(found, scanned, 0)
      ensures again ==> PollsFrom(found, scanned, 0) == 50
    {
      polls, again := 0, true;
      ghost var tries := run.tries;
      while polls < 50 && again
        invariant Between(polls, again, tries, outer, level)
        invariant PollsFrom(found, scanned, 0) == if again then PollsFrom(found, scanned, polls) else polls
      {
        again := NextPoll(found[polls], polls, tries, outer, level);
        polls := polls + 1;
      }
    }

    /** Poll until the kernel reports the CRTC off, has no answer, or has been asked 50 times. */
    method ConfirmOff(found: seq<bool>, ghost outer: Stack, ghost level: Level) returns (polls: nat)
      requires Valid() && AtLine(Confirm(0), outer, level) && Answers(found)
      modifies this`moves, this`run
      ensures Valid() && run.tries == old(run).tries && AtLine(Settle(polls), outer, level)
      ensures polls == PollsFrom(found, scanned, 0)
    {
      var again;
      polls, again := ConfirmLoop(found, outer, level);
      if again {
        PollsSpent(outer, level);
      }
    }

    /** One release.  It polls only after an attempt, for as long as the CRTC is found on and
        at most 50 times, so once if the attempt worked; with the saved CRTC already cleared
        it does nothing. */
    method ReleaseDisplay(offWorks: bool, found: seq<bool>, ghost outer: Stack, ghost level: Level) returns (polls: nat)
      requires Valid() && AtLine(Check, outer, level) && Answers(found)
      modifies this
      ensures Valid() && restoreCrtc == 0 && polls <= 50
      ensures old(restoreCrtc) == 0 ==> polls == 0 && scanned == old(scanned) && run.tries == old(run).tries
      ensures old(restoreCrtc) != 0 ==>
        && run.tries == old(run).tries + 1
        && scanned == (if offWorks then 0 else old(scanned))
        && polls == PollsFrom(found, scanned, 0)
      ensures run.stack == if level in {AtReturn, AtExec} then outer else Empty
      ensures run.main == match level case AtReturn => Returning case AtExec => Execing case _ => Ended
    {
      ExecInv(start, moves);
      polls := 0;
      if restoreFd < 0 || restoreCrtc == 0 {
        Commit(Line(true));
        return;
      }
      Commit(Line(true));
      SwitchCrtcOff(offWorks, outer, level);
      polls := ConfirmOff(found, outer, level);
      Commit(Line(true));
    }

    ghost predicate InMain()
      reads this
    {
      Valid() && run.main == Running && run.stack == Empty && restoreCrtc != 0
    }

    /** main puts one of its framebuffers on the CRTC. */
    method SetDisplay(fb: nat, works: bool)
      requires InMain() && fb != 0
      modifies this
      ensures InMain() && scanned == (if works then fb else old(scanned)) && run.tries == old(run).tries
    {
      if works {
        scanned := fb;
      }
      Commit(Put(fb, works));
    }

    /** exit(): the atexit handler releases the display once more. */
    method ExitProcess(status: int, offWorks: bool, found: seq<bool>) returns (e: Ending)
      requires Valid() && run.main !in {Exiting, Ended} && run.stack == Empty && Answers(found)
      modifies this
      ensures Valid() && run.main == Ended && e == Exited(status)
      ensures scanned == if old(restoreCrtc) != 0 && offWorks then 0 else old(scanned)
      ensures run.tries == old(run).tries + if old(restoreCrtc) != 0 then 1 else 0
    {
      Commit(Exit);
      var _ := ReleaseDisplay(offWorks, found, Empty, AtExit);
      e := Exited(status);
    }

    /** The normal end: release, then return from main.  Only the first attempt is made. */
    method ReturnFromMain(committed: bool, offWorks: bool, offWorksAgain: bool, found: seq<bool>) returns (e: Ending)
      requires InMain() && Answers(found)
      modifies this
      ensures Valid() && run.main == Ended && scanned == if offWorks then 0 else old(scanned)
      ensures e == Exited(if committed then 0 else 1) && run.tries == old(run).tries + 1
    {
      Commit(Call(AtReturn));
      var _ := ReleaseDisplay(offWorks, found, Empty, AtReturn);
      e := ExitProcess(if committed then 0 else 1, offWorksAgain, found);
    }

    /** The wrong panel size: release, then run again at the right one, or die if that fails. */
    method ReExecute(offWorks: bool, execWorks: bool, offWorksAgain: bool, found: seq<bool>) returns (e: Ending)
      requires InMain() && Answers(found)
      modifies this
      ensures Valid() && run.main == Ended && scanned == if offWorks then 0 else old(scanned)
      ensures e == (if execWorks then Execed else Exited(1)) && run.tries == old(run).tries + 1
    {
      Commit(Call(AtExec));
      var _ := ReleaseDisplay(offWorks, found, Empty, AtExec);
      if execWorks {
        Commit(Exec);
        e := Execed;
      } else {
        e := ExitProcess(1, offWorksAgain, found);
      }
    }

    /** main from the moment the CRTC is known: arm, run again at the panel's size if that
        differs, or show the buffer and hand the display back.  Whatever fails on the way,
        the display is released once before the end: the CRTC is off if that switch-off
        works, and else keeps the last thing it was given. */
    method ScanOut(fd: nat, crtc: nat, fb: nat, sameSize: bool, addWorks: bool, setWorks: bool, committed: bool,
                   execWorks: bool, offWorks: bool, offWorksAgain: bool, found: seq<bool>) returns (e: Ending)
      requires crtc != 0 && fb != 0 && Answers(found)
      modifies this
      ensures Valid() && run.main == Ended && run.tries == 1
      ensures scanned == if offWorks then 0 else if sameSize && addWorks && setWorks then fb else old(scanned)
      ensures e == if !sameSize && execWorks then Execed
                   else if sameSize && addWorks && setWorks && committed then Exited(0) else Exited(1)
    {
      ArmCrtcRestore(fd, crtc);
      if !sameSize {
        e := ReExecute(offWorks, execWorks, offWorksAgain, found);
        return;
      }
      if !addWorks {
        e := ExitProcess(1, offWorks, found);
        return;
      }
      SetDisplay(fb, setWorks);
      if !setWorks {
        e := ExitProcess(1, offWorks, found);
        return;
      }
      e := ReturnFromMain(committed, offWorks, offWorksAgain, found);
    }

    ghost predicate Blocked(sig: Sig)
      reads this
    {
      if sig.Int? then run.intSeen else run.termSeen
    }

    /** A signal, at any line of main or of a release: the handler releases and exits with
        128 and the signal's number. */
    method HandleSignal(sig: Sig, offWorks: bool, found: seq<bool>) returns (e: Ending)
      requires Valid() && run.main != Ended && !Blocked(sig) && Answers(found)
      modifies this
      ensures Valid() && run.main == Ended && e == Exited(if sig == Int then 130 else 143)
      ensures scanned == if old(restoreCrtc) != 0 && offWorks then 0 else old(scanned)
      ensures run.tries == old(run).tries + if old(restoreCrtc) != 0 then 1 else 0
    {
      ghost var interrupted := run.stack;
      Commit(Deliver(sig));
      var _ := ReleaseDisplay(offWorks, found, interrupted, Handler(sig));
      e := Exited(128 + if sig == Int then 2 else 15);
    }
  }
}
