# Proofs about the board's small state machines

Most of this repository drives GPU and display drivers and records measurements. Seven of its
programs contain a protocol or an algorithm of their own, in six components. This project models them in Dafny and
proves what their comments claim, or the exact condition under which the claim holds.

| component | modules | source |
|---|---|---|
| page-flip pacing | `PageFlip`, `PageFlipInvariant`, `PageFlipTheorems`, `Presenter` | `bench/pvr-vulkan/pvranimate.c` |
| the TSO litmus detector | `Litmus`, `LitmusTheorems`, `LitmusRig` | `emulation/bench/tsolitmus.c` |
| the clock-boost controller | `Boost`, `BoostTheorems`, `BoostController` | `system/cpu-boost.py` |
| trace pairing and vetting | `Sorting`, `Jobs`, `JobsTheorems`, `Vetting`, `Report`, `StoredRecord` | `bench/pvr-vulkan/harness.py`, `logcheck.py` |
| the pixel oracle | `Oracle`, `Pixels`, `PixelTheorems` | `bench/pvr-vulkan/vkheavy.c`, `pvranimate.c` |
| handing the display back | `Release`, `ReleaseTheorems`, `Scanout` | `bench/pvr-vulkan/pvrscanout.c` |

`dafny verify dfyconfig.toml` checks everything.

## How the models are built

The protocols share one shape. A *state* holds the program's variables, its position in the code
and the other party (display, memory, kernel). A *move* is one step of one party. `Exec`, `After`
and `ExecFrom` fold a sequence of moves (or windows) over the start state, so "for every sequence"
means "for every interleaving, timing and pattern of failures". A move that is impossible in a
state leaves it unchanged.

Beside each machine stands the program in its own imperative form: a class whose fields are the
C globals or Python variables and whose methods have the loops of the source (`Presenter.Animator`,
`LitmusRig.Rig`, `BoostController.Controller`, `Scanout.Program`), and plain methods for
`parse_jobs`, `bad_reasons`, the batch loop and the pixel check. `Animator`, `Rig` and `Program`
record the move each statement makes, and `Valid()` says that the fields are the state the recorded
moves lead to; a statement that did anything else would break `Valid()`. So every execution is one
of the runs the theorems quantify over. What the kernel answers is an input, or is recorded where it
is given, so that the contracts can say what the program made of it. `Rig` follows one thread at a time, `writer()` or
`reader()`: before each of its accesses the other thread and the store buffer take any number of
turns of the machine.

What comes from outside is a parameter: which polls time out and when vblanks fall, who runs next,
which floor writes fail and what the clock says, which kernel calls succeed.

* **Display.** The rule is the one the source states: one flip in flight per CRTC, otherwise EBUSY.
  A vblank moves the in-flight buffer on screen and queues one event. One `drmHandleEvent` may
  deliver any non-empty prefix of the queue, and `poll` may time out at any moment, even with an
  event waiting; both are more than the kernel does, so the safety results cover it.
* **Memory.** x86-TSO as in Sewell et al., "x86-TSO: A Rigorous and Usable Programmer's Model for
  x86 Multiprocessors" (CACM 53(7), 2010): the writer's FIFO store buffer drains at any time. The
  reader stores nothing shared, so its buffer is left out. `Sc` has no buffer; `PerLocation` keeps
  only the order of stores to one location. Values are taken modulo 2^32 as the C cast does.
* **Rounding.** In the oracle every intermediate value is a multiple of 1/128 below 2^24 / 128, so
  it is exact in `float` and `double`, and the model uses reals. The quotient of two 32-bit integers
  is further from every half than a `double` can err, or is exact, so what `%.0f` prints is modelled
  over the reals too. In the 1% test of the durations rounding does matter: there every operation is
  rounded by a function of which only two things are assumed, that it keeps the order and that it errs
  by at most 2^-53 of the value, as doubles do. The thousandths kept by `round(d, 3)` may be any
  nearest ones.

## Where the code and its documentation part

* `pvranimate.c` expects a busy CRTC to be settled by one retry (lines 692-695, 749-751). With the
  default pacing it is fatal when an older completion is still unread: the poll returns at once and
  the second flip meets EBUSY too. `FatalIff` gives the exact condition: retry pacing, at least
  three buffers, at least four frames. With two buffers it cannot happen, but then the program
  draws into a buffer on screen (`RenderSafeIff`). It is the one-flip-in-flight rule that keeps
  rendering safe, not the wait on lines 710-723: safety holds even if every poll times out.
* `tsolitmus.c` (lines 28-30, 106) says one violation condemns the setting. From the second pass
  on, an ordinary sequentially consistent memory can produce one, because a sample can fall between
  the two stores of a pair; carried to its end (`RunToEnd`), that run exits with status 1
  (`ViolationsIff`). It is `reordered` that has the claimed meaning, as long as no value wraps past
  2^32 (`ReorderedIff`).
* `cpu-boost.py` promises (lines 8-13) that the floor is up while there is demand and released once
  the board goes quiet. With two policies, a raise whose second write fails leaves the first floor
  up for as long as the board is quiet (`HalfRaisedForEver`), and a release whose second write fails
  leaves it down for as long as there is demand (`HalfReleasedForEver`). A floor that start-up fails
  to lower stays up too (`LeftUpForEver`), since lines 142-143 ignore the result. `QuietLowersIff`
  and `DemandRaisesIff` give the exact conditions after any start-up.
* `--max-floor` of `cpu-boost.py` ("never boost above this frequency") limits the maxima only. Some
  run exceeds it exactly when a minimum that is ever written, at start-up or by a release, is above
  it, or when start-up fails to write a floor that is (`CapHoldsIff`): with a policy of 1..3, a cap
  of 2, a floor of 3 and a failing write the floor stays at 3.
* `harness.py` calls the pairing exact for a one-frame trace (line 247). If time moves on along every
  fence and no two starts share a key, it is exact if and only if no start has lost its signal while
  a later job on the same fence has one (`PairingIff`); otherwise the first job is reported with the
  later job's signal (`WrongSignalReported`). Of the starts that share a key only the first is ever
  reported (`OnlyFirstOfKeyReported`), so a completed job can be missing though no signal was lost
  (`CollisionUnreported`).
* `logcheck.py` sees only the six longest jobs, rounded: it can miss a pair the run warned about
  (`ClosePairIsLoggedIff`, `SixHideTheSeventh`), and rounding can change a verdict either way
  (`RoundingChangesVerdicts`). It cannot for a pair more than 0.001005 ms inside or outside the 1%
  limit, and no smaller margins hold for every rounding to nearest (`RoundingKeepsIff`). Between
  stored stages exactly 1% apart the computed quotient decides: 1.111 and 1.1 come out close
  (`OnePercentFlagged`).
* `vkheavy.c` describes the multisampled special case as the pixels on the triangle's edge (lines
  963-968). The condition covers at least half the image, and `edge_bad` never reaches the verdict
  (`SpoiledIsCountedIff`, `HalfLeftOut`).
* `vkheavy.c` calls iterations / batch the number of batches (lines 888-890). The count it prints is
  that quotient rounded: it is right if the last batch is full, more than half full, or half full
  after an odd number of full ones (`PrintedBatchesIff`), and with nine frames in batches of four it
  says two for three (`OneBatchUnreported`). The submit and wait times are divided by the quotient
  itself, so they are averages over the submits only if the batch size divides the frames
  (`AveragedOverSubmitsIff`).
* `release_display` clears the saved CRTC whether or not the switch-off call worked, so a failed
  attempt is never repeated (`SpentForGood`), although it is called again on the way out.

## Model

| member | source | states |
|---|---|---|
| PageFlipInvariant.ExecInv | bench/pvr-vulkan/pvranimate.c:704-793 | after every schedule the screen, the flip in flight and the unread events are consecutive frames, every counter equals the number of such frames of its buffer, and the position in the loop fixes how many flips were taken |
| PageFlipInvariant.HandleEventsBalanced | bench/pvr-vulkan/pvranimate.c:70-84 | the handler counts each completion for the buffer it belongs to, and never one more than was issued |
| PageFlipInvariant.TotalFlips | bench/pvr-vulkan/pvranimate.c:61-64 | counters that hold the flips of each buffer add up to the flips made |
| PageFlipTheorems.RenderSafe | bench/pvr-vulkan/pvranimate.c:704-778 | from frame 1 on, render_frame never draws into the buffer on screen or in flight, whatever the timing and the timeouts |
| PageFlipTheorems.RenderSafeIff | bench/pvr-vulkan/pvranimate.c:54-58 | that holds for all runs exactly when there are three buffers, or too few frames to reuse one |
| PageFlipTheorems.ScreenOrder | bench/pvr-vulkan/pvranimate.c:704-793 | the panel shows frames 0, 1, 2, ... in order with none skipped or repeated; a finished run misses at most the last, and none without a timeout |
| PageFlipTheorems.PendingIsSum | bench/pvr-vulkan/pvranimate.c:68-82 | flips_pending is the sum of issued minus completed, and counts exactly the flip in flight and the unread completions |
| PageFlipTheorems.HandlerGuardIdle | bench/pvr-vulkan/pvranimate.c:78-82 | the guards in the handler never hide an event |
| PageFlipTheorems.GateNeverBusy | bench/pvr-vulkan/pvranimate.c:735-751 | with PACE=gate and no timed-out poll the flip never meets EBUSY |
| PageFlipTheorems.GateDeathIsFault | bench/pvr-vulkan/pvranimate.c:735-764 | in that pacing only a failing call, not EBUSY, ends the program |
| PageFlipTheorems.SecondBusyIff | bench/pvr-vulkan/pvranimate.c:747-764 | after a first EBUSY a second one is possible without a timeout exactly when a completion was already unread |
| PageFlipTheorems.ReadUpToLastTurn | bench/pvr-vulkan/pvranimate.c:710-723 | past the wait for its buffer the program has read every flip up to one turn of the buffers ago |
| PageFlipTheorems.FatalIff | bench/pvr-vulkan/pvranimate.c:707-764 | some run dies without a timeout or a failing call exactly with retry pacing, three or more buffers and four or more frames |
| Presenter.Animator.PageFlipHandler | bench/pvr-vulkan/pvranimate.c:70-84 | one completion more for a buffer in range, nothing for another index, and the pending count down by one unless it is 0 |
| Presenter.Animator.DispatchEvents | bench/pvr-vulkan/pvranimate.c:714-718 | handling n events one by one has the effect of the specification's fold over the n oldest |
| Presenter.Animator.WaitForBuffer | bench/pvr-vulkan/pvranimate.c:710-723 | the wait ends with the buffer free, or after one unanswered poll, which it counts; every answered poll is followed by a read of at least one event, along a run of the machine |
| Presenter.Animator.RenderFrame | bench/pvr-vulkan/pvranimate.c:725-729 | the frame goes to its buffer with its phase, and the panel reads another buffer both when it starts and when it is done |
| Presenter.Animator.WaitAtGate | bench/pvr-vulkan/pvranimate.c:735-746 | with PACE=retry no poll; else the gate ends with nothing pending or after one unanswered poll, which it counts, and obeys every answered one |
| Presenter.Animator.DrmModePageFlip | bench/pvr-vulkan/pvranimate.c:65-67 | accepted only when no flip is in flight, EBUSY only when one is |
| Presenter.Animator.RetryFlip | bench/pvr-vulkan/pvranimate.c:749-762 | after EBUSY one poll, a read if it is answered, and one more attempt, accepted or fatal |
| Presenter.Animator.Flip | bench/pvr-vulkan/pvranimate.c:747-764 | one attempt, and exactly after EBUSY one poll and a second; a failing call is recorded only if one was made |
| Presenter.Animator.NextFrame | bench/pvr-vulkan/pvranimate.c:772-777 | the phase moves on by 4 within 64 and the frame by one |
| Presenter.Animator.DrainBuffer | bench/pvr-vulkan/pvranimate.c:780-792 | draining one buffer ends with its flips landed, or after one unanswered poll, which it counts, and obeys every answered one |
| Presenter.Animator.Present | bench/pvr-vulkan/pvranimate.c:702-793 | frames 0, 1, 2, ... are rendered once each and shown in order, all of them if every poll was answered; flip_timeouts is the number of unanswered polls, and a gated run without one dies only of a failing call |
| LitmusTheorems.WriterInOrder | emulation/bench/tsolitmus.c:64-76 | the writer's nested loops issue the pairs in order, each with its own value modulo 2^32 |
| LitmusTheorems.ExecOrdered | emulation/bench/tsolitmus.c:64-95 | under SC and TSO memory is always what a prefix of the writer's stores leaves, and the buffer is the rest |
| LitmusTheorems.FirstStoreVisible | emulation/bench/tsolitmus.c:24-26 | once b == v is visible in a slot, its a is at least v for the rest of the run |
| LitmusTheorems.CountedExactly | emulation/bench/tsolitmus.c:85-91 | in any memory the counters change only when the second load of b agrees with the first: one sample, one violation if a differs, one reordering if a is lower |
| LitmusTheorems.CountedSample | emulation/bench/tsolitmus.c:82-91 | without wrap-around, a step that counts a sample has a == b1 or a == b1 + SLOTS, the writer's next store |
| LitmusTheorems.CountersNested | emulation/bench/tsolitmus.c:87-91 | in any memory reordered <= violations <= samples |
| LitmusTheorems.ReorderedIff | emulation/bench/tsolitmus.c:64-95 | reordered is 0 in every SC or TSO run exactly when (passes + 1) * SLOTS <= 2^32 |
| LitmusTheorems.RunToEnd | emulation/bench/tsolitmus.c:64-106 | every SC or TSO run can be carried to the end of both threads, with no counter falling |
| LitmusTheorems.ViolationsIff | emulation/bench/tsolitmus.c:80-107 | the exit status of every finished SC or TSO run is 0 exactly when passes <= 1 |
| LitmusTheorems.WeakMemoryIff | emulation/bench/tsolitmus.c:46-52 | where only same-location stores stay in order, reordered can become positive exactly when there is a pass |
| LitmusRig.Rig.WriterThread | emulation/bench/tsolitmus.c:64-76 | whatever the others do in between, the two nested loops store p * 32768 + i modulo 2^32 to a and then b of slot i, pass by pass and slot by slot, each once, and writer_done last |
| LitmusRig.Rig.LookAt | emulation/bench/tsolitmus.c:82-92 | the slot loop's body, with others interfering before each of its three loads, counts what those loads call for |
| LitmusRig.Rig.Sweep | emulation/bench/tsolitmus.c:81-93 | one round of the slot loop looks at every slot once, in order |
| LitmusRig.Rig.Judge | emulation/bench/tsolitmus.c:85-91 | the second load of b discards the slot if it differs, and counts the sample if it agrees |
| LitmusRig.Rig.ReaderThread | emulation/bench/tsolitmus.c:78-95 | any number of whole sweeps is a run of the machine whose counters are those of its loads, and the thread stops only after seeing writer_done |
| LitmusRig.Rig.Detect | emulation/bench/tsolitmus.c:97-107 | reader and exit status beside any writer: the status is 0 exactly without a violation, the counters are nested and those of the loads, reordered is 0 without wrap-around and the status 0 up to one pass |
| BoostTheorems.FloorsShape | system/cpu-boost.py:142-197 | from any unboosted start, whatever writes fail: unboosted floors are a prefix at hw and the rest where they are down, boosted ones a prefix at mn and the rest at hw, the prefix being the furthest the unfinished attempts got, and down being mn, or until the first completed raise what start-up left |
| BoostTheorems.FlagIsTrue | system/cpu-boost.py:151-197 | without failures the controller is boosted exactly when all floors are at hw |
| BoostTheorems.HalfRaisedStaysUp | system/cpu-boost.py:187-195 | an unboosted controller changes no floor while there is no demand |
| BoostTheorems.QuietLowersIff | system/cpu-boost.py:142-195 | after any start-up and any run, a long enough quiet spell with successful writes brings every floor to mn exactly when it finds the controller boosted, or no raise half done on a policy with two frequencies and, if none was ever completed, no other floor that start-up failed to lower |
| BoostTheorems.QuietLowersInRunIff | system/cpu-boost.py:142-195 | the same within one run that is quiet from some window on |
| BoostTheorems.LeftUpForEver | system/cpu-boost.py:142-143 | a start-up write fails, and no sequence of quiet windows lowers that floor |
| BoostTheorems.HalfRaisedForEver | system/cpu-boost.py:182-184 | a reachable half-raised state whose first floor no sequence of quiet windows lowers |
| BoostTheorems.HalfReleasedStaysDown | system/cpu-boost.py:179-183 | a boosted controller changes no floor while demand lasts |
| BoostTheorems.DemandRaisesIff | system/cpu-boost.py:142-195 | after any start-up and any run, demand with successful writes brings every floor to hw exactly when it finds the controller not boosted or no release half done on a policy with two frequencies |
| BoostTheorems.HalfReleasedForEver | system/cpu-boost.py:189-192 | a reachable half-released state whose first floor no sequence of demand windows raises |
| BoostTheorems.CapHoldsIff | system/cpu-boost.py:122-195 | no run with cores in use of 0 or more takes a floor above --max-floor exactly when every minimum that start-up writes, or a release can write, and every floor that start-up fails to write are not above it |
| BoostTheorems.BoostCause | system/cpu-boost.py:171-185 | a window boosts exactly if the controller is not boosted, user load is at least boost-cores or system load at least sys-cores, and every write works |
| BoostTheorems.ReleaseCause | system/cpu-boost.py:171-192 | a window releases exactly if boosted, both loads are below their boost and their quiet thresholds, it is the drop_after-th such in a row, min_boost has passed and every write works |
| BoostTheorems.IdleCount | system/cpu-boost.py:179-197 | windows below both quiet thresholds and without load are counted, and any other or a release starts again |
| BoostTheorems.FloorCause | system/cpu-boost.py:179-191 | a floor goes up only under load, to hw, and down only in a quiet window of a boosted controller, to mn |
| BoostTheorems.LoadRaises | system/cpu-boost.py:179-185 | load over either boost threshold and working writes put every floor of an unboosted controller at hw in that window |
| BoostTheorems.BackgroundIgnored | system/cpu-boost.py:11-18 | at the default thresholds a core of background load raises nothing |
| BoostTheorems.ReleaseDiscipline | system/cpu-boost.py:179-195 | a release comes at least min_boost after its boost, and the last max(drop_after, 1) windows, all after that boost, were quiet |
| BoostTheorems.ReleasedBetween | system/cpu-boost.py:171-197 | boosts and releases alternate |
| BoostTheorems.BoostSpacing | system/cpu-boost.py:171-197 | two boosts are at least max(drop_after, 1) + 1 windows apart |
| BoostTheorems.BoundedRelease | system/cpu-boost.py:187-195 | after max(drop_after, ceil(min_boost / interval)) quiet windows with successful writes every floor is at mn |
| BoostTheorems.BoundedReleaseInRun | system/cpu-boost.py:155-195 | the same within any run from start-up in which all windows are quiet from some point on |
| BoostTheorems.ReleaseExactly | system/cpu-boost.py:187-195 | with windows exactly interval apart the release comes in that window and in no earlier one |
| Boost.Capped | system/cpu-boost.py:130-135 | without a cap nothing changes; with one no maximum is above it, a lower maximum stays, and minima stay |
| BoostController.Controller.constructor | system/cpu-boost.py:130-153 | start-up caps the maxima and lowers every floor whose write succeeds, leaving the others |
| BoostController.Controller.LowerEach | system/cpu-boost.py:40-44 | every floor is tried, a failure does not stop the others |
| BoostController.Controller.SetAll | system/cpu-boost.py:182-191 | the short-circuiting all() writes exactly the floors before the first failure |
| BoostController.Controller.Tick | system/cpu-boost.py:171-197 | one turn of the loop is the specified step, with user load held against boost-cores and drop-cores and system load against sys-cores and sys-quiet |
| BoostController.Controller.Run | system/cpu-boost.py:155-200 | any number of turns ends in the specified state, and from any unboosted start in the shape above |
| Jobs.CollectDrm | bench/pvr-vulkan/harness.py:88-96 | the first pass keeps the first start of each key and every signal |
| Jobs.PairEvents | bench/pvr-vulkan/harness.py:104-113 | the pending-table loop computes the specified fold |
| Report.ParseJobs | bench/pvr-vulkan/harness.py:86-114 | longest first and equal ones in the order found: the drm_sched jobs if some first start of a name has a signal not before it, and else the signals that end an enable |
| Report.ReportIsLogged | bench/pvr-vulkan/harness.py:307-350 | the first six of any report are its longest, so a stage that outlasts the frame is always logged, and a close pair exactly if neighbours among the six are close |
| JobsTheorems.DrmMeaning | bench/pvr-vulkan/harness.py:88-102 | for any trace, the branch reports exactly the first start of each name with its earliest signal not before it: last six characters and id, and the time between in milliseconds |
| JobsTheorems.DrmInOrder | bench/pvr-vulkan/harness.py:88-102 | in the order in which the names first start |
| Sorting.SortingSorts | bench/pvr-vulkan/harness.py:103-114 | the report holds the same jobs, longest first |
| Sorting.SortingIsStable | bench/pvr-vulkan/harness.py:103-114 | jobs of equal duration stay in the order they were found |
| JobsTheorems.KeysCollideIff | bench/pvr-vulkan/harness.py:92 | two starts get one key exactly when their ids agree and the last six characters of their entities do |
| JobsTheorems.PairingIff | bench/pvr-vulkan/harness.py:88-103 | with rising times per fence and distinct keys, the report lists exactly the completed jobs with their own signals if and only if no start lost its signal before a later job's |
| JobsTheorems.WrongSignalReported | bench/pvr-vulkan/harness.py:98-102 | a trace where a lost signal makes the report price the first job with the second one's signal, as 2000 ms |
| JobsTheorems.OnlyFirstOfKeyReported | bench/pvr-vulkan/harness.py:92-102 | with rising times, the report lists exactly the first starts of their keys that a signal follows, each priced by the next |
| JobsTheorems.CollidingStart | bench/pvr-vulkan/harness.py:92-93 | a completed start that is not the first of its key is reported only if the first has the same duration |
| JobsTheorems.CollisionUnreported | bench/pvr-vulkan/harness.py:92-93 | two entities that differ before their last six characters: no signal is lost and the second job is missing |
| JobsTheorems.AlternatingIsExact | bench/pvr-vulkan/harness.py:88-103 | strictly alternating events on every fence make the pairing exact, reused handles included |
| JobsTheorems.ReportedOnce | bench/pvr-vulkan/harness.py:92-102 | no job key is reported twice |
| JobsTheorems.LostSignals | bench/pvr-vulkan/harness.py:97-103 | dropping any signals removes or lengthens durations, and none is ever negative |
| Report.LostSignalsInReport | bench/pvr-vulkan/harness.py:97-103 | the same for the report of the drm_sched branch |
| JobsTheorems.FenceBranchMeaning | bench/pvr-vulkan/harness.py:104-113 | the pvr_fence branch reports, in order, each signal with the latest enable on its timeline since that timeline's previous signal |
| JobsTheorems.EndsOneToOne | bench/pvr-vulkan/harness.py:110-113 | no enable is used twice and no signal ends two |
| JobsTheorems.FenceDurations | bench/pvr-vulkan/harness.py:104-114 | on a time-ordered trace no duration is negative |
| Vetting.OnePercentNarrows | bench/pvr-vulkan/logcheck.py:25 | in floating point too, a pair that passes the 1% test still passes when the longer stage gets shorter, down to the other |
| Vetting.ScanMeaning | bench/pvr-vulkan/logcheck.py:22-27 | for any such test the adjacent scan of the descending list finds a pair exactly when some two stages pass it |
| Vetting.FirstClose | bench/pvr-vulkan/logcheck.py:24-27 | the loop stops at the first close neighbours |
| Vetting.BadReasons | bench/pvr-vulkan/logcheck.py:19-33 | one reason of each kind exactly when the record has such stages: two of its stages passing the computed 1% test, the pair with the longest shorter one, and its longest stage if that is above one and a half of its frames |
| Vetting.LoggedWasWarned | bench/pvr-vulkan/harness.py:307-350 | what is flagged from the first six jobs, before rounding, was warned about over all jobs |
| Vetting.LongestIsLogged | bench/pvr-vulkan/harness.py:345-350 | the too-long-stage signature survives the truncation |
| Vetting.ClosePairIsLoggedIff | bench/pvr-vulkan/harness.py:307 | a close pair survives the truncation exactly when neighbours among the first six are close |
| Vetting.SixHideTheSeventh | bench/pvr-vulkan/harness.py:307 | a breakdown the run warns about and the log's filter passes |
| StoredRecord.StoredVerdict | bench/pvr-vulkan/logcheck.py:25 | on stored thousandths h and l the computed test says 100 h < 101 l, except where the two are equal |
| StoredRecord.RoundingKeepsIff | bench/pvr-vulkan/harness.py:307 | for every rounding to nearest, the 1% verdict on pairs at least a inside or b outside the limit survives rounding to three digits exactly when a and b are above 0.001005 |
| StoredRecord.OnePercentFlagged | bench/pvr-vulkan/logcheck.py:25 | in doubles, stages of 1.111499 and 1.099501 ms are not close as measured and are flagged as stored |
| StoredRecord.StoredAsMeasured | bench/pvr-vulkan/harness.py:307 | away from both limits the filter says of the stored record what it would say of the first six jobs unrounded |
| StoredRecord.RoundingChangesVerdicts | bench/pvr-vulkan/harness.py:307 | two literal pairs within those margins, one made close and one parted by any rounding |
| Oracle.NearestAndNoTie | bench/pvr-vulkan/vkheavy.c:49-56 | the expected value is strictly within a half of scale * ((2x + 1) mod 128) / 128, for 255, 65535 and every odd scale |
| Oracle.AnyNearestRule | bench/pvr-vulkan/vkheavy.c:49-56 | so every round-to-nearest rule gives the same value |
| Oracle.IntegerForm | bench/pvr-vulkan/vkheavy.c:50 | the exact integer form of the oracle at every coordinate |
| Oracle.SixteenBitsDiffer | bench/pvr-vulkan/vkheavy.c:52-56 | the 16-bit value is 257 times the 8-bit one at no coordinate; 512 against 514 at 0 |
| Oracle.Ramp | bench/pvr-vulkan/vkheavy.c:50-56 | period 64 and strictly increasing within a period, in both widths |
| PixelTheorems.ShiftIff | bench/pvr-vulkan/vkheavy.c:932-979 | a translated image is right at a pixel exactly when the format cannot show the offset; with two ramps, when both offsets are multiples of 64 |
| PixelTheorems.FlipIff | bench/pvr-vulkan/vkheavy.c:955-979 | an upside-down image is wrong in every row exactly when its height is even |
| PixelTheorems.CheckShifted | bench/pvr-vulkan/vkheavy.c:910-990 | in every format, sample count and depth-clamp setting the check counts 0 wrong pixels of a shifted image if the shift is invisible, and otherwise every pixel it compares exactly |
| PixelTheorems.MultisampledVerdict | bench/pvr-vulkan/vkheavy.c:969-976 | with several samples only pixels with x + y < size - 3 reach the verdict |
| PixelTheorems.SpoiledIsCountedIff | bench/pvr-vulkan/vkheavy.c:969-990 | spoiling one right pixel raises the count by one exactly when it is compared exactly |
| PixelTheorems.HalfLeftOut | bench/pvr-vulkan/vkheavy.c:969-976 | with several samples (size - 3)(size - 2) / 2 pixels are compared exactly, at most half of them all |
| PixelTheorems.PhaseIsShift | bench/pvr-vulkan/pvranimate.c:99-104 | a whole-pixel phase is a shift of the coordinate |
| PixelTheorems.FramesLookAlike | bench/pvr-vulkan/pvranimate.c:775-777 | two presented frames look alike at a pixel exactly when their numbers differ by a multiple of 16 |
| Pixels.MatchesIff | bench/pvr-vulkan/vkheavy.c:932-978 | a pixel passes the comparison exactly when red is nearest to the ramp at x, green to the ramp at y, blue and alpha are 64 and 255, or it is the clear colour with depth clamp off; one- and two-channel formats by their channels, in their width |
| Pixels.ImplausibleIff | bench/pvr-vulkan/vkheavy.c:969-974 | a blend is bad exactly when a channel is more than a rounding above the full colour, or above 1 where that is black |
| Pixels.CheckImage | bench/pvr-vulkan/vkheavy.c:910-990 | bad is the number of compared pixels that are not right so, 0 exactly when all are, and (fx, fy) is the first in reading order; each edge pixel is counted once, and edge_bad is the number of implausible blends |
| Pixels.SubmitBatches | bench/pvr-vulkan/vkheavy.c:771-883 | the batch size is taken to 1..iters, and every iteration is submitted once, in full batches but for the last, ceil(iters / batch) of them |
| Pixels.PrintedBatchesIff | bench/pvr-vulkan/vkheavy.c:888-890 | the printed count, rounded half to even, is that number exactly when the last batch is full, more than half full, or half full after an odd number of full ones |
| Pixels.OneBatchUnreported | bench/pvr-vulkan/vkheavy.c:888-890 | nine frames in batches of four: three submits, two printed |
| Pixels.AveragedOverSubmitsIff | bench/pvr-vulkan/vkheavy.c:888-890 | the divisor of the submit and wait times is the number of submits exactly when batch divides iters |
| ReleaseTheorems.EndsOff | bench/pvr-vulkan/pvrscanout.c:171-219 | on every way out a switch-off was attempted, at most once per signal and once more, and the CRTC is off at the end exactly when one succeeded or nothing was shown |
| ReleaseTheorems.PollsBounded | bench/pvr-vulkan/pvrscanout.c:185-195 | the innermost release has made at most 50 confirm polls, all after the saved CRTC was cleared |
| ReleaseTheorems.SpentForGood | bench/pvr-vulkan/pvrscanout.c:171-184 | once the saved CRTC is cleared no later step changes the CRTC or tries again |
| ReleaseTheorems.ReleasedIsSpent | bench/pvr-vulkan/pvrscanout.c:926-932 | after main's own release that state is reached, before exec and before return |
| Scanout.Program.ArmCrtcRestore | bench/pvr-vulkan/pvrscanout.c:211-219 | arming saves the CRTC and changes nothing on screen |
| Scanout.Program.ReleaseDisplay | bench/pvr-vulkan/pvrscanout.c:171-197 | one release switches off once and polls as long as the CRTC is found and on, 1 to 50 times; it does nothing when already released |
| Scanout.Program.ReturnFromMain | bench/pvr-vulkan/pvrscanout.c:967-980 | the normal end makes one attempt, leaves the CRTC as it does, and exits with 0 exactly if the commit was confirmed |
| Scanout.Program.ReExecute | bench/pvr-vulkan/pvrscanout.c:917-933 | one attempt before exec; the image ends by exec if it works, and else exits with 1 without another attempt |
| Scanout.Program.HandleSignal | bench/pvr-vulkan/pvrscanout.c:205-209 | a signal at any line, also inside a release, ends the process with 128 and its number and the CRTC off if its attempt works or none was needed |
| Scanout.Program.ScanOut | bench/pvr-vulkan/pvrscanout.c:903-980 | main from arming to its end, on every path: one attempt, after which the CRTC is off if it worked and else keeps the last thing it was given, and the ending each path has |

## Left out

- Setup through Vulkan, DRM and GBM, shaders and allocation: foreign calls without logic of their own; the display keeps only flip, set-CRTC and events.
- A failing drmModeSetCrtc before the present loop in pvranimate (line 704): the process dies before the protocol starts.
- The phase self-test after the present loop of pvranimate (lines 809-851): it reuses buffer 0 and flips nothing.
- PageFlip.Step: a drmHandleEvent that consumes nothing, and a failing read, are not modelled; signals during the loop are, in Release.
- Litmus.Step: compiler and cache-line effects beyond the chosen memory, and fairness: the results are about safety, not about the reader finishing. `p * SLOTS + i` overflowing a 64-bit long needs more than 2^48 passes and is not modelled.
- LitmusRig.Rig.ReaderThread: a number of sweeps given from outside, since without fairness `while (!writer_done)` need not end; every finite beginning of a run is covered.
- LitmusTheorems.CountedSample: only without wrap-around; beyond 2^32 a value of b can come back and the double read no longer pins a.
- Boost.Window: how the cores in use follow from cgroup and /proc/stat samples; a window carries the two results. Writes that fail leave the old floor, and floats are reals.
- Jobs.Event: the regular expressions; a trace is a list of parsed records, with exact times.
- StoredRecord.Moderate: durations beyond 10^9 ms (eleven days), where the last bit of a double comes near a thousandth, and differences so small that doubles lose relative precision.
- Pixels.CheckImage: byte layout of the mapped buffer (pixels are records), the polygon-mode count of written pixels and the vertex-stage buffer check, which add only easy members. The reported "got" values are not modelled.
- The readback comparison in pvranimate's self-test and its frame_px sampling: the same oracle on fewer pixels.
- Release.Step: signals before arm_crtc_restore has finished, and what the re-executed process does.
- The copies of the oracle in vkalu.c and vkmul.c: the same code.
- Limit and feature probes, throughput figures, and the Mesa, kernel and FEX patches: answers of drivers or unit conversions.
