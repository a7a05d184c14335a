/** cpu-boost as the daemon runs it: state updated in place, floors written one at a time. */
module BoostController {
  import opened Boost
  import opened BoostTheorems

  lemma MixNext(xs: seq<int>, ys: seq<int>, i: nat)
    requires i < |xs| == |ys|
    ensures Mix(xs, ys, i)[i := xs[i]] == Mix(xs, ys, i + 1)
  {
  }

  lemma WrittenNext(ok: seq<bool>, i: nat)
    requires i < |ok|
    ensures Written(ok[i..]) == if ok[i] then 1 + Written(ok[i + 1..]) else 0
  {
    assert ok[i..][1..] == ok[i + 1..];
  }

  class Controller {
    const cfg: Config
    var floors: seq<int>       // scaling_min_freq, policy by policy
    var boostedState: bool
    var idleCount: nat
    var boostedAt: real

    ghost function Abs(): State
      reads this
    {
      State(floors, boostedState, idleCount, boostedAt)
    }

    ghost predicate Valid()
      reads this
    {
      Fits(cfg, Abs())
    }

    /** Start-up: apply the cap, then try to lower every floor. */
    constructor (found: Config, maxFloor: int, present: seq<int>, ok: seq<bool>)
      requires |present| == |ok| == |found.policies|
      ensures Valid() && cfg == found.(policies := Capped(found.policies, maxFloor))
      ensures Abs() == Start(cfg, present, ok) && !boostedState && idleCount == 0
      ensures forall i :: 0 <= i < |ok| ==> floors[i] == if ok[i] then found.policies[i].mn else present[i]
      ensures (forall i :: 0 <= i < |ok| ==> ok[i]) ==> Abs() == Rested(cfg)
    {
      cfg := found.(policies := Capped(found.policies, maxFloor));
      floors := present;
      boostedState, idleCount, boostedAt := false, 0, 0.0;
      new;
      LowerEach(ok);
    }

    method SetFloor(i: nat, value: int, ok: bool) returns (done: bool)
      requires Valid() && i < |floors|
      modifies this`floors
      ensures Valid() && done == ok
      ensures floors == if ok then old(floors)[i := value] else old(floors)
    {
      if ok {
        floors := floors[i := value];
      }
      done := ok;
    }

    /** Every policy is tried; also what the SIGTERM handler does. */
    method LowerEach(ok: seq<bool>)
      requires Valid() && |ok| == |cfg.policies|
      modifies this`floors
      ensures Valid() && floors == Lowered(cfg, old(floors), ok)
      ensures forall i :: 0 <= i < |ok| ==> floors[i] == if ok[i] then cfg.policies[i].mn else old(floors)[i]
    {
      ghost var target := Lowered(cfg, floors, ok);
      for i := 0 to |floors|
        invariant Valid()
        invariant floors == Mix(target, old(floors), i)
      {
        MixNext(target, old(floors), i);
        var _ := SetFloor(i, cfg.policies[i].mn, ok[i]);
      }
      MixEnds(target, old(floors));
    }

    /** all(set_floor(p, value) for p in pols): stops at the first failure. */
    method SetAll(values: seq<int>, ok: seq<bool>) returns (all: bool)
      requires Valid() && |values| == |ok| == |cfg.policies|
      modifies this`floors
      ensures Valid() && floors == Mix(values, old(floors), Written(ok))
      ensures all <==> Written(ok) == |cfg.policies|
    {
      MixEnds(values, floors);
      assert ok[0..] == ok;
      for i := 0 to |floors|
        invariant Valid()
        invariant floors == Mix(values, old(floors), i)
        invariant Written(ok) == i + Written(ok[i..])
      {
        MixNext(values, old(floors), i);
        WrittenNext(ok, i);
        var done := SetFloor(i, values[i], ok[i]);
        if !done {
          return false;
        }
      }
      all := true;
    }

    /** One turn of the endless loop: user load is held against boostCores and dropCores,
        system load against sysBoost and sysQuiet. */
    method Tick(w: Window)
      requires Valid() && Answers(cfg, w)
      modifies this
      ensures Valid() && Abs() == Step(cfg, old(Abs()), w)
      ensures !old(boostedState) ==>
        (boostedState <==>
          (w.user >= cfg.boostCores || w.system >= cfg.sysBoost) && forall i :: 0 <= i < |w.ok| ==> w.ok[i])
      ensures old(boostedState) && !boostedState ==>
        && w.user < cfg.boostCores && w.system < cfg.sysBoost
        && w.user < cfg.dropCores && w.system < cfg.sysQuiet
        && w.now - old(boostedAt) >= cfg.minBoost
      ensures w.user < cfg.boostCores && w.system < cfg.sysBoost && !old(boostedState) ==> floors == old(floors)
      ensures w.user >= cfg.dropCores || w.system >= cfg.sysQuiet ==> idleCount == 0
    {
      BoostCause(cfg, Abs(), w);
      ReleaseCause(cfg, Abs(), w);
      IdleCount(cfg, Abs(), w);
      var demand := w.user >= cfg.boostCores || w.system >= cfg.sysBoost;
      var quiet := w.user < cfg.dropCores && w.system < cfg.sysQuiet;
      if demand {
        idleCount := 0;
        if !boostedState {
          var all := SetAll(Maxima(cfg), w.ok);
          if all {
            boostedState := true;
            boostedAt := w.now;
          }
        }
      } else if quiet {
        idleCount := idleCount + 1;
        if idleCount >= cfg.dropAfter && boostedState && w.now - boostedAt >= cfg.minBoost {
          var all := SetAll(Minima(cfg), w.ok);
          if all {
            boostedState := false;
            idleCount := 0;
          }
        }
      } else {
        idleCount := 0;
      }
    }

    /** Any number of turns after any start-up. */
    method Run(ws: seq<Window>)
      requires Valid() && AllAnswer(cfg, ws)
      modifies this
      ensures Valid() && Abs() == After(cfg, old(Abs()), ws)
      ensures !old(boostedState) ==>
        OnTheWay(cfg, Abs(), Down(cfg, old(Abs()), ws), Progress(cfg, old(Abs()), ws))
      ensures old(Abs()) == Rested(cfg) && NoFailures(ws) ==>
        floors == if boostedState then Maxima(cfg) else Minima(cfg)
    {
      for k := 0 to |ws|
        invariant Valid() && Abs() == After(cfg, old(Abs()), ws[..k])
      {
        assert ws[..k + 1][..k] == ws[..k];
        Tick(ws[k]);
      }
      assert ws[..|ws|] == ws;
      if !old(boostedState) {
        FloorsShape(cfg, old(Abs()), ws);
      }
      if NoFailures(ws) {
        FlagIsTrue(cfg, ws);
      }
    }
  }
}
