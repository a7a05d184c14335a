/**
 The control law of cpu-boost: raise every policy's frequency floor while there is
 demand, lower them again after the board has been quiet for long enough.

 One window carries what the loop body reads in one turn: the cores in use, the clock, and
 which floor writes would succeed.  Windows are arbitrary, so a statement about every
 sequence of windows covers every load and every pattern of failed writes.
 */
module Boost {
  datatype Policy = Policy(hw: int, mn: int)

  datatype Config = Config(policies: seq<Policy>, boostCores: real, dropCores: real,
                           sysBoost: real, sysQuiet: real, dropAfter: int, minBoost: real)

  datatype Window = Window(user: real, system: real, now: real, ok: seq<bool>)

  datatype State = State(floors: seq<int>, boosted: bool, idle: nat, boostedAt: real)

  function Maxima(cfg: Config): seq<int> {
    seq(|cfg.policies|, i requires 0 <= i < |cfg.policies| => cfg.policies[i].hw)
  }

  function Minima(cfg: Config): seq<int> {
    seq(|cfg.policies|, i requires 0 <= i < |cfg.policies| => cfg.policies[i].mn)
  }

  predicate Fits(cfg: Config, s: State) {
    |s.floors| == |cfg.policies|
  }

  /** One answer per policy. */
  predicate Answers(cfg: Config, w: Window) {
    |w.ok| == |cfg.policies|
  }

  predicate AllAnswer(cfg: Config, ws: seq<Window>) {
    forall k :: 0 <= k < |ws| ==> Answers(cfg, ws[k])
  }

  predicate Demand(cfg: Config, w: Window) {
    w.user >= cfg.boostCores || w.system >= cfg.sysBoost
  }

  /** The loop looks at quiet only when there is no demand. */
  predicate Quiet(cfg: Config, w: Window) {
    !Demand(cfg, w) && w.user < cfg.dropCores && w.system < cfg.sysQuiet
  }

  /** How many writes succeed before the first failure. */
  function Written(ok: seq<bool>): (k: nat)
    ensures k <= |ok| && (forall i :: 0 <= i < k ==> ok[i]) && (k < |ok| ==> !ok[k])
  {
    if ok == [] || !ok[0] then 0 else 1 + Written(ok[1..])
  }

  /** The first j floors from xs, the others from ys. */
  function Mix(xs: seq<int>, ys: seq<int>, j: nat): (r: seq<int>)
    requires j <= |xs| == |ys|
    ensures |r| == |xs|
  {
    xs[..j] + ys[j..]
  }

  function Raise(cfg: Config, s: State, w: Window): (r: State)
    requires Fits(cfg, s) && Answers(cfg, w)
    ensures Fits(cfg, r)
  {
    var k := Written(w.ok);
    var floors := Mix(Maxima(cfg), s.floors, k);
    if k == |cfg.policies| then s.(floors := floors, boosted := true, boostedAt := w.now)
    else s.(floors := floors)
  }

  function Release(cfg: Config, s: State, w: Window): (r: State)
    requires Fits(cfg, s) && Answers(cfg, w)
    ensures Fits(cfg, r)
  {
    var k := Written(w.ok);
    var floors := Mix(Minima(cfg), s.floors, k);
    if k == |cfg.policies| then s.(floors := floors, boosted := false, idle := 0)
    else s.(floors := floors)
  }

  predicate MayRelease(cfg: Config, s: State, w: Window) {
    s.idle + 1 >= cfg.dropAfter && s.boosted && w.now - s.boostedAt >= cfg.minBoost
  }

  function Step(cfg: Config, s: State, w: Window): (r: State)
    requires Fits(cfg, s) && Answers(cfg, w)
    ensures Fits(cfg, r)
  {
    if Demand(cfg, w) then
      if s.boosted then s.(idle := 0) else Raise(cfg, s.(idle := 0), w)
    else if Quiet(cfg, w) then
      var s1 := s.(idle := s.idle + 1);
      if MayRelease(cfg, s, w) then Release(cfg, s1, w) else s1
    else
      s.(idle := 0)
  }

  function After(cfg: Config, s: State, ws: seq<Window>): (r: State)
    requires Fits(cfg, s) && AllAnswer(cfg, ws)
    ensures Fits(cfg, r)
  {
    if ws == [] then s
    else Step(cfg, After(cfg, s, ws[..|ws| - 1]), ws[|ws| - 1])
  }

  /** Start-up writes every floor, and goes on after a failure. */
  function Start(cfg: Config, found: seq<int>, ok: seq<bool>): (r: State)
    requires |found| == |ok| == |cfg.policies|
    ensures Fits(cfg, r)
  {
    State(Lowered(cfg, found, ok), false, 0, 0.0)
  }

  function Lowered(cfg: Config, floors: seq<int>, ok: seq<bool>): (r: seq<int>)
    requires |floors| == |ok| == |cfg.policies|
    ensures |r| == |cfg.policies|
  {
    seq(|floors|, i requires 0 <= i < |floors| => if ok[i] then cfg.policies[i].mn else floors[i])
  }

  /** A successful start-up. */
  function Rested(cfg: Config): (r: State)
    ensures Fits(cfg, r)
  {
    State(Minima(cfg), false, 0, 0.0)
  }

  /** --max-floor: 0 means no cap. */
  function Capped(policies: seq<Policy>, maxFloor: int): (r: seq<Policy>)
    ensures |r| == |policies|
    ensures forall i :: 0 <= i < |r| ==> r[i].mn == policies[i].mn && r[i].hw in {policies[i].hw, maxFloor}
    ensures maxFloor != 0 ==> forall i :: 0 <= i < |r| ==> r[i].hw <= maxFloor
    ensures forall i :: 0 <= i < |r| && (maxFloor == 0 || policies[i].hw <= maxFloor) ==> r[i] == policies[i]
  {
    seq(|policies|, i requires 0 <= i < |policies| =>
      if maxFloor != 0 && policies[i].hw > maxFloor then policies[i].(hw := maxFloor) else policies[i])
  }
}
