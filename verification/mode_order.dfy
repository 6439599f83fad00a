/**
 The order of a battery plan: the EMS mode changes only over setpoints that are already in
 place, except that leaving a forced mode for self-consumption changes it before anything else.
 */
module ModeOrder {
  import Wrappers
  import opened Registers
  import opened Devices
  import opened Planner
  import opened Execution
  import opened StepFacts
  import opened BatterySafety
  import opened Classifier

  /** Self-consumption is wanted, and another EMS mode is cached. */
  predicate LeavesFirst(d: Device, want: DesiredState) {
    want.mode == SelfConsumptionMode && d.cache[EmsModeReg] in {Mode(Compulsory), Mode(ExternalEms), Mode(Vpp)}
  }

  /** Selecting self-consumption when another mode is cached: done, unless it raised. */
  lemma SelfSelected(cfg: Config, p: Progress)
    requires p.error.None? && Faithful(p.rest) && LeavingForced(p.ctl.dev)
    ensures var q := DoStep(cfg, p, TO_SELF);
            && (q.error.None? ==> q.ctl.dev.wire[EmsModeReg] == EmsCode(SelfConsumption))
            && (forall r :: IsLimit(r) ==> q.ctl.dev.wire[r] == p.ctl.dev.wire[r])
  {
    DoStepCases(cfg, p, TO_SELF, EmsModeReg);
    if p.rest != [] { assert p.rest[0] in p.rest; }
  }

  /** The steps after the first one restore limits. */
  lemma LeavingPlanShape(cfg: Config, d: Device, want: DesiredState, k: nat)
    requires Plan(cfg, d, want).Ok? && 0 < k <= |Plan(cfg, d, want).value| && LeavesFirst(d, want)
    ensures var steps := Plan(cfg, d, want).value[..k];
            steps[0] == TO_SELF && AllPlain(steps[1..]) && Avoids(steps[1..], EmsModeReg)
  {
  }

  /** What follows a selected self-consumption keeps it selected. */
  lemma SelfStaysSelected(cfg: Config, p: Progress, rest: seq<Step>, r: Register)
    requires p.error.None? && Faithful(p.rest) && LeavingForced(p.ctl.dev) && IsLimit(r)
    requires AllPlain(rest) && Avoids(rest, EmsModeReg)
    ensures var w := DoSteps(cfg, DoStep(cfg, p, TO_SELF), rest).ctl.dev.wire;
            w[r] != p.ctl.dev.wire[r] ==> w[EmsModeReg] == EmsCode(SelfConsumption)
  {
    var q := DoStep(cfg, p, TO_SELF);
    SelfSelected(cfg, p);
    if q.error.Some? { ErrorEnds(cfg, q, rest); } else { StepsFrame(cfg, q, rest, EmsModeReg); }
  }

  /**
   Leaving a forced mode for self-consumption, cut anywhere and whatever fails: a limit has
   been restored only if the inverter is already in self-consumption.
   */
  lemma LeavingChangesModeFirst(cfg: Config, c: Control, want: DesiredState, xs: seq<Exchange>, k: nat, r: Register)
    requires Plan(cfg, c.dev, want).Ok? && k <= |Plan(cfg, c.dev, want).value| && LeavesFirst(c.dev, want)
    requires Faithful(xs) && IsLimit(r)
    ensures var w := AfterSteps(cfg, c, want, xs, k).ctl.dev.wire;
            w[r] != c.dev.wire[r] ==> w[EmsModeReg] == EmsCode(SelfConsumption)
  {
    if k > 0 {
      LeavingPlanShape(cfg, c.dev, want, k);
      SelfStaysSelected(cfg, Start(c, BatteryAction(want.mode), xs), Plan(cfg, c.dev, want).value[..k][1..], r);
    }
  }

  /** In every other plan the EMS mode is the last step, and nothing before it writes that register. */
  lemma ModeIsLast(cfg: Config, d: Device, want: DesiredState)
    requires Plan(cfg, d, want).Ok? && !LeavesFirst(d, want)
    ensures var steps := Plan(cfg, d, want).value;
            steps != [] && steps[|steps| - 1] == EmsStep(want.mode) && Avoids(steps[..|steps| - 1], EmsModeReg)
  {
  }

  lemma ReadyPrefix(d: Device, steps: seq<Step>, j: nat, r: Register)
    requires j <= |steps| && ReadyAt(d, steps, r)
    ensures ReadyAt(d, steps[..j], r)
  {
    forall i, h | 0 <= h < i < j && steps[..j][i].reg == r && steps[..j][h].reg == r
      ensures Overwrites(d, steps[..j][h], steps[..j][i])
    {
      assert Overwrites(d, steps[h], steps[i]);
    }
    assert forall s :: s in steps[..j] ==> s in steps;
  }

  lemma AvoidsPrefix(steps: seq<Step>, i: nat, j: nat, r: Register)
    requires i <= j <= |steps| && Avoids(steps[i..], r)
    ensures Avoids(steps[..j][i..], r)
  {
    forall s | s in steps[..j][i..] ensures s.reg != r {
      var h :| 0 <= h < j - i && steps[..j][i..][h] == s;
      assert steps[i..][h] == s;
    }
  }

  /** Everything before the EMS step, once it completed, holds its last steps. */
  lemma BeforeModeHolds(cfg: Config, c: Control, want: DesiredState, xs: seq<Exchange>, i: nat, s: Step)
    requires Plan(cfg, c.dev, want).Ok? && BatteryTruthful(c.dev) && Faithful(xs) && !LeavesFirst(c.dev, want)
    requires LastAt(Plan(cfg, c.dev, want).value, i, s) && s.reg != EmsModeReg
    requires var n := |Plan(cfg, c.dev, want).value|; n > 0 && AfterSteps(cfg, c, want, xs, n - 1).error.None?
    ensures Holds(s, AfterSteps(cfg, c, want, xs, |Plan(cfg, c.dev, want).value| - 1).ctl.dev.wire[s.reg])
  {
    var steps := Plan(cfg, c.dev, want).value;
    var n := |steps| - 1;
    ModeIsLast(cfg, c.dev, want);
    BatteryPlanWrites(cfg, c.dev, want);
    BatteryPlanIsReady(cfg, c.dev, want, s.reg);
    ReadyPrefix(c.dev, steps, n, s.reg);
    AvoidsPrefix(steps, i + 1, n, s.reg);
    assert steps[..n][i] == s;
    assert AllPlain(steps[..n]);
    LastStepsHold(cfg, Start(c, BatteryAction(want.mode), xs), steps[..n], i);
  }

  /** So the EMS step finds every setpoint in place. */
  lemma SetpointsBeforeMode(cfg: Config, c: Control, want: DesiredState, xs: seq<Exchange>)
    requires Plan(cfg, c.dev, want).Ok? && BatteryTruthful(c.dev) && Faithful(xs) && !LeavesFirst(c.dev, want)
    requires var n := |Plan(cfg, c.dev, want).value|; n > 0 && AfterSteps(cfg, c, want, xs, n - 1).error.None?
    ensures Limits(cfg).Ok?
    ensures SetpointsHold(cfg, want, Limits(cfg).value,
            AfterSteps(cfg, c, want, xs, |Plan(cfg, c.dev, want).value| - 1).ctl.dev.wire)
  {
    PlanNeedsLimits(cfg, c.dev, want);
    var full := Limits(cfg).value;
    var i := FindLimit(cfg, c.dev, want, MaxCharge);
    BeforeModeHolds(cfg, c, want, xs, i, LimitStep(cfg, want.mode, full, MaxCharge));
    i := FindLimit(cfg, c.dev, want, MaxDischarge);
    BeforeModeHolds(cfg, c, want, xs, i, LimitStep(cfg, want.mode, full, MaxDischarge));
    if IsForced(want.mode) {
      var power, command := FindForced(cfg, c.dev, want);
      BeforeModeHolds(cfg, c, want, xs, power, PowerStep(want.power.value));
      BeforeModeHolds(cfg, c, want, xs, command, CommandStep(want.mode));
    }
  }

  /** The EMS step changes no setpoint. */
  lemma ModeStepKeepsSetpoints(cfg: Config, p: Progress, want: DesiredState, full: int)
    requires p.error.None? && SetpointsHold(cfg, want, full, p.ctl.dev.wire)
    ensures SetpointsHold(cfg, want, full, DoSteps(cfg, p, [EmsStep(want.mode)]).ctl.dev.wire)
  {
    var s := EmsStep(want.mode);
    StepsFrame(cfg, p, [s], MaxCharge);
    StepsFrame(cfg, p, [s], MaxDischarge);
    StepsFrame(cfg, p, [s], ForcedPower);
    StepsFrame(cfg, p, [s], ChargeCommandReg);
  }

  /** The EMS step, wherever what precedes it ended: the word moves only over setpoints in place. */
  lemma ModeStepOver(cfg: Config, q: Progress, want: DesiredState, full: int)
    requires q.error.None? ==> SetpointsHold(cfg, want, full, q.ctl.dev.wire)
    ensures var w := DoSteps(cfg, q, [EmsStep(want.mode)]).ctl.dev.wire;
            w[EmsModeReg] == q.ctl.dev.wire[EmsModeReg] || SetpointsHold(cfg, want, full, w)
  {
    if q.error.Some? {
      ErrorEnds(cfg, q, [EmsStep(want.mode)]);
    } else {
      ModeStepKeepsSetpoints(cfg, q, want, full);
    }
  }

  /** The prefixes that stop before the EMS step leave the EMS word alone. */
  lemma ModeUntouchedBefore(cfg: Config, c: Control, want: DesiredState, xs: seq<Exchange>, k: nat)
    requires Plan(cfg, c.dev, want).Ok? && !LeavesFirst(c.dev, want) && k < |Plan(cfg, c.dev, want).value|
    ensures AfterSteps(cfg, c, want, xs, k).ctl.dev.wire[EmsModeReg] == c.dev.wire[EmsModeReg]
  {
    var steps := Plan(cfg, c.dev, want).value;
    ModeIsLast(cfg, c.dev, want);
    BatteryPlanWrites(cfg, c.dev, want);
    assert forall s :: s in steps[..k] ==> s in steps[..|steps| - 1];
    StepsFrame(cfg, Start(c, BatteryAction(want.mode), xs), steps[..k], EmsModeReg);
  }

  /** The whole plan is what precedes the EMS step, then the EMS step. */
  lemma ModeStepIsLast(cfg: Config, c: Control, want: DesiredState, xs: seq<Exchange>)
    requires Plan(cfg, c.dev, want).Ok? && !LeavesFirst(c.dev, want)
    ensures var n := |Plan(cfg, c.dev, want).value|;
            n > 0 && AfterSteps(cfg, c, want, xs, n)
                == DoSteps(cfg, AfterSteps(cfg, c, want, xs, n - 1), [EmsStep(want.mode)])
  {
    ModeIsLast(cfg, c.dev, want);
    LoopEndsWithLast(cfg, Start(c, BatteryAction(want.mode), xs), Plan(cfg, c.dev, want).value);
  }

  lemma LoopEndsWithLast(cfg: Config, p: Progress, steps: seq<Step>)
    requires steps != []
    ensures var n := |steps| - 1;
            DoSteps(cfg, p, steps[..n + 1]) == DoSteps(cfg, DoSteps(cfg, p, steps[..n]), [steps[n]])
  {
    var n := |steps| - 1;
    assert steps[..n + 1] == steps[..n] + [steps[n]];
    DoStepsAppend(cfg, p, steps[..n], [steps[n]]);
  }

  /** What precedes the EMS step ends with an error, or with every setpoint in place. */
  lemma BeforeMode(cfg: Config, c: Control, want: DesiredState, xs: seq<Exchange>, q: Progress)
    requires Plan(cfg, c.dev, want).Ok? && BatteryTruthful(c.dev) && Faithful(xs) && !LeavesFirst(c.dev, want)
    requires |Plan(cfg, c.dev, want).value| > 0 && q == AfterSteps(cfg, c, want, xs, |Plan(cfg, c.dev, want).value| - 1)
    ensures Limits(cfg).Ok?
    ensures q.error.None? ==> SetpointsHold(cfg, want, Limits(cfg).value, q.ctl.dev.wire)
  {
    PlanNeedsLimits(cfg, c.dev, want);
    if q.error.None? { SetpointsBeforeMode(cfg, c, want, xs); }
  }

  /** A whole plan, whatever fails. */
  lemma ModeChangesLastOfAll(cfg: Config, c: Control, want: DesiredState, xs: seq<Exchange>)
    requires Plan(cfg, c.dev, want).Ok? && !LeavesFirst(c.dev, want) && BatteryTruthful(c.dev) && Faithful(xs)
    ensures Limits(cfg).Ok?
    ensures var w := AfterSteps(cfg, c, want, xs, |Plan(cfg, c.dev, want).value|).ctl.dev.wire;
            w[EmsModeReg] == c.dev.wire[EmsModeReg] || SetpointsHold(cfg, want, Limits(cfg).value, w)
  {
    ModeStepIsLast(cfg, c, want, xs);
    ModeUntouchedBefore(cfg, c, want, xs, |Plan(cfg, c.dev, want).value| - 1);
    var q := AfterSteps(cfg, c, want, xs, |Plan(cfg, c.dev, want).value| - 1);
    BeforeMode(cfg, c, want, xs, q);
    ModeStepOver(cfg, q, want, Limits(cfg).value);
  }

  /**
   Every other plan, cut anywhere and whatever fails: the EMS word has changed only if both
   limits, and for a forced mode its power and command, are already in place. A partial
   failure leaves the previous mode, never a new mode over a stale setpoint.
   */
  lemma ModeChangesLast(cfg: Config, c: Control, want: DesiredState, xs: seq<Exchange>, k: nat)
    requires Plan(cfg, c.dev, want).Ok? && k <= |Plan(cfg, c.dev, want).value| && !LeavesFirst(c.dev, want)
    requires BatteryTruthful(c.dev) && Faithful(xs)
    ensures Limits(cfg).Ok?
    ensures var w := AfterSteps(cfg, c, want, xs, k).ctl.dev.wire;
            w[EmsModeReg] != c.dev.wire[EmsModeReg] ==> SetpointsHold(cfg, want, Limits(cfg).value, w)
  {
    ModeChangesLastOfAll(cfg, c, want, xs);
    if k < |Plan(cfg, c.dev, want).value| { ModeUntouchedBefore(cfg, c, want, xs, k); }
  }

  // -- the order of the limits ------------------------------------------------------------------------

  /** The limit a plan writes first: one that it does not fence, and of two alike the charge limit. */
  function FirstLimit(m: BatteryMode): Register { if m == NoCharge then MaxDischarge else MaxCharge }

  function SecondLimit(m: BatteryMode): Register { if m == NoCharge then MaxCharge else MaxDischarge }

  /** Where a plan writes its first limit: at once, or right after selecting self-consumption. */
  function FirstLimitAt(d: Device, want: DesiredState): nat { if LeavesFirst(d, want) then 1 else 0 }

  lemma LimitOrder(cfg: Config, d: Device, want: DesiredState)
    requires Plan(cfg, d, want).Ok?
    ensures Limits(cfg).Ok?
    ensures var steps, i := Plan(cfg, d, want).value, FirstLimitAt(d, want);
            && i < |steps| && steps[i] == LimitStep(cfg, want.mode, Limits(cfg).value, FirstLimit(want.mode))
            && (i == 1 ==> steps[0] == TO_SELF)
            && Avoids(steps[i + 1..], FirstLimit(want.mode))
  {
  }

  /** A limit step, and then anything that leaves its register alone. */
  lemma LimitThen(cfg: Config, p: Progress, s: Step, rest: seq<Step>, second: Register)
    requires p.error.None? && Faithful(p.rest) && Truthful(p.ctl.dev, s.reg) && !s.how.Within?
    requires IsLimit(s.reg) && IsLimit(second) && second != s.reg && AllPlain(rest) && Avoids(rest, s.reg)
    ensures var w := DoSteps(cfg, DoStep(cfg, p, s), rest).ctl.dev.wire;
            w[second] != p.ctl.dev.wire[second] ==> Holds(s, w[s.reg])
  {
    var q := DoStep(cfg, p, s);
    DoStepAt(cfg, p, s, second);
    if q.error.Some? {
      ErrorEnds(cfg, q, rest);
    } else {
      StepLands(cfg, p, s);
      StepsFrame(cfg, q, rest, s.reg);
    }
  }

  /** The same after self-consumption was selected. */
  lemma SelfThenLimit(cfg: Config, p: Progress, s: Step, rest: seq<Step>, second: Register)
    requires p.error.None? && Faithful(p.rest) && Truthful(p.ctl.dev, s.reg) && !s.how.Within?
    requires IsLimit(s.reg) && IsLimit(second) && second != s.reg && AllPlain(rest) && Avoids(rest, s.reg)
    ensures var w := DoSteps(cfg, DoStep(cfg, p, TO_SELF), [s] + rest).ctl.dev.wire;
            w[second] != p.ctl.dev.wire[second] ==> Holds(s, w[s.reg])
  {
    var q := DoStep(cfg, p, TO_SELF);
    SelfLeavesLimit(cfg, p, second);
    SelfLeavesLimit(cfg, p, s.reg);
    if q.error.Some? {
      ErrorEnds(cfg, q, [s] + rest);
    } else {
      LimitThen(cfg, q, s, rest, second);
      assert ([s] + rest)[0] == s && ([s] + rest)[1..] == rest;
    }
  }

  /** Selecting self-consumption leaves a limit register and what is known of it. */
  lemma SelfLeavesLimit(cfg: Config, p: Progress, r: Register)
    requires p.error.None? && Faithful(p.rest) && IsLimit(r)
    ensures var q := DoStep(cfg, p, TO_SELF);
            && q.ctl.dev.wire[r] == p.ctl.dev.wire[r] && Faithful(q.rest)
            && (Truthful(p.ctl.dev, r) ==> Truthful(q.ctl.dev, r))
  {
    DoStepAt(cfg, p, TO_SELF, r);
    DoStepCases(cfg, p, TO_SELF, r);
  }

  lemma LimitsInOrderSteps(cfg: Config, c: Control, want: DesiredState, xs: seq<Exchange>, k: nat)
    requires Plan(cfg, c.dev, want).Ok? && k <= |Plan(cfg, c.dev, want).value|
    requires BatteryTruthful(c.dev) && Faithful(xs)
    ensures Limits(cfg).Ok?
    ensures var w, first := AfterSteps(cfg, c, want, xs, k).ctl.dev.wire, FirstLimit(want.mode);
            w[SecondLimit(want.mode)] != c.dev.wire[SecondLimit(want.mode)] ==>
              Holds(LimitStep(cfg, want.mode, Limits(cfg).value, first), w[first])
  {
    var steps, i := Plan(cfg, c.dev, want).value, FirstLimitAt(c.dev, want);
    var p, second := Start(c, BatteryAction(want.mode), xs), SecondLimit(want.mode);
    LimitOrder(cfg, c.dev, want);
    BatteryPlanWrites(cfg, c.dev, want);
    var rest := steps[..k][if k <= i then k else i + 1..];
    assert AllPlain(rest) by { assert forall s :: s in rest ==> s in steps; }
    if k <= i {
      assert Avoids(steps[..k], second);
      StepsFrame(cfg, p, steps[..k], second);
    } else {
      AvoidsPrefix(steps, i + 1, k, steps[i].reg);
      if i == 0 {
        LimitThen(cfg, p, steps[0], rest, second);
      } else {
        assert steps[..k][1..] == [steps[1]] + rest;
        SelfThenLimit(cfg, p, steps[1], rest, second);
      }
    }
  }

  /**
   Every plan, cut anywhere and whatever fails, moves its limits one after the other: the one it
   writes second has changed only if the first is in place. A mode that fences one limit restores
   the other one first.
   */
  lemma LimitsMoveInOrder(cfg: Config, c: Control, want: DesiredState, xs: seq<Exchange>, k: nat)
    requires Plan(cfg, c.dev, want).Ok? && k <= |Plan(cfg, c.dev, want).value|
    requires BatteryTruthful(c.dev) && Faithful(xs)
    ensures var w, first := AfterSteps(cfg, c, want, xs, k).ctl.dev.wire, FirstLimit(want.mode);
            w[SecondLimit(want.mode)] != c.dev.wire[SecondLimit(want.mode)] ==>
              if want.mode == Hold then 10 * (w[first] as int) <= cfg.fence
              else cfg.full == Wrappers.Some(10 * (w[first] as int))
  {
    var first := FirstLimit(want.mode);
    LimitsInOrderSteps(cfg, c, want, xs, k);
    PlanNeedsLimits(cfg, c.dev, want);
    var w := AfterSteps(cfg, c, want, xs, k).ctl.dev.wire;
    if w[SecondLimit(want.mode)] != c.dev.wire[SecondLimit(want.mode)] {
      LimitWord(cfg, want.mode, Limits(cfg).value, first, w[first]);
    }
  }
}
