/**
 No prefix of any battery plan runs a forced mode with a pair of command and power other
 than the untouched one it started with or exactly the requested one.
 */
module ForcedDirection {
  import opened Registers
  import Devices
  import opened Planner
  import opened Execution
  import opened StepFacts
  import opened BatterySafety

  /** The inverter is forcing the battery one way or the other. */
  predicate Forcing(w: Wire) {
    w[EmsModeReg] == EmsCode(Compulsory) && w[ChargeCommandReg] in {CommandCode(Charge), CommandCode(Discharge)}
  }

  /** The pair was there at the start, and the inverter was already in compulsory mode. */
  predicate Inherited(start: Wire, w: Wire) {
    && start[EmsModeReg] == EmsCode(Compulsory)
    && w[ChargeCommandReg] == start[ChargeCommandReg] && w[ForcedPower] == start[ForcedPower]
  }

  predicate Requested(want: DesiredState, w: Wire) {
    && IsForced(want.mode) && want.power.Some?
    && w[ChargeCommandReg] == CommandCode(CommandFor(want.mode))
    && w[ForcedPower] as int == want.power.value
  }

  predicate Safe(start: Wire, want: DesiredState, w: Wire) {
    Forcing(w) ==> Inherited(start, w) || Requested(want, w)
  }

  /** In compulsory mode the command is the wanted one or STOP. */
  predicate DirectionSettled(want: DesiredState, w: Wire) {
    w[EmsModeReg] == EmsCode(Compulsory) ==>
      w[ChargeCommandReg] == CommandCode(CommandFor(want.mode)) || w[ChargeCommandReg] == CommandCode(Stop)
  }

  /** The skip test cannot drop the command: it is cached truthfully, or its cached value is another one. */
  predicate CommandSeen(want: DesiredState, d: Devices.Device) {
    Truthful(d, ChargeCommandReg) || !Satisfied(CommandStep(want.mode), d.cache[ChargeCommandReg])
  }

  /** The last step: command and power are already the requested ones. */
  lemma EmsTail(cfg: Config, p: Progress, want: DesiredState, steps: seq<Step>)
    requires steps <= [TO_COMPULSORY] && Requested(want, p.ctl.dev.wire)
    ensures Requested(want, DoSteps(cfg, p, steps).ctl.dev.wire)
  {
    StepsFrame(cfg, p, steps, ChargeCommandReg);
    StepsFrame(cfg, p, steps, ForcedPower);
  }

  lemma CommandWritten(cfg: Config, p: Progress, want: DesiredState)
    requires p.error.None? && CommandSeen(want, p.ctl.dev) && Faithful(p.rest)
    ensures var q := DoStep(cfg, p, CommandStep(want.mode));
            && (q.error.None? ==> q.ctl.dev.wire[ChargeCommandReg] == CommandCode(CommandFor(want.mode)))
            && (q.ctl.dev.wire[ChargeCommandReg] == p.ctl.dev.wire[ChargeCommandReg]
                || q.ctl.dev.wire[ChargeCommandReg] == CommandCode(CommandFor(want.mode)))
  {
    var s := CommandStep(want.mode);
    DoStepCases(cfg, p, s, ChargeCommandReg);
    SameOnWireIsSameWord(ChargeCommandReg, p.ctl.dev.wire[ChargeCommandReg], s.target);
    if p.rest != [] { assert p.rest[0] in p.rest; }
  }

  /** From the command on: the power is already the requested one. */
  lemma CommandTail(cfg: Config, p: Progress, want: DesiredState, steps: seq<Step>)
    requires IsForced(want.mode) && want.power.Some? && steps <= [CommandStep(want.mode), TO_COMPULSORY]
    requires p.ctl.dev.wire[ForcedPower] as int == want.power.value
    requires DirectionSettled(want, p.ctl.dev.wire) && CommandSeen(want, p.ctl.dev) && Faithful(p.rest)
    ensures var w := DoSteps(cfg, p, steps).ctl.dev.wire;
            Forcing(w) ==> Requested(want, w)
  {
    if steps != [] && p.error.None? {
      var q := DoStep(cfg, p, steps[0]);
      DoStepAt(cfg, p, steps[0], ForcedPower);
      DoStepAt(cfg, p, steps[0], EmsModeReg);
      CommandWritten(cfg, p, want);
      if q.error.Some? { ErrorEnds(cfg, q, steps[1..]); } else { EmsTail(cfg, q, want, steps[1..]); }
    }
  }

  lemma PowerWritten(cfg: Config, p: Progress, power: int)
    requires p.error.None? && Truthful(p.ctl.dev, ForcedPower) && Faithful(p.rest)
    ensures var q := DoStep(cfg, p, PowerStep(power));
            && (q.error.None? ==> q.ctl.dev.wire[ForcedPower] as int == power)
            && (q.ctl.dev.wire[ForcedPower] == p.ctl.dev.wire[ForcedPower]
                 || q.ctl.dev.wire[ForcedPower] as int == power)
  {
    var s := PowerStep(power);
    DoStepCases(cfg, p, s, ForcedPower);
    SameOnWireIsSameWord(ForcedPower, p.ctl.dev.wire[ForcedPower], s.target);
    if p.rest != [] { assert p.rest[0] in p.rest; }
  }

  /** A step on another register keeps what the skip test will see of the command. */
  lemma CommandStaysSeen(cfg: Config, p: Progress, want: DesiredState, s: Step)
    requires Plain(s.reg) && s.reg != ChargeCommandReg && p.error.None? && CommandSeen(want, p.ctl.dev)
    ensures CommandSeen(want, DoStep(cfg, p, s).ctl.dev)
  {
    DoStepAt(cfg, p, s, ChargeCommandReg);
  }

  /** From the power on: in compulsory mode the direction is already the wanted one or stopped. */
  lemma PowerTail(cfg: Config, p: Progress, want: DesiredState, start: Wire, steps: seq<Step>)
    requires IsForced(want.mode) && want.power.Some? && steps <= ForcedTail(want.mode, want.power.value, false)
    requires Safe(start, want, p.ctl.dev.wire) && Truthful(p.ctl.dev, ForcedPower)
    requires DirectionSettled(want, p.ctl.dev.wire) && CommandSeen(want, p.ctl.dev) && Faithful(p.rest)
    ensures Safe(start, want, DoSteps(cfg, p, steps).ctl.dev.wire)
  {
    if steps != [] && p.error.None? {
      var q := DoStep(cfg, p, steps[0]);
      assert steps[0] == PowerStep(want.power.value);
      PowerStepSafe(cfg, p, want, start);
      if q.error.Some? { ErrorEnds(cfg, q, steps[1..]); } else { CommandTail(cfg, q, want, steps[1..]); }
    }
  }

  /** The power step: safe where it fails, and otherwise ready for the command. */
  lemma PowerStepSafe(cfg: Config, p: Progress, want: DesiredState, start: Wire)
    requires IsForced(want.mode) && want.power.Some? && p.error.None?
    requires Safe(start, want, p.ctl.dev.wire) && Truthful(p.ctl.dev, ForcedPower)
    requires DirectionSettled(want, p.ctl.dev.wire) && CommandSeen(want, p.ctl.dev) && Faithful(p.rest)
    ensures var q := DoStep(cfg, p, PowerStep(want.power.value));
            && Safe(start, want, q.ctl.dev.wire) && DirectionSettled(want, q.ctl.dev.wire)
            && CommandSeen(want, q.ctl.dev) && Faithful(q.rest)
            && (q.error.None? ==> q.ctl.dev.wire[ForcedPower] as int == want.power.value)
  {
    var s := PowerStep(want.power.value);
    DoStepAt(cfg, p, s, ChargeCommandReg);
    DoStepAt(cfg, p, s, EmsModeReg);
    PowerWritten(cfg, p, want.power.value);
    CommandStaysSeen(cfg, p, want, s);
  }

  /** The STOP that precedes a reversal. */
  lemma StopWritten(cfg: Config, p: Progress, want: DesiredState)
    requires IsForced(want.mode) && p.error.None? && Truthful(p.ctl.dev, ChargeCommandReg) && Faithful(p.rest)
    requires p.ctl.dev.cache[ChargeCommandReg] != Command(CommandFor(want.mode))
    ensures var q := DoStep(cfg, p, STOP_FIRST);
            && (q.error.None? ==> q.ctl.dev.wire[ChargeCommandReg] == CommandCode(Stop) && CommandSeen(want, q.ctl.dev))
            && (q.ctl.dev.wire[ChargeCommandReg] == p.ctl.dev.wire[ChargeCommandReg]
                || q.ctl.dev.wire[ChargeCommandReg] == CommandCode(Stop))
  {
    DoStepCases(cfg, p, STOP_FIRST, ChargeCommandReg);
    SameOnWireIsSameWord(ChargeCommandReg, p.ctl.dev.wire[ChargeCommandReg], Command(Stop));
    if p.rest != [] { assert p.rest[0] in p.rest; }
  }

  /** From a reversal on. */
  lemma StopTail(cfg: Config, p: Progress, want: DesiredState, start: Wire, steps: seq<Step>)
    requires IsForced(want.mode) && want.power.Some? && steps <= ForcedTail(want.mode, want.power.value, true)
    requires Safe(start, want, p.ctl.dev.wire) && Faithful(p.rest)
    requires Truthful(p.ctl.dev, ForcedPower) && Truthful(p.ctl.dev, ChargeCommandReg)
    requires p.ctl.dev.cache[ChargeCommandReg] != Command(CommandFor(want.mode))
    ensures Safe(start, want, DoSteps(cfg, p, steps).ctl.dev.wire)
  {
    if steps != [] && p.error.None? {
      var q := DoStep(cfg, p, steps[0]);
      assert steps[0] == STOP_FIRST;
      DoStepAt(cfg, p, steps[0], ForcedPower);
      DoStepAt(cfg, p, steps[0], EmsModeReg);
      StopWritten(cfg, p, want);
      if q.error.Some? { ErrorEnds(cfg, q, steps[1..]); } else { PowerTail(cfg, q, want, start, steps[1..]); }
    }
  }

  /** The limit steps come first and touch none of the three forcing registers. */
  lemma RestorePrefix(cfg: Config, p: Progress, steps: seq<Step>)
    requires AllPlain(steps) && forall s :: s in steps ==> IsLimit(s.reg)
    requires Truthful(p.ctl.dev, EmsModeReg) && Truthful(p.ctl.dev, ChargeCommandReg)
    requires Truthful(p.ctl.dev, ForcedPower)
    ensures var q := DoSteps(cfg, p, steps);
            && q.ctl.dev.wire[EmsModeReg] == p.ctl.dev.wire[EmsModeReg]
               && q.ctl.dev.wire[ForcedPower] == p.ctl.dev.wire[ForcedPower]
            && q.ctl.dev.wire[ChargeCommandReg] == p.ctl.dev.wire[ChargeCommandReg]
            && Truthful(q.ctl.dev, ChargeCommandReg) && Truthful(q.ctl.dev, ForcedPower)
            && (Faithful(p.rest) ==> Faithful(q.rest))
  {
    StepsFrame(cfg, p, steps, EmsModeReg);
    StepsFrame(cfg, p, steps, ChargeCommandReg);
    StepsFrame(cfg, p, steps, ForcedPower);
  }

  /** A prefix of a concatenation is a prefix of the first part, or all of it and a prefix of the second. */
  lemma CutAppend(s: seq<Step>, t: seq<Step>, k: nat) returns (a: seq<Step>, b: seq<Step>)
    requires k <= |s| + |t|
    ensures (s + t)[..k] == a + b && a <= s && b <= t
  {
    var cut := if k <= |s| then k else |s|;
    a, b := s[..cut], t[..k - cut];
  }

  lemma RestoreIsPlain(full: int, a: seq<Step>)
    requires a <= BothRestored(full)
    ensures AllPlain(a) && forall s :: s in a ==> IsLimit(s.reg)
  {
    assert forall s :: s in a ==> s in BothRestored(full);
  }

  /** Some of the restored limits, then some of what follows them. */
  lemma ForcedPartsSafe(cfg: Config, p: Progress, want: DesiredState, full: int, a: seq<Step>, b: seq<Step>)
    requires IsForced(want.mode) && want.power.Some? && BatteryTruthful(p.ctl.dev) && Faithful(p.rest)
    requires a <= BothRestored(full) && b <= ForcedTail(want.mode, want.power.value, Reversing(p.ctl.dev, want.mode))
    ensures Safe(p.ctl.dev.wire, want, DoSteps(cfg, p, a + b).ctl.dev.wire)
  {
    RestoreIsPlain(full, a);
    DoStepsAppend(cfg, p, a, b);
    RestorePrefix(cfg, p, a);
    AfterRestoreSafe(cfg, p, DoSteps(cfg, p, a), want, a, b);
  }

  lemma AfterRestoreSafe(cfg: Config, p: Progress, q: Progress, want: DesiredState, a: seq<Step>, b: seq<Step>)
    requires IsForced(want.mode) && want.power.Some? && BatteryTruthful(p.ctl.dev) && Faithful(q.rest)
    requires b <= ForcedTail(want.mode, want.power.value, Reversing(p.ctl.dev, want.mode))
    requires q == DoSteps(cfg, p, a)
    requires AllPlain(a) && forall s :: s in a ==> IsLimit(s.reg)
    ensures Safe(p.ctl.dev.wire, want, DoSteps(cfg, q, b).ctl.dev.wire)
  {
    RestorePrefix(cfg, p, a);
    if Reversing(p.ctl.dev, want.mode) {
      RestoreKeepsCommand(cfg, p, a);
      StopTail(cfg, q, want, p.ctl.dev.wire, b);
    } else {
      PowerTail(cfg, q, want, p.ctl.dev.wire, b);
    }
  }

  /** A truthful command field reads the same after the limit steps. */
  lemma RestoreKeepsCommand(cfg: Config, p: Progress, steps: seq<Step>)
    requires AllPlain(steps) && forall s :: s in steps ==> IsLimit(s.reg)
    requires Truthful(p.ctl.dev, EmsModeReg) && Truthful(p.ctl.dev, ChargeCommandReg)
    requires Truthful(p.ctl.dev, ForcedPower)
    ensures DoSteps(cfg, p, steps).ctl.dev.cache[ChargeCommandReg] == p.ctl.dev.cache[ChargeCommandReg]
  {
    RestorePrefix(cfg, p, steps);
  }

  /** A forced plan, cut anywhere. */
  lemma ForcedPlanSafe(cfg: Config, c: Control, want: DesiredState, xs: seq<Devices.Exchange>, k: nat)
    requires IsForced(want.mode) && Plan(cfg, c.dev, want).Ok? && k <= |Plan(cfg, c.dev, want).value|
    requires BatteryTruthful(c.dev) && Faithful(xs)
    ensures Safe(c.dev.wire, want, AfterSteps(cfg, c, want, xs, k).ctl.dev.wire)
  {
    var full, tail := Limits(cfg).value, ForcedTail(want.mode, want.power.value, Reversing(c.dev, want.mode));
    var a, b := CutAppend(BothRestored(full), tail, k);
    ForcedPartsSafe(cfg, Start(c, BatteryAction(want.mode), xs), want, full, a, b);
  }

  /** The steps of the other plans: they write no command and no power, and the EMS mode only to self-consumption. */
  lemma {:induction false} OtherPlanSafe(cfg: Config, p: Progress, steps: seq<Step>)
    requires AllPlain(steps)
    requires forall s :: s in steps ==> s == TO_SELF || IsLimit(s.reg)
    ensures var w, w1 := p.ctl.dev.wire, DoSteps(cfg, p, steps).ctl.dev.wire;
            && w1[ChargeCommandReg] == w[ChargeCommandReg] && w1[ForcedPower] == w[ForcedPower]
            && (w1[EmsModeReg] == w[EmsModeReg] || w1[EmsModeReg] == EmsCode(SelfConsumption))
    decreases |steps|
  {
    if steps != [] && p.error.None? {
      assert steps[0] in steps;
      DoStepAt(cfg, p, steps[0], ChargeCommandReg);
      DoStepAt(cfg, p, steps[0], ForcedPower);
      DoStepAt(cfg, p, steps[0], EmsModeReg);
      OtherPlanSafe(cfg, DoStep(cfg, p, steps[0]), steps[1..]);
    }
  }

  /**
   From any start with a truthful cache, for any desired mode, wherever the plan stops and
   whether or not a failed write landed: a forced battery runs the pair it already ran, or
   exactly the requested one. The old direction never runs at the new magnitude.
   */
  lemma NoPrefixForcesTheWrongPair(cfg: Config, c: Control, want: DesiredState, xs: seq<Devices.Exchange>, k: nat)
    requires Plan(cfg, c.dev, want).Ok? && k <= |Plan(cfg, c.dev, want).value|
    requires BatteryTruthful(c.dev) && Faithful(xs)
    ensures Safe(c.dev.wire, want, AfterSteps(cfg, c, want, xs, k).ctl.dev.wire)
  {
    if IsForced(want.mode) {
      ForcedPlanSafe(cfg, c, want, xs, k);
    } else {
      OtherPlanSafe(cfg, Start(c, BatteryAction(want.mode), xs), Plan(cfg, c.dev, want).value[..k]);
    }
  }
}
