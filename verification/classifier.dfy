/** Planner and classifier undo each other, and a verified call leaves nothing for its repetition. */
module Classifier {
  import opened Wrappers
  import opened Registers
  import opened Devices
  import opened Planner
  import opened Execution
  import opened StepFacts
  import opened BatterySafety

  /** The step's own word is in the register, or one that its fence accepts. */
  predicate Holds(s: Step, w: Word) {
    Encode(s.reg, s.target) == Some(w) || (s.how == AtOrBelow && Satisfied(s, Decode(s.reg, w)))
  }

  lemma StepLands(cfg: Config, p: Progress, s: Step)
    requires Plain(s.reg) && !s.how.Within? && Faithful(p.rest) && p.error.None?
    requires Truthful(p.ctl.dev, s.reg) || !Satisfied(s, p.ctl.dev.cache[s.reg])
    requires DoStep(cfg, p, s).error.None?
    ensures Holds(s, DoStep(cfg, p, s).ctl.dev.wire[s.reg])
  {
    DoStepCases(cfg, p, s, s.reg);
    SameOnWireIsSameWord(s.reg, p.ctl.dev.wire[s.reg], s.target);
    if p.rest != [] { assert p.rest[0] in p.rest; }
  }

  /** A step that nothing after it undoes. */
  lemma FirstStepHolds(cfg: Config, p: Progress, steps: seq<Step>)
    requires steps != [] && Avoids(steps[1..], steps[0].reg)
    requires p.error.None? && AllPlain(steps) && ReadyAt(p.ctl.dev, steps, steps[0].reg) && Faithful(p.rest)
    requires DoStep(cfg, p, steps[0]).error.None?
    ensures Holds(steps[0], DoSteps(cfg, p, steps).ctl.dev.wire[steps[0].reg])
  {
    assert steps[0] in steps;
    StepLands(cfg, p, steps[0]);
    StepsFrame(cfg, DoStep(cfg, p, steps[0]), steps[1..], steps[0].reg);
  }

  /** After a completed run, the last step of each register holds. */
  lemma {:induction false} LastStepsHold(cfg: Config, p: Progress, steps: seq<Step>, i: nat)
    requires i < |steps| && Avoids(steps[i + 1..], steps[i].reg)
    requires p.error.None? && AllPlain(steps) && ReadyAt(p.ctl.dev, steps, steps[i].reg) && Faithful(p.rest)
    requires DoSteps(cfg, p, steps).error.None?
    ensures Holds(steps[i], DoSteps(cfg, p, steps).ctl.dev.wire[steps[i].reg])
    decreases i
  {
    var p1 := DoStep(cfg, p, steps[0]);
    if p1.error.Some? { ErrorEnds(cfg, p1, steps[1..]); }
    if i == 0 {
      FirstStepHolds(cfg, p, steps);
    } else {
      OneStepOn(cfg, p, steps, steps[i].reg);
      assert steps[1..][i..] == steps[i + 1..];
      LastStepsHold(cfg, p1, steps[1..], i - 1);
    }
  }

  /** What the rest of a loop starts from. */
  lemma OneStepOn(cfg: Config, p: Progress, steps: seq<Step>, r: Register)
    requires steps != [] && p.error.None? && AllPlain(steps) && ReadyAt(p.ctl.dev, steps, r) && Faithful(p.rest)
    ensures var p1 := DoStep(cfg, p, steps[0]);
            AllPlain(steps[1..]) && ReadyAt(p1.ctl.dev, steps[1..], r) && Faithful(p1.rest)
  {
    assert steps[0] in steps;
    DoStepAt(cfg, p, steps[0], r);
    ReadyAfterStep(cfg, p, steps, r);
  }

  // -- where each target sits in a plan ------------------------------------------------------

  /** The step a plan makes for a limit register. */
  function LimitStep(cfg: Config, m: BatteryMode, full: int, r: Register): Step {
    if FencedBy(m, r) then Fence(cfg, r) else Restore(r, full)
  }

  /** The step a plan makes last for the EMS mode. */
  function EmsStep(m: BatteryMode): Step { if IsForced(m) then TO_COMPULSORY else TO_SELF }

  /** `s` is in the plan, and nothing after it writes its register. */
  ghost predicate LastAt(steps: seq<Step>, i: nat, s: Step) {
    i < |steps| && steps[i] == s && Avoids(steps[i + 1..], s.reg)
  }

  lemma FindLimit(cfg: Config, d: Device, want: DesiredState, r: Register) returns (i: nat)
    requires Plan(cfg, d, want).Ok? && IsLimit(r)
    ensures LastAt(Plan(cfg, d, want).value, i, LimitStep(cfg, want.mode, Limits(cfg).value, r))
  {
    var s := LimitStep(cfg, want.mode, Limits(cfg).value, r);
    var steps := Plan(cfg, d, want).value;
    i := if steps[0] == s then 0 else if steps[1] == s then 1 else 2;
  }

  lemma FindEms(cfg: Config, d: Device, want: DesiredState) returns (i: nat)
    requires Plan(cfg, d, want).Ok?
    ensures LastAt(Plan(cfg, d, want).value, i, EmsStep(want.mode))
  {
    var steps := Plan(cfg, d, want).value;
    i := if want.mode == SelfConsumptionMode && LeavingForced(d) then 0 else |steps| - 1;
  }

  lemma FindForced(cfg: Config, d: Device, want: DesiredState) returns (power: nat, command: nat)
    requires Plan(cfg, d, want).Ok? && IsForced(want.mode)
    ensures LastAt(Plan(cfg, d, want).value, power, PowerStep(want.power.value))
    ensures LastAt(Plan(cfg, d, want).value, command, CommandStep(want.mode))
  {
    var steps := Plan(cfg, d, want).value;
    power, command := |steps| - 3, |steps| - 2;
  }

  /** The last step of every planned register but the EMS mode holds. */
  ghost predicate SetpointsHold(cfg: Config, want: DesiredState, full: int, w: Wire) {
    && Holds(LimitStep(cfg, want.mode, full, MaxCharge), w[MaxCharge])
    && Holds(LimitStep(cfg, want.mode, full, MaxDischarge), w[MaxDischarge])
    && (IsForced(want.mode) ==> want.power.Some? && Holds(PowerStep(want.power.value), w[ForcedPower])
                                && Holds(CommandStep(want.mode), w[ChargeCommandReg]))
  }

  /** What a completed `apply` leaves: the last step of every planned register holds. */
  ghost predicate Completed(cfg: Config, want: DesiredState, full: int, w: Wire) {
    SetpointsHold(cfg, want, full, w) && Holds(EmsStep(want.mode), w[EmsModeReg])
  }

  lemma AppliedHolds(cfg: Config, c: Control, want: DesiredState, xs: seq<Exchange>, i: nat, s: Step)
    requires Plan(cfg, c.dev, want).Ok? && BatteryTruthful(c.dev) && Faithful(xs)
    requires Applied(cfg, c, want, xs).error.None? && LastAt(Plan(cfg, c.dev, want).value, i, s)
    ensures Holds(s, Applied(cfg, c, want, xs).ctl.dev.wire[s.reg])
  {
    BatteryPlanWrites(cfg, c.dev, want);
    BatteryPlanIsReady(cfg, c.dev, want, s.reg);
    LastStepsHold(cfg, Start(c, BatteryAction(want.mode), xs), Plan(cfg, c.dev, want).value, i);
  }

  /** Every completed plan, from any start with a truthful cache and with re-reads between any two steps. */
  lemma AppliedCompletes(cfg: Config, c: Control, want: DesiredState, xs: seq<Exchange>)
    requires Plan(cfg, c.dev, want).Ok? && BatteryTruthful(c.dev) && Faithful(xs)
    requires Applied(cfg, c, want, xs).error.None?
    ensures Limits(cfg).Ok? && Completed(cfg, want, Limits(cfg).value, Applied(cfg, c, want, xs).ctl.dev.wire)
  {
    var full := Limits(cfg).value;
    var i := FindLimit(cfg, c.dev, want, MaxCharge);
    AppliedHolds(cfg, c, want, xs, i, LimitStep(cfg, want.mode, full, MaxCharge));
    i := FindLimit(cfg, c.dev, want, MaxDischarge);
    AppliedHolds(cfg, c, want, xs, i, LimitStep(cfg, want.mode, full, MaxDischarge));
    i := FindEms(cfg, c.dev, want);
    AppliedHolds(cfg, c, want, xs, i, EmsStep(want.mode));
    if IsForced(want.mode) {
      var power, command := FindForced(cfg, c.dev, want);
      AppliedHolds(cfg, c, want, xs, power, PowerStep(want.power.value));
      AppliedHolds(cfg, c, want, xs, command, CommandStep(want.mode));
    }
  }

  lemma PlanNeedsLimits(cfg: Config, d: Device, want: DesiredState)
    requires Plan(cfg, d, want).Ok?
    ensures Limits(cfg).Ok? && cfg.fence <= Limits(cfg).value <= 10 * 0xFFFF && Limits(cfg).value % 10 == 0
    ensures Requestable(want.mode) && (IsForced(want.mode) ==> want.power.Some?)
  {
  }

  /**
   A completed fencing plan: fenced limits at or below the fence, the other one at `full`,
   self-consumption selected.
   */
  lemma FencingCompleted(cfg: Config, c: Control, want: DesiredState, xs: seq<Exchange>, r: Register)
    requires Fences(want.mode) && Plan(cfg, c.dev, want).Ok? && BatteryTruthful(c.dev) && Faithful(xs) && IsLimit(r)
    requires Applied(cfg, c, want, xs).error.None?
    ensures var wire := Applied(cfg, c, want, xs).ctl.dev.wire;
            && Limits(cfg).Ok?
            && (if FencedBy(want.mode, r) then 10 * (wire[r] as int) <= cfg.fence
                 else 10 * (wire[r] as int) == Limits(cfg).value)
            && wire[EmsModeReg] == EmsCode(SelfConsumption)
  {
    AppliedCompletes(cfg, c, want, xs);
    PlanNeedsLimits(cfg, c.dev, want);
    LimitWord(cfg, want.mode, Limits(cfg).value, r, Applied(cfg, c, want, xs).ctl.dev.wire[r]);
  }

  /** What a held limit reads as. */
  lemma LimitWord(cfg: Config, m: BatteryMode, full: int, r: Register, w: Word)
    requires IsLimit(r) && full % 10 == 0 && Holds(LimitStep(cfg, m, full, r), w)
    ensures if FencedBy(m, r) then 10 * (w as int) <= cfg.fence else 10 * (w as int) == full
    ensures Decode(r, w) == (if w == NOT_AVAILABLE then Missing else Number(10 * (w as int)))
  {
  }

  // -- planner and classifier --------------------------------------------------------------

  /**
   The polled running state is a forced one, and the last acknowledged EMS write, if there was
   one, is at least the grace period ago.
   */
  predicate Disputed(cfg: Config, c: Control) {
    && (c.dev.state == Some(CompulsoryMode) || c.dev.state == Some(ExternalEmsMode))
    && (c.emsWrittenAt.None? || c.emsWrittenAt.value + cfg.grace <= c.dev.clock)
  }

  /**
   The settings do not add up: a forced mode without a command, or self-consumption that the
   running state disputes or whose limits are not both served.
   */
  predicate AtOdds(cfg: Config, c: Control) {
    || (c.dev.cache[EmsModeReg] == Mode(Compulsory) && !c.dev.cache[ChargeCommandReg].Command?)
    || (c.dev.cache[EmsModeReg] == Mode(SelfConsumption)
        && (Disputed(cfg, c) || !c.dev.cache[MaxCharge].Number? || !c.dev.cache[MaxDischarge].Number?))
  }

  /** The classifier reports INCONSISTENT exactly for those, nothing exactly while no EMS mode is known. */
  lemma InconsistentIffAtOdds(cfg: Config, c: Control)
    ensures EffectiveMode(cfg, c) == Some(Inconsistent) <==> AtOdds(cfg, c)
    ensures EffectiveMode(cfg, c) == None <==> !c.dev.cache[EmsModeReg].Mode?
  {
  }

  /** The cached limit is readable and no higher than the fence. */
  predicate ReadsFenced(cfg: Config, v: Value) { v.Number? && v.n <= cfg.fence }

  predicate ReadsOpen(cfg: Config, v: Value) { v.Number? && v.n > cfg.fence }

  /** The modes that self-consumption stands for, each by which limits are fenced. */
  lemma SelfConsumptionModes(cfg: Config, c: Control)
    ensures var cache, m := c.dev.cache, EffectiveMode(cfg, c);
            var self := cache[EmsModeReg] == Mode(SelfConsumption) && !Disputed(cfg, c);
            && (m == Some(Hold) <==>
                  self && ReadsFenced(cfg, cache[MaxCharge]) && ReadsFenced(cfg, cache[MaxDischarge]))
            && (m == Some(NoCharge) <==>
                  self && ReadsFenced(cfg, cache[MaxCharge]) && ReadsOpen(cfg, cache[MaxDischarge]))
            && (m == Some(NoDischarge) <==>
                  self && ReadsOpen(cfg, cache[MaxCharge]) && ReadsFenced(cfg, cache[MaxDischarge]))
            && (m == Some(SelfConsumptionMode) <==>
                  self && ReadsOpen(cfg, cache[MaxCharge]) && ReadsOpen(cfg, cache[MaxDischarge]))
  {
  }

  /** The other modes, each by one combination of cached fields. */
  lemma OtherModes(cfg: Config, c: Control)
    ensures EffectiveMode(cfg, c) == Some(ForcedCharge) <==>
            c.dev.cache[EmsModeReg] == Mode(Compulsory) && c.dev.cache[ChargeCommandReg] == Command(Charge)
    ensures EffectiveMode(cfg, c) == Some(ForcedDischarge) <==>
            c.dev.cache[EmsModeReg] == Mode(Compulsory) && c.dev.cache[ChargeCommandReg] == Command(Discharge)
    ensures EffectiveMode(cfg, c) == Some(ForcedStop) <==>
            c.dev.cache[EmsModeReg] == Mode(Compulsory) && c.dev.cache[ChargeCommandReg] == Command(Stop)
    ensures EffectiveMode(cfg, c) == Some(ExternalEmsBattery) <==> c.dev.cache[EmsModeReg] == Mode(ExternalEms)
    ensures EffectiveMode(cfg, c) == Some(VppBattery) <==> c.dev.cache[EmsModeReg] == Mode(Vpp)
  {
  }

  /** `c` is what a re-read of both components leaves on a device holding `w`. */
  ghost predicate Reads(c: Control, w: Wire) {
    c.dev.wire == w && Fresh(c.dev, Settings) && Fresh(c.dev, BatteryLimits)
  }

  /** What separates the requested modes on the limit registers `w`. */
  predicate Separable(cfg: Config, m: BatteryMode, full: int, w: Wire) {
    if m == Hold then cfg.fence < 10 * 0xFFFF || (w[MaxCharge] != NOT_AVAILABLE && w[MaxDischarge] != NOT_AVAILABLE)
    else cfg.fence < full < 10 * 0xFFFF
  }

  /** A fence is readable after a plan exactly when its target is, or it was before. */
  lemma FenceReadable(cfg: Config, c: Control, want: DesiredState, xs: seq<Exchange>, r: Register)
    requires Plan(cfg, c.dev, want).Ok? && BatteryTruthful(c.dev) && FencedBy(want.mode, r) && cfg.fence == 10 * 0xFFFF
    ensures Applied(cfg, c, want, xs).ctl.dev.wire[r] == NOT_AVAILABLE <==> c.dev.wire[r] == NOT_AVAILABLE
  {
    var steps := Plan(cfg, c.dev, want).value;
    assert steps[..|steps|] == steps;
    FencedLimitNeverRises(cfg, c, want, xs, |steps|, r);
    BatteryPlanWrites(cfg, c.dev, want);
    forall s | s in steps && s.reg == r ensures s == Fence(cfg, r) { PlanFence(cfg, c.dev, want, s); }
    KeptOrWritten(cfg, Start(c, BatteryAction(want.mode), xs), steps, Fence(cfg, r));
  }

  lemma PlanFence(cfg: Config, d: Device, want: DesiredState, s: Step)
    requires Plan(cfg, d, want).Ok? && s in Plan(cfg, d, want).value && FencedBy(want.mode, s.reg)
    ensures s == Fence(cfg, s.reg)
  {
  }

  /** So whether the modes separate is decided by the registers before the call. */
  lemma SeparableBefore(cfg: Config, c: Control, want: DesiredState, xs: seq<Exchange>, full: int)
    requires Plan(cfg, c.dev, want).Ok? && BatteryTruthful(c.dev) && cfg.fence <= 10 * 0xFFFF
    ensures Separable(cfg, want.mode, full, c.dev.wire)
            <==> Separable(cfg, want.mode, full, Applied(cfg, c, want, xs).ctl.dev.wire)
  {
    if want.mode == Hold && cfg.fence == 10 * 0xFFFF {
      FenceReadable(cfg, c, want, xs, MaxCharge);
      FenceReadable(cfg, c, want, xs, MaxDischarge);
    }
  }

  lemma ReadsDecoded(c: Control, r: Register)
    requires Fresh(c.dev, Settings) && Fresh(c.dev, BatteryLimits) && BatteryRegister(r)
    ensures Truthful(c.dev, r)
  {
    assert ComponentOf(r) == Settings || ComponentOf(r) == BatteryLimits;
  }

  lemma ForcedIsClassified(cfg: Config, want: DesiredState, full: int, after: Control)
    requires IsForced(want.mode) && Completed(cfg, want, full, after.dev.wire) && Reads(after, after.dev.wire)
    ensures EffectiveMode(cfg, after) == Some(want.mode)
    ensures after.dev.cache[ForcedPower] == Number(want.power.value)
  {
    ReadsDecoded(after, EmsModeReg);
    ReadsDecoded(after, ChargeCommandReg);
    ReadsDecoded(after, ForcedPower);
  }

  lemma OthersAreClassified(cfg: Config, want: DesiredState, full: int, after: Control)
    requires Requestable(want.mode) && !IsForced(want.mode) && cfg.fence <= full <= 10 * 0xFFFF && full % 10 == 0
    requires Completed(cfg, want, full, after.dev.wire) && Reads(after, after.dev.wire)
    ensures EffectiveMode(cfg, after) == Some(want.mode)
            <==> !Disputed(cfg, after) && Separable(cfg, want.mode, full, after.dev.wire)
  {
    ReadsDecoded(after, EmsModeReg);
    ReadsDecoded(after, MaxCharge);
    ReadsDecoded(after, MaxDischarge);
    LimitWord(cfg, want.mode, full, MaxCharge, after.dev.wire[MaxCharge]);
    LimitWord(cfg, want.mode, full, MaxDischarge, after.dev.wire[MaxDischarge]);
  }

  /**
   Once every step of a plan landed and was re-read, the classifier reports the requested
   mode: always for a forced mode, and for the others exactly when the running state does
   not contradict it and the restore target lies strictly between the fence and the sentinel
   (for hold: the fence below the sentinel, or both limits readable before).
   */
  lemma ClassifierUndoesPlanner(cfg: Config, c: Control, want: DesiredState, xs: seq<Exchange>, after: Control)
    requires Plan(cfg, c.dev, want).Ok? && BatteryTruthful(c.dev) && Faithful(xs)
    ensures Limits(cfg).Ok? && (IsForced(want.mode) ==> want.power.Some?)
    ensures var p := Applied(cfg, c, want, xs);
            p.error.None? && Reads(after, p.ctl.dev.wire) ==>
              && (EffectiveMode(cfg, after) == Some(want.mode) <==>
                  IsForced(want.mode)
                  || (!Disputed(cfg, after) && Separable(cfg, want.mode, Limits(cfg).value, c.dev.wire)))
              && (IsForced(want.mode) ==> after.dev.cache[ForcedPower] == Number(want.power.value))
  {
    PlanNeedsLimits(cfg, c.dev, want);
    if Applied(cfg, c, want, xs).error.Some? || !Reads(after, Applied(cfg, c, want, xs).ctl.dev.wire) { return; }
    AppliedCompletes(cfg, c, want, xs);
    if IsForced(want.mode) {
      ForcedIsClassified(cfg, want, Limits(cfg).value, after);
    } else {
      OthersAreClassified(cfg, want, Limits(cfg).value, after);
      SeparableBefore(cfg, c, want, xs, Limits(cfg).value);
    }
  }

  // -- all-skip plans -------------------------------------------------------------------------

  /** The cached value is the step's target, or one its fence accepts. */
  predicate Accepted(s: Step, current: Value) {
    current == s.target || (s.how == AtOrBelow && current.Number? && s.target.Number? && current.n <= s.target.n)
  }

  lemma SatisfiedIsAccepted(s: Step, current: Value)
    requires Satisfied(s, current) && BatteryRegister(s.reg) && !s.how.Within?
    ensures Accepted(s, current)
  {
    if IsLimit(s.reg) && s.how == Exactly {
      assert s.target.n == 10 * (s.target.n / 10) && current.n == 10 * (current.n / 10);
    }
  }

  lemma SkippedStep(cfg: Config, c: Control, steps: seq<Step>, i: nat, s: Step)
    requires AllSkipped(cfg, c, steps) && LastAt(steps, i, s) && BatteryRegister(s.reg) && !s.how.Within?
    ensures Accepted(s, c.dev.cache[s.reg]) && !Doubted(cfg, c, s)
  {
    assert steps[i] in steps;
    assert Skipped(cfg, c, s);
    SatisfiedIsAccepted(s, c.dev.cache[s.reg]);
  }

  /** The cached values a plan for `want` would leave alone, step by step. */
  predicate Agrees(cfg: Config, want: DesiredState, full: int, cache: Cache) {
    && Accepted(LimitStep(cfg, want.mode, full, MaxCharge), cache[MaxCharge])
    && Accepted(LimitStep(cfg, want.mode, full, MaxDischarge), cache[MaxDischarge])
    && Accepted(EmsStep(want.mode), cache[EmsModeReg])
    && (IsForced(want.mode) ==> want.power.Some? && Accepted(PowerStep(want.power.value), cache[ForcedPower])
                                && Accepted(CommandStep(want.mode), cache[ChargeCommandReg]))
  }

  lemma AgreedMode(cfg: Config, want: DesiredState, full: int, c: Control)
    requires Requestable(want.mode) && cfg.fence <= full && Agrees(cfg, want, full, c.dev.cache)
    ensures EffectiveMode(cfg, c) ==
            if IsForced(want.mode) then Some(want.mode)
            else if Disputed(cfg, c) then Some(Inconsistent)
            else if cfg.fence < full then Some(want.mode) else Some(Hold)
  {
  }

  lemma AllSkippedAgrees(cfg: Config, c: Control, want: DesiredState)
    requires Plan(cfg, c.dev, want).Ok? && AllSkipped(cfg, c, Plan(cfg, c.dev, want).value)
    ensures Limits(cfg).Ok? && Agrees(cfg, want, Limits(cfg).value, c.dev.cache)
    ensures EffectiveMode(cfg, c) != Some(Inconsistent)
  {
    PlanNeedsLimits(cfg, c.dev, want);
    var steps, full := Plan(cfg, c.dev, want).value, Limits(cfg).value;
    var i := FindEms(cfg, c.dev, want);
    SkippedStep(cfg, c, steps, i, EmsStep(want.mode));
    i := FindLimit(cfg, c.dev, want, MaxCharge);
    SkippedStep(cfg, c, steps, i, LimitStep(cfg, want.mode, full, MaxCharge));
    i := FindLimit(cfg, c.dev, want, MaxDischarge);
    SkippedStep(cfg, c, steps, i, LimitStep(cfg, want.mode, full, MaxDischarge));
    if IsForced(want.mode) {
      var power, command := FindForced(cfg, c.dev, want);
      SkippedStep(cfg, c, steps, power, PowerStep(want.power.value));
      SkippedStep(cfg, c, steps, command, CommandStep(want.mode));
    }
  }

  /** An all-skip plan means the mode is already the requested one, unless `full` is the fence itself. */
  lemma AllSkipMeansMode(cfg: Config, c: Control, want: DesiredState)
    requires Plan(cfg, c.dev, want).Ok? && AllSkipped(cfg, c, Plan(cfg, c.dev, want).value)
    ensures Limits(cfg).Ok?
    ensures EffectiveMode(cfg, c) == Some(want.mode)
            <==> IsForced(want.mode) || want.mode == Hold || cfg.fence < Limits(cfg).value
    ensures IsForced(want.mode) ==> c.dev.cache[ForcedPower] == Number(want.power.value)
  {
    PlanNeedsLimits(cfg, c.dev, want);
    AllSkippedAgrees(cfg, c, want);
    AgreedMode(cfg, want, Limits(cfg).value, c);
  }

  // -- repeating a verified call ----------------------------------------------------------------

  lemma {:induction false} LastIsFinal(steps: seq<Step>, i: nat, s: Step)
    requires LastAt(steps, i, s)
    ensures s.reg in Finals(steps) && Finals(steps)[s.reg] == s
  {
    var init := steps[..|steps| - 1];
    if i < |steps| - 1 {
      assert steps[i + 1..][|steps| - i - 2] == steps[|steps| - 1];
      assert steps[|steps| - 1] in steps[i + 1..];
      assert Avoids(init[i + 1..], s.reg) by {
        forall t | t in init[i + 1..] ensures t.reg != s.reg {
          var k :| 0 <= k < |init[i + 1..]| && init[i + 1..][k] == t;
          assert steps[i + 1..][k] == t;
        }
      }
      LastIsFinal(init, i, s);
    }
  }

  /** The steps a plan consists of. */
  lemma PlanMembers(cfg: Config, d: Device, want: DesiredState, s: Step)
    requires Plan(cfg, d, want).Ok? && s in Plan(cfg, d, want).value
    requires IsForced(want.mode) ==> !Reversing(d, want.mode)
    ensures Limits(cfg).Ok?
    ensures || (IsLimit(s.reg) && s == LimitStep(cfg, want.mode, Limits(cfg).value, s.reg))
            || s == EmsStep(want.mode)
            || (IsForced(want.mode) && (s == PowerStep(want.power.value) || s == CommandStep(want.mode)))
  {
  }

  lemma MetIsSatisfied(steps: seq<Step>, d: Device, i: nat, s: Step)
    requires LastAt(steps, i, s) && Meets(steps, d.wire) && Truthful(d, s.reg)
    ensures Satisfied(s, d.cache[s.reg])
  {
    LastIsFinal(steps, i, s);
  }

  /** A plan whose targets are met, as cached, is not reversing any more and has nothing left unsatisfied. */
  lemma MetPlanIsSatisfied(cfg: Config, d0: Device, want: DesiredState, d: Device, s: Step)
    requires Plan(cfg, d0, want).Ok? && Meets(Plan(cfg, d0, want).value, d.wire)
    requires forall r :: BatteryRegister(r) ==> Truthful(d, r)
    requires Plan(cfg, d, want).Ok? && s in Plan(cfg, d, want).value
    ensures Satisfied(s, d.cache[s.reg])
  {
    PlanNeedsLimits(cfg, d0, want);
    var steps, full := Plan(cfg, d0, want).value, Limits(cfg).value;
    if IsForced(want.mode) {
      var power, command := FindForced(cfg, d0, want);
      MetIsSatisfied(steps, d, power, PowerStep(want.power.value));
      MetIsSatisfied(steps, d, command, CommandStep(want.mode));
      SatisfiedIsAccepted(CommandStep(want.mode), d.cache[ChargeCommandReg]);
    }
    var i := FindEms(cfg, d0, want);
    MetIsSatisfied(steps, d, i, EmsStep(want.mode));
    SatisfiedIsAccepted(EmsStep(want.mode), d.cache[EmsModeReg]);
    PlanMembers(cfg, d, want, s);
    if IsLimit(s.reg) {
      i := FindLimit(cfg, d0, want, s.reg);
      MetIsSatisfied(steps, d, i, LimitStep(cfg, want.mode, full, s.reg));
    }
  }

  lemma PlanDependsOnConfig(cfg: Config, d0: Device, d: Device, want: DesiredState)
    requires Plan(cfg, d0, want).Ok?
    ensures Plan(cfg, d, want).Ok?
  {
  }

  lemma MetAgrees(cfg: Config, d0: Device, want: DesiredState, c: Control)
    requires Plan(cfg, d0, want).Ok? && Meets(Plan(cfg, d0, want).value, c.dev.wire)
    requires forall r :: BatteryRegister(r) ==> Truthful(c.dev, r)
    ensures Limits(cfg).Ok? && cfg.fence <= Limits(cfg).value && Requestable(want.mode)
    ensures Agrees(cfg, want, Limits(cfg).value, c.dev.cache)
  {
    PlanNeedsLimits(cfg, d0, want);
    var steps, full := Plan(cfg, d0, want).value, Limits(cfg).value;
    var i := FindEms(cfg, d0, want);
    MetIsAccepted(steps, c.dev, i, EmsStep(want.mode));
    i := FindLimit(cfg, d0, want, MaxCharge);
    MetIsAccepted(steps, c.dev, i, LimitStep(cfg, want.mode, full, MaxCharge));
    i := FindLimit(cfg, d0, want, MaxDischarge);
    MetIsAccepted(steps, c.dev, i, LimitStep(cfg, want.mode, full, MaxDischarge));
    if IsForced(want.mode) {
      var power, command := FindForced(cfg, d0, want);
      MetIsAccepted(steps, c.dev, power, PowerStep(want.power.value));
      MetIsAccepted(steps, c.dev, command, CommandStep(want.mode));
    }
  }

  lemma MetIsAccepted(steps: seq<Step>, d: Device, i: nat, s: Step)
    requires LastAt(steps, i, s) && Meets(steps, d.wire) && Truthful(d, s.reg)
    requires BatteryRegister(s.reg) && !s.how.Within?
    ensures Accepted(s, d.cache[s.reg])
  {
    MetIsSatisfied(steps, d, i, s);
    SatisfiedIsAccepted(s, d.cache[s.reg]);
  }

  /** After a confirmed `apply` the mode is at odds exactly when the running state disputes self-consumption. */
  lemma MetIsAtOdds(cfg: Config, d0: Device, want: DesiredState, c: Control)
    requires Plan(cfg, d0, want).Ok? && Meets(Plan(cfg, d0, want).value, c.dev.wire)
    requires Fresh(c.dev, Settings) && Fresh(c.dev, BatteryLimits)
    ensures EffectiveMode(cfg, c) == Some(Inconsistent) <==>
            want.mode !in {ForcedCharge, ForcedDischarge} && Disputed(cfg, c)
  {
    forall r | BatteryRegister(r) ensures Truthful(c.dev, r) { ReadsDecoded(c, r); }
    MetAgrees(cfg, d0, want, c);
    AgreedMode(cfg, want, Limits(cfg).value, c);
  }

  /** Right after a confirmed `apply`, the same plan is all-skip exactly when nothing disputes its mode. */
  lemma RepeatedPlanIsAllSkip(cfg: Config, d0: Device, want: DesiredState, c: Control)
    requires Plan(cfg, d0, want).Ok? && Fresh(c.dev, Settings) && Fresh(c.dev, BatteryLimits)
    ensures Plan(cfg, c.dev, want).Ok?
    ensures Meets(Plan(cfg, d0, want).value, c.dev.wire) ==>
              (AllSkipped(cfg, c, Plan(cfg, c.dev, want).value) <==>
               want.mode in {ForcedCharge, ForcedDischarge} || !Disputed(cfg, c))
  {
    PlanDependsOnConfig(cfg, d0, c.dev, want);
    if !Meets(Plan(cfg, d0, want).value, c.dev.wire) { return; }
    var steps := Plan(cfg, c.dev, want).value;
    forall r | BatteryRegister(r) ensures Truthful(c.dev, r) { ReadsDecoded(c, r); }
    MetIsAtOdds(cfg, d0, want, c);
    if EffectiveMode(cfg, c) == Some(Inconsistent) {
      var i := FindEms(cfg, c.dev, want);
      assert steps[i] in steps && Doubted(cfg, c, steps[i]);
    } else {
      forall s | s in steps ensures Skipped(cfg, c, s) { MetPlanIsSatisfied(cfg, d0, want, c.dev, s); }
    }
  }
}
