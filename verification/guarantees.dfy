/**
 The safety results at the level of whole calls, at any point of a verified run, and the
 inputs for which a call can never succeed.
 */
module Guarantees {
  import opened Wrappers
  import opened Registers
  import opened Devices
  import Polling
  import opened Planner
  import opened Execution
  import opened Honesty
  import StepFacts
  import opened BatterySafety
  import ForcedDirection
  import opened Classifier
  import Repetition
  import ExportLimiting
  import opened Acceptance

  /** The registers a call leaves are those its step loop left: nothing else of it writes. */
  lemma CallWire(cfg: Config, c: Control, call: ControlCall, maxAge: Option<int>, env: CallEnv)
    requires !call.Operate?
    ensures var d := Prepared(cfg, c.dev, call, maxAge, env).0;
            var after := Perform(cfg, c, call, maxAge, env).ctl.dev.wire;
            && d.wire == c.dev.wire
            && (after == c.dev.wire ||
                (StepsOf(cfg, d, call).Ok? &&
                 after == DoSteps(cfg, Start(c.(dev := d), ActionOf(call), env.exchanges),
                     StepsOf(cfg, d, call).value).ctl.dev.wire))
  {
    var (d, ok) := Prepared(cfg, c.dev, call, maxAge, env);
    PreparedEffect(cfg, c.dev, call, maxAge, env, {});
    if ok && StepsOf(cfg, d, call).Ok? {
      ExecuteWire(cfg, c.(dev := d), ActionOf(call), StepsOf(cfg, d, call).value, call.verify, env);
    }
  }

  /** What a planning call has cached is truthful, if the cache was honest. */
  lemma PreparedIsTruthful(cfg: Config, c: Control, want: DesiredState, verify: bool, maxAge: Option<int>, env: CallEnv)
    requires Honest(c.dev) && Prepared(cfg, c.dev, ApplyMode(want, verify), maxAge, env).1
    ensures BatteryTruthful(Prepared(cfg, c.dev, ApplyMode(want, verify), maxAge, env).0)
  {
    var call := ApplyMode(want, verify);
    PreparedEffect(cfg, c.dev, call, maxAge, env, GUARDED);
    var d := Prepared(cfg, c.dev, call, maxAge, env).0;
    assert Settings in Names(call) && BatteryLimits in Names(call);
    assert Fresh(d, Settings) && Fresh(d, BatteryLimits);
  }

  /** A call whose freshness read failed, or whose plan was refused, touched no register. */
  lemma UnplannedCallWire(cfg: Config, c: Control, call: ControlCall, maxAge: Option<int>, env: CallEnv)
    requires !call.Operate?
    requires var (d, ok) := Prepared(cfg, c.dev, call, maxAge, env); !ok || StepsOf(cfg, d, call).Err?
    ensures Perform(cfg, c, call, maxAge, env).ctl.dev.wire == c.dev.wire
  {
    PreparedEffect(cfg, c.dev, call, maxAge, env, {});
  }

  /**
   At any point of a verified run, one `apply`, however it ends: a forced battery runs the
   pair it already ran, or exactly the requested one.
   */
  lemma ApplyNeverForcesTheWrongPair(cfg: Config, c: Control, acts: seq<Activity>, want: DesiredState, verify: bool,
                                     maxAge: Option<int>, env: CallEnv)
    requires Honest(c.dev) && VerifiedRun(acts) && StepFacts.Faithful(env.exchanges)
    ensures var now := Run(cfg, c, acts);
            ForcedDirection.Safe(now.dev.wire, want,
                Perform(cfg, now, ApplyMode(want, verify), maxAge, env).ctl.dev.wire)
  {
    var now, call := Run(cfg, c, acts), ApplyMode(want, verify);
    RunKeepsCacheHonest(cfg, c, acts);
    CallWire(cfg, now, call, maxAge, env);
    var (d, ok) := Prepared(cfg, now.dev, call, maxAge, env);
    if ok && Plan(cfg, d, want).Ok? {
      PreparedIsTruthful(cfg, now, want, verify, maxAge, env);
      var steps := Plan(cfg, d, want).value;
      assert steps[..|steps|] == steps;
      ForcedDirection.NoPrefixForcesTheWrongPair(cfg, now.(dev := d), want, env.exchanges, |steps|);
    } else {
      UnplannedCallWire(cfg, now, call, maxAge, env);
    }
  }

  /** At any point of a verified run, one fencing `apply`, however it ends, raises no limit it fences. */
  lemma ApplyNeverRaisesAFence(cfg: Config, c: Control, acts: seq<Activity>, want: DesiredState, verify: bool,
                               maxAge: Option<int>, env: CallEnv, r: Register)
    requires Honest(c.dev) && VerifiedRun(acts) && FencedBy(want.mode, r)
    ensures var now := Run(cfg, c, acts);
            Perform(cfg, now, ApplyMode(want, verify), maxAge, env).ctl.dev.wire[r] <= now.dev.wire[r]
  {
    var now, call := Run(cfg, c, acts), ApplyMode(want, verify);
    RunKeepsCacheHonest(cfg, c, acts);
    CallWire(cfg, now, call, maxAge, env);
    var (d, ok) := Prepared(cfg, now.dev, call, maxAge, env);
    if ok && Plan(cfg, d, want).Ok? {
      PreparedIsTruthful(cfg, now, want, verify, maxAge, env);
      var steps := Plan(cfg, d, want).value;
      assert steps[..|steps|] == steps;
      FencedLimitNeverRises(cfg, now.(dev := d), want, env.exchanges, |steps|, r);
    } else {
      UnplannedCallWire(cfg, now, call, maxAge, env);
    }
  }

  /** One `set_export_limit`, from any cache and however it ends, leaves both caps below their bounds. */
  lemma LimitExportNeverExceedsCaps(cfg: Config, c: Control, limit: int, enabled: bool, verify: bool,
      maxAge: Option<int>, env: CallEnv, nominal: int)
    requires nominal >= 2000 && limit >= 0 && ExportLimiting.Mirroring(cfg, nominal)
    ensures ExportLimiting.Capped(nominal, ExportLimiting.WattsBound(nominal, limit, c.dev.wire),
            ExportLimiting.RatioBound(nominal, limit, c.dev.wire),
                   Perform(cfg, c, LimitExport(Some(limit), enabled, verify), maxAge, env).ctl.dev.wire)
  {
    var call := LimitExport(Some(limit), enabled, verify);
    CallWire(cfg, c, call, maxAge, env);
    var (d, ok) := Prepared(cfg, c.dev, call, maxAge, env);
    if ok && StepsOf(cfg, d, call).Ok? {
      var steps := StepsOf(cfg, d, call).value;
      assert steps[..|steps|] == steps;
      ExportLimiting.CapsNeverExceed(cfg, c.(dev := d), limit, enabled, env.exchanges, |steps|, nominal);
    } else {
      UnplannedCallWire(cfg, c, call, maxAge, env);
    }
  }

  // -- inputs that are accepted and can never succeed ------------------------------------------

  /** No limit register can be seen to hold the restore target 655350 W. */
  lemma SentinelIsNeverSatisfied(r: Register, w: Word)
    requires IsLimit(r)
    ensures !Satisfied(Restore(r, 10 * 0xFFFF), Decode(r, w))
  {
  }

  lemma SentinelIsNeverMet(cfg: Config, d: Device, want: DesiredState, w: Wire)
    requires Plan(cfg, d, want).Ok? && cfg.full == Some(10 * 0xFFFF) && want.mode != Hold
    ensures !Meets(Plan(cfg, d, want).value, w)
  {
    var r := if FencedBy(want.mode, MaxCharge) then MaxDischarge else MaxCharge;
    PlanNeedsLimits(cfg, d, want);
    var i := FindLimit(cfg, d, want, r);
    LastIsFinal(Plan(cfg, d, want).value, i, Restore(r, 10 * 0xFFFF));
    SentinelIsNeverSatisfied(r, w[r]);
  }

  /** With `full` at the largest accepted value, an `apply` that restores a limit never returns normally. */
  lemma SentinelRestoreNeverReturns(cfg: Config, c: Control, want: DesiredState, maxAge: Option<int>, env: CallEnv)
    requires Honest(c.dev) && cfg.full == Some(10 * 0xFFFF) && want.mode != Hold
    ensures Perform(cfg, c, ApplyMode(want, true), maxAge, env).outcome.Err?
  {
    if Perform(cfg, c, ApplyMode(want, true), maxAge, env).outcome.Ok? {
      assert HonestOn(c.dev, AsSet([Settings, BatteryLimits]));
      Repetition.ApplyLeavesFresh(cfg, c, want, maxAge, env);
      SentinelIsNeverMet(cfg, Prepared(cfg, c.dev, ApplyMode(want, true), maxAge, env).0, want,
                         Perform(cfg, c, ApplyMode(want, true), maxAge, env).ctl.dev.wire);
    }
  }

  /** The words a forced plan needs. */
  lemma ForcedPlanCodes(cfg: Config, d: Device, want: DesiredState, s: Step)
    requires IsForced(want.mode) && Plan(cfg, d, want).Ok? && s in Plan(cfg, d, want).value
    ensures Encode(s.reg, s.target).None? ==> s == PowerStep(want.power.value) && want.power.value > 0xFFFF
  {
    PlanNeedsLimits(cfg, d, want);
  }

  /**
   The power check admits anything up to `full`, which may exceed a register word: with every
   write acknowledged, a forced plan completes exactly when its power fits the register.
   */
  lemma ForcedPlanCompletesIffPowerFits(cfg: Config, c: Control, want: DesiredState, xs: seq<Exchange>)
    requires IsForced(want.mode) && Plan(cfg, c.dev, want).Ok?
    requires forall x :: x in xs ==> x.reply == Acked
    ensures want.power.Some?
    ensures Applied(cfg, c, want, xs).error.None? <==> want.power.value <= 0xFFFF
  {
    var p, steps := Start(c, BatteryAction(want.mode), xs), Plan(cfg, c.dev, want).value;
    PlanNeedsLimits(cfg, c.dev, want);
    var power, command := FindForced(cfg, c.dev, want);
    assert steps[power] in steps;
    if want.power.value <= 0xFFFF {
      forall s | s in steps ensures Encode(s.reg, s.target).Some? { ForcedPlanCodes(cfg, c.dev, want, s); }
      ExportLimiting.AcknowledgedRaisesNothing(cfg, p, steps);
    } else if Applied(cfg, c, want, xs).error.None? {
      NoErrorNeedsCodes(cfg, p, steps);
    }
  }

  // -- when an `apply` returns -------------------------------------------------------------------

  /** A link that answers everything, to an inverter that does what it acknowledges. */
  predicate Answering(env: CallEnv) {
    && Polling.AllReadsAnswered(env.refresh) && Polling.AllReadsAnswered(env.readback)
    && forall x :: x in env.exchanges ==> x.reply == Acked && x.landed
  }

  lemma {:induction false} FinalIsLast(steps: seq<Step>, r: Register) returns (i: nat)
    requires r in Finals(steps)
    ensures LastAt(steps, i, Finals(steps)[r])
  {
    var init, last := steps[..|steps| - 1], steps[|steps| - 1];
    FinalsAreSteps(steps);
    if last.reg == r {
      i := |steps| - 1;
    } else {
      i := FinalIsLast(init, r);
      assert steps[i + 1..] == init[i + 1..] + [last];
    }
  }

  /** The limit steps of a plan. */
  lemma PlanLimitStep(cfg: Config, d: Device, want: DesiredState, s: Step)
    requires Plan(cfg, d, want).Ok? && s in Plan(cfg, d, want).value && IsLimit(s.reg)
    ensures s == LimitStep(cfg, want.mode, Limits(cfg).value, s.reg)
  {
  }

  /** A word that holds a step reads back as satisfying it, unless it is a limit's sentinel. */
  lemma HeldIsSatisfied(s: Step, w: Word)
    requires Holds(s, w) && BatteryRegister(s.reg) && !s.how.Within? && (s.how == AtOrBelow ==> IsLimit(s.reg))
    requires IsLimit(s.reg) ==> s.target != Number(10 * 0xFFFF)
    ensures Satisfied(s, Decode(s.reg, w))
  {
    SameOnWireIsSameWord(s.reg, w, s.target);
    if Encode(s.reg, s.target) == Some(w) { EncodeThenDecode(s.reg, s.target, w); }
  }

  /** The step can be written and read back. */
  predicate ReadsBack(s: Step) { Encode(s.reg, s.target).Some? && s.target != Number(10 * 0xFFFF) }

  /** The limit register's target can be written and read back, or is a fence the register is already under. */
  predicate Reachable(cfg: Config, want: DesiredState, r: Register, w: Word)
    requires Limits(cfg).Ok?
  {
    var s := LimitStep(cfg, want.mode, Limits(cfg).value, r);
    ReadsBack(s) || Satisfied(s, Decode(r, w))
  }

  predicate BothReachable(cfg: Config, want: DesiredState, w: Wire)
    requires Limits(cfg).Ok?
  {
    Reachable(cfg, want, MaxCharge, w[MaxCharge]) && Reachable(cfg, want, MaxDischarge, w[MaxDischarge])
  }

  predicate PowerFits(want: DesiredState) { IsForced(want.mode) && want.power.Some? ==> want.power.value <= 0xFFFF }

  /** A step whose target has no word is a limit nothing has written yet, and its fence is already met. */
  predicate Passable(d: Device, steps: seq<Step>) {
    forall i :: 0 <= i < |steps| ==>
      || Encode(steps[i].reg, steps[i].target).Some?
      || (IsLimit(steps[i].reg) && StepFacts.Truthful(d, steps[i].reg) && Satisfied(steps[i], d.cache[steps[i].reg])
          && forall j :: 0 <= j < i ==> steps[j].reg != steps[i].reg)
  }

  lemma PassableAfterStep(cfg: Config, p: Progress, steps: seq<Step>)
    requires steps != [] && p.error.None? && AllPlain(steps) && Passable(p.ctl.dev, steps)
    ensures Passable(DoStep(cfg, p, steps[0]).ctl.dev, steps[1..])
  {
    var rest, d1 := steps[1..], DoStep(cfg, p, steps[0]).ctl.dev;
    assert steps[0] in steps;
    forall i | 0 <= i < |rest| && Encode(rest[i].reg, rest[i].target).None?
      ensures IsLimit(rest[i].reg) && StepFacts.Truthful(d1, rest[i].reg) && Satisfied(rest[i], d1.cache[rest[i].reg])
              && forall j :: 0 <= j < i ==> rest[j].reg != rest[i].reg
    {
      assert rest[i] == steps[i + 1] && steps[0].reg != rest[i].reg;
      DoStepAt(cfg, p, steps[0], rest[i].reg);
      forall j | 0 <= j < i ensures rest[j].reg != rest[i].reg { assert rest[j] == steps[j + 1]; }
    }
  }

  /** With every write acknowledged, a passable plan raises nothing. */
  lemma {:induction false} PassableRaisesNothing(cfg: Config, p: Progress, steps: seq<Step>)
    requires p.error.None? && AllPlain(steps) && Passable(p.ctl.dev, steps)
    requires forall x :: x in p.rest ==> x.reply == Acked
    ensures DoSteps(cfg, p, steps).error.None?
    decreases |steps|
  {
    if steps != [] {
      assert steps[0] in steps;
      DoStepCases(cfg, p, steps[0], steps[0].reg);
      PassableAfterStep(cfg, p, steps);
      if p.rest != [] { assert p.rest[0] in p.rest; }
      PassableRaisesNothing(cfg, DoStep(cfg, p, steps[0]), steps[1..]);
    }
  }

  /** The other steps of a plan have words, but for a power that does not fit. */
  lemma PlanCodes(cfg: Config, d: Device, want: DesiredState, s: Step)
    requires Plan(cfg, d, want).Ok? && s in Plan(cfg, d, want).value && !IsLimit(s.reg) && PowerFits(want)
    ensures Encode(s.reg, s.target).Some?
  {
  }

  lemma ReachableIsPassable(cfg: Config, c: Control, want: DesiredState)
    requires Plan(cfg, c.dev, want).Ok? && BatteryTruthful(c.dev) && PowerFits(want)
    requires Limits(cfg).Ok? && BothReachable(cfg, want, c.dev.wire)
    ensures Passable(c.dev, Plan(cfg, c.dev, want).value)
  {
    var steps := Plan(cfg, c.dev, want).value;
    forall i | 0 <= i < |steps| && Encode(steps[i].reg, steps[i].target).None?
      ensures IsLimit(steps[i].reg) && StepFacts.Truthful(c.dev, steps[i].reg)
              && Satisfied(steps[i], c.dev.cache[steps[i].reg])
              && forall j :: 0 <= j < i ==> steps[j].reg != steps[i].reg
    {
      assert steps[i] in steps;
      if !IsLimit(steps[i].reg) { PlanCodes(cfg, c.dev, want, steps[i]); }
      PlanLimitStep(cfg, c.dev, want, steps[i]);
      forall j | 0 <= j < i ensures steps[j].reg != steps[i].reg {
        if steps[j].reg == steps[i].reg { BatteryPlanRepeats(cfg, c.dev, want, i, j); }
      }
    }
  }

  /** A reachable limit meets its target once its plan completed. */
  lemma ReachableIsMet(cfg: Config, c: Control, want: DesiredState, xs: seq<Exchange>, r: Register)
    requires Plan(cfg, c.dev, want).Ok? && BatteryTruthful(c.dev) && StepFacts.Faithful(xs)
    requires Applied(cfg, c, want, xs).error.None?
    requires IsLimit(r) && Limits(cfg).Ok? && Reachable(cfg, want, r, c.dev.wire[r])
    ensures var s := LimitStep(cfg, want.mode, Limits(cfg).value, r);
            Satisfied(s, Decode(r, Applied(cfg, c, want, xs).ctl.dev.wire[r]))
  {
    var s, w := LimitStep(cfg, want.mode, Limits(cfg).value, r), Applied(cfg, c, want, xs).ctl.dev.wire[r];
    if ReadsBack(s) {
      var i := FindLimit(cfg, c.dev, want, r);
      AppliedHolds(cfg, c, want, xs, i, s);
      HeldIsSatisfied(s, w);
    } else {
      ReachableIsFence(s, c.dev.wire[r]);
      var steps := Plan(cfg, c.dev, want).value;
      assert steps[..|steps|] == steps;
      FencedLimitNeverRises(cfg, c, want, xs, |steps|, r);
    }
  }

  /** Only a fence is met without being writable and readable. */
  lemma ReachableIsFence(s: Step, w: Word)
    requires IsLimit(s.reg) && !ReadsBack(s) && Satisfied(s, Decode(s.reg, w)) && !s.how.Within?
    ensures s.how == AtOrBelow && w != NOT_AVAILABLE
  {
    SameOnWireIsSameWord(s.reg, w, s.target);
    if Encode(s.reg, s.target) == Some(w) { EncodeThenDecode(s.reg, s.target, w); }
  }

  /** Every completed plan whose limits are reachable meets its targets. */
  lemma AppliedMeets(cfg: Config, c: Control, want: DesiredState, xs: seq<Exchange>)
    requires Plan(cfg, c.dev, want).Ok? && BatteryTruthful(c.dev) && StepFacts.Faithful(xs)
    requires Applied(cfg, c, want, xs).error.None?
    requires Limits(cfg).Ok? && BothReachable(cfg, want, c.dev.wire)
    ensures Meets(Plan(cfg, c.dev, want).value, Applied(cfg, c, want, xs).ctl.dev.wire)
  {
    var steps, wire := Plan(cfg, c.dev, want).value, Applied(cfg, c, want, xs).ctl.dev.wire;
    FinalsAreSteps(steps);
    BatteryPlanWrites(cfg, c.dev, want);
    forall r | r in Finals(steps) ensures Satisfied(Finals(steps)[r], Decode(r, wire[r])) {
      var s := Finals(steps)[r];
      if IsLimit(r) {
        PlanLimitStep(cfg, c.dev, want, s);
        ReachableIsMet(cfg, c, want, xs, r);
      } else {
        var i := FinalIsLast(steps, r);
        AppliedHolds(cfg, c, want, xs, i, s);
        FencesAreLimits(cfg, c.dev, want, s);
        HeldIsSatisfied(s, wire[r]);
      }
    }
  }

  lemma FencesAreLimits(cfg: Config, d: Device, want: DesiredState, s: Step)
    requires Plan(cfg, d, want).Ok? && s in Plan(cfg, d, want).value
    ensures s.how == AtOrBelow ==> IsLimit(s.reg)
  {
  }

  lemma AnsweredExecutionReturns(cfg: Config, c: Control, want: DesiredState, env: CallEnv)
    requires Plan(cfg, c.dev, want).Ok? && BatteryTruthful(c.dev) && Answering(env)
    requires Limits(cfg).Ok? && BothReachable(cfg, want, c.dev.wire) && PowerFits(want)
    ensures Execute(cfg, c, BatteryAction(want.mode), Plan(cfg, c.dev, want).value, true, env).outcome.Ok?
  {
    var steps, p := Plan(cfg, c.dev, want).value, Applied(cfg, c, want, env.exchanges);
    BatteryPlanWrites(cfg, c.dev, want);
    ReachableIsPassable(cfg, c, want);
    PassableRaisesNothing(cfg, Start(c, BatteryAction(want.mode), env.exchanges), steps);
    if p.report.writes != [] {
      AppliedMeets(cfg, c, want, env.exchanges);
      Polling.AnsweredRefresh(Disturb(p.ctl.dev, env.settle), Touched(steps), env.readback);
      ReadBackConfirms(p, steps, env);
    }
  }

  /** A limit that is met, and was kept or written, was reachable. */
  lemma MetWasReachable(s: Step, before: Word, after: Word)
    requires IsLimit(s.reg) && Satisfied(s, Decode(s.reg, after))
    requires after == before || Encode(s.reg, s.target) == Some(after)
    ensures ReadsBack(s) || Satisfied(s, Decode(s.reg, before))
  {
    if after != before {
      SameOnWireIsSameWord(s.reg, after, s.target);
      EncodeThenDecode(s.reg, s.target, after);
    }
  }

  /** Whatever an `apply` did, a limit register keeps its word or gets the one step planned for it. */
  lemma CallKeepsOrWrites(cfg: Config, c: Control, want: DesiredState, maxAge: Option<int>, env: CallEnv, r: Register)
    requires IsLimit(r) && Plan(cfg, Prepared(cfg, c.dev, ApplyMode(want, true), maxAge, env).0, want).Ok?
    ensures var s := LimitStep(cfg, want.mode, Limits(cfg).value, r);
            var w := Perform(cfg, c, ApplyMode(want, true), maxAge, env).ctl.dev.wire[r];
            w == c.dev.wire[r] || Encode(r, s.target) == Some(w)
  {
    var call, d := ApplyMode(want, true), Prepared(cfg, c.dev, ApplyMode(want, true), maxAge, env).0;
    var s, steps := LimitStep(cfg, want.mode, Limits(cfg).value, r), Plan(cfg, d, want).value;
    CallWire(cfg, c, call, maxAge, env);
    BatteryPlanWrites(cfg, d, want);
    forall t | t in steps && t.reg == r ensures t == s { PlanLimitStep(cfg, d, want, t); }
    KeptOrWritten(cfg, Start(c.(dev := d), ActionOf(call), env.exchanges), steps, s);
  }

  /** An `apply` that returned could reach its limits. */
  lemma ReturnedWasReachable(cfg: Config, c: Control, want: DesiredState, maxAge: Option<int>, env: CallEnv,
      r: Register)
    requires Honest(c.dev) && IsLimit(r)
    ensures Perform(cfg, c, ApplyMode(want, true), maxAge, env).outcome.Ok?
            ==> Limits(cfg).Ok? && Reachable(cfg, want, r, c.dev.wire[r])
  {
    if Perform(cfg, c, ApplyMode(want, true), maxAge, env).outcome.Err? { return; }
    var d := Prepared(cfg, c.dev, ApplyMode(want, true), maxAge, env).0;
    assert HonestOn(c.dev, AsSet([Settings, BatteryLimits]));
    Repetition.ApplyLeavesFresh(cfg, c, want, maxAge, env);
    PlanNeedsLimits(cfg, d, want);
    CallKeepsOrWrites(cfg, c, want, maxAge, env, r);
    var s := LimitStep(cfg, want.mode, Limits(cfg).value, r);
    var i := FindLimit(cfg, d, want, r);
    LastIsFinal(Plan(cfg, d, want).value, i, s);
    MetWasReachable(s, c.dev.wire[r], Perform(cfg, c, ApplyMode(want, true), maxAge, env).ctl.dev.wire[r]);
  }

  lemma CompletedPowerFits(cfg: Config, c: Control, want: DesiredState, xs: seq<Exchange>)
    requires Plan(cfg, c.dev, want).Ok? && Applied(cfg, c, want, xs).error.None?
    ensures PowerFits(want)
  {
    if IsForced(want.mode) {
      NoErrorNeedsCodes(cfg, Start(c, BatteryAction(want.mode), xs), Plan(cfg, c.dev, want).value);
      var power, command := FindForced(cfg, c.dev, want);
      assert Plan(cfg, c.dev, want).value[power] in Plan(cfg, c.dev, want).value;
    }
  }

  lemma ReturnedCompleted(cfg: Config, c: Control, action: Action, steps: seq<Step>, env: CallEnv)
    requires Execute(cfg, c, action, steps, true, env).outcome.Ok?
    ensures DoSteps(cfg, Start(c, action, env.exchanges), steps).error.None?
  {
  }

  lemma ReturnedPowerFits(cfg: Config, c: Control, want: DesiredState, maxAge: Option<int>, env: CallEnv)
    ensures Perform(cfg, c, ApplyMode(want, true), maxAge, env).outcome.Ok? ==> PowerFits(want)
  {
    if Perform(cfg, c, ApplyMode(want, true), maxAge, env).outcome.Err? { return; }
    var call, d := ApplyMode(want, true), Prepared(cfg, c.dev, ApplyMode(want, true), maxAge, env).0;
    ReturnsFromExecute(cfg, c, call, maxAge, env);
    ReturnedCompleted(cfg, c.(dev := d), ActionOf(call), Plan(cfg, d, want).value, env);
    CompletedPowerFits(cfg, c.(dev := d), want, env.exchanges);
  }

  /**
   The limit register can end where the mode wants it, over the options and the word it holds:
   the target can be written and read back, or is a fence the register is already under.
   */
  predicate InReach(cfg: Config, m: BatteryMode, r: Register, w: Word) {
    if FencedBy(m, r) then
      (cfg.fence % 10 == 0 && 0 <= cfg.fence < 655350) || (w != NOT_AVAILABLE && 10 * (w as int) <= cfg.fence)
    else cfg.full.Some? && 0 <= cfg.full.value < 655350
  }

  lemma ReachableIsInReach(cfg: Config, want: DesiredState, r: Register, w: Word)
    requires Acceptable(cfg, want) && IsLimit(r)
    ensures Limits(cfg).Ok? && (Reachable(cfg, want, r, w) <==> InReach(cfg, want.mode, r, w))
  {
    var s := LimitStep(cfg, want.mode, cfg.full.value, r);
    SameOnWireIsSameWord(r, w, s.target);
    if Encode(r, s.target) == Some(w) { EncodeThenDecode(r, s.target, w); }
  }

  /** Whether an `apply` that is answered everywhere returns, over its request, the options and the registers. */
  predicate Attainable(cfg: Config, want: DesiredState, w: Wire) {
    && Acceptable(cfg, want)
    && (want.mode in {ForcedCharge, ForcedDischarge} ==> want.power.value <= 65535)
    && InReach(cfg, want.mode, MaxCharge, w[MaxCharge]) && InReach(cfg, want.mode, MaxDischarge, w[MaxDischarge])
  }

  lemma AttainableMeans(cfg: Config, d: Device, want: DesiredState, w: Wire)
    ensures Attainable(cfg, want, w) <==>
            Plan(cfg, d, want).Ok? && PowerFits(want) && Limits(cfg).Ok? && BothReachable(cfg, want, w)
  {
    PlanAcceptsIff(cfg, d, want);
    if Acceptable(cfg, want) {
      ReachableIsInReach(cfg, want, MaxCharge, w[MaxCharge]);
      ReachableIsInReach(cfg, want, MaxDischarge, w[MaxDischarge]);
    }
  }

  /**
   At any point of a verified run, on a link that answers everything, a verified `apply` returns
   exactly when its request is acceptable, a forced power fits its register, and each limit's
   target can be written and read back or is a fence the register is already under. The last
   two are what the planner leaves to the validator and the read-back.
   */
  lemma AnsweredApplyReturnsIff(cfg: Config, c: Control, acts: seq<Activity>, want: DesiredState, maxAge: Option<int>,
      env: CallEnv)
    requires Honest(c.dev) && VerifiedRun(acts) && Answering(env)
    ensures var now := Run(cfg, c, acts);
            Perform(cfg, now, ApplyMode(want, true), maxAge, env).outcome.Ok? <==> Attainable(cfg, want, now.dev.wire)
  {
    RunKeepsCacheHonest(cfg, c, acts);
    AnsweredApply(cfg, Run(cfg, c, acts), want, maxAge, env);
  }

  lemma AnsweredApply(cfg: Config, c: Control, want: DesiredState, maxAge: Option<int>, env: CallEnv)
    requires Honest(c.dev) && Answering(env)
    ensures Perform(cfg, c, ApplyMode(want, true), maxAge, env).outcome.Ok? <==> Attainable(cfg, want, c.dev.wire)
  {
    var call := ApplyMode(want, true);
    ReadsPrepare(cfg, c.dev, call, maxAge, env);
    PreparedEffect(cfg, c.dev, call, maxAge, env, GUARDED);
    var d := Prepared(cfg, c.dev, call, maxAge, env).0;
    AttainableMeans(cfg, d, want, c.dev.wire);
    if Perform(cfg, c, call, maxAge, env).outcome.Ok? {
      ReturnedPowerFits(cfg, c, want, maxAge, env);
      ReturnsFromExecute(cfg, c, call, maxAge, env);
      ReturnedWasReachable(cfg, c, want, maxAge, env, MaxCharge);
      ReturnedWasReachable(cfg, c, want, maxAge, env, MaxDischarge);
    } else if Attainable(cfg, want, c.dev.wire) {
      PreparedIsTruthful(cfg, c, want, true, maxAge, env);
      AnsweredExecutionReturns(cfg, c.(dev := d), want, env);
    }
  }

  // -- what a returned `apply` leaves ------------------------------------------------------------------

  /** The registers hold the mode, word by word. */
  predicate InEffect(cfg: Config, want: DesiredState, w: Wire) {
    && w[EmsModeReg] == (if want.mode in {ForcedCharge, ForcedDischarge} then 2 else 0)
    && LimitInEffect(cfg, want.mode, MaxCharge, w[MaxCharge])
    && LimitInEffect(cfg, want.mode, MaxDischarge, w[MaxDischarge])
    && (want.mode in {ForcedCharge, ForcedDischarge} ==>
          && want.power == Some(w[ForcedPower])
          && w[ChargeCommandReg] == (if want.mode == ForcedCharge then 0xAA else 0xBB))
  }

  /** Readable, and at or below the fence or at the restore target. */
  predicate LimitInEffect(cfg: Config, m: BatteryMode, r: Register, w: Word) {
    && w != NOT_AVAILABLE
    && if FencedBy(m, r) then 10 * (w as int) <= cfg.fence else cfg.full == Some(10 * (w as int))
  }

  lemma MetLimitIsInEffect(cfg: Config, d: Device, want: DesiredState, w: Wire, r: Register)
    requires Plan(cfg, d, want).Ok? && Meets(Plan(cfg, d, want).value, w) && IsLimit(r)
    ensures LimitInEffect(cfg, want.mode, r, w[r])
  {
    PlanNeedsLimits(cfg, d, want);
    var s := LimitStep(cfg, want.mode, Limits(cfg).value, r);
    var i := FindLimit(cfg, d, want, r);
    LastIsFinal(Plan(cfg, d, want).value, i, s);
    SatisfiedIsAccepted(s, Decode(r, w[r]));
  }

  lemma MetSwitchesAreInEffect(cfg: Config, d: Device, want: DesiredState, w: Wire)
    requires Plan(cfg, d, want).Ok? && Meets(Plan(cfg, d, want).value, w)
    ensures w[EmsModeReg] == EmsCode(if IsForced(want.mode) then Compulsory else SelfConsumption)
    ensures IsForced(want.mode) ==> w[ChargeCommandReg] == CommandCode(CommandFor(want.mode))
    ensures IsForced(want.mode) ==> want.power.Some? && Satisfied(PowerStep(want.power.value), Number(w[ForcedPower]))
  {
    var steps := Plan(cfg, d, want).value;
    var i := FindEms(cfg, d, want);
    LastIsFinal(steps, i, EmsStep(want.mode));
    SatisfiedWord(EmsStep(want.mode), w[EmsModeReg]);
    if IsForced(want.mode) {
      PlanNeedsLimits(cfg, d, want);
      var power, command := FindForced(cfg, d, want);
      LastIsFinal(steps, power, PowerStep(want.power.value));
      LastIsFinal(steps, command, CommandStep(want.mode));
      SatisfiedWord(CommandStep(want.mode), w[ChargeCommandReg]);
    }
  }

  lemma SatisfiedWord(s: Step, w: Word)
    requires s.how == Exactly && Satisfied(s, Decode(s.reg, w))
    ensures Encode(s.reg, s.target) == Some(w)
  {
    SameOnWireIsSameWord(s.reg, w, s.target);
  }

  lemma MetIsInEffect(cfg: Config, d: Device, want: DesiredState, w: Wire)
    requires Plan(cfg, d, want).Ok? && Meets(Plan(cfg, d, want).value, w)
    ensures InEffect(cfg, want, w)
  {
    MetLimitIsInEffect(cfg, d, want, w, MaxCharge);
    MetLimitIsInEffect(cfg, d, want, w, MaxDischarge);
    MetSwitchesAreInEffect(cfg, d, want, w);
  }

  /**
   At any point of a verified run, whatever fails: a verified `apply` that returned was acceptable
   and leaves the mode in effect, word by word. No acknowledged write is assumed to land.
   */
  lemma ReturnedApplyIsInEffect(cfg: Config, c: Control, acts: seq<Activity>, want: DesiredState, maxAge: Option<int>,
      env: CallEnv)
    requires Honest(c.dev) && VerifiedRun(acts)
    ensures var r := Perform(cfg, Run(cfg, c, acts), ApplyMode(want, true), maxAge, env);
            r.outcome.Ok? ==> Acceptable(cfg, want) && InEffect(cfg, want, r.ctl.dev.wire)
  {
    var now := Run(cfg, c, acts);
    RunKeepsCacheHonest(cfg, c, acts);
    if Perform(cfg, now, ApplyMode(want, true), maxAge, env).outcome.Ok? {
      assert HonestOn(now.dev, AsSet([Settings, BatteryLimits]));
      Repetition.ApplyLeavesFresh(cfg, now, want, maxAge, env);
      var d := Prepared(cfg, now.dev, ApplyMode(want, true), maxAge, env).0;
      PlanAcceptsIff(cfg, d, want);
      MetIsInEffect(cfg, d, want, Perform(cfg, now, ApplyMode(want, true), maxAge, env).ctl.dev.wire);
    }
  }
}
