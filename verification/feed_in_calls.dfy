/**
 Whole `set_export_limit` calls at any point of a run: what the two feed-in registers of a
 mirroring inverter keep, when a call returns, and what its repetition does.
 */
module FeedInCalls {
  import opened Wrappers
  import opened Registers
  import opened Devices
  import Polling
  import opened Planner
  import opened Execution
  import opened Honesty
  import opened StepFacts
  import BatterySafety
  import Repetition
  import opened ExportLimiting
  import StaleWatts
  import Guarantees
  import opened Acceptance

  // -- the two registers of a mirroring inverter over a run ----------------------------------

  /** The nominal powers for which neither mirrored register overflows. */
  predicate Fitting(nominal: int) { 1000 <= nominal <= 0xFFFF }

  lemma MirroredRatioFits(w: Word, nominal: int, up: bool)
    requires Fitting(nominal)
    ensures 0 <= DivRound(1000 * w, nominal, up) <= 0xFFFF
  {
    var m := DivRound(1000 * w, nominal, up);
    DivRoundNear(1000 * w, nominal, up);
    if m > 0xFFFF { MulOrder(0x1_0000, m, nominal); }
  }

  lemma MirroredWattsFit(w: Word, nominal: int, up: bool)
    requires Fitting(nominal) && w <= 1000
    ensures 0 <= DivRound(w * nominal, 1000, up) <= 0xFFFF
  {
    MulOrder(0, w, nominal);
    MulOrder(w, 1000, nominal);
    DivRoundNear(w * nominal, 1000, up);
  }

  /** Any landed watts write, and any landed ratio write of at most 100 %, makes the two registers agree. */
  lemma FeedInWriteMakesConsistent(nominal: int, wire: Wire, r: Register, w: Word, up: bool)
    requires Fitting(nominal) && (r == ExportLimit || (r == FeedInRatio && w <= 1000))
    ensures Consistent(nominal, Land(Some(nominal), wire, r, w, up))
  {
    if r == ExportLimit {
      MirroredRatioFits(w, nominal, up);
      DivRoundNear(1000 * w, nominal, up);
    } else {
      MirroredWattsFit(w, nominal, up);
      DivRoundNear(w * nominal, 1000, up);
    }
  }

  /** The registers agree, or neither was written since `start`. */
  predicate ConsistentOrUntouched(nominal: int, start: Wire, wire: Wire) {
    Consistent(nominal, wire) || (wire[ExportLimit] == start[ExportLimit] && wire[FeedInRatio] == start[FeedInRatio])
  }

  lemma LandKeepsFeedIn(nominal: int, start: Wire, wire: Wire, r: Register, v: Value, w: Word, up: bool)
    requires Fitting(nominal) && ConsistentOrUntouched(nominal, start, wire) && Encode(r, v) == Some(w)
    ensures ConsistentOrUntouched(nominal, start, Land(Some(nominal), wire, r, w, up))
  {
    if r == ExportLimit || r == FeedInRatio { FeedInWriteMakesConsistent(nominal, wire, r, w, up); }
  }

  lemma {:induction false} StepsKeepFeedIn(cfg: Config, p: Progress, steps: seq<Step>, nominal: int, start: Wire)
    requires cfg.mirrors == Some(nominal) && Fitting(nominal) && ConsistentOrUntouched(nominal, start, p.ctl.dev.wire)
    ensures ConsistentOrUntouched(nominal, start, DoSteps(cfg, p, steps).ctl.dev.wire)
    decreases |steps|
  {
    if steps != [] && p.error.None? {
      var s := steps[0];
      StepCases(cfg, p, s, s.reg);
      if !Skipped(cfg, p.ctl, s) && Encode(s.reg, s.target).Some? {
        LandKeepsFeedIn(nominal, start, p.ctl.dev.wire, s.reg, s.target, Encode(s.reg, s.target).value,
            FirstExchange(p.rest).up);
      }
      StepsKeepFeedIn(cfg, DoStep(cfg, p, s), steps[1..], nominal, start);
    }
  }

  /** Start and stop write neither register. */
  lemma CommandKeepsFeedIn(cfg: Config, c: Control, command: StartStop, env: CallEnv)
    ensures var wire := SendCommand(cfg, c, command, env).ctl.dev.wire;
            wire[ExportLimit] == c.dev.wire[ExportLimit] && wire[FeedInRatio] == c.dev.wire[FeedInRatio]
  {
    DisturbUndisturbed(c.dev, env.waiting);
    var p := Start(c.(dev := Disturb(c.dev, env.waiting)), StartStopAction(command), env.exchanges);
    var s := Step(StartStopReg, Operation(command), Exactly);
    WriteStepDevice(cfg, p, s, StartStopCode(command));
    TransmitAt(cfg.mirrors, p.ctl.dev, StartStopReg, s.target, StartStopCode(command), FirstExchange(p.rest),
        StartStopReg);
  }

  lemma CallKeepsFeedIn(cfg: Config, c: Control, call: ControlCall, maxAge: Option<int>, env: CallEnv, nominal: int,
      start: Wire)
    requires cfg.mirrors == Some(nominal) && Fitting(nominal) && ConsistentOrUntouched(nominal, start, c.dev.wire)
    ensures ConsistentOrUntouched(nominal, start, Perform(cfg, c, call, maxAge, env).ctl.dev.wire)
  {
    if call.Operate? {
      CommandKeepsFeedIn(cfg, c, call.command, env);
    } else {
      Guarantees.CallWire(cfg, c, call, maxAge, env);
      var d := Prepared(cfg, c.dev, call, maxAge, env).0;
      if StepsOf(cfg, d, call).Ok? {
        StepsKeepFeedIn(cfg, Start(c.(dev := d), ActionOf(call), env.exchanges), StepsOf(cfg, d, call).value,
            nominal, start);
      }
    }
  }

  /**
   Over any run, verified or not and whatever fails, a mirroring inverter's feed-in registers
   agree or are the ones the run started with.
   */
  lemma {:induction false} RunKeepsFeedIn(cfg: Config, c: Control, acts: seq<Activity>, nominal: int, start: Wire)
    requires cfg.mirrors == Some(nominal) && Fitting(nominal) && ConsistentOrUntouched(nominal, start, c.dev.wire)
    ensures ConsistentOrUntouched(nominal, start, Run(cfg, c, acts).dev.wire)
    decreases |acts|
  {
    if acts != [] {
      match acts[0] {
        case LockedPoll(names, env) => Polling.RefreshMakesFresh(c.dev, names, env);
        case Guarded(call, maxAge, env) => CallKeepsFeedIn(cfg, c, call, maxAge, env, nominal, start);
        case Others(events) => DisturbUndisturbed(c.dev, events);
      }
      RunKeepsFeedIn(cfg, Act(cfg, c, acts[0]), acts[1..], nominal, start);
    }
  }

  /** Registers that agree at the start of a run, or belong to an inverter that does not mirror. */
  predicate Agreeing(cfg: Config, nominal: int, wire: Wire) {
    cfg.mirrors.Some? ==> Fitting(nominal) && Consistent(nominal, wire)
  }

  /** From such a start the stale-watts case comes up only for a limit above nominal, over a ratio above 100.1 %. */
  lemma RunAvoidsTrap(cfg: Config, c: Control, acts: seq<Activity>, limit: int, nominal: int)
    requires nominal > 0 && 0 <= limit && Mirroring(cfg, nominal) && Agreeing(cfg, nominal, c.dev.wire)
    ensures var wire := Run(cfg, c, acts).dev.wire;
            StaleTrap(cfg, limit, nominal, wire) ==> limit > nominal && wire[FeedInRatio] > 1001
  {
    if cfg.mirrors.Some? {
      RunKeepsFeedIn(cfg, c, acts, nominal, c.dev.wire);
      ConsistentAvoidsTrap(cfg, limit, nominal, Run(cfg, c, acts).dev.wire);
    }
  }

  // -- enabling ---------------------------------------------------------------------------------

  /** What a planning `set_export_limit` has cached, if the cache was honest. */
  lemma PreparedForLimit(cfg: Config, c: Control, call: ControlCall, maxAge: Option<int>, env: CallEnv)
    requires Honest(c.dev) && call.LimitExport?
    ensures var (d, ok) := Prepared(cfg, c.dev, call, maxAge, env);
            d.wire == c.dev.wire && d.sent == c.dev.sent && (ok ==> Fresh(d, Settings) && ExportTruthful(d))
  {
    PreparedEffect(cfg, c.dev, call, maxAge, env, GUARDED);
    assert Settings in Names(call);
  }

  /**
   One `set_export_limit` outside the stale-watts case, however it ends: if it switched the
   limitation on, the registers carry the limit.
   */
  lemma CallEnablesOverTheLimit(cfg: Config, c: Control, limit: int, verify: bool, maxAge: Option<int>, env: CallEnv,
      nominal: int)
    requires Honest(c.dev) && Faithful(env.exchanges) && nominal > 0 && 0 <= limit && Mirroring(cfg, nominal)
    requires !StaleTrap(cfg, limit, nominal, c.dev.wire)
    ensures var before, after :=
            c.dev.wire, Perform(cfg, c, LimitExport(Some(limit), true, verify), maxAge, env).ctl.dev.wire;
            before[ExportEnabled] != FlagCode(true) && after[ExportEnabled] == FlagCode(true) ==>
              Limited(cfg, limit, nominal, before, after)
  {
    var call := LimitExport(Some(limit), true, verify);
    Guarantees.CallWire(cfg, c, call, maxAge, env);
    PreparedForLimit(cfg, c, call, maxAge, env);
    var (d, ok) := Prepared(cfg, c.dev, call, maxAge, env);
    if c.dev.wire[ExportEnabled] == FlagCode(true) { return; }
    if ok && StepsOf(cfg, d, call).Ok? {
      var steps := StepsOf(cfg, d, call).value;
      assert steps[..|steps|] == steps;
      EnableMeansLimited(cfg, c.(dev := d), limit, env.exchanges, |steps|, nominal);
    } else {
      Guarantees.UnplannedCallWire(cfg, c, call, maxAge, env);
    }
  }

  /**
   At any point of a verified run whose feed-in registers agreed when it started; a limit above
   nominal still has to avoid the stale-watts case.
   */
  lemma LimitExportEnablesOverTheLimit(cfg: Config, c: Control, acts: seq<Activity>, limit: int, verify: bool,
                                       maxAge: Option<int>, env: CallEnv, nominal: int)
    requires Honest(c.dev) && VerifiedRun(acts) && Faithful(env.exchanges)
    requires nominal > 0 && 0 <= limit && Mirroring(cfg, nominal) && Agreeing(cfg, nominal, c.dev.wire)
    ensures var now := Run(cfg, c, acts);
            var after := Perform(cfg, now, LimitExport(Some(limit), true, verify), maxAge, env).ctl.dev.wire;
            && (limit > nominal ==> !StaleTrap(cfg, limit, nominal, now.dev.wire))
            && now.dev.wire[ExportEnabled] != FlagCode(true) && after[ExportEnabled] == FlagCode(true) ==>
              Limited(cfg, limit, nominal, now.dev.wire, after)
  {
    RunKeepsCacheHonest(cfg, c, acts);
    RunAvoidsTrap(cfg, c, acts, limit, nominal);
    if !StaleTrap(cfg, limit, nominal, Run(cfg, c, acts).dev.wire) {
      CallEnablesOverTheLimit(cfg, Run(cfg, c, acts), limit, verify, maxAge, env, nominal);
    }
  }

  // -- when a `set_export_limit` returns ----------------------------------------------------------

  /** A limit that does not fit the watts register raises. */
  lemma UnfittingRaises(cfg: Config, c: Control, limit: int, enabled: bool, xs: seq<Exchange>)
    requires ExportPlan(cfg, c.dev, Some(limit), enabled).Ok? && !(0 <= limit <= 0xFFFF)
    ensures LimitRun(cfg, c, limit, enabled, xs).error.Some?
  {
    var steps := ExportPlan(cfg, c.dev, Some(limit), enabled).value;
    ExportPlanShape(cfg, c.dev, limit, enabled);
    assert WattsStep(limit) in steps;
    if LimitRun(cfg, c, limit, enabled, xs).error.None? {
      BatterySafety.NoErrorNeedsCodes(cfg, Start(c, ExportAction, xs), steps);
    }
  }

  /** With every write acknowledged and landed, outside the stale-watts case, the loop completes. */
  lemma AnsweredLimitIsMet(cfg: Config, c: Control, limit: int, enabled: bool, xs: seq<Exchange>, nominal: int)
    requires ExportPlan(cfg, c.dev, Some(limit), enabled).Ok?
    requires Settable(cfg, Start(c, ExportAction, xs), limit, nominal)
    requires limit <= 0xFFFF && (enabled ==> !StaleTrap(cfg, limit, nominal, c.dev.wire))
    requires forall x :: x in xs ==> x.reply == Acked
    ensures var p := LimitRun(cfg, c, limit, enabled, xs);
            && p.error.None?
            && (Meets(ExportPlan(cfg, c.dev, Some(limit), enabled).value, p.ctl.dev.wire) <==>
                Settles(cfg, limit, enabled, nominal, c.dev.wire, SecondUp(xs)))
  {
    var steps := ExportPlan(cfg, c.dev, Some(limit), enabled).value;
    ImpliedNear(cfg, limit, nominal);
    forall s | s in steps ensures Encode(s.reg, s.target).Some? { ExportSteps(cfg, c.dev, limit, enabled, s); }
    AcknowledgedRaisesNothing(cfg, Start(c, ExportAction, xs), steps);
    LimitIsMet(cfg, c, limit, enabled, xs, nominal);
  }

  lemma LimitExecutionReturnsIff(cfg: Config, c: Control, limit: int, enabled: bool, env: CallEnv)
    requires ExportPlan(cfg, c.dev, Some(limit), enabled).Ok? && Fresh(c.dev, Settings)
    requires Polling.AllReadsAnswered(env.readback)
    ensures var steps, p :=
            ExportPlan(cfg, c.dev, Some(limit), enabled).value, LimitRun(cfg, c, limit, enabled, env.exchanges);
            Execute(cfg, c, ExportAction, steps, true, env).outcome.Ok? <==>
                p.error.None? && Meets(steps, p.ctl.dev.wire)
  {
    var steps := ExportPlan(cfg, c.dev, Some(limit), enabled).value;
    forall s | s in steps ensures ComponentOf(s.reg) == Settings { ExportSteps(cfg, c.dev, limit, enabled, s); }
    AnsweredExecutionReturnsIff(cfg, c, ExportAction, steps, env);
  }

  /** A call whose freshness read was answered is its execution, or refused outside the accepted range. */
  lemma LimitPerforms(cfg: Config, c: Control, limit: int, enabled: bool, maxAge: Option<int>, env: CallEnv)
    requires Honest(c.dev) && Polling.AllReadsAnswered(env.refresh)
    ensures var call := LimitExport(Some(limit), enabled, true);
            var d := Prepared(cfg, c.dev, call, maxAge, env).0;
            var r := Perform(cfg, c, call, maxAge, env);
            && d.wire == c.dev.wire && Fresh(d, Settings) && ExportTruthful(d)
            && (ExportPlan(cfg, d, Some(limit), enabled).Ok? <==> LimitAllowed(cfg, limit))
            && (LimitAllowed(cfg, limit) ==>
                  r == Execute(cfg, c.(dev := d), ExportAction,
                      ExportPlan(cfg, d, Some(limit), enabled).value, true, env))
            && (!LimitAllowed(cfg, limit) ==> r.outcome.Err?)
  {
    var call := LimitExport(Some(limit), enabled, true);
    ReadsPrepare(cfg, c.dev, call, maxAge, env);
    PreparedForLimit(cfg, c, call, maxAge, env);
    AnsweredCallPlans(cfg, c, call, maxAge, env);
  }

  /**
   At any point of a verified run, on a link that answers everything and outside the stale-watts
   case, a verified `set_export_limit` returns exactly when its limit is accepted and fits the
   register, and the ratio settles, which it always does up to nominal.
   */
  lemma AnsweredLimitReturnsIff(cfg: Config, c: Control, acts: seq<Activity>, limit: int, enabled: bool,
                                maxAge: Option<int>, env: CallEnv, nominal: int)
    requires Honest(c.dev) && VerifiedRun(acts) && Guarantees.Answering(env)
    requires nominal > 0 && Mirroring(cfg, nominal)
    ensures var now := Run(cfg, c, acts);
            (enabled ==> !StaleTrap(cfg, limit, nominal, now.dev.wire)) ==>
              (Perform(cfg, now, LimitExport(Some(limit), enabled, true), maxAge, env).outcome.Ok? <==>
               LimitAllowed(cfg, limit) && 0 <= limit <= 0xFFFF
               && Settles(cfg, limit, enabled, nominal, now.dev.wire, SecondUp(env.exchanges)))
  {
    var now := Run(cfg, c, acts);
    RunKeepsCacheHonest(cfg, c, acts);
    LimitPerforms(cfg, now, limit, enabled, maxAge, env);
    if LimitAllowed(cfg, limit) && (enabled ==> !StaleTrap(cfg, limit, nominal, now.dev.wire)) {
      var c1 := now.(dev := Prepared(cfg, now.dev, LimitExport(Some(limit), enabled, true), maxAge, env).0);
      LimitExecutionReturnsIff(cfg, c1, limit, enabled, env);
      if !(0 <= limit <= 0xFFFF) {
        UnfittingRaises(cfg, c1, limit, enabled, env.exchanges);
      } else {
        AnsweredLimitIsMet(cfg, c1, limit, enabled, env.exchanges, nominal);
      }
    }
  }

  /**
   With nothing it touches re-read meanwhile the stale-watts case is included: there the call
   returns exactly when the aligned ratio happens to mirror back to the requested watts, which
   above nominal it never does.
   */
  lemma UndisturbedLimitReturnsIff(cfg: Config, c: Control, acts: seq<Activity>, limit: int, enabled: bool,
                                   maxAge: Option<int>, env: CallEnv, nominal: int)
    requires Honest(c.dev) && VerifiedRun(acts) && Guarantees.Answering(env) && Undisturbing(env.exchanges)
    requires nominal > 0 && Mirroring(cfg, nominal)
    ensures var now := Run(cfg, c, acts);
            Perform(cfg, now, LimitExport(Some(limit), enabled, true), maxAge, env).outcome.Ok? <==>
              && LimitAllowed(cfg, limit) && 0 <= limit <= 0xFFFF
              && StaleWatts.LimitHolds(cfg, limit, enabled, nominal, now.dev.wire, env.exchanges)
  {
    var now := Run(cfg, c, acts);
    RunKeepsCacheHonest(cfg, c, acts);
    LimitPerforms(cfg, now, limit, enabled, maxAge, env);
    if LimitAllowed(cfg, limit) {
      var c1 := now.(dev := Prepared(cfg, now.dev, LimitExport(Some(limit), enabled, true), maxAge, env).0);
      if !(0 <= limit <= 0xFFFF) {
        LimitExecutionReturnsIff(cfg, c1, limit, enabled, env);
        UnfittingRaises(cfg, c1, limit, enabled, env.exchanges);
      } else {
        StaleWatts.LimitReturnsExactlyOutsideTrap(cfg, c1, limit, enabled, env, nominal);
      }
    }
  }

  // -- repeating it ------------------------------------------------------------------------------------

  /** A verified call that returned leaves its targets met and the settings freshly cached. */
  lemma LimitLeavesFresh(cfg: Config, c: Control, limit: int, enabled: bool, maxAge: Option<int>, env: CallEnv)
    requires Honest(c.dev)
    ensures var call := LimitExport(Some(limit), enabled, true);
            var r := Perform(cfg, c, call, maxAge, env);
            var d := Prepared(cfg, c.dev, call, maxAge, env).0;
            r.outcome.Ok? ==>
              && ExportPlan(cfg, d, Some(limit), enabled).Ok?
              && Meets(ExportPlan(cfg, d, Some(limit), enabled).value, r.ctl.dev.wire) && Fresh(r.ctl.dev, Settings)
  {
    var call := LimitExport(Some(limit), enabled, true);
    var r := Perform(cfg, c, call, maxAge, env);
    if r.outcome.Err? { return; }
    ReturnsFromExecute(cfg, c, call, maxAge, env);
    var d := Prepared(cfg, c.dev, call, maxAge, env).0;
    var steps := ExportPlan(cfg, d, Some(limit), enabled).value;
    ExecuteOutcome(cfg, c.(dev := d), ActionOf(call), steps, true, env);
    if r.outcome.value.writes == [] {
      assert HonestOn(c.dev, AsSet(Names(call))) by {
        forall n | n in AsSet(Names(call)) && n in c.dev.refreshed ensures Fresh(c.dev, n) {}
      }
      WriteFreeMeansMet(cfg, c, call, maxAge, env);
      assert Settings in Names(call);
    } else {
      ExportPlanShape(cfg, d, limit, enabled);
      Repetition.TouchedHas(steps, WattsStep(limit));
    }
  }

  /** Watts and enable keep a kept ratio, landed or not. */
  lemma TwoStepsKeepRatio(cfg: Config, p: Progress, limit: int, enabled: bool, nominal: int)
    requires p.error.None? && nominal > 0 && 0 <= limit && Mirroring(cfg, nominal)
    requires RatioKept(cfg, limit, nominal, p.ctl.dev.wire, p.ctl.dev.wire)
    ensures RatioKept(cfg, limit, nominal, p.ctl.dev.wire,
            DoSteps(cfg, p, [WattsStep(limit), EnableStep(enabled)]).ctl.dev.wire)
  {
    var q := DoStep(cfg, p, WattsStep(limit));
    assert DoSteps(cfg, p, [WattsStep(limit), EnableStep(enabled)]) == DoSteps(cfg, q, [EnableStep(enabled)]);
    WattsStepKeepsRatio(cfg, p, limit, nominal, p.ctl.dev.wire);
    if q.error.Some? {
      ErrorEnds(cfg, q, [EnableStep(enabled)]);
    } else {
      OneStep(cfg, q, EnableStep(enabled));
      EnableStepKeeps(cfg, q, enabled);
    }
  }

  /** A loop over met targets kept the ratio, whether or not what was acknowledged landed. */
  lemma MetIsKept(cfg: Config, c: Control, limit: int, xs: seq<Exchange>, nominal: int)
    requires ExportPlan(cfg, c.dev, Some(limit), true).Ok? && ExportTruthful(c.dev)
    requires nominal > 0 && 0 <= limit && Mirroring(cfg, nominal)
    requires Meets(ExportPlan(cfg, c.dev, Some(limit), true).value, LimitRun(cfg, c, limit, true, xs).ctl.dev.wire)
    ensures RatioKept(cfg, limit, nominal, c.dev.wire, LimitRun(cfg, c, limit, true, xs).ctl.dev.wire)
  {
    ExportPlanParts(cfg, c.dev, limit, true);
    if RatioOff(cfg, c.dev, limit) {
      MetHasRatio(cfg, c.dev, limit, nominal, LimitRun(cfg, c, limit, true, xs).ctl.dev.wire);
    } else {
      TwoStepsKeepRatio(cfg, Start(c, ExportAction, xs), limit, true, nominal);
    }
  }

  /** After a `set_export_limit` that returned: the watts, the enable, and up to nominal the ratio. */
  lemma ReturnedIsThere(cfg: Config, c: Control, limit: int, enabled: bool, maxAge: Option<int>, env: CallEnv,
      nominal: int)
    requires Honest(c.dev) && nominal > 0 && 0 <= limit && Mirroring(cfg, nominal)
    ensures var r := Perform(cfg, c, LimitExport(Some(limit), enabled, true), maxAge, env);
            var wire := r.ctl.dev.wire;
            r.outcome.Ok? ==>
              && LimitAllowed(cfg, limit) && limit <= 0xFFFF
              && (ExportThere(cfg, Some(limit), enabled, wire) <==> !(enabled && RatioAway(cfg, limit, nominal, wire)))
              && (enabled && limit <= nominal ==> !RatioAway(cfg, limit, nominal, wire))
  {
    var call := LimitExport(Some(limit), enabled, true);
    var r := Perform(cfg, c, call, maxAge, env);
    if r.outcome.Err? { return; }
    var d := ReturnedRun(cfg, c, limit, enabled, maxAge, env);
    MetHasWatts(cfg, d, limit, enabled, r.ctl.dev.wire);
    MetHasEnable(cfg, d, limit, enabled, r.ctl.dev.wire);
    if enabled && limit <= nominal { MetIsNotAway(cfg, c.(dev := d), limit, env.exchanges, nominal); }
  }

  /** A call that returned is a completed loop over met targets, planned on truthful fields. */
  lemma ReturnedRun(cfg: Config, c: Control, limit: int, enabled: bool, maxAge: Option<int>, env: CallEnv)
      returns (d: Device)
    requires Honest(c.dev) && Perform(cfg, c, LimitExport(Some(limit), enabled, true), maxAge, env).outcome.Ok?
    ensures ExportPlan(cfg, d, Some(limit), enabled).Ok? && ExportTruthful(d)
    ensures var wire := Perform(cfg, c, LimitExport(Some(limit), enabled, true), maxAge, env).ctl.dev.wire;
            && wire == LimitRun(cfg, c.(dev := d), limit, enabled, env.exchanges).ctl.dev.wire
            && Meets(ExportPlan(cfg, d, Some(limit), enabled).value, wire)
  {
    var call := LimitExport(Some(limit), enabled, true);
    d := Prepared(cfg, c.dev, call, maxAge, env).0;
    LimitLeavesFresh(cfg, c, limit, enabled, maxAge, env);
    PreparedForLimit(cfg, c, call, maxAge, env);
    ReturnsFromExecute(cfg, c, call, maxAge, env);
    ExecuteWire(cfg, c.(dev := d), ExportAction, ExportPlan(cfg, d, Some(limit), enabled).value, true, env);
  }

  lemma MetIsNotAway(cfg: Config, c: Control, limit: int, xs: seq<Exchange>, nominal: int)
    requires ExportPlan(cfg, c.dev, Some(limit), true).Ok? && ExportTruthful(c.dev)
    requires 0 < nominal && 0 <= limit <= nominal && Mirroring(cfg, nominal)
    requires Meets(ExportPlan(cfg, c.dev, Some(limit), true).value, LimitRun(cfg, c, limit, true, xs).ctl.dev.wire)
    ensures !RatioAway(cfg, limit, nominal, LimitRun(cfg, c, limit, true, xs).ctl.dev.wire)
  {
    MetIsKept(cfg, c, limit, xs, nominal);
    KeptIsNotAway(cfg, limit, nominal, c.dev.wire, LimitRun(cfg, c, limit, true, xs).ctl.dev.wire);
  }

  /**
   At any point of a verified run, whatever fails: a verified `set_export_limit` that returned was
   in range and leaves the watts and the enable as asked. No acknowledged write is assumed to land.
   */
  lemma ReturnedLimitIsInEffect(cfg: Config, c: Control, acts: seq<Activity>, limit: int, enabled: bool,
                                maxAge: Option<int>, env: CallEnv)
    requires Honest(c.dev) && VerifiedRun(acts)
    ensures var r := Perform(cfg, Run(cfg, c, acts), LimitExport(Some(limit), enabled, true), maxAge, env);
            r.outcome.Ok? ==>
              && LimitAllowed(cfg, limit) && r.ctl.dev.wire[ExportLimit] as int == limit
              && r.ctl.dev.wire[ExportEnabled] == if enabled then 0xAA else 0x55
  {
    var now := Run(cfg, c, acts);
    RunKeepsCacheHonest(cfg, c, acts);
    if Perform(cfg, now, LimitExport(Some(limit), enabled, true), maxAge, env).outcome.Ok? {
      var d := ReturnedRun(cfg, now, limit, enabled, maxAge, env);
      var wire := Perform(cfg, now, LimitExport(Some(limit), enabled, true), maxAge, env).ctl.dev.wire;
      ExportPlanAcceptsIff(cfg, d, Some(limit), enabled);
      MetHasWatts(cfg, d, limit, enabled, wire);
      MetHasEnable(cfg, d, limit, enabled, wire);
    }
  }

  /** An accepted plan over truthful fields sends nothing exactly when the registers are there, and then returns. */
  lemma ExecutionSilentIffThere(cfg: Config, c: Control, limit: Option<int>, enabled: bool, env: CallEnv)
    requires ExportPlan(cfg, c.dev, limit, enabled).Ok? && ExportTruthful(c.dev)
    requires limit.Some? ==> 0 <= limit.value <= 0xFFFF
    ensures var r := Execute(cfg, c, ExportAction, ExportPlan(cfg, c.dev, limit, enabled).value, true, env);
            && (r.ctl.dev.sent == c.dev.sent <==> ExportThere(cfg, limit, enabled, c.dev.wire))
            && (ExportThere(cfg, limit, enabled, c.dev.wire) ==> r.outcome.Ok? && r.outcome.value.writes == [])
  {
    var steps := ExportPlan(cfg, c.dev, limit, enabled).value;
    AllSkippedIffThere(cfg, c, limit, enabled);
    if ExportThere(cfg, limit, enabled, c.dev.wire) {
      Repetition.ExecuteSilent(cfg, c, ExportAction, steps, env);
    } else {
      forall s | s in steps ensures Encode(s.reg, s.target).Some? { ExportCodes(cfg, c.dev, limit, enabled, s); }
      Repetition.UnskippedIsSent(cfg, Start(c, ExportAction, env.exchanges), steps);
      Repetition.ExecuteKeepsSent(cfg, c, ExportAction, steps, true, env);
    }
  }

  lemma ExportCodes(cfg: Config, d: Device, limit: Option<int>, enabled: bool, s: Step)
    requires ExportPlan(cfg, d, limit, enabled).Ok? && s in ExportPlan(cfg, d, limit, enabled).value
    requires limit.Some? ==> 0 <= limit.value <= 0xFFFF
    ensures Encode(s.reg, s.target).Some?
  {
    if limit.Some? {
      ExportSteps(cfg, d, limit.value, enabled, s);
      if cfg.nominal.Some? && cfg.nominal.value > 0 { ImpliedNear(cfg, limit.value, cfg.nominal.value); }
    }
  }

  /**
   At any point, a `set_export_limit` or a lift that plans sends nothing exactly when the
   registers already are what it asks for, and then returns.
   */
  lemma LimitCallSilentIffThere(cfg: Config, c: Control, limit: Option<int>, enabled: bool, maxAge: Option<int>,
      env: CallEnv)
    requires Honest(c.dev) && (limit.Some? ==> 0 <= limit.value <= 0xFFFF)
    ensures var call := LimitExport(limit, enabled, true);
            var (d, ok) := Prepared(cfg, c.dev, call, maxAge, env);
            var r := Perform(cfg, c, call, maxAge, env);
            ok && ExportPlan(cfg, d, limit, enabled).Ok? ==>
              && (r.ctl.dev.sent == c.dev.sent <==> ExportThere(cfg, limit, enabled, c.dev.wire))
              && (ExportThere(cfg, limit, enabled, c.dev.wire) ==> r.outcome.Ok? && r.outcome.value.writes == [])
  {
    var call := LimitExport(limit, enabled, true);
    var (d, ok) := Prepared(cfg, c.dev, call, maxAge, env);
    PreparedForLimit(cfg, c, call, maxAge, env);
    if ok && ExportPlan(cfg, d, limit, enabled).Ok? {
      ExecutionSilentIffThere(cfg, c.(dev := d), limit, enabled, env);
      assert Perform(cfg, c, call, maxAge, env)
          == Execute(cfg, c.(dev := d), ExportAction, ExportPlan(cfg, d, limit, enabled).value, true, env);
    }
  }

  /**
   After a `set_export_limit` that returned, whatever is polled and however long it takes, the
   same call sends nothing exactly when the ratio it left is not away, which up to nominal it
   never is; and then it returns.
   */
  lemma RepeatedLimitCallIsSilent(cfg: Config, c: Control, limit: int, enabled: bool, maxAge: Option<int>,
                                  env: CallEnv, again: CallEnv, nominal: int)
    requires Honest(c.dev) && nominal > 0 && 0 <= limit && Mirroring(cfg, nominal)
    ensures var call := LimitExport(Some(limit), enabled, true);
            var r := Perform(cfg, c, call, maxAge, env);
            var second := Perform(cfg, r.ctl, call, maxAge, again);
            var away := enabled && RatioAway(cfg, limit, nominal, r.ctl.dev.wire);
            r.outcome.Ok? && Prepared(cfg, r.ctl.dev, call, maxAge, again).1 ==>
              && (second.ctl.dev.sent == r.ctl.dev.sent <==> !away)
              && (limit <= nominal ==> !away)
              && (!away ==> second.outcome.Ok? && second.outcome.value.writes == [])
  {
    var call := LimitExport(Some(limit), enabled, true);
    var first := Perform(cfg, c, call, maxAge, env).ctl;
    if Perform(cfg, c, call, maxAge, env).outcome.Err? { return; }
    PerformKeepsHonest(cfg, c, call, maxAge, env, GUARDED);
    ReturnedIsThere(cfg, c, limit, enabled, maxAge, env, nominal);
    var d := Prepared(cfg, first.dev, call, maxAge, again).0;
    assert ExportPlan(cfg, d, Some(limit), enabled).Ok?;
    LimitCallSilentIffThere(cfg, first, Some(limit), enabled, maxAge, again);
  }

  /** A call from agreeing 100 % for more than nominal: it returns, and leaves the ratio above 100 %. */
  lemma AboveNominalReturns(cfg: Config, c: Control, limit: int, maxAge: Option<int>, env: CallEnv, nominal: int)
    requires Honest(c.dev) && Guarantees.Answering(env) && Undisturbing(env.exchanges) && LimitAllowed(cfg, limit)
    requires 0 < nominal < limit <= 0xFFFF && cfg.nominal == Some(nominal) && cfg.mirrors == Some(nominal)
    requires c.dev.wire[ExportLimit] as int != limit && c.dev.wire[FeedInRatio] == 1000
    ensures var r := Perform(cfg, c, LimitExport(Some(limit), true, true), maxAge, env);
            && r.outcome.Ok? && r.ctl.dev.wire[ExportLimit] as int == limit
            && r.ctl.dev.wire[FeedInRatio] == MirroredRatio(limit, nominal, FirstExchange(env.exchanges).up)
  {
    LimitPerforms(cfg, c, limit, true, maxAge, env);
    var c1 := c.(dev := Prepared(cfg, c.dev, LimitExport(Some(limit), true, true), maxAge, env).0);
    ImpliedAboveNominal(cfg, limit, nominal);
    StaleWatts.LimitReturnsExactlyOutsideTrap(cfg, c1, limit, true, env, nominal);
    StaleWatts.UnalignedEndsMirrored(cfg, c1, limit, true, env.exchanges, nominal);
    StaleWatts.SetExactlyOutsideTrap(cfg, c1, limit, true, env.exchanges, nominal);
    ExecuteWire(cfg, c1, ExportAction, ExportPlan(cfg, c1.dev, Some(limit), true).value, true, env);
  }

  /** A call whose watts already are the limit, above nominal, over a ratio to align: it fails over nominal watts. */
  lemma AboveNominalFails(cfg: Config, c: Control, limit: int, maxAge: Option<int>, env: CallEnv, nominal: int)
    requires Honest(c.dev) && Guarantees.Answering(env) && Undisturbing(env.exchanges) && LimitAllowed(cfg, limit)
    requires 0 < nominal < limit <= 0xFFFF && cfg.nominal == Some(nominal) && cfg.mirrors == Some(nominal)
    requires StaleTrap(cfg, limit, nominal, c.dev.wire)
    ensures var r := Perform(cfg, c, LimitExport(Some(limit), true, true), maxAge, env);
            r.outcome.Err? && r.ctl.dev.wire[ExportLimit] as int == nominal
  {
    LimitPerforms(cfg, c, limit, true, maxAge, env);
    var c1 := c.(dev := Prepared(cfg, c.dev, LimitExport(Some(limit), true, true), maxAge, env).0);
    StaleWatts.AboveNominalMirrorsNominal(cfg, limit, nominal, FirstExchange(env.exchanges).up);
    StaleWatts.LimitReturnsExactlyOutsideTrap(cfg, c1, limit, true, env, nominal);
    StaleWatts.TrapMisplacesWatts(cfg, c1, limit, env.exchanges, nominal);
    ExecuteWire(cfg, c1, ExportAction, ExportPlan(cfg, c1.dev, Some(limit), true).value, true, env);
  }

  /**
   A 10 kW inverter rated for 15 kW, at 10000 W and 100 %, asked for 12000 W: the call returns
   verified, and the same call again fails and leaves 10000 W.
   */
  lemma RepeatAboveNominalFails(tieUp: bool, up: bool)
    ensures var cfg, call := StaleWatts.MirroringConfig(10000, 15000, tieUp), LimitExport(Some(12000), true, true);
            var env := StaleWatts.AllAnsweredEnv(up);
            var first := Perform(cfg, StaleWatts.JustRead(10000, 1000), call, None, env);
            var second := Perform(cfg, first.ctl, call, None, env);
            && first.outcome.Ok? && first.ctl.dev.wire[ExportLimit] == 12000
            && second.outcome.Err? && second.ctl.dev.wire[ExportLimit] == 10000
  {
    var cfg, c := StaleWatts.MirroringConfig(10000, 15000, tieUp), StaleWatts.JustRead(10000, 1000);
    StaleWatts.JustReadIsUndisturbed(cfg, 10000, 1000, 12000, 10000, up);
    assert MirroredRatio(12000, 10000, up) == 1200;
    RepeatFails(cfg, c, 12000, None, StaleWatts.AllAnsweredEnv(up), 10000);
  }

  /** From 100 % and other watts, asked for more than nominal that mirrors to more than 100.1 %. */
  lemma RepeatFails(cfg: Config, c: Control, limit: int, maxAge: Option<int>, env: CallEnv, nominal: int)
    requires Honest(c.dev) && Guarantees.Answering(env) && Undisturbing(env.exchanges) && LimitAllowed(cfg, limit)
    requires 0 < nominal < limit <= 0xFFFF && cfg.nominal == Some(nominal) && cfg.mirrors == Some(nominal)
    requires c.dev.wire[ExportLimit] as int != limit && c.dev.wire[FeedInRatio] == 1000
    requires 1001 < MirroredRatio(limit, nominal, FirstExchange(env.exchanges).up) < NOT_AVAILABLE
    ensures var call := LimitExport(Some(limit), true, true);
            var first := Perform(cfg, c, call, maxAge, env);
            var second := Perform(cfg, first.ctl, call, maxAge, env);
            && first.outcome.Ok? && first.ctl.dev.wire[ExportLimit] as int == limit
            && second.outcome.Err? && second.ctl.dev.wire[ExportLimit] as int == nominal
  {
    var call := LimitExport(Some(limit), true, true);
    AboveNominalReturns(cfg, c, limit, maxAge, env, nominal);
    PerformKeepsHonest(cfg, c, call, maxAge, env, GUARDED);
    ImpliedAboveNominal(cfg, limit, nominal);
    AboveNominalFails(cfg, Perform(cfg, c, call, maxAge, env).ctl, limit, maxAge, env, nominal);
  }
}
