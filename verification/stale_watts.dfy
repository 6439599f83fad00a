/**
 Where `set_export_limit` goes wrong on an inverter that keeps the two feed-in registers in
 step. First, the watts already read as the limit while the ratio does not agree: the ratio is
 aligned, the inverter moves the watts, and the watts step is skipped because the cache still
 matches. Second, a limit above nominal power, which the ratings may admit: the ratio is aligned
 to 100 %, and the watts that follow mirror to more than that. The read-back notices both.
 */
module StaleWatts {
  import opened Wrappers
  import opened Registers
  import opened Devices
  import Polling
  import opened Planner
  import opened Execution
  import Honesty
  import opened StepFacts
  import opened ExportLimiting

  /** Where the watts end up in the trap: wherever the aligned ratio moved them. */
  function MirroredWatts(cfg: Config, limit: int, nominal: int, up: bool): Word
    requires nominal > 0
  {
    ClampWord(DivRound(Implied(cfg, limit, nominal) * nominal, 1000, up))
  }

  /**
   In the trap, with every write acknowledged and landed and nothing re-read in between, the
   limitation is switched on over the mirrored watts: they are the requested ones exactly when
   the implied ratio happens to mirror back to them.
   */
  lemma TrapMisplacesWatts(cfg: Config, c: Control, limit: int, xs: seq<Exchange>, nominal: int)
    requires ExportPlan(cfg, c.dev, Some(limit), true).Ok?
    requires nominal > 0 && 0 <= limit && cfg.nominal == Some(nominal) && cfg.mirrors == Some(nominal)
    requires ExportTruthful(c.dev) && Undisturbing(xs)
    ensures var p := LimitRun(cfg, c, limit, true, xs);
            StaleTrap(cfg, limit, nominal, c.dev.wire) ==>
              && p.error.None?
              && p.ctl.dev.wire[ExportLimit] == MirroredWatts(cfg, limit, nominal, FirstExchange(xs).up)
              && p.ctl.dev.wire[FeedInRatio] as int == Implied(cfg, limit, nominal)
              && p.ctl.dev.wire[ExportEnabled] == FlagCode(true)
  {
    if !StaleTrap(cfg, limit, nominal, c.dev.wire) { return; }
    var p := Start(c, ExportAction, xs);
    var ratio, watts, on := RatioStep(cfg, limit), WattsStep(limit), EnableStep(true);
    ExportPlanShape(cfg, c.dev, limit, true);
    assert RatioPart(cfg, c.dev, limit, true) == [ratio];
    var q := DoStep(cfg, p, ratio);
    TrapRatio(cfg, p, limit, nominal);
    assert q.ctl.dev.cache[ExportLimit] == p.ctl.dev.cache[ExportLimit]
        && q.ctl.dev.cache[ExportEnabled] == p.ctl.dev.cache[ExportEnabled] by {
      assert ComponentOf(ExportLimit) == Settings && ComponentOf(ExportEnabled) == Settings;
    }
    TrapWatts(cfg, q, limit);
    var q1 := DoStep(cfg, q, watts);
    EnableStepKeeps(cfg, q1, true);
    TrapEnable(cfg, q1);
    ThreeSteps(cfg, p, ratio, watts, on);
  }

  /** The watts the call ends with, start by start: the requested ones, or the mirrored ones in the trap. */
  predicate WattsHold(cfg: Config, limit: int, enabled: bool, nominal: int, start: Wire, up: bool)
    requires nominal > 0
  {
    enabled && StaleTrap(cfg, limit, nominal, start) ==> MirroredWatts(cfg, limit, nominal, up) as int == limit
  }

  /**
   An undisturbed call: what it plans on is truthful, every write lands, and nothing it touches
   is re-read meanwhile.
   */
  ghost predicate UndisturbedCall(cfg: Config, c: Control, limit: int, xs: seq<Exchange>, nominal: int) {
    && Settable(cfg, Start(c, ExportAction, xs), limit, nominal) && limit <= 0xFFFF && Undisturbing(xs)
  }

  /** Outside the trap the loop completes and leaves the limit set. */
  lemma OutsideTrap(cfg: Config, c: Control, limit: int, enabled: bool, xs: seq<Exchange>, nominal: int)
    requires ExportPlan(cfg, c.dev, Some(limit), enabled).Ok? && UndisturbedCall(cfg, c, limit, xs, nominal)
    requires enabled ==> !StaleTrap(cfg, limit, nominal, c.dev.wire)
    ensures var p := LimitRun(cfg, c, limit, enabled, xs);
            p.error.None? && LimitSet(cfg, limit, nominal, enabled, c.dev.wire, p.ctl.dev.wire)
  {
    var p, steps := Start(c, ExportAction, xs), ExportPlan(cfg, c.dev, Some(limit), enabled).value;
    ImpliedNear(cfg, limit, nominal);
    forall s | s in steps ensures Encode(s.reg, s.target).Some? { ExportSteps(cfg, c.dev, limit, enabled, s); }
    AcknowledgedRaisesNothing(cfg, p, steps);
    LimitCompleted(cfg, c, limit, enabled, xs, nominal);
  }

  /** The loop completes either way, and leaves the limit set exactly when the watts hold. */
  lemma SetExactlyOutsideTrap(cfg: Config, c: Control, limit: int, enabled: bool, xs: seq<Exchange>, nominal: int)
    requires ExportPlan(cfg, c.dev, Some(limit), enabled).Ok? && UndisturbedCall(cfg, c, limit, xs, nominal)
    ensures var p := LimitRun(cfg, c, limit, enabled, xs);
            && p.error.None?
            && (p.ctl.dev.wire[ExportLimit] as int == limit <==>
                 WattsHold(cfg, limit, enabled, nominal, c.dev.wire, FirstExchange(xs).up))
            && (p.ctl.dev.wire[ExportLimit] as int == limit ==>
                  LimitSet(cfg, limit, nominal, enabled, c.dev.wire, p.ctl.dev.wire))
  {
    if enabled && StaleTrap(cfg, limit, nominal, c.dev.wire) {
      TrapMisplacesWatts(cfg, c, limit, xs, nominal);
    } else {
      OutsideTrap(cfg, c, limit, enabled, xs, nominal);
    }
  }

  /**
   With every write acknowledged and landed and nothing re-read in between, an inverter that
   mirrors ends with the requested watts exactly when it did not start in the trap, or the
   aligned ratio happens to mirror back to them.
   */
  lemma WattsHoldExactlyOutsideTrap(cfg: Config, c: Control, limit: int, xs: seq<Exchange>, nominal: int)
    requires ExportPlan(cfg, c.dev, Some(limit), true).Ok? && UndisturbedCall(cfg, c, limit, xs, nominal)
    ensures LimitRun(cfg, c, limit, true, xs).ctl.dev.wire[ExportLimit] as int == limit <==>
            !StaleTrap(cfg, limit, nominal, c.dev.wire)
                || MirroredWatts(cfg, limit, nominal, FirstExchange(xs).up) as int == limit
  {
    SetExactlyOutsideTrap(cfg, c, limit, true, xs, nominal);
  }

  /** Above nominal the aligned ratio mirrors to nominal watts. */
  lemma AboveNominalMirrorsNominal(cfg: Config, limit: int, nominal: int, up: bool)
    requires 0 < nominal < limit && nominal <= 0xFFFF
    ensures MirroredWatts(cfg, limit, nominal, up) as int == nominal
  {
    ImpliedAboveNominal(cfg, limit, nominal);
    DivRoundNear(1000 * nominal, 1000, up);
  }

  /** Above nominal the aligned ratio never mirrors back to the limit. */
  lemma AboveNominalNeverMirrorsBack(cfg: Config, limit: int, nominal: int, up: bool)
    requires 0 < nominal < limit
    ensures MirroredWatts(cfg, limit, nominal, up) as int != limit
  {
    ImpliedAboveNominal(cfg, limit, nominal);
    DivRoundNear(1000 * nominal, 1000, up);
  }

  /** What decides an undisturbed call: where the trap leaves the watts, and whether the ratio settles. */
  predicate LimitHolds(cfg: Config, limit: int, enabled: bool, nominal: int, start: Wire, xs: seq<Exchange>)
    requires nominal > 0
  {
    && WattsHold(cfg, limit, enabled, nominal, start, FirstExchange(xs).up)
    && Settles(cfg, limit, enabled, nominal, start, SecondUp(xs))
  }

  /** The same, start by start: up to nominal only the trap matters. */
  lemma LimitHoldsUpToNominal(cfg: Config, limit: int, enabled: bool, nominal: int, start: Wire, xs: seq<Exchange>)
    requires nominal > 0 && limit <= nominal
    ensures LimitHolds(cfg, limit, enabled, nominal, start, xs) <==>
            WattsHold(cfg, limit, enabled, nominal, start, FirstExchange(xs).up)
  {
  }

  /** Above nominal, on a mirroring inverter: no ratio to align, or other watts that mirror to at most 100.1 %. */
  lemma LimitHoldsAboveNominal(cfg: Config, limit: int, nominal: int, start: Wire, xs: seq<Exchange>)
    requires 0 < nominal < limit && cfg.mirrors.Some?
    ensures LimitHolds(cfg, limit, true, nominal, start, xs) <==>
            || !RatioAway(cfg, limit, nominal, start)
            || (start[ExportLimit] as int != limit && DivRound(1000 * limit, nominal, SecondUp(xs)) <= 1001)
  {
    AboveNominalNeverMirrorsBack(cfg, limit, nominal, FirstExchange(xs).up);
  }

  /**
   After every write of an undisturbed call was answered, the read-back finds every target met
   exactly when the limit holds.
   */
  lemma MetExactlyOutsideTrap(cfg: Config, c: Control, limit: int, enabled: bool, xs: seq<Exchange>, nominal: int)
    requires ExportPlan(cfg, c.dev, Some(limit), enabled).Ok? && UndisturbedCall(cfg, c, limit, xs, nominal)
    ensures var p := LimitRun(cfg, c, limit, enabled, xs);
            && p.error.None?
            && (Meets(ExportPlan(cfg, c.dev, Some(limit), enabled).value, p.ctl.dev.wire) <==>
                LimitHolds(cfg, limit, enabled, nominal, c.dev.wire, xs))
  {
    SetExactlyOutsideTrap(cfg, c, limit, enabled, xs, nominal);
    if enabled && StaleTrap(cfg, limit, nominal, c.dev.wire) {
      MetInTrap(cfg, c, limit, xs, nominal);
    } else {
      LimitIsMet(cfg, c, limit, enabled, xs, nominal);
    }
  }

  lemma MetInTrap(cfg: Config, c: Control, limit: int, xs: seq<Exchange>, nominal: int)
    requires ExportPlan(cfg, c.dev, Some(limit), true).Ok? && UndisturbedCall(cfg, c, limit, xs, nominal)
    requires StaleTrap(cfg, limit, nominal, c.dev.wire)
    ensures Meets(ExportPlan(cfg, c.dev, Some(limit), true).value, LimitRun(cfg, c, limit, true, xs).ctl.dev.wire) <==>
            LimitHolds(cfg, limit, true, nominal, c.dev.wire, xs)
  {
    var wire := LimitRun(cfg, c, limit, true, xs).ctl.dev.wire;
    TrapMisplacesWatts(cfg, c, limit, xs, nominal);
    SetExactlyOutsideTrap(cfg, c, limit, true, xs, nominal);
    if wire[ExportLimit] as int == limit {
      if limit > nominal { AboveNominalNeverMirrorsBack(cfg, limit, nominal, FirstExchange(xs).up); }
      SetIsMet(cfg, c.dev, limit, true, nominal, wire);
    } else if Meets(ExportPlan(cfg, c.dev, Some(limit), true).value, wire) {
      MetHasWatts(cfg, c.dev, limit, true, wire);
    }
  }

  /** So the call returns exactly then, and otherwise fails its verification. */
  lemma LimitReturnsExactlyOutsideTrap(cfg: Config, c: Control, limit: int, enabled: bool, env: CallEnv, nominal: int)
    requires ExportPlan(cfg, c.dev, Some(limit), enabled).Ok? && UndisturbedCall(cfg, c, limit, env.exchanges, nominal)
    requires Fresh(c.dev, Settings) && Polling.AllReadsAnswered(env.readback)
    ensures var r := Execute(cfg, c, ExportAction, ExportPlan(cfg, c.dev, Some(limit), enabled).value, true, env);
            if LimitHolds(cfg, limit, enabled, nominal, c.dev.wire, env.exchanges) then r.outcome.Ok?
            else r.outcome.Err? && r.outcome.error.VerificationFailed?
  {
    var steps := ExportPlan(cfg, c.dev, Some(limit), enabled).value;
    MetExactlyOutsideTrap(cfg, c, limit, enabled, env.exchanges, nominal);
    forall s | s in steps ensures ComponentOf(s.reg) == Settings { ExportSteps(cfg, c.dev, limit, enabled, s); }
    Honesty.AnsweredExecutionReturnsIff(cfg, c, ExportAction, steps, env);
  }

  /** Without a ratio to align, other watts are written and the ratio ends where they mirror it. */
  lemma UnalignedEndsMirrored(cfg: Config, c: Control, limit: int, enabled: bool, xs: seq<Exchange>, nominal: int)
    requires ExportPlan(cfg, c.dev, Some(limit), enabled).Ok? && UndisturbedCall(cfg, c, limit, xs, nominal)
    requires cfg.mirrors.Some? && c.dev.wire[ExportLimit] as int != limit
    requires !(enabled && RatioAway(cfg, limit, nominal, c.dev.wire))
    ensures LimitRun(cfg, c, limit, enabled, xs).ctl.dev.wire[FeedInRatio]
            == MirroredRatio(limit, nominal, FirstExchange(xs).up)
  {
    var p := Start(c, ExportAction, xs);
    var q := DoStep(cfg, p, WattsStep(limit));
    ExportPlanParts(cfg, c.dev, limit, enabled);
    SatisfiedWatts(c.dev.wire[ExportLimit], limit);
    UndisturbedStep(cfg, p, WattsStep(limit));
    WattsStepRatio(cfg, p, limit, nominal);
    assert DoSteps(cfg, p, [WattsStep(limit), EnableStep(enabled)]) == DoSteps(cfg, q, [EnableStep(enabled)]);
    OneStep(cfg, q, EnableStep(enabled));
    EnableStepKeeps(cfg, q, enabled);
  }

  // -- two such starts ------------------------------------------------------------------------------

  /** An inverter that was just read, with the given feed-in registers. */
  function JustRead(watts: Word, ratio: Word): Control {
    var wire := ZERO_WIRE[ExportLimit := watts][FeedInRatio := ratio];
    Control(Read(Device(wire, AnyOther, EMPTY_CACHE, None, map[], 0, []), Settings), None)
  }

  /** A mirroring inverter of the given nominal power, whose ratings admit up to `rated` watts. */
  function MirroringConfig(nominal: int, rated: int, tieUp: bool): Config {
    Config(None, 10, 30, 60, Some(nominal), Some(Ratings(None, Some(rated))), Some(nominal), tieUp)
  }

  /** Every write and read answered, and nothing else going on. */
  function AllAnsweredEnv(up: bool): CallEnv { CallEnv([], [], [Exchange([], Acked, true, up, [])], [], []) }

  /** What was just read is not read again. */
  lemma JustReadIsPrepared(cfg: Config, watts: Word, ratio: Word, limit: int, up: bool)
    requires cfg.maxAge == 30
    ensures Prepared(cfg, JustRead(watts, ratio).dev, LimitExport(Some(limit), true, true), None, AllAnsweredEnv(up))
         == (JustRead(watts, ratio).dev, true)
  {
    var d := JustRead(watts, ratio).dev;
    assert Stale(d, [Settings], 30) == Stale(d, [], 30);
  }

  lemma JustReadIsUndisturbed(cfg: Config, watts: Word, ratio: Word, limit: int, nominal: int, up: bool)
    requires 0 < nominal && 0 <= limit <= 0xFFFF && cfg.nominal == Some(nominal) && cfg.mirrors == Some(nominal)
    ensures UndisturbedCall(cfg, JustRead(watts, ratio), limit, AllAnsweredEnv(up).exchanges, nominal)
    ensures Fresh(JustRead(watts, ratio).dev, Settings)
  {
    assert Fresh(JustRead(watts, ratio).dev, Settings);
  }

  /** From a trapped start whose ratio does not mirror back, the call fails over the mirrored watts. */
  lemma TrappedCallFails(cfg: Config, watts: Word, ratio: Word, nominal: int, up: bool)
    requires 0 < nominal && cfg.nominal == Some(nominal) && cfg.mirrors == Some(nominal) && cfg.maxAge == 30
    requires StaleTrap(cfg, watts, nominal, JustRead(watts, ratio).dev.wire)
    requires MirroredWatts(cfg, watts, nominal, up) != watts
    requires ExportPlan(cfg, JustRead(watts, ratio).dev, Some(watts), true).Ok?
    ensures var r :=
            Perform(cfg, JustRead(watts, ratio), LimitExport(Some(watts), true, true), None, AllAnsweredEnv(up));
            && r.ctl.dev.wire[ExportLimit] == MirroredWatts(cfg, watts, nominal, up)
            && r.ctl.dev.wire[ExportEnabled] == FlagCode(true)
            && r.outcome.Err? && r.outcome.error.VerificationFailed?
  {
    var c, env, call := JustRead(watts, ratio), AllAnsweredEnv(up), LimitExport(Some(watts as int), true, true);
    var steps := ExportPlan(cfg, c.dev, Some(watts as int), true).value;
    JustReadIsPrepared(cfg, watts, ratio, watts, up);
    JustReadIsUndisturbed(cfg, watts, ratio, watts, nominal, up);
    LimitReturnsExactlyOutsideTrap(cfg, c, watts, true, env, nominal);
    TrapMisplacesWatts(cfg, c, watts, env.exchanges, nominal);
    Honesty.ExecuteWire(cfg, c, ExportAction, steps, true, env);
    assert Perform(cfg, c, call, None, env) == Execute(cfg, c, ExportAction, steps, true, env);
  }

  /**
   A 15 kW inverter at 50 W and 100 %, asked for 50 W: it is left limited to 45 W with either
   rounding, and the call fails its verification. The watts write did not have the last word.
   */
  lemma TrappedStartFails(tieUp: bool, up: bool)
    ensures var r :=
            Perform(MirroringConfig(15000, 15000, tieUp), JustRead(50, 1000),
                LimitExport(Some(50), true, true), None, AllAnsweredEnv(up));
            && r.ctl.dev.wire[ExportLimit] == 45 && r.ctl.dev.wire[ExportEnabled] == FlagCode(true)
            && r.outcome.Err? && r.outcome.error.VerificationFailed?
  {
    var cfg := MirroringConfig(15000, 15000, tieUp);
    assert Implied(cfg, 50, 15000) == 3 && MirroredWatts(cfg, 50, 15000, up) == 45;
    TrappedCallFails(cfg, 50, 1000, 15000, up);
  }

  /**
   A 10 kW inverter rated for 15 kW, at 12000 W and 120 %, asked for 12000 W: the registers agree
   and already are what is asked for, yet it is left limited to 10000 W and the call fails.
   */
  lemma AboveNominalStartFails(tieUp: bool, up: bool)
    ensures Consistent(10000, JustRead(12000, 1200).dev.wire)
    ensures var r :=
            Perform(MirroringConfig(10000, 15000, tieUp), JustRead(12000, 1200),
                LimitExport(Some(12000), true, true), None, AllAnsweredEnv(up));
            && r.ctl.dev.wire[ExportLimit] == 10000 && r.ctl.dev.wire[ExportEnabled] == FlagCode(true)
            && r.outcome.Err? && r.outcome.error.VerificationFailed?
  {
    var cfg := MirroringConfig(10000, 15000, tieUp);
    assert Implied(cfg, 12000, 10000) == 1000 && MirroredWatts(cfg, 12000, 10000, up) == 10000;
    TrappedCallFails(cfg, 12000, 1200, 10000, up);
  }

  /** The stale field still reads as the limit, so the watts are left where the ratio moved them. */
  lemma TrapWatts(cfg: Config, p: Progress, limit: int)
    requires p.error.None? && p.ctl.dev.cache[ExportLimit] == Number(limit) && 0 <= limit <= 0xFFFF
    ensures var q := DoStep(cfg, p, WattsStep(limit)); q.ctl == p.ctl && q.error.None? && q.rest == p.rest
  {
  }

  lemma TrapRatio(cfg: Config, p: Progress, limit: int, nominal: int)
    requires p.error.None? && Undisturbing(p.rest) && ExportTruthful(p.ctl.dev)
    requires nominal > 0 && 0 <= limit && cfg.nominal == Some(nominal) && cfg.mirrors == Some(nominal)
    requires StaleTrap(cfg, limit, nominal, p.ctl.dev.wire)
    ensures var q := DoStep(cfg, p, RatioStep(cfg, limit));
            && q.error.None? && Undisturbing(q.rest)
            && q.ctl.dev.wire[ExportLimit] == MirroredWatts(cfg, limit, nominal, FirstExchange(p.rest).up)
            && q.ctl.dev.wire[FeedInRatio] as int == Implied(cfg, limit, nominal)
            && SameCached(p.ctl.dev, q.ctl.dev)
            && q.ctl.dev.wire[ExportEnabled] == p.ctl.dev.wire[ExportEnabled]
  {
    var s := RatioStep(cfg, limit);
    ImpliedNear(cfg, limit, nominal);
    AwayIsUnsatisfied(cfg, limit, nominal, p.ctl.dev.wire);
    UndisturbedStep(cfg, p, s);
    RatioLands(cfg, limit, nominal, p.ctl.dev.wire, FirstExchange(p.rest).up);
  }

  /** An aligned ratio that lands on a mirroring inverter. */
  lemma RatioLands(cfg: Config, limit: int, nominal: int, wire: Wire, up: bool)
    requires nominal > 0 && cfg.mirrors == Some(nominal) && 0 <= Implied(cfg, limit, nominal) <= 1000
    ensures var landed := Land(cfg.mirrors, wire, FeedInRatio, Implied(cfg, limit, nominal), up);
            && landed[ExportLimit] == MirroredWatts(cfg, limit, nominal, up)
            && landed[FeedInRatio] as int == Implied(cfg, limit, nominal)
            && landed[ExportEnabled] == wire[ExportEnabled]
  {
  }

  lemma TrapEnable(cfg: Config, p: Progress)
    requires p.error.None? && Undisturbing(p.rest) && Truthful(p.ctl.dev, ExportEnabled)
    ensures var q := DoStep(cfg, p, EnableStep(true));
            q.error.None? && q.ctl.dev.wire[ExportEnabled] == FlagCode(true)
  {
    StepCases(cfg, p, EnableStep(true), ExportEnabled);
    SameOnWireIsSameWord(ExportEnabled, p.ctl.dev.wire[ExportEnabled], Flag(true));
    if p.rest != [] { assert p.rest[0] in p.rest; }
  }
}
