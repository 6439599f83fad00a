/**
 What a call leaves that was asked not to verify. It neither re-reads nor forgets what it
 wrote, so its cache stays honest exactly when its registers already were where it wanted them.
 */
module Unverified {
  import opened Wrappers
  import opened Registers
  import opened Devices
  import opened Planner
  import opened Execution
  import opened Honesty
  import opened StepFacts
  import opened BatterySafety
  import opened Classifier
  import opened ExportLimiting

  predicate IsGuarded(r: Register) { ComponentOf(r) == Settings || ComponentOf(r) == BatteryLimits }

  /** The register holds a word that its stamped cache does not show. */
  ghost predicate Betrayed(d: Device, r: Register) {
    IsGuarded(r) && ComponentOf(r) in d.refreshed && !Truthful(d, r)
  }

  lemma BetrayedIsDishonest(d: Device, r: Register)
    requires Betrayed(d, r)
    ensures !Honest(d)
  {
    assert !Fresh(d, ComponentOf(r));
  }

  lemma SameStaysHonest(d: Device, d1: Device)
    requires Honest(d) && SameCached(d, d1) && d1.wire == d.wire
    ensures Honest(d1)
  {
    forall n | n in GUARDED && n in d1.refreshed ensures Fresh(d1, n) { assert Fresh(d, n); }
  }

  /** A register that moved to another decoded value under an unchanged cache. */
  lemma MovedIsBetrayed(d: Device, d1: Device, r: Register)
    requires Truthful(d, r) && SameCached(d, d1) && IsGuarded(r) && ComponentOf(r) in d.refreshed
    requires Decode(r, d1.wire[r]) != Decode(r, d.wire[r])
    ensures Betrayed(d1, r)
  {
  }

  lemma SameCachedTrans(d: Device, d1: Device, d2: Device)
    requires SameCached(d, d1) && SameCached(d1, d2)
    ensures SameCached(d, d2)
  {
  }

  /** What an unverified execution returns is its step loop. */
  lemma UnverifiedExecution(cfg: Config, c: Control, action: Action, steps: seq<Step>, env: CallEnv)
    ensures var p, r :=
            DoSteps(cfg, Start(c, action, env.exchanges), steps), Execute(cfg, c, action, steps, false, env);
            r.outcome.Ok? ==> p.error.None? && r.ctl == p.ctl
  {
  }

  // -- targets that are already there ---------------------------------------------------------

  /** A step a plan makes where its target already is: exact, or a fence. */
  predicate Ordinary(s: Step) {
    IsGuarded(s.reg) && (s.how == Exactly || (s.how == AtOrBelow && IsLimit(s.reg)))
  }

  /** A held target is satisfied, but for a limit's sentinel; a held EMS mode is its own word. */
  lemma HeldWord(s: Step, w: Word)
    requires Holds(s, w) && Ordinary(s)
    ensures Satisfied(s, Decode(s.reg, w)) || (IsLimit(s.reg) && Encode(s.reg, s.target) == Some(w))
    ensures s.reg == EmsModeReg ==> Encode(s.reg, s.target) == Some(w)
  {
    if Encode(s.reg, s.target) == Some(w) {
      EncodeThenDecode(s.reg, s.target, w);
    }
  }

  /** A held step is skipped, or writes the word that is there. */
  lemma HeldChoice(cfg: Config, c: Control, s: Step)
    requires Holds(s, c.dev.wire[s.reg]) && Truthful(c.dev, s.reg) && Ordinary(s)
    ensures Skipped(cfg, c, s) || (Plain(s.reg) && Encode(s.reg, s.target) == Some(c.dev.wire[s.reg]))
  {
    HeldWord(s, c.dev.wire[s.reg]);
  }

  /** A step whose target is already there writes nothing, or the same word. */
  lemma HeldStep(cfg: Config, p: Progress, s: Step)
    requires p.error.None? && Undisturbing(p.rest) && Holds(s, p.ctl.dev.wire[s.reg]) && Truthful(p.ctl.dev, s.reg)
    requires Ordinary(s)
    ensures var q := DoStep(cfg, p, s);
            && q.error.None? && Undisturbing(q.rest) && SameCached(p.ctl.dev, q.ctl.dev)
               && q.ctl.dev.wire == p.ctl.dev.wire
  {
    HeldChoice(cfg, p.ctl, s);
    UndisturbedStep(cfg, p, s);
  }

  ghost predicate AllHeld(steps: seq<Step>, d: Device) {
    forall s :: s in steps ==> Ordinary(s) && Holds(s, d.wire[s.reg]) && Truthful(d, s.reg)
  }

  lemma {:induction false} HeldLoop(cfg: Config, p: Progress, steps: seq<Step>)
    requires p.error.None? && Undisturbing(p.rest) && AllHeld(steps, p.ctl.dev)
    ensures var q := DoSteps(cfg, p, steps);
            q.error.None? && SameCached(p.ctl.dev, q.ctl.dev) && q.ctl.dev.wire == p.ctl.dev.wire
    decreases |steps|
  {
    if steps != [] {
      assert steps[0] in steps;
      var p1 := DoStep(cfg, p, steps[0]);
      HeldStep(cfg, p, steps[0]);
      HeldLoop(cfg, p1, steps[1..]);
      SameCachedTrans(p.ctl.dev, p1.ctl.dev, DoSteps(cfg, p, steps).ctl.dev);
    }
  }

  lemma {:induction false} LoopKeepsCached(cfg: Config, p: Progress, steps: seq<Step>)
    requires Undisturbing(p.rest) && p.error.None? && DoSteps(cfg, p, steps).error.None?
    ensures SameCached(p.ctl.dev, DoSteps(cfg, p, steps).ctl.dev)
    decreases |steps|
  {
    if steps != [] {
      var p1 := DoStep(cfg, p, steps[0]);
      if p1.error.Some? { ErrorEnds(cfg, p1, steps[1..]); }
      UndisturbedStep(cfg, p, steps[0]);
      LoopKeepsCached(cfg, p1, steps[1..]);
      SameCachedTrans(p.ctl.dev, p1.ctl.dev, DoSteps(cfg, p, steps).ctl.dev);
    }
  }

  // -- battery modes -----------------------------------------------------------------------------

  /** A target that was not there and now is reads back as something else. */
  lemma NowHeldReadsElse(s: Step, before: Word, after: Word)
    requires BatteryRegister(s.reg) && !s.how.Within? && Holds(s, after) && !Holds(s, before)
    ensures Decode(s.reg, after) != Decode(s.reg, before)
  {
    DecodeThenEncode(s.reg, after);
    DecodeThenEncode(s.reg, before);
    if Encode(s.reg, s.target) == Some(after) { EncodeThenDecode(s.reg, s.target, after); }
  }

  /** The last step of a register was not there: the cache now hides what the plan wrote. */
  lemma MissedIsBetrayed(cfg: Config, c: Control, want: DesiredState, xs: seq<Exchange>, i: nat, s: Step)
    requires Plan(cfg, c.dev, want).Ok? && BatteryTruthful(c.dev) && Undisturbing(xs)
    requires Applied(cfg, c, want, xs).error.None?
    requires LastAt(Plan(cfg, c.dev, want).value, i, s) && !Holds(s, c.dev.wire[s.reg])
    requires ComponentOf(s.reg) in c.dev.refreshed
    ensures !Honest(Applied(cfg, c, want, xs).ctl.dev)
  {
    var after := Applied(cfg, c, want, xs).ctl.dev;
    BatteryPlanWrites(cfg, c.dev, want);
    assert Plan(cfg, c.dev, want).value[i] in Plan(cfg, c.dev, want).value;
    AppliedHolds(cfg, c, want, xs, i, s);
    NowHeldReadsElse(s, c.dev.wire[s.reg], after.wire[s.reg]);
    LoopKeepsCached(cfg, Start(c, BatteryAction(want.mode), xs), Plan(cfg, c.dev, want).value);
    MovedIsBetrayed(c.dev, after, s.reg);
    BetrayedIsDishonest(after, s.reg);
  }

  /** A plan not completed from the start moves some register away from its cache. */
  lemma IncompleteIsDishonest(cfg: Config, c: Control, want: DesiredState, xs: seq<Exchange>)
    requires Plan(cfg, c.dev, want).Ok? && BatteryTruthful(c.dev) && Undisturbing(xs)
    requires Applied(cfg, c, want, xs).error.None?
    requires Settings in c.dev.refreshed && BatteryLimits in c.dev.refreshed
    requires Limits(cfg).Ok? && !Completed(cfg, want, Limits(cfg).value, c.dev.wire)
    ensures !Honest(Applied(cfg, c, want, xs).ctl.dev)
  {
    var full, w := Limits(cfg).value, c.dev.wire;
    PlanNeedsLimits(cfg, c.dev, want);
    if !Holds(LimitStep(cfg, want.mode, full, MaxCharge), w[MaxCharge]) {
      var i := FindLimit(cfg, c.dev, want, MaxCharge);
      MissedIsBetrayed(cfg, c, want, xs, i, LimitStep(cfg, want.mode, full, MaxCharge));
    } else if !Holds(LimitStep(cfg, want.mode, full, MaxDischarge), w[MaxDischarge]) {
      var i := FindLimit(cfg, c.dev, want, MaxDischarge);
      MissedIsBetrayed(cfg, c, want, xs, i, LimitStep(cfg, want.mode, full, MaxDischarge));
    } else if !Holds(EmsStep(want.mode), w[EmsModeReg]) {
      var i := FindEms(cfg, c.dev, want);
      MissedIsBetrayed(cfg, c, want, xs, i, EmsStep(want.mode));
    } else {
      var power, command := FindForced(cfg, c.dev, want);
      if !Holds(PowerStep(want.power.value), w[ForcedPower]) {
        MissedIsBetrayed(cfg, c, want, xs, power, PowerStep(want.power.value));
      } else {
        MissedIsBetrayed(cfg, c, want, xs, command, CommandStep(want.mode));
      }
    }
  }

  /** A command that is there is not being reversed. */
  lemma HeldIsNotReversing(d: Device, m: BatteryMode)
    requires Holds(CommandStep(m), d.wire[ChargeCommandReg]) && Truthful(d, ChargeCommandReg)
    ensures !Reversing(d, m)
  {
    EncodeThenDecode(ChargeCommandReg, Command(CommandFor(m)), d.wire[ChargeCommandReg]);
  }

  lemma CompletedIsHeld(cfg: Config, d: Device, want: DesiredState)
    requires Plan(cfg, d, want).Ok? && BatteryTruthful(d)
    requires Limits(cfg).Ok? && Completed(cfg, want, Limits(cfg).value, d.wire)
    ensures AllHeld(Plan(cfg, d, want).value, d)
  {
    if IsForced(want.mode) { HeldIsNotReversing(d, want.mode); }
    forall s | s in Plan(cfg, d, want).value ensures Ordinary(s) && Holds(s, d.wire[s.reg]) && Truthful(d, s.reg) {
      PlanMembers(cfg, d, want, s);
    }
  }

  /** The step loop of an undisturbed `apply` keeps the cache honest exactly when its plan was completed before. */
  lemma LoopHonestIffCompleted(cfg: Config, c: Control, want: DesiredState, xs: seq<Exchange>)
    requires Plan(cfg, c.dev, want).Ok? && BatteryTruthful(c.dev) && Honest(c.dev) && Undisturbing(xs)
    requires Settings in c.dev.refreshed && BatteryLimits in c.dev.refreshed
    ensures Limits(cfg).Ok?
    ensures var p := Applied(cfg, c, want, xs);
            p.error.None? ==> (Honest(p.ctl.dev) <==> Completed(cfg, want, Limits(cfg).value, c.dev.wire))
  {
    PlanNeedsLimits(cfg, c.dev, want);
    if Completed(cfg, want, Limits(cfg).value, c.dev.wire) {
      CompletedIsHeld(cfg, c.dev, want);
      HeldLoop(cfg, Start(c, BatteryAction(want.mode), xs), Plan(cfg, c.dev, want).value);
      SameStaysHonest(c.dev, Applied(cfg, c, want, xs).ctl.dev);
    } else if Applied(cfg, c, want, xs).error.None? {
      IncompleteIsDishonest(cfg, c, want, xs);
    }
  }

  /** What an unverified call plans on. */
  lemma PreparedForUnverified(cfg: Config, c: Control, call: ControlCall, maxAge: Option<int>, env: CallEnv)
    requires Honest(c.dev) && !call.Operate? && !call.verify
    requires Perform(cfg, c, call, maxAge, env).outcome.Ok?
    ensures var d := Prepared(cfg, c.dev, call, maxAge, env).0;
            && d.wire == c.dev.wire && Honest(d) && StepsOf(cfg, d, call).Ok?
            && (forall n :: n in Names(call) ==> n in d.refreshed && Fresh(d, n))
            && var p := DoSteps(cfg, Start(c.(dev := d), ActionOf(call), env.exchanges), StepsOf(cfg, d, call).value);
               p.error.None? && Perform(cfg, c, call, maxAge, env).ctl == p.ctl
  {
    PreparedEffect(cfg, c.dev, call, maxAge, env, GUARDED);
    ReturnsFromExecute(cfg, c, call, maxAge, env);
    var d := Prepared(cfg, c.dev, call, maxAge, env).0;
    forall n | n in Names(call) ensures n in d.refreshed && Fresh(d, n) { assert n in GUARDED; }
    UnverifiedExecution(cfg, c.(dev := d), ActionOf(call), StepsOf(cfg, d, call).value, env);
  }

  /**
   An unverified `apply` that returned, its writes landed and nothing it touches re-read
   meanwhile, leaves the cache honest exactly when every planned register already held its
   target before the call. A doubted EMS word may still be written, over itself.
   */
  lemma UnverifiedApplyHonestIff(cfg: Config, c: Control, want: DesiredState, maxAge: Option<int>, env: CallEnv)
    requires Honest(c.dev) && Undisturbing(env.exchanges)
    ensures var r := Perform(cfg, c, ApplyMode(want, false), maxAge, env);
            r.outcome.Ok? ==>
              Limits(cfg).Ok? && (Honest(r.ctl.dev) <==> Completed(cfg, want, Limits(cfg).value, c.dev.wire))
  {
    var call := ApplyMode(want, false);
    if Perform(cfg, c, call, maxAge, env).outcome.Err? { return; }
    PreparedForUnverified(cfg, c, call, maxAge, env);
    var d := Prepared(cfg, c.dev, call, maxAge, env).0;
    assert Settings in Names(call) && BatteryLimits in Names(call);
    assert Fresh(d, Settings) && Fresh(d, BatteryLimits);
    LoopHonestIffCompleted(cfg, c.(dev := d), want, env.exchanges);
  }

  // -- feed-in and PV limitation --------------------------------------------------------------------

  /** When a flag is held. */
  lemma FlagHeld(r: Register, w: Word, on: bool)
    requires r == ExportEnabled || r == PvLimitation
    ensures Holds(Step(r, Flag(on), Exactly), w) <==> w == FlagCode(on)
  {
  }

  lemma ExportThereIsHeld(cfg: Config, d: Device, limit: Option<int>, enabled: bool)
    requires ExportPlan(cfg, d, limit, enabled).Ok? && ExportTruthful(d) && ExportThere(cfg, limit, enabled, d.wire)
    ensures AllHeld(ExportPlan(cfg, d, limit, enabled).value, d)
  {
    if limit.Some? {
      ExportPlanShape(cfg, d, limit.value, enabled);
      assert RatioPart(cfg, d, limit.value, enabled) == [];
    }
  }

  /** An undisturbed step on a flag that is not there betrays it. */
  lemma FlagStepBetrays(cfg: Config, start: Device, p: Progress, r: Register, on: bool)
    requires r == ExportEnabled || r == PvLimitation
    requires p.error.None? && Undisturbing(p.rest) && SameCached(start, p.ctl.dev) && ComponentOf(r) in start.refreshed
    requires Truthful(start, r) && p.ctl.dev.wire[r] == start.wire[r] && start.wire[r] != FlagCode(on)
    ensures var q := DoStep(cfg, p, Step(r, Flag(on), Exactly)); Betrayed(q.ctl.dev, r)
  {
    var s := Step(r, Flag(on), Exactly);
    FlagUnseen(start.wire[r], r, on);
    assert p.ctl.dev.cache[r] == start.cache[r];
    FlagStepLands(cfg, p, r, on);
    SameCachedTrans(start, p.ctl.dev, DoStep(cfg, p, s).ctl.dev);
    MovedIsBetrayed(start, DoStep(cfg, p, s).ctl.dev, r);
  }

  /** A flag step that the cached field does not satisfy puts its code in the register. */
  lemma FlagStepLands(cfg: Config, p: Progress, r: Register, on: bool)
    requires r == ExportEnabled || r == PvLimitation
    requires p.error.None? && Undisturbing(p.rest) && !Satisfied(Step(r, Flag(on), Exactly), p.ctl.dev.cache[r])
    ensures var q := DoStep(cfg, p, Step(r, Flag(on), Exactly));
            q.ctl.dev.wire[r] == FlagCode(on) && SameCached(p.ctl.dev, q.ctl.dev)
  {
    UnsatisfiedStepLands(cfg, p, Step(r, Flag(on), Exactly), FlagCode(on));
  }

  /** An undisturbed step that the cached field does not satisfy puts its word in the register. */
  lemma UnsatisfiedStepLands(cfg: Config, p: Progress, s: Step, w: Word)
    requires p.error.None? && Undisturbing(p.rest) && Encode(s.reg, s.target) == Some(w)
    requires !Satisfied(s, p.ctl.dev.cache[s.reg])
    ensures var q := DoStep(cfg, p, s);
            q.error.None? && q.ctl.dev.wire[s.reg] == w && SameCached(p.ctl.dev, q.ctl.dev) && Undisturbing(q.rest)
  {
    UndisturbedStep(cfg, p, s);
    LandWrites(cfg.mirrors, p.ctl.dev.wire, s.reg, w, FirstExchange(p.rest).up);
  }

  /** A flag that is not there does not satisfy its step, and reads as something else. */
  lemma FlagUnseen(w: Word, r: Register, on: bool)
    requires (r == ExportEnabled || r == PvLimitation) && w != FlagCode(on)
    ensures !Satisfied(Step(r, Flag(on), Exactly), Decode(r, w)) && Decode(r, w) != Decode(r, FlagCode(on))
  {
    SameOnWireIsSameWord(r, w, Flag(on));
  }

  /** The enable step leaves a betrayed limit register betrayed. */
  lemma EnableKeepsBetrayed(cfg: Config, p: Progress, on: bool, r: Register)
    requires p.error.None? && Undisturbing(p.rest) && Betrayed(p.ctl.dev, r) && (r == ExportLimit || r == FeedInRatio)
    ensures Betrayed(DoStep(cfg, p, EnableStep(on)).ctl.dev, r)
  {
    EnableStepKeeps(cfg, p, on);
    UndisturbedStep(cfg, p, EnableStep(on));
  }

  /** The watts step betrays a register that did not hold the limit, whatever the ratio step did before. */
  lemma WattsStepBetrays(cfg: Config, start: Device, p: Progress, limit: int)
    requires p.error.None? && Undisturbing(p.rest) && SameCached(start, p.ctl.dev) && Settings in start.refreshed
    requires Truthful(start, ExportLimit) && start.wire[ExportLimit] as int != limit
    requires DoStep(cfg, p, WattsStep(limit)).error.None?
    ensures Betrayed(DoStep(cfg, p, WattsStep(limit)).ctl.dev, ExportLimit)
  {
    SatisfiedWatts(start.wire[ExportLimit], limit);
    assert ComponentOf(ExportLimit) == Settings;
    UndisturbedStep(cfg, p, WattsStep(limit));
    SameCachedTrans(start, p.ctl.dev, DoStep(cfg, p, WattsStep(limit)).ctl.dev);
    MovedIsBetrayed(start, DoStep(cfg, p, WattsStep(limit)).ctl.dev, ExportLimit);
  }

  /** The ratio step, planned because the ratio is away, betrays it. */
  lemma RatioStepBetrays(cfg: Config, p: Progress, limit: int, nominal: int)
    requires p.error.None? && Undisturbing(p.rest) && Truthful(p.ctl.dev, FeedInRatio)
    requires Settings in p.ctl.dev.refreshed
    requires nominal > 0 && cfg.nominal == Some(nominal) && RatioAway(cfg, limit, nominal, p.ctl.dev.wire)
    requires DoStep(cfg, p, RatioStep(cfg, limit)).error.None?
    ensures var q := DoStep(cfg, p, RatioStep(cfg, limit));
            Betrayed(q.ctl.dev, FeedInRatio) && Undisturbing(q.rest) && SameCached(p.ctl.dev, q.ctl.dev)
  {
    AwayIsUnsatisfied(cfg, limit, nominal, p.ctl.dev.wire);
    assert Encode(FeedInRatio, Number(Implied(cfg, limit, nominal))).Some?;
    UnsatisfiedStepLands(cfg, p, RatioStep(cfg, limit), Implied(cfg, limit, nominal));
    assert ComponentOf(FeedInRatio) == Settings;
    MovedIsBetrayed(p.ctl.dev, DoStep(cfg, p, RatioStep(cfg, limit)).ctl.dev, FeedInRatio);
  }

  /** And watts that read as the limit stay as they are. */
  lemma RatioThenWattsBetrays(cfg: Config, p: Progress, limit: int, nominal: int)
    requires p.error.None? && Undisturbing(p.rest) && ExportTruthful(p.ctl.dev) && Settings in p.ctl.dev.refreshed
    requires nominal > 0 && cfg.nominal == Some(nominal) && RatioAway(cfg, limit, nominal, p.ctl.dev.wire)
    requires p.ctl.dev.wire[ExportLimit] as int == limit
    requires DoStep(cfg, p, RatioStep(cfg, limit)).error.None?
    ensures var q := DoStep(cfg, DoStep(cfg, p, RatioStep(cfg, limit)), WattsStep(limit));
            q.error.None? && Undisturbing(q.rest) && Betrayed(q.ctl.dev, FeedInRatio)
  {
    RatioStepBetrays(cfg, p, limit, nominal);
    SatisfiedWatts(p.ctl.dev.wire[ExportLimit], limit);
    assert ComponentOf(ExportLimit) == Settings;
    assert Skipped(cfg, DoStep(cfg, p, RatioStep(cfg, limit)).ctl, WattsStep(limit));
  }

  /** A plan of watts and enable, over registers that are not there. */
  lemma TwoStepsBetray(cfg: Config, start: Device, p: Progress, limit: int, enabled: bool)
    requires p.error.None? && Undisturbing(p.rest) && SameCached(start, p.ctl.dev) && Settings in start.refreshed
    requires ExportTruthful(start) && p.ctl.dev.wire[ExportEnabled] == start.wire[ExportEnabled]
    requires start.wire[ExportLimit] as int != limit || start.wire[ExportEnabled] != FlagCode(enabled)
    requires DoSteps(cfg, p, [WattsStep(limit), EnableStep(enabled)]).error.None?
    ensures !Honest(DoSteps(cfg, p, [WattsStep(limit), EnableStep(enabled)]).ctl.dev)
  {
    var q := DoStep(cfg, p, WattsStep(limit));
    assert DoSteps(cfg, p, [WattsStep(limit), EnableStep(enabled)]) == DoSteps(cfg, q, [EnableStep(enabled)]);
    if q.error.Some? { ErrorEnds(cfg, q, [EnableStep(enabled)]); }
    OneStep(cfg, q, EnableStep(enabled));
    UndisturbedStep(cfg, p, WattsStep(limit));
    SameCachedTrans(start, p.ctl.dev, q.ctl.dev);
    var q1 := DoStep(cfg, q, EnableStep(enabled));
    if start.wire[ExportLimit] as int != limit {
      WattsStepBetrays(cfg, start, p, limit);
      EnableKeepsBetrayed(cfg, q, enabled, ExportLimit);
      BetrayedIsDishonest(q1.ctl.dev, ExportLimit);
    } else {
      LimitStepKeepsEnable(cfg, p, WattsStep(limit));
      FlagStepBetrays(cfg, start, q, ExportEnabled, enabled);
      BetrayedIsDishonest(q1.ctl.dev, ExportEnabled);
    }
  }

  /** Watts that read as the limit: the ratio is betrayed, and stays so. */
  lemma RatioWattsEnableBetray(cfg: Config, p: Progress, limit: int, nominal: int)
    requires p.error.None? && Undisturbing(p.rest) && ExportTruthful(p.ctl.dev) && Settings in p.ctl.dev.refreshed
    requires nominal > 0 && cfg.nominal == Some(nominal) && RatioAway(cfg, limit, nominal, p.ctl.dev.wire)
    requires p.ctl.dev.wire[ExportLimit] as int == limit && DoStep(cfg, p, RatioStep(cfg, limit)).error.None?
    ensures !Honest(DoSteps(cfg, DoStep(cfg, p, RatioStep(cfg, limit)), [WattsStep(limit), EnableStep(true)]).ctl.dev)
  {
    var q := DoStep(cfg, p, RatioStep(cfg, limit));
    RatioThenWattsBetrays(cfg, p, limit, nominal);
    var q1 := DoStep(cfg, q, WattsStep(limit));
    EnableKeepsBetrayed(cfg, q1, true, FeedInRatio);
    assert DoSteps(cfg, q, [WattsStep(limit), EnableStep(true)]) == DoSteps(cfg, q1, [EnableStep(true)]);
    OneStep(cfg, q1, EnableStep(true));
    BetrayedIsDishonest(DoStep(cfg, q1, EnableStep(true)).ctl.dev, FeedInRatio);
  }

  /** With the ratio step in front. */
  lemma ThreeStepsBetray(cfg: Config, p: Progress, limit: int, nominal: int)
    requires p.error.None? && Undisturbing(p.rest) && ExportTruthful(p.ctl.dev) && Settings in p.ctl.dev.refreshed
    requires nominal > 0 && cfg.nominal == Some(nominal) && RatioAway(cfg, limit, nominal, p.ctl.dev.wire)
    requires DoSteps(cfg, p, [RatioStep(cfg, limit)] + [WattsStep(limit), EnableStep(true)]).error.None?
    ensures !Honest(DoSteps(cfg, p, [RatioStep(cfg, limit)] + [WattsStep(limit), EnableStep(true)]).ctl.dev)
  {
    var s, rest := RatioStep(cfg, limit), [WattsStep(limit), EnableStep(true)];
    var q := DoStep(cfg, p, s);
    DoStepsAppend(cfg, p, [s], rest);
    OneStep(cfg, p, s);
    if q.error.Some? { ErrorEnds(cfg, q, rest); }
    if p.ctl.dev.wire[ExportLimit] as int != limit {
      UndisturbedStep(cfg, p, s);
      LimitStepKeepsEnable(cfg, p, s);
      TwoStepsBetray(cfg, p.ctl.dev, q, limit, true);
    } else {
      RatioWattsEnableBetray(cfg, p, limit, nominal);
    }
  }

  /** Lifting a limitation that is not off. */
  lemma LiftElsewhereIsDishonest(cfg: Config, p: Progress)
    requires p.error.None? && Undisturbing(p.rest) && ExportTruthful(p.ctl.dev) && Settings in p.ctl.dev.refreshed
    requires p.ctl.dev.wire[ExportEnabled] != FlagCode(false)
    ensures !Honest(DoSteps(cfg, p, [EnableStep(false)]).ctl.dev)
  {
    OneStep(cfg, p, EnableStep(false));
    FlagStepBetrays(cfg, p.ctl.dev, p, ExportEnabled, false);
    BetrayedIsDishonest(DoStep(cfg, p, EnableStep(false)).ctl.dev, ExportEnabled);
  }

  /** An export plan over registers that are not there. */
  lemma ExportElsewhereIsDishonest(cfg: Config, p: Progress, limit: Option<int>, enabled: bool)
    requires p.error.None? && Undisturbing(p.rest) && ExportTruthful(p.ctl.dev) && Settings in p.ctl.dev.refreshed
    requires ExportPlan(cfg, p.ctl.dev, limit, enabled).Ok? && !ExportThere(cfg, limit, enabled, p.ctl.dev.wire)
    requires DoSteps(cfg, p, ExportPlan(cfg, p.ctl.dev, limit, enabled).value).error.None?
    ensures !Honest(DoSteps(cfg, p, ExportPlan(cfg, p.ctl.dev, limit, enabled).value).ctl.dev)
  {
    if limit.None? {
      LiftElsewhereIsDishonest(cfg, p);
    } else {
      ExportPlanParts(cfg, p.ctl.dev, limit.value, enabled);
      if enabled && RatioOff(cfg, p.ctl.dev, limit.value) {
        ThreeStepsBetray(cfg, p, limit.value, cfg.nominal.value);
      } else {
        TwoStepsBetray(cfg, p.ctl.dev, p, limit.value, enabled);
      }
    }
  }

  /** The same for `set_export_limit`: honest exactly when watts, enable and ratio already were what it asks for. */
  lemma UnverifiedLimitHonestIff(cfg: Config, c: Control, limit: Option<int>, enabled: bool, maxAge: Option<int>,
      env: CallEnv)
    requires Honest(c.dev) && Undisturbing(env.exchanges)
    ensures var r := Perform(cfg, c, LimitExport(limit, enabled, false), maxAge, env);
            r.outcome.Ok? ==> (Honest(r.ctl.dev) <==> ExportThere(cfg, limit, enabled, c.dev.wire))
  {
    var call := LimitExport(limit, enabled, false);
    if Perform(cfg, c, call, maxAge, env).outcome.Err? { return; }
    PreparedForUnverified(cfg, c, call, maxAge, env);
    var d := Prepared(cfg, c.dev, call, maxAge, env).0;
    assert Settings in Names(call);
    assert Fresh(d, Settings);
    var p, steps := Start(c.(dev := d), ExportAction, env.exchanges), ExportPlan(cfg, d, limit, enabled).value;
    if ExportThere(cfg, limit, enabled, c.dev.wire) {
      ExportThereIsHeld(cfg, d, limit, enabled);
      HeldLoop(cfg, p, steps);
      SameStaysHonest(d, DoSteps(cfg, p, steps).ctl.dev);
    } else {
      ExportElsewhereIsDishonest(cfg, p, limit, enabled);
    }
  }

  /** And for `set_pv_limitation`: honest exactly when the register already held the flag. */
  lemma UnverifiedPvHonestIff(cfg: Config, c: Control, on: bool, maxAge: Option<int>, env: CallEnv)
    requires Honest(c.dev) && Undisturbing(env.exchanges)
    ensures var r := Perform(cfg, c, LimitPv(on, false), maxAge, env);
            r.outcome.Ok? ==> (Honest(r.ctl.dev) <==> c.dev.wire[PvLimitation] == FlagCode(on))
  {
    var call, s := LimitPv(on, false), Step(PvLimitation, Flag(on), Exactly);
    if Perform(cfg, c, call, maxAge, env).outcome.Err? { return; }
    PreparedForUnverified(cfg, c, call, maxAge, env);
    var d := Prepared(cfg, c.dev, call, maxAge, env).0;
    assert Settings in Names(call);
    assert Fresh(d, Settings);
    var p := Start(c.(dev := d), PvAction, env.exchanges);
    FlagHeld(PvLimitation, c.dev.wire[PvLimitation], on);
    OneStep(cfg, p, s);
    if c.dev.wire[PvLimitation] == FlagCode(on) {
      HeldStep(cfg, p, s);
      SameStaysHonest(d, DoStep(cfg, p, s).ctl.dev);
    } else {
      FlagStepBetrays(cfg, d, p, PvLimitation, on);
      BetrayedIsDishonest(DoStep(cfg, p, s).ctl.dev, PvLimitation);
    }
  }
}
