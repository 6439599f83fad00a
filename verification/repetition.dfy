/** Repeating a verified `apply`: the link stays silent exactly while the settings add up. */
module Repetition {
  import opened Wrappers
  import opened Registers
  import opened Devices
  import opened Planner
  import opened Execution
  import opened Honesty
  import StepFacts
  import BatterySafety
  import Traffic
  import opened Classifier
  import Acceptance

  /** Steps that are all skipped do nothing and raise nothing. */
  lemma {:induction false} AllSkippedDoesNothing(cfg: Config, p: Progress, steps: seq<Step>)
    requires p.error.None? && AllSkipped(cfg, p.ctl, steps)
    ensures var q := DoSteps(cfg, p, steps);
            q.ctl == p.ctl && q.error.None? && q.report.writes == p.report.writes
    decreases |steps|
  {
    if steps != [] {
      assert steps[0] in steps;
      AllSkippedDoesNothing(cfg, DoStep(cfg, p, steps[0]), steps[1..]);
    }
  }

  // -- a doubted EMS word is written -------------------------------------------------------

  /** The EMS mode was requested since the record was `before`. */
  ghost predicate ModeSent(before: seq<Request>, now: seq<Request>, v: Value) {
    exists k :: |before| <= k < |now| && now[k].reg == EmsModeReg && now[k].value == v
  }

  lemma {:induction false} SentGrows(cfg: Config, p: Progress, steps: seq<Step>)
    ensures p.ctl.dev.sent <= DoSteps(cfg, p, steps).ctl.dev.sent
    decreases |steps|
  {
    if steps != [] && p.error.None? {
      DoStepSends(cfg, p, steps[0]);
      SentGrows(cfg, DoStep(cfg, p, steps[0]), steps[1..]);
    }
  }

  /** A step that is not skipped and whose target has a word is requested. */
  lemma DoStepSends(cfg: Config, p: Progress, s: Step)
    requires p.error.None?
    ensures var q := DoStep(cfg, p, s);
            q.ctl.dev.sent == p.ctl.dev.sent
              + (if Skipped(cfg, p.ctl, s) || Encode(s.reg, s.target).None? then []
                 else [Request(s.reg, s.target, p.ctl.dev.wire, q.error.None?)])
  {
    if !Skipped(cfg, p.ctl, s) && Encode(s.reg, s.target).Some? {
      assert DoStep(cfg, p, s) == WriteStep(cfg, p, s, Encode(s.reg, s.target).value);
      Traffic.WriteStepSends(cfg, p, s, Encode(s.reg, s.target).value);
    }
  }

  /** A plan whose targets all have words, and that is not all-skip, sends something. */
  lemma {:induction false} UnskippedIsSent(cfg: Config, p: Progress, steps: seq<Step>)
    requires p.error.None? && !AllSkipped(cfg, p.ctl, steps) && forall s :: s in steps ==> Encode(s.reg, s.target).Some?
    ensures |DoSteps(cfg, p, steps).ctl.dev.sent| > |p.ctl.dev.sent|
    decreases |steps|
  {
    assert steps[0] in steps;
    DoStepSends(cfg, p, steps[0]);
    SentGrows(cfg, DoStep(cfg, p, steps[0]), steps[1..]);
    if Skipped(cfg, p.ctl, steps[0]) { UnskippedIsSent(cfg, DoStep(cfg, p, steps[0]), steps[1..]); }
  }

  /** A step that selects an EMS mode. */
  predicate SelectsMode(s: Step) { s.reg == EmsModeReg && s.target.Mode? }

  /** In doubt, the step that selects a mode is requested, whatever it finds cached. */
  lemma DoubtedStepIsSent(cfg: Config, p: Progress, steps: seq<Step>, s: Step)
    requires p.error.None? && EffectiveMode(cfg, p.ctl) == Some(Inconsistent)
    requires steps != [] && steps[0] == s && SelectsMode(s)
    ensures ModeSent(p.ctl.dev.sent, DoSteps(cfg, p, steps).ctl.dev.sent, s.target)
  {
    DoStepSends(cfg, p, s);
    SentGrows(cfg, DoStep(cfg, p, s), steps[1..]);
    var now := DoSteps(cfg, p, steps).ctl.dev.sent;
    assert now[|p.ctl.dev.sent|] == DoStep(cfg, p, s).ctl.dev.sent[|p.ctl.dev.sent|];
  }

  lemma ModeSentLater(before: seq<Request>, middle: seq<Request>, now: seq<Request>, v: Value)
    requires before <= middle && ModeSent(middle, now, v)
    ensures ModeSent(before, now, v)
  {
    var k :| |middle| <= k < |now| && now[k].reg == EmsModeReg && now[k].value == v;
  }

  /** A doubted EMS word is sent again, even when every other register is left alone. */
  lemma {:induction false} DoubtedAloneIsSent(cfg: Config, p: Progress, steps: seq<Step>)
    requires p.error.None? && TO_SELF in steps && EffectiveMode(cfg, p.ctl) == Some(Inconsistent)
    requires forall s :: s in steps && s != TO_SELF ==> Skipped(cfg, p.ctl, s)
    ensures ModeSent(p.ctl.dev.sent, DoSteps(cfg, p, steps).ctl.dev.sent, TO_SELF.target)
    decreases |steps|
  {
    if steps[0] == TO_SELF {
      DoubtedStepIsSent(cfg, p, steps, TO_SELF);
    } else {
      assert steps[0] in steps;
      assert TO_SELF in steps[1..];
      DoubtedAloneIsSent(cfg, DoStep(cfg, p, steps[0]), steps[1..]);
    }
  }

  /** Re-reads of other components than the classifier looks at. */
  predicate Unseen(e: Event) { e.Reread? ==> e.component !in {Settings, BatteryLimits, Flows} }

  predicate UnseenAll(events: seq<Event>) { forall e :: e in events ==> Unseen(e) }

  /** Nothing the classifier looks at is re-read during the writes. */
  predicate Unsighted(xs: seq<Exchange>) {
    forall x :: x in xs ==> UnseenAll(x.before) && UnseenAll(x.after)
  }

  /** The classifier sees the same, or the same later. */
  predicate SameSight(d: Device, d1: Device) {
    && d1.state == d.state && d.clock <= d1.clock
    && forall r: Register :: ComponentOf(r) in {Settings, BatteryLimits} ==> d1.cache[r] == d.cache[r]
  }

  lemma {:induction false} UnseenKeepsSight(d: Device, events: seq<Event>)
    requires UnseenAll(events)
    ensures SameSight(d, Disturb(d, events))
    decreases |events|
  {
    if events != [] {
      assert events[0] in events;
      UnseenKeepsSight(Happen(d, events[0]), events[1..]);
    }
  }

  /** Doubt does not go away by waiting. */
  lemma DoubtPersists(cfg: Config, c: Control, c1: Control)
    requires SameSight(c.dev, c1.dev) && c1.emsWrittenAt == c.emsWrittenAt
    requires EffectiveMode(cfg, c) == Some(Inconsistent)
    ensures EffectiveMode(cfg, c1) == Some(Inconsistent)
  {
    assert ComponentOf(EmsModeReg) == Settings && ComponentOf(ChargeCommandReg) == Settings;
    assert ComponentOf(MaxCharge) == BatteryLimits && ComponentOf(MaxDischarge) == BatteryLimits;
  }

  lemma TransmitKeepsSight(mirrors: Option<int>, d: Device, r: Register, v: Value, w: Word, x: Exchange)
    requires UnseenAll(x.before) && UnseenAll(x.after)
    ensures SameSight(d, Transmit(mirrors, d, r, v, w, x))
  {
    UnseenKeepsSight(d, x.before);
    UnseenKeepsSight(Deliver(mirrors, Disturb(d, x.before), r, v, w, x), x.after);
  }

  /** Writing another register leaves the doubt. */
  lemma StepKeepsDoubt(cfg: Config, p: Progress, s: Step)
    requires p.error.None? && s.reg != EmsModeReg && Unsighted(p.rest)
    requires EffectiveMode(cfg, p.ctl) == Some(Inconsistent)
    ensures EffectiveMode(cfg, DoStep(cfg, p, s).ctl) == Some(Inconsistent) && Unsighted(DoStep(cfg, p, s).rest)
  {
    if !Skipped(cfg, p.ctl, s) && Encode(s.reg, s.target).Some? {
      var w, x := Encode(s.reg, s.target).value, FirstExchange(p.rest);
      assert x in p.rest || x == QUIET;
      TransmitKeepsSight(cfg.mirrors, p.ctl.dev, s.reg, s.target, w, x);
      WriteStepDevice(cfg, p, s, w);
      assert DoStep(cfg, p, s) == WriteStep(cfg, p, s, w);
      DoubtPersists(cfg, p.ctl, DoStep(cfg, p, s).ctl);
    }
  }

  /**
   For any steps with one EMS step, whatever else is written: in doubt at the start, with nothing
   re-read that could settle it, the loop raises or the EMS mode is requested.
   */
  lemma {:induction false} DoubtedIsSent(cfg: Config, p: Progress, steps: seq<Step>, mode: Step)
    requires p.error.None? && mode in steps && SelectsMode(mode)
    requires forall s :: s in steps && s.reg == EmsModeReg ==> s == mode
    requires EffectiveMode(cfg, p.ctl) == Some(Inconsistent) && Unsighted(p.rest)
    ensures var q := DoSteps(cfg, p, steps);
            q.error.Some? || ModeSent(p.ctl.dev.sent, q.ctl.dev.sent, mode.target)
    decreases |steps|
  {
    if steps[0] == mode {
      DoubtedStepIsSent(cfg, p, steps, mode);
    } else {
      assert steps[0] in steps && mode in steps[1..];
      var p1 := DoStep(cfg, p, steps[0]);
      StepKeepsDoubt(cfg, p, steps[0]);
      if p1.error.Some? {
        StepFacts.ErrorEnds(cfg, p1, steps[1..]);
      } else {
        DoubtedIsSent(cfg, p1, steps[1..], mode);
        DoStepSends(cfg, p, steps[0]);
        if DoSteps(cfg, p, steps).error.None? {
          ModeSentLater(p.ctl.dev.sent, p1.ctl.dev.sent, DoSteps(cfg, p, steps).ctl.dev.sent, mode.target);
        }
      }
    }
  }

  lemma PlanEmsStep(cfg: Config, d: Device, want: DesiredState, s: Step)
    requires Plan(cfg, d, want).Ok? && s in Plan(cfg, d, want).value && s.reg == EmsModeReg
    ensures s == EmsStep(want.mode)
  {
  }

  /**
   An acceptable `apply` that plans while the settings do not add up, for any mode and whatever
   else it has to write: it raises during its writes, or requests the EMS mode of what is wanted.
   Returning means it did.
   */
  lemma DoubtedApplySendsMode(cfg: Config, c: Control, want: DesiredState, verify: bool, maxAge: Option<int>,
      env: CallEnv)
    requires Unsighted(env.exchanges) && Acceptance.Acceptable(cfg, want)
    ensures var (d, ok) := Prepared(cfg, c.dev, ApplyMode(want, verify), maxAge, env);
            var r := Perform(cfg, c, ApplyMode(want, verify), maxAge, env);
            var mode := Mode(if want.mode in {ForcedCharge, ForcedDischarge} then Compulsory else SelfConsumption);
            ok && AtOdds(cfg, c.(dev := d)) ==>
              && Plan(cfg, d, want).Ok?
              && (BatterySafety.Applied(cfg, c.(dev := d), want, env.exchanges).error.Some?
                  || ModeSent(c.dev.sent, r.ctl.dev.sent, mode))
              && (r.outcome.Ok? ==> ModeSent(c.dev.sent, r.ctl.dev.sent, mode))
  {
    var call := ApplyMode(want, verify);
    PreparingSendsNothing(cfg, c.dev, call, maxAge, env);
    var (d, ok) := Prepared(cfg, c.dev, call, maxAge, env);
    Acceptance.PlanAcceptsIff(cfg, d, want);
    InconsistentIffAtOdds(cfg, c.(dev := d));
    if ok && AtOdds(cfg, c.(dev := d)) {
      var c1, steps := c.(dev := d), Plan(cfg, d, want).value;
      DoubtedPlanSendsMode(cfg, c1, want, env.exchanges);
      ExecuteKeepsSent(cfg, c1, ActionOf(call), steps, verify, env);
      assert Perform(cfg, c, call, maxAge, env) == Execute(cfg, c1, ActionOf(call), steps, verify, env);
    }
  }

  lemma DoubtedPlanSendsMode(cfg: Config, c: Control, want: DesiredState, xs: seq<Exchange>)
    requires Plan(cfg, c.dev, want).Ok? && EffectiveMode(cfg, c) == Some(Inconsistent) && Unsighted(xs)
    ensures var q := BatterySafety.Applied(cfg, c, want, xs);
            var mode := if want.mode in {ForcedCharge, ForcedDischarge} then Compulsory else SelfConsumption;
            q.error.Some? || ModeSent(c.dev.sent, q.ctl.dev.sent, Mode(mode))
  {
    var steps := Plan(cfg, c.dev, want).value;
    var i := FindEms(cfg, c.dev, want);
    assert steps[i] in steps;
    forall s | s in steps && s.reg == EmsModeReg ensures s == EmsStep(want.mode) { PlanEmsStep(cfg, c.dev, want, s); }
    DoubtedIsSent(cfg, Start(c, BatteryAction(want.mode), xs), steps, EmsStep(want.mode));
  }

  /**
   In particular self-consumption that reads as selected while the running state is a forced
   one, with no EMS write acknowledged within the grace period, is written again.
   */
  lemma DisputedModeIsWritten(cfg: Config, c: Control, want: DesiredState, verify: bool, maxAge: Option<int>,
      env: CallEnv)
    requires Unsighted(env.exchanges) && Acceptance.Acceptable(cfg, want)
    requires want.mode !in {ForcedCharge, ForcedDischarge}
    ensures var (d, ok) := Prepared(cfg, c.dev, ApplyMode(want, verify), maxAge, env);
            var r := Perform(cfg, c, ApplyMode(want, verify), maxAge, env);
            && ok && r.outcome.Ok?
            && d.cache[EmsModeReg] == Mode(SelfConsumption)
            && d.state in {Some(CompulsoryMode), Some(ExternalEmsMode)}
            && (c.emsWrittenAt.None? || d.clock - c.emsWrittenAt.value >= cfg.grace) ==>
              ModeSent(c.dev.sent, r.ctl.dev.sent, Mode(SelfConsumption))
  {
    DoubtedApplySendsMode(cfg, c, want, verify, maxAge, env);
  }

  /** Only the step loop sends; a call that returned completed it. */
  lemma ExecuteKeepsSent(cfg: Config, c: Control, action: Action, steps: seq<Step>, verify: bool, env: CallEnv)
    ensures var r, p :=
            Execute(cfg, c, action, steps, verify, env), DoSteps(cfg, Start(c, action, env.exchanges), steps);
            r.ctl.dev.sent == p.ctl.dev.sent && (r.outcome.Ok? ==> p.error.None?)
  {
    var p := DoSteps(cfg, Start(c, action, env.exchanges), steps);
    if p.error.None? && verify && p.report.writes != [] {
      ReadBackEffect(cfg, p, steps, env, {});
    }
  }

  lemma ExecuteSilent(cfg: Config, c: Control, action: Action, steps: seq<Step>, env: CallEnv)
    requires AllSkipped(cfg, c, steps)
    ensures var r := Execute(cfg, c, action, steps, true, env);
            r.ctl == c && r.outcome.Ok? && r.outcome.value.writes == []
  {
    AllSkippedDoesNothing(cfg, Start(c, action, env.exchanges), steps);
  }

  lemma {:induction false} TouchedHas(steps: seq<Step>, s: Step)
    requires s in steps
    ensures ComponentOf(s.reg) in Touched(steps)
  {
    TouchedIsWithin(steps);
    assert ComponentOf(s.reg) in AsSet(Touched(steps));
  }

  /** A verified `apply` that returned leaves its targets met and both components freshly cached. */
  lemma ApplyLeavesFresh(cfg: Config, c: Control, want: DesiredState, maxAge: Option<int>, env: CallEnv)
    requires HonestOn(c.dev, AsSet([Settings, BatteryLimits]))
    ensures var r := Perform(cfg, c, ApplyMode(want, true), maxAge, env);
            var d := Prepared(cfg, c.dev, ApplyMode(want, true), maxAge, env).0;
            r.outcome.Ok? ==>
              && Plan(cfg, d, want).Ok? && Meets(Plan(cfg, d, want).value, r.ctl.dev.wire)
              && Fresh(r.ctl.dev, Settings) && Fresh(r.ctl.dev, BatteryLimits)
  {
    var call := ApplyMode(want, true);
    var r := Perform(cfg, c, call, maxAge, env);
    if r.outcome.Err? { return; }
    ReturnsFromExecute(cfg, c, call, maxAge, env);
    var d := Prepared(cfg, c.dev, call, maxAge, env).0;
    var steps := Plan(cfg, d, want).value;
    ExecuteOutcome(cfg, c.(dev := d), ActionOf(call), steps, true, env);
    if r.outcome.value.writes == [] {
      WriteFreeMeansMet(cfg, c, call, maxAge, env);
      assert Settings in Names(call) && BatteryLimits in Names(call);
    } else {
      var i := FindEms(cfg, d, want);
      TouchedHas(steps, EmsStep(want.mode));
      i := FindLimit(cfg, d, want, MaxCharge);
      TouchedHas(steps, LimitStep(cfg, want.mode, Limits(cfg).value, MaxCharge));
    }
  }

  /**
   After an `apply` that returned, whatever is polled and however long it takes, the same
   `apply` sends nothing exactly when its mode is forced or the running state it then finds does
   not dispute self-consumption; otherwise it requests self-consumption again.
   */
  lemma RepeatedApplyIsSilent(cfg: Config, c: Control, want: DesiredState, maxAge: Option<int>, env: CallEnv,
      again: CallEnv)
    requires HonestOn(c.dev, AsSet([Settings, BatteryLimits]))
    ensures var call := ApplyMode(want, true);
            var r := Perform(cfg, c, call, maxAge, env);
            var (d, ok) := Prepared(cfg, r.ctl.dev, call, maxAge, again);
            var second := Perform(cfg, r.ctl, call, maxAge, again);
            var silent := want.mode in {ForcedCharge, ForcedDischarge} || !Disputed(cfg, r.ctl.(dev := d));
            r.outcome.Ok? && ok ==>
              && (second.ctl.dev.sent == r.ctl.dev.sent <==> silent)
              && (silent ==> second.outcome.Ok? && second.outcome.value.writes == [])
              && (!silent ==> ModeSent(r.ctl.dev.sent, second.ctl.dev.sent, Mode(SelfConsumption)))
  {
    var call := ApplyMode(want, true);
    var first := Perform(cfg, c, call, maxAge, env).ctl;
    var d0 := Prepared(cfg, c.dev, call, maxAge, env).0;
    var (d, ok) := Prepared(cfg, first.dev, call, maxAge, again);
    if Perform(cfg, c, call, maxAge, env).outcome.Err? || !ok { return; }
    ApplyLeavesFresh(cfg, c, want, maxAge, env);
    PreparedEffect(cfg, first.dev, call, maxAge, again, {});
    assert Fresh(d, Settings) && Fresh(d, BatteryLimits);
    SecondApply(cfg, d0, want, first.(dev := d), again);
    var second := Execute(cfg, first.(dev := d), ActionOf(call), Plan(cfg, d, want).value, true, again);
    assert Perform(cfg, first, call, maxAge, again) == second;
  }

  lemma SecondApply(cfg: Config, d0: Device, want: DesiredState, c: Control, env: CallEnv)
    requires Plan(cfg, d0, want).Ok? && Meets(Plan(cfg, d0, want).value, c.dev.wire)
    requires Fresh(c.dev, Settings) && Fresh(c.dev, BatteryLimits)
    ensures Plan(cfg, c.dev, want).Ok?
    ensures var r := Execute(cfg, c, BatteryAction(want.mode), Plan(cfg, c.dev, want).value, true, env);
            if want.mode !in {ForcedCharge, ForcedDischarge} && Disputed(cfg, c)
            then ModeSent(c.dev.sent, r.ctl.dev.sent, Mode(SelfConsumption))
            else r.ctl == c && r.outcome.Ok? && r.outcome.value.writes == []
  {
    RepeatedPlanIsAllSkip(cfg, d0, want, c);
    MetIsAtOdds(cfg, d0, want, c);
    var steps := Plan(cfg, c.dev, want).value;
    if EffectiveMode(cfg, c) == Some(Inconsistent) {
      ContradictedPlan(cfg, d0, want, c);
      DoubtedAloneIsSent(cfg, Start(c, BatteryAction(want.mode), env.exchanges), steps);
      ExecuteKeepsSent(cfg, c, BatteryAction(want.mode), steps, true, env);
    } else {
      ExecuteSilent(cfg, c, BatteryAction(want.mode), steps, env);
    }
  }

  /** When a confirmed plan no longer adds up, its EMS word is the only one it would write. */
  lemma ContradictedPlan(cfg: Config, d0: Device, want: DesiredState, c: Control)
    requires Plan(cfg, d0, want).Ok? && Meets(Plan(cfg, d0, want).value, c.dev.wire) && Plan(cfg, c.dev, want).Ok?
    requires Fresh(c.dev, Settings) && Fresh(c.dev, BatteryLimits) && EffectiveMode(cfg, c) == Some(Inconsistent)
    ensures TO_SELF in Plan(cfg, c.dev, want).value
    ensures forall s :: s in Plan(cfg, c.dev, want).value && s != TO_SELF ==> Skipped(cfg, c, s)
  {
    var steps := Plan(cfg, c.dev, want).value;
    forall r | BatterySafety.BatteryRegister(r) ensures StepFacts.Truthful(c.dev, r) { ReadsDecoded(c, r); }
    MetAgrees(cfg, d0, want, c);
    AgreedMode(cfg, want, Limits(cfg).value, c);
    var i := FindEms(cfg, c.dev, want);
    assert steps[i] in steps;
    forall s | s in steps && s != TO_SELF ensures Skipped(cfg, c, s) {
      MetPlanIsSatisfied(cfg, d0, want, c.dev, s);
      PlanMembers(cfg, c.dev, want, s);
    }
  }
}
