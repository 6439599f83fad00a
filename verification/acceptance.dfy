/**
 Which requests are accepted, over the options, the ratings and the request alone, and what a
 refused one gets: its error, with nothing sent.
 */
module Acceptance {
  import opened Wrappers
  import opened Registers
  import opened Devices
  import Polling
  import opened Planner
  import opened Execution
  import opened Honesty

  const REQUESTABLE: set<BatteryMode> :=
    {SelfConsumptionMode, ForcedCharge, ForcedDischarge, NoCharge, NoDischarge, Hold}

  /** The restore target is known, a multiple of ten watts, and between the fence and the largest limit word. */
  predicate Restorable(cfg: Config) {
    cfg.full.Some? && cfg.full.value % 10 == 0 && cfg.fence <= cfg.full.value <= 655350
  }

  /** A battery mode may be asked for. */
  predicate Acceptable(cfg: Config, want: DesiredState) {
    && want.mode in REQUESTABLE && Restorable(cfg)
    && (want.mode in {ForcedCharge, ForcedDischarge} ==>
          want.power.Some? && 0 <= want.power.value <= cfg.full.value)
  }

  /** What an unacceptable battery mode is refused with. */
  function Refusal(cfg: Config, want: DesiredState): ControlError {
    if want.mode !in REQUESTABLE then CannotBeRequested
    else if cfg.full.None? then SettingsUnavailable(None)
    else PowerOutOfRange
  }

  /** The lower end is the ratings' own, or zero; the upper one the ratings' own, or nominal power, or a word. */
  predicate LimitAllowed(cfg: Config, limit: int) {
    && (match cfg.ratings
        case Some(Ratings(Some(low), _)) => low <= limit
        case _ => 0 <= limit)
    && (match (cfg.ratings, cfg.nominal)
        case (Some(Ratings(_, Some(high))), _) => limit <= high
        case (_, Some(nominal)) => limit <= nominal
        case (_, None) => limit <= 65535)
  }

  /** The planner accepts exactly the acceptable modes, whatever is cached, and refuses the others by their error. */
  lemma PlanAcceptsIff(cfg: Config, d: Device, want: DesiredState)
    ensures Plan(cfg, d, want).Ok? <==> Acceptable(cfg, want)
    ensures Plan(cfg, d, want).Err? ==> Plan(cfg, d, want).error == Refusal(cfg, want)
  {
  }

  /** A limit is planned for exactly when it is in range; lifting the limitation always is. */
  lemma ExportPlanAcceptsIff(cfg: Config, d: Device, limit: Option<int>, enabled: bool)
    ensures ExportPlan(cfg, d, limit, enabled).Ok? <==> limit.None? || LimitAllowed(cfg, limit.value)
    ensures ExportPlan(cfg, d, limit, enabled).Err? ==> ExportPlan(cfg, d, limit, enabled).error == PowerOutOfRange
  {
  }

  /** What may be asked for. */
  predicate Admitted(cfg: Config, call: ControlCall) {
    match call
    case ApplyMode(want, _) => Acceptable(cfg, want)
    case LimitExport(Some(limit), _, _) => LimitAllowed(cfg, limit)
    case _ => true
  }

  function RefusalOf(cfg: Config, call: ControlCall): ControlError {
    match call
    case ApplyMode(want, _) => Refusal(cfg, want)
    case _ => PowerOutOfRange
  }

  lemma StepsAdmitted(cfg: Config, d: Device, call: ControlCall)
    ensures StepsOf(cfg, d, call).Ok? <==> Admitted(cfg, call)
    ensures StepsOf(cfg, d, call).Err? ==> StepsOf(cfg, d, call).error == RefusalOf(cfg, call)
  {
    match call {
      case ApplyMode(want, _) => PlanAcceptsIff(cfg, d, want);
      case LimitExport(limit, enabled, _) => ExportPlanAcceptsIff(cfg, d, limit, enabled);
      case _ =>
    }
  }

  /** On a link that answers the freshness read, a guarded call gets to plan. */
  lemma ReadsPrepare(cfg: Config, d: Device, call: ControlCall, maxAge: Option<int>, env: CallEnv)
    requires Polling.AllReadsAnswered(env.refresh)
    ensures Prepared(cfg, d, call, maxAge, env).1
  {
    var d0, age := Disturb(d, env.waiting), if maxAge.Some? then maxAge.value else cfg.maxAge;
    Polling.AnsweredRefresh(d0, Stale(d0, Names(call), age), env.refresh);
  }

  /** The errors that come before anything is sent. */
  predicate Refuses(e: ControlError) {
    e == CannotBeRequested || e == PowerOutOfRange || e == SettingsUnavailable(None)
  }

  lemma {:induction false} LoopRefusesNothing(cfg: Config, p: Progress, steps: seq<Step>)
    requires p.error.Some? ==> !Refuses(p.error.value)
    ensures var q := DoSteps(cfg, p, steps); q.error.Some? ==> !Refuses(q.error.value)
    decreases |steps|
  {
    if steps != [] && p.error.None? { LoopRefusesNothing(cfg, DoStep(cfg, p, steps[0]), steps[1..]); }
  }

  lemma ExecutionRefusesNothing(cfg: Config, c: Control, action: Action, steps: seq<Step>, verify: bool, env: CallEnv)
    ensures var r := Execute(cfg, c, action, steps, verify, env); r.outcome.Err? ==> !Refuses(r.outcome.error)
  {
    LoopRefusesNothing(cfg, Start(c, action, env.exchanges), steps);
  }

  /**
   A request that is not admitted ends in its refusal, or in the failed freshness read before
   it, with nothing sent and no register moved; an admitted one is never refused for its range.
   */
  lemma RefusedIffNotAdmitted(cfg: Config, c: Control, call: ControlCall, maxAge: Option<int>, env: CallEnv)
    requires !call.Operate?
    ensures var r := Perform(cfg, c, call, maxAge, env);
            && (!Admitted(cfg, call) ==>
                  && r.ctl.dev.sent == c.dev.sent && r.ctl.dev.wire == c.dev.wire
                  && (r.outcome == Err(RefusalOf(cfg, call)) || r.outcome == Err(SettingsUnavailable(None)))
                  && (Polling.AllReadsAnswered(env.refresh) ==> r.outcome == Err(RefusalOf(cfg, call))))
            && (Admitted(cfg, call) && Polling.AllReadsAnswered(env.refresh) && r.outcome.Err? ==>
                  !Refuses(r.outcome.error))
            && (Admitted(cfg, call) ==> r.outcome != Err(CannotBeRequested) && r.outcome != Err(PowerOutOfRange))
  {
    var (d, ok) := Prepared(cfg, c.dev, call, maxAge, env);
    PreparedEffect(cfg, c.dev, call, maxAge, env, {});
    StepsAdmitted(cfg, d, call);
    if Polling.AllReadsAnswered(env.refresh) { ReadsPrepare(cfg, c.dev, call, maxAge, env); }
    if ok && StepsOf(cfg, d, call).Ok? {
      var steps := StepsOf(cfg, d, call).value;
      ExecutionRefusesNothing(cfg, c.(dev := d), ActionOf(call), steps, call.verify, env);
    }
  }

  /** With the freshness read answered a call is the execution of its plan if it is admitted, and else refused. */
  lemma AnsweredCallPlans(cfg: Config, c: Control, call: ControlCall, maxAge: Option<int>, env: CallEnv)
    requires !call.Operate? && Polling.AllReadsAnswered(env.refresh)
    ensures var d, r := Prepared(cfg, c.dev, call, maxAge, env).0, Perform(cfg, c, call, maxAge, env);
            && (StepsOf(cfg, d, call).Ok? <==> Admitted(cfg, call))
            && (if Admitted(cfg, call)
                then r == Execute(cfg, c.(dev := d), ActionOf(call), StepsOf(cfg, d, call).value, call.verify, env)
                else r.outcome == Err(RefusalOf(cfg, call)))
  {
    ReadsPrepare(cfg, c.dev, call, maxAge, env);
    StepsAdmitted(cfg, Prepared(cfg, c.dev, call, maxAge, env).0, call);
  }
}
