/** The calls that set one flag: `set_pv_limitation`, and `set_export_limit(None)`, which lifts the limitation. */
module FlagCalls {
  import opened Wrappers
  import opened Registers
  import opened Devices
  import Polling
  import opened Planner
  import opened Execution
  import opened Honesty
  import opened StepFacts
  import opened Acceptance
  import opened Guarantees

  predicate IsFlag(r: Register) { r == PvLimitation || r == ExportEnabled }

  function FlagStep(r: Register, on: bool): Step { Step(r, Flag(on), Exactly) }

  lemma FinalsOfOne(s: Step)
    ensures Finals([s]) == map[s.reg := s]
  {
    assert [s][..0] == [];
  }

  /** A flag is met by one word. */
  lemma FlagMet(r: Register, on: bool, w: Wire)
    requires IsFlag(r)
    ensures Meets([FlagStep(r, on)], w) <==> w[r] == if on then 0xAA else 0x55
  {
    FinalsOfOne(FlagStep(r, on));
    SameOnWireIsSameWord(r, w[r], Flag(on));
  }

  /** One flag step over a truthful cache, acknowledged and landed: its register holds the flag, nothing else moved. */
  lemma FlagStepDone(cfg: Config, p: Progress, r: Register, on: bool)
    requires IsFlag(r) && p.error.None? && Truthful(p.ctl.dev, r)
    requires FirstExchange(p.rest).reply == Acked && FirstExchange(p.rest).landed
    ensures var q := DoStep(cfg, p, FlagStep(r, on));
            q.error.None? && q.ctl.dev.wire == p.ctl.dev.wire[r := if on then 0xAA else 0x55]
  {
    if Skipped(cfg, p.ctl, FlagStep(r, on)) {
      SkippedFlagIsThere(r, on, p.ctl.dev.wire);
    } else {
      FlagStepWritten(cfg, p, r, on);
    }
  }

  lemma FlagStepWritten(cfg: Config, p: Progress, r: Register, on: bool)
    requires IsFlag(r) && p.error.None? && !Skipped(cfg, p.ctl, FlagStep(r, on))
    requires FirstExchange(p.rest).reply == Acked && FirstExchange(p.rest).landed
    ensures var q := DoStep(cfg, p, FlagStep(r, on));
            q.error.None? && q.ctl.dev.wire == p.ctl.dev.wire[r := if on then 0xAA else 0x55]
  {
    StepCases(cfg, p, FlagStep(r, on), r);
    FlagLands(cfg.mirrors, p.ctl.dev.wire, r, on, FirstExchange(p.rest));
  }

  lemma FlagLands(mirrors: Option<int>, w: Wire, r: Register, on: bool, x: Exchange)
    requires IsFlag(r) && x.landed
    ensures Encode(r, Flag(on)).Some?
    ensures Landed(mirrors, w, r, Encode(r, Flag(on)).value, x) == w[r := if on then 0xAA else 0x55]
  {
  }

  lemma SkippedFlagIsThere(r: Register, on: bool, w: Wire)
    requires IsFlag(r) && Satisfied(FlagStep(r, on), Decode(r, w[r]))
    ensures w == w[r := if on then 0xAA else 0x55]
  {
    SameOnWireIsSameWord(r, w[r], Flag(on));
  }

  /** So its execution, read back, returns. */
  lemma FlagExecutionReturns(cfg: Config, c: Control, action: Action, r: Register, on: bool, env: CallEnv)
    requires IsFlag(r) && Fresh(c.dev, Settings) && Answering(env)
    ensures var e := Execute(cfg, c, action, [FlagStep(r, on)], true, env);
            e.outcome.Ok? && e.ctl.dev.wire == c.dev.wire[r := if on then 0xAA else 0x55]
  {
    var steps := [FlagStep(r, on)];
    FlagLoopDone(cfg, c, action, r, on, env);
    AnsweredExecutionReturnsIff(cfg, c, action, steps, env);
    ExecuteWire(cfg, c, action, steps, true, env);
  }

  lemma FlagLoopDone(cfg: Config, c: Control, action: Action, r: Register, on: bool, env: CallEnv)
    requires IsFlag(r) && Fresh(c.dev, Settings) && Answering(env)
    ensures ComponentOf(r) == Settings
    ensures var p := DoSteps(cfg, Start(c, action, env.exchanges), [FlagStep(r, on)]);
            && p.error.None? && Meets([FlagStep(r, on)], p.ctl.dev.wire)
            && p.ctl.dev.wire == c.dev.wire[r := if on then 0xAA else 0x55]
  {
    var p := Start(c, action, env.exchanges);
    if env.exchanges != [] { assert env.exchanges[0] in env.exchanges; }
    OneStep(cfg, p, FlagStep(r, on));
    FlagStepDone(cfg, p, r, on);
    FlagMet(r, on, DoSteps(cfg, p, [FlagStep(r, on)]).ctl.dev.wire);
  }

  /** What an answered call of either kind plans on. */
  lemma PreparedForFlag(cfg: Config, c: Control, call: ControlCall, maxAge: Option<int>, env: CallEnv)
    requires Honest(c.dev) && Answering(env) && (call.LimitPv? || call.LimitExport?)
    ensures var (d, ok) := Prepared(cfg, c.dev, call, maxAge, env);
            ok && d.wire == c.dev.wire && Fresh(d, Settings)
  {
    ReadsPrepare(cfg, c.dev, call, maxAge, env);
    PreparedEffect(cfg, c.dev, call, maxAge, env, GUARDED);
    assert Settings in Names(call);
  }

  /** On a link that answers everything `set_pv_limitation` returns, and has moved its own register only. */
  lemma AnsweredPvReturns(cfg: Config, c: Control, on: bool, maxAge: Option<int>, env: CallEnv)
    requires Honest(c.dev) && Answering(env)
    ensures var r := Perform(cfg, c, LimitPv(on, true), maxAge, env);
            r.outcome.Ok? && r.ctl.dev.wire == c.dev.wire[PvLimitation := if on then 0xAA else 0x55]
  {
    PreparedForFlag(cfg, c, LimitPv(on, true), maxAge, env);
    var d := Prepared(cfg, c.dev, LimitPv(on, true), maxAge, env).0;
    FlagExecutionReturns(cfg, c.(dev := d), PvAction, PvLimitation, on, env);
  }

  /** And so does lifting the limitation, which leaves watts and ratio alone. */
  lemma AnsweredLiftReturns(cfg: Config, c: Control, enabled: bool, maxAge: Option<int>, env: CallEnv)
    requires Honest(c.dev) && Answering(env)
    ensures var r := Perform(cfg, c, LimitExport(None, enabled, true), maxAge, env);
            r.outcome.Ok? && r.ctl.dev.wire == c.dev.wire[ExportEnabled := 0x55]
  {
    PreparedForFlag(cfg, c, LimitExport(None, enabled, true), maxAge, env);
    var d := Prepared(cfg, c.dev, LimitExport(None, enabled, true), maxAge, env).0;
    FlagExecutionReturns(cfg, c.(dev := d), ExportAction, ExportEnabled, false, env);
  }

  /** A verified `set_pv_limitation` that returned at any point of a verified run left its flag, whatever failed. */
  lemma ReturnedPvIsInEffect(cfg: Config, c: Control, acts: seq<Activity>, on: bool, maxAge: Option<int>, env: CallEnv)
    requires Honest(c.dev) && VerifiedRun(acts)
    ensures var r := Perform(cfg, Run(cfg, c, acts), LimitPv(on, true), maxAge, env);
            r.outcome.Ok? ==> r.ctl.dev.wire[PvLimitation] == if on then 0xAA else 0x55
  {
    NormalReturnMeetsTargets(cfg, c, acts, LimitPv(on, true), maxAge, env);
    FlagMet(PvLimitation, on, Perform(cfg, Run(cfg, c, acts), LimitPv(on, true), maxAge, env).ctl.dev.wire);
  }
}
