/**
 The guarded call: re-read what is stale, plan, write the steps that differ, read back
 and compare. These functions say what each call does to the device and what it returns,
 for given answers of the link; the class `BatteryControl` is proved to compute them.
 */
module Execution {
  import opened Wrappers
  import opened Registers
  import opened Devices
  import opened Polling
  import opened Planner

  function FirstExchange(xs: seq<Exchange>): Exchange { if xs == [] then QUIET else xs[0] }

  function RestExchanges(xs: seq<Exchange>): seq<Exchange> { if xs == [] then [] else xs[1..] }

  /** Where the step loop stands. */
  datatype Progress = Progress(ctl: Control, report: WriteReport, error: Option<ControlError>, rest: seq<Exchange>)

  /** What a record shows as previous: the cached field, or for the start/stop command the polled running state. */
  function PreviousOf(d: Device, r: Register): Value {
    if r != StartStopReg then d.cache[r] else if d.state.None? then Missing else Running(d.state.value)
  }

  /** The write of one step, its word already encoded. */
  function WriteStep(cfg: Config, p: Progress, s: Step, w: Word): Progress {
    var x := FirstExchange(p.rest);
    var current := PreviousOf(p.ctl.dev, s.reg);
    var dev := Transmit(cfg.mirrors, p.ctl.dev, s.reg, s.target, w, x);
    match x.reply
    case Failed(ExceptionCode(_)) =>
      Progress(p.ctl.(dev := dev), p.report, Some(WriteRejected(s.reg, p.report)), RestExchanges(p.rest))
    case Failed(_) =>
      var rep := p.report.(uncertain := p.report.uncertain + [s.reg]);
      Progress(p.ctl.(dev := dev), rep, Some(WriteUncertain(s.reg, rep)), RestExchanges(p.rest))
    case Acked =>
      Progress(Control(dev, if s.reg == EmsModeReg then Some(dev.clock) else p.ctl.emsWrittenAt),
               p.report.(writes := p.report.writes + [WriteRecord(s.reg, current, s.target)]),
               None, RestExchanges(p.rest))
  }

  lemma WriteStepDevice(cfg: Config, p: Progress, s: Step, w: Word)
    ensures WriteStep(cfg, p, s, w).ctl.dev
         == Transmit(cfg.mirrors, p.ctl.dev, s.reg, s.target, w, FirstExchange(p.rest))
  {
  }

  function DoStep(cfg: Config, p: Progress, s: Step): Progress {
    if Skipped(cfg, p.ctl, s) then p.(report := p.report.(skipped := p.report.skipped + [s.reg]))
    else if Encode(s.reg, s.target).None? then p.(error := Some(InvalidWriteValue(s.reg, p.report)))
    else WriteStep(cfg, p, s, Encode(s.reg, s.target).value)
  }

  function DoSteps(cfg: Config, p: Progress, steps: seq<Step>): Progress
    decreases |steps|
  {
    if steps == [] || p.error.Some? then p else DoSteps(cfg, DoStep(cfg, p, steps[0]), steps[1..])
  }

  function NewReport(action: Action, at: int): WriteReport { WriteReport(action, [], [], [], false, at) }

  function Start(c: Control, action: Action, xs: seq<Exchange>): Progress {
    Progress(c, NewReport(action, c.dev.clock), None, xs)
  }

  /** The components of the steps, each once, in order. */
  function Touched(steps: seq<Step>): seq<Component> {
    if steps == [] then []
    else
      var t := Touched(steps[..|steps| - 1]);
      var c := ComponentOf(steps[|steps| - 1].reg);
      if c in t then t else t + [c]
  }

  /** The first planned register whose cached value misses its last target, from step `i` on. */
  function Mismatch(steps: seq<Step>, cache: Cache, i: nat): Option<Register>
    requires i <= |steps|
    decreases |steps| - i
  {
    FinalsAreSteps(steps);
    if i == |steps| then None
    else if !Satisfied(Finals(steps)[steps[i].reg], cache[steps[i].reg]) then Some(steps[i].reg)
    else Mismatch(steps, cache, i + 1)
  }

  /**
   What the link and the other tasks do during one call: while it waits for the lock,
   at the freshness read, at each write, during the settle delay and at the read-back.
   */
  datatype CallEnv = CallEnv(
    waiting: seq<Event>, refresh: seq<ReadEnv>, exchanges: seq<Exchange>, settle: seq<Event>, readback: seq<ReadEnv>)

  datatype Performed = Performed(ctl: Control, outcome: Result<WriteReport, ControlError>)

  function Drop(c: Control, names: seq<Component>): Control { c.(dev := Invalidate(c.dev, names)) }

  /** The read-back after the writes of `p`. */
  function ReadBack(p: Progress, steps: seq<Step>, env: CallEnv): Performed {
    var touched := Touched(steps);
    var q := Refresh(Disturb(p.ctl.dev, env.settle), touched, env.readback);
    var c := p.ctl.(dev := q.dev);
    if !AllAnswered(q) then Performed(Drop(c, touched), Err(SettingsUnavailable(Some(p.report))))
    else
      match Mismatch(steps, c.dev.cache, 0)
      case Some(r) => Performed(Drop(c, touched), Err(VerificationFailed(r, p.report)))
      case None => Performed(c, Ok(p.report.(verified := true)))
  }

  function Execute(cfg: Config, c: Control, action: Action, steps: seq<Step>, verify: bool, env: CallEnv): Performed {
    var p := DoSteps(cfg, Start(c, action, env.exchanges), steps);
    if p.error.Some? then Performed(Drop(p.ctl, Touched(steps)), Err(p.error.value))
    else if verify && p.report.writes != [] then ReadBack(p, steps, env)
    else Performed(p.ctl, Ok(p.report))
  }

  // -- the public calls --------------------------------------------------------------

  datatype ControlCall =
    | ApplyMode(want: DesiredState, verify: bool)
    | LimitExport(limit: Option<int>, enabled: bool, verify: bool)
    | LimitPv(on: bool, verify: bool)
    | Operate(command: StartStop)

  /** The components whose freshness a call depends on. */
  function Names(call: ControlCall): seq<Component> {
    match call
    case ApplyMode(_, _) => [Settings, BatteryLimits]
    case Operate(_) => []
    case _ => [Settings]
  }

  function ActionOf(call: ControlCall): Action {
    match call
    case ApplyMode(want, _) => BatteryAction(want.mode)
    case LimitExport(_, _, _) => ExportAction
    case LimitPv(_, _) => PvAction
    case Operate(command) => StartStopAction(command)
  }

  predicate IsStale(d: Device, n: Component, maxAge: int) {
    n !in d.refreshed || d.clock - d.refreshed[n] > maxAge
  }

  function Stale(d: Device, names: seq<Component>, maxAge: int): seq<Component> {
    if names == [] then []
    else (if IsStale(d, names[0], maxAge) then [names[0]] else []) + Stale(d, names[1..], maxAge)
  }

  /** Re-reads the stale ones of `names`; false when that failed. */
  function EnsureFresh(d: Device, names: seq<Component>, maxAge: int, env: seq<ReadEnv>): (Device, bool) {
    var stale := Stale(d, names, maxAge);
    if stale == [] then (d, true)
    else
      var q := Refresh(d, stale, env);
      (q.dev, AllAnswered(q))
  }

  /** The nearest whole number to n / d, ties broken either way. */
  function RoundHalf(n: int, d: int, tieUp: bool): int
    requires d > 0
  {
    if 2 * (n % d) > d || (2 * (n % d) == d && tieUp) then n / d + 1 else n / d
  }

  /** 1000 * limit / nominal rounded to a whole number of tenths of a percent, at most 100 %. */
  function Implied(cfg: Config, limit: int, nominal: int): int
    requires nominal > 0
  {
    var t := RoundHalf(1000 * limit, nominal, cfg.tieUp);
    if t > 1000 then 1000 else t
  }

  function ExportBounds(cfg: Config): (int, int) {
    var low := if cfg.ratings.Some? then cfg.ratings.value.exportMin else None;
    var rated := if cfg.ratings.Some? then cfg.ratings.value.exportMax else None;
    var high := if rated.Some? then rated else cfg.nominal;
    (if low.Some? then low.value else 0, if high.Some? then high.value else 0xFFFF)
  }

  /** The ratio is realigned when it is readable and more than a tenth away from the implied one. */
  predicate RatioOff(cfg: Config, d: Device, limit: int) {
    && cfg.nominal.Some? && cfg.nominal.value > 0
    && d.cache[FeedInRatio].Number?
    && !(-1 <= d.cache[FeedInRatio].n - Implied(cfg, limit, cfg.nominal.value) <= 1)
  }

  function RatioStep(cfg: Config, limit: int): Step
    requires cfg.nominal.Some? && cfg.nominal.value > 0
  {
    Step(FeedInRatio, Number(Implied(cfg, limit, cfg.nominal.value)), Within(1))
  }

  function WattsStep(limit: int): Step { Step(ExportLimit, Number(limit), Exactly) }

  function EnableStep(on: bool): Step { Step(ExportEnabled, Flag(on), Exactly) }

  function ExportPlan(cfg: Config, d: Device, limit: Option<int>, enabled: bool): Result<seq<Step>, ControlError> {
    match limit
    case None => Ok([EnableStep(false)])
    case Some(l) =>
      if !(ExportBounds(cfg).0 <= l <= ExportBounds(cfg).1) then Err(PowerOutOfRange)
      else Ok((if enabled && RatioOff(cfg, d, l) then [RatioStep(cfg, l)] else [])
          + [WattsStep(l), EnableStep(enabled)])
  }

  /** The steps a call plans against what is cached. */
  function StepsOf(cfg: Config, d: Device, call: ControlCall): Result<seq<Step>, ControlError> {
    match call
    case ApplyMode(want, _) => Plan(cfg, d, want)
    case LimitExport(limit, enabled, _) => ExportPlan(cfg, d, limit, enabled)
    case LimitPv(on, _) => Ok([Step(PvLimitation, Flag(on), Exactly)])
    case Operate(_) => Ok([])
  }

  /** Start and stop: one write of the command register, never read back. */
  function SendCommand(cfg: Config, c: Control, command: StartStop, env: CallEnv): Performed {
    var c0 := c.(dev := Disturb(c.dev, env.waiting));
    var p := WriteStep(cfg, Start(c0, StartStopAction(command), env.exchanges),
                       Step(StartStopReg, Operation(command), Exactly), StartStopCode(command));
    Performed(p.ctl, if p.error.Some? then Err(p.error.value) else Ok(p.report))
  }

  /** What a guarded call plans against: the device after the wait and the freshness read. */
  function Prepared(cfg: Config, d: Device, call: ControlCall, maxAge: Option<int>, env: CallEnv): (Device, bool) {
    EnsureFresh(Disturb(d, env.waiting), Names(call), if maxAge.Some? then maxAge.value else cfg.maxAge, env.refresh)
  }

  function Perform(cfg: Config, c: Control, call: ControlCall, maxAge: Option<int>, env: CallEnv): Performed {
    if call.Operate? then SendCommand(cfg, c, call.command, env)
    else
      var (d, ok) := Prepared(cfg, c.dev, call, maxAge, env);
      var c1 := c.(dev := d);
      if !ok then Performed(c1, Err(SettingsUnavailable(None)))
      else
        match StepsOf(cfg, d, call)
        case Err(e) => Performed(c1, Err(e))
        case Ok(steps) => Execute(cfg, c1, ActionOf(call), steps, call.verify, env)
  }
}
