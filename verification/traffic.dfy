/**
 The link's own record of write requests, against what calls report: a report lists the
 acknowledged writes, all of them, in order, and nothing else was sent.
 */
module Traffic {
  import opened Wrappers
  import opened Registers
  import opened Devices
  import opened Planner
  import opened Execution
  import Honesty

  /** The acknowledged requests, in order. */
  function AckedOf(sent: seq<Request>): seq<(Register, Value)> {
    if sent == [] then []
    else
      var last := sent[|sent| - 1];
      AckedOf(sent[..|sent| - 1]) + if last.acked then [(last.reg, last.value)] else []
  }

  /** The writes a report lists. */
  function Written(writes: seq<WriteRecord>): seq<(Register, Value)> {
    if writes == [] then []
    else Written(writes[..|writes| - 1]) + [(writes[|writes| - 1].reg, writes[|writes| - 1].value)]
  }

  lemma {:induction false} WrittenAppend(a: seq<WriteRecord>, b: seq<WriteRecord>)
    ensures Written(a + b) == Written(a) + Written(b)
  {
    if b == [] {
      assert a + b == a;
    } else {
      assert (a + b)[..|a + b| - 1] == a + b[..|b| - 1];
      WrittenAppend(a, b[..|b| - 1]);
    }
  }

  /** `now` continues the record `before`, with requests for registers of `regs` only. */
  ghost predicate Continues(before: seq<Request>, now: seq<Request>, regs: set<Register>) {
    && before <= now
    && forall k :: |before| <= k < |now| ==> now[k].reg in regs
  }

  lemma TransmitSends(mirrors: Option<int>, d: Device, r: Register, v: Value, w: Word, x: Exchange)
    ensures Transmit(mirrors, d, r, v, w, x).sent == d.sent + [Request(r, v, d.wire, x.reply == Acked)]
  {
    DisturbUndisturbed(d, x.before);
    DisturbUndisturbed(Deliver(mirrors, Disturb(d, x.before), r, v, w, x), x.after);
  }

  lemma WriteStepSends(cfg: Config, p: Progress, s: Step, w: Word)
    requires p.error.None?
    ensures var q := WriteStep(cfg, p, s, w);
            && q.ctl.dev.sent == p.ctl.dev.sent + [Request(s.reg, s.target, p.ctl.dev.wire, q.error.None?)]
            && Written(q.report.writes)
               == Written(p.report.writes) + (if q.error.None? then [(s.reg, s.target)] else [])
            && AckedOf(q.ctl.dev.sent) == AckedOf(p.ctl.dev.sent) + (if q.error.None? then [(s.reg, s.target)] else [])
  {
    var q := WriteStep(cfg, p, s, w);
    WriteStepDevice(cfg, p, s, w);
    TransmitSends(cfg.mirrors, p.ctl.dev, s.reg, s.target, w, FirstExchange(p.rest));
    assert q.ctl.dev.sent[..|q.ctl.dev.sent| - 1] == p.ctl.dev.sent;
    if q.error.None? { assert q.report.writes[..|q.report.writes| - 1] == p.report.writes; }
  }

  function RegsOf(steps: seq<Step>): set<Register> { set s | s in steps :: s.reg }

  /** The report so far lists exactly what has been acknowledged on top of `base`. */
  ghost predicate Balanced(p: Progress, base: seq<(Register, Value)>) {
    AckedOf(p.ctl.dev.sent) == base + Written(p.report.writes)
  }

  lemma WriteStepReports(cfg: Config, p: Progress, s: Step, w: Word)
    requires p.error.None? && WriteStep(cfg, p, s, w).error.Some?
    ensures ReportOf(WriteStep(cfg, p, s, w).error.value) == Some(WriteStep(cfg, p, s, w).report)
  {
  }

  lemma WriteStepTraffic(cfg: Config, p: Progress, s: Step, w: Word, base: seq<(Register, Value)>)
    requires p.error.None? && Balanced(p, base)
    ensures var q := WriteStep(cfg, p, s, w); Balanced(q, base) && Continues(p.ctl.dev.sent, q.ctl.dev.sent, {s.reg})
  {
    var q := WriteStep(cfg, p, s, w);
    WriteStepSends(cfg, p, s, w);
    StaysBalanced(base, Written(p.report.writes), AckedOf(p.ctl.dev.sent),
        if q.error.None? then [(s.reg, s.target)] else [],
                  Written(q.report.writes), AckedOf(q.ctl.dev.sent));
    OneContinues(p.ctl.dev.sent, Request(s.reg, s.target, p.ctl.dev.wire, q.error.None?), q.ctl.dev.sent);
  }

  /** What is added to both sides of a balance keeps it. */
  lemma StaysBalanced<T>(base: seq<T>, written: seq<T>, acked: seq<T>, one: seq<T>, written1: seq<T>, acked1: seq<T>)
    requires acked == base + written && written1 == written + one && acked1 == acked + one
    ensures acked1 == base + written1
  {
  }

  lemma OneContinues(before: seq<Request>, r: Request, now: seq<Request>)
    requires now == before + [r]
    ensures Continues(before, now, {r.reg})
  {
  }

  lemma DoStepTraffic(cfg: Config, p: Progress, s: Step, base: seq<(Register, Value)>)
    requires p.error.None? && Balanced(p, base)
    ensures var q := DoStep(cfg, p, s);
            && Balanced(q, base)
            && Continues(p.ctl.dev.sent, q.ctl.dev.sent, {s.reg})
            && (q.error.Some? ==> ReportOf(q.error.value) == Some(q.report))
  {
    var q := DoStep(cfg, p, s);
    if !Skipped(cfg, p.ctl, s) && Encode(s.reg, s.target).Some? {
      var w := Encode(s.reg, s.target).value;
      assert q == WriteStep(cfg, p, s, w);
      WriteStepTraffic(cfg, p, s, w, base);
      if q.error.Some? { WriteStepReports(cfg, p, s, w); }
    }
  }

  lemma ContinuesTrans(a: seq<Request>, b: seq<Request>, c: seq<Request>, r1: set<Register>, r2: set<Register>)
    requires Continues(a, b, r1) && Continues(b, c, r2)
    ensures Continues(a, c, r1 + r2)
  {
  }

  lemma ContinuesWider(a: seq<Request>, b: seq<Request>, r1: set<Register>, r2: set<Register>)
    requires Continues(a, b, r1) && r1 <= r2
    ensures Continues(a, b, r2)
  {
  }

  /** The step loop sends only planned registers, and reports exactly what was acknowledged. */
  lemma {:induction false} StepsTraffic(cfg: Config, p: Progress, steps: seq<Step>, base: seq<(Register, Value)>)
    requires p.error.None? && Balanced(p, base)
    ensures var q := DoSteps(cfg, p, steps);
            && Balanced(q, base)
            && Continues(p.ctl.dev.sent, q.ctl.dev.sent, RegsOf(steps))
            && (q.error.Some? ==> ReportOf(q.error.value) == Some(q.report))
    decreases |steps|
  {
    if steps != [] {
      var q := DoStep(cfg, p, steps[0]);
      DoStepTraffic(cfg, p, steps[0], base);
      var end := DoSteps(cfg, q, steps[1..]);
      if q.error.None? {
        StepsTraffic(cfg, q, steps[1..], base);
        ContinuesTrans(p.ctl.dev.sent, q.ctl.dev.sent, end.ctl.dev.sent, {steps[0].reg}, RegsOf(steps[1..]));
      }
      assert steps[0] in steps;
      ContinuesWider(p.ctl.dev.sent, end.ctl.dev.sent,
          {steps[0].reg} + (if q.error.None? then RegsOf(steps[1..]) else {}), RegsOf(steps));
    }
  }

  /** The report an error carries. */
  function ReportOf(e: ControlError): Option<WriteReport> {
    match e
    case InvalidWriteValue(_, rep) => Some(rep)
    case SettingsUnavailable(rep) => rep
    case WriteRejected(_, rep) => Some(rep)
    case WriteUncertain(_, rep) => Some(rep)
    case VerificationFailed(_, rep) => Some(rep)
    case _ => None
  }

  function Outcome(r: Performed): Option<WriteReport> {
    if r.outcome.Ok? then Some(r.outcome.value) else ReportOf(r.outcome.error)
  }

  /** What the outcome claims to have written. */
  function Claimed(r: Performed): seq<(Register, Value)> {
    if Outcome(r).Some? then Written(Outcome(r).value.writes) else []
  }

  lemma ExecuteTraffic(cfg: Config, c: Control, action: Action, steps: seq<Step>, verify: bool, env: CallEnv)
    ensures var r := Execute(cfg, c, action, steps, verify, env);
            && Continues(c.dev.sent, r.ctl.dev.sent, RegsOf(steps))
            && AckedOf(r.ctl.dev.sent) == AckedOf(c.dev.sent) + Claimed(r)
  {
    var p0 := Start(c, action, env.exchanges);
    var p := DoSteps(cfg, p0, steps);
    assert Balanced(p0, AckedOf(c.dev.sent));
    StepsTraffic(cfg, p0, steps, AckedOf(c.dev.sent));
    if p.error.None? && verify && p.report.writes != [] {
      Honesty.ReadBackEffect(cfg, p, steps, env, {});
      ReadBackReports(p, steps, env);
    }
  }

  /** The three ways a read-back ends. */
  lemma ReadBackEnds(p: Progress, steps: seq<Step>, env: CallEnv)
    ensures var o := ReadBack(p, steps, env).outcome;
            || o == Ok(p.report.(verified := true)) || o == Err(SettingsUnavailable(Some(p.report)))
            || (o.Err? && o.error.VerificationFailed? && o.error.written == p.report)
  {
  }

  lemma ReadBackReports(p: Progress, steps: seq<Step>, env: CallEnv)
    ensures Claimed(ReadBack(p, steps, env)) == Written(p.report.writes)
  {
    ReadBackEnds(p, steps, env);
    ClaimsReport(ReadBack(p, steps, env), p.report);
  }

  lemma ClaimsReport(r: Performed, rep: WriteReport)
    requires || r.outcome == Ok(rep.(verified := true)) || r.outcome == Err(SettingsUnavailable(Some(rep)))
             || (r.outcome.Err? && r.outcome.error.VerificationFailed? && r.outcome.error.written == rep)
    ensures Claimed(r) == Written(rep.writes)
  {
    assert Outcome(r).Some? && Outcome(r).value.writes == rep.writes;
  }

  /** The registers a call may write. */
  function MayWrite(call: ControlCall): set<Register> {
    match call
    case ApplyMode(_, _) => {EmsModeReg, ChargeCommandReg, ForcedPower, MaxCharge, MaxDischarge}
    case LimitExport(_, _, _) => {ExportLimit, ExportEnabled, FeedInRatio}
    case LimitPv(_, _) => {PvLimitation}
    case Operate(_) => {StartStopReg}
  }

  lemma PlanStaysInCall(cfg: Config, d: Device, call: ControlCall)
    requires StepsOf(cfg, d, call).Ok?
    ensures RegsOf(StepsOf(cfg, d, call).value) <= MayWrite(call)
  {
  }

  lemma PlanErrorsCarryNothing(cfg: Config, d: Device, call: ControlCall)
    requires StepsOf(cfg, d, call).Err?
    ensures ReportOf(StepsOf(cfg, d, call).error) == None
  {
  }

  lemma CommandPerformed(cfg: Config, c: Control, command: StartStop, env: CallEnv, p: Progress)
    requires p == WriteStep(cfg, Start(c.(dev := Disturb(c.dev, env.waiting)), StartStopAction(command), env.exchanges),
                            Step(StartStopReg, Operation(command), Exactly), StartStopCode(command))
    ensures var r := SendCommand(cfg, c, command, env);
            && r.ctl == p.ctl && r.outcome.Ok? == p.error.None?
            && Outcome(r) == Some(p.report)
  {
  }

  /** Start and stop send exactly one request, for what the registers hold at that moment. */
  lemma CommandTraffic(cfg: Config, c: Control, command: StartStop, env: CallEnv)
    ensures var r := SendCommand(cfg, c, command, env);
            && r.ctl.dev.sent == c.dev.sent + [Request(StartStopReg, Operation(command), c.dev.wire, r.outcome.Ok?)]
            && AckedOf(r.ctl.dev.sent) == AckedOf(c.dev.sent) + Claimed(r)
  {
    DisturbUndisturbed(c.dev, env.waiting);
    var p := Start(c.(dev := Disturb(c.dev, env.waiting)), StartStopAction(command), env.exchanges);
    var s := Step(StartStopReg, Operation(command), Exactly);
    var q := WriteStep(cfg, p, s, StartStopCode(command));
    WriteStepSends(cfg, p, s, StartStopCode(command));
    CommandPerformed(cfg, c, command, env, q);
  }

  lemma GuardedTraffic(cfg: Config, c: Control, call: ControlCall, maxAge: Option<int>, env: CallEnv)
    requires !call.Operate?
    ensures var r := Perform(cfg, c, call, maxAge, env);
            && Continues(c.dev.sent, r.ctl.dev.sent, MayWrite(call))
            && AckedOf(r.ctl.dev.sent) == AckedOf(c.dev.sent) + Claimed(r)
  {
    Honesty.PreparedEffect(cfg, c.dev, call, maxAge, env, {});
    var (d, ok) := Prepared(cfg, c.dev, call, maxAge, env);
    if ok && StepsOf(cfg, d, call).Ok? {
      var steps := StepsOf(cfg, d, call).value;
      PlanStaysInCall(cfg, d, call);
      ExecuteTraffic(cfg, c.(dev := d), ActionOf(call), steps, call.verify, env);
      var r := Execute(cfg, c.(dev := d), ActionOf(call), steps, call.verify, env);
      assert Perform(cfg, c, call, maxAge, env) == r;
      ContinuesWider(c.dev.sent, r.ctl.dev.sent, RegsOf(steps), MayWrite(call));
    } else if ok {
      PlanErrorsCarryNothing(cfg, d, call);
    }
  }

  /**
   However a call ends, what it reports as written is exactly what the link acknowledged
   during it, in order; and it sent requests for its own registers only.
   */
  lemma CallReportsItsTraffic(cfg: Config, c: Control, call: ControlCall, maxAge: Option<int>, env: CallEnv)
    ensures var r := Perform(cfg, c, call, maxAge, env);
            && Continues(c.dev.sent, r.ctl.dev.sent, MayWrite(call))
            && AckedOf(r.ctl.dev.sent) == AckedOf(c.dev.sent) + Claimed(r)
  {
    if call.Operate? {
      CommandTraffic(cfg, c, call.command, env);
      var r := SendCommand(cfg, c, call.command, env);
      OneContinues(c.dev.sent, Request(StartStopReg, Operation(call.command), c.dev.wire, r.outcome.Ok?),
          r.ctl.dev.sent);
    } else {
      GuardedTraffic(cfg, c, call, maxAge, env);
    }
  }
}
