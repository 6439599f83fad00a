/**
 The integration's wrapper around a control call: publish only what the inverter answered,
 and after an unanswered write or read-back re-read and plan once more.
 */
module Recovery {
  import opened Wrappers
  import opened Registers
  import opened Devices
  import opened Polling
  import opened Planner
  import opened Execution
  import opened Honesty
  import opened Traffic
  import StepFacts
  import Classifier
  import Repetition

  /** A publication, and the device as it was at that moment. */
  datatype Notice = Notice(what: Publication, seen: Device)

  function ComponentsOf(regs: seq<Register>): set<Component> { set r | r in regs :: ComponentOf(r) }

  /** The components a report names. */
  function TouchedBy(rep: WriteReport): set<Component> {
    (set w | w in rep.writes :: ComponentOf(w.reg)) + ComponentsOf(rep.skipped) + ComponentsOf(rep.uncertain)
  }

  /** The guarded components among `names`, in alphabetical order. */
  function Sorted(names: set<Component>): seq<Component> {
    (if BatteryLimits in names then [BatteryLimits] else []) + (if Settings in names then [Settings] else [])
  }

  /** Where the wrapper stands after a re-read: the device, whether everything was read, and what was published. */
  datatype Refetched = Refetched(dev: Device, ok: bool, notices: seq<Notice>)

  function FailureNotices(names: seq<Component>, q: Polled): seq<Notice> {
    if names == [] then []
    else (if names[0] in q.report.failed
        then [Notice(Unavailable({names[0]}, q.report.failed[names[0]]), q.dev)] else [])
         + FailureNotices(names[1..], q)
  }

  function RereadNames(d: Device, names: set<Component>, env: seq<ReadEnv>): Refetched {
    if names == {} then Refetched(d, true, [])
    else
      var q := Refresh(d, Sorted(names), env);
      if q.raised.Some? then Refetched(q.dev, false, [Notice(Unavailable(names, q.raised.value), q.dev)])
      else
        var read := names - q.report.failed.Keys;
        Refetched(q.dev, names * q.report.failed.Keys == {},
               (if read != {} then [Notice(Snapshot(read), q.dev)] else []) + FailureNotices(Sorted(names), q))
  }

  /** The register an error names, if any. */
  function FieldOf(e: ControlError): set<Component> {
    match e
    case InvalidWriteValue(field, _) => {ComponentOf(field)}
    case WriteRejected(field, _) => {ComponentOf(field)}
    case WriteUncertain(field, _) => {ComponentOf(field)}
    case _ => {}
  }

  function PublishAfterError(d: Device, e: ControlError, env: seq<ReadEnv>): Refetched {
    match ReportOf(e)
    case None => Refetched(d, false, [])
    case Some(rep) =>
      if e.VerificationFailed? then Refetched(d, true, [Notice(Snapshot(TouchedBy(rep)), d)])
      else RereadNames(d, TouchedBy(rep) + FieldOf(e), env)
  }

  /** What the link and other tasks do during one wrapped call. */
  datatype RunEnv = RunEnv(first: CallEnv, reread: seq<ReadEnv>, second: CallEnv, again: seq<ReadEnv>,
      publish: seq<ReadEnv>)

  datatype Ran = Ran(ctl: Control, result: Result<WriteReport, ControlError>, notices: seq<Notice>)

  /** Publish the outcome of a call that returned. */
  function Finish(c: Control, rep: WriteReport, publish: bool, env: seq<ReadEnv>, notices: seq<Notice>): Ran {
    if !publish || rep.writes == [] then Ran(c, Ok(rep), notices)
    else if rep.verified then Ran(c, Ok(rep), notices + [Notice(Snapshot(TouchedBy(rep)), c.dev)])
    else
      var r := RereadNames(c.dev, TouchedBy(rep), env);
      Ran(c.(dev := r.dev), Ok(rep), notices + r.notices)
  }

  /** The report of a call that was planned twice. */
  function Merged(first: WriteReport, second: WriteReport): WriteReport {
    WriteReport(second.action, first.writes + second.writes, second.skipped, [],
        second.verified || second.writes == [], first.at)
  }

  predicate Retried(e: ControlError) { e.SettingsUnavailable? || e.WriteUncertain? }

  /** The second attempt, after the first one's error was published. */
  function PlanAgain(cfg: Config, c: Control, call: ControlCall, maxAge: Option<int>, first: WriteReport, env: RunEnv,
                     notices: seq<Notice>): Ran {
    var second := Perform(cfg, c, call, maxAge, env.second);
    match second.outcome
    case Err(e) =>
      var r := PublishAfterError(second.ctl.dev, e, env.again);
      Ran(second.ctl.(dev := r.dev), Err(e), notices + r.notices)
    case Ok(rep) => Finish(second.ctl, Merged(first, rep), true, env.publish, notices)
  }

  /** After a first attempt that failed: publish, and plan once more if everything was read afresh. */
  function Recover(cfg: Config, c: Control, e: ControlError, call: ControlCall, maxAge: Option<int>, env: RunEnv): Ran {
    var r := PublishAfterError(c.dev, e, env.reread);
    var c1 := c.(dev := r.dev);
    if !Retried(e) || !r.ok then Ran(c1, Err(e), r.notices)
    else if ReportOf(e).None? then Ran(c1, Err(AssertionTripped), r.notices)
    else PlanAgain(cfg, c1, call, maxAge, ReportOf(e).value, env, r.notices)
  }

  function AsyncRun(cfg: Config, c: Control, call: ControlCall, publish: bool, maxAge: Option<int>, env: RunEnv): Ran {
    var first := Perform(cfg, c, call, maxAge, env.first);
    match first.outcome
    case Ok(rep) => Finish(first.ctl, rep, publish, env.publish, [])
    case Err(e) =>
      if !publish then Ran(first.ctl, Err(e), []) else Recover(cfg, first.ctl, e, call, maxAge, env)
  }

  // -- what re-reading and publishing keep ---------------------------------------------------

  /** Every snapshot shows cached fields that equal the decoded registers. */
  ghost predicate AllFresh(notices: seq<Notice>) {
    forall k :: 0 <= k < |notices| && notices[k].what.Snapshot? ==>
        forall n :: n in notices[k].what.names ==> Fresh(notices[k].seen, n)
  }

  lemma AllFreshAppend(a: seq<Notice>, b: seq<Notice>)
    requires AllFresh(a) && AllFresh(b)
    ensures AllFresh(a + b)
  {
  }

  lemma {:induction false} FailuresAreNoSnapshots(names: seq<Component>, q: Polled)
    ensures forall k :: 0 <= k < |FailureNotices(names, q)| ==> FailureNotices(names, q)[k].what.Unavailable?
  {
    if names != [] { FailuresAreNoSnapshots(names[1..], q); }
  }

  /** What a re-read that returned publishes: fresh snapshots, then failures. */
  lemma RereadNotices(q: Polled, names: set<Component>)
    requires forall n :: n in names && n !in q.report.failed ==> Fresh(q.dev, n)
    ensures var read := names - q.report.failed.Keys;
            AllFresh((if read != {} then [Notice(Snapshot(read), q.dev)] else []) + FailureNotices(Sorted(names), q))
  {
    var read := names - q.report.failed.Keys;
    FailuresAreNoSnapshots(Sorted(names), q);
    AllFreshAppend(if read != {} then [Notice(Snapshot(read), q.dev)] else [], FailureNotices(Sorted(names), q));
  }

  lemma RereadEffect(d: Device, names: set<Component>, env: seq<ReadEnv>)
    requires names <= GUARDED
    ensures var r := RereadNames(d, names, env); Undisturbed(d, r.dev) && AllFresh(r.notices)
  {
    if names != {} {
      var q := Refresh(d, Sorted(names), env);
      RefreshMakesFresh(d, Sorted(names), env);
      if q.raised.None? {
        forall n | n in names && n !in q.report.failed ensures Fresh(q.dev, n) { assert n in Sorted(names); }
        RereadNotices(q, names);
      }
    }
  }

  /** The report of the step loop names planned registers only. */
  ghost predicate Mentions(rep: WriteReport, regs: set<Register>) {
    && (forall w :: w in rep.writes ==> w.reg in regs)
    && (forall r :: r in rep.skipped ==> r in regs)
    && (forall r :: r in rep.uncertain ==> r in regs)
  }

  lemma DoStepMentions(cfg: Config, p: Progress, s: Step, regs: set<Register>)
    requires p.error.None? && Mentions(p.report, regs) && s.reg in regs
    ensures var q := DoStep(cfg, p, s);
            && Mentions(q.report, regs)
            && (q.error.Some? ==>
                 ReportOf(q.error.value) == Some(q.report) && FieldOf(q.error.value) == {ComponentOf(s.reg)})
  {
  }

  lemma {:induction false} StepsMention(cfg: Config, p: Progress, steps: seq<Step>, regs: set<Register>)
    requires p.error.None? && Mentions(p.report, regs) && RegsOf(steps) <= regs
    ensures var q := DoSteps(cfg, p, steps);
            && Mentions(q.report, regs)
            && (q.error.Some? ==> ReportOf(q.error.value) == Some(q.report)
                                  && exists r :: r in regs && FieldOf(q.error.value) == {ComponentOf(r)})
    decreases |steps|
  {
    if steps != [] {
      var s := steps[0];
      assert s in steps;
      assert s.reg in RegsOf(steps);
      DoStepMentions(cfg, p, s, regs);
      var q := DoStep(cfg, p, s);
      if q.error.Some? {
        StepFacts.ErrorEnds(cfg, q, steps[1..]);
      } else {
        assert RegsOf(steps[1..]) <= RegsOf(steps);
        StepsMention(cfg, q, steps[1..], regs);
      }
    }
  }

  lemma MentionsTouched(rep: WriteReport, regs: set<Register>, names: set<Component>)
    requires Mentions(rep, regs) && forall r :: r in regs ==> ComponentOf(r) in names
    ensures TouchedBy(rep) <= names
  {
  }

  /** What is known of a report, or of the error that carries it: it stays in the touched components. */
  ghost predicate StaysIn(r: Performed, names: set<Component>) {
    && (Outcome(r).Some? ==> TouchedBy(Outcome(r).value) <= names)
    && (r.outcome.Err? ==> FieldOf(r.outcome.error) <= names && r.outcome.error != AssertionTripped)
  }

  lemma TouchedCovers(steps: seq<Step>, r: Register)
    requires r in RegsOf(steps)
    ensures ComponentOf(r) in AsSet(Touched(steps))
  {
    TouchedIsWithin(steps);
    var s :| s in steps && s.reg == r;
  }

  lemma ExecuteStaysIn(cfg: Config, c: Control, action: Action, steps: seq<Step>, verify: bool, env: CallEnv)
    ensures StaysIn(Execute(cfg, c, action, steps, verify, env), AsSet(Touched(steps)))
  {
    var p0 := Start(c, action, env.exchanges);
    var p := DoSteps(cfg, p0, steps);
    var names := AsSet(Touched(steps));
    StepsMention(cfg, p0, steps, RegsOf(steps));
    forall r | r in RegsOf(steps) ensures ComponentOf(r) in names { TouchedCovers(steps, r); }
    MentionsTouched(p.report, RegsOf(steps), names);
    MentionsTouched(p.report.(verified := true), RegsOf(steps), names);
    if p.error.None? && verify && p.report.writes != [] { ReadBackStaysIn(p, steps, env); }
  }

  lemma ReadBackStaysIn(p: Progress, steps: seq<Step>, env: CallEnv)
    requires TouchedBy(p.report) <= AsSet(Touched(steps))
    requires TouchedBy(p.report.(verified := true)) <= AsSet(Touched(steps))
    ensures StaysIn(ReadBack(p, steps, env), AsSet(Touched(steps)))
  {
    ReadBackEnds(p, steps, env);
  }

  /** A guarded call touches every component it names, and no other. */
  lemma PlanTouchesNames(cfg: Config, d: Device, call: ControlCall)
    requires !call.Operate? && StepsOf(cfg, d, call).Ok?
    ensures AsSet(Touched(StepsOf(cfg, d, call).value)) == AsSet(Names(call))
  {
    var steps := StepsOf(cfg, d, call).value;
    TouchedIsWithin(steps);
    PlanStaysInNames(cfg, d, call);
    match call {
      case ApplyMode(want, _) =>
        var i := Classifier.FindEms(cfg, d, want);
        Repetition.TouchedHas(steps, Classifier.EmsStep(want.mode));
        i := Classifier.FindLimit(cfg, d, want, MaxCharge);
        Repetition.TouchedHas(steps, Classifier.LimitStep(cfg, want.mode, Limits(cfg).value, MaxCharge));
      case LimitExport(_, _, _) => Repetition.TouchedHas(steps, steps[|steps| - 1]);
      case LimitPv(_, _) => Repetition.TouchedHas(steps, steps[0]);
    }
  }

  /** A guarded call either never reached its steps, or is the execution of its plan. */
  lemma GuardedCases(cfg: Config, c: Control, call: ControlCall, maxAge: Option<int>, env: CallEnv)
    requires !call.Operate?
    ensures var r := Perform(cfg, c, call, maxAge, env);
            var (d, ok) := Prepared(cfg, c.dev, call, maxAge, env);
            if ok && StepsOf(cfg, d, call).Ok?
            then r == Execute(cfg, c.(dev := d), ActionOf(call), StepsOf(cfg, d, call).value, call.verify, env)
            else r.ctl == c.(dev := d) && r.outcome.Err? && ReportOf(r.outcome.error) == None
                 && FieldOf(r.outcome.error) == {} && r.outcome.error != AssertionTripped
  {
    var (d, ok) := Prepared(cfg, c.dev, call, maxAge, env);
    if ok && StepsOf(cfg, d, call).Err? { PlanErrors(cfg, d, call); }
  }

  lemma PlanErrors(cfg: Config, d: Device, call: ControlCall)
    requires StepsOf(cfg, d, call).Err?
    ensures var e := StepsOf(cfg, d, call).error;
            e == CannotBeRequested || e == PowerOutOfRange || e == SettingsUnavailable(None)
  {
  }

  /** Reports and errors of a guarded call stay within the components it names. */
  lemma CallStaysIn(cfg: Config, c: Control, call: ControlCall, maxAge: Option<int>, env: CallEnv)
    requires !call.Operate?
    ensures StaysIn(Perform(cfg, c, call, maxAge, env), AsSet(Names(call)))
  {
    GuardedCases(cfg, c, call, maxAge, env);
    var (d, ok) := Prepared(cfg, c.dev, call, maxAge, env);
    if ok && StepsOf(cfg, d, call).Ok? {
      ExecuteStaysIn(cfg, c.(dev := d), ActionOf(call), StepsOf(cfg, d, call).value, call.verify, env);
      PlanTouchesNames(cfg, d, call);
    }
  }

  /** An error that carries a report has dropped the stamp of every component the call names. */
  lemma FailedCallDrops(cfg: Config, c: Control, call: ControlCall, maxAge: Option<int>, env: CallEnv, n: Component)
    requires !call.Operate? && n in Names(call)
    requires Perform(cfg, c, call, maxAge, env).outcome.Err?
    requires ReportOf(Perform(cfg, c, call, maxAge, env).outcome.error).Some?
    ensures n !in Perform(cfg, c, call, maxAge, env).ctl.dev.refreshed
  {
    GuardedCases(cfg, c, call, maxAge, env);
    var d := Prepared(cfg, c.dev, call, maxAge, env).0;
    PlanTouchesNames(cfg, d, call);
    assert n in AsSet(Names(call));
    ExecuteDrops(cfg, c.(dev := d), ActionOf(call), StepsOf(cfg, d, call).value, call.verify, env, n);
  }

  lemma ExecuteDrops(cfg: Config, c: Control, action: Action, steps: seq<Step>, verify: bool, env: CallEnv,
      n: Component)
    requires Execute(cfg, c, action, steps, verify, env).outcome.Err? && n in Touched(steps)
    ensures n !in Execute(cfg, c, action, steps, verify, env).ctl.dev.refreshed
  {
  }
}
