/** What the integration's wrapper promises, for every failure pattern of both attempts. */
module RecoveryProperties {
  import opened Wrappers
  import opened Registers
  import opened Devices
  import Polling
  import opened Planner
  import opened Execution
  import opened Honesty
  import opened Traffic
  import opened Classifier
  import opened Recovery

  ghost predicate FreshOn(d: Device, names: set<Component>) { forall n :: n in names ==> Fresh(d, n) }

  lemma NamesAreGuarded(call: ControlCall)
    ensures AsSet(Names(call)) <= GUARDED
  {
  }

  /** The call compared what it read back: it returned verified, or failed its verification. */
  predicate Compared(outcome: Result<WriteReport, ControlError>) {
    if outcome.Ok? then outcome.value.verified else outcome.error.VerificationFailed?
  }

  /** A verified return and a failed verification both leave every named component freshly cached. */
  lemma ReadBackLeavesFresh(cfg: Config, c: Control, call: ControlCall, maxAge: Option<int>, env: CallEnv)
    requires !call.Operate?
    ensures var r := Perform(cfg, c, call, maxAge, env);
            Compared(r.outcome) ==> FreshOn(r.ctl.dev, AsSet(Names(call)))
  {
    GuardedCases(cfg, c, call, maxAge, env);
    var (d, ok) := Prepared(cfg, c.dev, call, maxAge, env);
    if ok && StepsOf(cfg, d, call).Ok? {
      PlanTouchesNames(cfg, d, call);
      ExecuteLeavesFresh(cfg, c.(dev := d), ActionOf(call), StepsOf(cfg, d, call).value, call.verify, env);
    }
  }

  lemma ExecuteLeavesFresh(cfg: Config, c: Control, action: Action, steps: seq<Step>, verify: bool, env: CallEnv)
    ensures var r := Execute(cfg, c, action, steps, verify, env);
            Compared(r.outcome) ==> FreshOn(r.ctl.dev, AsSet(Touched(steps)))
  {
    var p := DoSteps(cfg, Start(c, action, env.exchanges), steps);
    StepsNotVerified(cfg, Start(c, action, env.exchanges), steps);
    LoopVerifiesNothing(cfg, Start(c, action, env.exchanges), steps);
    if p.error.None? && verify && p.report.writes != [] {
      ReadBackEffect(cfg, p, steps, env, {});
    }
  }

  /** Publishing after an error: only reads, and only what was read afresh is shown. */
  lemma PublishEffect(d: Device, e: ControlError, env: seq<Polling.ReadEnv>, names: set<Component>)
    requires names <= GUARDED && FieldOf(e) <= names
    requires ReportOf(e).Some? ==> TouchedBy(ReportOf(e).value) <= names
    requires e.VerificationFailed? ==> FreshOn(d, names)
    ensures var r := PublishAfterError(d, e, env);
            Undisturbed(d, r.dev) && AllFresh(r.notices) && (r.ok ==> ReportOf(e).Some?)
  {
    if ReportOf(e).Some? && !e.VerificationFailed? {
      RereadEffect(d, TouchedBy(ReportOf(e).value) + FieldOf(e), env);
    }
  }

  lemma FinishEffect(c: Control, rep: WriteReport, publish: bool, env: seq<Polling.ReadEnv>, notices: seq<Notice>,
      names: set<Component>)
    requires publish ==> names <= GUARDED && TouchedBy(rep) <= names && (rep.verified ==> FreshOn(c.dev, names))
    requires AllFresh(notices)
    ensures var ran := Finish(c, rep, publish, env, notices);
            Undisturbed(c.dev, ran.ctl.dev) && AllFresh(ran.notices) && ran.result == Ok(rep)
  {
    if publish && rep.writes != [] {
      if rep.verified {
        AllFreshAppend(notices, [Notice(Polling.Snapshot(TouchedBy(rep)), c.dev)]);
      } else {
        var r := RereadNames(c.dev, TouchedBy(rep), env);
        RereadEffect(c.dev, TouchedBy(rep), env);
        AllFreshAppend(notices, r.notices);
      }
    }
  }

  /** The report of an error that leaves open what the inverter holds: no answer to a write, or to the read-back. */
  function Unsettled(e: ControlError): Option<WriteReport> {
    match e
    case SettingsUnavailable(Some(rep)) => Some(rep)
    case WriteUncertain(_, rep) => Some(rep)
    case _ => None
  }

  /** Where the second attempt starts: nothing it names is trusted unless it was re-read after the first one. */
  ghost predicate SecondStart(cfg: Config, c: Control, call: ControlCall, maxAge: Option<int>, env: RunEnv,
      c1: Control, rep: WriteReport) {
    var first := Perform(cfg, c, call, maxAge, env.first);
    && first.outcome.Err? && Unsettled(first.outcome.error) == Some(rep)
    && PublishAfterError(first.ctl.dev, first.outcome.error, env.reread).ok
    && c1 == first.ctl.(dev := PublishAfterError(first.ctl.dev, first.outcome.error, env.reread).dev)
  }

  /** The first attempt failed and was published; nothing was written meanwhile. */
  lemma FirstPublished(cfg: Config, c: Control, call: ControlCall, maxAge: Option<int>, env: RunEnv)
    requires !call.Operate? && Perform(cfg, c, call, maxAge, env.first).outcome.Err?
    ensures var first := Perform(cfg, c, call, maxAge, env.first);
            var r := PublishAfterError(first.ctl.dev, first.outcome.error, env.reread);
            Undisturbed(first.ctl.dev, r.dev) && AllFresh(r.notices) && (r.ok ==> ReportOf(first.outcome.error).Some?)
  {
    CallStaysIn(cfg, c, call, maxAge, env.first);
    ReadBackLeavesFresh(cfg, c, call, maxAge, env.first);
    NamesAreGuarded(call);
    var first := Perform(cfg, c, call, maxAge, env.first);
    PublishEffect(first.ctl.dev, first.outcome.error, env.reread, AsSet(Names(call)));
  }

  lemma SecondStartIsHonest(cfg: Config, c: Control, call: ControlCall, maxAge: Option<int>, env: RunEnv, c1: Control,
      rep: WriteReport)
    requires !call.Operate?
    ensures SecondStart(cfg, c, call, maxAge, env, c1, rep) ==> HonestOn(c1.dev, AsSet(Names(call)))
  {
    if !SecondStart(cfg, c, call, maxAge, env, c1, rep) { return; }
    var first := Perform(cfg, c, call, maxAge, env.first);
    FirstPublished(cfg, c, call, maxAge, env);
    forall n | n in AsSet(Names(call)) ensures n !in first.ctl.dev.refreshed {
      FailedCallDrops(cfg, c, call, maxAge, env.first, n);
    }
    UndisturbedKeepsHonest(first.ctl.dev, c1.dev, AsSet(Names(call)));
  }

  /** A second attempt that returned: the merged report is verified only over fresh caches. */
  lemma MergedIsFresh(cfg: Config, c1: Control, call: ControlCall, maxAge: Option<int>, rep: WriteReport, env: RunEnv)
    requires !call.Operate? && HonestOn(c1.dev, AsSet(Names(call))) && TouchedBy(rep) <= AsSet(Names(call))
    requires Perform(cfg, c1, call, maxAge, env.second).outcome.Ok?
    ensures var second := Perform(cfg, c1, call, maxAge, env.second);
            var merged := Merged(rep, second.outcome.value);
            && TouchedBy(merged) <= AsSet(Names(call))
            && (merged.verified ==> FreshOn(second.ctl.dev, AsSet(Names(call))))
  {
    var second := Perform(cfg, c1, call, maxAge, env.second);
    CallStaysIn(cfg, c1, call, maxAge, env.second);
    ReadBackLeavesFresh(cfg, c1, call, maxAge, env.second);
    if second.outcome.value.writes == [] { WriteFreeMeansMet(cfg, c1, call, maxAge, env.second); }
    MergedTouches(rep, second.outcome.value, AsSet(Names(call)));
  }

  lemma MergedTouches(first: WriteReport, second: WriteReport, names: set<Component>)
    requires TouchedBy(first) <= names && TouchedBy(second) <= names
    ensures TouchedBy(Merged(first, second)) <= names
  {
    forall w | w in Merged(first, second).writes ensures ComponentOf(w.reg) in names {
      if w in first.writes {
        assert ComponentOf(w.reg) in TouchedBy(first);
      } else {
        assert ComponentOf(w.reg) in TouchedBy(second);
      }
    }
    forall r | r in second.skipped ensures ComponentOf(r) in names { assert ComponentOf(r) in TouchedBy(second); }
  }

  lemma AgainPublishes(cfg: Config, c1: Control, call: ControlCall, maxAge: Option<int>, rep: WriteReport,
      env: RunEnv, notices: seq<Notice>)
    requires !call.Operate? && HonestOn(c1.dev, AsSet(Names(call))) && TouchedBy(rep) <= AsSet(Names(call))
    requires AllFresh(notices)
    ensures var ran := PlanAgain(cfg, c1, call, maxAge, rep, env, notices);
            var second := Perform(cfg, c1, call, maxAge, env.second);
            && AllFresh(ran.notices) && Undisturbed(second.ctl.dev, ran.ctl.dev)
            && ran.result == (if second.outcome.Ok? then Ok(Merged(rep, second.outcome.value))
               else Err(second.outcome.error))
  {
    var second := Perform(cfg, c1, call, maxAge, env.second);
    NamesAreGuarded(call);
    if second.outcome.Ok? {
      MergedIsFresh(cfg, c1, call, maxAge, rep, env);
      FinishEffect(second.ctl, Merged(rep, second.outcome.value), true, env.publish, notices, AsSet(Names(call)));
    } else {
      CallStaysIn(cfg, c1, call, maxAge, env.second);
      ReadBackLeavesFresh(cfg, c1, call, maxAge, env.second);
      PublishEffect(second.ctl.dev, second.outcome.error, env.again, AsSet(Names(call)));
      AllFreshAppend(notices, PublishAfterError(second.ctl.dev, second.outcome.error, env.again).notices);
    }
  }

  /** How a guarded run ends. */
  datatype Ending = Once | GaveUp | Twice(c1: Control, rep: WriteReport)

  function EndingOf(cfg: Config, c: Control, call: ControlCall, maxAge: Option<int>, env: RunEnv): Ending {
    var first := Perform(cfg, c, call, maxAge, env.first);
    if first.outcome.Ok? then Once
    else
      var r := PublishAfterError(first.ctl.dev, first.outcome.error, env.reread);
      if Unsettled(first.outcome.error).Some? && r.ok
      then Twice(first.ctl.(dev := r.dev), Unsettled(first.outcome.error).value)
      else GaveUp
  }

  /** The three shapes of a run: one attempt that returned, one that failed, or two attempts. */
  lemma RunCases(cfg: Config, c: Control, call: ControlCall, maxAge: Option<int>, env: RunEnv)
    requires !call.Operate?
    ensures var ran := AsyncRun(cfg, c, call, true, maxAge, env);
            var first := Perform(cfg, c, call, maxAge, env.first);
            match EndingOf(cfg, c, call, maxAge, env)
            case Once => ran == Finish(first.ctl, first.outcome.value, true, env.publish, [])
            case GaveUp =>
              var r := PublishAfterError(first.ctl.dev, first.outcome.error, env.reread);
              ran == Ran(first.ctl.(dev := r.dev), Err(first.outcome.error), r.notices)
            case Twice(c1, rep) =>
              && SecondStart(cfg, c, call, maxAge, env, c1, rep)
              && ran == PlanAgain(cfg, c1, call, maxAge, rep, env,
                 PublishAfterError(first.ctl.dev, first.outcome.error, env.reread).notices)
  {
    var first := Perform(cfg, c, call, maxAge, env.first);
    if first.outcome.Err? { RecoverCases(cfg, first.ctl, first.outcome.error, call, maxAge, env); }
  }

  /** After an error that leaves things open and a re-read that succeeded the call is planned again, and only then. */
  lemma RecoverCases(cfg: Config, c: Control, e: ControlError, call: ControlCall, maxAge: Option<int>, env: RunEnv)
    ensures var r := PublishAfterError(c.dev, e, env.reread);
            Recover(cfg, c, e, call, maxAge, env)
            == if Unsettled(e).Some? && r.ok
               then PlanAgain(cfg, c.(dev := r.dev), call, maxAge, Unsettled(e).value, env, r.notices)
               else Ran(c.(dev := r.dev), Err(e), r.notices)
  {
  }

  /** What holds at the end of a run, whichever shape it had. */
  lemma RunEffect(cfg: Config, c: Control, call: ControlCall, maxAge: Option<int>, env: RunEnv)
    requires !call.Operate?
    ensures var ran := AsyncRun(cfg, c, call, true, maxAge, env);
            var first := Perform(cfg, c, call, maxAge, env.first);
            && AllFresh(ran.notices)
            && match EndingOf(cfg, c, call, maxAge, env)
               case Once => ran.result == Ok(first.outcome.value) && Undisturbed(first.ctl.dev, ran.ctl.dev)
               case GaveUp => ran.result == Err(first.outcome.error) && Undisturbed(first.ctl.dev, ran.ctl.dev)
               case Twice(c1, rep) =>
                 var second := Perform(cfg, c1, call, maxAge, env.second);
                 && SecondStart(cfg, c, call, maxAge, env, c1, rep)
                 && Undisturbed(first.ctl.dev, c1.dev) && Undisturbed(second.ctl.dev, ran.ctl.dev)
                 && HonestOn(c1.dev, AsSet(Names(call)))
                 && ran.result == (if second.outcome.Ok? then Ok(Merged(rep, second.outcome.value))
                    else Err(second.outcome.error))
  {
    var first := Perform(cfg, c, call, maxAge, env.first);
    RunCases(cfg, c, call, maxAge, env);
    CallStaysIn(cfg, c, call, maxAge, env.first);
    NamesAreGuarded(call);
    match EndingOf(cfg, c, call, maxAge, env) {
      case Once =>
        ReadBackLeavesFresh(cfg, c, call, maxAge, env.first);
        FinishEffect(first.ctl, first.outcome.value, true, env.publish, [], AsSet(Names(call)));
      case GaveUp =>
        FirstPublished(cfg, c, call, maxAge, env);
      case Twice(c1, rep) =>
        FirstPublished(cfg, c, call, maxAge, env);
        SecondStartIsHonest(cfg, c, call, maxAge, env, c1, rep);
        AgainPublishes(cfg, c1, call, maxAge, rep, env,
            PublishAfterError(first.ctl.dev, first.outcome.error, env.reread).notices);
    }
  }

  /**
   Whatever fails, in either attempt, every snapshot pushed to the coordinator shows cached
   fields that equal the decoded registers at that moment.
   */
  lemma PublishesOnlyWhatIsHeld(cfg: Config, c: Control, call: ControlCall, maxAge: Option<int>, env: RunEnv)
    requires !call.Operate?
    ensures AllFresh(AsyncRun(cfg, c, call, true, maxAge, env).notices)
  {
    RunEffect(cfg, c, call, maxAge, env);
  }

  /** What the plan that settled the run was made against. */
  function LastPrepared(cfg: Config, c: Control, call: ControlCall, maxAge: Option<int>, env: RunEnv): Device {
    match EndingOf(cfg, c, call, maxAge, env)
    case Twice(c1, _) => Prepared(cfg, c1.dev, call, maxAge, env.second).0
    case _ => Prepared(cfg, c.dev, call, maxAge, env.first).0
  }

  lemma AttemptMeets(cfg: Config, c: Control, call: ControlCall, maxAge: Option<int>, env: CallEnv)
    requires !call.Operate? && Perform(cfg, c, call, maxAge, env).outcome.Ok?
    requires var rep := Perform(cfg, c, call, maxAge, env).outcome.value;
             rep.verified || (rep.writes == [] && HonestOn(c.dev, AsSet(Names(call))))
    ensures var d := Prepared(cfg, c.dev, call, maxAge, env).0;
            StepsOf(cfg, d, call).Ok?
                && Meets(StepsOf(cfg, d, call).value, Perform(cfg, c, call, maxAge, env).ctl.dev.wire)
  {
    if Perform(cfg, c, call, maxAge, env).outcome.value.verified {
      VerifiedMeansMet(cfg, c, call, maxAge, env);
    } else {
      WriteFreeMeansMet(cfg, c, call, maxAge, env);
    }
  }

  /**
   A wrapped call reports `verified`, in one attempt or after recovery, only if the registers
   meet the targets of its last plan. Nothing is assumed of the cache it started with, nor
   that acknowledged writes land: what was not re-read was forgotten and is read before the
   second plan.
   */
  lemma RunVerifiedMeansMet(cfg: Config, c: Control, call: ControlCall, maxAge: Option<int>, env: RunEnv)
    requires !call.Operate?
    ensures var ran := AsyncRun(cfg, c, call, true, maxAge, env);
            var d := LastPrepared(cfg, c, call, maxAge, env);
            ran.result.Ok? && ran.result.value.verified ==>
              StepsOf(cfg, d, call).Ok? && Meets(StepsOf(cfg, d, call).value, ran.ctl.dev.wire)
  {
    RunEffect(cfg, c, call, maxAge, env);
    var ran := AsyncRun(cfg, c, call, true, maxAge, env);
    if ran.result.Ok? && ran.result.value.verified {
      match EndingOf(cfg, c, call, maxAge, env) {
        case Once => AttemptMeets(cfg, c, call, maxAge, env.first);
        case GaveUp =>
        case Twice(c1, rep) => AttemptMeets(cfg, c1, call, maxAge, env.second);
      }
    }
  }

  /**
   The same when the lock is taken in between: whatever polls and verified calls of others run
   before the second attempt, it reports `verified` only over registers that meet its plan.
   */
  lemma RecoveryAmongOthersMeansMet(cfg: Config, c: Control, call: ControlCall, maxAge: Option<int>, env: RunEnv,
                                    c1: Control, rep: WriteReport, others: seq<Activity>, notices: seq<Notice>)
    requires !call.Operate? && VerifiedRun(others) && AllFresh(notices)
    ensures var c2 := Run(cfg, c1, others);
            var ran := PlanAgain(cfg, c2, call, maxAge, rep, env, notices);
            var d := Prepared(cfg, c2.dev, call, maxAge, env.second).0;
            SecondStart(cfg, c, call, maxAge, env, c1, rep) ==>
              && AllFresh(ran.notices)
              && (ran.result.Ok? && ran.result.value.verified ==>
                    StepsOf(cfg, d, call).Ok? && Meets(StepsOf(cfg, d, call).value, ran.ctl.dev.wire))
  {
    if !SecondStart(cfg, c, call, maxAge, env, c1, rep) { return; }
    var c2 := Run(cfg, c1, others);
    SecondStartIsHonest(cfg, c, call, maxAge, env, c1, rep);
    RunKeepsHonest(cfg, c1, others, AsSet(Names(call)));
    CallStaysIn(cfg, c, call, maxAge, env.first);
    AgainPublishes(cfg, c2, call, maxAge, rep, env, notices);
    var ran := PlanAgain(cfg, c2, call, maxAge, rep, env, notices);
    if ran.result.Ok? && ran.result.value.verified { AttemptMeets(cfg, c2, call, maxAge, env.second); }
  }

  /**
   The writes a wrapped call returns are exactly the acknowledged writes of all its attempts,
   in order, and it sends requests for its own registers only.
   */
  lemma RunReportsItsTraffic(cfg: Config, c: Control, call: ControlCall, maxAge: Option<int>, env: RunEnv)
    requires !call.Operate?
    ensures var ran := AsyncRun(cfg, c, call, true, maxAge, env);
            && Continues(c.dev.sent, ran.ctl.dev.sent, MayWrite(call))
            && (ran.result.Ok? ==> AckedOf(ran.ctl.dev.sent) == AckedOf(c.dev.sent) + Written(ran.result.value.writes))
  {
    var first := Perform(cfg, c, call, maxAge, env.first);
    RunEffect(cfg, c, call, maxAge, env);
    CallReportsItsTraffic(cfg, c, call, maxAge, env.first);
    match EndingOf(cfg, c, call, maxAge, env) {
      case Once =>
      case GaveUp =>
      case Twice(c1, rep) =>
        UnsettledIsClaimed(first);
        BothAttemptsTraffic(cfg, c.dev.sent, c1, call, maxAge, rep, env.second);
    }
  }

  lemma UnsettledIsClaimed(r: Performed)
    requires r.outcome.Err? && Unsettled(r.outcome.error).Some?
    ensures Claimed(r) == Written(Unsettled(r.outcome.error).value.writes)
  {
  }

  /** Two attempts in a row: the second one's traffic follows the first one's. */
  lemma BothAttemptsTraffic(cfg: Config, before: seq<Request>, c1: Control, call: ControlCall, maxAge: Option<int>,
      rep: WriteReport, env: CallEnv)
    requires Continues(before, c1.dev.sent, MayWrite(call))
    requires AckedOf(c1.dev.sent) == AckedOf(before) + Written(rep.writes)
    ensures var second := Perform(cfg, c1, call, maxAge, env);
            && Continues(before, second.ctl.dev.sent, MayWrite(call))
            && (second.outcome.Ok? ==>
                  AckedOf(second.ctl.dev.sent) == AckedOf(before) + Written(Merged(rep, second.outcome.value).writes))
  {
    CallReportsItsTraffic(cfg, c1, call, maxAge, env);
    JoinTraffic(before, c1.dev.sent, Perform(cfg, c1, call, maxAge, env), MayWrite(call), rep);
  }

  lemma JoinTraffic(before: seq<Request>, middle: seq<Request>, second: Performed, regs: set<Register>,
      rep: WriteReport)
    requires Continues(before, middle, regs) && Continues(middle, second.ctl.dev.sent, regs)
    requires AckedOf(middle) == AckedOf(before) + Written(rep.writes)
    requires AckedOf(second.ctl.dev.sent) == AckedOf(middle) + Claimed(second)
    ensures Continues(before, second.ctl.dev.sent, regs)
    ensures second.outcome.Ok? ==>
            AckedOf(second.ctl.dev.sent) == AckedOf(before) + Written(Merged(rep, second.outcome.value).writes)
  {
    ContinuesTrans(before, middle, second.ctl.dev.sent, regs, regs);
    ContinuesWider(before, second.ctl.dev.sent, regs + regs, regs);
    if second.outcome.Ok? {
      JoinWrites(AckedOf(before), rep.writes, second.outcome.value.writes);
      assert Claimed(second) == Written(second.outcome.value.writes);
    }
  }

  lemma JoinWrites(base: seq<(Register, Value)>, a: seq<WriteRecord>, b: seq<WriteRecord>)
    ensures (base + Written(a)) + Written(b) == base + Written(a + b)
  {
    WrittenAppend(a, b);
  }

  /** The assertion that the first error carries a report is never tripped. */
  lemma NeverTripsAssertion(cfg: Config, c: Control, call: ControlCall, maxAge: Option<int>, env: RunEnv)
    requires !call.Operate?
    ensures AsyncRun(cfg, c, call, true, maxAge, env).result != Err(AssertionTripped)
  {
    RunEffect(cfg, c, call, maxAge, env);
    CallStaysIn(cfg, c, call, maxAge, env.first);
    match EndingOf(cfg, c, call, maxAge, env) {
      case Twice(c1, rep) => CallStaysIn(cfg, c1, call, maxAge, env.second);
      case _ =>
    }
  }

  // -- stopping the inverter -----------------------------------------------------------------

  /** Restore self-consumption first; if that failed, the stop is not attempted. */
  function StopInverter(cfg: Config, c: Control, maxAge: Option<int>, restore: RunEnv, stop: RunEnv): Ran {
    var restored := AsyncRun(cfg, c, RESTORE, true, maxAge, restore);
    if restored.result.Err? then restored
    else
      var stopped := AsyncRun(cfg, restored.ctl, Operate(Shutdown), false, maxAge, stop);
      if stopped.result.Err? then Ran(stopped.ctl, stopped.result, restored.notices)
      else
        var a, b := restored.result.value, stopped.result.value;
        Ran(stopped.ctl, Ok(WriteReport(StartStopAction(Shutdown), a.writes + b.writes, a.skipped + b.skipped,
                                        a.uncertain + b.uncertain, a.verified, a.at)), restored.notices)
  }

  const SELF := DesiredState(SelfConsumptionMode, None)

  const RESTORE := ApplyMode(SELF, true)

  /** Self-consumption is selected and both limits hold the restore value. */
  predicate Restored(cfg: Config, w: Wire) {
    && w[EmsModeReg] == EmsCode(SelfConsumption)
    && cfg.full == Some(10 * (w[MaxCharge] as int)) && cfg.full == Some(10 * (w[MaxDischarge] as int))
  }

  lemma MetRestoreHasLimit(cfg: Config, d: Device, w: Wire, r: Register)
    requires Plan(cfg, d, SELF).Ok? && Meets(Plan(cfg, d, SELF).value, w) && IsLimit(r)
    ensures cfg.full == Some(10 * (w[r] as int))
  {
    PlanNeedsLimits(cfg, d, SELF);
    var i := FindLimit(cfg, d, SELF, r);
    LastIsFinal(Plan(cfg, d, SELF).value, i, Restore(r, Limits(cfg).value));
    RestoredWord(r, Limits(cfg).value, w[r]);
  }

  lemma MetRestoreIsRestored(cfg: Config, d: Device, w: Wire)
    requires StepsOf(cfg, d, RESTORE).Ok? && Meets(StepsOf(cfg, d, RESTORE).value, w)
    ensures Restored(cfg, w)
  {
    var i := FindEms(cfg, d, SELF);
    LastIsFinal(Plan(cfg, d, SELF).value, i, TO_SELF);
    MetRestoreHasLimit(cfg, d, w, MaxCharge);
    MetRestoreHasLimit(cfg, d, w, MaxDischarge);
  }

  lemma RestoredWord(r: Register, full: int, w: Word)
    requires IsLimit(r) && full % 10 == 0 && Satisfied(Restore(r, full), Decode(r, w))
    ensures full == 10 * (w as int)
  {
    SatisfiedIsAccepted(Restore(r, full), Decode(r, w));
  }

  /** A restore that returned, however it got there, left the registers restored. */
  lemma RestoreReturnsRestored(cfg: Config, c: Control, maxAge: Option<int>, env: RunEnv)
    requires Honest(c.dev)
    ensures var ran := AsyncRun(cfg, c, RESTORE, true, maxAge, env); ran.result.Ok? ==> Restored(cfg, ran.ctl.dev.wire)
  {
    var ran := AsyncRun(cfg, c, RESTORE, true, maxAge, env);
    RunEffect(cfg, c, RESTORE, maxAge, env);
    if ran.result.Ok? {
      if ran.result.value.verified {
        RunVerifiedMeansMet(cfg, c, RESTORE, maxAge, env);
        MetRestoreIsRestored(cfg, LastPrepared(cfg, c, RESTORE, maxAge, env), ran.ctl.dev.wire);
      } else {
        UnverifiedRestore(cfg, c, maxAge, env);
      }
    }
  }

  /** A verifying call that returned unverified wrote nothing, in its only attempt. */
  lemma UnverifiedRestore(cfg: Config, c: Control, maxAge: Option<int>, env: RunEnv)
    requires Honest(c.dev)
    ensures var ran := AsyncRun(cfg, c, RESTORE, true, maxAge, env);
            ran.result.Ok? && !ran.result.value.verified ==> Restored(cfg, ran.ctl.dev.wire)
  {
    RunEffect(cfg, c, RESTORE, maxAge, env);
    match EndingOf(cfg, c, RESTORE, maxAge, env) {
      case Once => RestoreAttempt(cfg, c, maxAge, env.first);
      case GaveUp =>
      case Twice(c1, rep) => RestoreAttempt(cfg, c1, maxAge, env.second);
    }
  }

  lemma RestoreAttempt(cfg: Config, c: Control, maxAge: Option<int>, env: CallEnv)
    requires HonestOn(c.dev, AsSet(Names(RESTORE)))
    ensures var r := Perform(cfg, c, RESTORE, maxAge, env);
            r.outcome.Ok? && !r.outcome.value.verified ==> Restored(cfg, r.ctl.dev.wire) && r.outcome.value.writes == []
  {
    var r := Perform(cfg, c, RESTORE, maxAge, env);
    if r.outcome.Ok? && !r.outcome.value.verified {
      ReturnsFromExecute(cfg, c, RESTORE, maxAge, env);
      var d := Prepared(cfg, c.dev, RESTORE, maxAge, env).0;
      ExecuteOutcome(cfg, c.(dev := d), ActionOf(RESTORE), StepsOf(cfg, d, RESTORE).value, true, env);
      WriteFreeMeansMet(cfg, c, RESTORE, maxAge, env);
      MetRestoreIsRestored(cfg, d, r.ctl.dev.wire);
    }
  }

  lemma CommandRun(cfg: Config, c: Control, maxAge: Option<int>, env: RunEnv)
    ensures var ran := AsyncRun(cfg, c, Operate(Shutdown), false, maxAge, env);
            exists acked :: ran.ctl.dev.sent
                == c.dev.sent + [Request(StartStopReg, Operation(Shutdown), c.dev.wire, acked)]
  {
    CommandTraffic(cfg, c, Shutdown, env.first);
    var first := Perform(cfg, c, Operate(Shutdown), maxAge, env.first);
    assert AsyncRun(cfg, c, Operate(Shutdown), false, maxAge, env).ctl == first.ctl;
  }

  /** The restore sends no start/stop request, and the stop follows only a restore that returned. */
  lemma StopTraffic(cfg: Config, c: Control, maxAge: Option<int>, restore: RunEnv, stop: RunEnv)
    requires Honest(c.dev)
    ensures var restored := AsyncRun(cfg, c, RESTORE, true, maxAge, restore);
            var sent := StopInverter(cfg, c, maxAge, restore, stop).ctl.dev.sent;
            && Continues(c.dev.sent, restored.ctl.dev.sent, MayWrite(RESTORE))
            && (restored.result.Err? ==> sent == restored.ctl.dev.sent)
            && (restored.result.Ok? ==> Restored(cfg, restored.ctl.dev.wire))
            && (restored.result.Ok? ==> exists acked ::
                 sent == restored.ctl.dev.sent
                         + [Request(StartStopReg, Operation(Shutdown), restored.ctl.dev.wire, acked)])
  {
    var restored := AsyncRun(cfg, c, RESTORE, true, maxAge, restore);
    RunReportsItsTraffic(cfg, c, RESTORE, maxAge, restore);
    if restored.result.Ok? {
      RestoreReturnsRestored(cfg, c, maxAge, restore);
      CommandRun(cfg, restored.ctl, maxAge, stop);
    }
  }

  /**
   Under every failure pattern of the restore and of the stop: the STOP command is sent, at
   most once, and only while the inverter is in self-consumption with both limits restored.
   */
  lemma StopOnlyWhenRestored(cfg: Config, c: Control, maxAge: Option<int>, restore: RunEnv, stop: RunEnv, k: nat)
    requires Honest(c.dev)
    ensures var sent := StopInverter(cfg, c, maxAge, restore, stop).ctl.dev.sent;
            |c.dev.sent| <= k < |sent| && sent[k].reg == StartStopReg ==>
                Restored(cfg, sent[k].before) && k == |sent| - 1
  {
    var sent := StopInverter(cfg, c, maxAge, restore, stop).ctl.dev.sent;
    StopTraffic(cfg, c, maxAge, restore, stop);
    if |c.dev.sent| <= k < |sent| && sent[k].reg == StartStopReg {
      OnlyTheLastStops(c.dev.sent, AsyncRun(cfg, c, RESTORE, true, maxAge, restore).ctl.dev.sent, sent, k);
    }
  }

  lemma OnlyTheLastStops(before: seq<Request>, restored: seq<Request>, sent: seq<Request>, k: nat)
    requires Continues(before, restored, MayWrite(RESTORE)) && restored <= sent && |sent| <= |restored| + 1
    requires |before| <= k < |sent| && sent[k].reg == StartStopReg
    ensures k == |restored| == |sent| - 1
  {
  }
}
