/**
 When a wrapped call plans again and what it then answers, attempt by attempt, over the errors
 and the answers of the link; and when stopping the inverter succeeds.
 */
module RecoveryOutcomes {
  import opened Wrappers
  import opened Registers
  import opened Devices
  import opened Polling
  import PollProperties
  import opened Planner
  import opened Execution
  import opened Honesty
  import opened Traffic
  import opened Reports
  import opened Recovery
  import opened RecoveryProperties
  import opened Acceptance
  import StepFacts
  import Guarantees

  // -- the re-read between two attempts ------------------------------------------------------

  /** The first `n` reads are answered. */
  predicate ReadsAnswered(env: seq<ReadEnv>, n: nat) { forall i :: 0 <= i < n ==> PollProperties.AnswerAt(env, i).Ok? }

  /** What an error names, in the order it is read again. */
  function Suspects(e: ControlError, rep: WriteReport): seq<Component> { Sorted(TouchedBy(rep) + FieldOf(e)) }

  lemma SortedNames(names: set<Component>)
    requires names <= GUARDED
    ensures PollProperties.DistinctNames(Sorted(names)) && forall n :: n in Sorted(names) <==> n in names
    ensures names == GUARDED ==> Sorted(names) == [BatteryLimits, Settings]
  {
  }

  /** An answered poll of distinct names lists none of them as failed. */
  lemma AnsweredNamesRead(d: Device, names: seq<Component>, env: seq<ReadEnv>)
    requires PollProperties.DistinctNames(names)
    ensures var q := Refresh(d, names, env);
            ReadsAnswered(env, |names|) <==> q.raised.None? && forall n :: n in names ==> n !in q.report.failed
  {
    var p := Polled(d, EmptyReport(d.clock), None, env);
    PollProperties.RaisesExactly(p, names, false);
    if Refresh(d, names, env).raised.None? {
      forall i | 0 <= i < |names|
        ensures PollProperties.AnswerAt(env, i).Ok? <==> names[i] !in Refresh(d, names, env).report.failed
      {
        PollProperties.FailedIsUnanswered(p, names, false, i);
      }
    }
  }

  /** The wrapper's re-read succeeds exactly when each of its reads is answered. */
  lemma RereadSucceedsIff(d: Device, names: set<Component>, env: seq<ReadEnv>)
    requires names <= GUARDED
    ensures var r := RereadNames(d, names, env);
            && (r.ok <==> ReadsAnswered(env, |Sorted(names)|))
            && r.dev == Refresh(d, Sorted(names), env).dev
  {
    SortedNames(names);
    AnsweredNamesRead(d, Sorted(names), env);
    var failed := Refresh(d, Sorted(names), env).report.failed;
    if forall n :: n in Sorted(names) ==> n !in failed {
      assert names * failed.Keys == {} by {
        forall n | n in names ensures n !in failed { assert n in Sorted(names); }
      }
    } else {
      var n :| n in Sorted(names) && n in failed;
      assert n in names * failed.Keys;
    }
  }

  // -- the answer of a wrapped call -------------------------------------------------------------

  /** The first attempt left things open, and everything its error names was read again. */
  predicate PlansAgain(cfg: Config, c: Control, call: ControlCall, maxAge: Option<int>, env: RunEnv) {
    var first := Perform(cfg, c, call, maxAge, env.first);
    && first.outcome.Err? && Unsettled(first.outcome.error).Some?
    && ReadsAnswered(env.reread, |Suspects(first.outcome.error, Unsettled(first.outcome.error).value)|)
  }

  /** The second attempt, on what was read again. */
  function Second(cfg: Config, c: Control, call: ControlCall, maxAge: Option<int>, env: RunEnv): Performed
    requires PlansAgain(cfg, c, call, maxAge, env)
  {
    var first := Perform(cfg, c, call, maxAge, env.first);
    var names := Suspects(first.outcome.error, Unsettled(first.outcome.error).value);
    Perform(cfg, first.ctl.(dev := Refresh(first.ctl.dev, names, env.reread).dev), call, maxAge, env.second)
  }

  lemma SuspectsAreGuarded(cfg: Config, c: Control, call: ControlCall, maxAge: Option<int>, env: CallEnv)
    requires !call.Operate? && Perform(cfg, c, call, maxAge, env).outcome.Err?
    ensures var e := Perform(cfg, c, call, maxAge, env).outcome.error;
            ReportOf(e).Some? ==> TouchedBy(ReportOf(e).value) + FieldOf(e) <= GUARDED
  {
    CallStaysIn(cfg, c, call, maxAge, env);
    NamesAreGuarded(call);
  }

  /** What follows an error, by the error and the answers of the re-read. */
  lemma ReconsidersIff(d: Device, e: ControlError, env: seq<ReadEnv>)
    requires ReportOf(e).Some? ==> TouchedBy(ReportOf(e).value) + FieldOf(e) <= GUARDED
    ensures var r := PublishAfterError(d, e, env);
            && (Unsettled(e).Some? && r.ok <==>
                Unsettled(e).Some? && ReadsAnswered(env, |Suspects(e, Unsettled(e).value)|))
            && (Unsettled(e).Some? ==>
                  r.dev == Refresh(d, Suspects(e, Unsettled(e).value), env).dev && ReportOf(e) == Unsettled(e))
  {
    if Unsettled(e).Some? { RereadSucceedsIff(d, TouchedBy(Unsettled(e).value) + FieldOf(e), env); }
  }

  /** The run has a second attempt exactly when the first one left things open and they were read again. */
  lemma EndsTwiceIff(cfg: Config, c: Control, call: ControlCall, maxAge: Option<int>, env: RunEnv)
    requires !call.Operate?
    ensures var first, ending := Perform(cfg, c, call, maxAge, env.first), EndingOf(cfg, c, call, maxAge, env);
            && (ending.Twice? <==> PlansAgain(cfg, c, call, maxAge, env))
            && (ending.Twice? ==>
                  var names := Suspects(first.outcome.error, Unsettled(first.outcome.error).value);
                  && ending.c1 == first.ctl.(dev := Refresh(first.ctl.dev, names, env.reread).dev)
                  && Unsettled(first.outcome.error) == Some(ending.rep))
  {
    var first := Perform(cfg, c, call, maxAge, env.first);
    if first.outcome.Err? {
      SuspectsAreGuarded(cfg, c, call, maxAge, env.first);
      ReconsidersIff(first.ctl.dev, first.outcome.error, env.reread);
    }
  }

  /**
   A wrapped call whose first attempt left things open, and whose re-read was answered, answers
   as its second attempt does: with that one's error, or with a report of both attempts' writes
   that is verified unless the second one wrote something and was not.
   */
  lemma UnsettledIsPlannedAgain(cfg: Config, c: Control, call: ControlCall, maxAge: Option<int>, env: RunEnv)
    requires !call.Operate? && PlansAgain(cfg, c, call, maxAge, env)
    ensures var ran, second := AsyncRun(cfg, c, call, true, maxAge, env), Second(cfg, c, call, maxAge, env);
            var first := Unsettled(Perform(cfg, c, call, maxAge, env.first).outcome.error).value;
            && ran.ctl.dev.sent == second.ctl.dev.sent && ran.ctl.dev.wire == second.ctl.dev.wire
            && match second.outcome
               case Err(e) => ran.result == Err(e)
               case Ok(rep) =>
                 && ran.result.Ok?
                 && ran.result.value.writes == first.writes + rep.writes
                 && (ran.result.value.verified <==> rep.verified || rep.writes == [])
                 && ran.result.value.skipped == rep.skipped && ran.result.value.uncertain == []
                 && ran.result.value.action == rep.action && ran.result.value.at == first.at
  {
    EndsTwiceIff(cfg, c, call, maxAge, env);
    RunEffect(cfg, c, call, maxAge, env);
  }

  /**
   Every other wrapped call answers as its only attempt does, and sends nothing after it: it
   returned, its error is not one that leaves things open, or what the error names was not read.
   */
  lemma SettledIsFinal(cfg: Config, c: Control, call: ControlCall, maxAge: Option<int>, env: RunEnv)
    requires !call.Operate? && !PlansAgain(cfg, c, call, maxAge, env)
    ensures var ran, first := AsyncRun(cfg, c, call, true, maxAge, env), Perform(cfg, c, call, maxAge, env.first);
            ran.result == first.outcome && ran.ctl.dev.sent == first.ctl.dev.sent
                                        && ran.ctl.dev.wire == first.ctl.dev.wire
  {
    EndsTwiceIff(cfg, c, call, maxAge, env);
    RunEffect(cfg, c, call, maxAge, env);
  }

  /** A call that publishes nothing answers as its attempt does, and changes nothing after it. */
  lemma UnpublishedIsFinal(cfg: Config, c: Control, call: ControlCall, maxAge: Option<int>, env: RunEnv)
    ensures var ran, first := AsyncRun(cfg, c, call, false, maxAge, env), Perform(cfg, c, call, maxAge, env.first);
            ran.result == first.outcome && ran.ctl == first.ctl && ran.notices == []
  {
  }

  /** A refused request is refused through the wrapper too, with nothing sent. */
  lemma RefusedRunSendsNothing(cfg: Config, c: Control, call: ControlCall, maxAge: Option<int>, env: RunEnv)
    requires !call.Operate? && !Admitted(cfg, call) && AllReadsAnswered(env.first.refresh)
    ensures var ran := AsyncRun(cfg, c, call, true, maxAge, env);
            ran.result == Err(RefusalOf(cfg, call)) && ran.ctl.dev.sent == c.dev.sent
  {
    RefusedIffNotAdmitted(cfg, c, call, maxAge, env.first);
    SettledIsFinal(cfg, c, call, maxAge, env);
  }

  /** Where the second attempt starts is honest, whatever the cache was before the first one. */
  lemma SecondIsHonest(cfg: Config, c: Control, call: ControlCall, maxAge: Option<int>, env: RunEnv)
    requires !call.Operate? && PlansAgain(cfg, c, call, maxAge, env)
    ensures var first := Perform(cfg, c, call, maxAge, env.first);
            var names := Suspects(first.outcome.error, Unsettled(first.outcome.error).value);
            var d := Refresh(first.ctl.dev, names, env.reread).dev;
            HonestOn(d, AsSet(Names(call))) && d.wire == first.ctl.dev.wire
  {
    EndsTwiceIff(cfg, c, call, maxAge, env);
    RunEffect(cfg, c, call, maxAge, env);
  }

  /**
   So an `apply` that lost an answer recovers: from any cache, if its re-read and its second
   attempt are answered, it returns exactly when the mode is attainable over the registers the
   first attempt left, and then the mode is in effect.
   */
  lemma LostAnswerIsRecovered(cfg: Config, c: Control, want: DesiredState, maxAge: Option<int>, env: RunEnv)
    requires PlansAgain(cfg, c, ApplyMode(want, true), maxAge, env) && Guarantees.Answering(env.second)
    ensures var ran := AsyncRun(cfg, c, ApplyMode(want, true), true, maxAge, env);
            var left := Perform(cfg, c, ApplyMode(want, true), maxAge, env.first).ctl.dev.wire;
            && (ran.result.Ok? <==> Guarantees.Attainable(cfg, want, left))
            && (ran.result.Ok? ==> ran.result.value.verified && Guarantees.InEffect(cfg, want, ran.ctl.dev.wire))
  {
    var call := ApplyMode(want, true);
    var first := Perform(cfg, c, call, maxAge, env.first);
    var names := Suspects(first.outcome.error, Unsettled(first.outcome.error).value);
    var c1 := first.ctl.(dev := Refresh(first.ctl.dev, names, env.reread).dev);
    SecondIsHonest(cfg, c, call, maxAge, env);
    assert AsSet(Names(call)) == GUARDED;
    UnsettledIsPlannedAgain(cfg, c, call, maxAge, env);
    Guarantees.AnsweredApply(cfg, c1, want, maxAge, env.second);
    Guarantees.ReturnedApplyIsInEffect(cfg, c1, [], want, maxAge, env.second);
    NormalReturnMeetsTargets(cfg, c1, [], call, maxAge, env.second);
  }

  // -- stopping the inverter ------------------------------------------------------------------------

  /** What the stop command's record shows as previous: the polled running state, if there was one. */
  function StateShown(d: Device): Value {
    match d.state case Some(state) => Running(state) case None => Missing
  }

  /** How the stop command ends, by the answer to its one request. */
  lemma CommandAnswers(cfg: Config, c: Control, command: StartStop, env: CallEnv)
    ensures var outcome, d := SendCommand(cfg, c, command, env).outcome, Disturb(c.dev, env.waiting);
            match FirstExchange(env.exchanges).reply
            case Acked =>
              && outcome.Ok? && outcome.value.writes == [WriteRecord(StartStopReg, StateShown(d), Operation(command))]
              && outcome.value.skipped == [] && outcome.value.uncertain == []
            case Failed(ExceptionCode(_)) => outcome.Err? && outcome.error.WriteRejected?
                                             && outcome.error.field == StartStopReg
            case Failed(_) => outcome.Err? && outcome.error.WriteUncertain? && outcome.error.field == StartStopReg
                              && outcome.error.written.uncertain == [StartStopReg]
  {
  }

  /** A command that landed is its code in the register, and nothing else moved. */
  lemma CommandLands(cfg: Config, c: Control, command: StartStop, env: CallEnv)
    ensures var wire := SendCommand(cfg, c, command, env).ctl.dev.wire;
            wire == if FirstExchange(env.exchanges).landed
                    then c.dev.wire[StartStopReg := if command == Boot then 0xCF else 0xCE] else c.dev.wire
  {
    DisturbUndisturbed(c.dev, env.waiting);
    var p := Start(c.(dev := Disturb(c.dev, env.waiting)), StartStopAction(command), env.exchanges);
    var s, x := Step(StartStopReg, Operation(command), Exactly), FirstExchange(env.exchanges);
    WriteStepDevice(cfg, p, s, StartStopCode(command));
    StepFacts.TransmitAt(cfg.mirrors, p.ctl.dev, StartStopReg, s.target, StartStopCode(command), x, StartStopReg);
  }

  /** What restoring self-consumption answers, through the wrapper. */
  function RestoreAnswer(cfg: Config, c: Control, maxAge: Option<int>, env: RunEnv): Result<WriteReport, ControlError> {
    if PlansAgain(cfg, c, RESTORE, maxAge, env) then
      match Second(cfg, c, RESTORE, maxAge, env).outcome
      case Err(e) => Err(e)
      case Ok(rep) =>
        var first := Unsettled(Perform(cfg, c, RESTORE, maxAge, env.first).outcome.error).value;
        Ok(WriteReport(rep.action, first.writes + rep.writes, rep.skipped, [], true, first.at))
    else Perform(cfg, c, RESTORE, maxAge, env.first).outcome
  }

  lemma RestoreAnswers(cfg: Config, c: Control, maxAge: Option<int>, env: RunEnv)
    ensures AsyncRun(cfg, c, RESTORE, true, maxAge, env).result == RestoreAnswer(cfg, c, maxAge, env)
  {
    if PlansAgain(cfg, c, RESTORE, maxAge, env) {
      UnsettledIsPlannedAgain(cfg, c, RESTORE, maxAge, env);
      if Second(cfg, c, RESTORE, maxAge, env).outcome.Ok? {
        var first := Perform(cfg, c, RESTORE, maxAge, env.first);
        var names := Suspects(first.outcome.error, Unsettled(first.outcome.error).value);
        var c1 := first.ctl.(dev := Refresh(first.ctl.dev, names, env.reread).dev);
        ReturnedIsVerifiedIffWritten(cfg, c1, RESTORE, maxAge, env.second);
      }
    } else {
      SettledIsFinal(cfg, c, RESTORE, maxAge, env);
    }
  }

  /** A verifying call that returned wrote something exactly if it is verified, and otherwise sent nothing. */
  lemma ReturnedIsVerifiedIffWritten(cfg: Config, c: Control, call: ControlCall, maxAge: Option<int>, env: CallEnv)
    requires !call.Operate? && call.verify && Perform(cfg, c, call, maxAge, env).outcome.Ok?
    ensures var r := Perform(cfg, c, call, maxAge, env);
            && (r.outcome.value.verified <==> r.outcome.value.writes != [])
            && (r.outcome.value.verified <==> |r.ctl.dev.sent| > |c.dev.sent|)
  {
    var r := Perform(cfg, c, call, maxAge, env);
    ReturnsFromExecute(cfg, c, call, maxAge, env);
    var d := Prepared(cfg, c.dev, call, maxAge, env).0;
    ExecuteOutcome(cfg, c.(dev := d), ActionOf(call), StepsOf(cfg, d, call).value, true, env);
    PreparingSendsNothing(cfg, c.dev, call, maxAge, env);
    CallReportsItsTraffic(cfg, c, call, maxAge, env);
    if r.outcome.value.writes != [] { WritesAreSent(c.dev.sent, r.ctl.dev.sent, r.outcome.value.writes); }
  }

  lemma WritesAreSent(before: seq<Request>, now: seq<Request>, writes: seq<WriteRecord>)
    requires before <= now && AckedOf(now) == AckedOf(before) + Written(writes) && writes != []
    ensures |now| > |before|
  {
    assert |Written(writes)| > 0;
    assert |now| == |before| ==> now == before;
  }

  /** An attempt that left things open had sent something. */
  lemma UnsettledHasSent(cfg: Config, c: Control, call: ControlCall, maxAge: Option<int>, env: CallEnv)
    requires !call.Operate? && Perform(cfg, c, call, maxAge, env).outcome.Err?
    requires Unsettled(Perform(cfg, c, call, maxAge, env).outcome.error).Some?
    ensures |Perform(cfg, c, call, maxAge, env).ctl.dev.sent| > |c.dev.sent|
  {
    var r := Perform(cfg, c, call, maxAge, env);
    CallEndsByReply(cfg, c, call, maxAge, env);
    if r.outcome.error.SettingsUnavailable? {
      CallReportsItsTraffic(cfg, c, call, maxAge, env);
      UnreadBackHasWritten(cfg, c, call, maxAge, env);
      WritesAreSent(c.dev.sent, r.ctl.dev.sent, Unsettled(r.outcome.error).value.writes);
    }
  }

  /** Only what was written is read back. */
  lemma UnreadBackHasWritten(cfg: Config, c: Control, call: ControlCall, maxAge: Option<int>, env: CallEnv)
    requires !call.Operate? && Perform(cfg, c, call, maxAge, env).outcome.Err?
    ensures var e := Perform(cfg, c, call, maxAge, env).outcome.error;
            e.SettingsUnavailable? && e.report.Some? ==> e.report.value.writes != []
  {
    GuardedCases(cfg, c, call, maxAge, env);
    var (d, ok) := Prepared(cfg, c.dev, call, maxAge, env);
    if ok && StepsOf(cfg, d, call).Ok? {
      ExecutionReadBackHasWritten(cfg, c.(dev := d), ActionOf(call), StepsOf(cfg, d, call).value, call.verify, env);
    }
  }

  lemma ExecutionReadBackHasWritten(cfg: Config, c: Control, action: Action, steps: seq<Step>, verify: bool,
      env: CallEnv)
    ensures var r := Execute(cfg, c, action, steps, verify, env);
            r.outcome.Err? && r.outcome.error.SettingsUnavailable? ==>
              r.outcome.error.report.Some? && r.outcome.error.report.value.writes != []
  {
    var p0 := Start(c, action, env.exchanges);
    var p := DoSteps(cfg, p0, steps);
    LoopEndsByReply(cfg, p0, steps, p);
    if p.error.None? && verify && p.report.writes != [] { ReadBackEnds(p, steps, env); }
  }

  /** A restore that returned is verified exactly if it sent something, in one attempt or two. */
  lemma RestoredIsVerifiedIffSent(cfg: Config, c: Control, maxAge: Option<int>, env: RunEnv)
    ensures var ran := AsyncRun(cfg, c, RESTORE, true, maxAge, env);
            ran.result.Ok? ==> (ran.result.value.verified <==> |ran.ctl.dev.sent| > |c.dev.sent|)
                               && ran.result.value.uncertain == []
  {
    var ran, first := AsyncRun(cfg, c, RESTORE, true, maxAge, env), Perform(cfg, c, RESTORE, maxAge, env.first);
    RestoreAnswers(cfg, c, maxAge, env);
    if ran.result.Err? { return; }
    if PlansAgain(cfg, c, RESTORE, maxAge, env) {
      UnsettledIsPlannedAgain(cfg, c, RESTORE, maxAge, env);
      UnsettledHasSent(cfg, c, RESTORE, maxAge, env.first);
      SecondContinues(cfg, c, RESTORE, maxAge, env);
    } else {
      SettledIsFinal(cfg, c, RESTORE, maxAge, env);
      ReturnedIsVerifiedIffWritten(cfg, c, RESTORE, maxAge, env.first);
      CallTellsItsPlan(cfg, c, RESTORE, maxAge, env.first);
    }
  }

  lemma SecondContinues(cfg: Config, c: Control, call: ControlCall, maxAge: Option<int>, env: RunEnv)
    requires !call.Operate? && PlansAgain(cfg, c, call, maxAge, env)
    ensures |Perform(cfg, c, call, maxAge, env.first).ctl.dev.sent| <= |Second(cfg, c, call, maxAge, env).ctl.dev.sent|
  {
    var first := Perform(cfg, c, call, maxAge, env.first);
    var names := Suspects(first.outcome.error, Unsettled(first.outcome.error).value);
    RefreshMakesFresh(first.ctl.dev, names, env.reread);
    var c1 := first.ctl.(dev := Refresh(first.ctl.dev, names, env.reread).dev);
    CallReportsItsTraffic(cfg, c1, call, maxAge, env.second);
  }

  /** Since the record was `before`, the last request is an acknowledged stop. */
  predicate StopAcked(before: seq<Request>, now: seq<Request>) {
    |now| > |before| && now[|now| - 1].reg == StartStopReg && now[|now| - 1].acked
  }

  /**
   Stopping the inverter returns exactly when the stop request was sent and acknowledged. Its
   report lists exactly what was acknowledged of both calls, in order, nothing as uncertain, and
   is verified exactly if the restore had something to send.
   */
  lemma StopReturnsIff(cfg: Config, c: Control, maxAge: Option<int>, restore: RunEnv, stop: RunEnv)
    ensures var ran := StopInverter(cfg, c, maxAge, restore, stop);
            && (ran.result.Ok? <==> StopAcked(c.dev.sent, ran.ctl.dev.sent))
            && (ran.result.Ok? ==>
                  && AckedOf(ran.ctl.dev.sent) == AckedOf(c.dev.sent) + Written(ran.result.value.writes)
                  && ran.result.value.uncertain == []
                  && (ran.result.value.verified <==> |ran.ctl.dev.sent| > |c.dev.sent| + 1))
  {
    StopReturnsIfAcked(cfg, c, maxAge, restore, stop);
    StopReports(cfg, c, maxAge, restore, stop);
    StopIsVerifiedIffSent(cfg, c, maxAge, restore, stop);
  }

  lemma StopReturnsIfAcked(cfg: Config, c: Control, maxAge: Option<int>, restore: RunEnv, stop: RunEnv)
    ensures var ran := StopInverter(cfg, c, maxAge, restore, stop);
            ran.result.Ok? <==> StopAcked(c.dev.sent, ran.ctl.dev.sent)
  {
    var restored := AsyncRun(cfg, c, RESTORE, true, maxAge, restore);
    RunReportsItsTraffic(cfg, c, RESTORE, maxAge, restore);
    if restored.result.Err? {
      NoStopAcked(c.dev.sent, restored.ctl.dev.sent);
    } else {
      StopCommandTraffic(cfg, restored.ctl, maxAge, stop);
      OneStop(c.dev.sent, restored.ctl.dev.sent,
              AsyncRun(cfg, restored.ctl, Operate(Shutdown), false, maxAge, stop).ctl.dev.sent);
    }
  }

  lemma StopIsVerifiedIffSent(cfg: Config, c: Control, maxAge: Option<int>, restore: RunEnv, stop: RunEnv)
    ensures var ran := StopInverter(cfg, c, maxAge, restore, stop);
            ran.result.Ok? ==>
              && ran.result.value.uncertain == []
              && (ran.result.value.verified <==> |ran.ctl.dev.sent| > |c.dev.sent| + 1)
  {
    var restored := AsyncRun(cfg, c, RESTORE, true, maxAge, restore);
    RestoredIsVerifiedIffSent(cfg, c, maxAge, restore);
    if restored.result.Ok? {
      StopSendsOne(cfg, restored.ctl, maxAge, stop);
      StopCommandAnswers(cfg, restored.ctl, maxAge, stop);
    }
  }

  lemma StopSendsOne(cfg: Config, c: Control, maxAge: Option<int>, env: RunEnv)
    ensures |AsyncRun(cfg, c, Operate(Shutdown), false, maxAge, env).ctl.dev.sent| == |c.dev.sent| + 1
  {
    StopCommandTraffic(cfg, c, maxAge, env);
  }

  /** The stop command through the wrapper. */
  lemma StopCommandAnswers(cfg: Config, c: Control, maxAge: Option<int>, env: RunEnv)
    ensures var result := AsyncRun(cfg, c, Operate(Shutdown), false, maxAge, env).result;
            match FirstExchange(env.first.exchanges).reply
            case Acked =>
              && result.Ok? && |result.value.writes| == 1
              && result.value.writes[0].reg == StartStopReg && result.value.writes[0].value == Operation(Shutdown)
              && result.value.skipped == [] && result.value.uncertain == []
            case Failed(ExceptionCode(_)) => result.Err? && result.error.WriteRejected?
                                             && result.error.field == StartStopReg
            case Failed(_) => result.Err? && result.error.WriteUncertain? && result.error.field == StartStopReg
  {
    CommandAnswers(cfg, c, Shutdown, env.first);
    UnpublishedIsFinal(cfg, c, Operate(Shutdown), maxAge, env);
  }

  lemma NoStopAcked(before: seq<Request>, now: seq<Request>)
    requires Continues(before, now, MayWrite(RESTORE))
    ensures !StopAcked(before, now)
  {
  }

  lemma OneStop(before: seq<Request>, middle: seq<Request>, now: seq<Request>)
    requires before <= middle && |now| == |middle| + 1 && now[|middle|].reg == StartStopReg
    ensures StopAcked(before, now) <==> now[|middle|].acked
    ensures |middle| > |before| <==> |now| > |before| + 1
  {
  }

  lemma StopReports(cfg: Config, c: Control, maxAge: Option<int>, restore: RunEnv, stop: RunEnv)
    ensures var ran := StopInverter(cfg, c, maxAge, restore, stop);
            ran.result.Ok? ==> AckedOf(ran.ctl.dev.sent) == AckedOf(c.dev.sent) + Written(ran.result.value.writes)
  {
    var restored := AsyncRun(cfg, c, RESTORE, true, maxAge, restore);
    if restored.result.Ok? {
      var stopped := AsyncRun(cfg, restored.ctl, Operate(Shutdown), false, maxAge, stop);
      RunReportsItsTraffic(cfg, c, RESTORE, maxAge, restore);
      StopCommandTraffic(cfg, restored.ctl, maxAge, stop);
      if stopped.result.Ok? {
        JoinWrites(AckedOf(c.dev.sent), restored.result.value.writes, stopped.result.value.writes);
      }
    }
  }

  lemma StopCommandTraffic(cfg: Config, c: Control, maxAge: Option<int>, env: RunEnv)
    ensures var ran := AsyncRun(cfg, c, Operate(Shutdown), false, maxAge, env);
            && ran.result == SendCommand(cfg, c, Shutdown, env.first).outcome
            && ran.ctl.dev.sent
               == c.dev.sent + [Request(StartStopReg, Operation(Shutdown), c.dev.wire, ran.result.Ok?)]
            && (ran.result.Ok? ==> AckedOf(ran.ctl.dev.sent) == AckedOf(c.dev.sent) + Written(ran.result.value.writes))
  {
    CommandTraffic(cfg, c, Shutdown, env.first);
    UnpublishedIsFinal(cfg, c, Operate(Shutdown), maxAge, env);
  }

  /**
   Its answer, part by part: the restore's error; or that the one stop request was refused or
   not answered; or a report of both, verified as the restore was.
   */
  lemma StopAnswers(cfg: Config, c: Control, maxAge: Option<int>, restore: RunEnv, stop: RunEnv)
    ensures var result := StopInverter(cfg, c, maxAge, restore, stop).result;
            match RestoreAnswer(cfg, c, maxAge, restore)
            case Err(e) => result == Err(e)
            case Ok(rep) =>
              match FirstExchange(stop.first.exchanges).reply
              case Failed(ExceptionCode(_)) => result.Err? && result.error.WriteRejected?
                                               && result.error.field == StartStopReg
              case Failed(_) => result.Err? && result.error.WriteUncertain? && result.error.field == StartStopReg
              case Acked =>
                && result.Ok? && result.value.action == StartStopAction(Shutdown)
                && |result.value.writes| == |rep.writes| + 1 && rep.writes <= result.value.writes
                && result.value.writes[|rep.writes|].reg == StartStopReg
                && result.value.writes[|rep.writes|].value == Operation(Shutdown)
                && result.value.skipped == rep.skipped && result.value.verified == rep.verified
                && result.value.at == rep.at
  {
    var restored := AsyncRun(cfg, c, RESTORE, true, maxAge, restore);
    RestoreAnswers(cfg, c, maxAge, restore);
    if restored.result.Ok? { StopCommandAnswers(cfg, restored.ctl, maxAge, stop); }
  }
}
