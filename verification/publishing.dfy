/** What the coordinator shows after it was told several things, and what really is behind it. */
module Publishing {
  import opened Wrappers
  import opened Registers
  import opened Devices
  import opened Polling
  import opened Planner
  import opened Execution
  import opened Honesty
  import opened Traffic
  import opened Coordinators
  import opened Recovery
  import opened RecoveryProperties
  import PollProperties
  import StepFacts

  /** The coordinator after it was told everything, in order. */
  function PublishAll(s: Coord, notices: seq<Notice>): Coord
    decreases |notices|
  {
    if notices == [] then s else PublishAll(Publish(s, notices[0].what, notices[0].seen.clock), notices[1..])
  }

  lemma {:induction false} PublishAppend(s: Coord, a: seq<Notice>, b: seq<Notice>)
    ensures PublishAll(s, a + b) == PublishAll(PublishAll(s, a), b)
    decreases |a|
  {
    if a == [] {
      assert a + b == b;
    } else {
      assert (a + b)[1..] == a[1..] + b;
      PublishAppend(Publish(s, a[0].what, a[0].seen.clock), a[1..], b);
    }
  }

  lemma PublishOne(s: Coord, n: Notice)
    ensures PublishAll(s, [n]) == Publish(s, n.what, n.seen.clock)
  {
    assert PublishAll(s, [n]) == PublishAll(Publish(s, n.what, n.seen.clock), []);
  }

  // -- what a publication shows ---------------------------------------------------------------

  predicate Shown(s: Coord, n: Component) { s.data.Some? && n in s.data.value.updated }

  /** If the component is shown as updated, its cached fields are what its registers decode to. */
  ghost predicate Held(d: Device, s: Coord, n: Component) { Shown(s, n) ==> Fresh(d, n) }

  ghost predicate AllHeld(d: Device, s: Coord) { forall n :: n in GUARDED ==> Held(d, s, n) }

  /** A snapshot shows what it names, a failure mark stops showing what it names. */
  lemma PublishShows(s: Coord, what: Publication, now: int, n: Component)
    ensures what.Snapshot? && Shown(Publish(s, what, now), n) ==> Shown(s, n) || n in what.names
    ensures what.Unavailable? && Shown(Publish(s, what, now), n) ==> Shown(s, n) && n !in what.failing
  {
  }

  lemma {:induction false} FailuresStopShowing(s: Coord, names: seq<Component>, q: Polled, n: Component)
    ensures Shown(PublishAll(s, FailureNotices(names, q)), n) ==> Shown(s, n) && !(n in names && n in q.report.failed)
    decreases |names|
  {
    if names != [] {
      var first := if names[0] in q.report.failed
          then [Notice(Unavailable({names[0]}, q.report.failed[names[0]]), q.dev)] else [];
      var s1 := PublishAll(s, first);
      PublishAppend(s, first, FailureNotices(names[1..], q));
      if first != [] {
        PublishOne(s, first[0]);
        PublishShows(s, first[0].what, q.dev.clock, n);
      }
      FailuresStopShowing(s1, names[1..], q, n);
    }
  }

  lemma SnapshotThenFailures(s: Coord, read: set<Component>, names: seq<Component>, q: Polled, n: Component)
    ensures var first := if read != {} then [Notice(Snapshot(read), q.dev)] else [];
            Shown(PublishAll(s, first + FailureNotices(names, q)), n)
            ==> (Shown(s, n) || n in read) && !(n in names && n in q.report.failed)
  {
    var first := if read != {} then [Notice(Snapshot(read), q.dev)] else [];
    PublishAppend(s, first, FailureNotices(names, q));
    if first != [] {
      PublishOne(s, first[0]);
      PublishShows(s, first[0].what, q.dev.clock, n);
    }
    FailuresStopShowing(PublishAll(s, first), names, q, n);
  }

  /** Re-reading `names` and publishing the outcome shows of them only what was read. */
  lemma RereadHolds(d: Device, s: Coord, names: set<Component>, env: seq<ReadEnv>, n: Component)
    requires names <= GUARDED && n in GUARDED && (Shown(s, n) && n !in names ==> Fresh(d, n))
    ensures var r := RereadNames(d, names, env); Held(r.dev, PublishAll(s, r.notices), n)
  {
    RereadEffect(d, names, env);
    if names != {} {
      var q := Refresh(d, Sorted(names), env);
      RefreshMakesFresh(d, Sorted(names), env);
      if q.raised.Some? {
        PublishOne(s, Notice(Unavailable(names, q.raised.value), q.dev));
        PublishShows(s, Unavailable(names, q.raised.value), q.dev.clock, n);
      } else {
        SnapshotThenFailures(s, names - q.report.failed.Keys, Sorted(names), q, n);
        assert n in names ==> n in Sorted(names);
      }
    }
  }

  /** A snapshot of what was just read back. */
  lemma SnapshotHolds(d: Device, s: Coord, names: set<Component>, n: Component)
    requires n in names ==> Fresh(d, n)
    requires Shown(s, n) && n !in names ==> Fresh(d, n)
    ensures Held(d, PublishAll(s, [Notice(Snapshot(names), d)]), n)
  {
    PublishOne(s, Notice(Snapshot(names), d));
    PublishShows(s, Snapshot(names), d.clock, n);
  }

  // -- what a call can leave stale ---------------------------------------------------------------

  /** The components of the acknowledged writes of a report. */
  function WrittenIn(rep: WriteReport): set<Component> { set w | w in rep.writes :: ComponentOf(w.reg) }

  lemma TransmitKeepsFresh(mirrors: Option<int>, d: Device, r: Register, v: Value, w: Word, x: Exchange, n: Component)
    requires Fresh(d, n) && ComponentOf(r) != n
    ensures Fresh(Transmit(mirrors, d, r, v, w, x), n)
  {
    var d1 := Disturb(d, x.before);
    DisturbUndisturbed(d, x.before);
    DeliverKeepsFresh(mirrors, d1, r, v, w, x, n);
    DisturbUndisturbed(Deliver(mirrors, d1, r, v, w, x), x.after);
  }

  /**
   The step loop leaves a component fresh, or has to answer for it: a write in the report, or
   the field of its error.
   */
  ghost predicate Answers(start: Device, p: Progress, n: Component) {
    Fresh(start, n) ==>
      Fresh(p.ctl.dev, n) || n in WrittenIn(p.report)
      || (p.error.Some? && n in FieldOf(p.error.value))
  }

  lemma WriteStepKeepsFresh(cfg: Config, p: Progress, s: Step, w: Word, n: Component)
    requires Fresh(p.ctl.dev, n) && ComponentOf(s.reg) != n
    ensures Fresh(WriteStep(cfg, p, s, w).ctl.dev, n)
  {
    WriteStepDevice(cfg, p, s, w);
    TransmitKeepsFresh(cfg.mirrors, p.ctl.dev, s.reg, s.target, w, FirstExchange(p.rest), n);
  }

  lemma WriteStepAnswers(cfg: Config, p: Progress, s: Step, w: Word, n: Component)
    requires p.error.None?
    ensures Answers(p.ctl.dev, WriteStep(cfg, p, s, w), n)
  {
    var q := WriteStep(cfg, p, s, w);
    if ComponentOf(s.reg) != n {
      if Fresh(p.ctl.dev, n) { WriteStepKeepsFresh(cfg, p, s, w, n); }
    } else {
      WriteStepOwns(cfg, p, s, w);
    }
  }

  /** A write is in the report, or its register is the field of the error. */
  lemma WriteStepOwns(cfg: Config, p: Progress, s: Step, w: Word)
    ensures var q := WriteStep(cfg, p, s, w);
            if q.error.None? then ComponentOf(s.reg) in WrittenIn(q.report)
                else FieldOf(q.error.value) == {ComponentOf(s.reg)}
  {
    var q := WriteStep(cfg, p, s, w);
    if q.error.None? {
      assert q.report.writes[|q.report.writes| - 1].reg == s.reg;
      assert q.report.writes[|q.report.writes| - 1] in q.report.writes;
    }
  }

  lemma DoStepAnswers(cfg: Config, p: Progress, s: Step, n: Component)
    requires p.error.None?
    ensures var q := DoStep(cfg, p, s); Answers(p.ctl.dev, q, n) && WrittenIn(p.report) <= WrittenIn(q.report)
  {
    if !Skipped(cfg, p.ctl, s) && Encode(s.reg, s.target).Some? {
      assert DoStep(cfg, p, s) == WriteStep(cfg, p, s, Encode(s.reg, s.target).value);
      WriteStepAnswers(cfg, p, s, Encode(s.reg, s.target).value, n);
    }
  }

  lemma {:induction false} StepsAnswer(cfg: Config, p: Progress, steps: seq<Step>, n: Component)
    requires p.error.None?
    ensures var q := DoSteps(cfg, p, steps); Answers(p.ctl.dev, q, n) && WrittenIn(p.report) <= WrittenIn(q.report)
    decreases |steps|
  {
    if steps != [] {
      var p1 := DoStep(cfg, p, steps[0]);
      DoStepAnswers(cfg, p, steps[0], n);
      if p1.error.Some? { StepFacts.ErrorEnds(cfg, p1, steps[1..]); } else { StepsAnswer(cfg, p1, steps[1..], n); }
    }
  }

  /** A call leaves a component fresh, or names it in the writes of its report or as the field of its error. */
  ghost predicate CallAnswers(d: Device, r: Performed, n: Component) {
    Fresh(d, n) ==>
      || Fresh(r.ctl.dev, n)
      || (Outcome(r).Some? && n in WrittenIn(Outcome(r).value))
      || (r.outcome.Err? && Outcome(r).Some? && n in FieldOf(r.outcome.error))
  }

  lemma ReadBackKeepsFresh(p: Progress, steps: seq<Step>, env: CallEnv, n: Component)
    requires Fresh(p.ctl.dev, n)
    ensures Fresh(ReadBack(p, steps, env).ctl.dev, n)
  {
    var d1 := Disturb(p.ctl.dev, env.settle);
    var d2 := Refresh(d1, Touched(steps), env.readback).dev;
    DisturbUndisturbed(p.ctl.dev, env.settle);
    RefreshMakesFresh(d1, Touched(steps), env.readback);
    assert Fresh(d2, n);
    DroppedOrNot(p, steps, env, d2);
  }

  /** A read-back at most drops stamps. */
  lemma DroppedOrNot(p: Progress, steps: seq<Step>, env: CallEnv, d: Device)
    requires d == Refresh(Disturb(p.ctl.dev, env.settle), Touched(steps), env.readback).dev
    ensures var d1 := ReadBack(p, steps, env).ctl.dev; d1.wire == d.wire && d1.cache == d.cache
  {
  }

  lemma ReadBackReportsWrites(p: Progress, steps: seq<Step>, env: CallEnv)
    ensures var r := ReadBack(p, steps, env); Outcome(r).Some? && Outcome(r).value.writes == p.report.writes
  {
    ReadBackEnds(p, steps, env);
  }

  lemma ExecuteAnswers(cfg: Config, c: Control, action: Action, steps: seq<Step>, verify: bool, env: CallEnv,
      n: Component)
    ensures CallAnswers(c.dev, Execute(cfg, c, action, steps, verify, env), n)
  {
    var p0 := Start(c, action, env.exchanges);
    var p := DoSteps(cfg, p0, steps);
    StepsAnswer(cfg, p0, steps, n);
    if p.error.Some? {
      StepsMention(cfg, p0, steps, RegsOf(steps));
      ErrorAnswers(c.dev, p, steps, n);
    } else if verify && p.report.writes != [] {
      ReadBackAnswers(c.dev, p, steps, env, n);
    }
  }

  lemma ErrorAnswers(d: Device, p: Progress, steps: seq<Step>, n: Component)
    requires Answers(d, p, n) && p.error.Some? && ReportOf(p.error.value) == Some(p.report)
    ensures CallAnswers(d, Performed(Drop(p.ctl, Touched(steps)), Err(p.error.value)), n)
  {
  }

  lemma ReadBackAnswers(d: Device, p: Progress, steps: seq<Step>, env: CallEnv, n: Component)
    requires Answers(d, p, n) && p.error.None?
    ensures CallAnswers(d, ReadBack(p, steps, env), n)
  {
    ReadBackReportsWrites(p, steps, env);
    if Fresh(p.ctl.dev, n) {
      ReadBackKeepsFresh(p, steps, env, n);
    } else if Fresh(d, n) {
      assert n in WrittenIn(p.report);
    }
  }

  lemma GuardedAnswers(cfg: Config, c: Control, call: ControlCall, maxAge: Option<int>, env: CallEnv, n: Component)
    requires !call.Operate?
    ensures CallAnswers(c.dev, Perform(cfg, c, call, maxAge, env), n)
  {
    var (d, ok) := Prepared(cfg, c.dev, call, maxAge, env);
    PreparedEffect(cfg, c.dev, call, maxAge, env, {});
    GuardedCases(cfg, c, call, maxAge, env);
    if ok && StepsOf(cfg, d, call).Ok? {
      ExecuteAnswers(cfg, c.(dev := d), ActionOf(call), StepsOf(cfg, d, call).value, call.verify, env, n);
    }
  }

  /** Start and stop write no guarded component. */
  lemma CommandKeepsFresh(cfg: Config, c: Control, command: StartStop, env: CallEnv, n: Component)
    requires n in GUARDED && Fresh(c.dev, n)
    ensures Fresh(SendCommand(cfg, c, command, env).ctl.dev, n)
  {
    var d := Disturb(c.dev, env.waiting);
    DisturbUndisturbed(c.dev, env.waiting);
    var p := Start(c.(dev := d), StartStopAction(command), env.exchanges);
    var s := Step(StartStopReg, Operation(command), Exactly);
    assert Fresh(d, n);
    WriteStepKeepsFresh(cfg, p, s, StartStopCode(command), n);
    CommandPerformed(cfg, c, command, env, WriteStep(cfg, p, s, StartStopCode(command)));
  }

  // -- a wrapped call --------------------------------------------------------------------------------

  lemma WrittenIsTouched(rep: WriteReport)
    ensures WrittenIn(rep) <= TouchedBy(rep)
  {
  }

  /** Publishing after a failed attempt. */
  lemma FailedAttemptHolds(cfg: Config, c: Control, s: Coord, call: ControlCall, maxAge: Option<int>, env: CallEnv,
                           answers: seq<ReadEnv>, n: Component)
    requires !call.Operate? && n in GUARDED && Held(c.dev, s, n) && Perform(cfg, c, call, maxAge, env).outcome.Err?
    ensures var r := Perform(cfg, c, call, maxAge, env);
            var published := PublishAfterError(r.ctl.dev, r.outcome.error, answers);
            Held(published.dev, PublishAll(s, published.notices), n)
  {
    var r := Perform(cfg, c, call, maxAge, env);
    var e := r.outcome.error;
    GuardedAnswers(cfg, c, call, maxAge, env, n);
    CallStaysIn(cfg, c, call, maxAge, env);
    NamesAreGuarded(call);
    if ReportOf(e).Some? {
      WrittenIsTouched(ReportOf(e).value);
      if e.VerificationFailed? {
        ReadBackLeavesFresh(cfg, c, call, maxAge, env);
        SnapshotHolds(r.ctl.dev, s, TouchedBy(ReportOf(e).value), n);
      } else {
        RereadHolds(r.ctl.dev, s, TouchedBy(ReportOf(e).value) + FieldOf(e), answers, n);
      }
    }
  }

  /** Publishing a call that returned, given what it may have left stale. */
  lemma FinishHolds(c: Control, s: Coord, rep: WriteReport, answers: seq<ReadEnv>, notices: seq<Notice>, n: Component)
    requires n in GUARDED && TouchedBy(rep) <= GUARDED
    requires Shown(PublishAll(s, notices), n) && n !in WrittenIn(rep) ==> Fresh(c.dev, n)
    requires rep.verified && n in TouchedBy(rep) ==> Fresh(c.dev, n)
    ensures var ran := Finish(c, rep, true, answers, notices); Held(ran.ctl.dev, PublishAll(s, ran.notices), n)
  {
    WrittenIsTouched(rep);
    if rep.writes != [] {
      if rep.verified {
        PublishAppend(s, notices, [Notice(Snapshot(TouchedBy(rep)), c.dev)]);
        SnapshotHolds(c.dev, PublishAll(s, notices), TouchedBy(rep), n);
      } else {
        PublishAppend(s, notices, RereadNames(c.dev, TouchedBy(rep), answers).notices);
        RereadHolds(c.dev, PublishAll(s, notices), TouchedBy(rep), answers, n);
      }
    }
  }

  /** One attempt that returned. */
  lemma ReturnedAttemptHolds(cfg: Config, c: Control, s: Coord, call: ControlCall, maxAge: Option<int>, env: CallEnv,
                             answers: seq<ReadEnv>, n: Component)
    requires !call.Operate? && n in GUARDED && Held(c.dev, s, n) && Perform(cfg, c, call, maxAge, env).outcome.Ok?
    ensures var r := Perform(cfg, c, call, maxAge, env);
            var ran := Finish(r.ctl, r.outcome.value, true, answers, []);
            Held(ran.ctl.dev, PublishAll(s, ran.notices), n)
  {
    var r := Perform(cfg, c, call, maxAge, env);
    GuardedAnswers(cfg, c, call, maxAge, env, n);
    CallStaysIn(cfg, c, call, maxAge, env);
    NamesAreGuarded(call);
    ReadBackLeavesFresh(cfg, c, call, maxAge, env);
    FinishHolds(r.ctl, s, r.outcome.value, answers, [], n);
  }

  lemma MergedWrites(first: WriteReport, second: WriteReport)
    ensures WrittenIn(second) <= WrittenIn(Merged(first, second))
  {
    assert forall w :: w in second.writes ==> w in Merged(first, second).writes;
  }

  /** The second attempt, after `notices` were published. */
  lemma SecondAttemptHolds(cfg: Config, c1: Control, s: Coord, call: ControlCall, maxAge: Option<int>, rep: WriteReport,
                           env: RunEnv, notices: seq<Notice>, n: Component)
    requires !call.Operate? && n in GUARDED && Held(c1.dev, PublishAll(s, notices), n)
    requires HonestOn(c1.dev, AsSet(Names(call))) && TouchedBy(rep) <= AsSet(Names(call))
    ensures var ran := PlanAgain(cfg, c1, call, maxAge, rep, env, notices);
            Held(ran.ctl.dev, PublishAll(s, ran.notices), n)
  {
    var second := Perform(cfg, c1, call, maxAge, env.second);
    NamesAreGuarded(call);
    if second.outcome.Err? {
      PublishAppend(s, notices, PublishAfterError(second.ctl.dev, second.outcome.error, env.again).notices);
      FailedAttemptHolds(cfg, c1, PublishAll(s, notices), call, maxAge, env.second, env.again, n);
    } else {
      GuardedAnswers(cfg, c1, call, maxAge, env.second, n);
      MergedIsFresh(cfg, c1, call, maxAge, rep, env);
      MergedWrites(rep, second.outcome.value);
      FinishHolds(second.ctl, s, Merged(rep, second.outcome.value), env.publish, notices, n);
    }
  }

  /** The wrapped form of a call: start and stop are not published. */
  function Wrapped(cfg: Config, c: Control, call: ControlCall, maxAge: Option<int>, env: RunEnv): Ran {
    AsyncRun(cfg, c, call, !call.Operate?, maxAge, env)
  }

  lemma WrappedHolds(cfg: Config, c: Control, s: Coord, call: ControlCall, maxAge: Option<int>, env: RunEnv,
      n: Component)
    requires !call.Operate? && n in GUARDED && Held(c.dev, s, n)
    ensures var ran := Wrapped(cfg, c, call, maxAge, env); Held(ran.ctl.dev, PublishAll(s, ran.notices), n)
  {
    RunCases(cfg, c, call, maxAge, env);
    match EndingOf(cfg, c, call, maxAge, env) {
      case Once => ReturnedAttemptHolds(cfg, c, s, call, maxAge, env.first, env.publish, n);
      case GaveUp => FailedAttemptHolds(cfg, c, s, call, maxAge, env.first, env.reread, n);
      case Twice(c1, rep) => BothAttemptsHold(cfg, c, s, call, maxAge, env, c1, rep, n);
    }
  }

  lemma BothAttemptsHold(cfg: Config, c: Control, s: Coord, call: ControlCall, maxAge: Option<int>, env: RunEnv,
      c1: Control, rep: WriteReport, n: Component)
    requires !call.Operate? && n in GUARDED && Held(c.dev, s, n) && SecondStart(cfg, c, call, maxAge, env, c1, rep)
    ensures var first := Perform(cfg, c, call, maxAge, env.first);
            var notices := PublishAfterError(first.ctl.dev, first.outcome.error, env.reread).notices;
            var ran := PlanAgain(cfg, c1, call, maxAge, rep, env, notices);
            Held(ran.ctl.dev, PublishAll(s, ran.notices), n)
  {
    var first := Perform(cfg, c, call, maxAge, env.first);
    FailedAttemptHolds(cfg, c, s, call, maxAge, env.first, env.reread, n);
    SecondStartIsHonest(cfg, c, call, maxAge, env, c1, rep);
    CallStaysIn(cfg, c, call, maxAge, env.first);
    SecondAttemptHolds(cfg, c1, s, call, maxAge, rep, env,
                       PublishAfterError(first.ctl.dev, first.outcome.error, env.reread).notices, n);
  }

  lemma CommandHolds(cfg: Config, c: Control, s: Coord, call: ControlCall, maxAge: Option<int>, env: RunEnv,
      n: Component)
    requires call.Operate? && n in GUARDED && Held(c.dev, s, n)
    ensures var ran := Wrapped(cfg, c, call, maxAge, env); Held(ran.ctl.dev, PublishAll(s, ran.notices), n)
  {
    if Fresh(c.dev, n) { CommandKeepsFresh(cfg, c, call.command, env.first, n); }
    assert Perform(cfg, c, call, maxAge, env.first) == SendCommand(cfg, c, call.command, env.first);
  }

  /**
   Device, wrapper and coordinator together. If everything the coordinator shows as updated is
   cached as the registers are, it still is after any wrapped call, verified or not, for every
   failure of both attempts. Nothing is assumed of stamps, nor that acknowledged writes land.
   */
  lemma WrappedCallKeepsShownHeld(cfg: Config, c: Control, s: Coord, call: ControlCall, maxAge: Option<int>,
      env: RunEnv)
    requires AllHeld(c.dev, s)
    ensures var ran := Wrapped(cfg, c, call, maxAge, env); AllHeld(ran.ctl.dev, PublishAll(s, ran.notices))
  {
    forall n | n in GUARDED
        ensures var ran := Wrapped(cfg, c, call, maxAge, env); Held(ran.ctl.dev, PublishAll(s, ran.notices), n) {
      assert Held(c.dev, s, n);
      if call.Operate? {
        CommandHolds(cfg, c, s, call, maxAge, env, n);
      } else {
        WrappedHolds(cfg, c, s, call, maxAge, env, n);
      }
    }
  }

  // -- runs with scheduled polls -----------------------------------------------------------------------

  /** The write layer and the coordinator that shows its components. */
  datatype System = System(ctl: Control, shown: Coord)

  datatype Occurrence =
    | Called(call: ControlCall, maxAge: Option<int>, env: RunEnv)
    | Polls(locked: bool, names: seq<Component>, answers: seq<ReadEnv>)
    | Meanwhile(events: seq<Event>)

  /** A skipped poll reads nothing; any other one is what the coordinator is told about. */
  function Occur(cfg: Config, counting: bool, y: System, o: Occurrence): System {
    match o
    case Called(call, maxAge, env) =>
      var ran := Wrapped(cfg, y.ctl, call, maxAge, env);
      System(ran.ctl, PublishAll(y.shown, ran.notices))
    case Polls(locked, names, answers) =>
      var p := Refresh(y.ctl.dev, names, answers);
      System(if Skips(y.shown, locked) then y.ctl else y.ctl.(dev := p.dev),
             UpdateData(y.shown, counting, locked, PollProperties.OutcomeOf(p, names)))
    case Meanwhile(events) => y.(ctl := y.ctl.(dev := Disturb(y.ctl.dev, events)))
  }

  function Course(cfg: Config, counting: bool, y: System, run: seq<Occurrence>): System
    decreases |run|
  {
    if run == [] then y else Course(cfg, counting, Occur(cfg, counting, y, run[0]), run[1..])
  }

  /** After a poll is shown what was shown before, or what it updated. */
  lemma PollShows(s: Coord, counting: bool, p: Polled, names: seq<Component>, locked: bool, n: Component)
    ensures Shown(UpdateData(s, counting, locked, PollProperties.OutcomeOf(p, names)), n) ==>
            Shown(s, n) || (!Skips(s, locked) && n in p.report.updated)
  {
  }

  lemma PollHolds(y: System, counting: bool, locked: bool, names: seq<Component>, answers: seq<ReadEnv>, n: Component)
    requires Held(y.ctl.dev, y.shown, n)
    ensures var p := Refresh(y.ctl.dev, names, answers);
            Held(if Skips(y.shown, locked) then y.ctl.dev else p.dev,
                 UpdateData(y.shown, counting, locked, PollProperties.OutcomeOf(p, names)), n)
  {
    PollShows(y.shown, counting, Refresh(y.ctl.dev, names, answers), names, locked, n);
    RefreshMakesFresh(y.ctl.dev, names, answers);
  }

  lemma OccurrenceKeepsShownHeld(cfg: Config, counting: bool, y: System, o: Occurrence)
    requires AllHeld(y.ctl.dev, y.shown)
    ensures var y1 := Occur(cfg, counting, y, o); AllHeld(y1.ctl.dev, y1.shown)
  {
    match o {
      case Called(call, maxAge, env) => WrappedCallKeepsShownHeld(cfg, y.ctl, y.shown, call, maxAge, env);
      case Polls(locked, names, answers) =>
        forall n | n in GUARDED ensures var y1 := Occur(cfg, counting, y, o); Held(y1.ctl.dev, y1.shown, n) {
          assert Held(y.ctl.dev, y.shown, n);
          PollHolds(y, counting, locked, names, answers, n);
        }
      case Meanwhile(events) =>
        DisturbUndisturbed(y.ctl.dev, events);
        forall n | n in GUARDED
            ensures Held(Disturb(y.ctl.dev, events), y.shown, n) {
          assert Held(y.ctl.dev, y.shown, n);
        }
    }
  }

  /**
   Over any run of wrapped calls, polls that return, fail or are skipped, and re-reads by others:
   whatever the coordinator shows as updated is cached as the registers are, between occurrences.
   */
  lemma {:induction false} RunKeepsShownHeld(cfg: Config, counting: bool, y: System, run: seq<Occurrence>)
    requires AllHeld(y.ctl.dev, y.shown)
    ensures var end := Course(cfg, counting, y, run); AllHeld(end.ctl.dev, end.shown)
    decreases |run|
  {
    if run != [] {
      OccurrenceKeepsShownHeld(cfg, counting, y, run[0]);
      RunKeepsShownHeld(cfg, counting, Occur(cfg, counting, y, run[0]), run[1..]);
    }
  }
}
