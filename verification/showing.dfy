/**
 What a wrapped call makes the coordinator show: everything it read back or read again, as
 updated, and everything it tried to read again and could not, as failed with the error.
 */
module Showing {
  import opened Wrappers
  import opened Registers
  import opened Devices
  import opened Polling
  import PollProperties
  import opened Planner
  import opened Execution
  import opened Honesty
  import opened Traffic
  import opened Coordinators
  import opened Recovery
  import opened RecoveryProperties
  import opened RecoveryOutcomes
  import opened Reports
  import Publishing

  /** A coordinator that has data shows what a snapshot or a failure mark last said. */
  lemma PublishedLast(s: Coord, notices: seq<Notice>, last: Notice, n: Component, w: News)
    requires s.data.Some? && Says(s, Published(last.what, 0), n, w)
    ensures Shows(Publishing.PublishAll(s, notices + [last]), n, w)
  {
    var s1 := Publishing.PublishAll(s, notices);
    KeepsData(s, notices);
    Publishing.PublishAppend(s, notices, [last]);
    Publishing.PublishOne(s1, last);
    SayingShows(s1, false, Published(last.what, last.seen.clock), n, w);
  }

  lemma {:induction false} KeepsData(s: Coord, notices: seq<Notice>)
    requires s.data.Some?
    ensures Publishing.PublishAll(s, notices).data.Some?
    decreases |notices|
  {
    if notices != [] { KeepsData(Publish(s, notices[0].what, notices[0].seen.clock), notices[1..]); }
  }

  // -- a re-read -------------------------------------------------------------------------------

  /** The failure marks after a re-read: each failed component is shown failed, and the others as they were. */
  lemma {:induction false} FailuresShow(s: Coord, names: seq<Component>, q: Polled, n: Component, w: News)
    requires s.data.Some? && PollProperties.DistinctNames(names)
    requires if n in names && n in q.report.failed then w == HasFailed(q.report.failed[n]) else Shows(s, n, w)
    ensures Shows(Publishing.PublishAll(s, FailureNotices(names, q)), n, w)
    decreases |names|
  {
    if names != [] {
      var marked := names[0] in q.report.failed;
      var first := if marked then [Notice(Unavailable({names[0]}, q.report.failed[names[0]]), q.dev)] else [];
      var s1 := Publishing.PublishAll(s, first);
      KeepsData(s, first);
      Publishing.PublishAppend(s, first, FailureNotices(names[1..], q));
      if marked {
        Publishing.PublishOne(s, first[0]);
        MarkShows(s, names[0], q.report.failed[names[0]], q.dev.clock, n, w);
      }
      if names[0] == n && marked {
        assert n !in names[1..];
      }
      FailuresShow(s1, names[1..], q, n, w);
    }
  }

  /** One failure mark. */
  lemma MarkShows(s: Coord, name: Component, error: ModbusError, now: int, n: Component, w: News)
    requires s.data.Some?
    ensures var s1 := Publish(s, Unavailable({name}, error), now);
            && (name == n && w == HasFailed(error) ==> Shows(s1, n, w))
            && (name != n && Shows(s, n, w) ==> Shows(s1, n, w))
  {
    var e := Published(Unavailable({name}, error), now);
    if name == n && w == HasFailed(error) { SayingShows(s, false, e, n, w); }
    if name != n && Shows(s, n, w) { SilenceKeeps(s, false, e, n, w); }
  }

  /** What the i-th read of a re-read that did not raise says of its component. */
  function NewsAt(env: seq<ReadEnv>, i: nat): News {
    match PollProperties.AnswerAt(env, i)
    case Ok(_) => WasRead
    case Err(error) => HasFailed(error)
  }

  /**
   After the wrapper's re-read each component it names is shown by the answer of its own read, or,
   if the whole re-read raised, as failed with that error.
   */
  lemma RereadIsShown(d: Device, s: Coord, names: set<Component>, env: seq<ReadEnv>, i: nat)
    requires s.data.Some? && names <= GUARDED && i < |Sorted(names)|
    ensures var end, raised := Publishing.PublishAll(s, RereadNames(d, names, env).notices),
                               Refresh(d, Sorted(names), env).raised;
            Shows(end, Sorted(names)[i], if raised.Some? then HasFailed(raised.value) else NewsAt(env, i))
  {
    var n, q := Sorted(names)[i], Refresh(d, Sorted(names), env);
    SortedNames(names);
    assert n in Sorted(names);
    if q.raised.Some? {
      PublishedLast(s, [], Notice(Unavailable(names, q.raised.value), q.dev), n, HasFailed(q.raised.value));
    } else {
      PollProperties.FailedIsUnanswered(Polled(d, EmptyReport(d.clock), None, env), Sorted(names), false, i);
      ReadThenFailed(s, names, q, n, NewsAt(env, i));
    }
  }

  lemma ReadThenFailed(s: Coord, names: set<Component>, q: Polled, n: Component, w: News)
    requires s.data.Some? && names <= GUARDED && n in names
    requires w == if n in q.report.failed then HasFailed(q.report.failed[n]) else WasRead
    ensures var read := names - q.report.failed.Keys;
            var first := if read != {} then [Notice(Snapshot(read), q.dev)] else [];
            Shows(Publishing.PublishAll(s, first + FailureNotices(Sorted(names), q)), n, w)
  {
    var read := names - q.report.failed.Keys;
    var first := if read != {} then [Notice(Snapshot(read), q.dev)] else [];
    SortedNames(names);
    KeepsData(s, first);
    Publishing.PublishAppend(s, first, FailureNotices(Sorted(names), q));
    if n !in q.report.failed {
      assert n in read;
      PublishedLast(s, [], Notice(Snapshot(read), q.dev), n, WasRead);
      assert [] + first == first;
    }
    FailuresShow(Publishing.PublishAll(s, first), Sorted(names), q, n, w);
  }

  // -- a run ---------------------------------------------------------------------------------------

  lemma {:induction false} TouchedAreSteps(steps: seq<Step>)
    ensures AsSet(Touched(steps)) == ComponentsOfSteps(steps)
  {
    TouchedIsWithin(steps);
    forall n | n in AsSet(Touched(steps)) ensures n in ComponentsOfSteps(steps) {
      var s :| s in steps && ComponentOf(s.reg) == n;
    }
    forall n | n in ComponentsOfSteps(steps) ensures n in AsSet(Touched(steps)) {
      var s :| s in steps && ComponentOf(s.reg) == n;
    }
  }

  /** A call that returned, or failed its verification, names in its report every component it guards. */
  lemma WholeReportNamesAll(cfg: Config, c: Control, call: ControlCall, maxAge: Option<int>, env: CallEnv)
    requires !call.Operate?
    ensures var r := Perform(cfg, c, call, maxAge, env);
            && (r.outcome.Ok? ==> TouchedBy(r.outcome.value) == AsSet(Names(call)))
            && (r.outcome.Err? && r.outcome.error.VerificationFailed? ==>
                  TouchedBy(r.outcome.error.written) == AsSet(Names(call)))
  {
    var d, r := Prepared(cfg, c.dev, call, maxAge, env).0, Perform(cfg, c, call, maxAge, env);
    CallTellsItsPlan(cfg, c, call, maxAge, env);
    if r.outcome.Ok? || r.outcome.error.VerificationFailed? {
      WholePlanIsNamed(r.outcome, Outcome(r).value, StepsOf(cfg, d, call).value);
      PlanTouchesNames(cfg, d, call);
    }
  }

  lemma WholePlanIsNamed(outcome: Result<WriteReport, ControlError>, rep: WriteReport, steps: seq<Step>)
    requires outcome.Ok? || outcome.error.VerificationFailed?
    requires exists wrote :: Tells(rep, steps, wrote) && StopsAt(outcome, rep, steps, |wrote|)
    ensures TouchedBy(rep) == AsSet(Touched(steps))
  {
    var wrote :| Tells(rep, steps, wrote) && StopsAt(outcome, rep, steps, |wrote|);
    TellsNames(rep, steps, wrote);
    assert steps[..|wrote|] == steps;
    TouchedAreSteps(steps);
  }

  /** So does the merged report of two attempts. */
  lemma MergedNamesAll(first: WriteReport, second: WriteReport, names: set<Component>)
    requires TouchedBy(second) == names && second.uncertain == []
    ensures names <= TouchedBy(Merged(first, second))
  {
    forall n | n in names ensures n in TouchedBy(Merged(first, second)) {
      if w :| w in second.writes && ComponentOf(w.reg) == n {
        assert w in Merged(first, second).writes;
      } else {
        assert n in ComponentsOf(second.skipped);
      }
    }
  }

  /** Publishing a verified report shows everything it names. */
  lemma FinishShows(c: Control, s: Coord, rep: WriteReport, env: seq<ReadEnv>, notices: seq<Notice>, n: Component)
    requires s.data.Some? && rep.verified && rep.writes != [] && n in TouchedBy(rep)
    ensures Shows(Publishing.PublishAll(s, Finish(c, rep, true, env, notices).notices), n, WasRead)
  {
    PublishedLast(s, notices, Notice(Snapshot(TouchedBy(rep)), c.dev), n, WasRead);
  }

  /** A wrapped call that returned verified, in one attempt or two, and wrote something, shows all it guards as read. */
  lemma VerifiedRunIsShown(cfg: Config, c: Control, s: Coord, call: ControlCall, maxAge: Option<int>, env: RunEnv,
      n: Component)
    requires !call.Operate? && s.data.Some? && n in Names(call)
    ensures var ran := AsyncRun(cfg, c, call, true, maxAge, env);
            ran.result.Ok? && ran.result.value.verified && ran.result.value.writes != [] ==>
              Shows(Publishing.PublishAll(s, ran.notices), n, WasRead)
  {
    var ran, first := AsyncRun(cfg, c, call, true, maxAge, env), Perform(cfg, c, call, maxAge, env.first);
    RunCases(cfg, c, call, maxAge, env);
    if ran.result.Err? || !ran.result.value.verified || ran.result.value.writes == [] { return; }
    match EndingOf(cfg, c, call, maxAge, env) {
      case Once =>
        WholeReportNamesAll(cfg, c, call, maxAge, env.first);
        FinishShows(first.ctl, s, first.outcome.value, env.publish, [], n);
      case GaveUp =>
      case Twice(c1, rep) => SecondAttemptShows(cfg, c1, s, call, maxAge, rep, env,
          PublishAfterError(first.ctl.dev, first.outcome.error, env.reread).notices, n);
    }
  }

  lemma SecondAttemptShows(cfg: Config, c1: Control, s: Coord, call: ControlCall, maxAge: Option<int>,
      rep: WriteReport, env: RunEnv, notices: seq<Notice>, n: Component)
    requires !call.Operate? && s.data.Some? && n in Names(call)
    requires var second := Perform(cfg, c1, call, maxAge, env.second);
             second.outcome.Ok? && Merged(rep, second.outcome.value).verified
                                && Merged(rep, second.outcome.value).writes != []
    ensures var ran := PlanAgain(cfg, c1, call, maxAge, rep, env, notices);
            Shows(Publishing.PublishAll(s, ran.notices), n, WasRead)
  {
    var second := Perform(cfg, c1, call, maxAge, env.second);
    WholeReportNamesAll(cfg, c1, call, maxAge, env.second);
    CallTellsItsPlan(cfg, c1, call, maxAge, env.second);
    MergedNamesAll(rep, second.outcome.value, AsSet(Names(call)));
    FinishShows(second.ctl, s, Merged(rep, second.outcome.value), env.publish, notices, n);
  }

  /** And one that ends in a failed verification shows what it read back, whatever was asked for. */
  lemma FailedVerificationIsShown(cfg: Config, c: Control, s: Coord, call: ControlCall, maxAge: Option<int>,
      env: RunEnv, n: Component)
    requires !call.Operate? && s.data.Some? && n in Names(call)
    ensures var ran := AsyncRun(cfg, c, call, true, maxAge, env);
            ran.result.Err? && ran.result.error.VerificationFailed? ==>
              Shows(Publishing.PublishAll(s, ran.notices), n, WasRead)
  {
    var ran, first := AsyncRun(cfg, c, call, true, maxAge, env), Perform(cfg, c, call, maxAge, env.first);
    RunCases(cfg, c, call, maxAge, env);
    if ran.result.Ok? || !ran.result.error.VerificationFailed? { return; }
    match EndingOf(cfg, c, call, maxAge, env) {
      case Once =>
      case GaveUp => FailedOnlyAttemptShows(cfg, c, s, call, maxAge, env.first, env.reread, n);
      case Twice(c1, rep) => FailedSecondAttemptShows(cfg, c1, s, call, maxAge, rep, env,
          PublishAfterError(first.ctl.dev, first.outcome.error, env.reread).notices, n);
    }
  }

  lemma FailedSecondAttemptShows(cfg: Config, c1: Control, s: Coord, call: ControlCall, maxAge: Option<int>,
      rep: WriteReport, env: RunEnv, notices: seq<Notice>, n: Component)
    requires !call.Operate? && s.data.Some? && n in Names(call)
    ensures var ran := PlanAgain(cfg, c1, call, maxAge, rep, env, notices);
            ran.result.Err? && ran.result.error.VerificationFailed? ==>
              Shows(Publishing.PublishAll(s, ran.notices), n, WasRead)
  {
    var second := Perform(cfg, c1, call, maxAge, env.second);
    if second.outcome.Err? && second.outcome.error.VerificationFailed? {
      FailedAttemptShows(cfg, c1, s, call, maxAge, env.second, env.again, notices, n);
    }
  }

  lemma FailedOnlyAttemptShows(cfg: Config, c: Control, s: Coord, call: ControlCall, maxAge: Option<int>, env: CallEnv,
      answers: seq<ReadEnv>, n: Component)
    requires !call.Operate? && s.data.Some? && n in Names(call)
    requires var r := Perform(cfg, c, call, maxAge, env); r.outcome.Err? && r.outcome.error.VerificationFailed?
    ensures var r := Perform(cfg, c, call, maxAge, env);
            Shows(Publishing.PublishAll(s, PublishAfterError(r.ctl.dev, r.outcome.error, answers).notices), n, WasRead)
  {
    var r := Perform(cfg, c, call, maxAge, env);
    var notices := PublishAfterError(r.ctl.dev, r.outcome.error, answers).notices;
    FailedAttemptShows(cfg, c, s, call, maxAge, env, answers, [], n);
    assert [] + notices == notices;
  }

  lemma FailedAttemptShows(cfg: Config, c: Control, s: Coord, call: ControlCall, maxAge: Option<int>, env: CallEnv,
      answers: seq<ReadEnv>, notices: seq<Notice>, n: Component)
    requires !call.Operate? && s.data.Some? && n in Names(call)
    requires var r := Perform(cfg, c, call, maxAge, env); r.outcome.Err? && r.outcome.error.VerificationFailed?
    ensures var r := Perform(cfg, c, call, maxAge, env);
            var published := PublishAfterError(r.ctl.dev, r.outcome.error, answers);
            Shows(Publishing.PublishAll(s, notices + published.notices), n, WasRead)
  {
    var r := Perform(cfg, c, call, maxAge, env);
    WholeReportNamesAll(cfg, c, call, maxAge, env);
    PublishedLast(s, notices, Notice(Snapshot(TouchedBy(r.outcome.error.written)), r.ctl.dev), n, WasRead);
  }

  /**
   A wrapped call whose only attempt failed otherwise, with a report: each component its error
   names is shown by the answer of the re-read, or as failed if that raised.
   */
  lemma FailedRunIsShown(cfg: Config, c: Control, s: Coord, call: ControlCall, maxAge: Option<int>, env: RunEnv, i: nat)
    requires !call.Operate? && s.data.Some? && !PlansAgain(cfg, c, call, maxAge, env)
    requires var outcome := Perform(cfg, c, call, maxAge, env.first).outcome;
             && outcome.Err? && !outcome.error.VerificationFailed? && ReportOf(outcome.error).Some?
             && i < |Suspects(outcome.error, ReportOf(outcome.error).value)|
    ensures var first := Perform(cfg, c, call, maxAge, env.first);
            var names := Suspects(first.outcome.error, ReportOf(first.outcome.error).value);
            var raised := Refresh(first.ctl.dev, names, env.reread).raised;
            Shows(Publishing.PublishAll(s, AsyncRun(cfg, c, call, true, maxAge, env).notices), names[i],
                  if raised.Some? then HasFailed(raised.value) else NewsAt(env.reread, i))
  {
    var first := Perform(cfg, c, call, maxAge, env.first);
    var e := first.outcome.error;
    EndsTwiceIff(cfg, c, call, maxAge, env);
    RunCases(cfg, c, call, maxAge, env);
    SuspectsAreGuarded(cfg, c, call, maxAge, env.first);
    RereadIsShown(first.ctl.dev, s, TouchedBy(ReportOf(e).value) + FieldOf(e), env.reread, i);
  }

  /** An unverified call that returned in one attempt and wrote something has all it guards read again, and shown so. */
  lemma UnverifiedRunIsShown(cfg: Config, c: Control, s: Coord, call: ControlCall, maxAge: Option<int>, env: RunEnv,
      i: nat)
    requires !call.Operate? && s.data.Some? && i < |Sorted(AsSet(Names(call)))|
    requires var outcome := Perform(cfg, c, call, maxAge, env.first).outcome;
             outcome.Ok? && !outcome.value.verified && outcome.value.writes != []
    ensures var names := Sorted(AsSet(Names(call)));
            var raised := Refresh(Perform(cfg, c, call, maxAge, env.first).ctl.dev, names, env.publish).raised;
            Shows(Publishing.PublishAll(s, AsyncRun(cfg, c, call, true, maxAge, env).notices), names[i],
                  if raised.Some? then HasFailed(raised.value) else NewsAt(env.publish, i))
  {
    var first := Perform(cfg, c, call, maxAge, env.first);
    WholeReportNamesAll(cfg, c, call, maxAge, env.first);
    NamesAreGuarded(call);
    RereadIsShown(first.ctl.dev, s, AsSet(Names(call)), env.publish, i);
    var again := RereadNames(first.ctl.dev, AsSet(Names(call)), env.publish).notices;
    assert [] + again == again;
    assert AsyncRun(cfg, c, call, true, maxAge, env).notices == [] + again;
  }

  /** A call that returned in one attempt and wrote nothing publishes nothing and reads nothing more. */
  lemma WriteFreeRunIsQuiet(cfg: Config, c: Control, call: ControlCall, maxAge: Option<int>, env: RunEnv)
    requires var outcome := Perform(cfg, c, call, maxAge, env.first).outcome;
             outcome.Ok? && outcome.value.writes == []
    ensures var ran := AsyncRun(cfg, c, call, true, maxAge, env);
            ran.notices == [] && ran.ctl == Perform(cfg, c, call, maxAge, env.first).ctl
  {
  }
}
