/**
 What a call tells about itself: its report interleaves what it wrote and what it skipped of the
 plan, up to where it stopped; its error says how the link answered the request it stopped at;
 and the grace clock moves with the EMS mode writes the link acknowledged.
 */
module Reports {
  import opened Wrappers
  import opened Registers
  import opened Devices
  import opened Planner
  import opened Execution
  import Polling
  import opened Honesty
  import StepFacts
  import opened Traffic
  import Repetition
  import opened Recovery

  // -- one step ------------------------------------------------------------------------------

  /** The three ways a step goes. */
  lemma StepTells(cfg: Config, p: Progress, s: Step)
    requires p.error.None?
    ensures var q := DoStep(cfg, p, s);
            if Skipped(cfg, p.ctl, s) then q == p.(report := p.report.(skipped := p.report.skipped + [s.reg]))
            else if Encode(s.reg, s.target).None? then q == p.(error := Some(InvalidWriteValue(s.reg, p.report)))
            else
              && q.rest == RestExchanges(p.rest) && q.report.skipped == p.report.skipped
              && q.ctl.dev.sent == p.ctl.dev.sent + [Request(s.reg, s.target, p.ctl.dev.wire, q.error.None?)]
              && Written(q.report.writes)
                 == Written(p.report.writes) + (if q.error.None? then [(s.reg, s.target)] else [])
  {
    if !Skipped(cfg, p.ctl, s) && Encode(s.reg, s.target).Some? {
      WriteStepSends(cfg, p, s, Encode(s.reg, s.target).value);
    }
  }

  /** How a write ends, by its answer. */
  lemma WriteEnds(cfg: Config, p: Progress, s: Step, w: Word)
    requires p.error.None?
    ensures var q, reply := WriteStep(cfg, p, s, w), FirstExchange(p.rest).reply;
            && (q.error.None? <==> reply == Acked)
            && (q.error.Some? && q.error.value.WriteRejected? <==> reply.Failed? && reply.error.ExceptionCode?)
            && (q.error.Some? && q.error.value.WriteUncertain? <==>
                reply == Failed(TimedOut) || reply == Failed(ConnectionLost))
            && (q.error.Some? ==> RegOf(q.error.value) == Some(s.reg))
            && q.report.uncertain == p.report.uncertain
                 + (if q.error.Some? && q.error.value.WriteUncertain? then [s.reg] else [])
  {
  }

  /** The register an error of the step loop stopped at. */
  function RegOf(e: ControlError): Option<Register> {
    match e
    case InvalidWriteValue(field, _) => Some(field)
    case WriteRejected(field, _) => Some(field)
    case WriteUncertain(field, _) => Some(field)
    case _ => None
  }

  // -- the report of the step loop -------------------------------------------------------------

  /** The registers and targets of the steps that were written. */
  function WrittenOf(steps: seq<Step>, wrote: seq<bool>): seq<(Register, Value)>
    requires |steps| == |wrote|
  {
    if steps == [] then []
    else (if wrote[0] then [(steps[0].reg, steps[0].target)] else []) + WrittenOf(steps[1..], wrote[1..])
  }

  /** The registers of the steps that were skipped. */
  function SkippedOf(steps: seq<Step>, wrote: seq<bool>): seq<Register>
    requires |steps| == |wrote|
  {
    if steps == [] then [] else (if wrote[0] then [] else [steps[0].reg]) + SkippedOf(steps[1..], wrote[1..])
  }

  /** `q` follows `p` by doing the first `|wrote|` steps, and stops there unless that is all of them. */
  ghost predicate Follows(p: Progress, q: Progress, steps: seq<Step>, wrote: seq<bool>) {
    && |wrote| <= |steps|
    && Written(q.report.writes) == Written(p.report.writes) + WrittenOf(steps[..|wrote|], wrote)
    && q.report.skipped == p.report.skipped + SkippedOf(steps[..|wrote|], wrote)
    && (q.error.None? <==> |wrote| == |steps|)
    && (q.error.Some? ==> RegOf(q.error.value) == Some(steps[|wrote|].reg))
    && q.report.uncertain == p.report.uncertain
         + (if q.error.Some? && q.error.value.WriteUncertain? then [steps[|wrote|].reg] else [])
  }

  /** A step that raised ends the loop where it stands. */
  lemma StepStops(cfg: Config, p: Progress, steps: seq<Step>)
    requires steps != [] && p.error.None? && DoStep(cfg, p, steps[0]).error.Some?
    ensures Follows(p, DoSteps(cfg, p, steps), steps, [])
  {
    var s := steps[0];
    StepTells(cfg, p, s);
    StepFacts.ErrorEnds(cfg, DoStep(cfg, p, s), steps[1..]);
    if Encode(s.reg, s.target).Some? { WriteEnds(cfg, p, s, Encode(s.reg, s.target).value); }
    assert steps[..0] == [];
  }

  /** A step that raised nothing was written or skipped. */
  lemma StepGoesOn(cfg: Config, p: Progress, s: Step) returns (wrote: bool)
    requires p.error.None? && DoStep(cfg, p, s).error.None?
    ensures var q := DoStep(cfg, p, s);
            && Written(q.report.writes) == Written(p.report.writes) + (if wrote then [(s.reg, s.target)] else [])
            && q.report.skipped == p.report.skipped + (if wrote then [] else [s.reg])
            && q.report.uncertain == p.report.uncertain
  {
    wrote := !Skipped(cfg, p.ctl, s);
    StepTells(cfg, p, s);
    if wrote { WriteEnds(cfg, p, s, Encode(s.reg, s.target).value); }
  }

  lemma FollowsOn(p: Progress, p1: Progress, q: Progress, steps: seq<Step>, first: bool, rest: seq<bool>)
    requires steps != [] && Follows(p1, q, steps[1..], rest)
    requires Written(p1.report.writes)
          == Written(p.report.writes) + (if first then [(steps[0].reg, steps[0].target)] else [])
    requires p1.report.skipped == p.report.skipped + (if first then [] else [steps[0].reg])
    requires p1.report.uncertain == p.report.uncertain
    ensures Follows(p, q, steps, [first] + rest)
  {
    var wrote := [first] + rest;
    assert steps[..|wrote|][1..] == steps[1..][..|rest|] && wrote[1..] == rest;
    assert steps[..|wrote|][0] == steps[0];
  }

  /** The loop's report interleaves what it wrote and skipped of the plan, up to where it stopped. */
  lemma {:induction false} LoopFollows(cfg: Config, p: Progress, steps: seq<Step>) returns (wrote: seq<bool>)
    requires p.error.None?
    ensures Follows(p, DoSteps(cfg, p, steps), steps, wrote)
    decreases |steps|
  {
    wrote := [];
    if steps != [] {
      var p1 := DoStep(cfg, p, steps[0]);
      if p1.error.Some? {
        StepStops(cfg, p, steps);
      } else {
        var first := StepGoesOn(cfg, p, steps[0]);
        var rest := LoopFollows(cfg, p1, steps[1..]);
        FollowsOn(p, p1, DoSteps(cfg, p, steps), steps, first, rest);
        wrote := [first] + rest;
      }
    }
  }

  // -- the report of a call -----------------------------------------------------------------------

  /** The report interleaves the first steps of the plan; nothing else is in it. */
  ghost predicate Tells(rep: WriteReport, steps: seq<Step>, wrote: seq<bool>) {
    && |wrote| <= |steps|
    && Written(rep.writes) == WrittenOf(steps[..|wrote|], wrote)
    && rep.skipped == SkippedOf(steps[..|wrote|], wrote)
  }

  /** What the outcome says about where the plan stopped. */
  ghost predicate StopsAt(outcome: Result<WriteReport, ControlError>, rep: WriteReport, steps: seq<Step>, k: nat) {
    match outcome
    case Ok(_) => k == |steps| && rep.uncertain == []
    case Err(WriteUncertain(field, _)) => k < |steps| && field == steps[k].reg && rep.uncertain == [field]
    case Err(WriteRejected(field, _)) => k < |steps| && field == steps[k].reg && rep.uncertain == []
    case Err(InvalidWriteValue(field, _)) => k < |steps| && field == steps[k].reg && rep.uncertain == []
    case Err(_) => k == |steps| && rep.uncertain == []
  }

  /** The report of an execution is the one of its step loop; its error is the loop's, or the read-back's own. */
  lemma ExecutionReports(cfg: Config, c: Control, action: Action, steps: seq<Step>, verify: bool, env: CallEnv)
    ensures var p, r :=
            DoSteps(cfg, Start(c, action, env.exchanges), steps), Execute(cfg, c, action, steps, verify, env);
            && (Outcome(r) == Some(p.report) || Outcome(r) == Some(p.report.(verified := true)))
            && (p.error.Some? ==> r.outcome == Err(p.error.value))
            && (p.error.None? && r.outcome.Err? ==>
                  r.outcome.error.SettingsUnavailable? || r.outcome.error.VerificationFailed?)
  {
    var p := DoSteps(cfg, Start(c, action, env.exchanges), steps);
    LoopErrorCarriesReport(cfg, c, action, steps, env.exchanges);
    if p.error.None? && verify && p.report.writes != [] { ReadBackReportsLoop(p, steps, env); }
  }

  lemma LoopErrorCarriesReport(cfg: Config, c: Control, action: Action, steps: seq<Step>, xs: seq<Exchange>)
    ensures var p := DoSteps(cfg, Start(c, action, xs), steps);
            p.error.Some? ==> ReportOf(p.error.value) == Some(p.report)
  {
    StepsMention(cfg, Start(c, action, xs), steps, RegsOf(steps));
  }

  lemma ReadBackReportsLoop(p: Progress, steps: seq<Step>, env: CallEnv)
    ensures var r := ReadBack(p, steps, env);
            && (Outcome(r) == Some(p.report) || Outcome(r) == Some(p.report.(verified := true)))
            && (r.outcome.Err? ==> r.outcome.error.SettingsUnavailable? || r.outcome.error.VerificationFailed?)
  {
    ReadBackEnds(p, steps, env);
  }

  lemma ExecutionTells(cfg: Config, c: Control, action: Action, steps: seq<Step>, verify: bool, env: CallEnv)
      returns (wrote: seq<bool>)
    ensures var r := Execute(cfg, c, action, steps, verify, env);
            Outcome(r).Some? && Tells(Outcome(r).value, steps, wrote)
                             && StopsAt(r.outcome, Outcome(r).value, steps, |wrote|)
  {
    var p0 := Start(c, action, env.exchanges);
    var p := DoSteps(cfg, p0, steps);
    wrote := LoopFollows(cfg, p0, steps);
    ExecutionReports(cfg, c, action, steps, verify, env);
  }

  /** The report is headed by what was asked for, and when it was planned. */
  predicate IsOfCall(rep: WriteReport, call: ControlCall, at: int) {
    && rep.at == at
    && match call
       case ApplyMode(want, _) => rep.action == BatteryAction(want.mode)
       case LimitExport(_, _, _) => rep.action == ExportAction
       case LimitPv(_, _) => rep.action == PvAction
       case Operate(command) => rep.action == StartStopAction(command)
  }

  lemma {:induction false} LoopKeepsHeading(cfg: Config, p: Progress, steps: seq<Step>)
    ensures var q := DoSteps(cfg, p, steps); q.report.action == p.report.action && q.report.at == p.report.at
    decreases |steps|
  {
    if steps != [] && p.error.None? { LoopKeepsHeading(cfg, DoStep(cfg, p, steps[0]), steps[1..]); }
  }

  /**
   However a guarded call ends, the report it returns or raises with interleaves the writes and
   the skips of its plan, in plan order, up to the step it stopped at: all of them if it returned
   or failed at the read-back. Only the step without an answer is uncertain.
   */
  lemma CallTellsItsPlan(cfg: Config, c: Control, call: ControlCall, maxAge: Option<int>, env: CallEnv)
    requires !call.Operate?
    ensures var d := Prepared(cfg, c.dev, call, maxAge, env).0;
            var r := Perform(cfg, c, call, maxAge, env);
            Outcome(r).Some? ==>
              && StepsOf(cfg, d, call).Ok?
              && IsOfCall(Outcome(r).value, call, d.clock)
              && exists wrote :: Tells(Outcome(r).value, StepsOf(cfg, d, call).value, wrote)
                                 && StopsAt(r.outcome, Outcome(r).value, StepsOf(cfg, d, call).value, |wrote|)
  {
    GuardedCases(cfg, c, call, maxAge, env);
    var (d, ok) := Prepared(cfg, c.dev, call, maxAge, env);
    if ok && StepsOf(cfg, d, call).Ok? {
      var steps := StepsOf(cfg, d, call).value;
      var wrote := ExecutionTells(cfg, c.(dev := d), ActionOf(call), steps, call.verify, env);
      ExecutionReports(cfg, c.(dev := d), ActionOf(call), steps, call.verify, env);
      LoopKeepsHeading(cfg, Start(c.(dev := d), ActionOf(call), env.exchanges), steps);
    }
  }

  // -- the components a report names ----------------------------------------------------------------

  function ComponentsOfSteps(steps: seq<Step>): set<Component> { set s | s in steps :: ComponentOf(s.reg) }

  ghost predicate PairsName(pairs: seq<(Register, Value)>, n: Component) {
    exists k :: 0 <= k < |pairs| && ComponentOf(pairs[k].0) == n
  }

  lemma {:induction false} InterleavedNames(steps: seq<Step>, wrote: seq<bool>, n: Component)
    requires |steps| == |wrote|
    ensures n in ComponentsOfSteps(steps) <==>
            PairsName(WrittenOf(steps, wrote), n) || n in ComponentsOf(SkippedOf(steps, wrote))
    decreases |steps|
  {
    if steps != [] {
      var s, w, k := steps[0], WrittenOf(steps[1..], wrote[1..]), SkippedOf(steps[1..], wrote[1..]);
      InterleavedNames(steps[1..], wrote[1..], n);
      assert steps == [s] + steps[1..];
      assert n in ComponentsOfSteps(steps) <==> n == ComponentOf(s.reg) || n in ComponentsOfSteps(steps[1..]);
      if wrote[0] {
        assert WrittenOf(steps, wrote) == [(s.reg, s.target)] + w && SkippedOf(steps, wrote) == k;
        assert forall j :: 0 <= j < |w| ==> WrittenOf(steps, wrote)[j + 1] == w[j];
        assert WrittenOf(steps, wrote)[0].0 == s.reg;
      } else {
        assert WrittenOf(steps, wrote) == w && SkippedOf(steps, wrote) == [s.reg] + k;
      }
    }
  }

  lemma {:induction false} WrittenNames(writes: seq<WriteRecord>, n: Component)
    ensures (exists w :: w in writes && ComponentOf(w.reg) == n) <==> PairsName(Written(writes), n)
    ensures |Written(writes)| == |writes|
    decreases |writes|
  {
    if writes != [] {
      var init, last := writes[..|writes| - 1], writes[|writes| - 1];
      WrittenNames(init, n);
      assert writes == init + [last];
      var k := |init|;
      assert Written(writes)[k] == (last.reg, last.value);
      assert forall j :: 0 <= j < k ==> Written(writes)[j] == Written(init)[j];
    }
  }

  /** A report names the components of the steps it interleaves, and of the one that went unanswered. */
  lemma TellsNames(rep: WriteReport, steps: seq<Step>, wrote: seq<bool>)
    requires Tells(rep, steps, wrote)
    ensures TouchedBy(rep) == ComponentsOfSteps(steps[..|wrote|]) + ComponentsOf(rep.uncertain)
  {
    forall n ensures n in TouchedBy(rep) <==> n in ComponentsOfSteps(steps[..|wrote|]) + ComponentsOf(rep.uncertain) {
      TellsName(rep, steps, wrote, n);
    }
  }

  lemma TellsName(rep: WriteReport, steps: seq<Step>, wrote: seq<bool>, n: Component)
    requires Tells(rep, steps, wrote)
    ensures n in TouchedBy(rep) <==> n in ComponentsOfSteps(steps[..|wrote|]) || n in ComponentsOf(rep.uncertain)
  {
    WrittenNames(rep.writes, n);
    InterleavedNames(steps[..|wrote|], wrote, n);
    assert n in (set w | w in rep.writes :: ComponentOf(w.reg))
      <==> exists w :: w in rep.writes && ComponentOf(w.reg) == n;
  }

  // -- the error of a call, by the answers of the link ---------------------------------------------

  /** The answer of the i-th request of a call. */
  function ReplyAt(xs: seq<Exchange>, i: nat): Reply { if i < |xs| then xs[i].reply else Acked }

  lemma ReplyAfterFirst(xs: seq<Exchange>, i: nat)
    ensures ReplyAt(RestExchanges(xs), i) == ReplyAt(xs, i + 1)
    ensures FirstExchange(xs).reply == ReplyAt(xs, 0)
  {
  }

  predicate AckedUpTo(xs: seq<Exchange>, n: nat) { forall i :: 0 <= i < n ==> ReplyAt(xs, i) == Acked }

  /** The loop ended after `n` requests as their answers say. */
  ghost predicate EndsByReply(xs: seq<Exchange>, n: nat, error: Option<ControlError>) {
    match error
    case None => AckedUpTo(xs, n)
    case Some(InvalidWriteValue(_, _)) => AckedUpTo(xs, n)
    case Some(WriteRejected(_, _)) =>
      && n > 0 && AckedUpTo(xs, n - 1)
      && ReplyAt(xs, n - 1).Failed? && ReplyAt(xs, n - 1).error.ExceptionCode?
    case Some(WriteUncertain(_, _)) =>
      && n > 0 && AckedUpTo(xs, n - 1)
      && (ReplyAt(xs, n - 1) == Failed(TimedOut) || ReplyAt(xs, n - 1) == Failed(ConnectionLost))
    case Some(_) => false
  }

  lemma OneMoreReply(xs: seq<Exchange>, n: nat, error: Option<ControlError>)
    requires FirstExchange(xs).reply == Acked && EndsByReply(RestExchanges(xs), n, error)
    ensures EndsByReply(xs, n + 1, error)
  {
    ReplyAfterFirst(xs, 0);
    forall i | 0 <= i < n ensures ReplyAt(xs, i + 1) == ReplyAt(RestExchanges(xs), i) { ReplyAfterFirst(xs, i); }
    AckedOneMore(xs, n);
    if n > 0 { AckedOneMore(xs, n - 1); }
  }

  lemma AckedOneMore(xs: seq<Exchange>, n: nat)
    requires ReplyAt(xs, 0) == Acked
    requires forall i :: 0 <= i < n ==> ReplyAt(xs, i + 1) == ReplyAt(RestExchanges(xs), i)
    ensures AckedUpTo(RestExchanges(xs), n) ==> AckedUpTo(xs, n + 1)
  {
    if AckedUpTo(RestExchanges(xs), n) {
      forall j | 0 <= j < n + 1 ensures ReplyAt(xs, j) == Acked {
        if j > 0 { assert ReplyAt(xs, (j - 1) + 1) == ReplyAt(RestExchanges(xs), j - 1); }
      }
    }
  }

  /** From the record `before` to `now` requests were sent, and answered as `error` says. */
  ghost predicate SentUntil(xs: seq<Exchange>, before: seq<Request>, now: seq<Request>, error: Option<ControlError>) {
    |before| <= |now| && EndsByReply(xs, |now| - |before|, error)
  }

  /** One step: no request, or one, answered as the first exchange says. */
  lemma StepEndsByReply(cfg: Config, p: Progress, s: Step)
    requires p.error.None?
    ensures var q := DoStep(cfg, p, s);
            && SentUntil(p.rest, p.ctl.dev.sent, q.ctl.dev.sent, q.error)
            && (q.error.None? ==> GoesOn(p.rest, q.rest, p.ctl.dev.sent, q.ctl.dev.sent))
  {
    StepTells(cfg, p, s);
    ReplyAfterFirst(p.rest, 0);
    if !Skipped(cfg, p.ctl, s) && Encode(s.reg, s.target).Some? {
      WriteEnds(cfg, p, s, Encode(s.reg, s.target).value);
    }
  }

  /** Nothing was sent, or one request that was acknowledged. */
  predicate GoesOn(xs: seq<Exchange>, rest: seq<Exchange>, before: seq<Request>, now: seq<Request>) {
    || (|now| == |before| && rest == xs)
    || (|now| == |before| + 1 && rest == RestExchanges(xs) && FirstExchange(xs).reply == Acked)
  }

  /** What follows a step that raised nothing. */
  lemma JoinReplies(xs: seq<Exchange>, rest: seq<Exchange>, before: seq<Request>, middle: seq<Request>,
      now: seq<Request>, error: Option<ControlError>)
    requires GoesOn(xs, rest, before, middle) && SentUntil(rest, middle, now, error)
    ensures SentUntil(xs, before, now, error)
  {
    if |middle| > |before| { OneMoreReply(xs, |now| - |middle|, error); }
  }

  /**
   The loop completes only if every request was acknowledged, and raises by the answer of its
   last one: refused for an exception, uncertain for a timeout or a lost connection.
   */
  lemma {:induction false} LoopEndsByReply(cfg: Config, p: Progress, steps: seq<Step>, q: Progress)
    requires p.error.None? && q == DoSteps(cfg, p, steps)
    ensures SentUntil(p.rest, p.ctl.dev.sent, q.ctl.dev.sent, q.error)
    decreases |steps|
  {
    if steps != [] {
      var p1 := DoStep(cfg, p, steps[0]);
      StepEndsByReply(cfg, p, steps[0]);
      if p1.error.Some? {
        StepFacts.ErrorEnds(cfg, p1, steps[1..]);
      } else {
        LoopEndsByReply(cfg, p1, steps[1..], q);
        JoinReplies(p.rest, p1.rest, p.ctl.dev.sent, p1.ctl.dev.sent, q.ctl.dev.sent, q.error);
      }
    }
  }

  /** The error of the step loop that a call's outcome stands for; the read-back's own come after a completed loop. */
  function LoopError(outcome: Result<WriteReport, ControlError>): Option<ControlError> {
    match outcome
    case Ok(_) => None
    case Err(SettingsUnavailable(Some(_))) => None
    case Err(VerificationFailed(_, _)) => None
    case Err(e) => Some(e)
  }

  lemma ExecutionEndsByReply(cfg: Config, c: Control, action: Action, steps: seq<Step>, verify: bool, env: CallEnv)
    ensures var r := Execute(cfg, c, action, steps, verify, env);
            SentUntil(env.exchanges, c.dev.sent, r.ctl.dev.sent, LoopError(r.outcome))
  {
    var p0 := Start(c, action, env.exchanges);
    var p := DoSteps(cfg, p0, steps);
    LoopEndsByReply(cfg, p0, steps, p);
    Repetition.ExecuteKeepsSent(cfg, c, action, steps, verify, env);
    if p.error.None? && verify && p.report.writes != [] { ReadBackEnds(p, steps, env); }
  }

  /**
   However a guarded call that got to its writes ends, its outcome says what the link answered:
   it returns, or fails at the read-back, only if every request was acknowledged; it is refused
   only by an exception, and uncertain only after a timeout or a lost connection, of its last one.
   */
  lemma CallEndsByReply(cfg: Config, c: Control, call: ControlCall, maxAge: Option<int>, env: CallEnv)
    requires !call.Operate?
    ensures var r := Perform(cfg, c, call, maxAge, env);
            Outcome(r).Some? ==> SentUntil(env.exchanges, c.dev.sent, r.ctl.dev.sent, LoopError(r.outcome))
  {
    GuardedCases(cfg, c, call, maxAge, env);
    PreparingSendsNothing(cfg, c.dev, call, maxAge, env);
    var (d, ok) := Prepared(cfg, c.dev, call, maxAge, env);
    if ok && StepsOf(cfg, d, call).Ok? {
      ExecutionEndsByReply(cfg, c.(dev := d), ActionOf(call), StepsOf(cfg, d, call).value, call.verify, env);
    }
  }

  // -- the grace clock --------------------------------------------------------------------------------

  /** An EMS mode request was acknowledged since the record was `before`. */
  ghost predicate ModeAcked(before: seq<Request>, now: seq<Request>) {
    exists k :: |before| <= k < |now| && now[k].reg == EmsModeReg && now[k].acked
  }

  /**
   From `c` to `c1` the grace clock was set if and only if an EMS mode request was acknowledged,
   and to a moment in between.
   */
  ghost predicate GraceMoves(c: Control, c1: Control) {
    && c.dev.sent <= c1.dev.sent && c.dev.clock <= c1.dev.clock
    && (if ModeAcked(c.dev.sent, c1.dev.sent)
        then c1.emsWrittenAt.Some? && c.dev.clock <= c1.emsWrittenAt.value <= c1.dev.clock
        else c1.emsWrittenAt == c.emsWrittenAt)
  }

  lemma GraceMovesTrans(a: Control, b: Control, c: Control)
    requires GraceMoves(a, b) && GraceMoves(b, c)
    ensures GraceMoves(a, c)
  {
    if ModeAcked(b.dev.sent, c.dev.sent) {
      var k :| |b.dev.sent| <= k < |c.dev.sent| && c.dev.sent[k].reg == EmsModeReg && c.dev.sent[k].acked;
      assert ModeAcked(a.dev.sent, c.dev.sent);
    } else if ModeAcked(a.dev.sent, b.dev.sent) {
      var k :| |a.dev.sent| <= k < |b.dev.sent| && b.dev.sent[k].reg == EmsModeReg && b.dev.sent[k].acked;
      assert c.dev.sent[k] == b.dev.sent[k];
      assert ModeAcked(a.dev.sent, c.dev.sent);
    }
  }

  /** Reads move no grace clock. */
  lemma QuietGrace(c: Control, c1: Control)
    requires c1.emsWrittenAt == c.emsWrittenAt && c1.dev.sent == c.dev.sent && c.dev.clock <= c1.dev.clock
    ensures GraceMoves(c, c1)
  {
  }

  lemma TransmitTakesTime(mirrors: Option<int>, d: Device, r: Register, v: Value, w: Word, x: Exchange)
    ensures d.clock <= Transmit(mirrors, d, r, v, w, x).clock
  {
    DisturbUndisturbed(d, x.before);
    DisturbUndisturbed(Deliver(mirrors, Disturb(d, x.before), r, v, w, x), x.after);
  }

  /** An acknowledged write of the EMS mode sets the grace clock to the moment of its answer. */
  lemma WriteMovesGrace(cfg: Config, p: Progress, s: Step, w: Word)
    requires p.error.None?
    ensures var q := WriteStep(cfg, p, s, w);
            && GraceMoves(p.ctl, q.ctl)
            && (q.error.None? && s.reg == EmsModeReg ==> q.ctl.emsWrittenAt == Some(q.ctl.dev.clock))
  {
    var q := WriteStep(cfg, p, s, w);
    WriteStepSends(cfg, p, s, w);
    WriteStepDevice(cfg, p, s, w);
    TransmitTakesTime(cfg.mirrors, p.ctl.dev, s.reg, s.target, w, FirstExchange(p.rest));
    GraceByLast(p.ctl, q.ctl, Request(s.reg, s.target, p.ctl.dev.wire, q.error.None?));
  }

  lemma GraceByLast(c: Control, c1: Control, r: Request)
    requires c1.dev.sent == c.dev.sent + [r] && c.dev.clock <= c1.dev.clock
    requires c1.emsWrittenAt == if r.reg == EmsModeReg && r.acked then Some(c1.dev.clock) else c.emsWrittenAt
    ensures GraceMoves(c, c1)
  {
    assert c1.dev.sent[|c.dev.sent|] == r;
  }

  lemma {:induction false} LoopMovesGrace(cfg: Config, p: Progress, steps: seq<Step>)
    requires p.error.None?
    ensures GraceMoves(p.ctl, DoSteps(cfg, p, steps).ctl)
    decreases |steps|
  {
    if steps == [] { return; }
    var s, p1 := steps[0], DoStep(cfg, p, steps[0]);
    if Skipped(cfg, p.ctl, s) || Encode(s.reg, s.target).None? {
      QuietGrace(p.ctl, p1.ctl);
    } else {
      WriteMovesGrace(cfg, p, s, Encode(s.reg, s.target).value);
    }
    if p1.error.Some? {
      StepFacts.ErrorEnds(cfg, p1, steps[1..]);
    } else {
      LoopMovesGrace(cfg, p1, steps[1..]);
      GraceMovesTrans(p.ctl, p1.ctl, DoSteps(cfg, p, steps).ctl);
    }
  }

  lemma ReadBackKeepsGrace(p: Progress, steps: seq<Step>, env: CallEnv)
    ensures GraceMoves(p.ctl, ReadBack(p, steps, env).ctl)
  {
    var d := Disturb(p.ctl.dev, env.settle);
    DisturbUndisturbed(p.ctl.dev, env.settle);
    Polling.RefreshMakesFresh(d, Touched(steps), env.readback);
    UndisturbedTrans(p.ctl.dev, d, Polling.Refresh(d, Touched(steps), env.readback).dev);
    QuietGrace(p.ctl, ReadBack(p, steps, env).ctl);
  }

  lemma ExecutionMovesGrace(cfg: Config, c: Control, action: Action, steps: seq<Step>, verify: bool, env: CallEnv)
    ensures GraceMoves(c, Execute(cfg, c, action, steps, verify, env).ctl)
  {
    var p := DoSteps(cfg, Start(c, action, env.exchanges), steps);
    LoopMovesGrace(cfg, Start(c, action, env.exchanges), steps);
    if p.error.None? && verify && p.report.writes != [] {
      ReadBackKeepsGrace(p, steps, env);
      GraceMovesTrans(c, p.ctl, ReadBack(p, steps, env).ctl);
    }
  }

  lemma CallMovesGrace(cfg: Config, c: Control, call: ControlCall, maxAge: Option<int>, env: CallEnv)
    ensures GraceMoves(c, Perform(cfg, c, call, maxAge, env).ctl)
  {
    if call.Operate? {
      CommandMovesGrace(cfg, c, call.command, env);
    } else {
      var (d, ok) := Prepared(cfg, c.dev, call, maxAge, env);
      PreparedEffect(cfg, c.dev, call, maxAge, env, {});
      QuietGrace(c, c.(dev := d));
      if ok && StepsOf(cfg, d, call).Ok? {
        var steps := StepsOf(cfg, d, call).value;
        ExecutionMovesGrace(cfg, c.(dev := d), ActionOf(call), steps, call.verify, env);
        GraceMovesTrans(c, c.(dev := d), Perform(cfg, c, call, maxAge, env).ctl);
      }
    }
  }

  lemma CommandMovesGrace(cfg: Config, c: Control, command: StartStop, env: CallEnv)
    ensures GraceMoves(c, SendCommand(cfg, c, command, env).ctl)
  {
    var c0 := c.(dev := Disturb(c.dev, env.waiting));
    DisturbUndisturbed(c.dev, env.waiting);
    QuietGrace(c, c0);
    var p := Start(c0, StartStopAction(command), env.exchanges);
    WriteMovesGrace(cfg, p, Step(StartStopReg, Operation(command), Exactly), StartStopCode(command));
    GraceMovesTrans(c, c0, SendCommand(cfg, c, command, env).ctl);
  }

  /**
   Over any run of polls and calls, verified or not: the grace clock has moved if and only if an
   EMS mode write was acknowledged meanwhile, and then shows a moment of the run.
   */
  lemma {:induction false} RunMovesGrace(cfg: Config, c: Control, acts: seq<Activity>)
    ensures GraceMoves(c, Run(cfg, c, acts))
    decreases |acts|
  {
    if acts != [] {
      var c1 := Act(cfg, c, acts[0]);
      match acts[0] {
        case LockedPoll(names, env) =>
          Polling.RefreshMakesFresh(c.dev, names, env);
          QuietGrace(c, c1);
        case Guarded(call, maxAge, env) => CallMovesGrace(cfg, c, call, maxAge, env);
        case Others(events) =>
          DisturbUndisturbed(c.dev, events);
          QuietGrace(c, c1);
      }
      RunMovesGrace(cfg, c1, acts[1..]);
      GraceMovesTrans(c, c1, Run(cfg, c, acts));
    }
  }

  // -- what a record shows as previous ------------------------------------------------------------

  /** Nothing a guarded call touches is re-read during its writes, however they are answered. */
  predicate NoneReread(xs: seq<Exchange>) {
    forall x :: x in xs ==> StepFacts.Unread(x.before) && StepFacts.Unread(x.after)
  }

  lemma WriteKeepsCached(cfg: Config, p: Progress, s: Step, w: Word)
    requires NoneReread(p.rest)
    ensures var q := WriteStep(cfg, p, s, w); StepFacts.SameCached(p.ctl.dev, q.ctl.dev) && NoneReread(q.rest)
  {
    var x := FirstExchange(p.rest);
    assert x in p.rest || x == QUIET;
    StepFacts.UnreadKeepsCached(p.ctl.dev, x.before);
    StepFacts.UnreadKeepsCached(Deliver(cfg.mirrors, Disturb(p.ctl.dev, x.before), s.reg, s.target, w, x), x.after);
    WriteStepDevice(cfg, p, s, w);
  }

  /** Every record was there before, or shows the field as it is cached. */
  ghost predicate ShowsCached(rep: WriteReport, before: seq<WriteRecord>, d: Device) {
    forall w :: w in rep.writes ==> w in before || w.previous == d.cache[w.reg]
  }

  lemma StepRecordsCached(cfg: Config, p: Progress, s: Step)
    requires p.error.None? && NoneReread(p.rest) && ComponentOf(s.reg) in GUARDED
    ensures var q := DoStep(cfg, p, s);
            && StepFacts.SameCached(p.ctl.dev, q.ctl.dev) && NoneReread(q.rest)
            && ShowsCached(q.report, p.report.writes, p.ctl.dev)
  {
    if !Skipped(cfg, p.ctl, s) && Encode(s.reg, s.target).Some? {
      var w := Encode(s.reg, s.target).value;
      WriteKeepsCached(cfg, p, s, w);
      assert DoStep(cfg, p, s) == WriteStep(cfg, p, s, w);
    }
  }

  lemma ShowsCachedTrans(a: WriteReport, b: WriteReport, before: seq<WriteRecord>, d: Device, d1: Device)
    requires ShowsCached(a, before, d) && ShowsCached(b, a.writes, d1) && StepFacts.SameCached(d, d1)
    requires forall w :: w in b.writes && w !in a.writes ==> ComponentOf(w.reg) in GUARDED
    ensures ShowsCached(b, before, d)
  {
  }

  /** While nobody re-reads, every record of the loop shows as previous what was cached when it started. */
  lemma {:induction false} LoopRecordsCached(cfg: Config, p: Progress, steps: seq<Step>)
    requires p.error.None? && NoneReread(p.rest) && forall s :: s in steps ==> ComponentOf(s.reg) in GUARDED
    ensures var q := DoSteps(cfg, p, steps);
            ShowsCached(q.report, p.report.writes, p.ctl.dev)
            && forall w :: w in q.report.writes ==> w in p.report.writes || ComponentOf(w.reg) in GUARDED
    decreases |steps|
  {
    if steps != [] {
      assert steps[0] in steps;
      var p1, q := DoStep(cfg, p, steps[0]), DoSteps(cfg, p, steps);
      StepRecordsCached(cfg, p, steps[0]);
      if p1.error.Some? {
        StepFacts.ErrorEnds(cfg, p1, steps[1..]);
      } else {
        LoopRecordsCached(cfg, p1, steps[1..]);
        ShowsCachedTrans(p1.report, q.report, p.report.writes, p.ctl.dev, p1.ctl.dev);
      }
    }
  }

  /**
   However a guarded call ends, if nothing it touches is re-read during its writes, every write
   it reports shows as previous the field it planned on.
   */
  lemma CallRecordsCached(cfg: Config, c: Control, call: ControlCall, maxAge: Option<int>, env: CallEnv)
    requires !call.Operate? && NoneReread(env.exchanges)
    ensures var d := Prepared(cfg, c.dev, call, maxAge, env).0;
            var r := Perform(cfg, c, call, maxAge, env);
            Outcome(r).Some? ==> forall w :: w in Outcome(r).value.writes ==> w.previous == d.cache[w.reg]
  {
    GuardedCases(cfg, c, call, maxAge, env);
    var (d, ok) := Prepared(cfg, c.dev, call, maxAge, env);
    if ok && StepsOf(cfg, d, call).Ok? {
      PlanStaysInNames(cfg, d, call);
      ExecutionRecordsCached(cfg, c.(dev := d), ActionOf(call), StepsOf(cfg, d, call).value, call.verify, env);
    }
  }

  lemma ExecutionRecordsCached(cfg: Config, c: Control, action: Action, steps: seq<Step>, verify: bool, env: CallEnv)
    requires NoneReread(env.exchanges) && forall s :: s in steps ==> ComponentOf(s.reg) in GUARDED
    ensures var r := Execute(cfg, c, action, steps, verify, env);
            Outcome(r).Some? ==> forall w :: w in Outcome(r).value.writes ==> w.previous == c.dev.cache[w.reg]
  {
    var p0 := Start(c, action, env.exchanges);
    var p := DoSteps(cfg, p0, steps);
    LoopRecordsCached(cfg, p0, steps);
    ExecutionReports(cfg, c, action, steps, verify, env);
  }
}
