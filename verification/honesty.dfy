/**
 The cache stays honest: whatever fails, whenever the lock is free a component that has
 a refresh stamp has a cache equal to its decoded registers.
 */
module Honesty {
  import opened Wrappers
  import opened Registers
  import opened Devices
  import opened Polling
  import opened Planner
  import opened Execution

  /** The components a guarded call compares against and writes to. */
  const GUARDED: set<Component> := {Settings, BatteryLimits}

  ghost predicate Honest(d: Device) { HonestOn(d, GUARDED) }

  /** Every write of these steps stays inside the components of `touched`. */
  predicate StayIn(steps: seq<Step>, touched: set<Component>) {
    forall s :: s in steps ==> ComponentOf(s.reg) in touched
  }

  function AsSet(names: seq<Component>): set<Component> { set n | n in names }

  lemma {:induction false} TouchedIsWithin(steps: seq<Step>)
    ensures StayIn(steps, AsSet(Touched(steps)))
    ensures forall c :: c in Touched(steps) ==> exists s :: s in steps && ComponentOf(s.reg) == c
  {
    if steps != [] {
      var init, last := steps[..|steps| - 1], steps[|steps| - 1];
      TouchedIsWithin(init);
      assert steps == init + [last];
      forall c | c in Touched(steps) ensures exists s :: s in steps && ComponentOf(s.reg) == c {
        if c !in Touched(init) { assert last in steps; }
      }
    }
  }

  /** The read-back asks for each touched component once, in the order the plan first touches them. */
  lemma {:induction false} TouchedInPlanOrder(steps: seq<Step>, k: nat)
    requires k <= |steps|
    ensures Touched(steps[..k]) <= Touched(steps)
    ensures forall i, j :: 0 <= i < j < |Touched(steps)| ==> Touched(steps)[i] != Touched(steps)[j]
  {
    if k < |steps| {
      var init := steps[..|steps| - 1];
      TouchedInPlanOrder(init, k);
      assert init[..k] == steps[..k];
    } else if steps != [] {
      TouchedInPlanOrder(steps[..|steps| - 1], 0);
      assert steps[..k] == steps;
    }
  }

  lemma StepKeepsHonest(cfg: Config, p: Progress, s: Step, names: set<Component>)
    requires HonestOn(p.ctl.dev, names) && ComponentOf(s.reg) !in names
    ensures HonestOn(DoStep(cfg, p, s).ctl.dev, names)
  {
    if !Skipped(cfg, p.ctl, s) && Encode(s.reg, s.target).Some? {
      WriteStepDevice(cfg, p, s, Encode(s.reg, s.target).value);
      var dev := WriteStep(cfg, p, s, Encode(s.reg, s.target).value).ctl.dev;
      assert DoStep(cfg, p, s).ctl.dev == dev;
      TransmitKeepsHonest(cfg.mirrors, p.ctl.dev, s.reg, s.target, Encode(s.reg, s.target).value,
          FirstExchange(p.rest), names);
    }
  }

  lemma {:induction false} StepsKeepHonest(cfg: Config, p: Progress, steps: seq<Step>, touched: set<Component>,
      names: set<Component>)
    requires StayIn(steps, touched) && touched !! names && HonestOn(p.ctl.dev, names)
    ensures HonestOn(DoSteps(cfg, p, steps).ctl.dev, names)
    decreases |steps|
  {
    if steps != [] && p.error.None? {
      StepKeepsHonest(cfg, p, steps[0], names);
      StepsKeepHonest(cfg, DoStep(cfg, p, steps[0]), steps[1..], touched, names);
    }
  }

  /** A step loop that acknowledged no write and raised nothing skipped every step and left everything as it was. */
  lemma {:induction false} WriteFreeSteps(cfg: Config, p: Progress, steps: seq<Step>)
    requires p.error.None?
    ensures var q := DoSteps(cfg, p, steps);
            && p.report.writes <= q.report.writes
            && (q.error.None? && q.report.writes == p.report.writes ==> q.ctl == p.ctl && AllSkipped(cfg, p.ctl, steps))
    decreases |steps|
  {
    if steps != [] {
      var p1 := DoStep(cfg, p, steps[0]);
      if p1.error.None? { WriteFreeSteps(cfg, p1, steps[1..]); }
    }
  }

  lemma ConfirmedOrMismatch(steps: seq<Step>, cache: Cache, i: nat)
    requires i <= |steps|
    ensures Mismatch(steps, cache, i).None? <==>
            forall j :: i <= j < |steps|
                ==> steps[j].reg in Finals(steps) && Satisfied(Finals(steps)[steps[j].reg], cache[steps[j].reg])
    decreases |steps| - i
  {
    FinalsAreSteps(steps);
    if i < |steps| { ConfirmedOrMismatch(steps, cache, i + 1); }
  }

  /** The read-back's scan finds no mismatch exactly when every last target is satisfied. */
  lemma MismatchFindsAny(steps: seq<Step>, cache: Cache)
    ensures Mismatch(steps, cache, 0).None? <==> Confirmed(steps, cache)
  {
    FinalsAreSteps(steps);
    ConfirmedOrMismatch(steps, cache, 0);
    forall r | r in Finals(steps) ensures exists j :: 0 <= j < |steps| && steps[j].reg == r {
      var s := Finals(steps)[r];
      assert s in steps;
    }
  }

  lemma FreshMeets(steps: seq<Step>, d: Device)
    requires Confirmed(steps, d.cache)
    requires forall s :: s in steps ==> Fresh(d, ComponentOf(s.reg))
    ensures Meets(steps, d.wire)
  {
    FinalsAreSteps(steps);
    forall r | r in Finals(steps) ensures Satisfied(Finals(steps)[r], Decode(r, d.wire[r])) {
      assert Fresh(d, ComponentOf(Finals(steps)[r].reg));
    }
  }

  lemma SkippedMeets(cfg: Config, c: Control, steps: seq<Step>)
    requires AllSkipped(cfg, c, steps)
    ensures Confirmed(steps, c.dev.cache)
  {
    FinalsAreSteps(steps);
  }

  lemma DropIsHonest(d: Device, touched: seq<Component>, names: set<Component>)
    requires HonestOn(d, names - AsSet(touched))
    ensures HonestOn(Invalidate(d, touched), names)
  {
    var d1 := Invalidate(d, touched);
    forall c | c in names && c in d1.refreshed ensures Fresh(d1, c) {
      assert Fresh(d, c);
    }
  }

  /** What a read-back leaves behind, for any registers and any answers. */
  lemma ReadBackEffect(cfg: Config, p: Progress, steps: seq<Step>, env: CallEnv, names: set<Component>)
    requires HonestOn(p.ctl.dev, names - AsSet(Touched(steps)))
    ensures var r := ReadBack(p, steps, env);
            && HonestOn(r.ctl.dev, names)
            && r.ctl.dev.wire == p.ctl.dev.wire && r.ctl.dev.sent == p.ctl.dev.sent
            && (r.outcome.Ok? ==>
                 r.outcome.value == p.report.(verified := true) && Meets(steps, r.ctl.dev.wire)
                 && forall n :: n in Touched(steps) ==> n in r.ctl.dev.refreshed && Fresh(r.ctl.dev, n))
            && (r.outcome.Err? && r.outcome.error.VerificationFailed? ==>
                  forall n :: n in Touched(steps) ==> Fresh(r.ctl.dev, n))
  {
    var touched := Touched(steps);
    var d1 := Disturb(p.ctl.dev, env.settle);
    var q := Refresh(d1, touched, env.readback);
    DisturbUndisturbed(p.ctl.dev, env.settle);
    RefreshMakesFresh(d1, touched, env.readback);
    UndisturbedTrans(p.ctl.dev, d1, q.dev);
    UndisturbedKeepsHonest(p.ctl.dev, q.dev, names - AsSet(touched));
    DropIsHonest(q.dev, touched, names);
    if AllAnswered(q) {
      MismatchFindsAny(steps, q.dev.cache);
      TouchedIsWithin(steps);
      forall n | n in touched ensures Fresh(q.dev, n) && Fresh(Invalidate(q.dev, touched), n) {}
      forall s | s in steps ensures Fresh(q.dev, ComponentOf(s.reg)) {
        assert ComponentOf(s.reg) in AsSet(touched);
      }
      if Confirmed(steps, q.dev.cache) { FreshMeets(steps, q.dev); }
      assert HonestOn(q.dev, names) by {
        forall c | c in names && c in q.dev.refreshed ensures Fresh(q.dev, c) {}
      }
    }
  }

  /** Registers that meet the plan are confirmed by any read-back that is answered. */
  lemma ReadBackConfirms(p: Progress, steps: seq<Step>, env: CallEnv)
    requires Meets(steps, p.ctl.dev.wire)
    requires AllAnswered(Refresh(Disturb(p.ctl.dev, env.settle), Touched(steps), env.readback))
    ensures ReadBack(p, steps, env).outcome == Ok(p.report.(verified := true))
  {
    var d1 := Disturb(p.ctl.dev, env.settle);
    var q := Refresh(d1, Touched(steps), env.readback);
    DisturbUndisturbed(p.ctl.dev, env.settle);
    RefreshMakesFresh(d1, Touched(steps), env.readback);
    TouchedIsWithin(steps);
    FinalsAreSteps(steps);
    forall r | r in Finals(steps) ensures Satisfied(Finals(steps)[r], q.dev.cache[r]) {
      assert ComponentOf(Finals(steps)[r].reg) in AsSet(Touched(steps));
      assert Fresh(q.dev, ComponentOf(r));
    }
    MismatchFindsAny(steps, q.dev.cache);
  }

  /** A verified execution keeps honest whatever was honest, however it ends. */
  lemma ExecuteKeepsHonest(cfg: Config, c: Control, action: Action, steps: seq<Step>, env: CallEnv,
      names: set<Component>)
    requires HonestOn(c.dev, names)
    ensures HonestOn(Execute(cfg, c, action, steps, true, env).ctl.dev, names)
  {
    var p0 := Start(c, action, env.exchanges);
    var p := DoSteps(cfg, p0, steps);
    var rest := names - AsSet(Touched(steps));
    TouchedIsWithin(steps);
    StepsKeepHonest(cfg, p0, steps, AsSet(Touched(steps)), rest);
    WriteFreeSteps(cfg, p0, steps);
    if p.error.Some? {
      DropIsHonest(p.ctl.dev, Touched(steps), names);
    } else if p.report.writes != [] {
      ReadBackEffect(cfg, p, steps, env, names);
    }
  }

  lemma {:induction false} StaleCovers(d: Device, names: seq<Component>, maxAge: int)
    ensures forall n :: n in names && n !in d.refreshed ==> n in Stale(d, names, maxAge)
    ensures forall n :: n in Stale(d, names, maxAge) ==> n in names
  {
    if names != [] { StaleCovers(d, names[1..], maxAge); }
  }

  /** After a successful freshness check every named component has a stamp. */
  lemma EnsureFreshEffect(d: Device, names: seq<Component>, maxAge: int, env: seq<ReadEnv>)
    ensures var (d1, ok) := EnsureFresh(d, names, maxAge, env);
            && Undisturbed(d, d1)
            && (ok ==> forall n :: n in names ==> n in d1.refreshed)
  {
    StaleCovers(d, names, maxAge);
    RefreshMakesFresh(d, Stale(d, names, maxAge), env);
  }

  /** What a guarded call plans against: every component it names is stamped, and what was honest still is. */
  lemma PreparedEffect(cfg: Config, d: Device, call: ControlCall, maxAge: Option<int>, env: CallEnv,
      names: set<Component>)
    requires HonestOn(d, names)
    ensures var (d1, ok) := Prepared(cfg, d, call, maxAge, env);
            && Undisturbed(d, d1) && HonestOn(d1, names)
            && (ok ==> forall n :: n in Names(call) ==> n in d1.refreshed && (n in names ==> Fresh(d1, n)))
  {
    var d0 := Disturb(d, env.waiting);
    DisturbUndisturbed(d, env.waiting);
    EnsureFreshEffect(d0, Names(call), if maxAge.Some? then maxAge.value else cfg.maxAge, env.refresh);
    var d1 := Prepared(cfg, d, call, maxAge, env).0;
    UndisturbedTrans(d, d0, d1);
    UndisturbedKeepsHonest(d, d1, names);
  }

  lemma PreparingSendsNothing(cfg: Config, d: Device, call: ControlCall, maxAge: Option<int>, env: CallEnv)
    ensures Prepared(cfg, d, call, maxAge, env).0.sent == d.sent
  {
    PreparedEffect(cfg, d, call, maxAge, env, {});
  }

  predicate Verifies(call: ControlCall) { call.Operate? || call.verify }

  lemma CommandKeepsHonest(cfg: Config, c: Control, command: StartStop, env: CallEnv, names: set<Component>)
    requires HonestOn(c.dev, names) && StartStopBlock !in names
    ensures HonestOn(SendCommand(cfg, c, command, env).ctl.dev, names)
  {
    var d0 := Disturb(c.dev, env.waiting);
    DisturbUndisturbed(c.dev, env.waiting);
    UndisturbedKeepsHonest(c.dev, d0, names);
    var p := Start(c.(dev := d0), StartStopAction(command), env.exchanges);
    var s := Step(StartStopReg, Operation(command), Exactly);
    WriteStepDevice(cfg, p, s, StartStopCode(command));
    TransmitKeepsHonest(cfg.mirrors, d0, StartStopReg, s.target, StartStopCode(command),
        FirstExchange(env.exchanges), names);
  }

  /** One verified control call, with any read or write failing and other tasks reading in between. */
  lemma PerformKeepsHonest(cfg: Config, c: Control, call: ControlCall, maxAge: Option<int>, env: CallEnv,
      names: set<Component>)
    requires HonestOn(c.dev, names) && Verifies(call) && StartStopBlock !in names
    ensures HonestOn(Perform(cfg, c, call, maxAge, env).ctl.dev, names)
  {
    if call.Operate? {
      CommandKeepsHonest(cfg, c, call.command, env, names);
    } else {
      PreparedEffect(cfg, c.dev, call, maxAge, env, names);
      var (d, ok) := Prepared(cfg, c.dev, call, maxAge, env);
      if ok && StepsOf(cfg, d, call).Ok? {
        ExecuteKeepsHonest(cfg, c.(dev := d), ActionOf(call), StepsOf(cfg, d, call).value, env, names);
      }
    }
  }

  // -- runs ----------------------------------------------------------------------------

  /** What can happen while the lock is free or taken by one holder from start to end. */
  datatype Activity =
    | LockedPoll(names: seq<Component>, answers: seq<ReadEnv>)
    | Guarded(call: ControlCall, maxAge: Option<int>, env: CallEnv)
    | Others(events: seq<Event>)

  function Act(cfg: Config, c: Control, a: Activity): Control {
    match a
    case LockedPoll(names, env) => c.(dev := Refresh(c.dev, names, env).dev)
    case Guarded(call, maxAge, env) => Perform(cfg, c, call, maxAge, env).ctl
    case Others(events) => c.(dev := Disturb(c.dev, events))
  }

  function Run(cfg: Config, c: Control, acts: seq<Activity>): Control
    decreases |acts|
  {
    if acts == [] then c else Run(cfg, Act(cfg, c, acts[0]), acts[1..])
  }

  predicate VerifiedRun(acts: seq<Activity>) {
    forall a :: a in acts && a.Guarded? ==> Verifies(a.call)
  }

  lemma ActKeepsHonest(cfg: Config, c: Control, a: Activity, names: set<Component>)
    requires HonestOn(c.dev, names) && (a.Guarded? ==> Verifies(a.call)) && StartStopBlock !in names
    ensures HonestOn(Act(cfg, c, a).dev, names)
  {
    match a {
      case LockedPoll(polled, env) =>
        RefreshMakesFresh(c.dev, polled, env);
        UndisturbedKeepsHonest(c.dev, Refresh(c.dev, polled, env).dev, names);
      case Guarded(call, maxAge, env) =>
        PerformKeepsHonest(cfg, c, call, maxAge, env, names);
      case Others(events) =>
        DisturbUndisturbed(c.dev, events);
        UndisturbedKeepsHonest(c.dev, Disturb(c.dev, events), names);
    }
  }

  lemma {:induction false} RunKeepsHonest(cfg: Config, c: Control, acts: seq<Activity>, names: set<Component>)
    requires HonestOn(c.dev, names) && VerifiedRun(acts) && StartStopBlock !in names
    ensures HonestOn(Run(cfg, c, acts).dev, names)
    decreases |acts|
  {
    if acts != [] {
      assert acts[0] in acts;
      ActKeepsHonest(cfg, c, acts[0], names);
      RunKeepsHonest(cfg, Act(cfg, c, acts[0]), acts[1..], names);
    }
  }

  /**
   Over any run of polls and verified control calls, whatever reads and writes fail and
   whatever else is re-read meanwhile, the cache is honest whenever the lock is free.
   */
  lemma RunKeepsCacheHonest(cfg: Config, c: Control, acts: seq<Activity>)
    requires Honest(c.dev) && VerifiedRun(acts)
    ensures Honest(Run(cfg, c, acts).dev)
  {
    RunKeepsHonest(cfg, c, acts, GUARDED);
  }

  // -- what a normal return means ----------------------------------------------------------

  lemma PlanStaysInNames(cfg: Config, d: Device, call: ControlCall)
    requires StepsOf(cfg, d, call).Ok?
    ensures forall s :: s in StepsOf(cfg, d, call).value ==> ComponentOf(s.reg) in Names(call)
  {
  }

  lemma {:induction false} StepsNotVerified(cfg: Config, p: Progress, steps: seq<Step>)
    ensures DoSteps(cfg, p, steps).report.verified == p.report.verified
    decreases |steps|
  {
    if steps != [] && p.error.None? { StepsNotVerified(cfg, DoStep(cfg, p, steps[0]), steps[1..]); }
  }

  /** The two normal returns: verified writes that are met, or nothing written and nothing moved. */
  lemma ExecuteOutcome(cfg: Config, c: Control, action: Action, steps: seq<Step>, verify: bool, env: CallEnv)
    ensures var r := Execute(cfg, c, action, steps, verify, env);
            r.outcome.Ok? ==>
              var rep := r.outcome.value;
              && (rep.verified <==> verify && rep.writes != [])
              && (rep.verified ==>
                   Meets(steps, r.ctl.dev.wire)
                   && forall n :: n in Touched(steps) ==> Fresh(r.ctl.dev, n))
              && (rep.writes == [] ==> r.ctl == c && AllSkipped(cfg, c, steps))
  {
    var p0 := Start(c, action, env.exchanges);
    var p := DoSteps(cfg, p0, steps);
    StepsNotVerified(cfg, p0, steps);
    WriteFreeSteps(cfg, p0, steps);
    if p.error.None? && verify && p.report.writes != [] {
      ReadBackEffect(cfg, p, steps, env, {});
    }
  }

  /** Only the step loop writes. */
  lemma ExecuteWire(cfg: Config, c: Control, action: Action, steps: seq<Step>, verify: bool, env: CallEnv)
    ensures Execute(cfg, c, action, steps, verify, env).ctl.dev.wire
            == DoSteps(cfg, Start(c, action, env.exchanges), steps).ctl.dev.wire
  {
    var p := DoSteps(cfg, Start(c, action, env.exchanges), steps);
    if p.error.None? && verify && p.report.writes != [] { ReadBackEffect(cfg, p, steps, env, {}); }
  }

  /** A verified execution over fresh caches returns only over met targets. */
  lemma ReturnedIsMet(cfg: Config, c: Control, action: Action, steps: seq<Step>, env: CallEnv)
    requires forall s :: s in steps ==> Fresh(c.dev, ComponentOf(s.reg))
    ensures var p := DoSteps(cfg, Start(c, action, env.exchanges), steps);
            Execute(cfg, c, action, steps, true, env).outcome.Ok? ==> p.error.None? && Meets(steps, p.ctl.dev.wire)
  {
    var r := Execute(cfg, c, action, steps, true, env);
    ExecuteWire(cfg, c, action, steps, true, env);
    ExecuteOutcome(cfg, c, action, steps, true, env);
    if r.outcome.Ok? && r.outcome.value.writes == [] { AllSkippedMeets(cfg, c, steps); }
  }

  /**
   With the read-back answered, a verified execution over fresh caches returns exactly when its
   step loop completed over met targets; a completed loop over unmet ones fails the verification.
   */
  lemma AnsweredExecutionReturnsIff(cfg: Config, c: Control, action: Action, steps: seq<Step>, env: CallEnv)
    requires AllReadsAnswered(env.readback) && forall s :: s in steps ==> Fresh(c.dev, ComponentOf(s.reg))
    ensures var p, r := DoSteps(cfg, Start(c, action, env.exchanges), steps), Execute(cfg, c, action, steps, true, env);
            && (r.outcome.Ok? <==> p.error.None? && Meets(steps, p.ctl.dev.wire))
            && (p.error.None? && !Meets(steps, p.ctl.dev.wire) ==> r.outcome.error.VerificationFailed?)
  {
    var p := DoSteps(cfg, Start(c, action, env.exchanges), steps);
    ReturnedIsMet(cfg, c, action, steps, env);
    AnsweredRefresh(Disturb(p.ctl.dev, env.settle), Touched(steps), env.readback);
    if p.error.None? && p.report.writes != [] && Meets(steps, p.ctl.dev.wire) { ReadBackConfirms(p, steps, env); }
  }

  /** A returned call planned and executed: nothing else returns normally. */
  lemma ReturnsFromExecute(cfg: Config, c: Control, call: ControlCall, maxAge: Option<int>, env: CallEnv)
    requires !call.Operate? && Perform(cfg, c, call, maxAge, env).outcome.Ok?
    ensures var (d, ok) := Prepared(cfg, c.dev, call, maxAge, env);
            && ok && StepsOf(cfg, d, call).Ok?
            && Perform(cfg, c, call, maxAge, env)
               == Execute(cfg, c.(dev := d), ActionOf(call), StepsOf(cfg, d, call).value, call.verify, env)
  {
  }

  /**
   A call that returns `verified` leaves registers that satisfy the last target of every planned
   register. Nothing is assumed of the cache, nor that an acknowledged write landed.
   */
  lemma VerifiedMeansMet(cfg: Config, c: Control, call: ControlCall, maxAge: Option<int>, env: CallEnv)
    requires !call.Operate?
    ensures var r := Perform(cfg, c, call, maxAge, env);
            var (d, ok) := Prepared(cfg, c.dev, call, maxAge, env);
            r.outcome.Ok? && r.outcome.value.verified ==>
              ok && StepsOf(cfg, d, call).Ok? && Meets(StepsOf(cfg, d, call).value, r.ctl.dev.wire)
  {
    if Perform(cfg, c, call, maxAge, env).outcome.Ok? {
      ReturnsFromExecute(cfg, c, call, maxAge, env);
      var d := Prepared(cfg, c.dev, call, maxAge, env).0;
      ExecuteOutcome(cfg, c.(dev := d), ActionOf(call), StepsOf(cfg, d, call).value, call.verify, env);
    }
  }

  lemma AllSkippedMeets(cfg: Config, c: Control, steps: seq<Step>)
    requires AllSkipped(cfg, c, steps)
    requires forall s :: s in steps ==> Fresh(c.dev, ComponentOf(s.reg))
    ensures Meets(steps, c.dev.wire)
  {
    SkippedMeets(cfg, c, steps);
    FreshMeets(steps, c.dev);
  }

  /**
   A call that returns having written nothing found every planned register at its target,
   provided the caches it names were honest.
   */
  lemma WriteFreeMeansMet(cfg: Config, c: Control, call: ControlCall, maxAge: Option<int>, env: CallEnv)
    requires !call.Operate? && HonestOn(c.dev, AsSet(Names(call)))
    ensures var r := Perform(cfg, c, call, maxAge, env);
            var (d, ok) := Prepared(cfg, c.dev, call, maxAge, env);
            r.outcome.Ok? && r.outcome.value.writes == [] ==>
              && ok && StepsOf(cfg, d, call).Ok? && Meets(StepsOf(cfg, d, call).value, r.ctl.dev.wire)
              && r.ctl.dev.wire == c.dev.wire && r.ctl.dev.sent == c.dev.sent
              && (forall n :: n in Names(call) ==> Fresh(r.ctl.dev, n))
  {
    var r := Perform(cfg, c, call, maxAge, env);
    if r.outcome.Ok? && r.outcome.value.writes == [] {
      ReturnsFromExecute(cfg, c, call, maxAge, env);
      PreparedEffect(cfg, c.dev, call, maxAge, env, AsSet(Names(call)));
      var d := Prepared(cfg, c.dev, call, maxAge, env).0;
      ExecuteOutcome(cfg, c.(dev := d), ActionOf(call), StepsOf(cfg, d, call).value, call.verify, env);
      PlanStaysInNames(cfg, d, call);
      AllSkippedMeets(cfg, c.(dev := d), StepsOf(cfg, d, call).value);
    }
  }

  /** At any point of a verified run, a verified call that returns normally leaves its targets met. */
  lemma NormalReturnMeetsTargets(cfg: Config, c: Control, acts: seq<Activity>, call: ControlCall, maxAge: Option<int>,
      env: CallEnv)
    requires Honest(c.dev) && VerifiedRun(acts)
    requires !call.Operate? && call.verify
    ensures var now := Run(cfg, c, acts);
            var r := Perform(cfg, now, call, maxAge, env);
            var (d, ok) := Prepared(cfg, now.dev, call, maxAge, env);
            r.outcome.Ok? ==>
              && ok && StepsOf(cfg, d, call).Ok? && Meets(StepsOf(cfg, d, call).value, r.ctl.dev.wire)
              && (r.outcome.value.verified <==> r.outcome.value.writes != [])
  {
    var now := Run(cfg, c, acts);
    RunKeepsCacheHonest(cfg, c, acts);
    assert HonestOn(now.dev, AsSet(Names(call))) by {
      forall n | n in AsSet(Names(call)) && n in now.dev.refreshed ensures Fresh(now.dev, n) {}
    }
    VerifiedMeansMet(cfg, now, call, maxAge, env);
    var r := Perform(cfg, now, call, maxAge, env);
    if r.outcome.Ok? {
      ReturnsFromExecute(cfg, now, call, maxAge, env);
      var d := Prepared(cfg, now.dev, call, maxAge, env).0;
      ExecuteOutcome(cfg, now.(dev := d), ActionOf(call), StepsOf(cfg, d, call).value, call.verify, env);
      if r.outcome.value.writes == [] {
        WriteFreeMeansMet(cfg, now, call, maxAge, env);
      }
    }
  }

  // -- what a failed verification means ------------------------------------------------------------

  /** The scan stops at the first step whose register misses its last target. */
  lemma {:induction false} MismatchIsFirst(steps: seq<Step>, cache: Cache, i: nat) returns (j: nat)
    requires i <= |steps| && Mismatch(steps, cache, i).Some?
    ensures i <= j < |steps| && Mismatch(steps, cache, i) == Some(steps[j].reg)
    ensures forall k :: i <= k <= j ==> steps[k].reg in Finals(steps)
    ensures !Satisfied(Finals(steps)[steps[j].reg], cache[steps[j].reg])
    ensures forall k :: i <= k < j ==> Satisfied(Finals(steps)[steps[k].reg], cache[steps[k].reg])
    decreases |steps| - i
  {
    FinalsAreSteps(steps);
    j := i;
    if Satisfied(Finals(steps)[steps[i].reg], cache[steps[i].reg]) { j := MismatchIsFirst(steps, cache, i + 1); }
  }

  lemma ReadBackFailsTruly(p: Progress, steps: seq<Step>, env: CallEnv)
    ensures var r := ReadBack(p, steps, env);
            r.outcome.Err? && r.outcome.error.VerificationFailed? ==>
              var missed := r.outcome.error.field;
              missed in Finals(steps) && !Satisfied(Finals(steps)[missed], Decode(missed, r.ctl.dev.wire[missed]))
  {
    var r := ReadBack(p, steps, env);
    if r.outcome.Err? && r.outcome.error.VerificationFailed? {
      var q := Refresh(Disturb(p.ctl.dev, env.settle), Touched(steps), env.readback);
      var j := MismatchIsFirst(steps, q.dev.cache, 0);
      assert steps[j] in steps;
      TouchedIsWithin(steps);
      assert ComponentOf(steps[j].reg) in Touched(steps);
      RefreshMakesFresh(Disturb(p.ctl.dev, env.settle), Touched(steps), env.readback);
      assert Fresh(q.dev, ComponentOf(steps[j].reg));
    }
  }

  /** A call that fails its verification names a planned register that does miss its last target. */
  lemma FailedVerificationIsTrue(cfg: Config, c: Control, call: ControlCall, maxAge: Option<int>, env: CallEnv)
    requires !call.Operate?
    ensures var r := Perform(cfg, c, call, maxAge, env);
            var d := Prepared(cfg, c.dev, call, maxAge, env).0;
            r.outcome.Err? && r.outcome.error.VerificationFailed? ==>
              var missed := r.outcome.error.field;
              && StepsOf(cfg, d, call).Ok? && missed in Finals(StepsOf(cfg, d, call).value)
              && !Satisfied(Finals(StepsOf(cfg, d, call).value)[missed], Decode(missed, r.ctl.dev.wire[missed]))
  {
    var (d, ok) := Prepared(cfg, c.dev, call, maxAge, env);
    if ok && StepsOf(cfg, d, call).Ok? {
      var steps := StepsOf(cfg, d, call).value;
      var p0 := Start(c.(dev := d), ActionOf(call), env.exchanges);
      LoopVerifiesNothing(cfg, p0, steps);
      ReadBackFailsTruly(DoSteps(cfg, p0, steps), steps, env);
    }
  }

  lemma {:induction false} LoopVerifiesNothing(cfg: Config, p: Progress, steps: seq<Step>)
    requires p.error.Some? ==> !p.error.value.VerificationFailed?
    ensures var q := DoSteps(cfg, p, steps); q.error.Some? ==> !q.error.value.VerificationFailed?
    decreases |steps|
  {
    if steps != [] && p.error.None? { LoopVerifiesNothing(cfg, DoStep(cfg, p, steps[0]), steps[1..]); }
  }
}
