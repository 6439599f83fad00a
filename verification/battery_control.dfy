/** The guarded write layer as an object: one lock, the step loop, the read-back. */
module BatteryControls {
  import opened Wrappers
  import opened Registers
  import Devices
  import Polling
  import opened Planner
  import opened Execution
  import opened Honesty
  import Inverters

  class BatteryControl {
    const inv: Inverters.SungrowInverter
    const cfg: Config
    var locked: bool
    var emsWrittenAt: Option<int>

    function Ctl(): Control
      reads this, inv
    {
      Control(inv.View(), emsWrittenAt)
    }

    /** Whether the object is set up for the inverter it writes to. */
    predicate Valid()
      reads this
    {
      inv.mirrors == cfg.mirrors && {Settings, BatteryLimits} <= inv.polled
    }

    constructor (inv: Inverters.SungrowInverter, cfg: Config)
      requires inv.mirrors == cfg.mirrors && {Settings, BatteryLimits} <= inv.polled
      ensures this.inv == inv && this.cfg == cfg && Valid() && !locked && emsWrittenAt == None
    {
      this.inv, this.cfg, locked, emsWrittenAt := inv, cfg, false, None;
    }

    /** Re-read the components a plan compares against if they are stale. */
    method RefreshStale(names: seq<Component>, maxAge: int, env: seq<Polling.ReadEnv>) returns (ok: bool)
      requires forall n :: n in names ==> n in inv.polled
      modifies inv
      ensures (inv.View(), ok) == EnsureFresh(old(inv.View()), names, maxAge, env)
    {
      var stale := Stale(inv.View(), names, maxAge);
      if stale == [] { return true; }
      StaleCovers(inv.View(), names, maxAge);
      var unknown, report, raised := inv.AsyncRefresh(stale, env);
      ok := raised.None? && report.failed == map[];
    }

    /** One write of the loop: send it, and record how it was answered. */
    method WriteOne(s: Step, w: Word, report: WriteReport, rest: seq<Devices.Exchange>)
      returns (next: WriteReport, error: Option<ControlError>)
      requires Valid()
      modifies this, inv
      ensures Progress(Ctl(), next, error, RestExchanges(rest))
              == WriteStep(cfg, Progress(old(Ctl()), report, None, rest), s, w)
      ensures locked == old(locked)
    {
      var current := PreviousOf(inv.View(), s.reg);
      var x := FirstExchange(rest);
      inv.Write(s.reg, s.target, w, x);
      next, error := report, None;
      match x.reply {
        case Failed(ExceptionCode(_)) =>
          error := Some(WriteRejected(s.reg, report));
        case Failed(_) =>
          next := report.(uncertain := report.uncertain + [s.reg]);
          error := Some(WriteUncertain(s.reg, next));
        case Acked =>
          next := report.(writes := report.writes + [WriteRecord(s.reg, current, s.target)]);
          if s.reg == EmsModeReg { emsWrittenAt := Some(inv.clock); }
      }
    }

    /** Write the steps that differ, in order, until one fails. */
    method WriteSteps(action: Action, steps: seq<Step>, xs: seq<Devices.Exchange>)
        returns (report: WriteReport, error: Option<ControlError>)
      requires Valid()
      modifies this, inv
      ensures var p := DoSteps(cfg, Start(old(Ctl()), action, xs), steps);
              Ctl() == p.ctl && report == p.report && error == p.error
      ensures locked == old(locked)
    {
      report := NewReport(action, inv.clock);
      error := None;
      var rest := xs;
      var i := 0;
      while i < |steps|
        invariant 0 <= i <= |steps| && error.None? && locked == old(locked)
        invariant DoSteps(cfg, Progress(Ctl(), report, None, rest), steps[i..])
            == DoSteps(cfg, Start(old(Ctl()), action, xs), steps)
      {
        var s := steps[i];
        ghost var before := Progress(Ctl(), report, None, rest);
        assert steps[i..][0] == s && steps[i..][1..] == steps[i + 1..];
        if Skipped(cfg, Ctl(), s) {
          report := report.(skipped := report.skipped + [s.reg]);
        } else {
          match Encode(s.reg, s.target) {
            case None =>
              error := Some(InvalidWriteValue(s.reg, report));
              assert Progress(Ctl(), report, error, rest) == DoStep(cfg, before, s);
              return;
            case Some(w) =>
              report, error := WriteOne(s, w, report, rest);
              rest := RestExchanges(rest);
              if error.Some? {
                assert Progress(Ctl(), report, error, rest) == DoStep(cfg, before, s);
                return;
              }
          }
        }
        assert Progress(Ctl(), report, None, rest) == DoStep(cfg, before, s);
        i := i + 1;
      }
    }

    /** The first planned register whose re-read value misses its last target. */
    method FirstMismatch(steps: seq<Step>) returns (r: Option<Register>)
      ensures r == Mismatch(steps, inv.cache, 0)
    {
      FinalsAreSteps(steps);
      var final := Finals(steps);
      var i := 0;
      while i < |steps|
        invariant 0 <= i <= |steps|
        invariant Mismatch(steps, inv.cache, i) == Mismatch(steps, inv.cache, 0)
      {
        if !Satisfied(final[steps[i].reg], inv.cache[steps[i].reg]) { return Some(steps[i].reg); }
        i := i + 1;
      }
      return None;
    }

    /** Read back every touched component and compare it with the last target of each register. */
    method Verify(steps: seq<Step>, report: WriteReport, env: CallEnv)
        returns (outcome: Result<WriteReport, ControlError>)
      requires StayIn(steps, inv.polled)
      modifies this, inv
      ensures forall rest :: Performed(Ctl(), outcome) == ReadBack(Progress(old(Ctl()), report, None, rest), steps, env)
      ensures locked == old(locked)
    {
      inv.Await(env.settle);
      TouchedIsWithin(steps);
      var unknown, refreshed, raised := inv.AsyncRefresh(Touched(steps), env.readback);
      if raised.Some? || refreshed.failed != map[] {
        inv.InvalidateAll(Touched(steps));
        return Err(SettingsUnavailable(Some(report)));
      }
      var r := FirstMismatch(steps);
      if r.Some? {
        inv.InvalidateAll(Touched(steps));
        return Err(VerificationFailed(r.value, report));
      }
      return Ok(report.(verified := true));
    }

    /** Write the steps that differ, then read back and compare; on any failure forget the touched stamps. */
    method ExecutePlan(action: Action, steps: seq<Step>, verify: bool, env: CallEnv)
        returns (outcome: Result<WriteReport, ControlError>)
      requires Valid() && StayIn(steps, inv.polled)
      modifies this, inv
      ensures Performed(Ctl(), outcome) == Execute(cfg, old(Ctl()), action, steps, verify, env)
      ensures locked == old(locked)
    {
      var report, error := WriteSteps(action, steps, env.exchanges);
      if error.Some? {
        inv.InvalidateAll(Touched(steps));
        return Err(error.value);
      }
      if verify && report.writes != [] {
        ghost var p := DoSteps(cfg, Start(old(Ctl()), action, env.exchanges), steps);
        outcome := Verify(steps, report, env);
        assert Performed(Ctl(), outcome) == ReadBack(Progress(p.ctl, report, None, p.rest), steps, env);
        return;
      }
      return Ok(report);
    }

    /** One guarded call: take the lock, re-read what is stale, plan, execute. */
    method Guarded(call: ControlCall, maxAge: Option<int>, env: CallEnv)
        returns (outcome: Result<WriteReport, ControlError>)
      requires Valid() && !locked && !call.Operate?
      modifies this, inv
      ensures Performed(Ctl(), outcome) == Perform(cfg, old(Ctl()), call, maxAge, env)
      ensures !locked
    {
      inv.Await(env.waiting);
      locked := true;
      var ok := RefreshStale(Names(call), if maxAge.Some? then maxAge.value else cfg.maxAge, env.refresh);
      if !ok {
        outcome := Err(SettingsUnavailable(None));
      } else {
        match StepsOf(cfg, inv.View(), call) {
          case Err(e) => outcome := Err(e);
          case Ok(steps) =>
            PlanStaysInNames(cfg, inv.View(), call);
            outcome := ExecutePlan(ActionOf(call), steps, call.verify, env);
        }
      }
      locked := false;
    }

    /** Put the battery into the desired state. */
    method Apply(want: DesiredState, verify: bool, maxAge: Option<int>, env: CallEnv)
        returns (outcome: Result<WriteReport, ControlError>)
      requires Valid() && !locked
      modifies this, inv
      ensures Performed(Ctl(), outcome) == Perform(cfg, old(Ctl()), ApplyMode(want, verify), maxAge, env)
      ensures !locked
    {
      outcome := Guarded(ApplyMode(want, verify), maxAge, env);
    }

    /** Set, disable or lift the feed-in limitation. */
    method SetExportLimit(limit: Option<int>, enabled: bool, verify: bool, maxAge: Option<int>, env: CallEnv)
      returns (outcome: Result<WriteReport, ControlError>)
      requires Valid() && !locked
      modifies this, inv
      ensures Performed(Ctl(), outcome) == Perform(cfg, old(Ctl()), LimitExport(limit, enabled, verify), maxAge, env)
      ensures !locked
    {
      outcome := Guarded(LimitExport(limit, enabled, verify), maxAge, env);
    }

    /** Stop or allow PV generation. */
    method SetPvLimitation(on: bool, verify: bool, maxAge: Option<int>, env: CallEnv)
        returns (outcome: Result<WriteReport, ControlError>)
      requires Valid() && !locked
      modifies this, inv
      ensures Performed(Ctl(), outcome) == Perform(cfg, old(Ctl()), LimitPv(on, verify), maxAge, env)
      ensures !locked
    {
      outcome := Guarded(LimitPv(on, verify), maxAge, env);
    }

    /** Boot or shut down: one write, no read-back. */
    method SendStartStop(command: StartStop, env: CallEnv) returns (outcome: Result<WriteReport, ControlError>)
      requires Valid() && !locked
      modifies this, inv
      ensures Performed(Ctl(), outcome) == SendCommand(cfg, old(Ctl()), command, env)
      ensures !locked
    {
      inv.Await(env.waiting);
      locked := true;
      var s := Step(StartStopReg, Operation(command), Exactly);
      var report, error :=
          WriteOne(s, StartStopCode(command), NewReport(StartStopAction(command), inv.clock), env.exchanges);
      locked := false;
      outcome := if error.Some? then Err(error.value) else Ok(report);
    }
  }
}
