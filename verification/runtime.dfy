/** The integration's runtime: the control calls as the actions and buttons make them, publishing to the coordinator. */
module Runtimes {
  import opened Wrappers
  import Registers
  import Devices
  import opened Polling
  import opened Planner
  import opened Execution
  import Traffic
  import opened Coordinators
  import opened Recovery
  import RecoveryProperties
  import opened Publishing
  import BatteryControls

  class SungrowRuntime {
    const control: BatteryControls.BatteryControl
    const settings: SungrowCoordinator

    predicate Valid()
      reads control
    {
      control.Valid()
    }

    constructor (control: BatteryControls.BatteryControl, settings: SungrowCoordinator)
      requires control.Valid()
      ensures this.control == control && this.settings == settings && Valid()
    {
      this.control, this.settings := control, settings;
    }

    /** Tell the coordinator one thing. */
    method Tell(what: Publication)
      modifies settings
      ensures settings.State() == PublishAll(old(settings.State()), [Notice(what, control.inv.View())])
    {
      match what {
        case Snapshot(names) => settings.ApplySnapshot(names, control.inv.clock);
        case Unavailable(names, error) => settings.MarkFailed(names, error, control.inv.clock);
      }
      PublishOne(old(settings.State()), Notice(what, control.inv.View()));
    }

    /** Take each failed component unavailable, in the order they were read. */
    method MarkEach(names: seq<Registers.Component>, failed: map<Registers.Component, Devices.ModbusError>,
        ghost q: Polled)
      requires q.dev == control.inv.View() && q.report.failed == failed
      modifies settings
      ensures settings.State() == PublishAll(old(settings.State()), FailureNotices(names, q))
    {
      var i := 0;
      while i < |names|
        invariant 0 <= i <= |names|
        invariant PublishAll(settings.State(), FailureNotices(names[i..], q))
            == PublishAll(old(settings.State()), FailureNotices(names, q))
      {
        var n := names[i];
        assert names[i..][0] == n && names[i..][1..] == names[i + 1..];
        if n in failed {
          ghost var s := settings.State();
          PublishAppend(s, [Notice(Unavailable({n}, failed[n]), q.dev)], FailureNotices(names[i + 1..], q));
          Tell(Unavailable({n}, failed[n]));
        } else {
          assert FailureNotices(names[i..], q) == FailureNotices(names[i + 1..], q);
        }
        i := i + 1;
      }
    }

    /** Read the named components again, outside the lock, and publish them. */
    method RereadAndPublish(names: set<Registers.Component>, env: seq<ReadEnv>) returns (ok: bool)
      requires Valid()
      modifies control.inv, settings
      ensures var r := RereadNames(old(control.inv.View()), names, env);
              && control.inv.View() == r.dev && ok == r.ok
              && settings.State() == PublishAll(old(settings.State()), r.notices)
    {
      if names == {} { return true; }
      ghost var q := Refresh(control.inv.View(), Sorted(names), env);
      var unknown, report, raised := control.inv.AsyncRefresh(Sorted(names), env);
      if raised.Some? {
        Tell(Unavailable(names, raised.value));
        return false;
      }
      var read := names - report.failed.Keys;
      PublishAppend(settings.State(), if read != {} then [Notice(Snapshot(read), q.dev)] else [],
          FailureNotices(Sorted(names), q));
      if read != {} { Tell(Snapshot(read)); }
      MarkEach(Sorted(names), report.failed, q);
      ok := names * report.failed.Keys == {};
    }

    /** Publish what can honestly be published after a failed call. */
    method PublishError(e: ControlError, env: seq<ReadEnv>) returns (ok: bool)
      requires Valid()
      modifies control.inv, settings
      ensures var r := PublishAfterError(old(control.inv.View()), e, env);
              && control.inv.View() == r.dev && ok == r.ok
              && settings.State() == PublishAll(old(settings.State()), r.notices)
    {
      match Traffic.ReportOf(e) {
        case None => return false;
        case Some(rep) =>
          if e.VerificationFailed? {
            Tell(Snapshot(TouchedBy(rep)));
            return true;
          }
          ok := RereadAndPublish(TouchedBy(rep) + FieldOf(e), env);
      }
    }

    /** One call of the control layer. */
    method Invoke(call: ControlCall, maxAge: Option<int>, env: CallEnv)
        returns (outcome: Result<WriteReport, ControlError>)
      requires Valid() && !control.locked
      modifies control, control.inv
      ensures Performed(control.Ctl(), outcome) == Perform(control.cfg, old(control.Ctl()), call, maxAge, env)
      ensures Valid() && !control.locked
    {
      if call.Operate? {
        outcome := control.SendStartStop(call.command, env);
      } else {
        outcome := control.Guarded(call, maxAge, env);
      }
    }

    /** Publish a call that returned. */
    method PublishReturn(rep: WriteReport, publish: bool, env: seq<ReadEnv>, ghost before: seq<Notice>,
        ghost start: Coord)
      requires Valid() && settings.State() == PublishAll(start, before)
      modifies control.inv, settings
      ensures var ran := Finish(old(control.Ctl()), rep, publish, env, before);
              control.Ctl() == ran.ctl && settings.State() == PublishAll(start, ran.notices) && ran.result == Ok(rep)
    {
      if publish && rep.writes != [] {
        if rep.verified {
          PublishAppend(start, before, [Notice(Snapshot(TouchedBy(rep)), control.inv.View())]);
          Tell(Snapshot(TouchedBy(rep)));
        } else {
          PublishAppend(start, before, RereadNames(control.inv.View(), TouchedBy(rep), env).notices);
          var ok := RereadAndPublish(TouchedBy(rep), env);
        }
      }
    }

    /** The second attempt, after the first one's error was published. */
    method InvokeAgain(call: ControlCall, maxAge: Option<int>, first: WriteReport, env: RunEnv,
        ghost before: seq<Notice>, ghost start: Coord)
      returns (result: Result<WriteReport, ControlError>)
      requires Valid() && !control.locked && settings.State() == PublishAll(start, before)
      modifies control, control.inv, settings
      ensures var ran := PlanAgain(control.cfg, old(control.Ctl()), call, maxAge, first, env, before);
              control.Ctl() == ran.ctl && result == ran.result && settings.State() == PublishAll(start, ran.notices)
      ensures Valid() && !control.locked
    {
      var outcome := Invoke(call, maxAge, env.second);
      match outcome {
        case Err(e) =>
          PublishAppend(start, before, PublishAfterError(control.inv.View(), e, env.again).notices);
          var ok := PublishError(e, env.again);
          result := Err(e);
        case Ok(rep) =>
          PublishReturn(Merged(first, rep), true, env.publish, before, start);
          result := Ok(Merged(first, rep));
      }
    }

    /** Publish a failed attempt; after an unanswered write or read-back, plan once more. */
    method RecoverFrom(e: ControlError, call: ControlCall, maxAge: Option<int>, env: RunEnv)
      returns (result: Result<WriteReport, ControlError>)
      requires Valid() && !control.locked
      modifies control, control.inv, settings
      ensures var ran := Recover(control.cfg, old(control.Ctl()), e, call, maxAge, env);
              control.Ctl() == ran.ctl && result == ran.result
                  && settings.State() == PublishAll(old(settings.State()), ran.notices)
      ensures Valid() && !control.locked
    {
      ghost var start := settings.State();
      ghost var notices := PublishAfterError(control.inv.View(), e, env.reread).notices;
      var ok := PublishError(e, env.reread);
      if !Retried(e) || !ok { return Err(e); }
      match Traffic.ReportOf(e) {
        case None => result := Err(AssertionTripped);
        case Some(first) => result := InvokeAgain(call, maxAge, first, env, notices, start);
      }
    }

    /** Run one control call, publish its outcome; after an unanswered write or read-back, plan once more. */
    method AsyncRunCall(call: ControlCall, publish: bool, maxAge: Option<int>, env: RunEnv)
        returns (result: Result<WriteReport, ControlError>)
      requires Valid() && !control.locked
      modifies control, control.inv, settings
      ensures var ran := AsyncRun(control.cfg, old(control.Ctl()), call, publish, maxAge, env);
              control.Ctl() == ran.ctl && result == ran.result
                  && settings.State() == PublishAll(old(settings.State()), ran.notices)
      ensures Valid() && !control.locked
    {
      ghost var start := settings.State();
      var outcome := Invoke(call, maxAge, env.first);
      match outcome {
        case Ok(rep) =>
          PublishReturn(rep, publish, env.publish, [], start);
          result := Ok(rep);
        case Err(e) =>
          if !publish { return Err(e); }
          result := RecoverFrom(e, call, maxAge, env);
      }
    }

    /** Put the battery into self-consumption, then shut the inverter down. */
    method AsyncStopInverter(maxAge: Option<int>, restore: RunEnv, stop: RunEnv)
        returns (result: Result<WriteReport, ControlError>)
      requires Valid() && !control.locked
      modifies control, control.inv, settings
      ensures var ran := RecoveryProperties.StopInverter(control.cfg, old(control.Ctl()), maxAge, restore, stop);
              control.Ctl() == ran.ctl && result == ran.result
                  && settings.State() == PublishAll(old(settings.State()), ran.notices)
      ensures Valid() && !control.locked
    {
      var restored := AsyncRunCall(RecoveryProperties.RESTORE, true, maxAge, restore);
      if restored.Err? { return restored; }
      ghost var middle := control.Ctl();
      SilentCommand(control.cfg, middle, maxAge, stop);
      var stopped := AsyncRunCall(Operate(Registers.Shutdown), false, maxAge, stop);
      if stopped.Err? { return stopped; }
      var a, b := restored.value, stopped.value;
      result := Ok(WriteReport(StartStopAction(Registers.Shutdown), a.writes + b.writes, a.skipped + b.skipped,
                               a.uncertain + b.uncertain, a.verified, a.at));
    }
  }

  /** A start/stop call publishes nothing to the settings coordinator. */
  lemma SilentCommand(cfg: Config, c: Control, maxAge: Option<int>, env: RunEnv)
    ensures AsyncRun(cfg, c, Operate(Registers.Shutdown), false, maxAge, env).notices == []
  {
  }
}
