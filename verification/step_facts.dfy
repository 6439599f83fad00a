/** What a single step of the loop can do, for any answer and whatever other tasks re-read. */
module StepFacts {
  import Wrappers
  import opened Registers
  import opened Devices
  import opened Planner
  import opened Execution

  /** The cached field is what the register decodes to. */
  predicate Truthful(d: Device, r: Register) { d.cache[r] == Decode(r, d.wire[r]) }

  /** The inverter does what it acknowledges. */
  predicate Faithful(xs: seq<Exchange>) {
    forall x :: x in xs && x.reply == Acked ==> x.landed
  }

  /** Re-reads leave a cached field as it was or refresh it. */
  lemma DisturbAt(d: Device, events: seq<Event>, r: Register)
    ensures Disturb(d, events).wire == d.wire
    ensures Disturb(d, events).cache[r] == d.cache[r] || Disturb(d, events).cache[r] == Decode(r, d.wire[r])
  {
    DisturbUndisturbed(d, events);
  }

  /** The registers after one exchange. */
  function Landed(mirrors: Wrappers.Option<int>, wire: Wire, r: Register, w: Word, x: Exchange): Wire {
    if x.landed then Land(mirrors, wire, r, w, x.up) else wire
  }

  /** One write, seen at register `r`, with whatever other tasks re-read around it. */
  lemma TransmitAt(mirrors: Wrappers.Option<int>, d: Device, reg: Register, v: Value, w: Word, x: Exchange, r: Register)
    ensures var d1 := Transmit(mirrors, d, reg, v, w, x);
            && d1.wire == Landed(mirrors, d.wire, reg, w, x)
            && d1.cache[r] in {d.cache[r], Decode(r, d.wire[r]), Decode(r, d1.wire[r])}
  {
    DisturbAt(d, x.before, r);
    DisturbAt(Deliver(mirrors, Disturb(d, x.before), reg, v, w, x), x.after, r);
  }

  /** How one step can end: skipped, refused by the validator, or written. */
  lemma StepCases(cfg: Config, p: Progress, s: Step, r: Register)
    requires p.error.None?
    ensures var q := DoStep(cfg, p, s);
            if Skipped(cfg, p.ctl, s) then q.ctl == p.ctl && q.error.None? && q.rest == p.rest
            else if Encode(s.reg, s.target).None? then q.ctl == p.ctl && q.error.Some? && q.rest == p.rest
            else
              var x, w := FirstExchange(p.rest), Encode(s.reg, s.target).value;
              && q.ctl.dev.wire == Landed(cfg.mirrors, p.ctl.dev.wire, s.reg, w, x)
              && (q.error.None? <==> x.reply == Acked)
              && q.rest == RestExchanges(p.rest)
              && q.ctl.dev.cache[r] in {p.ctl.dev.cache[r], Decode(r, p.ctl.dev.wire[r]), Decode(r, q.ctl.dev.wire[r])}
  {
    if !Skipped(cfg, p.ctl, s) && Encode(s.reg, s.target).Some? {
      var w := Encode(s.reg, s.target).value;
      WriteStepDevice(cfg, p, s, w);
      TransmitAt(cfg.mirrors, p.ctl.dev, s.reg, s.target, w, FirstExchange(p.rest), r);
      assert DoStep(cfg, p, s) == WriteStep(cfg, p, s, w);
    }
  }

  /** A step that is not skipped and raises nothing is in the registers of a faithful inverter. */
  lemma AckedStepLands(cfg: Config, p: Progress, s: Step, w: Word)
    requires p.error.None? && Faithful(p.rest) && !Skipped(cfg, p.ctl, s) && Encode(s.reg, s.target) == Wrappers.Some(w)
    requires DoStep(cfg, p, s).error.None?
    ensures var q := DoStep(cfg, p, s);
            && q.ctl.dev.wire == Land(cfg.mirrors, p.ctl.dev.wire, s.reg, w, FirstExchange(p.rest).up)
            && q.ctl.dev.wire[s.reg] == w && Faithful(q.rest)
  {
    StepCases(cfg, p, s, s.reg);
    LandWrites(cfg.mirrors, p.ctl.dev.wire, s.reg, w, FirstExchange(p.rest).up);
    if p.rest != [] { assert p.rest[0] in p.rest; }
  }

  lemma ErrorEnds(cfg: Config, p: Progress, steps: seq<Step>)
    requires p.error.Some?
    ensures DoSteps(cfg, p, steps) == p
  {
  }

  lemma {:induction false} DoStepsAppend(cfg: Config, p: Progress, a: seq<Step>, b: seq<Step>)
    ensures DoSteps(cfg, p, a + b) == DoSteps(cfg, DoSteps(cfg, p, a), b)
    decreases |a|
  {
    if a == [] {
      assert a + b == b;
    } else if p.error.None? {
      assert (a + b)[1..] == a[1..] + b;
      DoStepsAppend(cfg, DoStep(cfg, p, a[0]), a[1..], b);
    }
  }

  /** The components the guarded calls write to are not re-read. */
  predicate Unread(events: seq<Event>) {
    forall e :: e in events && e.Reread? ==> e.component != Settings && e.component != BatteryLimits
  }

  /** Every write is acknowledged and lands, and nothing it touches is re-read meanwhile. */
  predicate Undisturbing(xs: seq<Exchange>) {
    forall x :: x in xs ==> x.reply == Acked && x.landed && Unread(x.before) && Unread(x.after)
  }

  /** The guarded components are cached and stamped as before. */
  ghost predicate SameCached(d: Device, d1: Device) {
    && (forall r: Register :: ComponentOf(r) in {Settings, BatteryLimits} ==> d1.cache[r] == d.cache[r])
    && (Settings in d1.refreshed <==> Settings in d.refreshed)
    && (BatteryLimits in d1.refreshed <==> BatteryLimits in d.refreshed)
  }

  lemma {:induction false} UnreadKeepsCached(d: Device, events: seq<Event>)
    requires Unread(events)
    ensures SameCached(d, Disturb(d, events))
    decreases |events|
  {
    if events != [] {
      assert events[0] in events;
      UnreadKeepsCached(Happen(d, events[0]), events[1..]);
    }
  }

  /** An undisturbed step that is not skipped: its word is in the registers, and the cache does not know. */
  lemma UndisturbedStep(cfg: Config, p: Progress, s: Step)
    requires p.error.None? && Undisturbing(p.rest) && (Encode(s.reg, s.target).Some? || Skipped(cfg, p.ctl, s))
    ensures var q := DoStep(cfg, p, s);
            && q.error.None? && Undisturbing(q.rest) && SameCached(p.ctl.dev, q.ctl.dev)
            && q.ctl.dev.wire == (if Skipped(cfg, p.ctl, s) then p.ctl.dev.wire
                                  else Land(cfg.mirrors, p.ctl.dev.wire, s.reg, Encode(s.reg, s.target).value,
                                      FirstExchange(p.rest).up))
            && q.rest == (if Skipped(cfg, p.ctl, s) then p.rest else RestExchanges(p.rest))
  {
    if !Skipped(cfg, p.ctl, s) {
      var x, w := FirstExchange(p.rest), Encode(s.reg, s.target).value;
      assert x in p.rest || x == QUIET;
      TransmitAt(cfg.mirrors, p.ctl.dev, s.reg, s.target, w, x, s.reg);
      UnreadKeepsCached(p.ctl.dev, x.before);
      UnreadKeepsCached(Deliver(cfg.mirrors, Disturb(p.ctl.dev, x.before), s.reg, s.target, w, x), x.after);
      WriteStepDevice(cfg, p, s, w);
      assert DoStep(cfg, p, s) == WriteStep(cfg, p, s, w);
    }
  }

  lemma ThreeSteps(cfg: Config, p: Progress, a: Step, b: Step, c: Step)
    requires p.error.None? && DoStep(cfg, p, a).error.None? && DoStep(cfg, DoStep(cfg, p, a), b).error.None?
    ensures DoSteps(cfg, p, [a] + [b] + [c]) == DoStep(cfg, DoStep(cfg, DoStep(cfg, p, a), b), c)
  {
    DoStepsAppend(cfg, p, [a] + [b], [c]);
    DoStepsAppend(cfg, p, [a], [b]);
    OneStep(cfg, p, a);
    OneStep(cfg, DoStep(cfg, p, a), b);
    OneStep(cfg, DoStep(cfg, DoStep(cfg, p, a), b), c);
  }

  /** Three steps that raised nothing were done one after the other. */
  lemma ThreeStepsDone(cfg: Config, p: Progress, a: Step, b: Step, c: Step)
    requires p.error.None? && DoSteps(cfg, p, [a] + [b] + [c]).error.None?
    ensures var q := DoStep(cfg, p, a);
            var q1 := DoStep(cfg, q, b);
            q.error.None? && q1.error.None? && DoSteps(cfg, p, [a] + [b] + [c]) == DoStep(cfg, q1, c)
  {
    var q := DoStep(cfg, p, a);
    var q1 := DoStep(cfg, q, b);
    DoStepsAppend(cfg, p, [a] + [b], [c]);
    DoStepsAppend(cfg, p, [a], [b]);
    OneStep(cfg, p, a);
    if q.error.Some? {
      ErrorEnds(cfg, q, [b]);
      ErrorEnds(cfg, q, [c]);
    } else {
      OneStep(cfg, q, b);
      if q1.error.Some? { ErrorEnds(cfg, q1, [c]); } else { OneStep(cfg, q1, c); }
    }
  }

  lemma OneStep(cfg: Config, p: Progress, s: Step)
    requires p.error.None?
    ensures DoSteps(cfg, p, [s]) == DoStep(cfg, p, s)
  {
    assert DoSteps(cfg, p, [s]) == DoSteps(cfg, DoStep(cfg, p, s), []);
  }
}
