/**
 What a battery plan does to the registers at every point of its execution: skipping is
 harmless and fences never rise.

 A battery plan writes registers that move no other one, so every argument here follows
 a single register through the steps.
 */
module BatterySafety {
  import Wrappers
  import opened Registers
  import opened Devices
  import opened Planner
  import opened Execution
  import opened StepFacts

  /** Writing this register moves no other one, mirroring or not. */
  predicate Plain(r: Register) { r != ExportLimit && r != FeedInRatio }

  predicate AllPlain(steps: seq<Step>) { forall s :: s in steps ==> Plain(s.reg) }

  /** Everything a battery plan looks at is cached truthfully. */
  predicate BatteryTruthful(d: Device) {
    && Truthful(d, EmsModeReg) && Truthful(d, ChargeCommandReg) && Truthful(d, ForcedPower)
    && Truthful(d, MaxCharge) && Truthful(d, MaxDischarge)
  }

  /** How a step on a plain register can end. */
  lemma DoStepCases(cfg: Config, p: Progress, s: Step, r: Register)
    requires Plain(s.reg) && p.error.None?
    ensures var q := DoStep(cfg, p, s);
            if Skipped(cfg, p.ctl, s) then q.ctl == p.ctl && q.error.None? && q.rest == p.rest
            else if Encode(s.reg, s.target).None? then q.ctl == p.ctl && q.error.Some? && q.rest == p.rest
            else
              var x, w := FirstExchange(p.rest), Encode(s.reg, s.target).value;
              && q.ctl.dev.wire == (if x.landed then p.ctl.dev.wire[s.reg := w] else p.ctl.dev.wire)
              && (q.error.None? <==> x.reply == Acked)
              && q.rest == RestExchanges(p.rest)
              && q.ctl.dev.cache[r] in {p.ctl.dev.cache[r], Decode(r, p.ctl.dev.wire[r]), Decode(r, q.ctl.dev.wire[r])}
  {
    StepCases(cfg, p, s, r);
  }

  /** One step seen at one register. */
  lemma DoStepAt(cfg: Config, p: Progress, s: Step, r: Register)
    requires Plain(s.reg) && p.error.None?
    ensures var q := DoStep(cfg, p, s);
            && (r != s.reg ==> q.ctl.dev.wire[r] == p.ctl.dev.wire[r])
            && (r == s.reg ==>
                 q.ctl.dev.wire[r] == p.ctl.dev.wire[r]
                 || Encode(r, s.target) == Wrappers.Some(q.ctl.dev.wire[r]))
            && q.ctl.dev.cache[r] in {p.ctl.dev.cache[r], Decode(r, p.ctl.dev.wire[r]), Decode(r, q.ctl.dev.wire[r])}
            && (Faithful(p.rest) ==> Faithful(q.rest))
  {
    DoStepCases(cfg, p, s, r);
  }

  predicate Avoids(steps: seq<Step>, r: Register) { forall s :: s in steps ==> s.reg != r }

  /** Steps on other registers leave this one alone, and its cached field truthful if it was. */
  lemma {:induction false} StepsFrame(cfg: Config, p: Progress, steps: seq<Step>, r: Register)
    requires AllPlain(steps) && Avoids(steps, r)
    ensures var q := DoSteps(cfg, p, steps);
            && q.ctl.dev.wire[r] == p.ctl.dev.wire[r]
            && (Truthful(p.ctl.dev, r) ==> Truthful(q.ctl.dev, r))
            && (Faithful(p.rest) ==> Faithful(q.rest))
    decreases |steps|
  {
    if steps != [] && p.error.None? {
      assert steps[0] in steps;
      DoStepAt(cfg, p, steps[0], r);
      StepsFrame(cfg, DoStep(cfg, p, steps[0]), steps[1..], r);
    }
  }

  // -- fences never rise -----------------------------------------------------------------

  predicate Distinct(steps: seq<Step>) {
    forall i, j :: 0 <= i < j < |steps| ==> steps[i].reg != steps[j].reg
  }

  lemma FenceStepLowers(cfg: Config, p: Progress, s: Step)
    requires IsLimit(s.reg) && s.how == AtOrBelow && s.target.Number? && Truthful(p.ctl.dev, s.reg) && p.error.None?
    ensures DoStep(cfg, p, s).ctl.dev.wire[s.reg] <= p.ctl.dev.wire[s.reg]
  {
    DoStepAt(cfg, p, s, s.reg);
    if Satisfied(s, Decode(s.reg, p.ctl.dev.wire[s.reg])) {
      FencedSkips(cfg, p, s);
    } else {
      FenceWordLowers(s, p.ctl.dev.wire[s.reg]);
    }
  }

  /** A fence that is met is skipped. */
  lemma FencedSkips(cfg: Config, p: Progress, s: Step)
    requires IsLimit(s.reg) && Truthful(p.ctl.dev, s.reg) && Satisfied(s, Decode(s.reg, p.ctl.dev.wire[s.reg]))
    ensures DoStep(cfg, p, s).ctl == p.ctl
  {
  }

  /** The word of a fence that is not met is lower. */
  lemma FenceWordLowers(s: Step, w: Word)
    requires IsLimit(s.reg) && s.how == AtOrBelow && s.target.Number? && !Satisfied(s, Decode(s.reg, w))
    ensures Encode(s.reg, s.target).Some? ==> Encode(s.reg, s.target).value <= w
  {
  }

  /** Whatever is answered and wherever it stops, no fenced register ends above where it started. */
  lemma {:induction false} FencesNeverRise(cfg: Config, p: Progress, steps: seq<Step>, r: Register)
    requires AllPlain(steps) && Distinct(steps) && IsLimit(r)
    requires forall s :: s in steps && s.reg == r ==> s.how == AtOrBelow && s.target.Number?
    requires Truthful(p.ctl.dev, r)
    ensures DoSteps(cfg, p, steps).ctl.dev.wire[r] <= p.ctl.dev.wire[r]
    decreases |steps|
  {
    if steps != [] && p.error.None? {
      var s := steps[0];
      assert s in steps;
      if s.reg == r {
        FenceStepLowers(cfg, p, s);
        assert Avoids(steps[1..], r);
        StepsFrame(cfg, DoStep(cfg, p, s), steps[1..], r);
      } else {
        DoStepAt(cfg, p, s, r);
        FencesNeverRise(cfg, DoStep(cfg, p, s), steps[1..], r);
      }
    }
  }

  /** The limits a mode fences. */
  predicate FencedBy(m: BatteryMode, r: Register) {
    || (r == MaxCharge && (m == NoCharge || m == Hold))
    || (r == MaxDischarge && (m == NoDischarge || m == Hold))
  }

  /** The step loop of `apply`, cut off after `k` steps. */
  function AfterSteps(cfg: Config, c: Control, want: DesiredState, xs: seq<Exchange>, k: nat): Progress
    requires Plan(cfg, c.dev, want).Ok? && k <= |Plan(cfg, c.dev, want).value|
  {
    DoSteps(cfg, Start(c, BatteryAction(want.mode), xs), Plan(cfg, c.dev, want).value[..k])
  }

  /** The step loop of `apply`, run to its end. */
  function Applied(cfg: Config, c: Control, want: DesiredState, xs: seq<Exchange>): Progress
    requires Plan(cfg, c.dev, want).Ok?
  {
    DoSteps(cfg, Start(c, BatteryAction(want.mode), xs), Plan(cfg, c.dev, want).value)
  }

  /** At every prefix of a fencing plan, with any failures, a fenced limit is at or below its start. */
  lemma FencedLimitNeverRises(cfg: Config, c: Control, want: DesiredState, xs: seq<Exchange>, k: nat, r: Register)
    requires Plan(cfg, c.dev, want).Ok? && k <= |Plan(cfg, c.dev, want).value|
    requires FencedBy(want.mode, r) && BatteryTruthful(c.dev)
    ensures AfterSteps(cfg, c, want, xs, k).ctl.dev.wire[r] <= c.dev.wire[r]
  {
    FencesNeverRise(cfg, Start(c, BatteryAction(want.mode), xs), Plan(cfg, c.dev, want).value[..k], r);
  }

  /** A limit register keeps its word or gets the one step that is planned for it. */
  lemma {:induction false} KeptOrWritten(cfg: Config, p: Progress, steps: seq<Step>, planned: Step)
    requires AllPlain(steps) && forall s :: s in steps && s.reg == planned.reg ==> s == planned
    ensures var w := DoSteps(cfg, p, steps).ctl.dev.wire[planned.reg];
            w == p.ctl.dev.wire[planned.reg] || Encode(planned.reg, planned.target) == Wrappers.Some(w)
    decreases |steps|
  {
    if steps != [] && p.error.None? {
      assert steps[0] in steps;
      DoStepAt(cfg, p, steps[0], planned.reg);
      KeptOrWritten(cfg, DoStep(cfg, p, steps[0]), steps[1..], planned);
    }
  }

  // -- skipping is harmless ------------------------------------------------------------------

  function Put(wire: Wire, s: Step): Wire {
    if Encode(s.reg, s.target).Some? then wire[s.reg := Encode(s.reg, s.target).value] else wire
  }

  /** The reference: write every step, in order, without looking. */
  function WriteAll(wire: Wire, steps: seq<Step>): Wire
    decreases |steps|
  {
    if steps == [] then wire else WriteAll(Put(wire, steps[0]), steps[1..])
  }

  lemma {:induction false} WriteAllAt(w1: Wire, w2: Wire, steps: seq<Step>, r: Register)
    requires w1[r] == w2[r]
    ensures WriteAll(w1, steps)[r] == WriteAll(w2, steps)[r]
    decreases |steps|
  {
    if steps != [] { WriteAllAt(Put(w1, steps[0]), Put(w2, steps[0]), steps[1..], r); }
  }

  lemma {:induction false} WriteAllAvoids(w: Wire, steps: seq<Step>, r: Register)
    requires Avoids(steps, r)
    ensures WriteAll(w, steps)[r] == w[r]
    decreases |steps|
  {
    if steps != [] {
      assert steps[0] in steps;
      WriteAllAvoids(Put(w, steps[0]), steps[1..], r);
    }
  }

  /** Neither what is cached or held now, nor what the earlier step leaves, can be taken for the later target. */
  predicate Overwrites(d: Device, earlier: Step, later: Step) {
    && later.how == Exactly && earlier.how == Exactly
    && !Satisfied(later, d.cache[later.reg])
    && !Satisfied(later, Decode(later.reg, d.wire[later.reg]))
    && (Encode(earlier.reg, earlier.target).Some? ==>
          !Satisfied(later, Decode(later.reg, Encode(earlier.reg, earlier.target).value)))
  }

  /** The stale cache cannot mislead the skip test at register `r`. */
  predicate ReadyAt(d: Device, steps: seq<Step>, r: Register) {
    && (forall s :: s in steps && s.reg == r ==> !s.how.Within? && (Truthful(d, r) || !Satisfied(s, d.cache[r])))
    && (forall i, j :: 0 <= j < i < |steps| && steps[i].reg == r && steps[j].reg == r
         ==> Overwrites(d, steps[j], steps[i]))
  }

  lemma ReadyAfterStep(cfg: Config, p: Progress, steps: seq<Step>, r: Register)
    requires steps != [] && p.error.None? && AllPlain(steps) && ReadyAt(p.ctl.dev, steps, r)
    ensures ReadyAt(DoStep(cfg, p, steps[0]).ctl.dev, steps[1..], r)
  {
    var s, rest := steps[0], steps[1..];
    var d, d1 := p.ctl.dev, DoStep(cfg, p, s).ctl.dev;
    assert s in steps;
    DoStepAt(cfg, p, s, r);
    forall t | t in rest && t.reg == r ensures !t.how.Within? && (Truthful(d1, r) || !Satisfied(t, d1.cache[r])) {
      assert t in steps;
      var i :| 0 <= i < |rest| && rest[i] == t;
      if s.reg == r { assert Overwrites(d, steps[0], steps[i + 1]); }
    }
    forall i, j | 0 <= j < i < |rest| && rest[i].reg == r && rest[j].reg == r ensures Overwrites(d1, rest[j], rest[i]) {
      assert Overwrites(d, steps[j + 1], steps[i + 1]);
      if s.reg == r { assert Overwrites(d, steps[0], steps[i + 1]); }
    }
  }

  /** The register kept its start word because that already satisfies a fence of the plan. */
  predicate AlreadyFenced(steps: seq<Step>, r: Register, before: Word, after: Word) {
    after == before && exists s :: s in steps && s.reg == r && s.how == AtOrBelow && Satisfied(s, Decode(r, after))
  }

  /** One step that raises nothing leaves what writing it would, or a register already fenced. */
  lemma StepMatchesPut(cfg: Config, p: Progress, s: Step)
    requires Plain(s.reg) && !s.how.Within? && Faithful(p.rest) && p.error.None?
    requires Truthful(p.ctl.dev, s.reg) || !Satisfied(s, p.ctl.dev.cache[s.reg])
    requires DoStep(cfg, p, s).error.None?
    ensures var w, q := p.ctl.dev.wire[s.reg], DoStep(cfg, p, s).ctl.dev.wire[s.reg];
            || q == Put(p.ctl.dev.wire, s)[s.reg]
            || (q == w && s.how == AtOrBelow && Satisfied(s, Decode(s.reg, w)))
  {
    DoStepCases(cfg, p, s, s.reg);
    SameOnWireIsSameWord(s.reg, p.ctl.dev.wire[s.reg], s.target);
    if p.rest != [] { assert p.rest[0] in p.rest; }
  }

  /** Two steps on one register are both exact. */
  lemma RepeatsAreExact(d: Device, steps: seq<Step>, r: Register, t: Step)
    requires steps != [] && steps[0].reg == r && ReadyAt(d, steps, r) && t in steps[1..] && t.reg == r
    ensures steps[0].how == Exactly && t.how == Exactly
  {
    var i :| 0 <= i < |steps[1..]| && steps[1..][i] == t;
    assert Overwrites(d, steps[0], steps[i + 1]);
  }

  /** What the rest leaves after a step on another register. */
  lemma SkippingPastOther(wire: Wire, wire1: Wire, steps: seq<Step>, r: Register, after: Word)
    requires steps != [] && steps[0].reg != r && wire1[r] == wire[r]
    requires after == WriteAll(wire1, steps[1..])[r] || AlreadyFenced(steps[1..], r, wire1[r], after)
    ensures after == WriteAll(wire, steps)[r] || AlreadyFenced(steps, r, wire[r], after)
  {
    WriteAllAt(wire1, Put(wire, steps[0]), steps[1..], r);
    if AlreadyFenced(steps[1..], r, wire1[r], after) {
      var t :| t in steps[1..] && t.reg == r && t.how == AtOrBelow && Satisfied(t, Decode(r, after));
      assert t in steps;
    }
  }

  /** What the rest leaves after an exact step on this register. */
  lemma SkippingPastExact(d: Device, wire1: Wire, steps: seq<Step>, r: Register, after: Word)
    requires steps != [] && steps[0].reg == r && ReadyAt(d, steps, r) && steps[0].how == Exactly
    requires wire1[r] == Put(d.wire, steps[0])[r]
    requires after == WriteAll(wire1, steps[1..])[r] || AlreadyFenced(steps[1..], r, wire1[r], after)
    ensures after == WriteAll(d.wire, steps)[r]
  {
    WriteAllAt(wire1, Put(d.wire, steps[0]), steps[1..], r);
    if AlreadyFenced(steps[1..], r, wire1[r], after) {
      var t :| t in steps[1..] && t.reg == r && t.how == AtOrBelow;
      RepeatsAreExact(d, steps, r, t);
    }
  }

  /** What the rest leaves after a fence on this register. */
  lemma SkippingPastFence(cfg: Config, p: Progress, steps: seq<Step>, r: Register)
    requires steps != [] && steps[0].reg == r && steps[0].how == AtOrBelow
    requires p.error.None? && AllPlain(steps) && ReadyAt(p.ctl.dev, steps, r) && Faithful(p.rest)
    requires DoStep(cfg, p, steps[0]).error.None?
    ensures var after := DoSteps(cfg, p, steps).ctl.dev.wire[r];
            after == WriteAll(p.ctl.dev.wire, steps)[r] || AlreadyFenced(steps, r, p.ctl.dev.wire[r], after)
  {
    var s, rest := steps[0], steps[1..];
    assert s in steps;
    StepMatchesPut(cfg, p, s);
    forall t | t in rest ensures t.reg != r {
      if t.reg == r { RepeatsAreExact(p.ctl.dev, steps, r, t); }
    }
    StepsFrame(cfg, DoStep(cfg, p, s), rest, r);
    WriteAllAvoids(Put(p.ctl.dev.wire, s), rest, r);
  }

  /**
   Writing only what differs, against a cache that writes do not update or that is re-read
   between any two steps, leaves in each register what writing every step in order leaves.
   */
  lemma {:induction false} SkippingIsHarmless(cfg: Config, p: Progress, steps: seq<Step>, r: Register)
    requires p.error.None? && AllPlain(steps) && ReadyAt(p.ctl.dev, steps, r) && Faithful(p.rest)
    requires DoSteps(cfg, p, steps).error.None?
    ensures var after := DoSteps(cfg, p, steps).ctl.dev.wire[r];
            after == WriteAll(p.ctl.dev.wire, steps)[r] || AlreadyFenced(steps, r, p.ctl.dev.wire[r], after)
    decreases |steps|
  {
    if steps != [] {
      var p1 := DoStep(cfg, p, steps[0]);
      if p1.error.Some? { ErrorEnds(cfg, p1, steps[1..]); }
      assert steps[0] in steps;
      if steps[0].reg == r && steps[0].how == AtOrBelow {
        SkippingPastFence(cfg, p, steps, r);
      } else {
        DoStepAt(cfg, p, steps[0], r);
        ReadyAfterStep(cfg, p, steps, r);
        SkippingIsHarmless(cfg, p1, steps[1..], r);
        var after := DoSteps(cfg, p, steps).ctl.dev.wire[r];
        if steps[0].reg == r {
          StepMatchesPut(cfg, p, steps[0]);
          SkippingPastExact(p.ctl.dev, p1.ctl.dev.wire, steps, r, after);
        } else {
          SkippingPastOther(p.ctl.dev.wire, p1.ctl.dev.wire, steps, r, after);
        }
      }
    }
  }

  predicate BatteryRegister(r: Register) { r in {EmsModeReg, ChargeCommandReg, ForcedPower, MaxCharge, MaxDischarge} }

  predicate BatteryWrite(s: Step) { Plain(s.reg) && BatteryRegister(s.reg) && !s.how.Within? }

  lemma ForcedTailWrites(m: BatteryMode, power: int, reversing: bool, s: Step)
    requires s in ForcedTail(m, power, reversing)
    ensures BatteryWrite(s)
  {
  }

  lemma BatteryPlanWrite(cfg: Config, d: Device, want: DesiredState, s: Step)
    requires Plan(cfg, d, want).Ok? && s in Plan(cfg, d, want).value
    ensures BatteryWrite(s)
  {
    if IsForced(want.mode) {
      if s !in BothRestored(Limits(cfg).value) {
        ForcedTailWrites(want.mode, want.power.value, Reversing(d, want.mode), s);
      }
    }
  }

  /** The registers a battery plan writes, and how. */
  lemma BatteryPlanWrites(cfg: Config, d: Device, want: DesiredState)
    requires Plan(cfg, d, want).Ok?
    ensures var steps := Plan(cfg, d, want).value;
            AllPlain(steps) && (forall s :: s in steps ==> BatteryRegister(s.reg) && !s.how.Within?)
  {
    forall s | s in Plan(cfg, d, want).value ensures BatteryWrite(s) { BatteryPlanWrite(cfg, d, want, s); }
  }

  /** The only register a battery plan writes twice is the command, when it reverses a running forced mode. */
  lemma BatteryPlanRepeats(cfg: Config, d: Device, want: DesiredState, i: nat, j: nat)
    requires Plan(cfg, d, want).Ok? && j < i < |Plan(cfg, d, want).value|
    requires Plan(cfg, d, want).value[i].reg == Plan(cfg, d, want).value[j].reg
    ensures var steps := Plan(cfg, d, want).value;
            steps[j] == STOP_FIRST && steps[i] == CommandStep(want.mode) && Reversing(d, want.mode)
  {
  }

  lemma BatteryPlanIsReady(cfg: Config, d: Device, want: DesiredState, r: Register)
    requires Plan(cfg, d, want).Ok? && BatteryTruthful(d)
    ensures ReadyAt(d, Plan(cfg, d, want).value, r)
  {
    BatteryPlanWrites(cfg, d, want);
    var steps := Plan(cfg, d, want).value;
    if Reversing(d, want.mode) { assert Overwrites(d, STOP_FIRST, CommandStep(want.mode)); }
    forall i, j | 0 <= j < i < |steps| && steps[i].reg == r && steps[j].reg == r
        ensures Overwrites(d, steps[j], steps[i]) {
      BatteryPlanRepeats(cfg, d, want, i, j);
    }
    forall s | s in steps && s.reg == r ensures Truthful(d, r) { assert BatteryRegister(s.reg); }
  }

  /**
   A completed battery plan leaves in every register what writing every step in order leaves, up
   to fences already lower.
   */
  lemma BatteryPlanEndsAsWritten(cfg: Config, c: Control, want: DesiredState, xs: seq<Exchange>, r: Register)
    requires Plan(cfg, c.dev, want).Ok? && BatteryTruthful(c.dev) && Faithful(xs)
    requires Applied(cfg, c, want, xs).error.None?
    ensures var steps, after := Plan(cfg, c.dev, want).value, Applied(cfg, c, want, xs).ctl.dev.wire[r];
            after == WriteAll(c.dev.wire, steps)[r] || AlreadyFenced(steps, r, c.dev.wire[r], after)
  {
    BatteryPlanWrites(cfg, c.dev, want);
    BatteryPlanIsReady(cfg, c.dev, want, r);
    SkippingIsHarmless(cfg, Start(c, BatteryAction(want.mode), xs), Plan(cfg, c.dev, want).value, r);
  }

  /** Without an error every exact target had a word. */
  lemma {:induction false} NoErrorNeedsCodes(cfg: Config, p: Progress, steps: seq<Step>)
    requires p.error.None? && DoSteps(cfg, p, steps).error.None?
    ensures forall s :: s in steps && s.how == Exactly ==> Encode(s.reg, s.target).Some?
    decreases |steps|
  {
    if steps != [] {
      var p1 := DoStep(cfg, p, steps[0]);
      if p1.error.Some? { ErrorEnds(cfg, p1, steps[1..]); }
      NoErrorNeedsCodes(cfg, p1, steps[1..]);
    }
  }
}
