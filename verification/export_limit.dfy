/**
 The feed-in limit: two registers for one cap, which an SH-T keeps in step by itself.
 No prefix of the call caps the export above what it started with or was asked for, and
 the enable is only switched on over the requested watts.
 */
module ExportLimiting {
  import opened Wrappers
  import opened Registers
  import opened Devices
  import Polling
  import opened Planner
  import opened Execution
  import Honesty
  import opened StepFacts

  // -- arithmetic of the ratio ---------------------------------------------------------

  lemma DivRoundNear(n: int, d: int, up: bool)
    requires d > 0
    ensures n - d < DivRound(n, d, up) * d < n + d
    ensures n >= 0 ==> DivRound(n, d, up) >= 0
  {
    assert n == (n / d) * d + n % d;
    assert (n / d + 1) * d == (n / d) * d + d;
  }

  lemma DivMod(n: int, d: int)
    requires d > 0
    ensures n == (n / d) * d + n % d && 0 <= n % d < d
    ensures (n / d + 1) * d == (n / d) * d + d
    ensures n >= 0 ==> n / d >= 0
  {
  }

  lemma RoundHalfNear(n: int, d: int, tieUp: bool)
    requires d > 0
    ensures 2 * n - d <= 2 * (RoundHalf(n, d, tieUp) * d) <= 2 * n + d
    ensures n >= 0 ==> RoundHalf(n, d, tieUp) >= 0
  {
    DivMod(n, d);
  }

  /** The implied ratio is the nearest number of tenths, both ways of breaking a tie included. */
  lemma ImpliedNear(cfg: Config, limit: int, nominal: int)
    requires nominal > 0 && 0 <= limit
    ensures 0 <= Implied(cfg, limit, nominal) <= 1000
    ensures 2 * (Implied(cfg, limit, nominal) * nominal) <= 2000 * limit + nominal
    ensures limit <= nominal ==> 2 * (Implied(cfg, limit, nominal) * nominal) >= 2000 * limit - nominal
  {
    RoundHalfNear(1000 * limit, nominal, cfg.tieUp);
    var t := RoundHalf(1000 * limit, nominal, cfg.tieUp);
    if t > 1000 { MulOrder(1000, t, nominal); }
  }

  lemma MulOrder(a: int, b: int, d: int)
    requires a <= b && d > 0
    ensures a * d <= b * d
  {
  }

  /** Two whole numbers whose multiples of `d` are less than two `d` apart differ by at most one. */
  lemma AtMostOneApart(a: int, b: int, d: int)
    requires d > 0 && -2 * d < a * d - b * d < 2 * d
    ensures -1 <= a - b <= 1
  {
    assert (a - b) * d == a * d - b * d;
    assert (b - a) * d == b * d - a * d;
    if a - b >= 2 { MulOrder(2, a - b, d); }
    if b - a >= 2 { MulOrder(2, b - a, d); }
  }

  // -- the two caps -----------------------------------------------------------------------

  /** The two feed-in registers say the same, up to the rounding of the ratio. */
  predicate Consistent(nominal: int, wire: Wire) {
    -nominal < 1000 * (wire[ExportLimit] as int) - (wire[FeedInRatio] as int) * nominal < nominal
  }

  /** Neither cap, in thousandths of a watt, exceeds its bound. */
  predicate Capped(nominal: int, watts: int, ratio: int, wire: Wire) {
    1000 * (wire[ExportLimit] as int) <= watts && (wire[FeedInRatio] as int) * nominal <= ratio
  }

  function Max(a: int, b: int): int { if a > b then a else b }

  /** The larger of where a cap starts and the requested limit plus a thousandth of nominal. */
  function WattsBound(nominal: int, limit: int, start: Wire): int {
    Max(1000 * (start[ExportLimit] as int), 1000 * limit + nominal)
  }

  function RatioBound(nominal: int, limit: int, start: Wire): int {
    Max((start[FeedInRatio] as int) * nominal, 1000 * limit + nominal)
  }

  /** What the model of the inverter is told about mirroring: not at all, or by its nominal power. */
  predicate Mirroring(cfg: Config, nominal: int) {
    cfg.nominal == Some(nominal) && (cfg.mirrors.None? || cfg.mirrors == Some(nominal))
  }

  lemma ClampedAtMost(n: int)
    requires n >= 0
    ensures ClampWord(n) as int <= n
  {
  }

  lemma ClampedProduct(n: int, d: int)
    requires n >= 0 && d > 0
    ensures (ClampWord(n) as int) * d <= n * d
  {
    ClampedAtMost(n);
    MulOrder(ClampWord(n), n, d);
  }

  /** A landed ratio write keeps both caps below their bounds. */
  lemma RatioLandsCapped(cfg: Config, nominal: int, limit: int, wire: Wire, w: Word, up: bool, watts: int, ratio: int)
    requires nominal >= 2000 && limit >= 0 && Mirroring(cfg, nominal) && w as int == Implied(cfg, limit, nominal)
    requires Capped(nominal, watts, ratio, wire) && watts >= 1000 * limit + nominal && ratio >= 1000 * limit + nominal
    ensures Capped(nominal, watts, ratio, Land(cfg.mirrors, wire, FeedInRatio, w, up))
  {
    ImpliedNear(cfg, limit, nominal);
    var n := (w as int) * nominal;
    DivRoundNear(n, 1000, up);
    ClampedAtMost(DivRound(n, 1000, up));
  }

  /** A landed watts write keeps both caps below their bounds. */
  lemma WattsLandsCapped(cfg: Config, nominal: int, limit: int, wire: Wire, w: Word, up: bool, watts: int, ratio: int)
    requires nominal > 0 && limit >= 0 && Mirroring(cfg, nominal) && w as int == limit
    requires Capped(nominal, watts, ratio, wire) && watts >= 1000 * limit + nominal && ratio >= 1000 * limit + nominal
    ensures Capped(nominal, watts, ratio, Land(cfg.mirrors, wire, ExportLimit, w, up))
  {
    DivRoundNear(1000 * limit, nominal, up);
    ClampedProduct(DivRound(1000 * limit, nominal, up), nominal);
  }

  /** The steps an enabled limit may plan. */
  predicate ExportStep(cfg: Config, limit: int, nominal: int, s: Step)
    requires nominal > 0
  {
    || s == Step(FeedInRatio, Number(Implied(cfg, limit, nominal)), Within(1))
    || s == WattsStep(limit) || s.reg == ExportEnabled
  }

  lemma StepStaysCapped(cfg: Config, p: Progress, s: Step, nominal: int, limit: int, watts: int, ratio: int)
    requires p.error.None? && nominal >= 2000 && limit >= 0 && Mirroring(cfg, nominal)
    requires ExportStep(cfg, limit, nominal, s)
    requires Capped(nominal, watts, ratio, p.ctl.dev.wire) && watts >= 1000 * limit + nominal
    requires ratio >= 1000 * limit + nominal
    ensures Capped(nominal, watts, ratio, DoStep(cfg, p, s).ctl.dev.wire)
  {
    StepCases(cfg, p, s, s.reg);
    if !Skipped(cfg, p.ctl, s) && Encode(s.reg, s.target).Some? {
      var w, x := Encode(s.reg, s.target).value, FirstExchange(p.rest);
      if s.reg == FeedInRatio {
        RatioLandsCapped(cfg, nominal, limit, p.ctl.dev.wire, w, x.up, watts, ratio);
      } else if s.reg == ExportLimit {
        WattsLandsCapped(cfg, nominal, limit, p.ctl.dev.wire, w, x.up, watts, ratio);
      }
    }
  }

  lemma {:induction false} StepsStayCapped(cfg: Config, p: Progress, steps: seq<Step>, nominal: int, limit: int,
      watts: int, ratio: int)
    requires nominal >= 2000 && limit >= 0 && Mirroring(cfg, nominal)
    requires forall s :: s in steps ==> ExportStep(cfg, limit, nominal, s)
    requires Capped(nominal, watts, ratio, p.ctl.dev.wire) && watts >= 1000 * limit + nominal
    requires ratio >= 1000 * limit + nominal
    ensures Capped(nominal, watts, ratio, DoSteps(cfg, p, steps).ctl.dev.wire)
    decreases |steps|
  {
    if steps != [] && p.error.None? {
      assert steps[0] in steps;
      StepStaysCapped(cfg, p, steps[0], nominal, limit, watts, ratio);
      StepsStayCapped(cfg, DoStep(cfg, p, steps[0]), steps[1..], nominal, limit, watts, ratio);
    }
  }

  /**
   At every prefix of `set_export_limit`, mirroring or not, whatever is answered, ignored or
   half-landed: neither cap exceeds the larger of where it started and the requested watts
   plus a thousandth of nominal.
   */
  lemma CapsNeverExceed(cfg: Config, c: Control, limit: int, enabled: bool, xs: seq<Exchange>, k: nat, nominal: int)
    requires nominal >= 2000 && limit >= 0 && Mirroring(cfg, nominal)
    requires ExportPlan(cfg, c.dev, Some(limit), enabled).Ok?
    requires k <= |ExportPlan(cfg, c.dev, Some(limit), enabled).value|
    ensures var wire :=
            DoSteps(cfg, Start(c, ExportAction, xs),
                ExportPlan(cfg, c.dev, Some(limit), enabled).value[..k]).ctl.dev.wire;
            Capped(nominal, WattsBound(nominal, limit, c.dev.wire), RatioBound(nominal, limit, c.dev.wire), wire)
  {
    var steps := ExportPlan(cfg, c.dev, Some(limit), enabled).value;
    forall s | s in steps[..k] ensures ExportStep(cfg, limit, nominal, s) { assert s in steps; }
    StepsStayCapped(cfg, Start(c, ExportAction, xs), steps[..k], nominal, limit,
                    WattsBound(nominal, limit, c.dev.wire), RatioBound(nominal, limit, c.dev.wire));
  }

  // -- what the enable is switched on over ---------------------------------------------------

  predicate ExportTruthful(d: Device) {
    Truthful(d, ExportLimit) && Truthful(d, FeedInRatio) && Truthful(d, ExportEnabled)
  }

  /** The ratio register is readable and within a tenth of the implied ratio. */
  predicate RatioNear(cfg: Config, limit: int, nominal: int, wire: Wire)
    requires nominal > 0
  {
    wire[FeedInRatio] != NOT_AVAILABLE && -1 <= wire[FeedInRatio] as int - Implied(cfg, limit, nominal) <= 1
  }

  /** Both registers carry the requested limit, or the watts alone where the ratio was unreadable and still is. */
  predicate Limited(cfg: Config, limit: int, nominal: int, start: Wire, wire: Wire)
    requires nominal > 0
  {
    wire[ExportLimit] as int == limit && RatioKept(cfg, limit, nominal, start, wire)
  }

  /** The ratio register is readable and more than a tenth away from the implied ratio. */
  predicate RatioAway(cfg: Config, limit: int, nominal: int, wire: Wire)
    requires nominal > 0
  {
    wire[FeedInRatio] != NOT_AVAILABLE && !RatioNear(cfg, limit, nominal, wire)
  }

  /**
   The case the stale cache gets wrong: the watts already read as the limit while the ratio
   does not agree, so a mirroring inverter moves the watts when the ratio is aligned, and the
   watts step is skipped.
   */
  predicate StaleTrap(cfg: Config, limit: int, nominal: int, wire: Wire)
    requires nominal > 0
  {
    cfg.mirrors.Some? && wire[ExportLimit] as int == limit && RatioAway(cfg, limit, nominal, wire)
  }

  /** Registers that say the same spring the trap only for a limit above nominal, over a ratio above 100.1 %. */
  lemma ConsistentAvoidsTrap(cfg: Config, limit: int, nominal: int, wire: Wire)
    requires nominal > 0 && 0 <= limit && Consistent(nominal, wire)
    ensures StaleTrap(cfg, limit, nominal, wire) ==> limit > nominal && wire[FeedInRatio] > 1001
  {
    if StaleTrap(cfg, limit, nominal, wire) {
      ImpliedNear(cfg, limit, nominal);
      if limit <= nominal {
        AtMostOneApart(wire[FeedInRatio], Implied(cfg, limit, nominal), nominal);
      } else {
        ImpliedAboveNominal(cfg, limit, nominal);
        if wire[FeedInRatio] <= 999 { MulOrder(wire[FeedInRatio], 999, nominal); }
      }
    }
  }

  /** A limit above nominal implies 100 %. */
  lemma ImpliedAboveNominal(cfg: Config, limit: int, nominal: int)
    requires nominal > 0 && limit > nominal
    ensures Implied(cfg, limit, nominal) == 1000
  {
    var t := RoundHalf(1000 * limit, nominal, cfg.tieUp);
    RoundHalfNear(1000 * limit, nominal, cfg.tieUp);
    if t <= 999 { MulOrder(t, 999, nominal); }
  }

  /** Where a landed watts write mirrors the ratio. */
  function MirroredRatio(limit: int, nominal: int, up: bool): Word
    requires nominal > 0
  {
    ClampWord(DivRound(1000 * limit, nominal, up))
  }

  /** The mirrored ratio is one that the ratio step accepts. */
  predicate MirrorsNear(cfg: Config, limit: int, nominal: int, up: bool)
    requires nominal > 0
  {
    var m := MirroredRatio(limit, nominal, up);
    m != NOT_AVAILABLE && -1 <= m as int - Implied(cfg, limit, nominal) <= 1
  }

  /** Above nominal that is a mirrored ratio of at most 100.1 %. */
  lemma MirrorsNearAboveNominal(cfg: Config, limit: int, nominal: int, up: bool)
    requires nominal > 0 && limit > nominal
    ensures MirrorsNear(cfg, limit, nominal, up) <==> DivRound(1000 * limit, nominal, up) <= 1001
  {
    var m := DivRound(1000 * limit, nominal, up);
    ImpliedAboveNominal(cfg, limit, nominal);
    DivRoundNear(1000 * limit, nominal, up);
    if m <= 999 { MulOrder(m, 999, nominal); }
  }

  /** Up to nominal a mirrored ratio is always within a tenth of the implied one. */
  lemma MirroredRatioIsNear(cfg: Config, limit: int, nominal: int, up: bool)
    requires nominal > 0 && 0 <= limit <= nominal
    ensures 0 <= DivRound(1000 * limit, nominal, up) <= 1000
    ensures MirrorsNear(cfg, limit, nominal, up)
  {
    var m := DivRound(1000 * limit, nominal, up);
    DivRoundNear(1000 * limit, nominal, up);
    ImpliedNear(cfg, limit, nominal);
    AtMostOneApart(m, Implied(cfg, limit, nominal), nominal);
    if m >= 1001 { MulOrder(1001, m, nominal); }
  }

  lemma SatisfiedWatts(w: Word, limit: int)
    ensures Satisfied(WattsStep(limit), Decode(ExportLimit, w)) <==> w as int == limit
  {
  }

  /** A skip of the watts step can be believed: the field is truthful, or does not read as the limit. */
  predicate WattsSeen(d: Device, limit: int) {
    Truthful(d, ExportLimit) || !Satisfied(WattsStep(limit), d.cache[ExportLimit])
  }

  /** The watts step leaves the limit in its register, and the ratio as it was or as it is mirrored. */
  lemma WattsStepLimits(cfg: Config, p: Progress, limit: int, nominal: int)
    requires p.error.None? && Faithful(p.rest) && Mirroring(cfg, nominal) && nominal > 0 && 0 <= limit
    requires WattsSeen(p.ctl.dev, limit) && DoStep(cfg, p, WattsStep(limit)).error.None?
    ensures DoStep(cfg, p, WattsStep(limit)).ctl.dev.wire[ExportLimit] as int == limit
  {
    var s := WattsStep(limit);
    StepCases(cfg, p, s, ExportLimit);
    if Skipped(cfg, p.ctl, s) {
      SatisfiedWatts(p.ctl.dev.wire[ExportLimit], limit);
    } else {
      if p.rest != [] { assert p.rest[0] in p.rest; }
    }
  }

  /** What the watts step leaves in the ratio register, landed or not. */
  lemma WattsStepRatio(cfg: Config, p: Progress, limit: int, nominal: int)
    requires p.error.None? && Mirroring(cfg, nominal) && nominal > 0
    ensures var q, x := DoStep(cfg, p, WattsStep(limit)), FirstExchange(p.rest);
            && (q.ctl.dev.wire[FeedInRatio] == p.ctl.dev.wire[FeedInRatio]
                || (cfg.mirrors.Some? && q.ctl.dev.wire[FeedInRatio] == MirroredRatio(limit, nominal, x.up)))
            && (!Skipped(cfg, p.ctl, WattsStep(limit)) && cfg.mirrors.Some? && q.error.None? && Faithful(p.rest) ==>
                  q.ctl.dev.wire[FeedInRatio] == MirroredRatio(limit, nominal, x.up))
  {
    StepCases(cfg, p, WattsStep(limit), ExportLimit);
    if p.rest != [] { assert p.rest[0] in p.rest; }
  }

  /** It keeps a kept ratio. */
  lemma WattsStepKeepsRatio(cfg: Config, p: Progress, limit: int, nominal: int, start: Wire)
    requires p.error.None? && Mirroring(cfg, nominal) && nominal > 0 && 0 <= limit
    requires RatioKept(cfg, limit, nominal, start, p.ctl.dev.wire)
    ensures RatioKept(cfg, limit, nominal, start, DoStep(cfg, p, WattsStep(limit)).ctl.dev.wire)
  {
    var up := FirstExchange(p.rest).up;
    WattsStepRatio(cfg, p, limit, nominal);
    if limit <= nominal { MirroredRatioIsNear(cfg, limit, nominal, up); }
    assert up == true || up == false;
  }

  lemma AwayIsUnsatisfied(cfg: Config, limit: int, nominal: int, wire: Wire)
    requires nominal > 0 && cfg.nominal == Some(nominal) && RatioAway(cfg, limit, nominal, wire)
    ensures !Satisfied(RatioStep(cfg, limit), Decode(FeedInRatio, wire[FeedInRatio]))
  {
  }

  /** The ratio step, planned because the ratio is away, lands unless it fails. */
  lemma RatioStepLands(cfg: Config, p: Progress, limit: int, nominal: int)
    requires p.error.None? && Faithful(p.rest) && Mirroring(cfg, nominal) && nominal > 0 && 0 <= limit
    requires Truthful(p.ctl.dev, FeedInRatio) && RatioAway(cfg, limit, nominal, p.ctl.dev.wire)
    requires DoStep(cfg, p, RatioStep(cfg, limit)).error.None?
    ensures var q, x := DoStep(cfg, p, RatioStep(cfg, limit)), FirstExchange(p.rest);
            && 0 <= Implied(cfg, limit, nominal) <= 1000 && Faithful(q.rest)
            && q.ctl.dev.wire == Land(cfg.mirrors, p.ctl.dev.wire, FeedInRatio, Implied(cfg, limit, nominal), x.up)
            && q.ctl.dev.cache[ExportLimit] in {p.ctl.dev.cache[ExportLimit],
                 Decode(ExportLimit, p.ctl.dev.wire[ExportLimit]), Decode(ExportLimit, q.ctl.dev.wire[ExportLimit])}
  {
    ImpliedNear(cfg, limit, nominal);
    AwayIsUnsatisfied(cfg, limit, nominal, p.ctl.dev.wire);
    AckedStepLands(cfg, p, RatioStep(cfg, limit), Implied(cfg, limit, nominal));
    StepCases(cfg, p, RatioStep(cfg, limit), ExportLimit);
  }

  /** It leaves the ratio near, and the watts field believable outside the trap. */
  lemma RatioStepAligns(cfg: Config, p: Progress, limit: int, nominal: int)
    requires p.error.None? && Faithful(p.rest) && Mirroring(cfg, nominal) && nominal > 0 && 0 <= limit
    requires Truthful(p.ctl.dev, FeedInRatio) && Truthful(p.ctl.dev, ExportLimit)
    requires RatioAway(cfg, limit, nominal, p.ctl.dev.wire) && !StaleTrap(cfg, limit, nominal, p.ctl.dev.wire)
    requires DoStep(cfg, p, RatioStep(cfg, limit)).error.None?
    ensures var q := DoStep(cfg, p, RatioStep(cfg, limit));
            RatioNear(cfg, limit, nominal, q.ctl.dev.wire) && WattsSeen(q.ctl.dev, limit) && Faithful(q.rest)
  {
    RatioStepLands(cfg, p, limit, nominal);
    SatisfiedWatts(p.ctl.dev.wire[ExportLimit], limit);
  }

  /** The enable step leaves both limit registers alone. */
  lemma EnableStepKeeps(cfg: Config, p: Progress, on: bool)
    requires p.error.None?
    ensures var wire, wire1 := p.ctl.dev.wire, DoStep(cfg, p, EnableStep(on)).ctl.dev.wire;
            wire1[ExportLimit] == wire[ExportLimit] && wire1[FeedInRatio] == wire[FeedInRatio]
  {
    StepCases(cfg, p, EnableStep(on), ExportEnabled);
  }

  /** The other steps leave the enable alone, and its field truthful. */
  lemma LimitStepKeepsEnable(cfg: Config, p: Progress, s: Step)
    requires p.error.None? && (s.reg == ExportLimit || s.reg == FeedInRatio)
    ensures var q := DoStep(cfg, p, s);
            && q.ctl.dev.wire[ExportEnabled] == p.ctl.dev.wire[ExportEnabled]
            && (Truthful(p.ctl.dev, ExportEnabled) ==> Truthful(q.ctl.dev, ExportEnabled))
            && (Faithful(p.rest) ==> Faithful(q.rest))
  {
    StepCases(cfg, p, s, ExportEnabled);
  }

  lemma EnableStepLands(cfg: Config, p: Progress, on: bool)
    requires p.error.None? && Faithful(p.rest) && Truthful(p.ctl.dev, ExportEnabled)
    requires DoStep(cfg, p, EnableStep(on)).error.None?
    ensures DoStep(cfg, p, EnableStep(on)).ctl.dev.wire[ExportEnabled] == FlagCode(on)
  {
    if Skipped(cfg, p.ctl, EnableStep(on)) {
      SameOnWireIsSameWord(ExportEnabled, p.ctl.dev.wire[ExportEnabled], Flag(on));
    } else {
      AckedStepLands(cfg, p, EnableStep(on), FlagCode(on));
    }
  }

  /** The conditions under which a limit is set: truthful cache, faithful inverter. */
  ghost predicate Settable(cfg: Config, p: Progress, limit: int, nominal: int) {
    && nominal > 0 && 0 <= limit && Mirroring(cfg, nominal)
    && ExportTruthful(p.ctl.dev) && Faithful(p.rest) && p.error.None?
  }

  /** The part of an export plan before the watts. */
  function RatioPart(cfg: Config, d: Device, limit: int, enabled: bool): seq<Step> {
    if enabled && RatioOff(cfg, d, limit) then [RatioStep(cfg, limit)] else []
  }

  /**
   The ratio is near the implied one, unless it was unreadable and still is, or the limit is
   above nominal and the ratio mirrors it.
   */
  predicate RatioKept(cfg: Config, limit: int, nominal: int, start: Wire, wire: Wire)
    requires nominal > 0
  {
    || RatioNear(cfg, limit, nominal, wire)
    || (start[FeedInRatio] == NOT_AVAILABLE && wire[FeedInRatio] == NOT_AVAILABLE)
    || (limit > nominal && cfg.mirrors.Some?
        && wire[FeedInRatio] in {MirroredRatio(limit, nominal, true), MirroredRatio(limit, nominal, false)})
  }

  /** What the part before the watts leaves behind. */
  lemma RatioPartDone(cfg: Config, p: Progress, limit: int, enabled: bool, nominal: int)
    requires Settable(cfg, p, limit, nominal) && (enabled ==> !StaleTrap(cfg, limit, nominal, p.ctl.dev.wire))
    ensures var q := DoSteps(cfg, p, RatioPart(cfg, p.ctl.dev, limit, enabled));
            && q.ctl.dev.wire[ExportEnabled] == p.ctl.dev.wire[ExportEnabled] && Truthful(q.ctl.dev, ExportEnabled)
            && (q.error.None? ==> Faithful(q.rest) && WattsSeen(q.ctl.dev, limit))
            && (q.error.None? && enabled ==> RatioKept(cfg, limit, nominal, p.ctl.dev.wire, q.ctl.dev.wire))
  {
    if enabled && RatioOff(cfg, p.ctl.dev, limit) {
      var q := DoStep(cfg, p, RatioStep(cfg, limit));
      assert DoSteps(cfg, p, [RatioStep(cfg, limit)]) == DoSteps(cfg, q, []);
      LimitStepKeepsEnable(cfg, p, RatioStep(cfg, limit));
      if q.error.None? { RatioStepAligns(cfg, p, limit, nominal); }
    }
  }

  /** The watts step, wherever the part before it ended. */
  lemma WattsPartDone(cfg: Config, p: Progress, limit: int, enabled: bool, nominal: int)
    requires Settable(cfg, p, limit, nominal) && (enabled ==> !StaleTrap(cfg, limit, nominal, p.ctl.dev.wire))
    ensures var q := DoSteps(cfg, p, RatioPart(cfg, p.ctl.dev, limit, enabled) + [WattsStep(limit)]);
            && q.ctl.dev.wire[ExportEnabled] == p.ctl.dev.wire[ExportEnabled] && Truthful(q.ctl.dev, ExportEnabled)
            && (q.error.None? ==> Faithful(q.rest) && q.ctl.dev.wire[ExportLimit] as int == limit)
            && (q.error.None? && enabled ==> RatioKept(cfg, limit, nominal, p.ctl.dev.wire, q.ctl.dev.wire))
  {
    var a := RatioPart(cfg, p.ctl.dev, limit, enabled);
    RatioPartDone(cfg, p, limit, enabled, nominal);
    DoStepsAppend(cfg, p, a, [WattsStep(limit)]);
    var q := DoSteps(cfg, p, a);
    if q.error.None? {
      var q1 := DoStep(cfg, q, WattsStep(limit));
      assert DoSteps(cfg, q, [WattsStep(limit)]) == DoSteps(cfg, q1, []);
      LimitStepKeepsEnable(cfg, q, WattsStep(limit));
      if q1.error.None? { WattsStepLimits(cfg, q, limit, nominal); }
      if enabled { WattsStepKeepsRatio(cfg, q, limit, nominal, p.ctl.dev.wire); }
    }
  }

  /** The plan is the part before the enable, then the enable. */
  lemma ExportPlanShape(cfg: Config, d: Device, limit: int, enabled: bool)
    requires ExportPlan(cfg, d, Some(limit), enabled).Ok?
    ensures ExportPlan(cfg, d, Some(limit), enabled).value
         == RatioPart(cfg, d, limit, enabled) + [WattsStep(limit)] + [EnableStep(enabled)]
  {
  }

  /** The whole call at its step loop. */
  function Limiting(cfg: Config, c: Control, limit: int, enabled: bool, xs: seq<Exchange>, k: nat): Progress
    requires ExportPlan(cfg, c.dev, Some(limit), enabled).Ok?
    requires k <= |ExportPlan(cfg, c.dev, Some(limit), enabled).value|
  {
    DoSteps(cfg, Start(c, ExportAction, xs), ExportPlan(cfg, c.dev, Some(limit), enabled).value[..k])
  }

  /** The prefix that stops before the enable. */
  lemma {:induction false} EnableUntouched(cfg: Config, p: Progress, steps: seq<Step>)
    requires forall s :: s in steps ==> s.reg == ExportLimit || s.reg == FeedInRatio
    ensures DoSteps(cfg, p, steps).ctl.dev.wire[ExportEnabled] == p.ctl.dev.wire[ExportEnabled]
    decreases |steps|
  {
    if steps != [] && p.error.None? {
      assert steps[0] in steps;
      LimitStepKeepsEnable(cfg, p, steps[0]);
      EnableUntouched(cfg, DoStep(cfg, p, steps[0]), steps[1..]);
    }
  }

  /**
   At every prefix of `set_export_limit(L)`, with any failure: if the limitation went from
   off to on, the watts register holds L and the ratio, if it was readable, is within a tenth
   of the implied one or, for L above nominal, mirrors L.
   */
  lemma EnableMeansLimited(cfg: Config, c: Control, limit: int, xs: seq<Exchange>, k: nat, nominal: int)
    requires ExportPlan(cfg, c.dev, Some(limit), true).Ok? && k <= |ExportPlan(cfg, c.dev, Some(limit), true).value|
    requires Settable(cfg, Start(c, ExportAction, xs), limit, nominal)
    requires !StaleTrap(cfg, limit, nominal, c.dev.wire) && c.dev.wire[ExportEnabled] != FlagCode(true)
    ensures var wire := Limiting(cfg, c, limit, true, xs, k).ctl.dev.wire;
            wire[ExportEnabled] == FlagCode(true) ==> Limited(cfg, limit, nominal, c.dev.wire, wire)
  {
    var p := Start(c, ExportAction, xs);
    var steps := ExportPlan(cfg, c.dev, Some(limit), true).value;
    var a := RatioPart(cfg, c.dev, limit, true) + [WattsStep(limit)];
    ExportPlanShape(cfg, c.dev, limit, true);
    if k <= |a| {
      assert steps[..k] == a[..k];
      EnableUntouched(cfg, p, a[..k]);
    } else {
      assert steps[..k] == a + [EnableStep(true)];
      DoStepsAppend(cfg, p, a, [EnableStep(true)]);
      WattsPartDone(cfg, p, limit, true, nominal);
      var q := DoSteps(cfg, p, a);
      if q.error.None? {
        assert DoSteps(cfg, q, [EnableStep(true)]) == DoSteps(cfg, DoStep(cfg, q, EnableStep(true)), []);
        EnableStepKeeps(cfg, q, true);
      } else {
        ErrorEnds(cfg, q, [EnableStep(true)]);
      }
    }
  }

  // -- read-back and repetition ---------------------------------------------------------------

  /** The step loop of the whole call. */
  function LimitRun(cfg: Config, c: Control, limit: int, enabled: bool, xs: seq<Exchange>): Progress
    requires ExportPlan(cfg, c.dev, Some(limit), enabled).Ok?
  {
    DoSteps(cfg, Start(c, ExportAction, xs), ExportPlan(cfg, c.dev, Some(limit), enabled).value)
  }

  /** What a completed call leaves in the three registers. */
  predicate LimitSet(cfg: Config, limit: int, nominal: int, enabled: bool, start: Wire, wire: Wire)
    requires nominal > 0
  {
    && wire[ExportLimit] as int == limit && wire[ExportEnabled] == FlagCode(enabled)
    && (enabled ==> RatioKept(cfg, limit, nominal, start, wire))
  }

  /** The enable step over registers that are already limited. */
  lemma EnablePartDone(cfg: Config, q: Progress, limit: int, nominal: int, enabled: bool, start: Wire)
    requires q.error.None? && nominal > 0 && Faithful(q.rest) && Truthful(q.ctl.dev, ExportEnabled)
    requires q.ctl.dev.wire[ExportLimit] as int == limit
    requires enabled ==> RatioKept(cfg, limit, nominal, start, q.ctl.dev.wire)
    requires DoSteps(cfg, q, [EnableStep(enabled)]).error.None?
    ensures LimitSet(cfg, limit, nominal, enabled, start, DoSteps(cfg, q, [EnableStep(enabled)]).ctl.dev.wire)
  {
    var q1 := DoStep(cfg, q, EnableStep(enabled));
    assert DoSteps(cfg, q, [EnableStep(enabled)]) == DoSteps(cfg, q1, []);
    EnableStepKeeps(cfg, q, enabled);
    EnableStepLands(cfg, q, enabled);
  }

  lemma LimitCompleted(cfg: Config, c: Control, limit: int, enabled: bool, xs: seq<Exchange>, nominal: int)
    requires ExportPlan(cfg, c.dev, Some(limit), enabled).Ok?
    requires Settable(cfg, Start(c, ExportAction, xs), limit, nominal)
    requires enabled ==> !StaleTrap(cfg, limit, nominal, c.dev.wire)
    requires LimitRun(cfg, c, limit, enabled, xs).error.None?
    ensures LimitSet(cfg, limit, nominal, enabled, c.dev.wire, LimitRun(cfg, c, limit, enabled, xs).ctl.dev.wire)
  {
    var p := Start(c, ExportAction, xs);
    var a := RatioPart(cfg, c.dev, limit, enabled) + [WattsStep(limit)];
    ExportPlanShape(cfg, c.dev, limit, enabled);
    DoStepsAppend(cfg, p, a, [EnableStep(enabled)]);
    WattsPartDone(cfg, p, limit, enabled, nominal);
    var q := DoSteps(cfg, p, a);
    if q.error.Some? {
      ErrorEnds(cfg, q, [EnableStep(enabled)]);
    } else {
      EnablePartDone(cfg, q, limit, nominal, enabled, c.dev.wire);
    }
  }

  /** Each of the planned targets is satisfied by registers that are set. */
  lemma SetSatisfies(cfg: Config, d: Device, limit: int, enabled: bool, nominal: int, wire: Wire, s: Step)
    requires nominal > 0 && cfg.nominal == Some(nominal) && limit >= 0
    requires LimitSet(cfg, limit, nominal, enabled, d.wire, wire) && Truthful(d, FeedInRatio)
    requires enabled && RatioOff(cfg, d, limit) ==> RatioNear(cfg, limit, nominal, wire)
    requires || s == WattsStep(limit) || s == EnableStep(enabled)
             || (enabled && RatioOff(cfg, d, limit) && s == RatioStep(cfg, limit))
    ensures Satisfied(s, Decode(s.reg, wire[s.reg]))
  {
    SatisfiedWatts(wire[ExportLimit], limit);
  }

  lemma ExportSteps(cfg: Config, d: Device, limit: int, enabled: bool, s: Step)
    requires ExportPlan(cfg, d, Some(limit), enabled).Ok? && s in ExportPlan(cfg, d, Some(limit), enabled).value
    ensures || s == WattsStep(limit) || s == EnableStep(enabled)
            || (enabled && RatioOff(cfg, d, limit) && s == RatioStep(cfg, limit))
  {
    ExportPlanShape(cfg, d, limit, enabled);
  }

  /** Registers that are set meet the plan. */
  lemma SetIsMet(cfg: Config, d: Device, limit: int, enabled: bool, nominal: int, wire: Wire)
    requires ExportPlan(cfg, d, Some(limit), enabled).Ok? && Truthful(d, FeedInRatio)
    requires nominal > 0 && cfg.nominal == Some(nominal) && limit >= 0
    requires LimitSet(cfg, limit, nominal, enabled, d.wire, wire)
    requires enabled && RatioOff(cfg, d, limit) ==> RatioNear(cfg, limit, nominal, wire)
    ensures Meets(ExportPlan(cfg, d, Some(limit), enabled).value, wire)
  {
    var steps := ExportPlan(cfg, d, Some(limit), enabled).value;
    FinalsAreSteps(steps);
    forall r | r in Finals(steps) ensures Satisfied(Finals(steps)[r], Decode(r, wire[r])) {
      ExportSteps(cfg, d, limit, enabled, Finals(steps)[r]);
      SetSatisfies(cfg, d, limit, enabled, nominal, wire, Finals(steps)[r]);
    }
  }

  /** Met targets include the watts. */
  lemma MetHasWatts(cfg: Config, d: Device, limit: int, enabled: bool, wire: Wire)
    requires ExportPlan(cfg, d, Some(limit), enabled).Ok?
    requires Meets(ExportPlan(cfg, d, Some(limit), enabled).value, wire)
    ensures wire[ExportLimit] as int == limit
  {
    var steps := ExportPlan(cfg, d, Some(limit), enabled).value;
    FinalsAreSteps(steps);
    ExportPlanShape(cfg, d, limit, enabled);
    assert WattsStep(limit) in steps;
    ExportSteps(cfg, d, limit, enabled, Finals(steps)[ExportLimit]);
    SatisfiedWatts(wire[ExportLimit], limit);
  }

  /** And the enable. */
  lemma MetHasEnable(cfg: Config, d: Device, limit: int, enabled: bool, wire: Wire)
    requires ExportPlan(cfg, d, Some(limit), enabled).Ok?
    requires Meets(ExportPlan(cfg, d, Some(limit), enabled).value, wire)
    ensures wire[ExportEnabled] == FlagCode(enabled)
  {
    var steps := ExportPlan(cfg, d, Some(limit), enabled).value;
    FinalsAreSteps(steps);
    ExportPlanShape(cfg, d, limit, enabled);
    assert EnableStep(enabled) in steps;
    ExportSteps(cfg, d, limit, enabled, Finals(steps)[ExportEnabled]);
    SameOnWireIsSameWord(ExportEnabled, wire[ExportEnabled], Flag(enabled));
  }

  /** And the ratio, where it was planned. */
  lemma MetHasRatio(cfg: Config, d: Device, limit: int, nominal: int, wire: Wire)
    requires ExportPlan(cfg, d, Some(limit), true).Ok? && nominal > 0 && cfg.nominal == Some(nominal)
    requires RatioOff(cfg, d, limit)
    requires Meets(ExportPlan(cfg, d, Some(limit), true).value, wire)
    ensures RatioNear(cfg, limit, nominal, wire)
  {
    var steps := ExportPlan(cfg, d, Some(limit), true).value;
    FinalsAreSteps(steps);
    ExportPlanShape(cfg, d, limit, true);
    assert RatioStep(cfg, limit) in steps;
    ExportSteps(cfg, d, limit, true, Finals(steps)[FeedInRatio]);
    NearIsSatisfied(cfg, limit, nominal, wire);
  }

  lemma NearIsSatisfied(cfg: Config, limit: int, nominal: int, wire: Wire)
    requires nominal > 0 && cfg.nominal == Some(nominal)
    ensures Satisfied(RatioStep(cfg, limit), Decode(FeedInRatio, wire[FeedInRatio]))
            ==> RatioNear(cfg, limit, nominal, wire)
  {
  }

  /** The exchange of the second write. */
  function SecondUp(xs: seq<Exchange>): bool { FirstExchange(RestExchanges(xs)).up }

  /**
   The planned ratio is in place once the watts were written. Up to nominal it always is; for a
   limit above nominal, on an inverter that mirrors, where the ratio had to be aligned, only if
   the watts mirror to at most 100.1 %.
   */
  predicate Settles(cfg: Config, limit: int, enabled: bool, nominal: int, start: Wire, up: bool)
    requires nominal > 0
  {
    enabled && limit > nominal && cfg.mirrors.Some? && RatioAway(cfg, limit, nominal, start) ==>
      DivRound(1000 * limit, nominal, up) <= 1001
  }

  /** An aligned ratio above nominal mirrors to nominal watts, so the watts are still to be written. */
  lemma AboveNominalWritesWatts(cfg: Config, p: Progress, limit: int, nominal: int)
    requires p.error.None? && Faithful(p.rest) && Mirroring(cfg, nominal) && cfg.mirrors.Some? && 0 < nominal < limit
    requires Truthful(p.ctl.dev, FeedInRatio) && Truthful(p.ctl.dev, ExportLimit)
    requires RatioAway(cfg, limit, nominal, p.ctl.dev.wire) && !StaleTrap(cfg, limit, nominal, p.ctl.dev.wire)
    requires DoStep(cfg, p, RatioStep(cfg, limit)).error.None?
    ensures var q := DoStep(cfg, p, RatioStep(cfg, limit));
            !Skipped(cfg, q.ctl, WattsStep(limit)) && Faithful(q.rest) && q.rest == RestExchanges(p.rest)
  {
    RatioStepLands(cfg, p, limit, nominal);
    RatioStepUsesExchange(cfg, p, limit, nominal);
    ImpliedAboveNominal(cfg, limit, nominal);
    DivRoundNear(1000 * nominal, 1000, FirstExchange(p.rest).up);
    SatisfiedWatts(p.ctl.dev.wire[ExportLimit], limit);
    SatisfiedWatts(DoStep(cfg, p, RatioStep(cfg, limit)).ctl.dev.wire[ExportLimit], limit);
  }

  lemma RatioStepUsesExchange(cfg: Config, p: Progress, limit: int, nominal: int)
    requires p.error.None? && cfg.nominal == Some(nominal) && nominal > 0 && Truthful(p.ctl.dev, FeedInRatio)
    requires 0 <= limit
    requires RatioAway(cfg, limit, nominal, p.ctl.dev.wire)
    ensures DoStep(cfg, p, RatioStep(cfg, limit)).rest == RestExchanges(p.rest)
  {
    ImpliedNear(cfg, limit, nominal);
    AwayIsUnsatisfied(cfg, limit, nominal, p.ctl.dev.wire);
    StepCases(cfg, p, RatioStep(cfg, limit), FeedInRatio);
  }

  /** A completed call that had to align the ratio for a limit above nominal ends with the mirrored ratio. */
  lemma AboveNominalEndsMirrored(cfg: Config, c: Control, limit: int, xs: seq<Exchange>, nominal: int)
    requires ExportPlan(cfg, c.dev, Some(limit), true).Ok? && Settable(cfg, Start(c, ExportAction, xs), limit, nominal)
    requires nominal < limit && cfg.mirrors.Some? && RatioAway(cfg, limit, nominal, c.dev.wire)
    requires !StaleTrap(cfg, limit, nominal, c.dev.wire) && LimitRun(cfg, c, limit, true, xs).error.None?
    ensures LimitRun(cfg, c, limit, true, xs).ctl.dev.wire[FeedInRatio] == MirroredRatio(limit, nominal, SecondUp(xs))
  {
    var p := Start(c, ExportAction, xs);
    var ratio, watts, on := RatioStep(cfg, limit), WattsStep(limit), EnableStep(true);
    ExportPlanShape(cfg, c.dev, limit, true);
    assert RatioPart(cfg, c.dev, limit, true) == [ratio];
    ThreeStepsDone(cfg, p, ratio, watts, on);
    var q := DoStep(cfg, p, ratio);
    AboveNominalWritesWatts(cfg, p, limit, nominal);
    WattsStepRatio(cfg, q, limit, nominal);
    EnableStepKeeps(cfg, DoStep(cfg, q, watts), true);
  }

  /**
   Once every write of `set_export_limit(L)` was answered, outside the stale-watts case, on an
   inverter that mirrors the two registers (rounding either way) or keeps them apart: the
   read-back finds every target met exactly when the ratio settles, which up to nominal it does.
   */
  lemma LimitIsMet(cfg: Config, c: Control, limit: int, enabled: bool, xs: seq<Exchange>, nominal: int)
    requires ExportPlan(cfg, c.dev, Some(limit), enabled).Ok?
    requires Settable(cfg, Start(c, ExportAction, xs), limit, nominal)
    requires enabled ==> !StaleTrap(cfg, limit, nominal, c.dev.wire)
    requires LimitRun(cfg, c, limit, enabled, xs).error.None?
    ensures Meets(ExportPlan(cfg, c.dev, Some(limit), enabled).value, LimitRun(cfg, c, limit, enabled, xs).ctl.dev.wire)
            <==> Settles(cfg, limit, enabled, nominal, c.dev.wire, SecondUp(xs))
  {
    var wire := LimitRun(cfg, c, limit, enabled, xs).ctl.dev.wire;
    if enabled && limit > nominal && cfg.mirrors.Some? && RatioAway(cfg, limit, nominal, c.dev.wire) {
      AboveNominalIsMet(cfg, c, limit, xs, nominal);
    } else {
      LimitCompleted(cfg, c, limit, enabled, xs, nominal);
      SetIsMet(cfg, c.dev, limit, enabled, nominal, wire);
    }
  }

  lemma AboveNominalIsMet(cfg: Config, c: Control, limit: int, xs: seq<Exchange>, nominal: int)
    requires ExportPlan(cfg, c.dev, Some(limit), true).Ok? && Settable(cfg, Start(c, ExportAction, xs), limit, nominal)
    requires nominal < limit && cfg.mirrors.Some? && RatioAway(cfg, limit, nominal, c.dev.wire)
    requires !StaleTrap(cfg, limit, nominal, c.dev.wire) && LimitRun(cfg, c, limit, true, xs).error.None?
    ensures Meets(ExportPlan(cfg, c.dev, Some(limit), true).value, LimitRun(cfg, c, limit, true, xs).ctl.dev.wire)
            <==> DivRound(1000 * limit, nominal, SecondUp(xs)) <= 1001
  {
    AboveNominalEndsMirrored(cfg, c, limit, xs, nominal);
    MirrorsNearAboveNominal(cfg, limit, nominal, SecondUp(xs));
    MetIffNear(cfg, c, limit, xs, nominal);
  }

  /** A completed call that aligned the ratio meets its targets exactly when the ratio ends near. */
  lemma MetIffNear(cfg: Config, c: Control, limit: int, xs: seq<Exchange>, nominal: int)
    requires ExportPlan(cfg, c.dev, Some(limit), true).Ok? && Settable(cfg, Start(c, ExportAction, xs), limit, nominal)
    requires RatioAway(cfg, limit, nominal, c.dev.wire) && !StaleTrap(cfg, limit, nominal, c.dev.wire)
    requires LimitRun(cfg, c, limit, true, xs).error.None?
    ensures Meets(ExportPlan(cfg, c.dev, Some(limit), true).value, LimitRun(cfg, c, limit, true, xs).ctl.dev.wire)
            <==> RatioNear(cfg, limit, nominal, LimitRun(cfg, c, limit, true, xs).ctl.dev.wire)
  {
    var wire := LimitRun(cfg, c, limit, true, xs).ctl.dev.wire;
    LimitCompleted(cfg, c, limit, true, xs, nominal);
    assert RatioOff(cfg, c.dev, limit);
    if RatioNear(cfg, limit, nominal, wire) {
      SetIsMet(cfg, c.dev, limit, true, nominal, wire);
    } else if Meets(ExportPlan(cfg, c.dev, Some(limit), true).value, wire) {
      MetHasRatio(cfg, c.dev, limit, nominal, wire);
    }
  }

  // -- registers that already are what is asked for -----------------------------------------------

  /** The registers already are what an export plan asks for. */
  predicate ExportThere(cfg: Config, limit: Option<int>, enabled: bool, w: Wire) {
    if limit.None? then w[ExportEnabled] == FlagCode(false)
    else
      && w[ExportLimit] as int == limit.value && w[ExportEnabled] == FlagCode(enabled)
      && !(enabled && cfg.nominal.Some? && cfg.nominal.value > 0 && RatioAway(cfg, limit.value, cfg.nominal.value, w))
  }

  /** A plan for a value is the ratio step, if the ratio is away, then watts and enable. */
  lemma ExportPlanParts(cfg: Config, d: Device, limit: int, enabled: bool)
    requires ExportPlan(cfg, d, Some(limit), enabled).Ok? && ExportTruthful(d)
    ensures var rest := [WattsStep(limit), EnableStep(enabled)];
            if enabled && RatioOff(cfg, d, limit)
            then ExportPlan(cfg, d, Some(limit), enabled).value == [RatioStep(cfg, limit)] + rest
                 && RatioAway(cfg, limit, cfg.nominal.value, d.wire)
            else ExportPlan(cfg, d, Some(limit), enabled).value == rest
                 && !(enabled && cfg.nominal.Some? && cfg.nominal.value > 0
                    && RatioAway(cfg, limit, cfg.nominal.value, d.wire))
  {
    ExportPlanShape(cfg, d, limit, enabled);
  }

  /** A plan against truthful fields is all-skip exactly when the registers are there. */
  lemma AllSkippedIffThere(cfg: Config, c: Control, limit: Option<int>, enabled: bool)
    requires ExportPlan(cfg, c.dev, limit, enabled).Ok? && ExportTruthful(c.dev)
    requires limit.Some? ==> 0 <= limit.value <= 0xFFFF
    ensures AllSkipped(cfg, c, ExportPlan(cfg, c.dev, limit, enabled).value)
            <==> ExportThere(cfg, limit, enabled, c.dev.wire)
  {
    var w := c.dev.wire;
    if limit.None? {
      SameOnWireIsSameWord(ExportEnabled, w[ExportEnabled], Flag(false));
      assert EnableStep(false) in ExportPlan(cfg, c.dev, limit, enabled).value;
    } else {
      ValueSkippedIffThere(cfg, c, limit.value, enabled);
    }
  }

  lemma ValueSkippedIffThere(cfg: Config, c: Control, limit: int, enabled: bool)
    requires ExportPlan(cfg, c.dev, Some(limit), enabled).Ok? && ExportTruthful(c.dev) && 0 <= limit <= 0xFFFF
    ensures AllSkipped(cfg, c, ExportPlan(cfg, c.dev, Some(limit), enabled).value)
            <==> ExportThere(cfg, Some(limit), enabled, c.dev.wire)
  {
    var steps := ExportPlan(cfg, c.dev, Some(limit), enabled).value;
    ExportPlanParts(cfg, c.dev, limit, enabled);
    SatisfiedWatts(c.dev.wire[ExportLimit], limit);
    SameOnWireIsSameWord(ExportEnabled, c.dev.wire[ExportEnabled], Flag(enabled));
    assert WattsStep(limit) in steps && EnableStep(enabled) in steps;
    if enabled && RatioOff(cfg, c.dev, limit) {
      assert RatioStep(cfg, limit) in steps;
      AwayIsUnsatisfied(cfg, limit, cfg.nominal.value, c.dev.wire);
    }
  }

  /** The accepted range does not depend on what is cached. */
  lemma ExportBoundsFixed(cfg: Config, d: Device, d1: Device, limit: int, enabled: bool)
    requires ExportPlan(cfg, d, Some(limit), enabled).Ok?
    ensures ExportPlan(cfg, d1, Some(limit), enabled).Ok?
  {
  }

  /** A kept ratio is not away up to nominal. */
  lemma KeptIsNotAway(cfg: Config, limit: int, nominal: int, start: Wire, wire: Wire)
    requires 0 < nominal && limit <= nominal && RatioKept(cfg, limit, nominal, start, wire)
    ensures !RatioAway(cfg, limit, nominal, wire)
  {
  }

  /**
   Repeating the call against a re-read cache skips everything exactly when the ratio it left
   is not away, which up to nominal it never is.
   */
  lemma RepeatedLimitIsSilent(cfg: Config, c: Control, limit: int, enabled: bool, xs: seq<Exchange>, nominal: int,
      later: Control)
    requires ExportPlan(cfg, c.dev, Some(limit), enabled).Ok? && limit <= 0xFFFF
    requires Settable(cfg, Start(c, ExportAction, xs), limit, nominal)
    requires enabled ==> !StaleTrap(cfg, limit, nominal, c.dev.wire)
    ensures ExportPlan(cfg, later.dev, Some(limit), enabled).Ok?
    ensures var p := LimitRun(cfg, c, limit, enabled, xs);
            p.error.None? && Fresh(later.dev, Settings) && later.dev.wire == p.ctl.dev.wire ==>
              && (AllSkipped(cfg, later, ExportPlan(cfg, later.dev, Some(limit), enabled).value)
                  <==> !(enabled && RatioAway(cfg, limit, nominal, p.ctl.dev.wire)))
              && (enabled && limit <= nominal ==> !RatioAway(cfg, limit, nominal, p.ctl.dev.wire))
  {
    var p := LimitRun(cfg, c, limit, enabled, xs);
    ExportBoundsFixed(cfg, c.dev, later.dev, limit, enabled);
    if p.error.None? && Fresh(later.dev, Settings) && later.dev.wire == p.ctl.dev.wire {
      LimitCompleted(cfg, c, limit, enabled, xs, nominal);
      assert ExportTruthful(later.dev);
      AllSkippedIffThere(cfg, later, Some(limit), enabled);
      if enabled && limit <= nominal { KeptIsNotAway(cfg, limit, nominal, c.dev.wire, p.ctl.dev.wire); }
    }
  }

  /** With the writes and the reads of the read-back answered, the call returns exactly when the ratio settles. */
  lemma LimitCallVerifies(cfg: Config, c: Control, limit: int, enabled: bool, env: CallEnv, nominal: int)
    requires ExportPlan(cfg, c.dev, Some(limit), enabled).Ok?
    requires Settable(cfg, Start(c, ExportAction, env.exchanges), limit, nominal)
    requires enabled ==> !StaleTrap(cfg, limit, nominal, c.dev.wire)
    requires Polling.AllReadsAnswered(env.readback)
    ensures var r := Execute(cfg, c, ExportAction, ExportPlan(cfg, c.dev, Some(limit), enabled).value, true, env);
            LimitRun(cfg, c, limit, enabled, env.exchanges).error.None? ==>
              && (r.outcome.Ok? <==> Settles(cfg, limit, enabled, nominal, c.dev.wire, SecondUp(env.exchanges)))
              && (r.outcome.Ok? ==> (r.outcome.value.verified <==> r.outcome.value.writes != []))
  {
    var steps := ExportPlan(cfg, c.dev, Some(limit), enabled).value;
    var p, r := LimitRun(cfg, c, limit, enabled, env.exchanges), Execute(cfg, c, ExportAction, steps, true, env);
    if p.error.Some? { return; }
    LimitIsMet(cfg, c, limit, enabled, env.exchanges, nominal);
    Polling.AnsweredRefresh(Disturb(p.ctl.dev, env.settle), Touched(steps), env.readback);
    Honesty.ExecuteOutcome(cfg, c, ExportAction, steps, true, env);
    Honesty.ExecuteWire(cfg, c, ExportAction, steps, true, env);
    if Meets(steps, p.ctl.dev.wire) {
      Honesty.ReadBackConfirms(p, steps, env);
    } else if r.outcome.Ok? && r.outcome.value.writes == [] {
      SkippedSettles(cfg, c, limit, enabled, nominal, SecondUp(env.exchanges));
    }
  }

  /** A plan that skips everything had no ratio to align. */
  lemma SkippedSettles(cfg: Config, c: Control, limit: int, enabled: bool, nominal: int, up: bool)
    requires ExportPlan(cfg, c.dev, Some(limit), enabled).Ok? && ExportTruthful(c.dev)
    requires nominal > 0 && cfg.nominal == Some(nominal)
    requires AllSkipped(cfg, c, ExportPlan(cfg, c.dev, Some(limit), enabled).value)
    ensures Settles(cfg, limit, enabled, nominal, c.dev.wire, up)
  {
    ExportPlanParts(cfg, c.dev, limit, enabled);
    if enabled && RatioOff(cfg, c.dev, limit) {
      assert RatioStep(cfg, limit) in ExportPlan(cfg, c.dev, Some(limit), enabled).value;
      AwayIsUnsatisfied(cfg, limit, nominal, c.dev.wire);
    }
  }

  /** With every write acknowledged, a plan whose targets all have words raises nothing. */
  lemma {:induction false} AcknowledgedRaisesNothing(cfg: Config, p: Progress, steps: seq<Step>)
    requires p.error.None? && forall x :: x in p.rest ==> x.reply == Acked
    requires forall s :: s in steps ==> Encode(s.reg, s.target).Some?
    ensures DoSteps(cfg, p, steps).error.None?
    decreases |steps|
  {
    if steps != [] {
      assert steps[0] in steps;
      StepCases(cfg, p, steps[0], ExportLimit);
      if p.rest != [] { assert p.rest[0] in p.rest; }
      AcknowledgedRaisesNothing(cfg, DoStep(cfg, p, steps[0]), steps[1..]);
    }
  }
}
