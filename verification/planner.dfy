/**
 Planning and classification: which registers a desired state needs, in which order,
 when a step is skipped, and which battery mode the cached settings imply.
 */
module Planner {
  import opened Wrappers
  import opened Registers
  import Devices

  datatype BatteryMode =
    | SelfConsumptionMode | ForcedCharge | ForcedDischarge | NoCharge | NoDischarge | Hold
    | ForcedStop | ExternalEmsBattery | VppBattery | Inconsistent

  datatype DesiredState = DesiredState(mode: BatteryMode, power: Option<int>)

  /** The feed-in limits the ratings report. */
  datatype Ratings = Ratings(exportMin: Option<int>, exportMax: Option<int>)

  /**
   What does not change during a run: the options, what setup read, and the inverter's
   habits. `tieUp` says which way the rounding of the feed-in ratio breaks ties.
   */
  datatype Config = Config(
    full: Option<int>,           // battery_max_power_w
    fence: int,
    maxAge: int,
    grace: int,
    nominal: Option<int>,
    ratings: Option<Ratings>,
    mirrors: Option<int>,
    tieUp: bool
  )

  datatype WriteRecord = WriteRecord(reg: Register, previous: Value, value: Value)

  datatype Action = BatteryAction(mode: BatteryMode) | ExportAction | PvAction | StartStopAction(command: StartStop)

  datatype WriteReport = WriteReport(
    action: Action,
    writes: seq<WriteRecord>,
    skipped: seq<Register>,
    uncertain: seq<Register>,
    verified: bool,
    at: int
  )

  datatype ControlError =
    | CannotBeRequested
    | PowerOutOfRange
    | InvalidWriteValue(field: Register, written: WriteReport)
    | SettingsUnavailable(report: Option<WriteReport>)
    | WriteRejected(field: Register, written: WriteReport)
    | WriteUncertain(field: Register, written: WriteReport)
    | VerificationFailed(field: Register, written: WriteReport)
    | AssertionTripped

  /** How a cached value satisfies a target. */
  datatype Match = Exactly | AtOrBelow | Within(tenths: int)

  datatype Step = Step(reg: Register, target: Value, how: Match)

  /** The write layer's own state: the device and when it last wrote the EMS mode. */
  datatype Control = Control(dev: Devices.Device, emsWrittenAt: Option<int>)

  // -- classification ------------------------------------------------------------

  const FORCED_STATES: set<Option<InverterState>> := {Some(CompulsoryMode), Some(ExternalEmsMode)}

  function EffectiveMode(cfg: Config, c: Control): Option<BatteryMode> {
    match c.dev.cache[EmsModeReg]
    case Mode(Compulsory) =>
      (match c.dev.cache[ChargeCommandReg]
       case Command(Charge) => Some(ForcedCharge)
       case Command(Discharge) => Some(ForcedDischarge)
       case Command(Stop) => Some(ForcedStop)
       case _ => Some(Inconsistent))
    case Mode(ExternalEms) => Some(ExternalEmsBattery)
    case Mode(Vpp) => Some(VppBattery)
    case Mode(SelfConsumption) =>
      var recent := c.emsWrittenAt.Some? && c.dev.clock - c.emsWrittenAt.value < cfg.grace;
      if c.dev.state in FORCED_STATES && !recent then Some(Inconsistent)
      else (match (c.dev.cache[MaxCharge], c.dev.cache[MaxDischarge])
            case (Number(charge), Number(discharge)) =>
              if charge <= cfg.fence && discharge <= cfg.fence then Some(Hold)
              else if charge <= cfg.fence then Some(NoCharge)
              else if discharge <= cfg.fence then Some(NoDischarge)
              else Some(SelfConsumptionMode)
            case _ => Some(Inconsistent))
    case _ => None
  }

  // -- planning ------------------------------------------------------------------

  predicate IsForced(m: BatteryMode) { m == ForcedCharge || m == ForcedDischarge }

  predicate Fences(m: BatteryMode) { m == NoCharge || m == NoDischarge || m == Hold }

  predicate Requestable(m: BatteryMode) { m == SelfConsumptionMode || IsForced(m) || Fences(m) }

  function CommandFor(m: BatteryMode): ChargeCommand {
    if m == ForcedCharge then Charge else Discharge
  }

  /** The restore target, unless it is unknown or does not fit the limit registers. */
  function Limits(cfg: Config): Result<int, ControlError> {
    if cfg.full.None? then Err(SettingsUnavailable(None))
    else if cfg.full.value % 10 != 0 || !(cfg.fence <= cfg.full.value <= 10 * 0xFFFF) then Err(PowerOutOfRange)
    else Ok(cfg.full.value)
  }

  function Restore(r: Register, full: int): Step { Step(r, Number(full), Exactly) }

  function Fence(cfg: Config, r: Register): Step { Step(r, Number(cfg.fence), AtOrBelow) }

  const TO_SELF := Step(EmsModeReg, Mode(SelfConsumption), Exactly)
  const TO_COMPULSORY := Step(EmsModeReg, Mode(Compulsory), Exactly)
  const STOP_FIRST := Step(ChargeCommandReg, Command(Stop), Exactly)

  function PowerStep(p: int): Step { Step(ForcedPower, Number(p), Exactly) }

  function CommandStep(m: BatteryMode): Step { Step(ChargeCommandReg, Command(CommandFor(m)), Exactly) }

  /** The cached EMS mode is one that a return to self-consumption leaves. */
  predicate LeavingForced(d: Devices.Device) {
    d.cache[EmsModeReg] in {Mode(Compulsory), Mode(ExternalEms), Mode(Vpp)}
  }

  /** A forced mode runs, as cached, with another command than the wanted one. */
  predicate Reversing(d: Devices.Device, m: BatteryMode) {
    d.cache[EmsModeReg] == Mode(Compulsory) && d.cache[ChargeCommandReg] != Command(CommandFor(m))
  }

  function BothRestored(full: int): seq<Step> { [Restore(MaxCharge, full), Restore(MaxDischarge, full)] }

  /** What follows the restored limits in a forced plan. */
  function ForcedTail(m: BatteryMode, p: int, reversing: bool): seq<Step> {
    (if reversing then [STOP_FIRST] else []) + [PowerStep(p), CommandStep(m), TO_COMPULSORY]
  }

  function Plan(cfg: Config, d: Devices.Device, want: DesiredState): Result<seq<Step>, ControlError> {
    if !Requestable(want.mode) then Err(CannotBeRequested)
    else if Limits(cfg).Err? then Err(Limits(cfg).error)
    else
      var full := Limits(cfg).value;
      match want.mode
      case SelfConsumptionMode =>
        Ok(if LeavingForced(d) then [TO_SELF] + BothRestored(full) else BothRestored(full) + [TO_SELF])
      case NoCharge => Ok([Restore(MaxDischarge, full), Fence(cfg, MaxCharge), TO_SELF])
      case NoDischarge => Ok([Restore(MaxCharge, full), Fence(cfg, MaxDischarge), TO_SELF])
      case Hold => Ok([Fence(cfg, MaxCharge), Fence(cfg, MaxDischarge), TO_SELF])
      case _ =>
        if want.power.None? || !(0 <= want.power.value <= full) then Err(PowerOutOfRange)
        else Ok(BothRestored(full) + ForcedTail(want.mode, want.power.value, Reversing(d, want.mode)))
  }

  function Satisfied(s: Step, current: Value): bool {
    if s.how == AtOrBelow && current != Missing then current.Number? && s.target.Number? && current.n <= s.target.n
    else if s.how.Within? && current != Missing then
      current.Number? && s.target.Number? && -s.how.tenths <= current.n - s.target.n <= s.how.tenths
    else SameOnWire(s.reg, current, s.target)
  }

  /** A matching EMS word is not trusted while the settings do not add up. */
  predicate Doubted(cfg: Config, c: Control, s: Step) {
    s.reg == EmsModeReg && EffectiveMode(cfg, c) == Some(Inconsistent)
  }

  predicate Skipped(cfg: Config, c: Control, s: Step) {
    Satisfied(s, c.dev.cache[s.reg]) && !Doubted(cfg, c, s)
  }

  /** The preview of `plan`: nothing would be written. */
  predicate AllSkipped(cfg: Config, c: Control, steps: seq<Step>) {
    forall s :: s in steps ==> Skipped(cfg, c, s)
  }

  /** The last step of each register: what a read-back is compared with. */
  function Finals(steps: seq<Step>): map<Register, Step> {
    if steps == [] then map[]
    else Finals(steps[..|steps| - 1])[steps[|steps| - 1].reg := steps[|steps| - 1]]
  }

  /** The cached fields satisfy the last target of every planned register. */
  predicate Confirmed(steps: seq<Step>, cache: Cache) {
    forall r :: r in Finals(steps) ==> Satisfied(Finals(steps)[r], cache[r])
  }

  /** The registers themselves, once decoded, satisfy the last target of every planned register. */
  predicate Meets(steps: seq<Step>, wire: Wire) {
    forall r :: r in Finals(steps) ==> Satisfied(Finals(steps)[r], Decode(r, wire[r]))
  }

  lemma {:induction false} FinalsAreSteps(steps: seq<Step>)
    ensures forall r :: r in Finals(steps) ==> Finals(steps)[r] in steps && Finals(steps)[r].reg == r
    ensures forall s :: s in steps ==> s.reg in Finals(steps)
  {
    if steps != [] {
      FinalsAreSteps(steps[..|steps| - 1]);
    }
  }
}
