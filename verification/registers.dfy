/**
 The registers the write layer touches, the words they hold on the wire and the
 values the library decodes them to.

 A `Word` is a 16-bit register. The feed-in ratio is counted in tenths of a
 percent and every power in watts, so all decoded numbers are whole.
 */
module Registers {
  import opened Wrappers

  type Word = w: int | 0 <= w <= 0xFFFF

  const NOT_AVAILABLE: Word := 0xFFFF

  datatype EmsMode = SelfConsumption | Compulsory | ExternalEms | Vpp

  datatype ChargeCommand = Charge | Discharge | Stop

  datatype StartStop = Boot | Shutdown

  /** The running states the classifier tells apart; every other one is `AnyOther`. */
  datatype InverterState = CompulsoryMode | ExternalEmsMode | AnyOther

  /** A polled sub-system; `OtherBlock` stands for those the write layer never uses. */
  datatype Component = Settings | BatteryLimits | Flows | StartStopBlock | OtherBlock(name: string)

  datatype Register =
    | EmsModeReg | ChargeCommandReg | ForcedPower
    | ExportLimit | ExportEnabled | FeedInRatio | PvLimitation
    | MaxCharge | MaxDischarge
    | StartStopReg

  function ComponentOf(r: Register): Component {
    match r
    case MaxCharge => BatteryLimits
    case MaxDischarge => BatteryLimits
    case StartStopReg => StartStopBlock
    case _ => Settings
  }

  /** A decoded value; `Missing` is Python's None: unread, a sentinel or an unknown code. */
  datatype Value =
    | Missing
    | Mode(mode: EmsMode)
    | Command(command: ChargeCommand)
    | Number(n: int)
    | Flag(on: bool)
    | Operation(operation: StartStop)
    | Running(state: InverterState)

  const ZERO_WIRE: map<Register, Word> := map r: Register | true :: 0
  const EMPTY_CACHE: map<Register, Value> := map r: Register | true :: Missing

  /** What every holding register holds. */
  type Wire = m: map<Register, Word> | forall r: Register :: r in m witness ZERO_WIRE

  /** What the library last decoded for every register. */
  type Cache = m: map<Register, Value> | forall r: Register :: r in m witness EMPTY_CACHE

  function EmsCode(m: EmsMode): Word {
    match m
    case SelfConsumption => 0
    case Compulsory => 2
    case ExternalEms => 3
    case Vpp => 4
  }

  function CommandCode(c: ChargeCommand): Word {
    match c
    case Charge => 0xAA
    case Discharge => 0xBB
    case Stop => 0xCC
  }

  function StartStopCode(c: StartStop): Word {
    match c
    case Boot => 0xCF
    case Shutdown => 0xCE
  }

  function FlagCode(on: bool): Word { if on then 0xAA else 0x55 }

  function Decode(r: Register, w: Word): Value {
    match r
    case EmsModeReg =>
      if w == 0 then Mode(SelfConsumption) else if w == 2 then Mode(Compulsory)
      else if w == 3 then Mode(ExternalEms) else if w == 4 then Mode(Vpp) else Missing
    case ChargeCommandReg =>
      if w == 0xAA then Command(Charge) else if w == 0xBB then Command(Discharge)
      else if w == 0xCC then Command(Stop) else Missing
    case ForcedPower => Number(w)
    case ExportLimit => Number(w)
    case ExportEnabled => if w == 0xAA then Flag(true) else if w == 0x55 then Flag(false) else Missing
    case PvLimitation => if w == 0xAA then Flag(true) else if w == 0x55 then Flag(false) else Missing
    case FeedInRatio => if w == NOT_AVAILABLE then Missing else Number(w)
    case MaxCharge => if w == NOT_AVAILABLE then Missing else Number(10 * w)
    case MaxDischarge => if w == NOT_AVAILABLE then Missing else Number(10 * w)
    case StartStopReg => Missing
  }

  /** The word a write of `v` puts on the wire; None when the field's validator refuses it. */
  function Encode(r: Register, v: Value): Option<Word> {
    match (r, v)
    case (EmsModeReg, Mode(m)) => Some(EmsCode(m))
    case (ChargeCommandReg, Command(c)) => Some(CommandCode(c))
    case (ForcedPower, Number(n)) => if 0 <= n <= 0xFFFF then Some(n) else None
    case (ExportLimit, Number(n)) => if 0 <= n <= 0xFFFF then Some(n) else None
    case (ExportEnabled, Flag(on)) => Some(FlagCode(on))
    case (PvLimitation, Flag(on)) => Some(FlagCode(on))
    case (FeedInRatio, Number(n)) => if 0 <= n <= 1000 then Some(n) else None
    case (MaxCharge, Number(n)) => if 0 <= n <= 10 * 0xFFFF && n % 10 == 0 then Some(n / 10) else None
    case (MaxDischarge, Number(n)) => if 0 <= n <= 10 * 0xFFFF && n % 10 == 0 then Some(n / 10) else None
    case (StartStopReg, Operation(c)) => Some(StartStopCode(c))
    case _ => None
  }

  /** Whether the last polled value already equals the target on the wire. */
  predicate SameOnWire(r: Register, current: Value, target: Value) {
    && current != Missing
    && Encode(r, current).Some?
    && Encode(r, current) == Encode(r, target)
  }

  /** The two limit registers count tens of watts and reserve 0xFFFF. */
  predicate IsLimit(r: Register) { r == MaxCharge || r == MaxDischarge }

  /**
   Reading a word and writing it back puts the same word on the wire, unless the word
   decodes to nothing or is a ratio above 100 %, which the validator refuses.
   */
  lemma DecodeThenEncode(r: Register, w: Word)
    ensures Encode(r, Decode(r, w))
            == (if Decode(r, w) == Missing || (r == FeedInRatio && w > 1000) then None else Some(w))
  {
  }

  /**
   A written value reads back as itself exactly when its word is not a limit register's
   sentinel: the restore target 655350 W encodes to the sentinel and reads back as nothing.
   The start/stop command is never read.
   */
  lemma EncodeThenDecode(r: Register, v: Value, w: Word)
    requires Encode(r, v) == Some(w)
    ensures Decode(r, w) == v <==> r != StartStopReg && !(IsLimit(r) && v == Number(10 * 0xFFFF))
  {
    if IsLimit(r) {
      assert v.n == 10 * (v.n / 10);
    }
  }

  /** The skip test is exact: a decoded word matches a target iff a write would not change the register. */
  lemma SameOnWireIsSameWord(r: Register, w: Word, target: Value)
    ensures SameOnWire(r, Decode(r, w), target) <==> Encode(r, target) == Some(w) && Decode(r, w) != Missing
  {
    DecodeThenEncode(r, w);
  }
}
