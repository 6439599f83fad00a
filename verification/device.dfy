/**
 The inverter seen through the link: what its registers hold, what the library has
 cached, when each component was last read, and what other tasks may do at an await.

 Every function here is deterministic: what the link and the other tasks do is an
 argument, so a lemma over all arguments covers every failure pattern.
 */
module Devices {
  import opened Wrappers
  import opened Registers

  datatype ModbusError = ConnectionLost | TimedOut | ExceptionCode(code: int)

  /** One write request as the link saw it: what the registers held before, and whether it was acknowledged. */
  datatype Request = Request(reg: Register, value: Value, before: Wire, acked: bool)

  datatype Device = Device(
    wire: Wire,                      // the holding registers
    running: InverterState,          // the running state, which moves by itself
    cache: Cache,                    // the decoded fields of the components
    state: Option<InverterState>,    // the decoded running state; None before a poll
    refreshed: map<Component, int>,  // the stamp of each component's last successful read
    clock: int,
    sent: seq<Request>               // every write request so far
  )

  /** What other tasks may do while a call awaits. None of them writes a holding register. */
  datatype Event =
    | Elapse(seconds: nat)
    | Drift(state: InverterState)
    | Reread(component: Component)

  /** The cache with the fields of one component decoded anew. */
  function Reloaded(cache: Cache, wire: Wire, c: Component): Cache {
    map r | r in cache :: if ComponentOf(r) == c then Decode(r, wire[r]) else cache[r]
  }

  /** The decoded running state, which the flows carry. */
  function Observed(state: Option<InverterState>, running: InverterState, c: Component): Option<InverterState> {
    if c == Flows then Some(running) else state
  }

  /** A successful all-or-nothing read of one component. */
  function Read(d: Device, c: Component): Device {
    Device(d.wire, d.running, Reloaded(d.cache, d.wire, c), Observed(d.state, d.running, c),
           d.refreshed[c := d.clock], d.clock, d.sent)
  }

  function Happen(d: Device, e: Event): Device {
    match e
    case Elapse(s) => d.(clock := d.clock + s)
    case Drift(s) => d.(running := s)
    case Reread(c) => Read(d, c)
  }

  function Disturb(d: Device, events: seq<Event>): Device
    decreases |events|
  {
    if events == [] then d else Disturb(Happen(d, events[0]), events[1..])
  }

  function Invalidate(d: Device, names: seq<Component>): Device {
    d.(refreshed := d.refreshed - (set n | n in names))
  }

  // -- writes ------------------------------------------------------------------

  datatype Reply = Acked | Failed(error: ModbusError)

  /**
   One write request: what happens before it reaches the inverter and after, how it is
   answered, whether it landed, and which way a mirroring inverter rounds.
   */
  datatype Exchange = Exchange(before: seq<Event>, reply: Reply, landed: bool, up: bool, after: seq<Event>)

  const QUIET := Exchange([], Acked, true, false, [])

  function DivRound(n: int, d: int, up: bool): int
    requires d > 0
  {
    if up && n % d != 0 then n / d + 1 else n / d
  }

  function ClampWord(n: int): Word {
    if n < 0 then 0 else if n > 0xFFFF then 0xFFFF else n
  }

  /**
   What a landed write leaves in the registers. With `mirrors` (the nominal power, for
   an SH-T that keeps the two feed-in registers in step) a write of either the watts
   or the ratio sets the other one, rounded down or up.
   */
  function Land(mirrors: Option<int>, wire: Wire, r: Register, w: Word, up: bool): Wire {
    if mirrors.None? || mirrors.value <= 0 then wire[r := w]
    else if r == ExportLimit then wire[r := w][FeedInRatio := ClampWord(DivRound(1000 * w, mirrors.value, up))]
    else if r == FeedInRatio then wire[r := w][ExportLimit := ClampWord(DivRound(w * mirrors.value, 1000, up))]
    else wire[r := w]
  }

  /** The moment the request reaches the inverter. */
  function Deliver(mirrors: Option<int>, d: Device, r: Register, v: Value, w: Word, x: Exchange): Device {
    d.(wire := if x.landed then Land(mirrors, d.wire, r, w, x.up) else d.wire,
       sent := d.sent + [Request(r, v, d.wire, x.reply == Acked)])
  }

  function Transmit(mirrors: Option<int>, d: Device, r: Register, v: Value, w: Word, x: Exchange): Device {
    Disturb(Deliver(mirrors, Disturb(d, x.before), r, v, w, x), x.after)
  }

  // -- facts about what other tasks do -------------------------------------------

  /** The cached fields of `c` are what its registers decode to. */
  ghost predicate Fresh(d: Device, c: Component) {
    forall r: Register :: ComponentOf(r) == c ==> d.cache[r] == Decode(r, d.wire[r])
  }

  /** Every component of `names` that has a stamp has a cache that equals its decoded registers. */
  ghost predicate HonestOn(d: Device, names: set<Component>) {
    forall c :: c in names && c in d.refreshed ==> Fresh(d, c)
  }

  /** `d1` may be `d` after other tasks ran: same registers, each cached field kept or re-read, stamps never lost. */
  ghost predicate Undisturbed(d: Device, d1: Device) {
    && d1.wire == d.wire && d1.sent == d.sent
    && d.clock <= d1.clock
    && (forall r: Register :: d1.cache[r] == d.cache[r] || d1.cache[r] == Decode(r, d.wire[r]))
    && (forall c: Component :: Fresh(d, c) ==> Fresh(d1, c))
    && (forall c: Component :: c in d1.refreshed ==> c in d.refreshed || Fresh(d1, c))
    && d.refreshed.Keys <= d1.refreshed.Keys
  }

  lemma UndisturbedTrans(d: Device, d1: Device, d2: Device)
    requires Undisturbed(d, d1) && Undisturbed(d1, d2)
    ensures Undisturbed(d, d2)
  {
  }

  lemma HappenUndisturbed(d: Device, e: Event)
    ensures Undisturbed(d, Happen(d, e))
  {
    if e.Reread? {
      ReadUndisturbed(d, e.component);
    } else {
      assert Happen(d, e).cache == d.cache && Happen(d, e).refreshed == d.refreshed && Happen(d, e).wire == d.wire;
    }
  }

  lemma ReadUndisturbed(d: Device, c: Component)
    ensures Undisturbed(d, Read(d, c))
  {
  }

  lemma {:induction false} DisturbUndisturbed(d: Device, events: seq<Event>)
    ensures Undisturbed(d, Disturb(d, events))
    decreases |events|
  {
    if events != [] {
      HappenUndisturbed(d, events[0]);
      DisturbUndisturbed(Happen(d, events[0]), events[1..]);
      UndisturbedTrans(d, Happen(d, events[0]), Disturb(d, events));
    }
  }

  lemma UndisturbedKeepsHonest(d: Device, d1: Device, names: set<Component>)
    requires Undisturbed(d, d1) && HonestOn(d, names)
    ensures HonestOn(d1, names)
  {
    forall c | c in names && c in d1.refreshed ensures Fresh(d1, c) {
      if c in d.refreshed { assert Fresh(d, c); }
    }
  }

  /** A landed write is in its register. */
  lemma LandWrites(mirrors: Option<int>, wire: Wire, r: Register, w: Word, up: bool)
    ensures Land(mirrors, wire, r, w, up)[r] == w
  {
  }

  /** A landed write stays inside its component. */
  lemma LandStaysInComponent(mirrors: Option<int>, wire: Wire, r: Register, w: Word, up: bool, other: Register)
    requires ComponentOf(other) != ComponentOf(r)
    ensures Land(mirrors, wire, r, w, up)[other] == wire[other]
  {
  }

  lemma DeliverKeepsFresh(mirrors: Option<int>, d: Device, r: Register, v: Value, w: Word, x: Exchange, c: Component)
    requires Fresh(d, c) && ComponentOf(r) != c
    ensures Fresh(Deliver(mirrors, d, r, v, w, x), c)
  {
    var d1 := Deliver(mirrors, d, r, v, w, x);
    forall other: Register | ComponentOf(other) == c ensures d1.cache[other] == Decode(other, d1.wire[other]) {
      LandStaysInComponent(mirrors, d.wire, r, w, x.up, other);
    }
  }

  /** A write disturbs the honesty of its own component only. */
  lemma TransmitKeepsHonest(mirrors: Option<int>, d: Device, r: Register, v: Value, w: Word, x: Exchange,
      names: set<Component>)
    requires HonestOn(d, names) && ComponentOf(r) !in names
    ensures HonestOn(Transmit(mirrors, d, r, v, w, x), names)
  {
    var d1 := Disturb(d, x.before);
    DisturbUndisturbed(d, x.before);
    UndisturbedKeepsHonest(d, d1, names);
    var d2 := Deliver(mirrors, d1, r, v, w, x);
    assert HonestOn(d2, names) by {
      forall c | c in names && c in d2.refreshed ensures Fresh(d2, c) {
        DeliverKeepsFresh(mirrors, d1, r, v, w, x, c);
      }
    }
    DisturbUndisturbed(d2, x.after);
    UndisturbedKeepsHonest(d2, Disturb(d2, x.after), names);
  }
}
