/** The device object: component caches, refresh stamps and the poll loop, over the link. */
module Inverters {
  import opened Wrappers
  import opened Registers
  import opened Devices
  import opened Polling
  import PollProperties

  /** The names that are not polled components. */
  function Unknown(names: seq<Component>, polled: set<Component>): (unknown: seq<Component>)
    ensures forall n :: n in unknown <==> n in names && n !in polled
    ensures unknown == [] <==> forall n :: n in names ==> n in polled
  {
    if names == [] then [] else (if names[0] in polled then [] else [names[0]]) + Unknown(names[1..], polled)
  }

  class SungrowInverter {
    const mirrors: Option<int>
    const polled: set<Component>
    // the far end of the link
    var wire: Wire
    var running: InverterState
    var clock: int
    var sent: seq<Request>
    // the library's side
    var cache: Cache
    var state: Option<InverterState>
    var refreshed: map<Component, int>

    function View(): Device
      reads this
    {
      Device(wire, running, cache, state, refreshed, clock, sent)
    }

    /** Nothing is cached and nothing has a stamp before the first read. */
    constructor (mirrors: Option<int>, polled: set<Component>, wire: Wire, running: InverterState, clock: int)
      ensures View() == Device(wire, running, EMPTY_CACHE, None, map[], clock, [])
      ensures this.mirrors == mirrors && this.polled == polled
    {
      this.mirrors, this.polled, this.wire, this.running, this.clock := mirrors, polled, wire, running, clock;
      sent, cache, state, refreshed := [], EMPTY_CACHE, None, map[];
    }

    /** A component decoded what it read. */
    method Store(fields: Cache, observed: Option<InverterState>)
      modifies `cache, `state
      ensures View() == old(View()).(cache := fields, state := observed)
    {
      cache, state := fields, observed;
    }

    /** The component was read just now. */
    method Stamp(c: Component)
      modifies `refreshed
      ensures View() == old(View()).(refreshed := old(refreshed)[c := clock])
    {
      refreshed := refreshed[c := clock];
    }

    /** One successful read of a component. */
    method ReadComponent(c: Component)
      modifies `cache, `state, `refreshed
      ensures View() == Read(old(View()), c)
    {
      Store(Reloaded(cache, wire, c), Observed(state, running, c));
      Stamp(c);
    }

    method Suffer(e: Event)
      modifies this
      ensures View() == Happen(old(View()), e)
    {
      match e {
        case Elapse(s) => clock := clock + s;
        case Drift(s) => running := s;
        case Reread(c) => ReadComponent(c);
      }
    }

    /** An await: other tasks run, in order. */
    method Await(events: seq<Event>)
      modifies this
      ensures View() == Disturb(old(View()), events)
    {
      var i := 0;
      while i < |events|
        invariant 0 <= i <= |events|
        invariant Disturb(View(), events[i..]) == Disturb(old(View()), events)
      {
        assert events[i..][0] == events[i] && events[i..][1..] == events[i + 1..];
        Suffer(events[i]);
        i := i + 1;
      }
    }

    /** One write request. */
    method Write(r: Register, v: Value, w: Word, x: Exchange)
      modifies this
      ensures View() == Transmit(mirrors, old(View()), r, v, w, x)
    {
      Await(x.before);
      sent := sent + [Request(r, v, wire, x.reply == Acked)];
      if x.landed { wire := Land(mirrors, wire, r, w, x.up); }
      Await(x.after);
    }

    /** Read one component, recording what happened. */
    method PollName(name: Component, start: UpdateReport, env: seq<ReadEnv>, collect: bool)
      returns (report: UpdateReport, raised: Option<ModbusError>)
      modifies this
      ensures Polled(View(), report, raised, RestReads(env))
              == PollOne(Polled(old(View()), start, None, env), name, collect)
    {
      report, raised := start, None;
      var e := FirstRead(env);
      Await(e.before);
      match e.answer {
        case Err(err) =>
          if Fatal(start, err) {
            raised := Some(err);
          } else {
            report := start.(failed := start.failed[name := err]);
          }
        case Ok(raw) =>
          ReadComponent(name);
          report := Recorded(start, name, raw, collect);
      }
    }

    /** Read each named component on its own, until a failure ends the poll. */
    method PollInto(names: seq<Component>, start: UpdateReport, env: seq<ReadEnv>, collect: bool)
      returns (report: UpdateReport, raised: Option<ModbusError>, rest: seq<ReadEnv>)
      modifies this
      ensures Polled(View(), report, raised, rest) == Poll(Polled(old(View()), start, None, env), names, collect)
    {
      report, raised, rest := start, None, env;
      var i := 0;
      while i < |names| && raised.None?
        invariant 0 <= i <= |names|
        invariant Poll(Polled(View(), report, raised, rest), names[i..], collect)
               == Poll(Polled(old(View()), start, None, env), names, collect)
      {
        assert names[i..][0] == names[i] && names[i..][1..] == names[i + 1..];
        report, raised := PollName(names[i], report, rest, collect);
        rest := RestReads(rest);
        i := i + 1;
      }
    }

    /** Refresh only the named components; names that are not polled are refused before anything is read. */
    method AsyncRefresh(names: seq<Component>, env: seq<ReadEnv>)
      returns (unknown: seq<Component>, report: UpdateReport, raised: Option<ModbusError>)
      modifies this
      ensures unknown == Unknown(names, polled)
      ensures unknown != [] ==> View() == old(View())
      ensures unknown == [] ==>
                var p := Refresh(old(View()), names, env);
                View() == p.dev && report == p.report && raised == p.raised
    {
      unknown, report, raised := Unknown(names, polled), EmptyReport(clock), None;
      if unknown == [] {
        var rest;
        report, raised, rest := PollInto(names, EmptyReport(clock), env, false);
      }
    }

    /** Refresh two poll lists into one report, as one poll of both. */
    method AsyncUpdate(realtime: seq<Component>, slow: seq<Component>, env: seq<ReadEnv>, collect: bool)
      returns (report: UpdateReport, raised: Option<ModbusError>)
      modifies this
      ensures var p := Poll(Polled(old(View()), EmptyReport(old(clock)), None, env), realtime + slow, collect);
              View() == p.dev && report == p.report && raised == p.raised
    {
      ghost var p := Polled(View(), EmptyReport(clock), None, env);
      PollProperties.PollAppend(p, realtime, slow, collect);
      var rest;
      report, raised, rest := PollInto(realtime, EmptyReport(clock), env, collect);
      if raised.Some? { return; }
      report, raised, rest := PollInto(slow, report, rest, collect);
    }

    /** When the component was last read, or None. */
    function LastRefresh(name: Component): (at: Option<int>)
      reads this
      ensures at.Some? <==> name in View().refreshed
      ensures at.Some? ==> at.value == View().refreshed[name]
    {
      if name in refreshed then Some(refreshed[name]) else None
    }

    /** Forget when the components were last read. */
    method InvalidateAll(names: seq<Component>)
      modifies this
      ensures View() == Invalidate(old(View()), names)
    {
      var i := 0;
      while i < |names|
        invariant 0 <= i <= |names|
        invariant refreshed == old(refreshed) - (set n | n in names[..i])
        invariant View() == old(View()).(refreshed := refreshed)
      {
        refreshed := refreshed - {names[i]};
        assert names[..i + 1] == names[..i] + [names[i]];
        i := i + 1;
      }
      assert names[..i] == names;
    }
  }
}
