/** The poll loop: read components one by one, recording what answered and what did not. */
module Polling {
  import opened Wrappers
  import opened Registers
  import opened Devices

  /** Raw words keyed by register space and address. */
  type Raw = map<(string, int), int>

  datatype UpdateReport = UpdateReport(
    updated: seq<Component>,
    failed: map<Component, ModbusError>,
    at: int,
    raw: Option<Raw>
  )

  /** What the control layer tells a coordinator between polls. */
  datatype Publication =
    | Snapshot(names: set<Component>)
    | Unavailable(failing: set<Component>, error: ModbusError)

  function EmptyReport(at: int): UpdateReport { UpdateReport([], map[], at, None) }

  /** How one component's read ends, and what other tasks did while it was awaited. */
  datatype ReadEnv = ReadEnv(before: seq<Event>, answer: Result<Raw, ModbusError>)

  const ANSWERED := ReadEnv([], Ok(map[]))

  function FirstRead(env: seq<ReadEnv>): ReadEnv { if env == [] then ANSWERED else env[0] }

  function RestReads(env: seq<ReadEnv>): seq<ReadEnv> { if env == [] then [] else env[1..] }

  /** Where a poll stands: the device, the report so far, the error it raised if any, the reads to come. */
  datatype Polled = Polled(dev: Device, report: UpdateReport, raised: Option<ModbusError>, rest: seq<ReadEnv>)

  /** The first read of an address wins where blocks overlap. */
  function MergeRaw(sofar: Option<Raw>, read: Raw): Raw {
    if sofar.None? then read else read + sofar.value
  }

  function Recorded(rep: UpdateReport, name: Component, raw: Raw, collect: bool): UpdateReport {
    rep.(updated := rep.updated + [name], raw := if collect then Some(MergeRaw(rep.raw, raw)) else rep.raw)
  }

  /** Whether this failure ends the poll: the link is down, or nothing has answered yet. */
  predicate Fatal(rep: UpdateReport, err: ModbusError) {
    err == ConnectionLost || (err == TimedOut && rep.updated == [] && rep.failed == map[])
  }

  /** One read of a poll. */
  function PollOne(p: Polled, name: Component, collect: bool): Polled
    requires p.raised.None?
  {
    var e := FirstRead(p.rest);
    var d := Disturb(p.dev, e.before);
    match e.answer
    case Ok(raw) => Polled(Read(d, name), Recorded(p.report, name, raw, collect), None, RestReads(p.rest))
    case Err(err) =>
      if Fatal(p.report, err) then Polled(d, p.report, Some(err), RestReads(p.rest))
      else Polled(d, p.report.(failed := p.report.failed[name := err]), None, RestReads(p.rest))
  }

  function Poll(p: Polled, names: seq<Component>, collect: bool): Polled
    decreases |names|
  {
    if names == [] || p.raised.Some? then p else Poll(PollOne(p, names[0], collect), names[1..], collect)
  }

  /** One whole call of `async_refresh`. */
  function Refresh(d: Device, names: seq<Component>, env: seq<ReadEnv>): Polled {
    Poll(Polled(d, EmptyReport(d.clock), None, env), names, false)
  }

  predicate AllAnswered(p: Polled) { p.raised.None? && p.report.failed == map[] }

  // -- what a poll keeps -----------------------------------------------------------

  lemma PollOneUndisturbed(p: Polled, name: Component, collect: bool)
    requires p.raised.None?
    ensures Undisturbed(p.dev, PollOne(p, name, collect).dev)
  {
    var e := FirstRead(p.rest);
    var d := Disturb(p.dev, e.before);
    DisturbUndisturbed(p.dev, e.before);
    HappenUndisturbed(d, Reread(name));
    if e.answer.Ok? { UndisturbedTrans(p.dev, d, Read(d, name)); }
  }

  /** A poll is to everyone else like other tasks' reads: it changes no register and keeps caches honest. */
  lemma {:induction false} PollUndisturbed(p: Polled, names: seq<Component>, collect: bool)
    ensures Undisturbed(p.dev, Poll(p, names, collect).dev)
    decreases |names|
  {
    if names != [] && p.raised.None? {
      var q := PollOne(p, names[0], collect);
      PollOneUndisturbed(p, names[0], collect);
      PollUndisturbed(q, names[1..], collect);
      UndisturbedTrans(p.dev, q.dev, Poll(p, names, collect).dev);
    }
  }

  /** What a report shows as updated is stamped, and its cached fields are what the inverter holds. */
  ghost predicate Backed(p: Polled) {
    forall n :: n in p.report.updated ==> n in p.dev.refreshed && Fresh(p.dev, n)
  }

  lemma PollOneBacked(p: Polled, name: Component, collect: bool)
    requires p.raised.None? && Backed(p)
    ensures Backed(PollOne(p, name, collect))
  {
    var q := PollOne(p, name, collect);
    PollOneUndisturbed(p, name, collect);
    forall n | n in q.report.updated ensures n in q.dev.refreshed && Fresh(q.dev, n) {
      if n in p.report.updated { assert Fresh(p.dev, n); }
    }
  }

  lemma {:induction false} PollBacked(p: Polled, names: seq<Component>, collect: bool)
    requires Backed(p)
    ensures Backed(Poll(p, names, collect))
    decreases |names|
  {
    if names != [] && p.raised.None? {
      PollOneBacked(p, names[0], collect);
      PollBacked(PollOne(p, names[0], collect), names[1..], collect);
    }
  }

  /** A poll that returns has recorded every name it was given. */
  lemma {:induction false} PollCovers(p: Polled, names: seq<Component>, collect: bool)
    ensures var q := Poll(p, names, collect);
            && (forall n :: n in p.report.updated ==> n in q.report.updated)
            && p.report.failed.Keys <= q.report.failed.Keys
            && (q.raised.None? ==> forall n :: n in names ==> n in q.report.updated || n in q.report.failed)
    decreases |names|
  {
    if names != [] && p.raised.None? {
      PollCovers(PollOne(p, names[0], collect), names[1..], collect);
    }
  }

  /** After a refresh that answered everything, every named component is stamped and fresh, and nothing else moved. */
  lemma RefreshMakesFresh(d: Device, names: seq<Component>, env: seq<ReadEnv>)
    ensures var p := Refresh(d, names, env);
            && Undisturbed(d, p.dev)
            && (forall n :: n in p.report.updated ==> n in p.dev.refreshed && Fresh(p.dev, n))
            && (p.raised.None? ==> forall n ::
                 n in names && n !in p.report.failed ==> n in p.dev.refreshed && Fresh(p.dev, n))
  {
    var p := Polled(d, EmptyReport(d.clock), None, env);
    PollUndisturbed(p, names, false);
    PollBacked(p, names, false);
    PollCovers(p, names, false);
  }

  predicate AllReadsAnswered(env: seq<ReadEnv>) { forall e :: e in env ==> e.answer.Ok? }

  /** When every read is answered, nothing fails and nothing is raised. */
  lemma {:induction false} AnsweredPoll(p: Polled, names: seq<Component>, collect: bool)
    requires p.raised.None? && AllReadsAnswered(p.rest)
    ensures var q := Poll(p, names, collect); q.raised.None? && q.report.failed == p.report.failed
    decreases |names|
  {
    if names != [] {
      assert FirstRead(p.rest) in p.rest || FirstRead(p.rest) == ANSWERED;
      AnsweredPoll(PollOne(p, names[0], collect), names[1..], collect);
    }
  }

  lemma AnsweredRefresh(d: Device, names: seq<Component>, env: seq<ReadEnv>)
    requires AllReadsAnswered(env)
    ensures AllAnswered(Refresh(d, names, env))
  {
    AnsweredPoll(Polled(d, EmptyReport(d.clock), None, env), names, false);
  }
}
