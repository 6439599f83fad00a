/**
 The coordinator's report state machine: polls that return, fail or are skipped because a
 control call holds the lock, snapshots and failure marks pushed by the control layer.
 */
module Coordinators {
  import opened Wrappers
  import opened Registers
  import Devices
  import opened Polling

  const STUCK_LINK_TIMEOUTS: nat := 3

  /** The published report: what refreshed, what failed and why. */
  datatype Shown = Shown(updated: set<Component>, failed: map<Component, Devices.ModbusError>, at: int)

  datatype Coord = Coord(data: Option<Shown>, success: bool, timeouts: nat, drops: nat)

  const INITIAL := Coord(None, true, 0, 0)

  /**
   How the device's update method ends: with a report, with a timeout or a lost connection,
   or with another error. `answered` and `silent` are the components a raising poll did and
   did not read.
   */
  datatype PollOutcome =
    | Returned(report: UpdateReport)
    | LinkFailed(answered: set<Component>, silent: set<Component>)
    | OtherwiseFailed(answered: set<Component>, silent: set<Component>)

  function AsShown(rep: UpdateReport): Shown { Shown((set n | n in rep.updated), rep.failed, rep.at) }

  /** A poll whose lock is taken returns the last report, if there is one. */
  predicate Skips(s: Coord, locked: bool) { locked && s.data.Some? }

  function UpdateData(s: Coord, counting: bool, locked: bool, outcome: PollOutcome): Coord {
    if Skips(s, locked) then s.(success := true)
    else
      match outcome
      case Returned(rep) =>
        if rep.updated == [] then s.(timeouts := 0, success := false)
        else s.(timeouts := 0, data := Some(AsShown(rep)), success := true)
      case LinkFailed(_, _) =>
        if !counting then s.(success := false)
        else if s.timeouts + 1 >= STUCK_LINK_TIMEOUTS then s.(timeouts := 0, drops := s.drops + 1, success := false)
        else s.(timeouts := s.timeouts + 1, success := false)
      case OtherwiseFailed(_, _) => s.(success := false)
  }

  function Previous(s: Coord): set<Component> {
    if s.success && s.data.Some? then s.data.value.updated else {}
  }

  function Publish(s: Coord, what: Publication, now: int): Coord {
    if s.data.None? then s
    else
      var shown := s.data.value;
      match what
      case Snapshot(names) => s.(data := Some(Shown(Previous(s) + names, shown.failed - names, now)), success := true)
      case Unavailable(names, err) =>
        if names == {} then s
        else s.(data := Some(Shown(Previous(s) - names, shown.failed + (map n | n in names :: err), shown.at)),
            success := true)
  }

  class SungrowCoordinator {
    const counting: bool
    var data: Option<Shown>
    var lastUpdateSuccess: bool
    var timeouts: nat
    var drops: nat

    function State(): Coord
      reads this
    {
      Coord(data, lastUpdateSuccess, timeouts, drops)
    }

    constructor (counting: bool)
      ensures State() == INITIAL && this.counting == counting
    {
      this.counting := counting;
      data, lastUpdateSuccess, timeouts, drops := None, true, 0, 0;
    }

    /** One scheduled update. */
    method Update(locked: bool, outcome: PollOutcome)
      modifies this
      ensures State() == UpdateData(old(State()), counting, locked, outcome)
    {
      if locked && data.Some? {
        lastUpdateSuccess := true;
        return;
      }
      match outcome {
        case Returned(rep) =>
          timeouts := 0;
          if rep.updated == [] {
            lastUpdateSuccess := false;
          } else {
            data, lastUpdateSuccess := Some(AsShown(rep)), true;
          }
        case LinkFailed(_, _) =>
          if counting {
            timeouts := timeouts + 1;
            if timeouts >= STUCK_LINK_TIMEOUTS {
              drops := drops + 1;
              timeouts := 0;
            }
          }
          lastUpdateSuccess := false;
        case OtherwiseFailed(_, _) =>
          lastUpdateSuccess := false;
      }
    }

    /** Publish values the control layer just read back. */
    method ApplySnapshot(names: set<Component>, now: int)
      modifies this
      ensures State() == Publish(old(State()), Snapshot(names), now)
    {
      if data.None? { return; }
      var previous := if lastUpdateSuccess then data.value.updated else {};
      data := Some(Shown(previous + names, data.value.failed - names, now));
      lastUpdateSuccess := true;
    }

    /** Take components unavailable whose cache is suspect. */
    method MarkFailed(names: set<Component>, error: Devices.ModbusError, now: int)
      modifies this
      ensures State() == Publish(old(State()), Unavailable(names, error), now)
    {
      if data.None? || names == {} { return; }
      var previous := if lastUpdateSuccess then data.value.updated else {};
      data := Some(Shown(previous - names, data.value.failed + (map n | n in names :: error), data.value.at));
      lastUpdateSuccess := true;
    }
  }

  // -- runs, and what really happened to each component ------------------------------------------

  datatype Happening = Scheduled(locked: bool, outcome: PollOutcome) | Published(what: Publication, now: int)

  /** For each component, when it was last read successfully and when it last failed, counted in happenings. */
  datatype History = History(read: map<Component, nat>, failed: map<Component, nat>, time: nat)

  function Mark(m: map<Component, nat>, names: set<Component>, t: nat): map<Component, nat> {
    m + (map n | n in names :: t)
  }

  function Logged(h: History, read: set<Component>, failed: set<Component>): History {
    History(Mark(h.read, read, h.time), Mark(h.failed, failed, h.time), h.time + 1)
  }

  function Record(s: Coord, h: History, e: Happening): History {
    match e
    case Scheduled(locked, outcome) =>
      if Skips(s, locked) then Logged(h, {}, {})
      else
        (match outcome
         case Returned(rep) => Logged(h, (set n | n in rep.updated), rep.failed.Keys)
         case LinkFailed(answered, silent) => Logged(h, answered, silent)
         case OtherwiseFailed(answered, silent) => Logged(h, answered, silent))
    case Published(Snapshot(names), _) => Logged(h, names, {})
    case Published(Unavailable(names, _), _) => Logged(h, {}, names)
  }

  function Next(s: Coord, counting: bool, e: Happening): Coord {
    match e
    case Scheduled(locked, outcome) => UpdateData(s, counting, locked, outcome)
    case Published(what, now) => Publish(s, what, now)
  }

  /** The coordinator and the true history after a run. */
  function After(s: Coord, h: History, counting: bool, run: seq<Happening>): (Coord, History) {
    if run == [] then (s, h)
    else
      var (s1, h1) := After(s, h, counting, run[..|run| - 1]);
      var e := run[|run| - 1];
      (Next(s1, counting, e), Record(s1, h1, e))
  }

  /** A poll reports each component once: as updated or as failed, never both. */
  predicate Sound(e: Happening) {
    e.Scheduled? ==>
      match e.outcome
      case Returned(rep) => forall n :: n in rep.updated ==> n !in rep.failed
      case LinkFailed(answered, silent) => answered !! silent
      case OtherwiseFailed(answered, silent) => answered !! silent
  }

  /** The component was read successfully more recently than it last failed. */
  predicate ReadSinceFailing(h: History, n: Component) {
    n in h.read && (n in h.failed ==> h.failed[n] < h.read[n])
  }

  /** After a success, everything shown as updated was read more recently than it failed. */
  ghost predicate ShowsRecentReads(s: Coord, h: History) {
    s.success && s.data.Some? ==> forall n :: n in s.data.value.updated ==> ReadSinceFailing(h, n)
  }

  ghost predicate Disjoint(s: Coord) {
    s.data.Some? ==> forall n :: n in s.data.value.updated ==> n !in s.data.value.failed
  }

  ghost predicate TimesPast(h: History) {
    && (forall n :: n in h.read ==> h.read[n] < h.time)
    && (forall n :: n in h.failed ==> h.failed[n] < h.time)
  }

  ghost predicate Good(s: Coord, h: History) { ShowsRecentReads(s, h) && Disjoint(s) && TimesPast(h) }

  /** A skip that would follow an outright failed poll. */
  predicate SkipsAfterFailure(s: Coord, e: Happening) { e.Scheduled? && Skips(s, e.locked) && !s.success }

  lemma RecordedKeeps(h: History, read: set<Component>, failed: set<Component>, n: Component)
    requires TimesPast(h) && read !! failed
    ensures TimesPast(Logged(h, read, failed))
    ensures n in read ==> ReadSinceFailing(Logged(h, read, failed), n)
    ensures n !in failed && ReadSinceFailing(h, n) ==> ReadSinceFailing(Logged(h, read, failed), n)
  {
  }

  lemma PollStepGood(s: Coord, h: History, counting: bool, locked: bool, outcome: PollOutcome)
    requires Good(s, h) && Sound(Scheduled(locked, outcome)) && !SkipsAfterFailure(s, Scheduled(locked, outcome))
    ensures Good(UpdateData(s, counting, locked, outcome), Record(s, h, Scheduled(locked, outcome)))
  {
    var s1, h1 := UpdateData(s, counting, locked, outcome), Record(s, h, Scheduled(locked, outcome));
    var read, failed :=
      if Skips(s, locked) then {}
      else if outcome.Returned? then (set n | n in outcome.report.updated)
      else outcome.answered,
      if Skips(s, locked) then {} else if outcome.Returned? then outcome.report.failed.Keys else outcome.silent;
    assert h1 == Logged(h, read, failed);
    RecordedKeeps(h, read, failed, Settings);
    if s1.success && s1.data.Some? {
      forall n | n in s1.data.value.updated ensures ReadSinceFailing(h1, n) { RecordedKeeps(h, read, failed, n); }
    }
  }

  lemma PublishStepGood(s: Coord, h: History, what: Publication, now: int)
    requires Good(s, h)
    ensures Good(Publish(s, what, now), Record(s, h, Published(what, now)))
  {
    var s1, h1 := Publish(s, what, now), Record(s, h, Published(what, now));
    var read, failed := if what.Snapshot? then what.names else {}, if what.Snapshot? then {} else what.failing;
    assert h1 == Logged(h, read, failed);
    RecordedKeeps(h, read, failed, Settings);
    if s1.data.Some? && s1.success {
      forall n | n in s1.data.value.updated ensures ReadSinceFailing(h1, n) { RecordedKeeps(h, read, failed, n); }
    }
  }

  /** No poll of the run is skipped while the last one failed outright. */
  predicate NoSkipAfterFailure(s: Coord, h: History, counting: bool, run: seq<Happening>) {
    forall k :: 0 <= k < |run| ==> !SkipsAfterFailure(After(s, h, counting, run[..k]).0, run[k])
  }

  /**
   Over any run of full, partial and failed polls, snapshots and failure marks: `updated` and
   `failed` stay disjoint, and a component shown as updated after a success was read more
   recently than it last failed, as long as no skipped poll directly follows a failed one.
   */
  lemma {:induction false} RunShowsRecentReads(s: Coord, h: History, counting: bool, run: seq<Happening>)
    requires Good(s, h) && (forall e :: e in run ==> Sound(e)) && NoSkipAfterFailure(s, h, counting, run)
    ensures Good(After(s, h, counting, run).0, After(s, h, counting, run).1)
  {
    if run != [] {
      var init, e := run[..|run| - 1], run[|run| - 1];
      assert NoSkipAfterFailure(s, h, counting, init) by {
        forall k | 0 <= k < |init| ensures !SkipsAfterFailure(After(s, h, counting, init[..k]).0, init[k]) {
          assert init[..k] == run[..k];
        }
      }
      RunShowsRecentReads(s, h, counting, init);
      var (s1, h1) := After(s, h, counting, init);
      assert e in run;
      match e {
        case Scheduled(locked, outcome) => PollStepGood(s1, h1, counting, locked, outcome);
        case Published(what, now) => PublishStepGood(s1, h1, what, now);
      }
    }
  }

  /** The components a poll read, and the ones it asked for and did not read. */
  function AnsweredIn(outcome: PollOutcome): set<Component> {
    if outcome.Returned? then set n | n in outcome.report.updated else outcome.answered
  }

  function SilentIn(outcome: PollOutcome): set<Component> {
    if outcome.Returned? then outcome.report.failed.Keys else outcome.silent
  }

  /** The poll raised, or returned without a single component read. */
  predicate FailsOutright(outcome: PollOutcome) { outcome.Returned? ==> outcome.report.updated == [] }

  /** A component counts as read since failing exactly when it was read now, or did not fail now and counted before. */
  lemma RecordedExactly(h: History, read: set<Component>, failed: set<Component>, n: Component)
    requires TimesPast(h) && read !! failed
    ensures ReadSinceFailing(Logged(h, read, failed), n) <==> n in read || (n !in failed && ReadSinceFailing(h, n))
  {
  }

  /** Polls that were not skipped, one after the other. */
  function Unskipped(outcomes: seq<PollOutcome>): seq<Happening> {
    if outcomes == [] then []
    else Unskipped(outcomes[..|outcomes| - 1]) + [Scheduled(false, outcomes[|outcomes| - 1])]
  }

  /** What was asked for during the polls and not read again since. */
  function StillSilent(outcomes: seq<PollOutcome>): set<Component> {
    if outcomes == [] then {}
    else
      var last := outcomes[|outcomes| - 1];
      (StillSilent(outcomes[..|outcomes| - 1]) - AnsweredIn(last)) + SilentIn(last)
  }

  /** Polls that all fail outright. */
  predicate AllFail(outcomes: seq<PollOutcome>) {
    forall f :: f in outcomes ==> FailsOutright(f) && Sound(Scheduled(false, f))
  }

  lemma OneMoreFailure(s: Coord, h: History, counting: bool, failing: seq<PollOutcome>)
    requires failing != [] && FailsOutright(failing[|failing| - 1])
    ensures var init, last := failing[..|failing| - 1], failing[|failing| - 1];
            var (s0, h0) := After(s, h, counting, Unskipped(init));
            var (s1, h1) := After(s, h, counting, Unskipped(failing));
            s1.data == s0.data && h1 == Logged(h0, AnsweredIn(last), SilentIn(last))
  {
    var run := Unskipped(failing);
    assert run[..|run| - 1] == Unskipped(failing[..|failing| - 1]);
  }

  /** A stretch of failed polls leaves the last report in place, and makes stale exactly what stays silent. */
  lemma {:induction false} FailuresSilence(s: Coord, h: History, counting: bool, failing: seq<PollOutcome>,
      n: Component)
    requires TimesPast(h) && ReadSinceFailing(h, n) && AllFail(failing)
    ensures var (s1, h1) := After(s, h, counting, Unskipped(failing));
            && s1.data == s.data && TimesPast(h1)
            && (ReadSinceFailing(h1, n) <==> n !in StillSilent(failing))
  {
    if failing != [] {
      var init, last := failing[..|failing| - 1], failing[|failing| - 1];
      assert last in failing;
      FailuresSilence(s, h, counting, init, n);
      var (s1, h1) := After(s, h, counting, Unskipped(init));
      OneMoreFailure(s, h, counting, failing);
      RecordedKeeps(h1, AnsweredIn(last), SilentIn(last), n);
      RecordedExactly(h1, AnsweredIn(last), SilentIn(last), n);
    }
  }

  /**
   Any stretch of polls that fail outright, as on a dead link, followed by a skipped one: the
   last report is shown again, and it shows recent reads exactly when nothing it lists was
   silent in the stretch and has not answered since.
   */
  lemma SkipAfterFailedPolls(s: Coord, h: History, counting: bool, failing: seq<PollOutcome>, next: PollOutcome)
    requires Good(s, h) && s.success && s.data.Some? && AllFail(failing)
    ensures var (s1, h1) := After(s, h, counting, Unskipped(failing));
            var s2, h2 := Next(s1, counting, Scheduled(true, next)), Record(s1, h1, Scheduled(true, next));
            ShowsRecentReads(s2, h2) <==> s.data.value.updated !! StillSilent(failing)
  {
    var (s1, h1) := After(s, h, counting, Unskipped(failing));
    var s2, h2 := Next(s1, counting, Scheduled(true, next)), Record(s1, h1, Scheduled(true, next));
    FailuresKeepReport(s, h, counting, failing);
    assert s2.success && s2.data == s.data && h2 == Logged(h1, {}, {});
    forall n | n in s.data.value.updated ensures ReadSinceFailing(h2, n) <==> n !in StillSilent(failing) {
      FailuresSilence(s, h, counting, failing, n);
      RecordedExactly(h1, {}, {}, n);
    }
  }

  lemma {:induction false} FailuresKeepReport(s: Coord, h: History, counting: bool, failing: seq<PollOutcome>)
    requires AllFail(failing)
    ensures After(s, h, counting, Unskipped(failing)).0.data == s.data
  {
    if failing != [] {
      assert failing[|failing| - 1] in failing;
      OneMoreFailure(s, h, counting, failing);
      FailuresKeepReport(s, h, counting, failing[..|failing| - 1]);
    }
  }

  // -- the last word on a component ------------------------------------------------------------------

  /** What a happening says about a component. */
  datatype News = WasRead | HasFailed(error: Devices.ModbusError)

  /** The component is shown so, and not the other way, after a success. */
  predicate Shows(s: Coord, n: Component, w: News) {
    && s.success && s.data.Some?
    && match w
       case WasRead => n in s.data.value.updated && n !in s.data.value.failed
       case HasFailed(error) =>
         n !in s.data.value.updated && n in s.data.value.failed && s.data.value.failed[n] == error
  }

  /**
   A poll that read something says it, if it was free to run or had nothing to return instead;
   or a publication that names the component does.
   */
  predicate Says(s: Coord, e: Happening, n: Component, w: News) {
    match e
    case Scheduled(locked, Returned(rep)) =>
      && (!locked || s.data.None?)
      && (match w
          case WasRead => n in rep.updated && n !in rep.failed
          case HasFailed(error) =>
            rep.updated != [] && n !in rep.updated && n in rep.failed && rep.failed[n] == error)
    case Scheduled(_, _) => false
    case Published(Snapshot(names), _) => s.data.Some? && w == WasRead && n in names
    case Published(Unavailable(names, error), _) => s.data.Some? && w == HasFailed(error) && n in names
  }

  /** A skipped poll, or a publication about other components. */
  predicate SaysNothing(s: Coord, e: Happening, n: Component) {
    match e
    case Scheduled(locked, _) => locked && s.data.Some?
    case Published(Snapshot(names), _) => n !in names
    case Published(Unavailable(names, _), _) => n !in names
  }

  lemma SayingShows(s: Coord, counting: bool, e: Happening, n: Component, w: News)
    requires Says(s, e, n, w)
    ensures Shows(Next(s, counting, e), n, w)
  {
  }

  lemma SilenceKeeps(s: Coord, counting: bool, e: Happening, n: Component, w: News)
    requires SaysNothing(s, e, n) && Shows(s, n, w)
    ensures Shows(Next(s, counting, e), n, w)
  {
  }

  /**
   The report shown is as old as the last poll that read something or the last snapshot; failure
   marks, failed and skipped polls leave its time alone.
   */
  lemma TimeIsLastRead(s: Coord, counting: bool, e: Happening)
    ensures var s1 := Next(s, counting, e);
            match e
            case Scheduled(locked, Returned(rep)) =>
              if (!locked || s.data.None?) && rep.updated != [] then s1.data.Some? && s1.data.value.at == rep.at
              else s1.data == s.data
            case Scheduled(_, _) => s1.data == s.data
            case Published(Snapshot(_), now) => s.data.Some? ==> s1.data.Some? && s1.data.value.at == now
            case Published(Unavailable(_, _), _) =>
              s.data.Some? ==> s1.data.Some? && s1.data.value.at == s.data.value.at
  {
  }

  /** Before a first report nothing is published, nor is a failure mark for no component. */
  lemma NothingToPublish(s: Coord, what: Publication, now: int)
    requires s.data.None? || (what.Unavailable? && what.failing == {})
    ensures Publish(s, what, now) == s
  {
  }

  /** Nothing after the `k`-th happening says anything about the component. */
  ghost predicate LastSaidAt(s: Coord, h: History, counting: bool, run: seq<Happening>, k: nat, n: Component) {
    forall j :: k < j < |run| ==> SaysNothing(After(s, h, counting, run[..j]).0, run[j], n)
  }

  lemma LastSaidBefore(s: Coord, h: History, counting: bool, run: seq<Happening>, k: nat, n: Component)
    requires k < |run| - 1 && LastSaidAt(s, h, counting, run, k, n)
    ensures LastSaidAt(s, h, counting, run[..|run| - 1], k, n)
    ensures SaysNothing(After(s, h, counting, run[..|run| - 1]).0, run[|run| - 1], n)
  {
    var init := run[..|run| - 1];
    forall j | k < j < |init| ensures SaysNothing(After(s, h, counting, init[..j]).0, init[j], n) {
      assert init[..j] == run[..j];
    }
  }

  /**
   What is shown of a component is the last word on it: if one happening of a run says it was
   read, or failed and why, and nothing after it says anything about it, the run ends showing so.
   */
  lemma {:induction false} LastWordIsShown(s: Coord, h: History, counting: bool, run: seq<Happening>, k: nat,
      n: Component, w: News)
    requires k < |run| && LastSaidAt(s, h, counting, run, k, n)
    requires Says(After(s, h, counting, run[..k]).0, run[k], n, w)
    ensures Shows(After(s, h, counting, run).0, n, w)
  {
    var init, last := run[..|run| - 1], run[|run| - 1];
    var s1 := After(s, h, counting, init).0;
    AfterLast(s, h, counting, run);
    if k == |init| {
      SayingShows(s1, counting, last, n, w);
    } else {
      LastSaidBefore(s, h, counting, run, k, n);
      assert init[..k] == run[..k] && init[k] == run[k];
      LastWordIsShown(s, h, counting, init, k, n, w);
      SilenceKeeps(s1, counting, last, n, w);
    }
  }

  lemma AfterLast(s: Coord, h: History, counting: bool, run: seq<Happening>)
    requires run != []
    ensures var init := run[..|run| - 1];
            After(s, h, counting, run).0 == Next(After(s, h, counting, init).0, counting, run[|run| - 1])
  {
  }

  // -- dropping a stuck link ----------------------------------------------------------------------

  /** The poll ran: the lock was free, or there was no last report to return instead. */
  predicate TakesPlace(s: Coord, e: Happening) { e.Scheduled? && (!e.locked || s.data.None?) }

  predicate IsReset(s: Coord, e: Happening) { TakesPlace(s, e) && e.outcome.Returned? }

  predicate IsLinkFailure(s: Coord, e: Happening) { TakesPlace(s, e) && e.outcome.LinkFailed? }

  /** The link failures in each stretch between polls that return a report, the current stretch last. */
  function Stretches(s: Coord, h: History, counting: bool, run: seq<Happening>): (r: seq<nat>)
    ensures r != []
  {
    if run == [] then [0]
    else
      var init, e := run[..|run| - 1], run[|run| - 1];
      var before := Stretches(s, h, counting, init);
      var s1 := After(s, h, counting, init).0;
      if IsReset(s1, e) then before + [0]
      else if IsLinkFailure(s1, e) then before[|before| - 1 := before[|before| - 1] + 1]
      else before
  }

  function DropsDue(stretches: seq<nat>): nat {
    if stretches == [] then 0
    else DropsDue(stretches[..|stretches| - 1]) + stretches[|stretches| - 1] / STUCK_LINK_TIMEOUTS
  }

  /**
   The link is dropped once for every three failures of a stretch, other errors neither
   counting nor resetting, and the counter stays below three between polls.
   */
  lemma {:induction false} DropsCountStretches(h: History, run: seq<Happening>)
    ensures var (s, stretches) := (After(INITIAL, h, true, run).0, Stretches(INITIAL, h, true, run));
            && s.drops == DropsDue(stretches)
            && s.timeouts == stretches[|stretches| - 1] % STUCK_LINK_TIMEOUTS
            && s.timeouts < STUCK_LINK_TIMEOUTS
  {
    if run != [] {
      var init, e := run[..|run| - 1], run[|run| - 1];
      DropsCountStretches(h, init);
      var before, after := Stretches(INITIAL, h, true, init), Stretches(INITIAL, h, true, run);
      var last := before[|before| - 1];
      if after == before + [0] {
        assert after[..|after| - 1] == before;
      } else if after == before[|before| - 1 := last + 1] {
        assert after[..|after| - 1] == before[..|before| - 1];
        NextThird(last);
      }
    }
  }

  lemma NextThird(n: nat)
    ensures n % 3 == 2 ==> (n + 1) / 3 == n / 3 + 1 && (n + 1) % 3 == 0
    ensures n % 3 < 2 ==> (n + 1) / 3 == n / 3 && (n + 1) % 3 == n % 3 + 1
  {
  }

  /** Without counting, no link is ever dropped. */
  lemma {:induction false} NoDropsUncounted(h: History, run: seq<Happening>)
    ensures After(INITIAL, h, false, run).0.drops == 0
  {
    if run != [] { NoDropsUncounted(h, run[..|run| - 1]); }
  }
}
