/** What a poll's report says, for every sequence of answers. */
module PollProperties {
  import opened Wrappers
  import opened Registers
  import opened Devices
  import opened Polling
  import Coordinators

  /** Polling `a` and then `b` into one report is polling `a + b`. */
  lemma {:induction false} PollAppend(p: Polled, a: seq<Component>, b: seq<Component>, collect: bool)
    ensures Poll(p, a + b, collect) == Poll(Poll(p, a, collect), b, collect)
    decreases |a|
  {
    if a == [] {
      assert a + b == b;
    } else if p.raised.None? {
      assert (a + b)[1..] == a[1..] + b;
      PollAppend(PollOne(p, a[0], collect), a[1..], b, collect);
    }
  }

  /** The answer the i-th read of a poll gets. */
  function AnswerAt(env: seq<ReadEnv>, i: nat): Result<Raw, ModbusError> {
    if i < |env| then env[i].answer else Ok(map[])
  }

  lemma AnswerAfterFirst(env: seq<ReadEnv>, i: nat)
    ensures AnswerAt(RestReads(env), i) == AnswerAt(env, i + 1)
    ensures FirstRead(env).answer == AnswerAt(env, 0)
  {
  }

  lemma RaisedEnds(p: Polled, names: seq<Component>, collect: bool)
    ensures p.raised.Some? ==> Poll(p, names, collect) == p
  {
  }

  /** Nothing has been recorded yet. */
  predicate Blank(rep: UpdateReport) { rep.updated == [] && rep.failed == map[] }

  /** One of the first `n` reads finds the link down. */
  predicate Loses(env: seq<ReadEnv>, n: nat) { exists i :: 0 <= i < n && AnswerAt(env, i) == Err(ConnectionLost) }

  lemma LosesFirstOrLater(env: seq<ReadEnv>, n: nat)
    requires n > 0
    ensures Loses(env, n) <==> AnswerAt(env, 0) == Err(ConnectionLost) || Loses(RestReads(env), n - 1)
  {
    if Loses(env, n) {
      var i :| 0 <= i < n && AnswerAt(env, i) == Err(ConnectionLost);
      if i > 0 { AnswerAfterFirst(env, i - 1); }
    }
    if Loses(RestReads(env), n - 1) {
      var i :| 0 <= i < n - 1 && AnswerAt(RestReads(env), i) == Err(ConnectionLost);
      AnswerAfterFirst(env, i);
    }
  }

  /** What one read does to the report. */
  lemma OneRecorded(p: Polled, name: Component, collect: bool)
    requires p.raised.None?
    ensures var q := PollOne(p, name, collect);
            && q.rest == RestReads(p.rest)
            && (q.raised.Some? <==>
                 AnswerAt(p.rest, 0) == Err(ConnectionLost)
                 || (Blank(p.report) && AnswerAt(p.rest, 0) == Err(TimedOut)))
            && (q.raised.None? ==> !Blank(q.report))
            && (q.raised.None? ==>
                 q.report.updated == p.report.updated + if AnswerAt(p.rest, 0).Ok? then [name] else [])
  {
    AnswerAfterFirst(p.rest, 0);
    if AnswerAt(p.rest, 0).Ok? {
      assert name in PollOne(p, name, collect).report.updated;
    } else if PollOne(p, name, collect).raised.None? {
      assert name in PollOne(p, name, collect).report.failed;
    }
  }

  /**
   A poll raises exactly on a connection error, or on a timeout before any component was
   recorded.
   */
  lemma {:induction false} RaisesExactly(p: Polled, names: seq<Component>, collect: bool)
    requires p.raised.None?
    ensures Poll(p, names, collect).raised.Some? <==>
            Loses(p.rest, |names|) || (names != [] && Blank(p.report) && AnswerAt(p.rest, 0) == Err(TimedOut))
    decreases |names|
  {
    if names != [] {
      var q := PollOne(p, names[0], collect);
      OneRecorded(p, names[0], collect);
      LosesFirstOrLater(p.rest, |names|);
      RaisedEnds(q, names[1..], collect);
      if q.raised.None? { RaisesExactly(q, names[1..], collect); }
    }
  }

  /** The names whose read was answered, in poll order. */
  function Answered(names: seq<Component>, env: seq<ReadEnv>): seq<Component>
    decreases |names|
  {
    if names == [] then []
    else (if AnswerAt(env, 0).Ok? then [names[0]] else []) + Answered(names[1..], RestReads(env))
  }

  /** A poll that returns lists as updated what answered, in poll order. */
  lemma {:induction false} UpdatedIsAnswered(p: Polled, names: seq<Component>, collect: bool)
    requires Poll(p, names, collect).raised.None?
    ensures Poll(p, names, collect).report.updated == p.report.updated + Answered(names, p.rest)
    decreases |names|
  {
    if names != [] {
      var q := PollOne(p, names[0], collect);
      OneRecorded(p, names[0], collect);
      RaisedEnds(q, names[1..], collect);
      UpdatedIsAnswered(q, names[1..], collect);
      AppendAssociates(p.report.updated, if AnswerAt(p.rest, 0).Ok? then [names[0]] else [],
          Answered(names[1..], q.rest));
    }
  }

  lemma AppendAssociates(a: seq<Component>, b: seq<Component>, c: seq<Component>)
    ensures (a + b) + c == a + (b + c)
  {
  }

  predicate DistinctNames(names: seq<Component>) { forall i, j :: 0 <= i < j < |names| ==> names[i] != names[j] }

  /** And as failed what did not, each with its own error. */
  lemma {:induction false} FailedIsUnanswered(p: Polled, names: seq<Component>, collect: bool, i: nat)
    requires Poll(p, names, collect).raised.None? && DistinctNames(names) && i < |names|
    requires forall n :: n in names ==> n !in p.report.failed
    ensures var rep := Poll(p, names, collect).report;
            match AnswerAt(p.rest, i)
            case Ok(_) => names[i] !in rep.failed
            case Err(e) => names[i] in rep.failed && rep.failed[names[i]] == e
    decreases |names|
  {
    var q := PollOne(p, names[0], collect);
    RaisedEnds(q, names[1..], collect);
    AnswerAfterFirst(p.rest, 0);
    if i == 0 {
      FailedKept(q, names[1..], collect, names[0]);
    } else {
      AnswerAfterFirst(p.rest, i - 1);
      FailedIsUnanswered(q, names[1..], collect, i - 1);
    }
  }

  lemma {:induction false} FailedKept(p: Polled, names: seq<Component>, collect: bool, n: Component)
    requires n !in names
    ensures var rep := Poll(p, names, collect).report;
            (n in rep.failed <==> n in p.report.failed)
                && (n in p.report.failed ==> rep.failed[n] == p.report.failed[n])
    decreases |names|
  {
    if names != [] && p.raised.None? { FailedKept(PollOne(p, names[0], collect), names[1..], collect, n); }
  }

  lemma {:induction false} AnsweredAt(names: seq<Component>, env: seq<ReadEnv>, n: Component)
    ensures n in Answered(names, env) <==> exists i :: 0 <= i < |names| && names[i] == n && AnswerAt(env, i).Ok?
    decreases |names|
  {
    if names != [] {
      AnsweredAt(names[1..], RestReads(env), n);
      if exists i :: 0 <= i < |names| && names[i] == n && AnswerAt(env, i).Ok? {
        var i :| 0 <= i < |names| && names[i] == n && AnswerAt(env, i).Ok?;
        if i > 0 { AnswerAfterFirst(env, i - 1); assert names[1..][i - 1] == n; }
      }
      if exists i :: 0 <= i < |names[1..]| && names[1..][i] == n && AnswerAt(RestReads(env), i).Ok? {
        var i :| 0 <= i < |names[1..]| && names[1..][i] == n && AnswerAt(RestReads(env), i).Ok?;
        AnswerAfterFirst(env, i);
        assert names[i + 1] == n;
      }
    }
  }

  /** On return, `updated` and `failed` partition distinct names. */
  lemma ReportPartitionsNames(d: Device, names: seq<Component>, env: seq<ReadEnv>, collect: bool, n: Component)
    requires DistinctNames(names) && n in names
    requires Poll(Polled(d, EmptyReport(d.clock), None, env), names, collect).raised.None?
    ensures var rep := Poll(Polled(d, EmptyReport(d.clock), None, env), names, collect).report;
            n in rep.updated <==> n !in rep.failed
  {
    var p := Polled(d, EmptyReport(d.clock), None, env);
    var i :| 0 <= i < |names| && names[i] == n;
    UpdatedIsAnswered(p, names, collect);
    FailedIsUnanswered(p, names, collect, i);
    AnsweredAt(names, env, n);
  }

  // -- stamps ---------------------------------------------------------------------------------

  /** No other task reads `n` meanwhile. */
  predicate LeftAlone(env: seq<ReadEnv>, n: Component) {
    forall e :: e in env ==> Reread(n) !in e.before
  }

  /** The stamp of `n` was set no earlier than `since`. */
  predicate StampedSince(d: Device, n: Component, since: int) {
    n in d.refreshed && since <= d.refreshed[n] <= d.clock
  }

  /** The stamp of `n` is the one it had. */
  predicate SameStamp(d: Device, d1: Device, n: Component) {
    (n in d1.refreshed <==> n in d.refreshed) && (n in d.refreshed ==> d1.refreshed[n] == d.refreshed[n])
  }

  /** Time passes, and stamps move forward. */
  lemma HappenStamps(d: Device, e: Event, n: Component, since: int)
    requires since <= d.clock
    ensures d.clock <= Happen(d, e).clock && (StampedSince(d, n, since) ==> StampedSince(Happen(d, e), n, since))
    ensures e != Reread(n) ==> SameStamp(d, Happen(d, e), n)
  {
  }

  lemma {:induction false} DisturbStampsSince(d: Device, events: seq<Event>, n: Component, since: int)
    requires since <= d.clock
    ensures d.clock <= Disturb(d, events).clock
            && (StampedSince(d, n, since) ==> StampedSince(Disturb(d, events), n, since))
    decreases |events|
  {
    if events != [] {
      HappenStamps(d, events[0], n, since);
      DisturbStampsSince(Happen(d, events[0]), events[1..], n, since);
    }
  }

  lemma {:induction false} DisturbKeepsStamp(d: Device, events: seq<Event>, n: Component)
    requires Reread(n) !in events
    ensures SameStamp(d, Disturb(d, events), n)
    decreases |events|
  {
    if events != [] {
      assert events[0] in events;
      HappenStamps(d, events[0], n, d.clock);
      DisturbKeepsStamp(Happen(d, events[0]), events[1..], n);
    }
  }

  /** What one read does to the device. */
  lemma OneReads(p: Polled, name: Component, collect: bool)
    requires p.raised.None?
    ensures var d := Disturb(p.dev, FirstRead(p.rest).before);
            var q := PollOne(p, name, collect);
            q.dev == (if AnswerAt(p.rest, 0).Ok? then Happen(d, Reread(name)) else d) && q.rest == RestReads(p.rest)
  {
    AnswerAfterFirst(p.rest, 0);
  }

  lemma LeftAloneOnward(env: seq<ReadEnv>, n: Component)
    requires LeftAlone(env, n)
    ensures Reread(n) !in FirstRead(env).before && LeftAlone(RestReads(env), n)
  {
    assert FirstRead(env) in env || FirstRead(env) == ANSWERED;
  }

  /** A read answered now is a stamp set now. */
  lemma RereadStamps(d: Device, name: Component, since: int)
    requires since <= d.clock
    ensures StampedSince(Happen(d, Reread(name)), name, since)
  {
  }

  /** One read moves the stamp of what it read, to now. */
  lemma OneStamps(p: Polled, name: Component, collect: bool, n: Component, since: int)
    requires p.raised.None? && since <= p.dev.clock
    ensures var q := PollOne(p, name, collect);
            && p.dev.clock <= q.dev.clock
            && (StampedSince(p.dev, n, since) ==> StampedSince(q.dev, n, since))
            && (n == name && AnswerAt(p.rest, 0).Ok? ==> StampedSince(q.dev, n, since))
  {
    var d := Disturb(p.dev, FirstRead(p.rest).before);
    DisturbStampsSince(p.dev, FirstRead(p.rest).before, n, since);
    OneReads(p, name, collect);
    HappenStamps(d, Reread(name), n, since);
    RereadStamps(d, name, since);
  }

  /** And no other, where nobody else reads. */
  lemma OneKeepsStamp(p: Polled, name: Component, collect: bool, n: Component)
    requires p.raised.None? && LeftAlone(p.rest, n)
    ensures var q := PollOne(p, name, collect);
            && (!(n == name && AnswerAt(p.rest, 0).Ok?) ==> SameStamp(p.dev, q.dev, n))
            && LeftAlone(q.rest, n)
  {
    var d := Disturb(p.dev, FirstRead(p.rest).before);
    LeftAloneOnward(p.rest, n);
    DisturbKeepsStamp(p.dev, FirstRead(p.rest).before, n);
    OneReads(p, name, collect);
    HappenStamps(d, Reread(name), n, d.clock);
  }

  /** What is listed as updated was stamped since the start, whoever else reads. */
  lemma {:induction false} UpdatedAreStamped(p: Polled, names: seq<Component>, collect: bool, n: Component, since: int)
    requires since <= p.dev.clock && (n in p.report.updated ==> StampedSince(p.dev, n, since))
    ensures var q := Poll(p, names, collect); n in q.report.updated ==> StampedSince(q.dev, n, since)
    decreases |names|
  {
    if names != [] && p.raised.None? {
      OneStamps(p, names[0], collect, n, since);
      OneUpdates(p, names[0], collect, n);
      UpdatedAreStamped(PollOne(p, names[0], collect), names[1..], collect, n, since);
    }
  }

  lemma OneUpdates(p: Polled, name: Component, collect: bool, n: Component)
    requires p.raised.None?
    ensures n in PollOne(p, name, collect).report.updated
            <==> n in p.report.updated || (n == name && AnswerAt(p.rest, 0).Ok?)
  {
    AnswerAfterFirst(p.rest, 0);
  }

  /** What is not, and nobody else reads, keeps its stamp. */
  lemma {:induction false} OthersKeepStamp(p: Polled, names: seq<Component>, collect: bool, n: Component)
    requires LeftAlone(p.rest, n)
    ensures var q := Poll(p, names, collect); n !in q.report.updated ==> SameStamp(p.dev, q.dev, n)
    decreases |names|
  {
    if names != [] && p.raised.None? {
      var p1 := PollOne(p, names[0], collect);
      OneKeepsStamp(p, names[0], collect, n);
      OneUpdates(p, names[0], collect, n);
      UpdatedStay(p1, names[1..], collect, n);
      OthersKeepStamp(p1, names[1..], collect, n);
    }
  }

  lemma UpdatedStay(p: Polled, names: seq<Component>, collect: bool, n: Component)
    ensures n in p.report.updated ==> n in Poll(p, names, collect).report.updated
  {
    PollCovers(p, names, collect);
  }

  /**
   A poll, raising or not, stamps what it lists as updated at a time within the poll, whoever
   else reads meanwhile; and it moves no other stamp.
   */
  lemma StampsMoveWithUpdated(d: Device, names: seq<Component>, env: seq<ReadEnv>, collect: bool, n: Component)
    ensures var q := Poll(Polled(d, EmptyReport(d.clock), None, env), names, collect);
            && (n in q.report.updated ==> StampedSince(q.dev, n, d.clock))
            && (n !in q.report.updated && LeftAlone(env, n) ==> SameStamp(d, q.dev, n))
  {
    var p := Polled(d, EmptyReport(d.clock), None, env);
    UpdatedAreStamped(p, names, collect, n, d.clock);
    if LeftAlone(env, n) { OthersKeepStamp(p, names, collect, n); }
  }

  // -- raw words --------------------------------------------------------------------------------

  /** The word of the first answered read that covers an address. */
  function FirstWord(names: seq<Component>, env: seq<ReadEnv>, address: (string, int)): Option<int>
    decreases |names|
  {
    if names == [] then None
    else
      match AnswerAt(env, 0)
      case Ok(raw) => if address in raw then Some(raw[address]) else FirstWord(names[1..], RestReads(env), address)
      case Err(_) => FirstWord(names[1..], RestReads(env), address)
  }

  function WordOf(raw: Option<Raw>, address: (string, int)): Option<int> {
    if raw.Some? && address in raw.value then Some(raw.value[address]) else None
  }

  /** A collecting poll reports for each address the word of the first read that covered it. */
  lemma {:induction false} FirstReadWins(p: Polled, names: seq<Component>, address: (string, int))
    requires Poll(p, names, true).raised.None?
    ensures WordOf(Poll(p, names, true).report.raw, address)
         == (if WordOf(p.report.raw, address).Some? then WordOf(p.report.raw, address)
             else FirstWord(names, p.rest, address))
    decreases |names|
  {
    if names != [] {
      var q := PollOne(p, names[0], true);
      AnswerAfterFirst(p.rest, 0);
      RaisedEnds(q, names[1..], true);
      FirstReadWins(q, names[1..], address);
    }
  }

  // -- what a coordinator is given ---------------------------------------------------------------

  /** How a finished poll looks to the coordinator that scheduled it. */
  function OutcomeOf(p: Polled, names: seq<Component>): Coordinators.PollOutcome {
    var updated := set n | n in p.report.updated;
    if p.raised.None? then Coordinators.Returned(p.report)
    else if p.raised.value.ExceptionCode? then Coordinators.OtherwiseFailed(updated, (set n | n in names) - updated)
    else Coordinators.LinkFailed(updated, (set n | n in names) - updated)
  }

  /** A poll of distinct names never reports one of them both updated and failed. */
  lemma PollOutcomeIsSound(d: Device, names: seq<Component>, env: seq<ReadEnv>, locked: bool)
    requires DistinctNames(names)
    ensures Coordinators.Sound(Coordinators.Scheduled(locked,
            OutcomeOf(Poll(Polled(d, EmptyReport(d.clock), None, env), names, false), names)))
  {
    var p := Polled(d, EmptyReport(d.clock), None, env);
    var q := Poll(p, names, false);
    if q.raised.None? {
      UpdatedIsAnswered(p, names, false);
      forall n | n in q.report.updated ensures n !in q.report.failed {
        AnsweredAt(names, env, n);
        assert n in names;
        ReportPartitionsNames(d, names, env, false, n);
      }
    }
  }
}
