/**
 How old what a call plans on can be, what its freshness check reads, and which running state
 the classifier looks at.
 */
module Freshness {
  import opened Wrappers
  import opened Registers
  import opened Devices
  import opened Polling
  import opened Planner
  import opened Execution
  import opened Honesty
  import PollProperties

  /** The component was read at most `maxAge` seconds ago. */
  predicate ReadWithin(d: Device, n: Component, maxAge: int) {
    n in d.refreshed && d.clock <= d.refreshed[n] + maxAge
  }

  /** The components to re-read are exactly the named ones that were not read recently. */
  lemma {:induction false} StaleIsUnread(d: Device, names: seq<Component>, maxAge: int, n: Component)
    ensures n in Stale(d, names, maxAge) <==> n in names && !ReadWithin(d, n, maxAge)
  {
    if names != [] { StaleIsUnread(d, names[1..], maxAge, n); }
  }

  /** If all of them were read recently, the check reads nothing and succeeds. */
  lemma RecentIsLeftAlone(d: Device, names: seq<Component>, maxAge: int, env: seq<ReadEnv>)
    requires forall n :: n in names ==> ReadWithin(d, n, maxAge)
    ensures EnsureFresh(d, names, maxAge, env) == (d, true)
  {
    var stale := Stale(d, names, maxAge);
    if stale != [] {
      StaleIsUnread(d, names, maxAge, stale[0]);
      assert false;
    }
  }

  /** The stamp is no older than `since`. */
  predicate NotOlder(d: Device, n: Component, since: int) { n in d.refreshed && since <= d.refreshed[n] }

  lemma {:induction false} DisturbNotOlder(d: Device, events: seq<Event>, n: Component, since: int)
    requires since <= d.clock && NotOlder(d, n, since)
    ensures since <= Disturb(d, events).clock && NotOlder(Disturb(d, events), n, since)
    decreases |events|
  {
    if events != [] { DisturbNotOlder(Happen(d, events[0]), events[1..], n, since); }
  }

  lemma {:induction false} PollNotOlder(p: Polled, names: seq<Component>, n: Component, since: int)
    requires since <= p.dev.clock && NotOlder(p.dev, n, since)
    ensures NotOlder(Poll(p, names, false).dev, n, since)
    decreases |names|
  {
    if names != [] && p.raised.None? {
      var e := FirstRead(p.rest);
      DisturbNotOlder(p.dev, e.before, n, since);
      PollNotOlder(PollOne(p, names[0], false), names[1..], n, since);
    }
  }

  lemma RecentKeepsStamp(d: Device, stale: seq<Component>, env: seq<ReadEnv>, n: Component)
    ensures n !in stale && PollProperties.LeftAlone(env, n) ==>
            PollProperties.SameStamp(d, Refresh(d, stale, env).dev, n)
  {
    var p := Polled(d, EmptyReport(d.clock), None, env);
    if n in stale { return; }
    PollListsOnly(p, stale, n);
    PollProperties.StampsMoveWithUpdated(d, stale, env, false, n);
  }

  lemma {:induction false} PollListsOnly(p: Polled, names: seq<Component>, n: Component)
    requires n !in names
    ensures n in Poll(p, names, false).report.updated <==> n in p.report.updated
    decreases |names|
  {
    if names != [] && p.raised.None? {
      PollProperties.OneUpdates(p, names[0], false, n);
      PollListsOnly(PollOne(p, names[0], false), names[1..], n);
    }
  }

  /** What a successful check leaves: no named component is older than the age allowed when it started. */
  lemma CheckedIsRecent(d: Device, names: seq<Component>, maxAge: int, env: seq<ReadEnv>, n: Component)
    requires n in names
    ensures var (d1, ok) := EnsureFresh(d, names, maxAge, env);
            && (ok ==> n in d1.refreshed && d.clock <= d1.refreshed[n] + (if maxAge > 0 then maxAge else 0))
            && (ReadWithin(d, n, maxAge) && PollProperties.LeftAlone(env, n) ==> PollProperties.SameStamp(d, d1, n))
  {
    var stale := Stale(d, names, maxAge);
    StaleIsUnread(d, names, maxAge, n);
    if stale == [] { return; }
    RecentKeepsStamp(d, stale, env, n);
    var p := Polled(d, EmptyReport(d.clock), None, env);
    if n in stale {
      PollCovers(p, stale, false);
      PollProperties.UpdatedAreStamped(p, stale, false, n, d.clock);
    } else {
      var since := if maxAge > 0 then d.clock - maxAge else d.clock;
      PollNotOlder(p, stale, n, since);
    }
  }

  /**
   A guarded call never plans on anything older than its own maximum age, or the configured one
   where it gives none, counted from when it got the lock; it reads nothing that is not older,
   and if nothing is older it reads nothing at all.
   */
  lemma PlansOnRecent(cfg: Config, d: Device, call: ControlCall, maxAge: Option<int>, env: CallEnv, n: Component)
    requires n in Names(call)
    ensures var locked := Disturb(d, env.waiting);
            var age := match maxAge case Some(given) => given case None => cfg.maxAge;
            var (d1, ok) := Prepared(cfg, d, call, maxAge, env);
            && (ok ==> n in d1.refreshed && locked.clock <= d1.refreshed[n] + (if age > 0 then age else 0))
            && (ReadWithin(locked, n, age) && PollProperties.LeftAlone(env.refresh, n) ==>
                  PollProperties.SameStamp(locked, d1, n))
            && ((forall m :: m in Names(call) ==> ReadWithin(locked, m, age)) ==> d1 == locked && ok)
  {
    var locked, age := Disturb(d, env.waiting), if maxAge.Some? then maxAge.value else cfg.maxAge;
    CheckedIsRecent(locked, Names(call), age, env.refresh, n);
    if forall m :: m in Names(call) ==> ReadWithin(locked, m, age) {
      RecentIsLeftAlone(locked, Names(call), age, env.refresh);
    }
  }

  // -- the running state -------------------------------------------------------------------------

  /** The inverter stays in its running state meanwhile. */
  predicate Steady(events: seq<Event>) { forall e :: e in events ==> !e.Drift? }

  predicate SteadyReads(env: seq<ReadEnv>) { forall e :: e in env ==> Steady(e.before) }

  /** The decoded running state, if known to be current, is the inverter's own. */
  predicate ShowsState(d: Device) { d.state == Some(d.running) }

  lemma {:induction false} SteadyShowsState(d: Device, events: seq<Event>)
    requires Steady(events)
    ensures var d1 := Disturb(d, events); d1.running == d.running && (ShowsState(d) ==> ShowsState(d1))
    decreases |events|
  {
    if events != [] {
      assert events[0] in events;
      SteadyShowsState(Happen(d, events[0]), events[1..]);
    }
  }

  lemma ReadsAreSteady(env: seq<ReadEnv>)
    requires SteadyReads(env)
    ensures Steady(FirstRead(env).before) && SteadyReads(RestReads(env))
  {
    assert FirstRead(env) in env || FirstRead(env) == ANSWERED;
  }

  lemma {:induction false} PollShowsState(p: Polled, names: seq<Component>)
    requires SteadyReads(p.rest) && (Flows in p.report.updated ==> ShowsState(p.dev))
    ensures var q := Poll(p, names, false);
            q.dev.running == p.dev.running && (Flows in q.report.updated ==> ShowsState(q.dev))
    decreases |names|
  {
    if names != [] && p.raised.None? {
      ReadsAreSteady(p.rest);
      SteadyShowsState(p.dev, FirstRead(p.rest).before);
      PollShowsState(PollOne(p, names[0], false), names[1..]);
    }
  }

  /** Nobody reads the flows. */
  predicate FlowsUnread(events: seq<Event>) { Reread(Flows) !in events }

  lemma {:induction false} UnreadKeepsState(d: Device, events: seq<Event>)
    requires FlowsUnread(events)
    ensures Disturb(d, events).state == d.state
    decreases |events|
  {
    if events != [] {
      assert events[0] != Reread(Flows);
      assert FlowsUnread(events[1..]) by { assert forall e :: e in events[1..] ==> e in events; }
      UnreadKeepsState(Happen(d, events[0]), events[1..]);
    }
  }

  lemma {:induction false} PollKeepsState(p: Polled, names: seq<Component>)
    requires Flows !in names && forall e :: e in p.rest ==> FlowsUnread(e.before)
    ensures Poll(p, names, false).dev.state == p.dev.state
    decreases |names|
  {
    if names != [] && p.raised.None? {
      assert FirstRead(p.rest) in p.rest || FirstRead(p.rest) == ANSWERED;
      UnreadKeepsState(p.dev, FirstRead(p.rest).before);
      PollKeepsState(PollOne(p, names[0], false), names[1..]);
    }
  }

  /**
   The state the classifier looks at is the one of the last poll that read the flows: such a poll
   of a steady inverter shows its running state, and a poll that reads no flows leaves what was shown.
   */
  lemma PolledState(d: Device, names: seq<Component>, env: seq<ReadEnv>)
    ensures var q := Refresh(d, names, env);
            && (SteadyReads(env) && Flows in q.report.updated ==> q.dev.state == Some(d.running))
            && (Flows !in names && (forall e :: e in env ==> FlowsUnread(e.before)) ==> q.dev.state == d.state)
  {
    var p := Polled(d, EmptyReport(d.clock), None, env);
    if SteadyReads(env) { PollShowsState(p, names); }
    if Flows !in names && forall e :: e in env ==> FlowsUnread(e.before) { PollKeepsState(p, names); }
  }
}
