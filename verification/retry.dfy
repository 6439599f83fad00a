/** Retrying a request through a link that throws transient failures. */
module Retry {
  import opened Wrappers
  import opened Registers
  import opened Devices

  datatype RetryPolicy = RetryPolicy(attempts: int, baseDelay: real, retryCodes: set<int>, retryTimeouts: bool)

  function Pow2(n: nat): real { if n == 0 then 1.0 else 2.0 * Pow2(n - 1) }

  /** Seconds to wait after the `attempt`-th failed try. */
  function Delay(policy: RetryPolicy, attempt: nat): real
    requires attempt >= 1
  {
    policy.baseDelay * Pow2(attempt - 1)
  }

  predicate ShouldRetry(policy: RetryPolicy, e: ModbusError) {
    match e
    case ExceptionCode(code) => code in policy.retryCodes
    case TimedOut => policy.retryTimeouts
    case ConnectionLost => false
  }

  /** How the i-th try of a request ends, counting from 1. */
  type Tries<!T> = nat -> Result<T, ModbusError>

  /** The try fails with one of the policy's exception codes, or times out where the policy retries that. */
  predicate Transient<T>(policy: RetryPolicy, tries: Tries<T>, i: nat) {
    match tries(i)
    case Err(ExceptionCode(code)) => code in policy.retryCodes
    case Err(TimedOut) => policy.retryTimeouts
    case _ => false
  }

  /** The first try that is not followed by another one: it succeeds, is refused, or is the last allowed. */
  ghost predicate EndsAt<T>(policy: RetryPolicy, tries: Tries<T>, n: nat) {
    && 1 <= n <= policy.attempts
    && (forall i :: 1 <= i < n ==> Transient(policy, tries, i))
    && (n == policy.attempts || !Transient(policy, tries, n))
  }

  lemma EndsOnce<T>(policy: RetryPolicy, tries: Tries<T>, m: nat, n: nat)
    requires EndsAt(policy, tries, m) && EndsAt(policy, tries, n)
    ensures m == n
  {
    assert m < n ==> Transient(policy, tries, m);
    assert n < m ==> Transient(policy, tries, n);
  }

  /** The waits after the first `k` failed tries, added up. */
  function TotalDelay(policy: RetryPolicy, k: nat): real {
    if k == 0 then 0.0 else TotalDelay(policy, k - 1) + Delay(policy, k)
  }

  /** The doubling delays add up to base * (2^k - 1). */
  lemma {:induction false} DelaysAddUp(policy: RetryPolicy, k: nat)
    ensures TotalDelay(policy, k) == policy.baseDelay * (Pow2(k) - 1.0)
  {
    if k > 0 {
      DelaysAddUp(policy, k - 1);
      var b, p := policy.baseDelay, Pow2(k - 1);
      assert Pow2(k) == 2.0 * p;
      assert b * (2.0 * p - 1.0) == b * (p - 1.0) + b * p;
    }
  }

  class RetryingUnit {
    const policy: RetryPolicy
    var retries: nat
    var slept: real

    constructor (policy: RetryPolicy)
      ensures this.policy == policy && retries == 0 && slept == 0.0
    {
      this.policy := policy;
      retries := 0;
      slept := 0.0;
    }

    /**
     One request, tried until it succeeds, fails for good, or the attempts are used up. With
     no attempts allowed at all the loop never runs and nothing is returned.
     */
    method Call<T>(tries: Tries<T>) returns (result: Option<Result<T, ModbusError>>, made: nat)
      modifies this
      ensures policy.attempts < 1 ==> result.None? && made == 0 && retries == old(retries) && slept == old(slept)
      ensures policy.attempts >= 1 ==>
                && EndsAt(policy, tries, made) && result == Some(tries(made))
                && retries == old(retries) + made - 1
                && slept == old(slept) + TotalDelay(policy, made - 1)
    {
      var attempt := 1;
      while attempt <= policy.attempts
        invariant if policy.attempts < 1 then attempt == 1 else 1 <= attempt <= policy.attempts
        invariant forall i :: 1 <= i < attempt ==> Transient(policy, tries, i)
        invariant retries == old(retries) + attempt - 1
        invariant slept == old(slept) + TotalDelay(policy, attempt - 1)
        decreases policy.attempts - attempt
      {
        var answer := tries(attempt);
        if answer.Ok? { return Some(answer), attempt; }
        if attempt == policy.attempts || !ShouldRetry(policy, answer.error) { return Some(answer), attempt; }
        retries := retries + 1;
        slept := slept + Delay(policy, attempt);
        attempt := attempt + 1;
      }
      return None, 0;
    }

    /**
     A register write through the wrapper is one exchange of the link that the write layer
     assumes: same answer, same registers, same caches and stamps, whatever others re-read
     between the tries. It is acknowledged only if it landed, given that a try that succeeds
     lands; a mirroring inverter has to round a repeated value the same way.
     */
    method WriteRegister(ghost mirrors: Option<int>, ghost d: Device, ghost r: Register, ghost v: Value, ghost w: Word,
                         ghost up: bool, tries: nat -> WriteTry)
      returns (result: Option<Result<(), ModbusError>>, made: nat, ghost x: Exchange)
      modifies this
      ensures policy.attempts >= 1 ==>
                && made >= 1 && EndsAt(policy, AnswersOf(tries), made) && result == Some(tries(made).answer)
                && x == AsExchange(tries, made, up)
                && (result.value.Ok? <==> x.reply == Acked)
                && (tries(made).landed ==> x.landed)
                && (Rounds(mirrors, tries, made, up) ==>
                      Transmit(mirrors, d, r, v, w, x)
                      == Tried(mirrors, d, r, w, tries, made).(sent :=
                          d.sent + [Request(r, v, d.wire, x.reply == Acked)]))
    {
      result, made := Call(AnswersOf(tries));
      x := AsExchange(tries, made, up);
      if policy.attempts >= 1 && Rounds(mirrors, tries, made, up) {
        RetriedWriteIsOneExchange(mirrors, d, r, v, w, tries, made, up);
      }
    }
  }

  // -- a register write through the wrapper ---------------------------------------------

  /**
   One try of a register write: what other tasks do before it reaches the inverter and until
   the next try, its answer, whether the value landed, and how it was mirrored.
   */
  datatype WriteTry = WriteTry(before: seq<Event>, answer: Result<(), ModbusError>, landed: bool, up: bool,
      after: seq<Event>)

  function AnswersOf(tries: nat -> WriteTry): Tries<()> { (i: nat) => tries(i).answer }

  /** The moment a try reaches the inverter. */
  function Reach(mirrors: Option<int>, d: Device, r: Register, w: Word, t: WriteTry): Device {
    if t.landed then d.(wire := Land(mirrors, d.wire, r, w, t.up)) else d
  }

  /** One try, with what other tasks do around it. */
  function Try(mirrors: Option<int>, d: Device, r: Register, w: Word, t: WriteTry): Device {
    Disturb(Reach(mirrors, Disturb(d, t.before), r, w, t), t.after)
  }

  /** The result of `step` for 1, 2, .. up to `n`, one after the other. */
  function Iterate<D>(step: (D, nat) -> D, start: D, n: nat): D {
    if n == 0 then start else step(Iterate(step, start, n - 1), n)
  }

  /** Whatever starts there and follows the steps is the iteration. */
  lemma {:induction false} IterateFollows<D>(step: (D, nat) -> D, start: D, n: nat, through: nat -> D)
    requires through(0) == start
    requires forall k: nat :: 1 <= k <= n ==> step(through(k - 1), k) == through(k)
    ensures Iterate(step, start, n) == through(n)
  {
    if n > 0 { IterateFollows(step, start, n - 1, through); }
  }

  function Trying(mirrors: Option<int>, r: Register, w: Word, tries: nat -> WriteTry): (Device, nat) -> Device {
    (now: Device, k: nat) => Try(mirrors, now, r, w, tries(k))
  }

  /** The device after the first `n` tries of the same request. */
  function Tried(mirrors: Option<int>, d: Device, r: Register, w: Word, tries: nat -> WriteTry, n: nat): Device {
    Iterate(Trying(mirrors, r, w, tries), d, n)
  }

  lemma OneMoreTry(mirrors: Option<int>, d: Device, r: Register, w: Word, tries: nat -> WriteTry, n: nat)
    requires n > 0
    ensures Tried(mirrors, d, r, w, tries, n) == Try(mirrors, Tried(mirrors, d, r, w, tries, n - 1), r, w, tries(n))
  {
  }

  lemma NothingTried(mirrors: Option<int>, d: Device, r: Register, w: Word, tries: nat -> WriteTry)
    ensures Tried(mirrors, d, r, w, tries, 0) == d
  {
  }

  lemma LandTwice(mirrors: Option<int>, wire: Wire, r: Register, w: Word, up: bool, again: bool)
    ensures Land(mirrors, Land(mirrors, wire, r, w, up), r, w, again) == Land(mirrors, wire, r, w, again)
  {
  }

  /** The last of the first `n` tries that landed, or 0. */
  function LastLanded(tries: nat -> WriteTry, n: nat): (k: nat)
    ensures k <= n
    ensures k > 0 ==> tries(k).landed
    ensures forall i :: k < i <= n ==> !tries(i).landed
  {
    if n == 0 then 0 else if tries(n).landed then n else LastLanded(tries, n - 1)
  }

  lemma TriedWire(mirrors: Option<int>, d: Device, r: Register, w: Word, tries: nat -> WriteTry, n: nat)
    requires n > 0
    ensures var before := Tried(mirrors, d, r, w, tries, n - 1).wire;
            Tried(mirrors, d, r, w, tries, n).wire ==
                if tries(n).landed then Land(mirrors, before, r, w, tries(n).up) else before
  {
    var t, d0 := tries(n), Tried(mirrors, d, r, w, tries, n - 1);
    OneMoreTry(mirrors, d, r, w, tries, n);
    DisturbUndisturbed(d0, t.before);
    DisturbUndisturbed(Reach(mirrors, Disturb(d0, t.before), r, w, t), t.after);
  }

  /**
   However often a write is re-issued, the registers end as if it had landed once, by the last
   try that did, or never.
   */
  lemma {:induction false} RetriedWriteIsIdempotent(mirrors: Option<int>, d: Device, r: Register, w: Word,
      tries: nat -> WriteTry, n: nat)
    ensures Tried(mirrors, d, r, w, tries, n).wire == LandedOnce(mirrors, d.wire, r, w, tries, n)
  {
    if n == 0 {
      NothingTried(mirrors, d, r, w, tries);
    } else {
      RetriedWriteIsIdempotent(mirrors, d, r, w, tries, n - 1);
      TriedWire(mirrors, d, r, w, tries, n);
      OneMoreLanding(mirrors, d.wire, r, w, tries, n);
    }
  }

  /** The registers as if the value had landed once, by the last of the first `n` tries that did. */
  function LandedOnce(mirrors: Option<int>, wire: Wire, r: Register, w: Word, tries: nat -> WriteTry, n: nat): Wire {
    if LastLanded(tries, n) == 0 then wire else Land(mirrors, wire, r, w, tries(LastLanded(tries, n)).up)
  }

  lemma OneMoreLanding(mirrors: Option<int>, wire: Wire, r: Register, w: Word, tries: nat -> WriteTry, n: nat)
    requires n > 0
    ensures var before := LandedOnce(mirrors, wire, r, w, tries, n - 1);
            LandedOnce(mirrors, wire, r, w, tries, n)
            == if tries(n).landed then Land(mirrors, before, r, w, tries(n).up) else before
  {
    if tries(n).landed && LastLanded(tries, n - 1) > 0 {
      LandTwice(mirrors, wire, r, w, tries(LastLanded(tries, n - 1)).up, tries(n).up);
    }
  }

  /** Success leaves the new value, any failure the old or the new one. */
  lemma RetriedWriteLeaves(mirrors: Option<int>, d: Device, r: Register, w: Word, tries: nat -> WriteTry, n: nat)
    requires n >= 1 && (tries(n).answer.Ok? ==> tries(n).landed)
    ensures var after := Tried(mirrors, d, r, w, tries, n).wire[r];
            && (after == d.wire[r] || after == w)
            && (tries(n).answer.Ok? ==> after == w)
  {
    RetriedWriteIsIdempotent(mirrors, d, r, w, tries, n);
    if LastLanded(tries, n) > 0 { LandWrites(mirrors, d.wire, r, w, tries(LastLanded(tries, n)).up); }
  }

  // -- the tries as one exchange ---------------------------------------------------------

  /** A mirroring inverter rounds the same value the same way each time it lands. */
  ghost predicate Rounds(mirrors: Option<int>, tries: nat -> WriteTry, n: nat, up: bool) {
    mirrors.Some? ==> forall i :: 1 <= i <= n && tries(i).landed ==> tries(i).up == up
  }

  predicate HasLanded(tries: nat -> WriteTry, n: nat) { n > 0 && (tries(n).landed || HasLanded(tries, n - 1)) }

  /** What happens until the value first lands, or at all. */
  function UntilLanded(tries: nat -> WriteTry, n: nat): seq<Event> {
    if n == 0 then []
    else if HasLanded(tries, n - 1) then UntilLanded(tries, n - 1)
    else UntilLanded(tries, n - 1) + tries(n).before + (if tries(n).landed then [] else tries(n).after)
  }

  /** What happens from then on. */
  function SinceLanded(tries: nat -> WriteTry, n: nat): seq<Event> {
    if n == 0 then []
    else if HasLanded(tries, n - 1) then SinceLanded(tries, n - 1) + tries(n).before + tries(n).after
    else if tries(n).landed then tries(n).after else []
  }

  /** What the write layer sees of a retried write that ended at try `n`: one exchange. */
  function AsExchange(tries: nat -> WriteTry, n: nat, up: bool): Exchange {
    Exchange(UntilLanded(tries, n),
        if tries(n).answer.Ok? then Acked else Failed(tries(n).answer.error), HasLanded(tries, n), up,
             SinceLanded(tries, n))
  }

  lemma {:induction false} DisturbAppend(d: Device, a: seq<Event>, b: seq<Event>)
    ensures Disturb(d, a + b) == Disturb(Disturb(d, a), b)
    decreases |a|
  {
    if a == [] {
      assert a + b == b;
    } else {
      assert (a + b)[1..] == a[1..] + b;
      DisturbAppend(Happen(d, a[0]), a[1..], b);
    }
  }

  /** Other tasks do not look at what was sent. */
  lemma {:induction false} DisturbIgnoresSent(d: Device, events: seq<Event>, sent: seq<Request>)
    ensures Disturb(d.(sent := sent), events) == Disturb(d, events).(sent := sent)
    decreases |events|
  {
    if events != [] { DisturbIgnoresSent(Happen(d, events[0]), events[1..], sent); }
  }

  lemma SameWire(d: Device, events: seq<Event>)
    ensures Disturb(d, events).wire == d.wire
  {
    DisturbUndisturbed(d, events);
  }

  /** The device as the value lands. */
  function Landing(mirrors: Option<int>, d: Device, r: Register, w: Word, up: bool): Device {
    d.(wire := Land(mirrors, d.wire, r, w, up))
  }

  /** Other tasks' events around one landing, or without one. */
  function Around(mirrors: Option<int>, d: Device, r: Register, w: Word, up: bool, landed: bool, before: seq<Event>,
      after: seq<Event>): Device {
    if landed then Disturb(Landing(mirrors, Disturb(d, before), r, w, up), after) else Disturb(d, before)
  }

  /** Landing once more, rounded the same way, changes nothing. */
  lemma ReachAfterLanding(mirrors: Option<int>, wire: Wire, d: Device, r: Register, w: Word, up: bool, t: WriteTry)
    requires d.wire == Land(mirrors, wire, r, w, up) && (t.landed && mirrors.Some? ==> t.up == up)
    ensures Reach(mirrors, d, r, w, t) == d
  {
    if t.landed { LandTwice(mirrors, wire, r, w, up, t.up); }
  }

  /** A try after the landing is two more waits. */
  lemma TryAfterLanding(mirrors: Option<int>, d: Device, r: Register, w: Word, up: bool, before: seq<Event>,
      after: seq<Event>, t: WriteTry)
    requires t.landed && mirrors.Some? ==> t.up == up
    ensures Try(mirrors, Around(mirrors, d, r, w, up, true, before, after), r, w, t)
         == Around(mirrors, d, r, w, up, true, before, after + t.before + t.after)
  {
    var landing := Landing(mirrors, Disturb(d, before), r, w, up);
    SameWire(landing, after + t.before);
    DisturbAppend(landing, after, t.before);
    ReachAfterLanding(mirrors, Disturb(d, before).wire, Disturb(landing, after + t.before), r, w, up, t);
    DisturbAppend(landing, after + t.before, t.after);
  }

  lemma ReachIsLanding(mirrors: Option<int>, d: Device, r: Register, w: Word, up: bool, t: WriteTry)
    requires t.landed && (mirrors.Some? ==> t.up == up)
    ensures Reach(mirrors, d, r, w, t) == Landing(mirrors, d, r, w, up)
  {
    assert Land(mirrors, d.wire, r, w, t.up) == Land(mirrors, d.wire, r, w, up);
  }

  /** A try that does not land, before any did, is two waits. */
  lemma TryWithoutLanding(mirrors: Option<int>, d: Device, r: Register, w: Word, until: seq<Event>, t: WriteTry)
    requires !t.landed
    ensures Try(mirrors, Disturb(d, until), r, w, t) == Disturb(d, until + t.before + t.after)
  {
    DisturbAppend(d, until, t.before);
    DisturbAppend(d, until + t.before, t.after);
  }

  /** The first try that lands does so between two waits. */
  lemma TryThatLands(mirrors: Option<int>, d: Device, r: Register, w: Word, up: bool, until: seq<Event>, t: WriteTry)
    requires t.landed && (mirrors.Some? ==> t.up == up)
    ensures Try(mirrors, Disturb(d, until), r, w, t) == Around(mirrors, d, r, w, up, true, until + t.before, t.after)
  {
    DisturbAppend(d, until, t.before);
    ReachIsLanding(mirrors, Disturb(d, until + t.before), r, w, up, t);
  }

  /** The first `n` tries, merged. */
  function Merged(mirrors: Option<int>, d: Device, r: Register, w: Word, tries: nat -> WriteTry, n: nat,
      up: bool): Device {
    Around(mirrors, d, r, w, up, HasLanded(tries, n), UntilLanded(tries, n), SinceLanded(tries, n))
  }

  lemma MergedAfter(mirrors: Option<int>, d: Device, r: Register, w: Word, tries: nat -> WriteTry, n: nat, up: bool)
    requires n > 0 && HasLanded(tries, n - 1) && (tries(n).landed && mirrors.Some? ==> tries(n).up == up)
    ensures Try(mirrors, Merged(mirrors, d, r, w, tries, n - 1, up), r, w, tries(n))
            == Merged(mirrors, d, r, w, tries, n, up)
  {
    TryAfterLanding(mirrors, d, r, w, up, UntilLanded(tries, n - 1), SinceLanded(tries, n - 1), tries(n));
  }

  lemma MergedLanding(mirrors: Option<int>, d: Device, r: Register, w: Word, tries: nat -> WriteTry, n: nat, up: bool)
    requires n > 0 && !HasLanded(tries, n - 1) && tries(n).landed && (mirrors.Some? ==> tries(n).up == up)
    ensures Try(mirrors, Merged(mirrors, d, r, w, tries, n - 1, up), r, w, tries(n))
            == Merged(mirrors, d, r, w, tries, n, up)
  {
    var until := UntilLanded(tries, n - 1);
    assert UntilLanded(tries, n) == until + tries(n).before;
    TryThatLands(mirrors, d, r, w, up, until, tries(n));
  }

  lemma MergedWaiting(mirrors: Option<int>, d: Device, r: Register, w: Word, tries: nat -> WriteTry, n: nat, up: bool)
    requires n > 0 && !HasLanded(tries, n)
    ensures Try(mirrors, Merged(mirrors, d, r, w, tries, n - 1, up), r, w, tries(n))
            == Merged(mirrors, d, r, w, tries, n, up)
  {
    TryWithoutLanding(mirrors, d, r, w, UntilLanded(tries, n - 1), tries(n));
  }

  /** One more try, merged into what it follows. */
  lemma MergedStep(mirrors: Option<int>, d: Device, r: Register, w: Word, tries: nat -> WriteTry, n: nat, up: bool)
    requires n > 0 && Rounds(mirrors, tries, n, up)
    ensures Try(mirrors, Merged(mirrors, d, r, w, tries, n - 1, up), r, w, tries(n))
            == Merged(mirrors, d, r, w, tries, n, up)
  {
    if HasLanded(tries, n - 1) {
      MergedAfter(mirrors, d, r, w, tries, n, up);
    } else if tries(n).landed {
      MergedLanding(mirrors, d, r, w, tries, n, up);
    } else {
      MergedWaiting(mirrors, d, r, w, tries, n, up);
    }
  }

  function Merging(mirrors: Option<int>, d: Device, r: Register, w: Word, tries: nat -> WriteTry, up: bool)
      : nat -> Device {
    (k: nat) => Merged(mirrors, d, r, w, tries, k, up)
  }

  /** The first `n` tries are other tasks' events around at most one landing. */
  lemma TriesAreOne(mirrors: Option<int>, d: Device, r: Register, w: Word, tries: nat -> WriteTry, n: nat, up: bool)
    requires Rounds(mirrors, tries, n, up)
    ensures Tried(mirrors, d, r, w, tries, n) == Merged(mirrors, d, r, w, tries, n, up)
  {
    var step, through := Trying(mirrors, r, w, tries), Merging(mirrors, d, r, w, tries, up);
    NoTries(mirrors, d, r, w, tries, up);
    forall k: nat | 1 <= k <= n ensures step(through(k - 1), k) == through(k) {
      MergedStep(mirrors, d, r, w, tries, k, up);
    }
    IterateFollows(step, d, n, through);
  }

  lemma NoTries(mirrors: Option<int>, d: Device, r: Register, w: Word, tries: nat -> WriteTry, up: bool)
    ensures Merged(mirrors, d, r, w, tries, 0, up) == d
  {
  }

  lemma {:induction false} NothingSince(tries: nat -> WriteTry, n: nat)
    ensures !HasLanded(tries, n) ==> SinceLanded(tries, n) == []
  {
    if n > 0 { NothingSince(tries, n - 1); }
  }

  /** A retried write that ended at try `n` is one exchange of the link the write layer assumes. */
  lemma RetriedWriteIsOneExchange(mirrors: Option<int>, d: Device, r: Register, v: Value, w: Word,
      tries: nat -> WriteTry, n: nat, up: bool)
    requires Rounds(mirrors, tries, n, up)
    ensures var x := AsExchange(tries, n, up);
            Transmit(mirrors, d, r, v, w, x)
            == Tried(mirrors, d, r, w, tries, n).(sent := d.sent + [Request(r, v, d.wire, x.reply == Acked)])
  {
    var x := AsExchange(tries, n, up);
    var d1 := Disturb(d, x.before);
    TriesAreOne(mirrors, d, r, w, tries, n, up);
    NothingSince(tries, n);
    DisturbUndisturbed(d, x.before);
    var d2 := if x.landed then Landing(mirrors, d1, r, w, up) else d1;
    DisturbIgnoresSent(d2, x.after, d.sent + [Request(r, v, d.wire, x.reply == Acked)]);
  }
}
