/** The energy counters: a small dip is a quirk of the firmware, a large one a reset. */
module TotalSensors {
  import opened Wrappers

  /** One coordinator update: whether it published data, whether the counter's components refreshed, and the reading. */
  datatype Reading = Reading(published: bool, refreshed: bool, value: Option<real>)

  /** The reading a counter acts on, if any. */
  function Effective(r: Reading): Option<real> {
    if r.published && !r.refreshed then None else r.value
  }

  predicate Dip(last: real, value: real) { last * 0.99 <= value < last }

  function Process(last: Option<real>, r: Reading): Option<real> {
    match Effective(r)
    case None => last
    case Some(value) => if last.Some? && Dip(last.value, value) then last else Some(value)
  }

  class TotalSensor {
    var value: Option<real>

    /** Starts from the restored value, if there is one. */
    constructor (restored: Option<real>)
      ensures value == restored
    {
      value := restored;
    }

    method ProcessData(r: Reading)
      modifies this
      ensures value == Process(old(value), r)
    {
      if r.published && !r.refreshed { return; }
      if r.value.None? { return; }
      if value.Some? && value.value * 0.99 <= r.value.value && r.value.value < value.value { return; }
      value := r.value;
    }
  }

  /** What is published after all of `readings`. */
  function Published(start: Option<real>, readings: seq<Reading>): Option<real> {
    if readings == [] then start
    else Process(Published(start, readings[..|readings| - 1]), readings[|readings| - 1])
  }

  /** Every published drop, anywhere in a run, is of more than one percent. */
  lemma DropsAreResets(start: Option<real>, readings: seq<Reading>, k: nat)
    requires k < |readings|
    requires Published(start, readings[..k]).Some? && Published(start, readings[..k + 1]).Some?
    ensures var a, b := Published(start, readings[..k]).value, Published(start, readings[..k + 1]).value;
            b < a ==> b < a * 0.99
  {
    assert readings[..k + 1][..k] == readings[..k];
  }

  /** The counter acts on the reading: it has a value, and its components refreshed if anything was published. */
  predicate Counts(r: Reading) { r.value.Some? && (r.published ==> r.refreshed) }

  /** The reading is a dip: below the published value, by at most one percent. */
  predicate Dips(a: Option<real>, v: real) { a.Some? && a.value - a.value * 0.01 <= v && v < a.value }

  /**
   Anywhere in a run the counter moves to its reading if it acts on it and it is no dip, and
   otherwise stays; in particular a drop of more than one percent is published.
   */
  lemma MovesExactly(start: Option<real>, readings: seq<Reading>, k: nat)
    requires k < |readings|
    ensures var a, b, r := Published(start, readings[..k]), Published(start, readings[..k + 1]), readings[k];
            && b == (if Counts(r) && !Dips(a, r.value.value) then r.value else a)
            && (Counts(r) && a.Some? && r.value.value < 0.99 * a.value ==> b == r.value)
  {
    assert readings[..k + 1][..k] == readings[..k];
  }

  /** The largest of the start value and the effective readings. */
  function Largest(start: Option<real>, readings: seq<Reading>): Option<real> {
    if readings == [] then start
    else
      var m, e := Largest(start, readings[..|readings| - 1]), Effective(readings[|readings| - 1]);
      if e.None? then m else if m.None? || m.value < e.value then e else m
  }

  /** `Largest` is the maximum: it bounds every effective reading and is the start or one of them. */
  lemma {:induction false} LargestIsMaximum(start: Option<real>, readings: seq<Reading>, k: nat)
    requires k < |readings| && Effective(readings[k]).Some?
    ensures Largest(start, readings).Some? && Effective(readings[k]).value <= Largest(start, readings).value
    ensures Largest(start, readings) == start
            || exists j :: 0 <= j < |readings| && Effective(readings[j]) == Largest(start, readings)
  {
    var init, last := readings[..|readings| - 1], |readings| - 1;
    if k < last { LargestIsMaximum(start, init, k); }
    LargestIsOneOf(start, readings);
  }

  lemma {:induction false} LargestIsOneOf(start: Option<real>, readings: seq<Reading>)
    ensures Largest(start, readings) == start
            || exists j :: 0 <= j < |readings| && Effective(readings[j]) == Largest(start, readings)
  {
    if readings != [] {
      var init, last := readings[..|readings| - 1], |readings| - 1;
      LargestIsOneOf(start, init);
      if Largest(start, readings) != Largest(start, init) {
        assert Effective(readings[last]) == Largest(start, readings);
      } else if Largest(start, init) != start {
        var j :| 0 <= j < |init| && Effective(init[j]) == Largest(start, init);
        assert Effective(readings[j]) == Largest(start, readings);
      }
    }
  }

  /** Each effective reading is at least 99 % of the largest so far. */
  ghost predicate NearLargest(start: Option<real>, readings: seq<Reading>) {
    forall k :: 0 <= k < |readings| && Effective(readings[k]).Some? && Largest(start, readings[..k]).Some? ==>
      Largest(start, readings[..k]).value * 0.99 <= Effective(readings[k]).value
  }

  /** For such readings, unrefreshed and missing ones included, the published value is the running maximum. */
  lemma {:induction false} PublishesRunningMaximum(start: Option<real>, readings: seq<Reading>)
    requires NearLargest(start, readings)
    ensures Published(start, readings) == Largest(start, readings)
  {
    if readings != [] {
      var init := readings[..|readings| - 1];
      assert NearLargest(start, init) by {
        forall k | 0 <= k < |init| && Effective(init[k]).Some? && Largest(start, init[..k]).Some?
          ensures Largest(start, init[..k]).value * 0.99 <= Effective(init[k]).value
        {
          assert init[..k] == readings[..k] && init[k] == readings[k];
        }
      }
      PublishesRunningMaximum(start, init);
      assert readings[..|readings| - 1] == init;
    }
  }

  lemma {:induction false} PublishedAppend(start: Option<real>, a: seq<Reading>, b: seq<Reading>)
    ensures Published(start, a + b) == Published(Published(start, a), b)
  {
    if b == [] {
      assert a + b == a;
    } else {
      assert (a + b)[..|a + b| - 1] == a + b[..|b| - 1];
      PublishedAppend(start, a, b[..|b| - 1]);
    }
  }

  /**
   A reset starts over: after a reading more than one percent below what was published, whatever
   came before, the published value is the running maximum of what follows it.
   */
  lemma ResetStartsOver(start: Option<real>, before: seq<Reading>, reset: Reading, after: seq<Reading>)
    requires Counts(reset) && Published(start, before).Some?
    requires reset.value.value < 0.99 * Published(start, before).value
    requires NearLargest(reset.value, after)
    ensures Published(start, before + [reset] + after) == Largest(reset.value, after)
  {
    var readings := before + [reset];
    assert readings[..|before|] == before && readings[..|before| + 1] == readings;
    MovesExactly(start, readings, |before|);
    PublishedAppend(start, readings, after);
    PublishesRunningMaximum(reset.value, after);
  }
}
