/** The alert throttle: at most one mail per event type and throttle period. */
module Alerts {
  import opened Wrappers

  /** `AlertsConfig`, as far as `notify` looks at it before sending. */
  datatype AlertsConfig = AlertsConfig(enabled: bool, recipients: nat, throttle: real)

  predicate Active(c: AlertsConfig) {
    c.enabled && c.recipients > 0
  }

  /** `last_sent` of the event, 0.0 when it has never been sent. */
  function LastSent(throttle: map<string, real>, event: string): real {
    if event in throttle then throttle[event] else 0.0
  }

  /** `state.last_sent and (now - state.last_sent) < throttle`. */
  predicate Throttled(c: AlertsConfig, throttle: map<string, real>, event: string, now: real) {
    LastSent(throttle, event) != 0.0 && now - LastSent(throttle, event) < c.throttle
  }

  /** What one call does to the table of send times. */
  function After(c: AlertsConfig, throttle: map<string, real>, event: string, now: real): map<string, real> {
    if !Active(c) then throttle
    else throttle[event := if Throttled(c, throttle, event, now) then LastSent(throttle, event) else now]
  }

  class Alerter {
    const config: AlertsConfig
    var throttle: map<string, real>

    constructor (config: AlertsConfig)
      ensures this.config == config && throttle == map[]
    {
      this.config, this.throttle := config, map[];
    }

    /** True when the call gets as far as sending. */
    method Notify(event: string, now: real) returns (passed: bool)
      modifies this`throttle
      ensures throttle == After(config, old(throttle), event, now)
      ensures passed <==> Active(config) && !Throttled(config, old(throttle), event, now)
      ensures !config.enabled || config.recipients == 0 ==> !passed && throttle == old(throttle)
      ensures config.enabled && config.recipients > 0 && event !in old(throttle) ==> passed
    {
      if !config.enabled {
        return false;
      }
      if config.recipients == 0 {
        return false;
      }
      if event !in throttle {
        throttle := throttle[event := 0.0];
      }
      var last := throttle[event];
      if last != 0.0 && now - last < config.throttle {
        assert old(throttle)[event := last] == throttle;
        return false;
      }
      throttle := throttle[event := now];
      return true;
    }
  }

  // ---------------------------------------------------------------- whole runs

  datatype Call = Call(event: string, now: real)

  /** The table after the first `n` calls. */
  function TableAt(c: AlertsConfig, calls: seq<Call>, n: nat): map<string, real>
    requires n <= |calls|
  {
    if n == 0 then map[] else After(c, TableAt(c, calls, n - 1), calls[n - 1].event, calls[n - 1].now)
  }

  /** Call `i` gets through. */
  predicate Passes(c: AlertsConfig, calls: seq<Call>, i: int) {
    0 <= i < |calls| && Active(c) && !Throttled(c, TableAt(c, calls, i), calls[i].event, calls[i].now)
  }

  /** A clock that is positive and never runs back. */
  predicate Clocked(calls: seq<Call>) {
    && (forall i | 0 <= i < |calls| :: calls[i].now > 0.0)
    && (forall i, j | 0 <= i <= j < |calls| :: calls[i].now <= calls[j].now)
  }

  /** Call `i` was the last of its event to pass before call `n`. */
  predicate LastPass(c: AlertsConfig, calls: seq<Call>, n: nat, event: string, i: int) {
    && 0 <= i < n <= |calls| && Passes(c, calls, i) && calls[i].event == event
    && forall j | i < j < n && calls[j].event == event :: !Passes(c, calls, j)
  }

  /** The table remembers, for each event, when it last passed, and nothing else. */
  lemma {:induction false} Remembers(c: AlertsConfig, calls: seq<Call>, n: nat, event: string)
    requires Clocked(calls) && n <= |calls|
    ensures LastSent(TableAt(c, calls, n), event) == 0.0 ==>
              forall j | 0 <= j < n && calls[j].event == event :: !Passes(c, calls, j)
    ensures LastSent(TableAt(c, calls, n), event) != 0.0 ==>
              exists i :: LastPass(c, calls, n, event, i) && LastSent(TableAt(c, calls, n), event) == calls[i].now
  {
    if n > 0 {
      Remembers(c, calls, n - 1, event);
      if Passes(c, calls, n - 1) && calls[n - 1].event == event {
        assert LastPass(c, calls, n, event, n - 1);
      } else if LastSent(TableAt(c, calls, n - 1), event) != 0.0 {
        var i :| LastPass(c, calls, n - 1, event, i) && LastSent(TableAt(c, calls, n - 1), event) == calls[i].now;
        assert LastPass(c, calls, n, event, i);
      }
    }
  }

  /** Every suppressed call follows a passed call of the same event by less than the
      throttle; this is the only reason an active alerter suppresses one. */
  lemma SuppressedOnlyAfterPass(c: AlertsConfig, calls: seq<Call>, n: nat)
    requires Clocked(calls) && Active(c) && n < |calls|
    ensures !Passes(c, calls, n) <==>
            exists i :: LastPass(c, calls, n, calls[n].event, i) && calls[n].now - calls[i].now < c.throttle
  {
    var event := calls[n].event;
    Remembers(c, calls, n, event);
    if exists i :: LastPass(c, calls, n, event, i) && calls[n].now - calls[i].now < c.throttle {
      var i :| LastPass(c, calls, n, event, i) && calls[n].now - calls[i].now < c.throttle;
      var k :| LastPass(c, calls, n, event, k) && LastSent(TableAt(c, calls, n), event) == calls[k].now;
      assert i == k;
    }
  }

  /** Two passes of one event are at least the throttle apart. */
  lemma PassesApart(c: AlertsConfig, calls: seq<Call>, i: nat, j: nat)
    requires Clocked(calls) && i < j && Passes(c, calls, i) && Passes(c, calls, j) && calls[i].event == calls[j].event
    ensures calls[j].now - calls[i].now >= c.throttle
  {
    var event := calls[j].event;
    Remembers(c, calls, j, event);
    var k :| LastPass(c, calls, j, event, k) && LastSent(TableAt(c, calls, j), event) == calls[k].now;
    assert calls[i].now <= calls[k].now;
  }

  /** The passes of `event` among calls `lo` up to `hi`. */
  function PassCount(c: AlertsConfig, calls: seq<Call>, event: string, lo: nat, hi: nat): nat
    requires hi <= |calls|
  {
    if hi <= lo then 0
    else PassCount(c, calls, event, lo, hi - 1)
         + if Passes(c, calls, hi - 1) && calls[hi - 1].event == event then 1 else 0
  }

  /** Passes counted up to the last one span at least the throttle for each but the first. */
  lemma {:induction false} PassesSpan(c: AlertsConfig, calls: seq<Call>, event: string, lo: nat, hi: nat)
    returns (first: nat, last: nat)
    requires Clocked(calls) && hi <= |calls| && PassCount(c, calls, event, lo, hi) >= 1
    ensures lo <= first <= last < hi && calls[last].event == event && Passes(c, calls, last)
    ensures Times(PassCount(c, calls, event, lo, hi) - 1, c.throttle) <= calls[last].now - calls[first].now
    decreases hi
  {
    hide Passes, Clocked, Times;
    var n := PassCount(c, calls, event, lo, hi);
    if !(Passes(c, calls, hi - 1) && calls[hi - 1].event == event) {
      first, last := PassesSpan(c, calls, event, lo, hi - 1);
    } else if n == 1 {
      first, last := hi - 1, hi - 1;
      NoPeriod(c.throttle);
    } else {
      var k: nat;
      first, k := PassesSpan(c, calls, event, lo, hi - 1);
      last := hi - 1;
      PassesApart(c, calls, k, last);
      OneMorePeriod(n - 2, c.throttle);
    }
  }

  /** The rate bound: in any window of consecutive calls that spans at most `length` seconds,
      an event passes at most `floor(length / throttle) + 1` times, whatever other events are
      mixed in. */
  lemma RateBound(c: AlertsConfig, calls: seq<Call>, event: string, lo: nat, hi: nat, length: real)
    requires Clocked(calls) && c.throttle > 0.0 && lo < hi <= |calls|
    requires calls[hi - 1].now - calls[lo].now <= length
    ensures PassCount(c, calls, event, lo, hi) <= (length / c.throttle).Floor + 1
  {
    hide Passes, Clocked;
    var n := PassCount(c, calls, event, lo, hi);
    WindowSpan(calls, lo, lo, lo, hi);
    var periods, span := 0, 0.0;
    if n >= 1 {
      var first, last := PassesSpan(c, calls, event, lo, hi);
      WindowSpan(calls, lo, first, last, hi);
      periods, span := n - 1, calls[last].now - calls[first].now;
    }
    hide PassCount;
    FloorBound(periods, c.throttle, span, length);
  }

  lemma WindowSpan(calls: seq<Call>, lo: nat, first: nat, last: nat, hi: nat)
    requires Clocked(calls) && lo <= first <= last < hi <= |calls|
    ensures calls[last].now - calls[first].now <= calls[hi - 1].now - calls[lo].now
    ensures 0.0 <= calls[hi - 1].now - calls[lo].now
  {
  }

  /** `n` throttle periods. */
  function Times(n: int, t: real): real {
    n as real * t
  }

  lemma NoPeriod(t: real)
    ensures Times(0, t) == 0.0
  {
  }

  lemma OneMorePeriod(n: nat, t: real)
    ensures Times(n + 1, t) == Times(n, t) + t
  {
  }

  lemma SmallerFactor(a: real, b: real, t: real)
    requires t > 0.0
    ensures a > b ==> a * t > b * t
  {
  }

  lemma FloorBound(n: nat, t: real, span: real, length: real)
    requires t > 0.0 && Times(n, t) <= span <= length
    ensures n <= (length / t).Floor
  {
    var q := length / t;
    assert q * t == length;
    SmallerFactor(n as real, q, t);
  }

  /** The zero mark matters: a call that passes at clock 0.0 leaves no trace, so the next one
      passes at once. A clock reading of zero is the only one that does this. */
  lemma ZeroIsForgotten(c: AlertsConfig, throttle: map<string, real>, event: string, now: real)
    requires Active(c) && c.throttle > 0.0 && !Throttled(c, throttle, event, now)
    ensures Throttled(c, After(c, throttle, event, now), event, now) <==> now != 0.0
  {
  }
}
