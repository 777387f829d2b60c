/** The throttle in front of the hourly write: a stamp taken before the write and given back when the
    write fails, and a promise that joins callers while one is running. */
module HourlyThrottle {
  import opened Options

  /** The write that is running: when it started and the stamp to restore. */
  datatype Flight = Flight(start: int, previous: int)

  datatype State = State(stamp: int, flight: Option<Flight>)

  datatype Op = Call(rows: nat, now: int) | Succeed | Fail

  predicate Admitted(s: State, rows: nat, now: int, interval: int) {
    rows > 0 && s.flight.None? && now - s.stamp >= interval
  }

  function Step(s: State, op: Op, interval: int): State {
    match op
    case Call(rows, now) => if Admitted(s, rows, now, interval) then State(now, Some(Flight(now, s.stamp))) else s
    case Succeed => State(s.stamp, None)
    case Fail => if s.flight.Some? then State(s.flight.value.previous, None) else s
  }

  function Run(s: State, ops: seq<Op>, interval: int): State {
    if ops == [] then s else Step(Run(s, ops[..|ops| - 1], interval), ops[|ops| - 1], interval)
  }

  /** The module variables lastSharedHourlyPersistedAt and sharedHourlyPersistPromise. */
  class HourlyWriter {
    const interval: int
    var lastPersistedAt: int
    var promise: Option<Flight>

    ghost function View(): State
      reads this
    {
      State(lastPersistedAt, promise)
    }

    constructor (interval: int)
      ensures View() == State(0, None) && this.interval == interval
    {
      this.interval, lastPersistedAt, promise := interval, 0, None;
    }

    /** upsertHourlyTicks up to the query; the caller that is not admitted returns or joins. */
    method UpsertHourlyTicks(rows: nat, now: int) returns (started: bool)
      modifies this
      ensures View() == Step(old(View()), Call(rows, now), interval)
      ensures started <==> Admitted(old(View()), rows, now, interval)
    {
      started := false;
      if rows == 0 {
        return;
      }
      if promise.Some? {
        return;
      }
      if now - lastPersistedAt < interval {
        return;
      }
      var previousPersistedAt := lastPersistedAt;
      lastPersistedAt := now;
      promise := Some(Flight(now, previousPersistedAt));
      started := true;
    }

    /** The catch and finally handlers of the query. */
    method Settled(ok: bool)
      modifies this
      ensures View() == Step(old(View()), if ok then Succeed else Fail, interval)
    {
      if !ok && promise.Some? {
        lastPersistedAt := promise.value.previous;
      }
      promise := None;
    }
  }

  /** Start times of the successful writes, in order. */
  function Written(s: State, ops: seq<Op>, interval: int): seq<int> {
    if ops == [] then []
    else
      var pre, op := ops[..|ops| - 1], ops[|ops| - 1];
      var t := Run(s, pre, interval);
      Written(s, pre, interval) + if op == Succeed && t.flight.Some? then [t.flight.value.start] else []
  }

  /** The stamp a write would be measured against if the running one failed. */
  function Effective(s: State): int {
    if s.flight.Some? then s.flight.value.previous else s.stamp
  }

  predicate Spaced(starts: seq<int>, interval: int) {
    forall i :: 0 <= i < |starts| - 1 ==> starts[i + 1] - starts[i] >= interval
  }

  /** Over every series of calls, successes and failures, with any clock: consecutive successful
      writes start at least the interval apart, and what the throttle measures against is always the
      last successful start (or the initial stamp): failures leave no trace. */
  lemma {:induction false} WritesAreSpaced(stamp: int, ops: seq<Op>, interval: int)
    ensures var t := Run(State(stamp, None), ops, interval);
      var starts := Written(State(stamp, None), ops, interval);
      && Spaced(starts, interval)
      && (starts != [] ==> starts[0] - stamp >= interval)
      && Effective(t) == (if starts == [] then stamp else starts[|starts| - 1])
      && (t.flight.Some? ==> t.stamp == t.flight.value.start && t.flight.value.start - t.flight.value.previous >= interval)
  {
    if ops != [] {
      WritesAreSpaced(stamp, ops[..|ops| - 1], interval);
    }
  }

  predicate Starts(s: State, op: Op, interval: int) {
    op.Call? && Admitted(s, op.rows, op.now, interval)
  }

  predicate Ends(s: State, op: Op) {
    !op.Call? && s.flight.Some?
  }

  function Begun(s: State, ops: seq<Op>, interval: int): nat {
    if ops == [] then 0
    else
      var pre := ops[..|ops| - 1];
      Begun(s, pre, interval) + if Starts(Run(s, pre, interval), ops[|ops| - 1], interval) then 1 else 0
  }

  function Ended(s: State, ops: seq<Op>, interval: int): nat {
    if ops == [] then 0
    else
      var pre := ops[..|ops| - 1];
      Ended(s, pre, interval) + if Ends(Run(s, pre, interval), ops[|ops| - 1]) then 1 else 0
  }

  /** At every moment at most one hourly write has started and not yet succeeded or failed. */
  lemma {:induction false} OneWriteInFlight(stamp: int, ops: seq<Op>, interval: int)
    ensures var s := State(stamp, None);
      Begun(s, ops, interval) == Ended(s, ops, interval) + if Run(s, ops, interval).flight.Some? then 1 else 0
  {
    if ops != [] {
      OneWriteInFlight(stamp, ops[..|ops| - 1], interval);
    }
  }

  /** A call starts a write exactly when it brings rows, none is running, and the interval since the stamp
      has passed; any other call leaves everything as it was. */
  lemma CallStartsIff(s: State, rows: nat, now: int, interval: int)
    ensures var t := Step(s, Call(rows, now), interval);
      && (t != s ==> rows != 0 && s.flight.None? && s.stamp + interval <= now)
      && (rows != 0 && s.flight.None? && s.stamp + interval <= now ==>
           && t.flight.Some? && t.stamp == t.flight.value.start == now
           && Step(t, Fail, interval) == s && Step(t, Succeed, interval) == State(now, None))
  {
  }

  /** After a failure the very next call with rows is admitted, if its clock is not behind the failed
      one's; after a success it is admitted only once the interval has passed. */
  lemma FailureRetriesAtOnce(s: State, rows: nat, now: int, again: int, interval: int)
    requires rows > 0 && again >= now && interval > 0
    requires Admitted(s, rows, now, interval)
    ensures var begun := Step(s, Call(rows, now), interval);
      && Step(begun, Fail, interval) == s
      && Admitted(Step(begun, Fail, interval), rows, again, interval)
      && (Admitted(Step(begun, Succeed, interval), rows, again, interval) <==> again - now >= interval)
  {
  }
}
