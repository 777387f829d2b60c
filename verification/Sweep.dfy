/** The bounded-concurrency sweep: workers that share one cursor and take one account at a time. */
module Sweep {
  import opened Sequences

  datatype Worker = Ready | Working(index: nat) | Stopped

  /** `claimed` and `finished` record the indices in the order they were taken and given back. */
  datatype State = State(n: nat, cursor: nat, workers: seq<Worker>, claimed: seq<nat>, finished: seq<nat>)

  /** A worker reads and bumps the cursor, or its account's processing ends, normally or by throwing. */
  datatype Op = Next(worker: nat) | Ended(worker: nat, threw: bool)

  function Begin(n: nat, limit: nat): State {
    State(n, 0, seq(if limit <= n then limit else n, _ => Ready), [], [])
  }

  predicate Enabled(s: State, op: Op) {
    op.worker < |s.workers| && (if op.Next? then s.workers[op.worker].Ready? else s.workers[op.worker].Working?)
  }

  /** A thrown error is caught inside the worker's loop, so both endings lead to the next turn. */
  function Step(s: State, op: Op): State {
    if !Enabled(s, op) then s
    else
      match op
      case Next(w) =>
        if s.cursor >= s.n then s.(cursor := s.cursor + 1, workers := s.workers[w := Stopped])
        else s.(cursor := s.cursor + 1, workers := s.workers[w := Working(s.cursor)], claimed := s.claimed + [s.cursor])
      case Ended(w, _) =>
        s.(workers := s.workers[w := Ready], finished := s.finished + [s.workers[w].index])
  }

  function Run(s: State, ops: seq<Op>): State {
    if ops == [] then s else Step(Run(s, ops[..|ops| - 1]), ops[|ops| - 1])
  }

  /** The shared state of one sweep. */
  class SharedCursor {
    const n: nat
    var cursor: nat
    var workers: seq<Worker>
    ghost var claimed: seq<nat>
    ghost var finished: seq<nat>

    ghost function View(): State
      reads this
    {
      State(n, cursor, workers, claimed, finished)
    }

    constructor (n: nat, limit: nat)
      ensures View() == Begin(n, limit)
    {
      this.n, cursor := n, 0;
      var workerCount := if limit <= n then limit else n;
      workers := seq(workerCount, _ => Ready);
      claimed, finished := [], [];
    }

    /** The top of a worker's loop: `const index = cursor++`, then stop or take the account. */
    method Turn(w: nat) returns (index: nat)
      requires w < |workers| && workers[w].Ready?
      modifies this
      ensures View() == Step(old(View()), Next(w))
      ensures index == old(cursor)
    {
      index := cursor;
      cursor := cursor + 1;
      if index >= n {
        workers := workers[w := Stopped];
      } else {
        workers := workers[w := Working(index)];
        claimed := claimed + [index];
      }
    }

    /** processAccount came back, or its error was caught. */
    method Processed(w: nat, threw: bool)
      requires w < |workers| && workers[w].Working?
      modifies this
      ensures View() == Step(old(View()), Ended(w, threw))
    {
      finished := finished + [workers[w].index];
      workers := workers[w := Ready];
    }
  }

  // ---------- The invariant ----------

  predicate InProgress(s: State, index: nat) {
    exists w :: 0 <= w < |s.workers| && s.workers[w] == Working(index)
  }

  ghost predicate Orderly(s: State) {
    && (forall i :: 0 <= i < |s.claimed| ==> s.claimed[i] == i)
    && |s.claimed| == (if s.cursor <= s.n then s.cursor else s.n)
    && (forall w :: 0 <= w < |s.workers| && s.workers[w].Stopped? ==> s.cursor >= s.n)
    && (forall v, w :: 0 <= v < w < |s.workers| && s.workers[v].Working? && s.workers[w].Working? ==>
         s.workers[v].index != s.workers[w].index)
    && (forall index: nat :: index in s.finished || InProgress(s, index) <==> index < |s.claimed|)
    && (forall index: nat :: !(index in s.finished && InProgress(s, index)))
    && Distinct(s.finished)
  }

  lemma BeginOrderly(n: nat, limit: nat)
    ensures Orderly(Begin(n, limit))
  {
  }

  lemma NextOrderly(s: State, w: nat)
    requires Orderly(s) && Enabled(s, Next(w))
    ensures Orderly(Step(s, Next(w)))
  {
    var t := Step(s, Next(w));
    forall index: nat ensures InProgress(t, index) <==> InProgress(s, index) || (s.cursor < s.n && index == s.cursor) {
      if InProgress(s, index) {
        var v :| 0 <= v < |s.workers| && s.workers[v] == Working(index);
        assert t.workers[v] == Working(index);
      }
      if s.cursor < s.n && index == s.cursor {
        assert t.workers[w] == Working(index);
      }
      if InProgress(t, index) {
        var v :| 0 <= v < |t.workers| && t.workers[v] == Working(index);
        assert v != w ==> s.workers[v] == Working(index);
      }
    }
    forall v | 0 <= v < |s.workers| && s.workers[v].Working? ensures s.workers[v].index < |s.claimed| {
      assert InProgress(s, s.workers[v].index);
    }
  }

  lemma EndedOrderly(s: State, w: nat, threw: bool)
    requires Orderly(s) && Enabled(s, Ended(w, threw))
    ensures Orderly(Step(s, Ended(w, threw)))
  {
    var t, done := Step(s, Ended(w, threw)), s.workers[w].index;
    assert InProgress(s, done);
    forall index: nat ensures InProgress(t, index) <==> InProgress(s, index) && index != done {
      if InProgress(s, index) && index != done {
        var v :| 0 <= v < |s.workers| && s.workers[v] == Working(index);
        assert t.workers[v] == Working(index);
      }
      if InProgress(t, index) {
        var v :| 0 <= v < |t.workers| && t.workers[v] == Working(index);
        assert s.workers[v] == Working(index) && v != w;
      }
    }
  }

  lemma {:induction false} RunIsOrderly(n: nat, limit: nat, ops: seq<Op>)
    ensures Orderly(Run(Begin(n, limit), ops))
    ensures |Run(Begin(n, limit), ops).workers| == (if limit <= n then limit else n)
    ensures Run(Begin(n, limit), ops).n == n
  {
    if ops == [] {
      BeginOrderly(n, limit);
    } else {
      RunIsOrderly(n, limit, ops[..|ops| - 1]);
      var s, op := Run(Begin(n, limit), ops[..|ops| - 1]), ops[|ops| - 1];
      if Enabled(s, op) {
        match op
        case Next(w) => NextOrderly(s, w);
        case Ended(w, threw) => EndedOrderly(s, w, threw);
      }
    }
  }

  /** However the workers interleave and whichever accounts throw: indices are claimed in order, each
      exactly once; what is being processed is claimed and not finished; and once every worker has
      stopped, every index has been processed exactly once. */
  lemma EveryIndexOnce(n: nat, limit: nat, ops: seq<Op>)
    requires limit > 0
    ensures var s := Run(Begin(n, limit), ops);
      && (forall i :: 0 <= i < |s.claimed| ==> s.claimed[i] == i)
      && (forall index: nat :: InProgress(s, index) ==> index < |s.claimed| && index !in s.finished)
      && ((forall w :: 0 <= w < |s.workers| ==> s.workers[w].Stopped?) ==>
           && |s.claimed| == n && Distinct(s.finished)
           && forall index: nat :: index in s.finished <==> index < n)
  {
    RunIsOrderly(n, limit, ops);
    var s := Run(Begin(n, limit), ops);
    if forall w :: 0 <= w < |s.workers| ==> s.workers[w].Stopped? {
      if n > 0 {
        assert s.workers[0].Stopped?;
      }
      assert forall index: nat :: !InProgress(s, index);
    }
  }

  // ---------- How many are in progress, and for how long ----------

  function Busy(workers: seq<Worker>): nat {
    if workers == [] then 0 else Busy(workers[..|workers| - 1]) + if workers[|workers| - 1].Working? then 1 else 0
  }

  lemma {:induction false} BusyAtMostAll(workers: seq<Worker>)
    ensures Busy(workers) <= |workers|
  {
    if workers != [] {
      BusyAtMostAll(workers[..|workers| - 1]);
    }
  }

  /** Never more than min(limit, n) accounts at once. */
  lemma BoundedConcurrency(n: nat, limit: nat, ops: seq<Op>)
    ensures Busy(Run(Begin(n, limit), ops).workers) <= if limit <= n then limit else n
  {
    RunIsOrderly(n, limit, ops);
    BusyAtMostAll(Run(Begin(n, limit), ops).workers);
  }

  function Pending(w: Worker): nat {
    match w
    case Stopped => 0
    case Ready => 1
    case Working(_) => 2
  }

  function AllPending(workers: seq<Worker>): nat {
    if workers == [] then 0 else AllPending(workers[..|workers| - 1]) + Pending(workers[|workers| - 1])
  }

  lemma {:induction false} PendingUpdate(workers: seq<Worker>, w: nat, x: Worker)
    requires w < |workers|
    ensures AllPending(workers[w := x]) == AllPending(workers) - Pending(workers[w]) + Pending(x)
  {
    var n := |workers| - 1;
    if w == n {
      assert workers[w := x][..n] == workers[..n];
    } else {
      PendingUpdate(workers[..n], w, x);
      assert workers[w := x][..n] == workers[..n][w := x];
    }
  }

  /** Steps still to come: two for each unclaimed account, plus what the workers are in the middle of. */
  function Measure(s: State): nat {
    (if s.cursor <= s.n then 2 * (s.n - s.cursor) else 0) + AllPending(s.workers)
  }

  /** Every step a worker can take uses up exactly one, thrown errors included. */
  lemma EachStepCounts(s: State, op: Op)
    requires Enabled(s, op)
    ensures Measure(Step(s, op)) == Measure(s) - 1
  {
    match op
    case Next(w) => PendingUpdate(s.workers, w, if s.cursor >= s.n then Stopped else Working(s.cursor));
    case Ended(w, _) => PendingUpdate(s.workers, w, Ready);
  }

  lemma {:induction false} AllReady(workers: seq<Worker>)
    requires forall w :: 0 <= w < |workers| ==> workers[w].Ready?
    ensures AllPending(workers) == |workers|
  {
    if workers != [] {
      AllReady(workers[..|workers| - 1]);
    }
  }

  lemma {:induction false} NonePendingMeansStopped(workers: seq<Worker>)
    ensures AllPending(workers) == 0 <==> forall w :: 0 <= w < |workers| ==> workers[w].Stopped?
  {
    if workers != [] {
      var n := |workers| - 1;
      NonePendingMeansStopped(workers[..n]);
      assert forall w :: 0 <= w < n ==> workers[..n][w] == workers[w];
    }
  }

  predicate AllEnabled(s: State, ops: seq<Op>) {
    forall i :: 0 <= i < |ops| ==> Enabled(Run(s, ops[..i]), ops[i])
  }

  lemma {:induction false} MeasureAfter(s: State, ops: seq<Op>)
    requires AllEnabled(s, ops)
    ensures Measure(Run(s, ops)) == Measure(s) - |ops|
  {
    if ops != [] {
      var n := |ops| - 1;
      assert forall i :: 0 <= i < n ==> ops[..n][..i] == ops[..i] && ops[..n][i] == ops[i];
      MeasureAfter(s, ops[..n]);
      assert ops[..n] == ops[..|ops| - 1];
      EachStepCounts(Run(s, ops[..n]), ops[n]);
    }
  }

  /** The sweep terminates: no schedule is longer than two steps an account plus one a worker, and
      exactly the schedules of that length stop every worker. While a worker has not stopped, it can
      take a step. */
  lemma SweepTerminates(n: nat, limit: nat, ops: seq<Op>)
    requires limit > 0 && AllEnabled(Begin(n, limit), ops)
    ensures var s, total := Run(Begin(n, limit), ops), 2 * n + (if limit <= n then limit else n);
      && |ops| <= total
      && (|ops| == total <==> forall w :: 0 <= w < |s.workers| ==> s.workers[w].Stopped?)
      && forall w :: 0 <= w < |s.workers| && !s.workers[w].Stopped? ==> Enabled(s, Next(w)) || Enabled(s, Ended(w, true))
  {
    var s := Run(Begin(n, limit), ops);
    AllReady(Begin(n, limit).workers);
    MeasureAfter(Begin(n, limit), ops);
    RunIsOrderly(n, limit, ops);
    NonePendingMeansStopped(s.workers);
    if forall w :: 0 <= w < |s.workers| ==> s.workers[w].Stopped? {
      if n > 0 {
        assert s.workers[0].Stopped?;
      }
    }
  }
}
