/** One instrument's hourly buckets, kept up incrementally by the live feed and recomputed from the
    raw ticks by the periodic sync. */
module HourlyRollup {
  import opened Arithmetic
  import opened Options

  /** A raw row of price_feed_history; times are in milliseconds. */
  datatype Tick = Tick(bid: int, at: int)

  /** A row of price_feed_history_1h. */
  datatype Bucket = Bucket(open: int, high: int, low: int, close: int, ticks: nat)

  const HOUR := 3600000

  /** date_trunc('hour', t), as an hour number. */
  function HourOf(t: int): int {
    t / HOUR
  }

  /** Hours are of 3,600,000 milliseconds and start at their multiples. */
  lemma HourIs(t: int, h: int)
    ensures HourOf(t) == h <==> 3600000 * h <= t < 3600000 * (h + 1)
  {
  }

  // ---------- The reference: what a bucket should say about some ticks ----------

  /** Open and close are bids at the earliest and latest time; high and low are the extreme bids.
      (Which of several ticks with the same time counts is left open, as it is in the query.) */
  ghost predicate IsSummary(ts: seq<Tick>, b: Bucket) {
    && b.ticks == |ts|
    && (forall i :: 0 <= i < |ts| ==> b.low <= ts[i].bid <= b.high)
    && (exists i :: 0 <= i < |ts| && ts[i].bid == b.high)
    && (exists i :: 0 <= i < |ts| && ts[i].bid == b.low)
    && (exists i :: 0 <= i < |ts| && ts[i].bid == b.open && IsFirst(ts, i))
    && (exists i :: 0 <= i < |ts| && ts[i].bid == b.close && IsLast(ts, i))
  }

  predicate IsFirst(ts: seq<Tick>, i: int)
    requires 0 <= i < |ts|
  {
    forall j :: 0 <= j < |ts| ==> ts[i].at <= ts[j].at
  }

  predicate IsLast(ts: seq<Tick>, i: int)
    requires 0 <= i < |ts|
  {
    forall j :: 0 <= j < |ts| ==> ts[j].at <= ts[i].at
  }

  predicate DistinctTimes(ts: seq<Tick>) {
    forall i, j :: 0 <= i < j < |ts| ==> ts[i].at != ts[j].at
  }

  lemma FirstIsUnique(ts: seq<Tick>, i: int, j: int)
    requires DistinctTimes(ts) && 0 <= i < |ts| && 0 <= j < |ts|
    ensures IsFirst(ts, i) && IsFirst(ts, j) ==> i == j
    ensures IsLast(ts, i) && IsLast(ts, j) ==> i == j
  {
    assert IsFirst(ts, i) && IsFirst(ts, j) ==> ts[i].at <= ts[j].at && ts[j].at <= ts[i].at;
    assert IsLast(ts, i) && IsLast(ts, j) ==> ts[i].at <= ts[j].at && ts[j].at <= ts[i].at;
    assert i < j ==> ts[i].at != ts[j].at;
    assert j < i ==> ts[j].at != ts[i].at;
  }

  /** With distinct times there is only one summary. */
  lemma SummaryIsUnique(ts: seq<Tick>, b: Bucket, c: Bucket)
    requires IsSummary(ts, b) && IsSummary(ts, c) && DistinctTimes(ts)
    ensures b == c
  {
    hide IsFirst, IsLast, DistinctTimes;
    var i :| 0 <= i < |ts| && ts[i].bid == b.open && IsFirst(ts, i);
    var j :| 0 <= j < |ts| && ts[j].bid == c.open && IsFirst(ts, j);
    FirstIsUnique(ts, i, j);
    var k :| 0 <= k < |ts| && ts[k].bid == b.close && IsLast(ts, k);
    var l :| 0 <= l < |ts| && ts[l].bid == c.close && IsLast(ts, l);
    FirstIsUnique(ts, k, l);
    var h :| 0 <= h < |ts| && ts[h].bid == b.high;
    var m :| 0 <= m < |ts| && ts[m].bid == b.low;
    assert b.high <= c.high && b.low >= c.low;
  }

  /** Every non-empty set of ticks has a summary. */
  lemma {:induction false} SummaryExists(ts: seq<Tick>) returns (b: Bucket)
    requires ts != []
    ensures IsSummary(ts, b)
  {
    hide IsSummary;
    var n := |ts| - 1;
    if n == 0 {
      b := Bucket(ts[0].bid, ts[0].bid, ts[0].bid, ts[0].bid, 1);
      SummaryOfOne(ts[0]);
      assert ts == [ts[0]];
    } else {
      var f := SummaryExists(ts[..n]);
      b := SummaryOfMore(ts[..n], f, ts[n]);
      assert ts[..n] + [ts[n]] == ts;
    }
  }

  lemma SummaryOfOne(t: Tick)
    ensures IsSummary([t], Bucket(t.bid, t.bid, t.bid, t.bid, 1))
  {
    assert IsFirst([t], 0) && IsLast([t], 0);
  }

  lemma SummaryOfMore(front: seq<Tick>, f: Bucket, t: Tick) returns (b: Bucket)
    requires IsSummary(front, f)
    ensures IsSummary(front + [t], b)
  {
    var ts, n := front + [t], |front|;
    var h :| 0 <= h < n && front[h].bid == f.high;
    var l :| 0 <= l < n && front[l].bid == f.low;
    var o :| 0 <= o < n && front[o].bid == f.open && IsFirst(front, o);
    var k :| 0 <= k < n && front[k].bid == f.close && IsLast(front, k);
    assert ts[h] == front[h] && ts[l] == front[l] && ts[o] == front[o] && ts[k] == front[k] && ts[n] == t;
    var first := if t.at < front[o].at then n else o;
    var last := if t.at >= front[k].at then n else k;
    b := Bucket(ts[first].bid, Max(f.high, t.bid), Min(f.low, t.bid), ts[last].bid, n + 1);
    assert IsFirst(ts, first);
    assert IsLast(ts, last);
    assert ts[if b.high == f.high then h else n].bid == b.high;
    assert ts[if b.low == f.low then l else n].bid == b.low;
  }

  // ---------- The incremental form ----------

  /** INSERT ... ON CONFLICT DO UPDATE for one tick: the open is kept. */
  function Upserted(b: Option<Bucket>, bid: int): Bucket {
    match b
    case None => Bucket(bid, bid, bid, bid, 1)
    case Some(o) => Bucket(o.open, Max(o.high, bid), Min(o.low, bid), bid, o.ticks + 1)
  }

  /** The bucket after upserting every tick of a series. */
  function Folded(ts: seq<Tick>): Bucket
    requires ts != []
  {
    var n := |ts| - 1;
    Upserted(if n == 0 then None else Some(Folded(ts[..n])), ts[n].bid)
  }

  predicate Chronological(ts: seq<Tick>) {
    forall i, j :: 0 <= i < j < |ts| ==> ts[i].at <= ts[j].at
  }

  /** One more tick, not older than the rest. */
  lemma SummaryStep(front: seq<Tick>, b: Bucket, t: Tick)
    requires IsSummary(front, b) && forall i :: 0 <= i < |front| ==> front[i].at <= t.at
    ensures IsSummary(front + [t], Upserted(Some(b), t.bid))
  {
    var ts, n := front + [t], |front|;
    var c := Upserted(Some(b), t.bid);
    var h :| 0 <= h < n && front[h].bid == b.high;
    var l :| 0 <= l < n && front[l].bid == b.low;
    var o :| 0 <= o < n && front[o].bid == b.open && IsFirst(front, o);
    assert ts[h] == front[h] && ts[l] == front[l] && ts[o] == front[o] && ts[n] == t;
    assert ts[n].bid == c.close && IsLast(ts, n);
    assert ts[if c.high == b.high then h else n].bid == c.high;
    assert ts[if c.low == b.low then l else n].bid == c.low;
    assert ts[o].bid == c.open && IsFirst(ts, o);
  }

  /** Upserting every tick of a chronological series, none throttled, is the batch aggregate. */
  lemma {:induction false} FoldIsBatchAggregate(ts: seq<Tick>)
    requires ts != [] && Chronological(ts)
    ensures IsSummary(ts, Folded(ts))
  {
    hide IsSummary;
    var n := |ts| - 1;
    if n == 0 {
      SummaryOfOne(ts[0]);
      assert ts == [ts[0]];
    } else {
      FoldIsBatchAggregate(ts[..n]);
      SummaryStep(ts[..n], Folded(ts[..n]), ts[n]);
      assert ts[..n] + [ts[n]] == ts;
    }
  }

  /** In any order the fold counts every tick, finds the extremes, and opens and closes on arrival. */
  lemma {:induction false} FoldedShape(ts: seq<Tick>)
    requires ts != []
    ensures var b := Folded(ts);
      && b.ticks == |ts| && b.open == ts[0].bid && b.close == ts[|ts| - 1].bid
      && (forall i :: 0 <= i < |ts| ==> b.low <= ts[i].bid <= b.high)
      && (exists i :: 0 <= i < |ts| && ts[i].bid == b.high)
      && (exists i :: 0 <= i < |ts| && ts[i].bid == b.low)
  {
    var n := |ts| - 1;
    var b := Folded(ts);
    if n > 0 {
      FoldedShape(ts[..n]);
      var f := Folded(ts[..n]);
      var h :| 0 <= h < n && ts[..n][h].bid == f.high;
      var l :| 0 <= l < n && ts[..n][l].bid == f.low;
      assert ts[if b.high == f.high then h else n].bid == b.high;
      assert ts[if b.low == f.low then l else n].bid == b.low;
    }
  }

  /** So upserting ticks in whatever order they arrive gives the batch aggregate if and only if the
      first arrival has the bid of an earliest tick and the last arrival that of a latest one. */
  lemma FoldIsSummaryIff(ts: seq<Tick>)
    requires ts != []
    ensures IsSummary(ts, Folded(ts))
      <==> && (exists i :: 0 <= i < |ts| && ts[i].bid == ts[0].bid && IsFirst(ts, i))
           && (exists i :: 0 <= i < |ts| && ts[i].bid == ts[|ts| - 1].bid && IsLast(ts, i))
  {
    FoldedShape(ts);
  }

  /** Two ticks that arrive in the wrong order are enough to miss it. */
  lemma FoldNeedsOrder()
    ensures !IsSummary([Tick(5, 20), Tick(7, 10)], Folded([Tick(5, 20), Tick(7, 10)]))
  {
    var ts := [Tick(5, 20), Tick(7, 10)];
    assert !IsFirst(ts, 0) by {
      assert ts[1].at < ts[0].at;
    }
    FoldIsSummaryIff(ts);
  }

  // ---------- The tables ----------

  function InHour(raw: seq<Tick>, h: int): seq<Tick> {
    if raw == [] then []
    else
      var n := |raw| - 1;
      InHour(raw[..n], h) + if HourOf(raw[n].at) == h then [raw[n]] else []
  }

  function Since(raw: seq<Tick>, cutoff: int): seq<Tick> {
    if raw == [] then []
    else
      var n := |raw| - 1;
      Since(raw[..n], cutoff) + if raw[n].at >= cutoff then [raw[n]] else []
  }

  /** `pending` is the tick whose history row is in and whose hourly write is still to come. */
  datatype Store = Store(raw: seq<Tick>, hourly: map<int, Bucket>, pending: Option<Tick>)

  /** One fetch is in flight at a time, so Insert comes only after the previous tick's hourly write
      was committed (Upsert) or skipped by the throttle or a failure (Skip). `result` is what the
      recomputation found. */
  datatype Op =
    | Insert(tick: Tick)
    | Upsert(now: int)
    | Skip
    | Backfill(ticks: seq<Tick>)
    | Sync(cutoff: int, result: map<int, Bucket>)

  function Lookup(hourly: map<int, Bucket>, h: int): Option<Bucket> {
    if h in hourly then Some(hourly[h]) else None
  }

  function Step(s: Store, op: Op): Store {
    match op
    case Insert(t) => s.(raw := s.raw + [t], pending := Some(t))
    case Upsert(now) =>
      if s.pending.None? then s
      else s.(hourly := s.hourly[HourOf(now) := Upserted(Lookup(s.hourly, HourOf(now)), s.pending.value.bid)],
              pending := None)
    case Skip => s.(pending := None)
    case Backfill(ts) => s.(raw := s.raw + ts)
    case Sync(_, result) => s.(hourly := s.hourly + result)
  }

  function Run(s: Store, ops: seq<Op>): Store {
    if ops == [] then s else Step(Run(s, ops[..|ops| - 1]), ops[|ops| - 1])
  }

  /** The recomputation: one summary per hour that has a tick since the cutoff. */
  ghost predicate SyncResult(raw: seq<Tick>, cutoff: int, result: map<int, Bucket>) {
    forall h :: (h in result <==> InHour(Since(raw, cutoff), h) != [])
             && (h in result ==> IsSummary(InHour(Since(raw, cutoff), h), result[h]))
  }

  /** What the code guarantees of an operation when it runs. */
  ghost predicate Possible(s: Store, op: Op) {
    match op
    case Insert(_) => s.pending.None?
    case Upsert(now) => s.pending.Some? && now >= s.pending.value.at
    case Sync(cutoff, result) => SyncResult(s.raw, cutoff, result)
    case _ => true
  }

  /** The hourly write lands in the hour of the history row. */
  predicate SameHour(s: Store, op: Op) {
    op.Upsert? && s.pending.Some? ==> HourOf(op.now) == HourOf(s.pending.value.at)
  }

  // ---------- Stored values are genuine ----------

  ghost predicate HasBid(raw: seq<Tick>, h: int, v: int) {
    exists i :: 0 <= i < |raw| && HourOf(raw[i].at) == h && raw[i].bid == v
  }

  /** Every price in the bucket is the bid of some tick of that hour. */
  ghost predicate Genuine(raw: seq<Tick>, h: int, b: Bucket) {
    HasBid(raw, h, b.open) && HasBid(raw, h, b.high) && HasBid(raw, h, b.low) && HasBid(raw, h, b.close)
  }

  function Count(raw: seq<Tick>, h: int): nat {
    |InHour(raw, h)|
  }

  function Owed(s: Store, h: int): nat {
    if s.pending.Some? && HourOf(s.pending.value.at) == h then 1 else 0
  }

  /** No bucket is beyond its raw ticks, up to `slack` in the count. */
  ghost predicate Within(s: Store, slack: nat) {
    && (s.pending.Some? ==> s.pending.value in s.raw)
    && forall h :: h in s.hourly ==>
         Genuine(s.raw, h, s.hourly[h]) && s.hourly[h].ticks + Owed(s, h) <= Count(s.raw, h) + slack
  }

  // ---------- Lemmas on the tables ----------

  lemma {:induction false} InHourAppend(raw: seq<Tick>, more: seq<Tick>, h: int)
    ensures InHour(raw + more, h) == InHour(raw, h) + InHour(more, h)
  {
    if more == [] {
      assert raw + more == raw;
    } else {
      var n := |more| - 1;
      InHourAppend(raw, more[..n], h);
      assert (raw + more)[..|raw| + n] == raw + more[..n];
    }
  }

  lemma InHourOne(t: Tick, h: int)
    ensures InHour([t], h) == if HourOf(t.at) == h then [t] else []
  {
    assert [t][..0] == [];
  }

  lemma {:induction false} InHourMember(raw: seq<Tick>, h: int, t: Tick)
    ensures t in InHour(raw, h) <==> t in raw && HourOf(t.at) == h
  {
    if raw != [] {
      var n := |raw| - 1;
      InHourMember(raw[..n], h, t);
      assert raw == raw[..n] + [raw[n]];
    }
  }

  lemma {:induction false} SinceMember(raw: seq<Tick>, cutoff: int, t: Tick)
    ensures t in Since(raw, cutoff) <==> t in raw && t.at >= cutoff
  {
    if raw != [] {
      var n := |raw| - 1;
      SinceMember(raw[..n], cutoff, t);
      assert raw == raw[..n] + [raw[n]];
    }
  }

  predicate WholeHourSince(raw: seq<Tick>, h: int, cutoff: int) {
    forall i :: 0 <= i < |raw| ==> HourOf(raw[i].at) == h ==> raw[i].at >= cutoff
  }

  /** A cutoff inside the hour drops ticks from its recomputation; otherwise nothing is missing. */
  lemma {:induction false} SinceInHour(raw: seq<Tick>, cutoff: int, h: int)
    ensures WholeHourSince(raw, h, cutoff) ==> InHour(Since(raw, cutoff), h) == InHour(raw, h)
    ensures !WholeHourSince(raw, h, cutoff) ==> |InHour(Since(raw, cutoff), h)| < |InHour(raw, h)|
  {
    if raw != [] {
      var n := |raw| - 1;
      SinceInHour(raw[..n], cutoff, h);
      assert WholeHourSince(raw, h, cutoff) <==>
        WholeHourSince(raw[..n], h, cutoff) && (HourOf(raw[n].at) == h ==> raw[n].at >= cutoff);
      assert InHour(raw, h) == InHour(raw[..n], h) + if HourOf(raw[n].at) == h then [raw[n]] else [];
      if raw[n].at >= cutoff {
        assert Since(raw, cutoff) == Since(raw[..n], cutoff) + [raw[n]];
        InHourAppend(Since(raw[..n], cutoff), [raw[n]], h);
        InHourOne(raw[n], h);
      } else {
        assert Since(raw, cutoff) == Since(raw[..n], cutoff);
      }
    }
  }

  lemma HasBidOf(raw: seq<Tick>, h: int, t: Tick)
    requires t in raw && HourOf(t.at) == h
    ensures HasBid(raw, h, t.bid)
  {
    var i :| 0 <= i < |raw| && raw[i] == t;
    assert HourOf(raw[i].at) == h && raw[i].bid == t.bid;
  }

  lemma BidsGrow(raw: seq<Tick>, more: seq<Tick>, h: int)
    ensures forall v :: HasBid(raw, h, v) ==> HasBid(raw + more, h, v)
  {
    forall v | HasBid(raw, h, v) ensures HasBid(raw + more, h, v) {
      var i :| 0 <= i < |raw| && HourOf(raw[i].at) == h && raw[i].bid == v;
      assert (raw + more)[i] == raw[i];
    }
  }

  lemma GenuineGrows(raw: seq<Tick>, more: seq<Tick>, h: int, b: Bucket)
    requires Genuine(raw, h, b)
    ensures Genuine(raw + more, h, b)
  {
    BidsGrow(raw, more, h);
  }

  lemma SummaryIsGenuine(raw: seq<Tick>, cutoff: int, h: int, b: Bucket)
    requires IsSummary(InHour(Since(raw, cutoff), h), b)
    ensures Genuine(raw, h, b) && b.ticks <= Count(raw, h)
  {
    var ts := InHour(Since(raw, cutoff), h);
    forall i | 0 <= i < |ts| ensures HasBid(raw, h, ts[i].bid) {
      InHourMember(Since(raw, cutoff), h, ts[i]);
      SinceMember(raw, cutoff, ts[i]);
      HasBidOf(raw, h, ts[i]);
    }
    SinceInHour(raw, cutoff, h);
  }

  // ---------- Every interleaving ----------

  lemma InsertWithin(s: Store, t: Tick, slack: nat)
    requires Within(s, slack) && s.pending.None?
    ensures Within(Step(s, Insert(t)), slack)
  {
    var u := Step(s, Insert(t));
    assert u.raw[|s.raw|] == t;
    forall h | h in u.hourly
      ensures Genuine(u.raw, h, u.hourly[h]) && u.hourly[h].ticks + Owed(u, h) <= Count(u.raw, h) + slack
    {
      GenuineGrows(s.raw, [t], h, s.hourly[h]);
      InHourAppend(s.raw, [t], h);
      InHourOne(t, h);
    }
  }

  lemma BackfillWithin(s: Store, ts: seq<Tick>, slack: nat)
    requires Within(s, slack)
    ensures Within(Step(s, Backfill(ts)), slack)
  {
    var u := Step(s, Backfill(ts));
    forall h | h in u.hourly
      ensures Genuine(u.raw, h, u.hourly[h]) && u.hourly[h].ticks + Owed(u, h) <= Count(u.raw, h) + slack
    {
      GenuineGrows(s.raw, ts, h, s.hourly[h]);
      InHourAppend(s.raw, ts, h);
    }
  }

  lemma UpsertWithin(s: Store, now: int, slack: nat)
    requires Within(s, slack) && SameHour(s, Upsert(now))
    ensures Within(Step(s, Upsert(now)), slack)
  {
    if s.pending.Some? {
      var t, h := s.pending.value, HourOf(now);
      HasBidOf(s.raw, h, t);
      InHourMember(s.raw, h, t);
    }
  }

  lemma SyncedHour(s: Store, cutoff: int, result: map<int, Bucket>, h: int)
    requires SyncResult(s.raw, cutoff, result) && h in result
    ensures Step(s, Sync(cutoff, result)).hourly[h] == result[h]
    ensures Genuine(s.raw, h, result[h]) && result[h].ticks <= Count(s.raw, h)
  {
    SummaryIsGenuine(s.raw, cutoff, h, result[h]);
  }

  lemma SyncWithin(s: Store, cutoff: int, result: map<int, Bucket>)
    requires Within(s, 1) && SyncResult(s.raw, cutoff, result)
    ensures Within(Step(s, Sync(cutoff, result)), 1)
  {
    forall h | h in result
      ensures Genuine(s.raw, h, result[h]) && result[h].ticks <= Count(s.raw, h)
    {
      SyncedHour(s, cutoff, result, h);
    }
  }

  ghost predicate PossibleRun(s: Store, ops: seq<Op>) {
    forall i :: 0 <= i < |ops| ==> Possible(Run(s, ops[..i]), ops[i])
  }

  ghost predicate SameHourRun(s: Store, ops: seq<Op>) {
    forall i :: 0 <= i < |ops| ==> SameHour(Run(s, ops[..i]), ops[i])
  }

  predicate Empty(s: Store) {
    s.raw == [] && s.hourly == map[] && s.pending.None?
  }

  /** In every interleaving of inserts, hourly writes (throttled, failed or late), backfills and
      syncs in which hourly writes land in the hour of their tick: every stored open, high, low and
      close is the bid of a tick of that hour, and the count is at most one too high. */
  lemma {:induction false} StoredValuesAreGenuine(s: Store, ops: seq<Op>)
    requires Empty(s) && PossibleRun(s, ops) && SameHourRun(s, ops)
    ensures Within(Run(s, ops), 1)
  {
    if ops != [] {
      var n := |ops| - 1;
      assert forall i :: 0 <= i < n ==> ops[..n][..i] == ops[..i];
      StoredValuesAreGenuine(s, ops[..n]);
      var t := Run(s, ops[..n]);
      match ops[n]
      case Insert(tick) => InsertWithin(t, tick, 1);
      case Upsert(now) => UpsertWithin(t, now, 1);
      case Skip =>
      case Backfill(ts) => BackfillWithin(t, ts, 1);
      case Sync(cutoff, result) => SyncWithin(t, cutoff, result);
    }
  }

  /** What that means for the extremes. */
  lemma GenuineIsWithinExtremes(raw: seq<Tick>, h: int, b: Bucket, top: int, bottom: int)
    requires Genuine(raw, h, b)
    requires forall i :: 0 <= i < |raw| ==> HourOf(raw[i].at) == h ==> bottom <= raw[i].bid <= top
    ensures bottom <= b.low && b.high <= top
  {
  }

  // ---------- Right after a sync ----------

  /** Right after a sync, an hour with a tick since the cutoff holds the exact summary of its ticks if
      and only if the cutoff does not cut into it; whatever was stored before does not matter. */
  lemma SyncIsExactIff(s: Store, cutoff: int, result: map<int, Bucket>, h: int)
    requires SyncResult(s.raw, cutoff, result) && InHour(Since(s.raw, cutoff), h) != []
    ensures var u := Step(s, Sync(cutoff, result));
      h in u.hourly && (IsSummary(InHour(u.raw, h), u.hourly[h]) <==> WholeHourSince(s.raw, h, cutoff))
  {
    SinceInHour(s.raw, cutoff, h);
    assert h in result && IsSummary(InHour(Since(s.raw, cutoff), h), result[h]);
  }

  /** A cutoff on an hour boundary is never a problem: every hour with a tick since it is exact. */
  lemma SyncFromBoundaryIsExact(s: Store, hour: int, result: map<int, Bucket>, h: int)
    requires SyncResult(s.raw, hour * HOUR, result) && InHour(Since(s.raw, hour * HOUR), h) != []
    ensures var u := Step(s, Sync(hour * HOUR, result));
      h in u.hourly && IsSummary(InHour(u.raw, h), u.hourly[h])
  {
    var cutoff := hour * HOUR;
    var t := InHour(Since(s.raw, cutoff), h)[0];
    InHourMember(Since(s.raw, cutoff), h, t);
    SinceMember(s.raw, cutoff, t);
    assert hour <= h;
    SyncIsExactIff(s, cutoff, result, h);
  }

  /** A sync can always run: whatever is stored, every hour with a tick since the cutoff has a summary. */
  lemma SyncResultExists(raw: seq<Tick>, cutoff: int) returns (result: map<int, Bucket>)
    ensures SyncResult(raw, cutoff, result)
  {
    var ts := Since(raw, cutoff);
    var hours := set t | t in ts :: HourOf(t.at);
    forall h ensures h in hours <==> InHour(ts, h) != [] {
      if h in hours {
        var t :| t in ts && HourOf(t.at) == h;
        InHourMember(ts, h, t);
      } else if InHour(ts, h) != [] {
        InHourMember(ts, h, InHour(ts, h)[0]);
      }
    }
    result := map h | h in hours :: Summarised(InHour(ts, h));
  }

  /** Some summary of these ticks. */
  ghost function Summarised(ts: seq<Tick>): (b: Bucket)
    requires ts != []
    ensures IsSummary(ts, b)
  {
    assert exists b :: IsSummary(ts, b) by {
      var b := SummaryExists(ts);
    }
    var b :| IsSummary(ts, b);
    b
  }

  /** An hour without a tick since the cutoff keeps what it had. */
  lemma SyncLeavesOlderHours(s: Store, cutoff: int, result: map<int, Bucket>, h: int)
    requires SyncResult(s.raw, cutoff, result) && InHour(Since(s.raw, cutoff), h) == []
    ensures Lookup(Step(s, Sync(cutoff, result)).hourly, h) == Lookup(s.hourly, h)
  {
    assert h !in result;
  }
}
