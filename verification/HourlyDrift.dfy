/** How far a stored hour can drift from its ticks between two recomputations: the count exactly, and
    which hourly writes push the extremes beyond what the hour saw. Writes may land in any hour. */
module HourlyDrift {
  import opened Options
  import opened Arithmetic
  import opened HourlyRollup

  // ---------- What happened to an hour since its last sync ----------

  /** This operation recomputes the hour. */
  predicate Recomputes(op: Op, h: int) {
    op.Sync? && h in op.result
  }

  /** The bid this operation writes into the hour's bucket, if any. */
  function WriteInto(s: Store, op: Op, h: int): seq<int> {
    if op.Upsert? && s.pending.Some? && HourOf(op.now) == h then [s.pending.value.bid] else []
  }

  /** The bids written to the hour since it was last recomputed. */
  function WrittenSince(s: Store, ops: seq<Op>, h: int): seq<int> {
    if ops == [] then []
    else
      var pre, op := ops[..|ops| - 1], ops[|ops| - 1];
      if Recomputes(op, h) then [] else WrittenSince(s, pre, h) + WriteInto(Run(s, pre), op, h)
  }

  function Brought(op: Op, h: int): nat {
    match op
    case Insert(t) => if HourOf(t.at) == h then 1 else 0
    case Backfill(ts) => Count(ts, h)
    case _ => 0
  }

  /** The ticks of the hour stored in the history, live or backfilled, since it was last recomputed. */
  function AddedSince(ops: seq<Op>, h: int): nat {
    if ops == [] then 0
    else
      var pre, op := ops[..|ops| - 1], ops[|ops| - 1];
      if Recomputes(op, h) then 0 else AddedSince(pre, h) + Brought(op, h)
  }

  /** The ticks of the hour that its last recomputation left out. */
  function CutOff(s: Store, ops: seq<Op>, h: int): int {
    if ops == [] then 0
    else
      var pre, op := ops[..|ops| - 1], ops[|ops| - 1];
      if Recomputes(op, h) then Count(Run(s, pre).raw, h) - |InHour(Since(Run(s, pre).raw, op.cutoff), h)|
      else CutOff(s, pre, h)
  }

  /** The hour was recomputed, and its last recomputation saw all of it. */
  predicate LastSyncWhole(s: Store, ops: seq<Op>, h: int) {
    ops != [] &&
    var pre, op := ops[..|ops| - 1], ops[|ops| - 1];
    if Recomputes(op, h) then WholeHourSince(Run(s, pre).raw, h, op.cutoff) else LastSyncWhole(s, pre, h)
  }

  /** Whether the last recomputation of the hour found a tick of it with its hourly write to come. */
  function OwedAtSync(s: Store, ops: seq<Op>, h: int): nat {
    if ops == [] then 0
    else
      var pre, op := ops[..|ops| - 1], ops[|ops| - 1];
      if Recomputes(op, h) then Owed(Run(s, pre), h) else OwedAtSync(s, pre, h)
  }

  function Ticks(s: Store, h: int): int {
    if h in s.hourly then s.hourly[h].ticks else 0
  }

  lemma FrontIsPossible(s: Store, ops: seq<Op>)
    requires ops != [] && PossibleRun(s, ops)
    ensures PossibleRun(s, ops[..|ops| - 1]) && Possible(Run(s, ops[..|ops| - 1]), ops[|ops| - 1])
  {
    var n := |ops| - 1;
    assert forall i :: 0 <= i < n ==> ops[..n][..i] == ops[..i];
  }

  // ---------- The count ----------

  /** The counts of one step. */
  lemma StepCounts(s: Store, op: Op, h: int)
    requires Possible(s, op)
    ensures Count(Step(s, op).raw, h) == Count(s.raw, h) + Brought(op, h)
    ensures Ticks(Step(s, op), h) ==
      if Recomputes(op, h) then |InHour(Since(s.raw, op.cutoff), h)| else Ticks(s, h) + |WriteInto(s, op, h)|
  {
    match op
    case Insert(t) =>
      InHourAppend(s.raw, [t], h);
      InHourOne(t, h);
    case Backfill(ts) => InHourAppend(s.raw, ts, h);
    case Sync(cutoff, result) =>
      if h in result {
        SyncedHour(s, cutoff, result, h);
      }
    case _ =>
  }

  /** Conservation: over every run, late writes included, the stored count and the true one differ by
      what was written and not stored, less what was stored and not written or cut off, since the last
      recomputation. */
  lemma {:induction false} CountLaw(s: Store, ops: seq<Op>, h: int)
    requires Empty(s) && PossibleRun(s, ops)
    ensures Ticks(Run(s, ops), h) + CutOff(s, ops, h) + AddedSince(ops, h)
         == Count(Run(s, ops).raw, h) + |WrittenSince(s, ops, h)|
  {
    if ops != [] {
      var pre, op := ops[..|ops| - 1], ops[|ops| - 1];
      FrontIsPossible(s, ops);
      CountLaw(s, pre, h);
      hide Step, Possible, Count, Ticks, WriteInto;
      StepCounts(Run(s, pre), op, h);
    }
  }

  lemma {:induction false} CutOffMeans(s: Store, ops: seq<Op>, h: int)
    ensures CutOff(s, ops, h) >= 0
    ensures LastSyncWhole(s, ops, h) ==> CutOff(s, ops, h) == 0
    ensures CutOff(s, ops, h) == 0 ==> LastSyncWhole(s, ops, h) || OwedAtSync(s, ops, h) == 0
  {
    if ops != [] {
      var pre, op := ops[..|ops| - 1], ops[|ops| - 1];
      CutOffMeans(s, pre, h);
      if Recomputes(op, h) {
        SinceInHour(Run(s, pre).raw, op.cutoff, h);
      }
    }
  }

  /** While hourly writes land in the hour of their tick, each tick is written at most once, so all but
      the one found pending by the last sync were stored after it. */
  lemma {:induction false} WrittenWereAdded(s: Store, ops: seq<Op>, h: int)
    requires Empty(s) && PossibleRun(s, ops) && SameHourRun(s, ops)
    ensures |WrittenSince(s, ops, h)| + Owed(Run(s, ops), h) <= AddedSince(ops, h) + OwedAtSync(s, ops, h)
  {
    if ops != [] {
      var pre, op := ops[..|ops| - 1], ops[|ops| - 1];
      FrontIsPossible(s, ops);
      assert SameHourRun(s, pre) by {
        assert forall i :: 0 <= i < |pre| ==> pre[..i] == ops[..i];
      }
      assert SameHour(Run(s, pre), op);
      WrittenWereAdded(s, pre, h);
    }
  }

  /** Over every run, late writes included: an hour counts more ticks than it has if and only if, since
      it was last recomputed, more writes went into it than ticks of it were stored, and by more than
      that recomputation had cut off. */
  lemma OvercountsIff(s: Store, ops: seq<Op>, h: int)
    requires Empty(s) && PossibleRun(s, ops)
    ensures Ticks(Run(s, ops), h) > Count(Run(s, ops).raw, h)
      <==> |WrittenSince(s, ops, h)| > AddedSince(ops, h) + CutOff(s, ops, h)
  {
    CountLaw(s, ops, h);
  }

  /** While writes land in the hour of their tick: if and only if the hour was recomputed, its last
      recomputation saw all of it, and more of its ticks were written since than stored. Then it is one
      too high: the tick that this sync found pending was written after it, and no tick stored later
      has made up for it by a throttled or failed write, or by a backfill. */
  lemma PromptOvercountsIff(s: Store, ops: seq<Op>, h: int)
    requires Empty(s) && PossibleRun(s, ops) && SameHourRun(s, ops)
    ensures Ticks(Run(s, ops), h) > Count(Run(s, ops).raw, h)
      <==> LastSyncWhole(s, ops, h) && |WrittenSince(s, ops, h)| > AddedSince(ops, h)
    ensures Ticks(Run(s, ops), h) > Count(Run(s, ops).raw, h)
      ==> OwedAtSync(s, ops, h) == 1 && Ticks(Run(s, ops), h) == Count(Run(s, ops).raw, h) + 1
  {
    CountLaw(s, ops, h);
    CutOffMeans(s, ops, h);
    WrittenWereAdded(s, ops, h);
    OwedOne(s, ops, h);
  }

  lemma {:induction false} OwedOne(s: Store, ops: seq<Op>, h: int)
    ensures OwedAtSync(s, ops, h) <= 1
  {
    if ops != [] {
      OwedOne(s, ops[..|ops| - 1], h);
    }
  }

  /** So an hour whose last sync found none of its ticks pending never counts too many. */
  lemma NothingPendingNoOvercount(s: Store, ops: seq<Op>, h: int)
    requires Empty(s) && PossibleRun(s, ops) && SameHourRun(s, ops) && OwedAtSync(s, ops, h) == 0
    ensures Ticks(Run(s, ops), h) <= Count(Run(s, ops).raw, h)
  {
    PromptOvercountsIff(s, ops, h);
  }

  /** Nor does an hour that was never recomputed. */
  lemma NoSyncNoOvercount(s: Store, ops: seq<Op>, h: int)
    requires Empty(s) && PossibleRun(s, ops) && SameHourRun(s, ops)
    requires forall i :: 0 <= i < |ops| ==> !Recomputes(ops[i], h)
    ensures Ticks(Run(s, ops), h) <= Count(Run(s, ops).raw, h)
  {
    NeverRecomputed(s, ops, h);
    NothingPendingNoOvercount(s, ops, h);
  }

  lemma {:induction false} NeverRecomputed(s: Store, ops: seq<Op>, h: int)
    requires forall i :: 0 <= i < |ops| ==> !Recomputes(ops[i], h)
    ensures OwedAtSync(s, ops, h) == 0
  {
    if ops != [] {
      NeverRecomputed(s, ops[..|ops| - 1], h);
    }
  }

  // ---------- The extremes ----------

  /** Every tick of the hour is below this value. */
  predicate AboveAll(raw: seq<Tick>, h: int, v: int) {
    forall i :: 0 <= i < |raw| ==> HourOf(raw[i].at) == h ==> raw[i].bid < v
  }

  predicate BelowAll(raw: seq<Tick>, h: int, v: int) {
    forall i :: 0 <= i < |raw| ==> HourOf(raw[i].at) == h ==> v < raw[i].bid
  }

  /** The stored high is a bid of the hour or was written since the last sync, and is at least
      everything written since; the low alike. */
  ghost predicate ExtremesFrom(s: Store, h: int, written: seq<int>) {
    h !in s.hourly || (
      && (HasBid(s.raw, h, s.hourly[h].high) || s.hourly[h].high in written)
      && (HasBid(s.raw, h, s.hourly[h].low) || s.hourly[h].low in written)
      && forall v :: v in written ==> s.hourly[h].low <= v <= s.hourly[h].high)
  }

  lemma {:induction false} ExtremesTraced(s: Store, ops: seq<Op>, h: int)
    requires Empty(s) && PossibleRun(s, ops)
    ensures ExtremesFrom(Run(s, ops), h, WrittenSince(s, ops, h))
    ensures h !in Run(s, ops).hourly ==> WrittenSince(s, ops, h) == []
  {
    if ops != [] {
      var pre, op := ops[..|ops| - 1], ops[|ops| - 1];
      FrontIsPossible(s, ops);
      ExtremesTraced(s, pre, h);
      ExtremesStep(Run(s, pre), op, h, WrittenSince(s, pre, h));
    }
  }

  lemma ExtremesStep(s: Store, op: Op, h: int, written: seq<int>)
    requires Possible(s, op) && ExtremesFrom(s, h, written) && (h !in s.hourly ==> written == [])
    ensures var now := if Recomputes(op, h) then [] else written + WriteInto(s, op, h);
      ExtremesFrom(Step(s, op), h, now) && (h !in Step(s, op).hourly ==> now == [])
  {
    match op
    case Insert(t) => BidsGrow(s.raw, [t], h);
    case Backfill(ts) => BidsGrow(s.raw, ts, h);
    case Sync(cutoff, result) =>
      if h in result {
        SyncedHour(s, cutoff, result, h);
      }
    case _ =>
  }

  /** Over every run: the stored high is above everything the hour saw if and only if such a bid was
      written to the hour since it was last recomputed; the low alike. The next recomputation of the
      hour therefore mends it. */
  lemma ExtremesBeyondIff(s: Store, ops: seq<Op>, h: int)
    requires Empty(s) && PossibleRun(s, ops) && h in Run(s, ops).hourly
    ensures var u, written := Run(s, ops), WrittenSince(s, ops, h);
      && (AboveAll(u.raw, h, u.hourly[h].high) <==> exists v :: v in written && AboveAll(u.raw, h, v))
      && (BelowAll(u.raw, h, u.hourly[h].low) <==> exists v :: v in written && BelowAll(u.raw, h, v))
  {
    ExtremesTraced(s, ops, h);
  }

  // ---------- Late writes ----------

  /** Whether an hourly write keeps a bucket of genuine prices genuine: exactly when some tick of the hour
      it lands in has the bid it writes. */
  lemma LateWriteIff(s: Store, now: int)
    requires s.pending.Some? && (HourOf(now) in s.hourly ==> Genuine(s.raw, HourOf(now), s.hourly[HourOf(now)]))
    ensures var h, u := HourOf(now), Step(s, Upsert(now));
      h in u.hourly && (Genuine(u.raw, h, u.hourly[h]) <==> HasBid(s.raw, h, s.pending.value.bid))
  {
  }

  // ---------- Runs that drift ----------

  const START := Store([], map[], None)

  /** A sync between a tick's two writes. */
  const OVERTAKEN := [Insert(Tick(5, 10)), Sync(0, map[0 := Bucket(5, 5, 5, 5, 1)]), Upsert(20)]

  /** Two ticks more, of which the throttle skips the second. */
  const THROTTLED := [Insert(Tick(5, 30)), Skip]

  /** A tick of hour 0 whose hourly write comes in hour 1, which has one tick, a lower one. */
  const LATE := [Insert(Tick(9, 10)), Upsert(HOUR), Insert(Tick(5, HOUR + 1)), Upsert(HOUR + 2)]

  /** `ops` is a possible run from `s` to `t`, with every write in its tick's hour if `prompt`. */
  ghost predicate Leads(s: Store, ops: seq<Op>, t: Store, prompt: bool) {
    Run(s, ops) == t && PossibleRun(s, ops) && (prompt ==> SameHourRun(s, ops))
  }

  lemma OneMore(s: Store, ops: seq<Op>, t: Store, op: Op, u: Store, prompt: bool)
    requires Leads(s, ops, t, prompt) && Possible(t, op) && Step(t, op) == u && (prompt ==> SameHour(t, op))
    ensures Leads(s, ops + [op], u, prompt)
  {
    hide Step, Possible, SameHour;
    var more := ops + [op];
    assert more[..|ops|] == ops;
    assert forall i :: 0 <= i < |ops| ==> more[..i] == ops[..i];
  }

  lemma NothingYet(s: Store, prompt: bool)
    ensures Leads(s, [], s, prompt)
  {
  }

  lemma SyncOfOne(t: Tick, cutoff: int, result: map<int, Bucket>)
    requires t.at >= cutoff && result == map[HourOf(t.at) := Bucket(t.bid, t.bid, t.bid, t.bid, 1)]
    ensures SyncResult([t], cutoff, result)
  {
    var raw := [t];
    assert raw[..0] == [];
    assert Since(raw, cutoff) == raw;
    hide IsSummary, Since, InHour, HourOf;
    SummaryOfOne(t);
    forall h ensures InHour(raw, h) == if h == HourOf(t.at) then raw else [] {
      InHourOne(t, h);
    }
  }

  const FIRST := Tick(5, 10)
  const SYNCED := Store([FIRST], map[0 := Bucket(5, 5, 5, 5, 1)], Some(FIRST))
  const TWICE := Store([FIRST], map[0 := Bucket(5, 5, 5, 5, 2)], None)

  lemma OvertakenLeads()
    ensures Leads(START, OVERTAKEN, TWICE, true)
  {
    hide Leads;
    var s1 := Store([FIRST], map[], Some(FIRST));
    NothingYet(START, true);
    OneMore(START, [], START, OVERTAKEN[0], s1, true);
    SyncStep(s1, OVERTAKEN[1].result);
    OneMore(START, [] + [OVERTAKEN[0]], s1, OVERTAKEN[1], SYNCED, true);
    OneMore(START, [] + [OVERTAKEN[0]] + [OVERTAKEN[1]], SYNCED, OVERTAKEN[2], TWICE, true);
    assert [] + [OVERTAKEN[0]] + [OVERTAKEN[1]] + [OVERTAKEN[2]] == OVERTAKEN;
  }

  lemma SyncStep(s: Store, result: map<int, Bucket>)
    requires s == Store([FIRST], map[], Some(FIRST)) && result == map[0 := Bucket(5, 5, 5, 5, 1)]
    ensures Possible(s, Sync(0, result)) && Step(s, Sync(0, result)) == SYNCED
  {
    SyncOfOne(FIRST, 0, result);
    hide SyncResult;
  }

  /** From the empty store, with every write in its hour: one tick, counted twice. */
  lemma OvertakenCountsTwice()
    ensures Empty(START) && PossibleRun(START, OVERTAKEN) && SameHourRun(START, OVERTAKEN)
    ensures Ticks(Run(START, OVERTAKEN), 0) == 2 && Count(Run(START, OVERTAKEN).raw, 0) == 1
  {
    hide Run, PossibleRun, SameHourRun;
    OvertakenLeads();
    InHourOne(FIRST, 0);
  }

  /** The same run one skipped tick later: no sync has come in between, and the count is right again. */
  lemma ThrottledMakesUp()
    ensures var u := Run(Run(START, OVERTAKEN), THROTTLED);
      Ticks(u, 0) == Count(u.raw, 0) == 2
  {
    hide Run, PossibleRun, SameHourRun;
    var t := Tick(5, 30);
    var s1, s2 := Store([FIRST, t], TWICE.hourly, Some(t)), Store([FIRST, t], TWICE.hourly, None);
    OvertakenLeads();
    NothingYet(TWICE, true);
    OneMore(TWICE, [], TWICE, THROTTLED[0], s1, true);
    OneMore(TWICE, [] + [THROTTLED[0]], s1, THROTTLED[1], s2, true);
    assert [] + [THROTTLED[0]] + [THROTTLED[1]] == THROTTLED;
    InHourAppend([FIRST], [t], 0);
    InHourOne(FIRST, 0);
    InHourOne(t, 0);
    assert [FIRST] + [t] == [FIRST, t];
  }

  lemma LateLeads(t: Tick, l: Tick, u: Store)
    requires t == Tick(9, 10) && l == Tick(5, HOUR + 1) && u == Store([t, l], map[1 := Bucket(9, 9, 5, 5, 2)], None)
    ensures Leads(START, LATE, u, false)
  {
    var s1, s2 := Store([t], map[], Some(t)), Store([t], map[1 := Bucket(9, 9, 9, 9, 1)], None);
    var s3 := Store([t, l], s2.hourly, Some(l));
    assert HourOf(HOUR) == 1 && HourOf(HOUR + 2) == 1;
    hide Leads;
    NothingYet(START, false);
    OneMore(START, [], START, LATE[0], s1, false);
    OneMore(START, [] + [LATE[0]], s1, LATE[1], s2, false);
    OneMore(START, [] + [LATE[0]] + [LATE[1]], s2, LATE[2], s3, false);
    OneMore(START, [] + [LATE[0]] + [LATE[1]] + [LATE[2]], s3, LATE[3], u, false);
    assert [] + [LATE[0]] + [LATE[1]] + [LATE[2]] + [LATE[3]] == LATE;
  }

  /** From the empty store: the stored high of hour 1 is above the only tick it has. */
  lemma LateWriteRaisesHigh()
    ensures Empty(START) && PossibleRun(START, LATE)
    ensures var u := Run(START, LATE);
      1 in u.hourly && u.hourly[1] == Bucket(9, 9, 5, 5, 2) && Count(u.raw, 1) == 1 && AboveAll(u.raw, 1, u.hourly[1].high)
  {
    hide Run, PossibleRun, Count, InHour;
    var t, l := Tick(9, 10), Tick(5, HOUR + 1);
    LateLeads(t, l, Store([t, l], map[1 := Bucket(9, 9, 5, 5, 2)], None));
    HoursOfLate(t, l);
  }

  lemma HoursOfLate(t: Tick, l: Tick)
    requires t == Tick(9, 10) && l == Tick(5, HOUR + 1)
    ensures HourOf(t.at) == 0 && HourOf(l.at) == 1 && Count([t, l], 1) == 1
  {
    InHourOne(t, 1);
    InHourOne(l, 1);
    InHourAppend([t], [l], 1);
    assert [t] + [l] == [t, l];
  }
}
