/** Filling one instrument's history from the export, from before the oldest tick the statistics query
    found back to the lookback limit, in one transaction of bounded inserts. Live ticks may be stored
    between the query and the transaction. */
module Backfill {
  import opened Options
  import opened PriceHistory

  const MIN_ROWS := 500
  const BATCH := 500

  /** MIN(recorded_at). */
  function Earliest(raw: seq<Quote>): Option<int> {
    if raw == [] then None
    else
      var front := Earliest(raw[..|raw| - 1]);
      var at := raw[|raw| - 1].at;
      if front.Some? && front.value <= at then front else Some(at)
  }

  lemma {:induction false} EarliestMeans(raw: seq<Quote>)
    ensures raw == [] <==> Earliest(raw) == None
    ensures raw != [] ==> forall i :: 0 <= i < |raw| ==> Earliest(raw).value <= raw[i].at
    ensures raw != [] ==> exists i :: 0 <= i < |raw| && raw[i].at == Earliest(raw).value
  {
    if raw != [] {
      var n := |raw| - 1;
      EarliestMeans(raw[..n]);
      if n > 0 && Earliest(raw) == Earliest(raw[..n]) {
        var i :| 0 <= i < n && raw[..n][i].at == Earliest(raw).value;
        assert raw[i].at == Earliest(raw).value;
      } else {
        assert raw[n].at == Earliest(raw).value;
      }
    }
  }

  /** What the statistics query says about one instrument; one without rows is not in its answer and
      counts as none. */
  datatype Stats = Stats(count: nat, earliest: Option<int>)

  function StatsOf(raw: seq<Quote>): Stats {
    Stats(|raw|, Earliest(raw))
  }

  /** Too few rows, none, or none old enough. A stored time of 0 counts as none. */
  predicate NeedsBootstrap(stats: Stats, lookback: int) {
    || stats.count < MIN_ROWS
    || stats.earliest.None? || stats.earliest.value == 0
    || stats.earliest.value > lookback + MINUTE
  }

  /** The bar is inside the lookback and older than everything the query found. */
  predicate Wanted(bar: Bar, earliest: Option<int>, lookback: int) {
    var at := ParseTimestampMs(bar.t);
    && at.Some? && at.value != 0 && at.value >= lookback
    && (earliest.Some? && earliest.value != 0 ==> at.value < earliest.value - MINUTE)
  }

  function Ticks(bars: seq<Bar>, earliest: Option<int>, lookback: int, spread: int): seq<Quote> {
    if bars == [] then []
    else
      var n := |bars| - 1;
      Ticks(bars[..n], earliest, lookback, spread)
      + if Wanted(bars[n], earliest, lookback) then BuildTicks(bars[n], spread) else []
  }

  /** What one run of the backfill inserts, given what its query found. */
  function Inserted(stats: Stats, bars: seq<Bar>, lookback: int, spread: int): seq<Quote> {
    if NeedsBootstrap(stats, lookback) then Ticks(bars, stats.earliest, lookback, spread) else []
  }

  /** The rows of price_feed_history of one instrument. */
  class HistoryTable {
    var raw: seq<Quote>

    constructor (raw: seq<Quote>)
      ensures this.raw == raw
    {
      this.raw := raw;
    }

    /** bootstrapHistoricalPriceHistory for one instrument. `stats` was read earlier, on another
        connection; `failsAt` is the insert statement that fails, if one does, and takes the whole
        transaction with it. */
    method Bootstrap(stats: Stats, bars: seq<Bar>, lookback: int, spread: int, failsAt: Option<nat>) returns (committed: bool)
      modifies this
      ensures raw == if committed then old(raw) + Inserted(stats, bars, lookback, spread) else old(raw)
      ensures failsAt.None? ==> committed
    {
      committed := true;
      if !NeedsBootstrap(stats, lookback) {
        return;
      }
      var ticks := CollectTicks(bars, stats.earliest, lookback, spread);
      if |ticks| == 0 {
        return;
      }
      committed := InsertInSlices(ticks, failsAt);
    }

    method CollectTicks(bars: seq<Bar>, existingMin: Option<int>, lookback: int, spread: int) returns (ticks: seq<Quote>)
      ensures ticks == Ticks(bars, existingMin, lookback, spread)
    {
      ticks := [];
      for i := 0 to |bars|
        invariant ticks == Ticks(bars[..i], existingMin, lookback, spread)
      {
        assert bars[..i + 1][..i] == bars[..i];
        var barTime := ParseTimestampMs(bars[i].t);
        if barTime.None? || barTime.value == 0 || barTime.value < lookback {
          continue;
        }
        if existingMin.Some? && existingMin.value != 0 && barTime.value >= existingMin.value - MINUTE {
          continue;
        }
        ticks := ticks + BuildTicks(bars[i], spread);
      }
      assert bars[..|bars|] == bars;
    }

    /** The transaction: slices of 500, each row exactly once and in order, or nothing at all. */
    method InsertInSlices(ticks: seq<Quote>, failsAt: Option<nat>) returns (committed: bool)
      modifies this
      ensures raw == if committed then old(raw) + ticks else old(raw)
      ensures failsAt.None? ==> committed
    {
      var begin := raw;
      var i, statement := 0, 0;
      while i < |ticks|
        invariant raw == begin + ticks[..if i <= |ticks| then i else |ticks|]
        invariant i >= 0
      {
        if failsAt == Some(statement) {
          raw := begin;
          return false;
        }
        var end := if i + BATCH <= |ticks| then i + BATCH else |ticks|;
        assert ticks[..i] + ticks[i..end] == ticks[..end];
        raw := raw + ticks[i..end];
        i := i + BATCH;
        statement := statement + 1;
      }
      committed := true;
    }
  }

  // ---------- What a run inserts ----------

  /** Every inserted tick comes from a wanted, usable bar. */
  lemma {:induction false} TicksComeFromBars(bars: seq<Bar>, earliest: Option<int>, lookback: int, spread: int, k: nat)
    requires k < |Ticks(bars, earliest, lookback, spread)|
    ensures exists i :: 0 <= i < |bars| && Wanted(bars[i], earliest, lookback)
                     && Ticks(bars, earliest, lookback, spread)[k] in BuildTicks(bars[i], spread)
  {
    var n := |bars| - 1;
    var front := Ticks(bars[..n], earliest, lookback, spread);
    if k < |front| {
      TicksComeFromBars(bars[..n], earliest, lookback, spread, k);
      var i :| 0 <= i < n && Wanted(bars[..n][i], earliest, lookback) && front[k] in BuildTicks(bars[..n][i], spread);
      assert bars[i] == bars[..n][i];
    } else {
      assert Wanted(bars[n], earliest, lookback);
    }
  }

  lemma {:induction false} WantedBarIsIn(bars: seq<Bar>, earliest: Option<int>, lookback: int, spread: int, i: nat, q: Quote)
    requires i < |bars| && Wanted(bars[i], earliest, lookback) && q in BuildTicks(bars[i], spread)
    ensures q in Ticks(bars, earliest, lookback, spread)
  {
    var n := |bars| - 1;
    if i < n {
      WantedBarIsIn(bars[..n], earliest, lookback, spread, i, q);
    }
  }

  predicate PositiveTimes(raw: seq<Quote>) {
    forall i :: 0 <= i < |raw| ==> raw[i].at > 0
  }

  /** Every inserted tick is inside the lookback and strictly older than every tick the query saw. */
  lemma InsertedIsOlder(raw: seq<Quote>, bars: seq<Bar>, lookback: int, spread: int, k: nat)
    requires PositiveTimes(raw) && k < |Inserted(StatsOf(raw), bars, lookback, spread)|
    ensures var at := Inserted(StatsOf(raw), bars, lookback, spread)[k].at;
      && at >= lookback && at > 0
      && forall i :: 0 <= i < |raw| ==> at < raw[i].at
  {
    EarliestMeans(raw);
    TicksComeFromBars(bars, Earliest(raw), lookback, spread, k);
    var i :| 0 <= i < |bars| && Wanted(bars[i], Earliest(raw), lookback)
             && Inserted(StatsOf(raw), bars, lookback, spread)[k] in BuildTicks(bars[i], spread);
    assert Inserted(StatsOf(raw), bars, lookback, spread)[k].at <= ParseTimestampMs(bars[i].t).value + 59 * SECOND;
  }

  /** The bar's time is inside the lookback, and more than a minute before everything the query saw. */
  predicate BeforeAll(bar: Bar, raw: seq<Quote>, lookback: int) {
    Usable(bar) && ParseTimestampMs(bar.t).value >= lookback
    && forall j :: 0 <= j < |raw| ==> ParseTimestampMs(bar.t).value + 60000 < raw[j].at
  }

  /** Exactly what is inserted: the quotes of every usable bar inside the lookback and before everything
      stored, unless 500 rows are there and one of them is at most a minute younger than the lookback. */
  lemma InsertedIff(raw: seq<Quote>, bars: seq<Bar>, lookback: int, spread: int, q: Quote)
    requires PositiveTimes(raw)
    ensures q in Inserted(StatsOf(raw), bars, lookback, spread) <==>
      && (|raw| < 500 || forall j :: 0 <= j < |raw| ==> raw[j].at > lookback + 60000)
      && exists i :: 0 <= i < |bars| && BeforeAll(bars[i], raw, lookback) && q in BuildTicks(bars[i], spread)
  {
    EarliestMeans(raw);
    var inserted := Inserted(StatsOf(raw), bars, lookback, spread);
    forall i | 0 <= i < |bars| && BuildTicks(bars[i], spread) != []
      ensures Wanted(bars[i], Earliest(raw), lookback) <==> BeforeAll(bars[i], raw, lookback)
    {
      WantedIff(raw, bars[i], lookback);
    }
    hide Wanted, BeforeAll, Ticks;
    if q in inserted {
      var k :| 0 <= k < |inserted| && inserted[k] == q;
      TicksComeFromBars(bars, Earliest(raw), lookback, spread, k);
    } else if exists i :: 0 <= i < |bars| && BeforeAll(bars[i], raw, lookback) && q in BuildTicks(bars[i], spread) {
      var i :| 0 <= i < |bars| && BeforeAll(bars[i], raw, lookback) && q in BuildTicks(bars[i], spread);
      WantedBarIsIn(bars, Earliest(raw), lookback, spread, i, q);
    }
  }

  lemma WantedIff(raw: seq<Quote>, bar: Bar, lookback: int)
    requires PositiveTimes(raw) && Usable(bar)
    ensures Wanted(bar, Earliest(raw), lookback) <==> BeforeAll(bar, raw, lookback)
  {
    EarliestMeans(raw);
  }

  /** Skipping an instrument with enough old rows skips nothing: none of its bars would have been wanted. */
  lemma EarlyExitSkipsNothing(raw: seq<Quote>, bars: seq<Bar>, lookback: int, spread: int)
    requires PositiveTimes(raw) && !NeedsBootstrap(StatsOf(raw), lookback)
    ensures Ticks(bars, Earliest(raw), lookback, spread) == []
  {
    if Ticks(bars, Earliest(raw), lookback, spread) != [] {
      TicksComeFromBars(bars, Earliest(raw), lookback, spread, 0);
    }
  }

  /** Live ticks are no older than what was stored before them. */
  predicate Newer(raw: seq<Quote>, live: seq<Quote>) {
    forall i, j :: 0 <= i < |raw| && 0 <= j < |live| ==> raw[i].at <= live[j].at
  }

  predicate AllOlder(inserted: seq<Quote>, live: seq<Quote>) {
    forall k, j :: 0 <= k < |inserted| && 0 <= j < |live| ==> inserted[k].at < live[j].at
  }

  /** Whatever the export holds, everything inserted is older than the live ticks stored between query
      and transaction if and only if there are none of those, or the query found a row. */
  lemma OlderThanLiveIff(raw: seq<Quote>, live: seq<Quote>, lookback: int, spread: int)
    requires PositiveTimes(raw) && Newer(raw, live)
    ensures (forall bars: seq<Bar> :: AllOlder(Inserted(StatsOf(raw), bars, lookback, spread), live))
      <==> live == [] || raw != []
  {
    if raw != [] {
      forall bars: seq<Bar> ensures AllOlder(Inserted(StatsOf(raw), bars, lookback, spread), live) {
        var inserted := Inserted(StatsOf(raw), bars, lookback, spread);
        forall k, j | 0 <= k < |inserted| && 0 <= j < |live| ensures inserted[k].at < live[j].at {
          InsertedIsOlder(raw, bars, lookback, spread, k);
          assert inserted[k].at < raw[0].at <= live[j].at;
        }
      }
    } else if live != [] {
      var at := if live[0].at > lookback then live[0].at else lookback;
      var bars := BarNoOlderThan(at, lookback, spread);
      assert !AllOlder(Inserted(StatsOf(raw), bars, lookback, spread), live);
    }
  }

  /** A fresh enough export, when the query found nothing. */
  lemma BarNoOlderThan(at: int, lookback: int, spread: int) returns (bars: seq<Bar>)
    requires at >= lookback
    ensures var inserted := Inserted(StatsOf([]), bars, lookback, spread);
      inserted != [] && inserted[0].at >= at
  {
    var t := if at > 1000000000000 then at else 1000000000001;
    bars := [Bar(Some(t as real), Some(1), Some(1), Some(1), Some(1), None)];
    assert ParseTimestampMs(bars[0].t) == Some(t);
    assert bars[..0] == [];
    assert Ticks(bars, None, lookback, spread) == BuildTicks(bars[0], spread);
  }

  /** A second run over the same export, at any later time, inserts nothing, whatever live ticks were
      stored between the first run's query and transaction and after it. */
  lemma RerunInsertsNothing(raw: seq<Quote>, during: seq<Quote>, bars: seq<Bar>, lookback: int, later: int, spread: int,
                            live: seq<Quote>)
    requires PositiveTimes(raw) && PositiveTimes(during) && PositiveTimes(live) && later >= lookback
    requires Newer(raw, during) && Newer(raw, live)
    ensures var now := raw + during + Inserted(StatsOf(raw), bars, lookback, spread) + live;
      Inserted(StatsOf(now), bars, later, spread) == []
  {
    var first := Inserted(StatsOf(raw), bars, lookback, spread);
    var now := raw + during + first + live;
    StoredThen(raw, during, bars, lookback, spread, live);
    hide Wanted, BuildTicks, Ticks, PositiveTimes, Newer;
    if NeedsBootstrap(StatsOf(now), later) && Ticks(bars, Earliest(now), later, spread) != [] {
      TicksComeFromBars(bars, Earliest(now), later, spread, 0);
      var i :| 0 <= i < |bars| && Wanted(bars[i], Earliest(now), later)
               && Ticks(bars, Earliest(now), later, spread)[0] in BuildTicks(bars[i], spread);
      if NeedsBootstrap(StatsOf(raw), lookback) {
        NoBarTwice(raw, bars, lookback, later, spread, now, i);
      } else {
        NewerBoth(raw, during, live);
        assert now == raw + (during + live);
        StillEnough(raw, during + live, lookback, later);
      }
    }
  }

  lemma StoredThen(raw: seq<Quote>, during: seq<Quote>, bars: seq<Bar>, lookback: int, spread: int, live: seq<Quote>)
    requires PositiveTimes(raw) && PositiveTimes(during) && PositiveTimes(live)
    ensures var first := Inserted(StatsOf(raw), bars, lookback, spread);
      var now := raw + during + first + live;
      PositiveTimes(now) && raw <= now && forall q :: q in first ==> q in now
  {
    var first := Inserted(StatsOf(raw), bars, lookback, spread);
    forall k | 0 <= k < |first| ensures first[k].at > 0 {
      InsertedIsOlder(raw, bars, lookback, spread, k);
    }
  }

  lemma NewerBoth(raw: seq<Quote>, during: seq<Quote>, live: seq<Quote>)
    requires Newer(raw, during) && Newer(raw, live)
    ensures Newer(raw, during + live)
  {
  }

  /** A usable bar that would still be wanted was inserted the first time, and so is not wanted. */
  lemma NoBarTwice(raw: seq<Quote>, bars: seq<Bar>, lookback: int, later: int, spread: int, now: seq<Quote>, i: nat)
    requires NeedsBootstrap(StatsOf(raw), lookback) && later >= lookback && i < |bars| && BuildTicks(bars[i], spread) != []
    requires PositiveTimes(now) && raw <= now
    requires forall q :: q in Inserted(StatsOf(raw), bars, lookback, spread) ==> q in now
    ensures !Wanted(bars[i], Earliest(now), later)
  {
    if Wanted(bars[i], Earliest(now), later) {
      StillWanted(raw, now, bars[i], lookback, later);
      var q := BuildTicks(bars[i], spread)[0];
      WantedBarIsIn(bars, Earliest(raw), lookback, spread, i, q);
      EarliestMeans(now);
    }
  }

  /** A bar older than everything stored now was older than everything stored before. */
  lemma StillWanted(raw: seq<Quote>, now: seq<Quote>, bar: Bar, lookback: int, later: int)
    requires raw <= now && PositiveTimes(now) && later >= lookback && Wanted(bar, Earliest(now), later)
    ensures Wanted(bar, Earliest(raw), lookback)
  {
    EarliestMeans(raw);
    EarliestMeans(now);
    if raw != [] {
      var i :| 0 <= i < |raw| && raw[i].at == Earliest(raw).value;
      assert now[i] == raw[i];
    }
  }

  lemma StillEnough(raw: seq<Quote>, live: seq<Quote>, lookback: int, later: int)
    requires !NeedsBootstrap(StatsOf(raw), lookback) && later >= lookback && PositiveTimes(raw) && Newer(raw, live)
    ensures !NeedsBootstrap(StatsOf(raw + live), later)
  {
    EarliestMeans(raw);
    EarliestMeans(raw + live);
    var i :| 0 <= i < |raw| && raw[i].at == Earliest(raw).value;
    assert (raw + live)[i] == raw[i];
    var j :| 0 <= j < |raw + live| && (raw + live)[j].at == Earliest(raw + live).value;
    if j >= |raw| {
      assert (raw + live)[j] == live[j - |raw|];
    }
  }
}
