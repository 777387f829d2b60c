/** The MT5 export: bars expanded to synthetic ticks, and the backfill that stores them. */
module PriceHistory {
  import opened Arithmetic
  import opened Options
  import H = HourlyRollup

  /** One exported bar. A None is a field that does not parse to a finite number; prices are in
      points. */
  datatype Bar = Bar(t: Option<real>, o: Option<int>, h: Option<int>, l: Option<int>, c: Option<int>, s: Option<int>)

  /** A row of price_feed_history for one instrument. */
  datatype Quote = Quote(bid: int, ask: int, at: int)

  const SECOND := 1000
  const MINUTE := 60000

  /** parseMt5ExportTimestampMs: seconds, or already milliseconds when above 10^12. */
  function ParseTimestampMs(value: Option<real>): (r: Option<int>)
    ensures r.Some? ==> r.value >= 0
  {
    if value.None? || value.value <= 0.0 then None
    else if value.value > 1000000000000.0 then Some(value.value.Floor)
    else Some((value.value * 1000.0).Floor)
  }

  /** A timestamp of whole seconds since 1970, or the same instant in milliseconds, is read as that
      instant, up to the year 33658. */
  lemma TimestampUnits(seconds: int)
    requires 1000000000 < seconds <= 1000000000000
    ensures ParseTimestampMs(Some(seconds as real)) == ParseTimestampMs(Some(seconds as real * 1000.0)) == Some(seconds * 1000)
  {
  }

  /** Only a positive number is a time at all. */
  lemma TimestampNone(value: Option<real>)
    ensures ParseTimestampMs(value).None? <==> value.None? || value.value <= 0.0
  {
  }

  /** A bar is usable when its time is not zero and all four prices parse. */
  predicate Usable(bar: Bar) {
    && ParseTimestampMs(bar.t).Some? && ParseTimestampMs(bar.t).value != 0
    && bar.o.Some? && bar.h.Some? && bar.l.Some? && bar.c.Some?
  }

  /** buildMt5HistoryTicks. */
  function BuildTicks(bar: Bar, fallbackSpread: int): seq<Quote> {
    if !Usable(bar) then []
    else
      var time := ParseTimestampMs(bar.t).value;
      var spread := if bar.s.Some? then bar.s.value else fallbackSpread;
      [Quote(bar.o.value, bar.o.value + spread, time),
       Quote(bar.h.value, bar.h.value + spread, time + 15 * SECOND),
       Quote(bar.l.value, bar.l.value + spread, time + 30 * SECOND),
       Quote(bar.c.value, bar.c.value + spread, time + 59 * SECOND)]
  }

  /** Every quote of a bar lies in its minute, bids one of its four prices at its place in the minute, and
      asks the bar's own spread more, or the instrument's where the bar has none. */
  lemma QuoteOfBar(bar: Bar, fallbackSpread: int, q: Quote)
    ensures q in BuildTicks(bar, fallbackSpread) <==>
      && Usable(bar)
      && q.ask - q.bid == (if bar.s.Some? then bar.s.value else fallbackSpread)
      && var offset := q.at - ParseTimestampMs(bar.t).value;
         || (offset == 0 && bar.o == Some(q.bid)) || (offset == 15000 && bar.h == Some(q.bid))
         || (offset == 30000 && bar.l == Some(q.bid)) || (offset == 59000 && bar.c == Some(q.bid))
  {
  }

  // ---------- Expanding bars and rolling them up again ----------

  /** A usable bar's numbers. */
  datatype Ohlc = Ohlc(at: int, open: int, high: int, low: int, close: int)

  function OhlcOf(bar: Bar): Ohlc
    requires Usable(bar)
  {
    Ohlc(ParseTimestampMs(bar.t).value, bar.o.value, bar.h.value, bar.l.value, bar.c.value)
  }

  /** Minute-aligned, with low <= open, close <= high. */
  predicate WellFormed(b: Ohlc) {
    b.at % MINUTE == 0 && b.low <= b.open <= b.high && b.low <= b.close <= b.high
  }

  predicate WellFormedSeries(bars: seq<Bar>) {
    && (forall i :: 0 <= i < |bars| ==> Usable(bars[i]) && WellFormed(OhlcOf(bars[i])))
    && (forall i, j :: 0 <= i < j < |bars| ==> MinuteApart(bars[i], bars[j]))
  }

  predicate MinuteApart(earlier: Bar, later: Bar)
    requires Usable(earlier) && Usable(later)
  {
    OhlcOf(earlier).at + MINUTE <= OhlcOf(later).at
  }

  /** The bids of a series of quotes, as raw ticks of the hourly roll-up. */
  function Raw(quotes: seq<Quote>): (ts: seq<H.Tick>)
    ensures |ts| == |quotes|
    ensures forall i :: 0 <= i < |quotes| ==> ts[i] == H.Tick(quotes[i].bid, quotes[i].at)
  {
    seq(|quotes|, i requires 0 <= i < |quotes| => H.Tick(quotes[i].bid, quotes[i].at))
  }

  function Expanded(bars: seq<Bar>, spread: int): seq<Quote> {
    if bars == [] then [] else Expanded(bars[..|bars| - 1], spread) + BuildTicks(bars[|bars| - 1], spread)
  }

  function BarsOfHour(bars: seq<Bar>, h: int): (r: seq<Bar>)
    requires forall i :: 0 <= i < |bars| ==> Usable(bars[i])
    ensures forall i :: 0 <= i < |r| ==> Usable(r[i]) && r[i] in bars
  {
    if bars == [] then []
    else
      var n := |bars| - 1;
      BarsOfHour(bars[..n], h) + if H.HourOf(OhlcOf(bars[n]).at) == h then [bars[n]] else []
  }

  /** First open, highest high, lowest low, last close, four ticks a bar. */
  function RolledUp(bars: seq<Bar>): H.Bucket
    requires bars != [] && forall i :: 0 <= i < |bars| ==> Usable(bars[i])
  {
    var n := |bars| - 1;
    var b := OhlcOf(bars[n]);
    if n == 0 then H.Bucket(b.open, b.high, b.low, b.close, 4)
    else
      var f := RolledUp(bars[..n]);
      H.Bucket(f.open, Max(f.high, b.high), Min(f.low, b.low), b.close, f.ticks + 4)
  }

  lemma {:induction false} RolledUpMeans(bars: seq<Bar>)
    requires bars != [] && forall i :: 0 <= i < |bars| ==> Usable(bars[i])
    ensures var r := RolledUp(bars);
      && r.open == bars[0].o.value && r.close == bars[|bars| - 1].c.value && r.ticks == 4 * |bars|
      && (forall i :: 0 <= i < |bars| ==> bars[i].h.value <= r.high && r.low <= bars[i].l.value)
      && (exists i :: 0 <= i < |bars| && bars[i].h.value == r.high)
      && (exists i :: 0 <= i < |bars| && bars[i].l.value == r.low)
  {
    var n := |bars| - 1;
    if n > 0 {
      RolledUpMeans(bars[..n]);
      var r, f := RolledUp(bars), RolledUp(bars[..n]);
      var i :| 0 <= i < n && bars[..n][i].h.value == f.high;
      var j :| 0 <= j < n && bars[..n][j].l.value == f.low;
      assert bars[if r.high == f.high then i else n].h.value == r.high;
      assert bars[if r.low == f.low then j else n].l.value == r.low;
    }
  }

  /** The times of a bar's ticks stay inside its minute, hence inside its hour. */
  lemma TicksStayInHour(at: int, offset: int)
    requires at % MINUTE == 0 && 0 <= offset < MINUTE
    ensures H.HourOf(at + offset) == H.HourOf(at)
  {
    var m := at / MINUTE;
    assert at == m * MINUTE;
    assert H.HourOf(at) == m / 60;
    assert (at + offset) / H.HOUR == m / 60;
  }

  function BarTicks(b: Ohlc): seq<H.Tick> {
    [H.Tick(b.open, b.at), H.Tick(b.high, b.at + 15 * SECOND), H.Tick(b.low, b.at + 30 * SECOND), H.Tick(b.close, b.at + 59 * SECOND)]
  }

  /** Four upserts of one well-formed bar. */
  lemma BarSummaryStep(front: seq<H.Tick>, f: H.Bucket, b: Ohlc)
    requires H.IsSummary(front, f) && WellFormed(b)
    requires forall i :: 0 <= i < |front| ==> front[i].at <= b.at
    ensures H.IsSummary(front + BarTicks(b), H.Bucket(f.open, Max(f.high, b.high), Min(f.low, b.low), b.close, f.ticks + 4))
  {
    hide H.IsSummary;
    var ts := BarTicks(b);
    var f0 := H.Upserted(Some(f), ts[0].bid);
    var f1 := H.Upserted(Some(f0), ts[1].bid);
    var f2 := H.Upserted(Some(f1), ts[2].bid);
    H.SummaryStep(front, f, ts[0]);
    H.SummaryStep(front + [ts[0]], f0, ts[1]);
    H.SummaryStep(front + [ts[0]] + [ts[1]], f1, ts[2]);
    H.SummaryStep(front + [ts[0]] + [ts[1]] + [ts[2]], f2, ts[3]);
    assert front + [ts[0]] + [ts[1]] + [ts[2]] + [ts[3]] == front + ts;
  }

  lemma OneBarSummary(b: Ohlc)
    requires WellFormed(b)
    ensures H.IsSummary(BarTicks(b), H.Bucket(b.open, b.high, b.low, b.close, 4))
  {
    var ts := BarTicks(b);
    assert ts[0].bid == b.open && H.IsFirst(ts, 0);
    assert ts[1].bid == b.high && ts[2].bid == b.low;
    assert ts[3].bid == b.close && H.IsLast(ts, 3);
  }

  lemma RawExpanded(bars: seq<Bar>, spread: int)
    requires bars != [] && Usable(bars[|bars| - 1])
    ensures Raw(Expanded(bars, spread)) == Raw(Expanded(bars[..|bars| - 1], spread)) + BarTicks(OhlcOf(bars[|bars| - 1]))
  {
  }

  /** All ticks of a series lie between its first bar and the end of its last bar's minute, and no two
      share a time. */
  lemma {:induction false} ExpandedTimes(bars: seq<Bar>, spread: int)
    requires WellFormedSeries(bars)
    ensures var ts := Raw(Expanded(bars, spread));
      && H.DistinctTimes(ts)
      && forall i :: 0 <= i < |ts| ==> bars != [] && ts[i].at < OhlcOf(bars[|bars| - 1]).at + MINUTE
  {
    if bars != [] {
      var n := |bars| - 1;
      ExpandedTimes(bars[..n], spread);
      RawExpanded(bars, spread);
    }
  }

  lemma {:induction false} ExpandedSummary(bars: seq<Bar>, spread: int)
    requires WellFormedSeries(bars) && bars != []
    ensures H.IsSummary(Raw(Expanded(bars, spread)), RolledUp(bars))
  {
    hide H.IsSummary;
    var n := |bars| - 1;
    var b := OhlcOf(bars[n]);
    RawExpanded(bars, spread);
    if n == 0 {
      OneBarSummary(b);
      assert Raw(Expanded(bars[..0], spread)) == [];
      assert Raw(Expanded(bars, spread)) == BarTicks(b);
    } else {
      ExpandedSummary(bars[..n], spread);
      ExpandedTimes(bars[..n], spread);
      assert MinuteApart(bars[n - 1], bars[n]);
      BarSummaryStep(Raw(Expanded(bars[..n], spread)), RolledUp(bars[..n]), b);
    }
  }

  lemma {:induction false} AllInOneHour(ts: seq<H.Tick>, x: int, h: int)
    requires forall i :: 0 <= i < |ts| ==> H.HourOf(ts[i].at) == x
    ensures H.InHour(ts, h) == if x == h then ts else []
  {
    if ts != [] {
      var n := |ts| - 1;
      AllInOneHour(ts[..n], x, h);
      assert ts == ts[..n] + [ts[n]];
    }
  }

  lemma BarTicksInHour(b: Ohlc, h: int)
    requires WellFormed(b)
    ensures H.InHour(BarTicks(b), h) == if H.HourOf(b.at) == h then BarTicks(b) else []
  {
    var ts := BarTicks(b);
    forall i | 0 <= i < |ts| ensures H.HourOf(ts[i].at) == H.HourOf(b.at) {
      TicksStayInHour(b.at, ts[i].at - b.at);
    }
    AllInOneHour(ts, H.HourOf(b.at), h);
  }

  lemma {:induction false} HourIsSeries(bars: seq<Bar>, h: int)
    requires WellFormedSeries(bars)
    ensures WellFormedSeries(BarsOfHour(bars, h))
  {
    hide ParseTimestampMs, WellFormed, H.HourOf, MinuteApart;
    if bars != [] {
      var n := |bars| - 1;
      var front := BarsOfHour(bars[..n], h);
      HourIsSeries(bars[..n], h);
      forall i | 0 <= i < |front| ensures MinuteApart(front[i], bars[n]) {
        var j :| 0 <= j < n && bars[..n][j] == front[i];
        assert bars[j] == front[i];
      }
    }
  }

  lemma {:induction false} HourOfExpanded(bars: seq<Bar>, spread: int, h: int)
    requires WellFormedSeries(bars)
    ensures H.InHour(Raw(Expanded(bars, spread)), h) == Raw(Expanded(BarsOfHour(bars, h), spread))
  {
    hide H.HourOf, ParseTimestampMs, WellFormed;
    if bars == [] {
      assert Raw(Expanded(bars, spread)) == [];
    } else {
      var n := |bars| - 1;
      var front, b := BarsOfHour(bars[..n], h), bars[n];
      HourOfExpanded(bars[..n], spread, h);
      RawExpanded(bars, spread);
      H.InHourAppend(Raw(Expanded(bars[..n], spread)), BarTicks(OhlcOf(b)), h);
      BarTicksInHour(OhlcOf(b), h);
      if H.HourOf(OhlcOf(b).at) == h {
        assert (front + [b])[..|front|] == front;
        RawExpanded(front + [b], spread);
      } else {
        assert BarsOfHour(bars, h) == front;
      }
    }
  }

  /** Bar round trip: whatever well-formed series of bars is expanded to ticks and rolled up by hour,
      each hour's bucket has the first open, the highest high, the lowest low and the last close of
      that hour's bars (see RolledUpMeans), and four ticks a bar. */
  lemma BarRoundTrip(bars: seq<Bar>, spread: int, h: int, b: H.Bucket)
    requires WellFormedSeries(bars)
    requires H.IsSummary(H.InHour(Raw(Expanded(bars, spread)), h), b)
    ensures BarsOfHour(bars, h) != [] && b == RolledUp(BarsOfHour(bars, h))
  {
    var hour := BarsOfHour(bars, h);
    HourOfExpanded(bars, spread, h);
    HourIsSeries(bars, h);
    assert hour != [];
    ExpandedSummary(hour, spread);
    ExpandedTimes(hour, spread);
    H.SummaryIsUnique(Raw(Expanded(hour, spread)), b, RolledUp(hour));
  }
}
