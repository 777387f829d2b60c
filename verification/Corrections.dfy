/** Re-ranking: what a correction after the end does to the stored ranks when the database may return
    the rows in another order than the last time. */
module Corrections {
  import opened Options
  import opened Capital
  import opened Sequences
  import opened Competitions
  import opened Finalisation
  import Ranking

  // ---------- Read orders ----------

  predicate Rankable(en: Entry) {
    en.status in {Competing, Ranked}
  }

  /** The rankable entries, in some order. */
  predicate IsReadOrder(c: Comp, order: seq<nat>) {
    && Known(c, order) && Distinct(order)
    && (forall e :: e in order ==> e < |c.entries| && Rankable(c.entries[e]))
    && (forall e :: 0 <= e < |c.entries| && Rankable(c.entries[e]) ==> e in order)
  }

  /** The stored ranks are those of the balances as they are now, for this read order. */
  predicate UpToDate(c: Comp, order: seq<nat>)
    requires Known(c, order)
  {
    forall p :: 0 <= p < |order| ==> c.entries[order[p]].rank == Some(Ranking.Rank(c.metric, Rows(c, order), p))
  }

  lemma ReadOrderIsOne(c: Comp, env: Env)
    ensures IsReadOrder(c, ReadOrder(c, env))
  {
  }

  function PositionOf(order: seq<nat>, e: nat): (p: nat)
    requires e in order
    ensures p < |order| && order[p] == e
  {
    if order[|order| - 1] == e then |order| - 1 else
      var i :| 0 <= i < |order| && order[i] == e;
      assert order[..|order| - 1][i] == e;
      PositionOf(order[..|order| - 1], e)
  }

  /** Where a row of one read order stands in another. */
  function Moves(here: seq<nat>, there: seq<nat>): nat -> nat {
    (p: nat) => if p < |here| && here[p] in there then PositionOf(there, here[p]) else p
  }

  lemma {:induction false} SameLength(here: seq<nat>, there: seq<nat>)
    requires Distinct(here) && Distinct(there)
    requires (forall e :: e in here ==> e in there) && (forall e :: e in there ==> e in here)
    ensures |here| == |there|
  {
    Ranking.DistinctCount(here);
    Ranking.DistinctCount(there);
    assert Ranking.SetOf(here) == Ranking.SetOf(there);
  }

  /** The rows of one read order are those of any other, rearranged. */
  lemma ReadOrdersRearrange(c: Comp, here: seq<nat>, there: seq<nat>)
    requires IsReadOrder(c, here) && IsReadOrder(c, there)
    ensures Ranking.Reordered(Rows(c, here), Rows(c, there), Moves(here, there))
    ensures forall p: nat :: p < |here| ==> Moves(here, there)(p) < |there| && there[Moves(here, there)(p)] == here[p]
  {
    assert forall p :: 0 <= p < |here| ==> here[p] in here;
    assert forall p :: 0 <= p < |there| ==> there[p] in there;
    SameLength(here, there);
  }

  // ---------- Re-ranking without a change ----------

  /** No two rankable entries tie. */
  predicate TieFree(c: Comp) {
    forall e, f :: 0 <= e < |c.entries| && 0 <= f < |c.entries| && e != f && Rankable(c.entries[e]) && Rankable(c.entries[f]) ==>
      !Ranking.Tied(c.metric, RowOf(c, e), RowOf(c, f))
  }

  lemma TieFreeRows(c: Comp, order: seq<nat>)
    requires IsReadOrder(c, order) && TieFree(c)
    ensures Ranking.NoTies(c.metric, Rows(c, order))
  {
    assert forall p :: 0 <= p < |order| ==> order[p] in order;
    hide Ranking.Tied;
  }

  /** What re-ranking writes to each entry. */
  lemma RerankedAt(c: Comp, env: Env, e: nat)
    requires e < |c.entries|
    ensures var order, en := ReadOrder(c, env), Reranked(c, env).entries[e];
      if e in order then en == Stamp(c.entries[e], LineFor(c, order, PositionOf(order, e)), false)
      else en == c.entries[e]
  {
    hide Board, Stamped, LineFor, ReadOrder;
    var order, board := ReadOrder(c, env), Board(c, env);
    if e in order {
      BoardStampsRanks(c, env, false, PositionOf(order, e));
    } else {
      BoardCovers(c, env);
      StampedAt(c, board, |board|, false);
      assert forall i :: 0 <= i < |board| ==> board[i].entry in order;
    }
  }

  lemma RerankUpToDate(c: Comp, env: Env)
    ensures var r := Reranked(c, env);
      && IsReadOrder(r, ReadOrder(c, env)) && UpToDate(r, ReadOrder(c, env))
      && r.metric == c.metric && |r.entries| == |c.entries|
      && forall e :: 0 <= e < |c.entries| ==>
           r.entries[e].account == c.entries[e].account && r.entries[e].status == c.entries[e].status
  {
    var order, board := ReadOrder(c, env), Board(c, env);
    BoardCovers(c, env);
    StampedFrame(c, board, |board|, false);
    var r := Reranked(c, env);
    assert Rows(r, order) == Rows(c, order);
    forall p | 0 <= p < |order| ensures r.entries[order[p]].rank == Some(Ranking.Rank(c.metric, Rows(c, order), p)) {
      BoardStampsRanks(c, env, false, p);
    }
  }

  /** Without ties, re-ranking up-to-date entries writes the ranks that are there, whatever orders the
      rows were read in then and are read in now. */
  lemma RerankUnchanged(c: Comp, order: seq<nat>, env: Env, e: nat)
    requires e < |c.entries| && IsReadOrder(c, order) && UpToDate(c, order) && TieFree(c)
    ensures Reranked(c, env).entries[e].rank == c.entries[e].rank
  {
    var now := ReadOrder(c, env);
    ReadOrderIsOne(c, env);
    RerankedAt(c, env, e);
    TieFreeRows(c, order);
    hide ReadOrder, Reranked, Ranking.Rank, TieFree, Ranking.NoTies, Ranking.Reordered;
    if e in now {
      ReadOrdersRearrange(c, order, now);
      var p := PositionOf(order, e);
      Ranking.RowOrderIrrelevantWithoutTies(c.metric, Rows(c, order), Rows(c, now), Moves(order, now), p);
      assert Moves(order, now)(p) == PositionOf(now, e);
    }
  }

  lemma RerankAgrees(c: Comp, env: Env, other: Env)
    requires TieFree(c)
    ensures Reranked(c, env).entries == Reranked(c, other).entries
  {
    var a, b := Reranked(c, env).entries, Reranked(c, other).entries;
    RerankUpToDate(c, env);
    RerankUpToDate(c, other);
    hide Reranked, TieFree;
    forall e: nat | e < |c.entries| ensures a[e] == b[e] {
      AgreesAt(c, env, other, e);
    }
  }

  lemma AgreesAt(c: Comp, env: Env, other: Env, e: nat)
    requires TieFree(c) && e < |c.entries|
    ensures |Reranked(c, env).entries| == |Reranked(c, other).entries| == |c.entries|
    ensures Reranked(c, env).entries[e] == Reranked(c, other).entries[e]
  {
    var here, there := ReadOrder(c, env), ReadOrder(c, other);
    ReadOrderIsOne(c, env);
    ReadOrderIsOne(c, other);
    RerankedAt(c, env, e);
    RerankedAt(c, other, e);
    TieFreeRows(c, here);
    hide ReadOrder, Reranked, Ranking.Rank, TieFree, Ranking.NoTies, Ranking.Reordered;
    if e in here {
      ReadOrdersRearrange(c, here, there);
      var p := PositionOf(here, e);
      Ranking.RowOrderIrrelevantWithoutTies(c.metric, Rows(c, here), Rows(c, there), Moves(here, there), p);
      assert Moves(here, there)(p) == PositionOf(there, e);
    }
  }

  // ---------- With a tie ----------

  function Exchanged(list: seq<nat>, p: nat, q: nat): seq<nat> {
    if p < |list| && q < |list| then list[p := list[q]][q := list[p]] else list
  }

  function Reading(shuffle: seq<nat> -> seq<nat>): Env {
    Env(true, true, (_: Trade) => Unpriced, (_: nat) => false, shuffle, (_: nat, _: nat) => 0)
  }

  function AsListed(): Env {
    Reading(list => list)
  }

  function WithExchange(p: nat, q: nat): Env {
    Reading(list => Exchanged(list, p, q))
  }

  lemma ExchangedIsSameRows(list: seq<nat>, p: nat, q: nat)
    requires Distinct(list) && p < q < |list|
    ensures SameRows(Exchanged(list, p, q), list) && SameRows(list, list)
  {
    var r := Exchanged(list, p, q);
    forall e | e in list ensures e in r {
      var i :| 0 <= i < |list| && list[i] == e;
      assert r[if i == p then q else if i == q then p else i] == e;
    }
  }

  /** The two entries at these places of the table are read in opposite orders. */
  lemma TwoReadOrders(c: Comp, p: nat, q: nat)
    requires p < q < |Select(c.entries, {Competing, Ranked})|
    ensures var list := Select(c.entries, {Competing, Ranked});
      ReadOrder(c, AsListed()) == list && ReadOrder(c, WithExchange(p, q)) == Exchanged(list, p, q)
  {
    ExchangedIsSameRows(Select(c.entries, {Competing, Ranked}), p, q);
  }

  lemma TieDisagrees(c: Comp, p: nat, q: nat)
    requires p < q < |ReadOrder(c, AsListed())|
    requires Ranking.Tied(c.metric, Rows(c, ReadOrder(c, AsListed()))[p], Rows(c, ReadOrder(c, AsListed()))[q])
    requires ReadOrder(c, WithExchange(p, q)) == Exchanged(ReadOrder(c, AsListed()), p, q)
    ensures Reranked(c, AsListed()).entries != Reranked(c, WithExchange(p, q)).entries
  {
    var here, there := ReadOrder(c, AsListed()), ReadOrder(c, WithExchange(p, q));
    var rows := Rows(c, here);
    assert Rows(c, there) == rows[p := rows[q]][q := rows[p]];
    Ranking.TiesDependOnRowOrder(c.metric, rows, p, q);
    BoardStampsRanks(c, AsListed(), false, p);
    BoardStampsRanks(c, AsListed(), false, q);
    BoardStampsRanks(c, WithExchange(p, q), false, p);
    BoardStampsRanks(c, WithExchange(p, q), false, q);
    hide ReadOrder, Board, Stamped, Ranking.Rank, Rows, AsListed, WithExchange;
    assert there[p] == here[q] && there[q] == here[p];
  }

  /** The ranks a re-rank writes are the same for any two orders in which the database returns the rows
      if and only if no two rankable entries tie. */
  lemma RerankIsDeterminedIff(c: Comp)
    ensures (forall env: Env, other: Env :: Reranked(c, env).entries == Reranked(c, other).entries) <==> TieFree(c)
  {
    hide Reranked, TieFree;
    if TieFree(c) {
      forall env: Env, other: Env ensures Reranked(c, env).entries == Reranked(c, other).entries {
        RerankAgrees(c, env, other);
      }
    } else {
      var env, other := TieIsVisible(c);
    }
  }

  lemma TieIsVisible(c: Comp) returns (env: Env, other: Env)
    requires !TieFree(c)
    ensures Reranked(c, env).entries != Reranked(c, other).entries
  {
    hide Reranked, Select, ReadOrder, Ranking.Better, Exchanged, AsListed, WithExchange;
    var e: nat, f: nat :| e < |c.entries| && f < |c.entries| && e != f && Rankable(c.entries[e]) && Rankable(c.entries[f])
                          && Ranking.Tied(c.metric, RowOf(c, e), RowOf(c, f));
    var list := Select(c.entries, {Competing, Ranked});
    assert e in list && f in list;
    var p, q := PositionOf(list, e), PositionOf(list, f);
    var lo, hi := if p < q then p else q, if p < q then q else p;
    TwoReadOrders(c, lo, hi);
    env, other := AsListed(), WithExchange(lo, hi);
    TieDisagrees(c, lo, hi);
  }

  // ---------- Corrections ----------

  /** The rows of `r` are those of `c` with one balance moved. */
  predicate RowMoved(c: Comp, r: Comp, e: nat, amount: int)
    requires e < |c.entries|
  {
    |r.entries| == |c.entries| && forall x :: 0 <= x < |c.entries| ==>
      RowOf(r, x) == if x == e then RowOf(c, e).(balance := RowOf(c, e).balance + amount) else RowOf(c, x)
  }

  /** A correction after completion leaves the ranks up to date, for the order in which it read. */
  lemma CorrectionReranks(c: Comp, e: nat, amount: int, env: Env)
    requires c.phase == Completed && e < |c.entries| && amount != 0
    ensures var r, order := Corrected(c, e, amount, env), ReadOrder(c, env);
      && IsReadOrder(r, order) && UpToDate(r, order) && r.metric == c.metric && RowMoved(c, r, e, amount)
  {
    var d := WithAccount(c, e, Adjusted(c.entries[e].account, amount, CheatCorrection));
    SelectSame(c.entries, d.entries, {Competing, Ranked});
    assert ReadOrder(d, env) == ReadOrder(c, env);
    RerankUpToDate(d, env);
  }

  /** A correction of a running or completed competition books exactly one row of the amount on one account;
      any other, and one of nothing, changes nothing. Before completion no rank moves. */
  lemma CorrectionBooks(c: Comp, e: nat, amount: int, env: Env)
    ensures var r := Next(c, CorrectBalance(e, amount, env));
      if c.phase in {Upcoming, CalledOff} || e >= |c.entries| || amount == 0 then r == c
      else
        && r == c.(entries := r.entries) && |r.entries| == |c.entries|
        && (forall x :: 0 <= x < |c.entries| ==>
             && r.entries[x].status == c.entries[x].status
             && (x != e ==> r.entries[x].account == c.entries[x].account)
             && (c.phase == Running ==> r.entries[x].rank == c.entries[x].rank))
        && var was, now := c.entries[e].account, r.entries[e].account;
           && now.balance == was.balance + amount && now.trades == was.trades && now.status == was.status
           && now.ledger == was.ledger + [LedgerRow(amount, CheatCorrection, was.balance, now.balance)]
  {
    hide Board, Stamped;
    if c.phase == Completed && e < |c.entries| {
      var d := WithAccount(c, e, Adjusted(c.entries[e].account, amount, CheatCorrection));
      BoardCovers(d, env);
      StampedFrame(d, Board(d, env), |Board(d, env)|, false);
    }
  }

  function RankOf(c: Comp, e: nat): nat
    requires e < |c.entries|
  {
    if c.entries[e].rank.Some? then c.entries[e].rank.value else 0
  }

  lemma RankAt(c: Comp, order: seq<nat>, e: nat)
    requires IsReadOrder(c, order) && UpToDate(c, order) && e in order
    ensures e < |c.entries| && RankOf(c, e) == Ranking.Rank(c.metric, Rows(c, order), PositionOf(order, e))
  {
  }

  /** The order in which two entries are listed. */
  predicate ListedBefore(order: seq<nat>, e: nat, f: nat)
    requires e in order && f in order
  {
    PositionOf(order, e) < PositionOf(order, f)
  }

  /** A credit to one entry of a completed competition never worsens its rank, in whatever orders the
      rows are read before and after. */
  lemma CreditNeverWorsens(c: Comp, order: seq<nat>, e: nat, amount: int, env: Env)
    requires c.phase == Completed && amount > 0 && IsReadOrder(c, order) && UpToDate(c, order) && e in order
    ensures e < |c.entries| == |Corrected(c, e, amount, env).entries|
    ensures RankOf(Corrected(c, e, amount, env), e) <= RankOf(c, e)
  {
    var r, now := Corrected(c, e, amount, env), ReadOrder(c, env);
    RankAt(c, order, e);
    hide Corrected, ReadOrder, UpToDate, RankOf, Ranking.Rank, IsReadOrder, RowMoved;
    CorrectionReranks(c, e, amount, env);
    ReadOrderIsOne(c, env);
    MovedSize(c, r, e, amount);
    SameElements(c, order, now);
    RankAt(r, now, e);
    RaisedRank(c, r, order, now, e, amount);
  }

  lemma RaisedRank(c: Comp, r: Comp, here: seq<nat>, there: seq<nat>, e: nat, amount: int)
    requires IsReadOrder(c, here) && IsReadOrder(c, there) && IsReadOrder(r, there) && amount > 0
    requires e in here && e in there && e < |c.entries| && RowMoved(c, r, e, amount)
    ensures Known(c, here) && Known(r, there)
    ensures Ranking.Rank(c.metric, Rows(r, there), PositionOf(there, e)) <= Ranking.Rank(c.metric, Rows(c, here), PositionOf(here, e))
  {
    var k, rows := PositionOf(here, e), Rows(c, here);
    hide IsReadOrder, Rows, RowOf, Ranking.Reordered, Moves, RowMoved, Ranking.Rank, PositionOf;
    RaisedRows(c, r, here, there, e, amount);
    Ranking.RaisingNeverWorsens(c.metric, rows, Rows(r, there), Moves(here, there), k, rows[k].balance + amount);
    MovesTo(here, there, e);
  }

  lemma MovedSize(c: Comp, r: Comp, e: nat, amount: int)
    requires e < |c.entries| && RowMoved(c, r, e, amount)
    ensures |r.entries| == |c.entries|
  {
  }

  lemma MovesTo(here: seq<nat>, there: seq<nat>, e: nat)
    requires e in here && e in there
    ensures Moves(here, there)(PositionOf(here, e)) == PositionOf(there, e)
  {
  }

  lemma SameElements(c: Comp, here: seq<nat>, there: seq<nat>)
    requires IsReadOrder(c, here) && IsReadOrder(c, there)
    ensures forall e :: e in here <==> e in there
  {
  }

  lemma RaisedRows(c: Comp, r: Comp, here: seq<nat>, there: seq<nat>, e: nat, amount: int)
    requires IsReadOrder(c, here) && IsReadOrder(c, there) && IsReadOrder(r, there)
    requires e in here && e < |c.entries| && RowMoved(c, r, e, amount)
    ensures var rows, k := Rows(c, here), PositionOf(here, e);
      Ranking.Reordered(rows[k := rows[k].(balance := rows[k].balance + amount)], Rows(r, there), Moves(here, there))
  {
    ReadOrdersRearrange(c, here, there);
    var rows, k := Rows(c, here), PositionOf(here, e);
    var raised := rows[k := rows[k].(balance := rows[k].balance + amount)];
    hide Moves, Rows, RowOf, RowMoved, PositionOf, Known, IsReadOrder, Distinct;
    OrderIsKnown(c, here);
    OrderIsKnown(r, there);
    forall p: nat | p < |here| ensures Rows(r, there)[Moves(here, there)(p)] == raised[p] {
      RaisedRowAt(c, r, here, there, e, amount, p, Moves(here, there)(p));
    }
  }

  lemma OrderIsKnown(c: Comp, order: seq<nat>)
    requires IsReadOrder(c, order)
    ensures Known(c, order) && Distinct(order)
  {
  }

  lemma RaisedRowAt(c: Comp, r: Comp, here: seq<nat>, there: seq<nat>, e: nat, amount: int, p: nat, q: nat)
    requires Known(c, here) && Distinct(here) && Known(r, there) && e in here && p < |here| && q < |there| && there[q] == here[p]
    requires e < |c.entries| && RowMoved(c, r, e, amount)
    ensures var rows, k := Rows(c, here), PositionOf(here, e);
      Rows(r, there)[q] == rows[k := rows[k].(balance := rows[k].balance + amount)][p]
  {
    hide RowOf;
    var k := PositionOf(here, e);
    assert here[p] == e ==> p == k;
  }

  /** It leaves two other entries as they stood to each other if and only if they do not tie or are read
      in the same order both times. */
  lemma CreditReordersOthersIff(c: Comp, order: seq<nat>, e: nat, amount: int, env: Env, x: nat, y: nat)
    requires c.phase == Completed && amount != 0 && IsReadOrder(c, order) && UpToDate(c, order) && e in order
    requires x in order && y in order && x != y && x != e && y != e
    ensures x < |c.entries| == |Corrected(c, e, amount, env).entries| && y < |c.entries| && e < |c.entries|
    ensures x in ReadOrder(c, env) && y in ReadOrder(c, env)
    ensures var r := Corrected(c, e, amount, env);
      ((RankOf(c, x) < RankOf(c, y)) == (RankOf(r, x) < RankOf(r, y)))
      <==> (!Ranking.Tied(c.metric, RowOf(c, x), RowOf(c, y))
            || ListedBefore(order, x, y) == ListedBefore(ReadOrder(c, env), x, y))
  {
    hide Corrected, ReadOrder, UpToDate, RankOf, Ranking.Rank, Ranking.Better, IsReadOrder, Rows, RowMoved;
    RankAt(c, order, e);
    var r, now := Corrected(c, e, amount, env), ReadOrder(c, env);
    CorrectionReranks(c, e, amount, env);
    ReadOrderIsOne(c, env);
    SameElements(c, order, now);
    RankAt(c, order, x);
    RankAt(c, order, y);
    RankAt(r, now, x);
    RankAt(r, now, y);
    PairMoved(c, r, order, now, e, amount, x, y);
  }

  lemma PairMoved(c: Comp, r: Comp, here: seq<nat>, there: seq<nat>, e: nat, amount: int, x: nat, y: nat)
    requires IsReadOrder(c, here) && IsReadOrder(c, there) && IsReadOrder(r, there) && r.metric == c.metric
    requires e < |c.entries| && RowMoved(c, r, e, amount)
    requires x in here && y in here && x in there && y in there && x != y && x != e && y != e
    requires x < |c.entries| && y < |c.entries|
    ensures Known(c, here) && Known(r, there)
    ensures ((Ranking.Rank(c.metric, Rows(c, here), PositionOf(here, x)) < Ranking.Rank(c.metric, Rows(c, here), PositionOf(here, y)))
             == (Ranking.Rank(c.metric, Rows(r, there), PositionOf(there, x)) < Ranking.Rank(c.metric, Rows(r, there), PositionOf(there, y))))
      <==> (!Ranking.Tied(c.metric, RowOf(c, x), RowOf(c, y)) || ListedBefore(here, x, y) == ListedBefore(there, x, y))
  {
    hide Ranking.Rank, Ranking.Better;
    ReadOrdersRearrange(c, here, there);
    Ranking.PairAgreesIff(c.metric, Rows(c, here), Rows(r, there), Moves(here, there), PositionOf(here, x), PositionOf(here, y));
  }

  // ---------- Where up-to-date ranks come from ----------

  /** A closing tick that goes through leaves the ranks up to date, for the order in which it read. */
  lemma ClosingTickIsUpToDate(c: Comp, env: Env, left: nat)
    requires Closes(c, env) && Tick(c, env, left).Alive? && c.vouchers == []
    ensures var r, order := Tick(c, env, left).comp, ReadOrder(ClosedAll(Starting(c, env), env), env);
      IsReadOrder(r, order) && UpToDate(r, order)
  {
    hide Tick, Starting, Standings, ReadOrder, Ranking.Rank, Closes, UpToDate, ClosedAll;
    var b := Starting(c, env);
    var r, f, order := Tick(c, env, left).comp, Standings(b, env), ReadOrder(ClosedAll(b, env), env);
    ClosingTick(c, env, left);
    StandingsUpToDate(b, env);
    KeptMetric(c, env, left);
    SameRanks(f, r, order);
  }

  lemma SameRanks(f: Comp, r: Comp, order: seq<nat>)
    requires r.entries == f.entries && r.metric == f.metric && IsReadOrder(f, order) && UpToDate(f, order)
    ensures IsReadOrder(r, order) && UpToDate(r, order)
  {
    hide Ranking.Rank;
    assert Rows(r, order) == Rows(f, order);
  }

  lemma KeptMetric(c: Comp, env: Env, left: nat)
    requires Closes(c, env) && Tick(c, env, left).Alive?
    ensures Tick(c, env, left).comp.metric == Standings(Starting(c, env), env).metric
  {
    hide Tick, Standings, Starting;
    var m := AliveTick(c, env, left);
    var f := Standings(Starting(c, env), env);
    IssueFrame(f, Listed(f, {Ranked}, env), env, m);
  }

  lemma StandingsUpToDate(b: Comp, env: Env)
    ensures var f, order := Standings(b, env), ReadOrder(ClosedAll(b, env), env);
      IsReadOrder(f, order) && UpToDate(f, order)
  {
    var d := ClosedAll(b, env);
    var f, order := Standings(b, env), ReadOrder(d, env);
    PartlyWritten(d, env, |Board(d, env)|);
    assert f.metric == b.metric && Known(f, order);
    forall p | 0 <= p < |order| ensures f.entries[order[p]].rank == Some(Ranking.Rank(f.metric, Rows(f, order), p)) {
      StandingsRanks(b, env, p);
    }
  }
}
