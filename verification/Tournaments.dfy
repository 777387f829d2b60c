/** Small competitions, one for each way in which closing, retrying or correcting one goes wrong. */
module Tournaments {
  import opened Options
  import opened Capital
  import opened Competitions
  import opened Finalisation
  import opened LostVouchers
  import opened Retries
  import Corrections
  import Ranking

  function Tournament(): Comp {
    Comp(Running, Ranking.ByProfitUsd, map[1 := true], [Joined(10000, 10.0, None)], [], {})
  }

  function Deadline(): Env {
    Env(true, true, (_: Trade) => Unpriced, (_: nat) => false, (list: seq<nat>) => list, (_: nat, _: nat) => 7)
  }

  // ---------- A voucher that is lost ----------

  const ENTRANT := Joined(10000, 10.0, None)
  const CLOSED := ENTRANT.(account := ENTRANT.account.(status := Closed))
  const WINNER := CLOSED.(status := Ranked, rank := Some(1))

  lemma TournamentSound()
    ensures Sound(Tournament())
  {
  }

  lemma TournamentStarts(c: Comp, env: Env)
    requires c == Tournament() && env.over
    ensures Starting(c, env) == c && Closes(c, env)
  {
    hide Competitions.Mapped;
    assert BreachesMarked(c).entries == [ENTRANT];
  }

  lemma OneListed(c: Comp, env: Env, statuses: set<EntryStatus>)
    requires |c.entries| == 1 && c.entries[0].status in statuses && env == Deadline()
    ensures Listed(c, statuses, env) == [0]
  {
    var list := Select(c.entries, statuses);
    assert Select(c.entries[..0], statuses) == [];
    assert list == [0];
    assert env.shuffle(list) == list;
  }

  lemma TournamentClosed(c: Comp, env: Env)
    requires c == Tournament() && env == Deadline()
    ensures ClosedAll(c, env) == c.(entries := [CLOSED])
  {
    hide FrozenIn, Candidates;
    assert Frozen(ENTRANT.account, 0, env) == CLOSED.account;
    assert ClosedAll(c, env).entries == [CLOSED];
  }

  lemma TournamentBoard(d: Comp)
    requires d == Tournament().(entries := [CLOSED])
    ensures Board(d, Deadline()) == [Line(0, 1, 0, 0)]
  {
    var env := Deadline();
    hide Listed;
    OneListed(d, env, {Competing, Ranked});
    hide ReadOrder;
    var rows := Rows(d, [0]);
    assert Ranking.Sorted(d.metric, rows, 1) == [0] by {
      assert Ranking.Sorted(d.metric, rows, 0) == [];
    }
    assert LineAt([0], rows, [0], 0) == Line(0, 1, 0, 0);
    hide Ranking.Sorted, Rows;
    assert Board(d, env)[0] == Line(0, 1, 0, 0);
  }

  lemma TournamentStandings(c: Comp, env: Env)
    requires c == Tournament() && env == Deadline()
    ensures CompletesAt(c, env) == 5
    ensures Standings(c, env) == c.(phase := Completed, entries := [WINNER])
  {
    hide Board, Listed, ClosedAll, Starting, Closes, Select, FrozenIn, Stamped;
    TournamentStarts(c, env);
    TournamentClosed(c, env);
    var d := ClosedAll(c, env);
    OneListed(c, env, {Competing});
    TournamentBoard(d);
    OneStamped(d);
  }

  lemma OneStamped(d: Comp)
    requires d.entries == [CLOSED]
    ensures Stamped(d, [Line(0, 1, 0, 0)], 1, true) == d.(entries := [WINNER])
  {
    assert Stamped(d, [Line(0, 1, 0, 0)], 0, true) == d;
  }

  /** One entry, one prize: a crash right after the status change leaves the winner without a voucher
      for good. */
  lemma TournamentLosesItsVoucher()
    ensures var c, env := Tournament(), Deadline();
      var d := Tick(c, env, 5).comp;
      && Sound(c) && Closes(c, env) && Wins(d, 0) && NeverServed(d, 0)
      && Served(c, env).vouchers == [Voucher(0, 7)]
  {
    hide Standings, Starting, Sound, Closes, CompletesAt, IssueAll, Tick, Listed, Served;
    var c, env := Tournament(), Deadline();
    TournamentSound();
    TournamentStarts(c, env);
    TournamentStandings(c, env);
    WinnerServed(Standings(c, env), env);
    IssueSplits(c, env);
    TickExact(c, env, 5);
    VoucherLostIff(c, env, 5, 0);
  }

  lemma WinnerServed(f: Comp, env: Env)
    requires f == Tournament().(phase := Completed, entries := [WINNER]) && env == Deadline()
    ensures IssueAll(f, Listed(f, {Ranked}, env), env).vouchers == [Voucher(0, 7)]
  {
    hide Listed;
    OneListed(f, env, {Ranked});
    assert Due(f, 0);
    assert FreeCode(f.taken, env, 0, 0) == Some(7);
    var d := Issued(f, 0, 7);
    assert IssueAll(d, [], env) == d;
    assert [0][1..] == [];
  }

  // ---------- An account that stays open ----------

  function LockedOut(): Env {
    Deadline().(stuck := (_: nat) => true)
  }

  /** The account's closing transaction fails, the closing goes through all the same, and the winner's
      account is left active with nothing that would ever close it. */
  lemma TournamentLeavesAccountOpen(c: Comp, env: Env, k: nat, later: Env, laterLeft: nat)
    requires c == Tournament() && env == LockedOut() && k >= CompletesAt(c, env) + |Served(c, env).vouchers|
    ensures Sound(c) && Closes(c, env) && Tick(c, env, k).Alive?
    ensures var r := Tick(c, env, k).comp;
      && r.phase == Completed && Tick(r, later, laterLeft).comp == r
      && |r.entries| == 1 && r.entries[0].status != Competing && r.entries[0].account == ENTRANT.account
  {
    hide Served, CompletesAt, Tick, Standings, Sound;
    TournamentSound();
    TournamentStarts(c, env);
    TickExact(c, env, k);
    hide Closes, IssuedUpTo;
    StandingsAccounts(c, env);
    ClosingTick(c, env, k);
    StaysOpenIff(c, env, k, 0, later, laterLeft);
  }

  // ---------- A retry under other prices ----------

  const TRADER := ENTRANT.(account := ENTRANT.account.(trades := [Trade(1, Open, 0)]))

  /** Two entrants with the same open trade. */
  function Pair(): Comp {
    Tournament().(entries := [TRADER, TRADER])
  }

  function Priced(pnl: int): Env {
    Deadline().(value := (_: Trade) => Worth(pnl))
  }

  lemma PairStarts(c: Comp, env: Env)
    requires c == Pair() && env.over
    ensures Starting(c, env) == c && Closes(c, env)
  {
    hide Competitions.Mapped;
    assert BreachesMarked(c).entries == [TRADER, TRADER];
  }

  lemma PairSound(c: Comp)
    requires c == Pair()
    ensures Sound(c)
  {
    hide Conserved, PeakHolds, FinalRanks;
    PairConserved();
  }

  lemma PairConserved()
    ensures Conserved(TRADER.account) && PeakHolds(TRADER.account)
  {
    assert TRADER.account.trades[..0] == [];
  }

  lemma PairListed(c: Comp, pnl: int)
    requires c == Pair()
    ensures Listed(c, {Competing}, Priced(pnl)) == [0, 1]
  {
    var list := Select(c.entries, {Competing});
    assert c.entries[..1][..0] == [] && c.entries[..1] == [TRADER];
    assert Select(c.entries[..1][..0], {Competing}) == [];
    assert Select(c.entries[..1], {Competing}) == [0];
    assert list == [0, 1];
  }

  lemma PairFrozen(e: nat, pnl: int)
    ensures var s := Frozen(TRADER.account, e, Priced(pnl));
      s.status == Closed && s.balance == 10000 + pnl
  {
    var trades := TRADER.account.trades;
    assert trades[..0] == [];
    assert LiquidationPnl(trades[..0], Priced(pnl).value) == 0;
    hide CloseOpen, VoidResting;
  }

  /** The first try closes one account and crashes. */
  lemma PairCrashed(c: Comp, up: Env, pnl: int)
    requires c == Pair() && up == Priced(pnl)
    ensures var d := Tick(c, up, 3).comp;
      && Tick(c, up, 3).Crashed? && d.phase != Completed && |d.entries| == 2 && d.vouchers == []
      && d.entries[0].account == Frozen(TRADER.account, 0, up) && d.entries[1].account == TRADER.account
      && BreachesMarked(d).entries[1].status == Competing
  {
    hide Tick, Sound, Served, Starting, Closes, Listed, Frozen, BreachesMarked, IssuedUpTo;
    PairSound(c);
    PairStarts(c, up);
    PairListed(c, pnl);
    PairReached(c, up);
    TickAccounts(c, up, 3);
    TickExact(c, up, 3);
    CrashKeepsField(c, up, 3);
    TickKeeps(c, up, 3);
    CrashKeepsStandings(c, up, 3);
    NothingIssuedBefore(Tick(c, up, 3).comp, up);
    PairUnmarked(c);
  }

  lemma PairUnmarked(c: Comp)
    requires c == Pair()
    ensures BreachesMarked(c).entries == c.entries
  {
  }

  lemma PairReached(c: Comp, env: Env)
    requires c.entries == [TRADER, TRADER] && Closes(c, env) && Starting(c, env) == c && Listed(c, {Competing}, env) == [0, 1]
    ensures ReachedBy(c, env, 3) == {0} && CompletesAt(c, env) > 3
  {
    assert [0, 1][..1] == [0];
  }

  lemma ClosesWhenever(d: Comp, one: Env, other: Env)
    requires Closes(d, one) && one.started == other.started && other.over
    ensures Closes(d, other)
  {
  }

  /** Two entrants with the same trade, which any uninterrupted closing leaves equal. A crash after the
      first account, and a retry when the price has turned, leaves one of them 200 cents
      ahead of the other. */
  lemma RetryMixesPrices(c: Comp, up: Env, down: Env, d: Comp, m: nat)
    requires c == Pair() && up == Priced(100) && down == Priced(-100) && d == Tick(c, up, 3).comp
    requires m >= CompletesAt(d, down) + |Served(d, down).vouchers|
    ensures Sound(c) && Closes(c, up) && Tick(c, up, 3).Crashed? && d.phase != Completed
    ensures Closes(d, down) && Tick(d, down, m).Alive?
    ensures var r := Tick(d, down, m).comp.entries;
      |r| == 2 && r[0].account.balance == 10100 && r[1].account.balance == 9900
  {
    hide Tick, Sound, Served, Starting, Closes, Frozen, BreachesMarked, IssuedUpTo, ReachedBy, CompletesAt, Pair, Priced;
    SameClock(up, down);
    PairSound(c);
    PairStarted(c, up);
    PairCrashed(c, up, 100);
    TickKeeps(c, up, 3);
    CrashKeepsStandings(c, up, 3);
    ClosesWhenever(d, up, down);
    AliveFrom(d, down, m);
    CompletingTick(d, down, m);
    TickAccounts(d, down, m);
    PairFrozen(0, 100);
    PairFrozen(1, -100);
    FrozenStatus(Frozen(TRADER.account, 0, up), 0, down);
  }

  lemma PairStarted(c: Comp, env: Env)
    requires c == Pair() && env.over
    ensures Closes(c, env)
  {
    PairStarts(c, env);
  }

  lemma SameClock(up: Env, down: Env)
    requires up == Priced(100) && down == Priced(-100)
    ensures up.started == down.started && up.over && down.over
  {
  }

  lemma AliveFrom(c: Comp, env: Env, m: nat)
    requires Sound(c) && Closes(c, env) && m >= CompletesAt(c, env) + |Served(c, env).vouchers|
    ensures Tick(c, env, m).Alive?
  {
    hide Tick, Served, CompletesAt, Sound, Closes;
    NothingIssuedBefore(c, env);
    TickExact(c, env, m);
  }

  /** Against that: in one go, at either price, the two end equal. */
  lemma AtOnceTheyEndEqual(c: Comp, env: Env, pnl: int, k: nat)
    requires c == Pair() && env == Priced(pnl) && Tick(c, env, k).Alive?
    ensures var r := Tick(c, env, k).comp.entries;
      |r| == 2 && r[0].account.balance == r[1].account.balance == 10000 + pnl
  {
    hide Tick, Sound, Starting, Closes, Frozen, BreachesMarked, ReachedBy;
    PairSound(c);
    PairStarts(c, env);
    PairUnmarked(c);
    CompletingTick(c, env, k);
    TickAccounts(c, env, k);
    PairFrozen(0, pnl);
    PairFrozen(1, pnl);
  }

  // ---------- A correction that moves others ----------

  function Placed(rank: nat): Entry {
    CLOSED.(status := Ranked, rank := Some(rank))
  }

  /** Three entries with the same result, ranked as they were read. */
  function Tied(): Comp {
    Tournament().(phase := Completed, entries := [Placed(1), Placed(2), Placed(3)])
  }

  lemma TiedListed(c: Comp)
    requires c == Tied()
    ensures Select(c.entries, {Competing, Ranked}) == [0, 1, 2]
  {
    assert Select(c.entries[..2][..1][..0], {Competing, Ranked}) == [];
    assert Select(c.entries[..2][..1], {Competing, Ranked}) == [0];
    assert Select(c.entries[..2], {Competing, Ranked}) == [0, 1];
  }

  /** Among rows that all tie, a rank is a place in the order of reading. */
  lemma TiedRank(metric: Ranking.Metric, rows: seq<Ranking.Row>, p: nat)
    requires p < |rows| <= 3
    requires forall i, j :: 0 <= i < |rows| && 0 <= j < |rows| ==> Ranking.Tied(metric, rows[i], rows[j])
    ensures Ranking.Rank(metric, rows, p) == p + 1
  {
    assert forall j: nat :: j < |rows| ==> (Ranking.Ahead(metric, rows, j, p) <==> j < p);
    hide Ranking.Ahead, Ranking.Tied;
    var ahead := Ranking.AllAhead(metric, rows, p);
    assert ahead == if p == 0 then {} else if p == 1 then {0} else {0, 1};
  }

  lemma TiedUpToDate(c: Comp)
    requires c == Tied()
    ensures Corrections.IsReadOrder(c, [0, 1, 2]) && Corrections.UpToDate(c, [0, 1, 2])
  {
    var order := [0, 1, 2];
    var rows := Rows(c, order);
    hide Ranking.Rank;
    forall p: nat | p < 3 ensures Ranking.Rank(c.metric, rows, p) == p + 1 {
      TiedRank(c.metric, rows, p);
    }
  }

  /** A credit to the third, with the rows read in another order, swaps the first two. */
  lemma CorrectionReordersTied(c: Comp, env: Env)
    requires c == Tied() && env == Corrections.WithExchange(0, 1)
    ensures Corrections.UpToDate(c, [0, 1, 2]) && |Corrected(c, 2, 500, env).entries| == 3
    ensures var r := Corrected(c, 2, 500, env);
      && Corrections.RankOf(c, 0) < Corrections.RankOf(c, 1)
      && Corrections.RankOf(r, 1) < Corrections.RankOf(r, 0)
  {
    hide Corrected, Ranking.Rank, Select, ReadOrder;
    TiedListed(c);
    TiedUpToDate(c);
    Corrections.TwoReadOrders(c, 0, 1);
    assert Corrections.Exchanged([0, 1, 2], 0, 1) == [1, 0, 2];
    Corrections.CreditReordersOthersIff(c, [0, 1, 2], 2, 500, env, 0, 1);
    Corrections.CreditReordersOthersIff(c, [0, 1, 2], 2, 500, env, 1, 0);
  }
}
