/** The engine's methods over the tables they update, each proved to do exactly what the value-level
    description of a (possibly crashing) tick says. */
module CompetitionEngine {
  import opened Options
  import opened Capital
  import opened Accounts
  import opened Competitions
  import Enforcement
  import Ranking

  class Tables {
    const metric: Ranking.Metric
    const prizes: map<nat, bool>
    var phase: Phase
    var entries: seq<Entry>
    var vouchers: seq<Voucher>
    var taken: set<nat>
    var left: nat        // writes until the process dies
    var crashed: bool

    ghost function View(): Comp
      reads this
    {
      Comp(phase, metric, prizes, entries, vouchers, taken)
    }

    ghost function State(): Progress
      reads this
    {
      if crashed then Crashed(View()) else Alive(View(), left)
    }

    constructor (c: Comp, left: nat)
      ensures State() == Alive(c, left)
    {
      metric, prizes := c.metric, c.prizes;
      phase, entries, vouchers, taken := c.phase, c.entries, c.vouchers, c.taken;
      this.left, crashed := left, false;
    }

    /** Reached the next write, or died before it. */
    method Reach() returns (ok: bool)
      requires !crashed
      modifies this`left, this`crashed
      ensures ok <==> old(left) > 0
      ensures crashed == !ok
      ensures left == if ok then old(left) - 1 else old(left)
    {
      ok := left > 0;
      if ok {
        left := left - 1;
      } else {
        crashed := true;
      }
    }

    method ActivateDueCompetitions(env: Env)
      requires !crashed
      modifies this`left, this`crashed, this`phase
      ensures State() == Wrote(old(View()), Activated(old(View()), env), old(left))
    {
      var ok := Reach();
      if ok && phase == Upcoming && env.started {
        phase := Running;
      }
    }

    method DisqualifyBreachedEntries()
      requires !crashed
      modifies this`left, this`crashed, this`entries
      ensures State() == Wrote(old(View()), BreachesMarked(old(View())), old(left))
    {
      var ok := Reach();
      if ok {
        entries := Mapped(entries, BreachMarked);
      }
    }

    /** One transaction on a working copy of the account; only the commit writes it back. */
    method CloseAndFreezeAccount(e: nat, env: Env)
      requires e < |entries|
      modifies this`entries
      ensures View() == WithAccount(old(View()), e, Frozen(old(entries)[e].account, e, env))
    {
      hide CloseOpen, VoidResting, LiquidationPnl;
      var begin := entries[e].account;
      if begin.status != Active || env.stuck(e) {
        return;
      }
      var row := new AccountRecord(begin);
      var total := Enforcement.CloseOrThrow(row, env.value);
      if total.None? {
        return;
      }
      Enforcement.BookTotal(row, total.value);
      row.trades := VoidResting(row.trades);
      row.status := Status.Closed;
      var committed := row.Snapshot();
      entries := entries[e := entries[e].(account := committed)];
    }

    method CloseAccounts(todo: seq<nat>, env: Env)
      requires !crashed && Known(View(), todo)
      modifies this`left, this`crashed, this`entries
      ensures State() == CloseFrom(old(View()), todo, env, old(left))
    {
      for i := 0 to |todo|
        invariant !crashed && Known(View(), todo)
        invariant CloseFrom(old(View()), todo, env, old(left)) == CloseFrom(View(), todo[i..], env, left)
      {
        var ok := Reach();
        if !ok {
          return;
        }
        assert todo[i..][0] == todo[i] && todo[i..][1..] == todo[i + 1..];
        CloseAndFreezeAccount(todo[i], env);
      }
    }

    /** The rows read, sorted and numbered. */
    method RankEntries(env: Env) returns (board: seq<Line>)
      ensures board == Board(View(), env)
    {
      var list := Select(entries, {Competing, Ranked});
      var order := Arranged(env, list);
      assert order == ReadOrder(View(), env);
      var rows: seq<Ranking.Row> := [];
      for i := 0 to |order|
        invariant |rows| == i
        invariant forall j :: 0 <= j < i ==> rows[j] == RowOf(View(), order[j])
      {
        var account := entries[order[i]].account;
        rows := rows + [Ranking.Row(order[i], account.start, account.balance)];
      }
      assert rows == Rows(View(), order);
      var sorted := Ranking.Sorted(metric, rows, |rows|);
      board := [];
      for i := 0 to |sorted|
        invariant |board| == i
        invariant forall j :: 0 <= j < i ==> board[j] == LineAt(order, rows, sorted, j)
      {
        var r := rows[sorted[i]];
        board := board + [Line(order[sorted[i]], i + 1, Ranking.ProfitUsd(r), Ranking.ProfitPct(r))];
      }
    }

    /** The first ranking: every line is its own committed UPDATE. */
    method PersistRanking(env: Env)
      requires !crashed
      modifies this`left, this`crashed, this`entries
      ensures OnBoard(old(View()), Board(old(View()), env))
      ensures State() == WriteFrom(old(View()), Board(old(View()), env), 0, old(left))
    {
      BoardCovers(View(), env);
      var ranked := RankEntries(env);
      for i := 0 to |ranked|
        invariant !crashed && |entries| == |old(entries)|
        invariant WriteFrom(old(View()), ranked, 0, old(left)) == WriteFrom(View(), ranked, i, left)
      {
        var ok := Reach();
        if !ok {
          return;
        }
        var e := ranked[i].entry;
        entries := entries[e := entries[e].(status := Ranked, rank := Some(i + 1),
                                            usd := ranked[i].usd, pct := ranked[i].pct)];
      }
    }

    /** Up to five codes for one winner; a collision is the only error that is retried. */
    method InsertVoucher(e: nat, env: Env)
      requires !crashed
      modifies this`left, this`crashed, this`vouchers, this`taken
      ensures State() ==
        match FreeCode(old(taken), env, e, 0)
        case None => Alive(old(View()), old(left))
        case Some(code) => Wrote(old(View()), Issued(old(View()), e, code), old(left))
    {
      for attempt := 0 to ATTEMPTS
        invariant State() == old(State())
        invariant FreeCode(taken, env, e, 0) == FreeCode(taken, env, e, attempt)
      {
        var code := env.code(e, attempt);
        if code !in taken {
          var ok := Reach();
          if ok {
            vouchers := vouchers + [Voucher(e, code)];
            taken := taken + {code};
          }
          return;
        }
      }
    }

    method AlreadyIssued(e: nat) returns (found: bool)
      ensures found <==> HasVoucher(vouchers, e)
    {
      found := false;
      for i := 0 to |vouchers|
        invariant found <==> exists j :: 0 <= j < i && vouchers[j].entry == e
      {
        if vouchers[i].entry == e {
          found := true;
        }
      }
    }

    method IssuePrizeVouchers(winners: seq<nat>, env: Env)
      requires !crashed && Known(View(), winners)
      modifies this`left, this`crashed, this`vouchers, this`taken
      ensures State() == IssueFrom(old(View()), winners, env, old(left))
    {
      for i := 0 to |winners|
        invariant !crashed
        invariant IssueFrom(old(View()), winners, env, old(left)) == IssueFrom(View(), winners[i..], env, left)
      {
        var e := winners[i];
        assert winners[i..][0] == e && winners[i..][1..] == winners[i + 1..];
        var rank := entries[e].rank;
        if rank.Some? && rank.value in prizes && prizes[rank.value] {
          var existing := AlreadyIssued(e);
          if !existing {
            InsertVoucher(e, env);
            if crashed {
              return;
            }
          }
        }
      }
    }

    method FinalizeCompetition(env: Env)
      requires !crashed
      modifies this
      ensures State() == Finalised(old(View()), env, old(left))
    {
      var active := Arranged(env, Select(entries, {Competing}));
      assert active == Listed(View(), {Competing}, env);
      CloseAccounts(active, env);
      if crashed {
        return;
      }
      RankAndPay(env);
    }

    /** The part after the accounts are closed. */
    method RankAndPay(env: Env)
      requires !crashed
      modifies this
      ensures State() == RankedAndPaid(old(View()), env, old(left))
    {
      hide Board, WriteFrom, IssueFrom;
      PersistRanking(env);
      if crashed {
        return;
      }
      var ok := Reach();
      if !ok {
        return;
      }
      phase := Completed;
      var winners := Arranged(env, Select(entries, {Ranked}));
      assert winners == Listed(View(), {Ranked}, env);
      IssuePrizeVouchers(winners, env);
    }

    /** One tick. */
    method RunCompetitionEngine(env: Env)
      requires !crashed
      modifies this
      ensures State() == Tick(old(View()), env, old(left))
    {
      hide Finalised, BreachesMarked;
      ActivateDueCompetitions(env);
      if crashed {
        return;
      }
      DisqualifyBreachedEntries();
      if crashed {
        return;
      }
      if phase == Running && env.over {
        FinalizeCompetition(env);
      }
    }

    /** The correction handler's transaction: the ledger row and, after completion, all ranks anew. */
    method CorrectBalance(e: nat, amount: int, env: Env) returns (ok: bool)
      modifies this`entries
      ensures View() == Corrected(old(View()), e, amount, env)
      ensures ok <==> phase in {Running, Completed} && e < |old(entries)| && amount != 0
    {
      ok := false;
      if amount == 0 || phase !in {Running, Completed} || e >= |entries| {
        return;
      }
      ok := true;
      var row := new AccountRecord(entries[e].account);
      var _ := row.ApplyBalanceAdjustment(amount, CheatCorrection);
      var adjusted := row.Snapshot();
      entries := entries[e := entries[e].(account := adjusted)];
      if phase == Completed {
        Rerank(env);
      }
    }

    /** Ranks and profits rewritten, statuses left alone. */
    method Rerank(env: Env)
      modifies this`entries
      ensures View() == Reranked(old(View()), env)
    {
      hide Board, Covers, DistinctLines;
      BoardCovers(View(), env);
      var ranked := RankEntries(env);
      for i := 0 to |ranked|
        invariant |entries| == |old(entries)|
        invariant View() == Stamped(old(View()), ranked, i, false)
      {
        var e := ranked[i].entry;
        entries := entries[e := entries[e].(rank := Some(i + 1), usd := ranked[i].usd, pct := ranked[i].pct)];
      }
    }
  }
}
