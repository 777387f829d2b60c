/** Entries taken out of a competition: who is marked for a failed account, and that nobody marked ever
    comes back, is ranked or wins. */
module Breaches {
  import opened Options
  import opened Capital
  import opened Competitions
  import opened Finalisation
  import opened Retries
  import CapitalRuns

  predicate Out(en: Entry) {
    en.status in {Disqualified, Withdrawn}
  }

  predicate Breached(en: Entry) {
    en.status == Competing && en.account.status == Failed
  }

  // ---------- One tick ----------

  lemma MarkedEntries(c: Comp)
    ensures |BreachesMarked(c).entries| == |c.entries|
    ensures forall e: nat :: e < |c.entries| ==>
      BreachesMarked(c).entries[e] == if Breached(c.entries[e]) then c.entries[e].(status := Disqualified) else c.entries[e]
  {
  }

  /** A closing leaves the entries alone that are out, wherever it stops. */
  lemma ClosingSkipsOut(b: Comp, env: Env, left: nat, e: nat)
    requires e < |b.entries| && Out(b.entries[e])
    ensures var r := Finalised(b, env, left).comp;
      && |r.entries| == |b.entries| && r.entries[e] == b.entries[e]
      && (HasVoucher(r.vouchers, e) ==> HasVoucher(b.vouchers, e))
  {
    hide Finalised, Listed, FrozenIn, Standings, Board, IssueFrom, Stamped, HasVoucher;
    FinalisedShape(b, env, left);
    var r, all := ReachedAfter(b, env, left), ClosedAll(b, env);
    OutOfClosing(b, env, e);
    match r
    case Closing(done) => FrozenSkips(b, env, done, e);
    case Writing(n) => BoardSkipsOut(all, env, n, e);
    case Issuing(l) =>
      var f := Standings(b, env);
      BoardSkipsOut(all, env, |Board(all, env)|, e);
      StandingsAre(b, env);
      IssueFrame(f, Listed(f, {Ranked}, env), env, l);
      IssueServes(f, Listed(f, {Ranked}, env), env, l);
  }

  lemma StandingsAre(b: Comp, env: Env)
    ensures var all := ClosedAll(b, env);
      Standings(b, env) == BoardWritten(all, env, |Board(all, env)|).(phase := Completed)
    ensures Standings(b, env).vouchers == b.vouchers
  {
  }

  lemma FrozenSkips(b: Comp, env: Env, done: set<nat>, e: nat)
    requires e < |b.entries| && e !in Candidates(b) && done <= Candidates(b)
    ensures FrozenIn(b, done, env).entries[e] == b.entries[e] && FrozenIn(b, done, env).vouchers == b.vouchers
  {
  }

  lemma OutOfClosing(b: Comp, env: Env, e: nat)
    requires e < |b.entries| && Out(b.entries[e])
    ensures e !in Candidates(b) && |ClosedAll(b, env).entries| == |b.entries| && ClosedAll(b, env).entries[e] == b.entries[e]
    ensures ClosedAll(b, env).vouchers == b.vouchers
  {
  }

  lemma BoardSkipsOut(d: Comp, env: Env, n: nat, e: nat)
    requires n <= |Board(d, env)| && e < |d.entries| && Out(d.entries[e])
    ensures BoardWritten(d, env, n).entries[e] == d.entries[e] && BoardWritten(d, env, n).vouchers == d.vouchers
  {
    hide Board, Stamped;
    BoardCovers(d, env);
    StampedAt(d, Board(d, env), n, true);
  }

  /** A tick that got past its second write has marked every breach and nobody else, and whoever is marked
      is not closed, ranked or served by it, before whichever write it crashes. */
  lemma TickMarks(c: Comp, env: Env, k: nat, e: nat)
    requires k > 1 && e < |c.entries| && (Breached(c.entries[e]) || Out(c.entries[e]))
    ensures var r := Tick(c, env, k).comp;
      && |r.entries| == |c.entries|
      && r.entries[e] == (if Out(c.entries[e]) then c.entries[e] else c.entries[e].(status := Disqualified))
      && (HasVoucher(r.vouchers, e) ==> HasVoucher(c.vouchers, e))
  {
    hide Finalised, BreachesMarked, HasVoucher;
    var a := Activated(c, env);
    MarkedFrame(a);
    MarkedEntries(a);
    ClosingSkipsOut(BreachesMarked(a), env, k - 2, e);
  }

  /** A tick before its second write has marked nobody, one that has nothing to close leaves the others. */
  lemma TickLeaves(c: Comp, env: Env, k: nat, e: nat)
    requires e < |c.entries| && (k <= 1 || !Closes(c, env))
    ensures var r := Tick(c, env, k).comp;
      && |r.entries| == |c.entries|
      && r.entries[e] == (if k > 1 && Breached(c.entries[e]) then c.entries[e].(status := Disqualified) else c.entries[e])
  {
    hide Finalised, BreachesMarked;
    MarkedFrame(Activated(c, env));
    MarkedEntries(Activated(c, env));
  }

  /** After a closing that goes through, exactly those are ranked who were ranked, or who were competing
      on an account that had not failed. */
  lemma RankedIff(c: Comp, env: Env, k: nat, e: nat)
    requires Sound(c) && Closes(c, env) && Tick(c, env, k).Alive? && e < |c.entries|
    ensures var r := Tick(c, env, k).comp;
      && |r.entries| == |c.entries|
      && (r.entries[e].status == Ranked
          <==> c.entries[e].status == Ranked || (c.entries[e].status == Competing && c.entries[e].account.status != Failed))
  {
    hide Tick, Sound, Closes, BreachesMarked;
    CompletingTick(c, env, k);
    MarkedEntries(c);
  }

  // ---------- Every run ----------

  lemma EventSkipsOut(c: Comp, ev: Event, e: nat)
    requires e < |c.entries| && Out(c.entries[e])
    ensures var r := Next(c, ev);
      && e < |r.entries| && r.entries[e].status == c.entries[e].status && r.entries[e].rank == c.entries[e].rank
      && (HasVoucher(r.vouchers, e) ==> HasVoucher(c.vouchers, e))
  {
    hide Tick, Board, HasVoucher, Reranked;
    match ev
    case TickAt(env, k) =>
      if k > 1 {
        TickMarks(c, env, k, e);
      } else {
        TickLeaves(c, env, k, e);
        EarlyTick(c, env, k);
      }
    case CorrectBalance(x, amount, env) =>
      if c.phase == Completed && x < |c.entries| && amount != 0 {
        RerankSkipsOut(WithAccount(c, x, Adjusted(c.entries[x].account, amount, CheatCorrection)), env, e);
      }
    case _ =>
  }

  lemma EarlyTick(c: Comp, env: Env, k: nat)
    requires k <= 1
    ensures Tick(c, env, k).comp.vouchers == c.vouchers
  {
  }

  lemma RerankSkipsOut(d: Comp, env: Env, e: nat)
    requires e < |d.entries| && Out(d.entries[e])
    ensures Reranked(d, env).entries[e] == d.entries[e] && Reranked(d, env).vouchers == d.vouchers
    ensures |Reranked(d, env).entries| == |d.entries|
  {
    hide Board, Stamped;
    BoardCovers(d, env);
    StampedAt(d, Board(d, env), |Board(d, env)|, false);
  }

  /** Whatever happens, an entry that is out stays so, keeps its rank and gets no voucher. */
  lemma {:induction false} OutStaysOut(c: Comp, events: seq<Event>, e: nat)
    requires e < |c.entries| && Out(c.entries[e])
    ensures var r := Run(c, events);
      && e < |r.entries| && r.entries[e].status == c.entries[e].status && r.entries[e].rank == c.entries[e].rank
      && (HasVoucher(r.vouchers, e) ==> HasVoucher(c.vouchers, e))
  {
    hide Next, HasVoucher;
    if events != [] {
      OutStaysOut(c, events[..|events| - 1], e);
      EventSkipsOut(Run(c, events[..|events| - 1]), events[|events| - 1], e);
    }
  }

  /** So an entrant whose account failed is disqualified by the first tick that commits the marking, and
      from then on is never ranked anew and never gets a voucher. */
  lemma BreachNeverWins(c: Comp, env: Env, k: nat, later: seq<Event>, e: nat)
    requires k > 1 && e < |c.entries| && Breached(c.entries[e]) && !HasVoucher(c.vouchers, e)
    ensures var r := Run(Tick(c, env, k).comp, later);
      && e < |r.entries| && r.entries[e].status == Disqualified && r.entries[e].rank == c.entries[e].rank
      && !HasVoucher(r.vouchers, e)
  {
    hide Tick, HasVoucher, Run;
    TickMarks(c, env, k, e);
    OutStaysOut(Tick(c, env, k).comp, later, e);
  }

  // ---------- Taken out by an administrator ----------

  /** Disqualifying, or withdrawing a bot: the entry of somebody still competing goes out with the first
      write and the account with the second; nothing else moves. */
  lemma TakenOutByTwoWrites(c: Comp, e: nat, k: nat, bot: bool)
    ensures var r := Next(c, if bot then WithdrawBot(e, k) else Disqualify(e, k));
      && r == c.(entries := r.entries) && |r.entries| == |c.entries|
      && (forall x :: 0 <= x < |c.entries| && x != e ==> r.entries[x] == c.entries[x])
      && (e < |c.entries| ==>
           && (c.entries[e].status != Competing || k == 0 ==> r.entries[e] == c.entries[e])
           && (c.entries[e].status == Competing && k > 0 ==>
                && r.entries[e].status == (if bot then Withdrawn else Disqualified)
                && r.entries[e].rank == c.entries[e].rank
                && (k == 1 ==> r.entries[e].account == c.entries[e].account)
                && (k > 1 ==> r.entries[e].account == c.entries[e].account.(status := if bot then Status.Cancelled else Failed))))
  {
  }

  /** A crash between the two leaves an account that may be active, and no tick ever closes it. */
  lemma {:induction false} HalfTakenOut(c: Comp, ticks: seq<(Env, nat)>, e: nat)
    requires e < |c.entries| && Out(c.entries[e])
    ensures |AfterTicks(c, ticks).entries| == |c.entries| && AfterTicks(c, ticks).entries[e] == c.entries[e]
  {
    hide Tick;
    if ticks != [] {
      var n := |ticks| - 1;
      HalfTakenOut(c, ticks[..n], e);
      var d := AfterTicks(c, ticks[..n]);
      if ticks[n].1 > 1 {
        TickMarks(d, ticks[n].0, ticks[n].1, e);
      } else {
        TickLeaves(d, ticks[n].0, ticks[n].1, e);
      }
    }
  }

  function AfterTicks(c: Comp, ticks: seq<(Env, nat)>): Comp {
    if ticks == [] then c else Tick(AfterTicks(c, ticks[..|ticks| - 1]), ticks[|ticks| - 1].0, ticks[|ticks| - 1].1).comp
  }

  /** Cancelling an upcoming or running competition takes three writes: its phase, then whoever still
      competes, then every active account. Any other competition is left alone. */
  lemma CancelledByThreeWrites(c: Comp, k: nat)
    ensures var r := Next(c, Cancel(k));
      && |r.entries| == |c.entries| && r == c.(phase := r.phase, entries := r.entries)
      && (c.phase in {Completed, CalledOff} || k == 0 ==> r == c)
      && (c.phase in {Upcoming, Running} && k > 0 ==>
           && r.phase == CalledOff
           && forall e :: 0 <= e < |c.entries| ==>
                var en, was := r.entries[e], c.entries[e];
                && en.rank == was.rank
                && en.status == (if was.status == Competing && k > 1 then Withdrawn else was.status)
                && en.account == if was.account.status == Active && k > 2 then was.account.(status := Status.Cancelled) else was.account)
  {
    if c.phase in {Upcoming, Running} && k == 1 {
      assert Next(c, Cancel(k)).entries == c.entries;
    }
  }

  /** Whoever joins starts level, with nothing traded, booked, claimed or ranked. */
  lemma JoinsLevel(c: Comp, start: int, maxPct: real, dailyPct: Option<real>)
    ensures var r := Next(c, Join(start, maxPct, dailyPct));
      && (c.phase in {Completed, CalledOff} ==> r == c)
      && (c.phase in {Upcoming, Running} ==>
           && |r.entries| == |c.entries| + 1 && c.entries <= r.entries && r == c.(entries := r.entries)
           && var en := r.entries[|c.entries|];
             && StillIn(en) && en.rank == None && en.usd == 0 && en.pct == 0
             && en.account.kind == Kind.Competition && en.account.status == Active
             && en.account.balance == en.account.peak == Anchor(en.account) == en.account.start == start
             && en.account.trades == [] && en.account.ledger == [] && en.account.eodFloor == None
             && en.account.maxDrawdownPct == maxPct && en.account.dailyDrawdownPct == dailyPct
             && en.account.claimed == 0 && en.account.multiplier == 1.0 && en.account.profitTarget == 0)
  {
  }

  /** What happens to one account outside the competition happens to it alone. */
  lemma AccountEventMoves(c: Comp, e: nat, op: CapitalRuns.Op)
    ensures var r := Next(c, AccountEvent(e, op));
      && r == c.(entries := r.entries) && |r.entries| == |c.entries|
      && (forall x :: 0 <= x < |c.entries| && x != e ==> r.entries[x] == c.entries[x])
      && (e < |c.entries| ==>
           r.entries[e] == c.entries[e].(account := CapitalRuns.Run(c.entries[e].account, [op])))
  {
    if e < |c.entries| {
      assert CapitalRuns.Run(c.entries[e].account, [op][..0]) == c.entries[e].account;
    }
  }

  // ---------- When a tick starts and closes ----------

  /** A tick starts an upcoming competition whose time has come with its first write, and closes it, or a
      running one, when its end has come too: in the same tick, once all the writes are through. */
  lemma StartsAndCloses(c: Comp, env: Env, k: nat)
    ensures var p := Tick(c, env, k);
      var due := (c.phase == Running || (c.phase == Upcoming && env.started)) && env.over;
      && (c.phase == Upcoming ==> (p.comp.phase == Upcoming <==> !env.started || k == 0))
      && (p.Alive? && due ==> p.comp.phase == Completed)
      && (p.comp.phase == Completed && c.phase != Completed ==> due && k > 1)
      && (p.comp.phase == CalledOff <==> c.phase == CalledOff)
      && (Closes(c, env) <==> due)
  {
    hide Finalised;
    MarkedFrame(Activated(c, env));
    hide BreachesMarked;
    var b := Starting(c, env);
    if k > 1 && b.phase == Running && env.over {
      FinalisedPhase(b, env, k - 2);
    }
  }
}
