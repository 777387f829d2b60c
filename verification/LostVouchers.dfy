/** The prize vouchers that a crash after completion loses: which ones, and for which crashes. */
module LostVouchers {
  import opened Options
  import opened Arithmetic
  import opened Capital
  import opened Competitions
  import opened Finalisation
  import Ranking

  // ---------- Counting the writes ----------

  /** Issuing that is not interrupted. */
  function IssueAll(c: Comp, winners: seq<nat>, env: Env): (r: Comp)
    requires Known(c, winners)
    ensures c.vouchers <= r.vouchers && r.entries == c.entries && r.phase == c.phase
    decreases |winners|
  {
    if winners == [] then c
    else if !Due(c, winners[0]) then IssueAll(c, winners[1..], env)
    else
      match FreeCode(c.taken, env, winners[0], 0)
      case None => IssueAll(c, winners[1..], env)
      case Some(code) => IssueAll(Issued(c, winners[0], code), winners[1..], env)
  }

  /** A crash cuts the issue short after as many vouchers as there were writes left. */
  lemma {:induction false} IssueExact(c: Comp, winners: seq<nat>, env: Env, left: nat)
    requires Known(c, winners)
    ensures var p, all := IssueFrom(c, winners, env, left), IssueAll(c, winners, env).vouchers;
      && p.comp.vouchers == all[..Min(|c.vouchers| + left, |all|)]
      && (p.Alive? <==> left >= |all| - |c.vouchers|) && (p.Alive? ==> p.comp == IssueAll(c, winners, env))
    decreases |winners|
  {
    if winners != [] {
      var e, rest := winners[0], winners[1..];
      if !Due(c, e) || FreeCode(c.taken, env, e, 0).None? {
        IssueExact(c, rest, env, left);
      } else if left > 0 {
        IssueExact(Issued(c, e, FreeCode(c.taken, env, e, 0).value), rest, env, left - 1);
      } else {
        assert Issued(c, e, FreeCode(c.taken, env, e, 0).value).vouchers[..|c.vouchers|] == c.vouchers;
      }
    }
  }

  /** What a closing tick that goes through issues. */
  function Served(c: Comp, env: Env): Comp {
    var f := Standings(Starting(c, env), env);
    IssueAll(f, Listed(f, {Ranked}, env), env)
  }

  /** The writes of a closing tick up to and including the status change: activation, breaches, one
      for each closed account, one for each line of the board, the status. */
  function CompletesAt(c: Comp, env: Env): nat {
    2 + Writes(Starting(c, env), env)
  }

  /** Before that many writes a crash leaves the competition running; after them the standings are
      final and there is one voucher for each further write. */
  lemma TickExact(c: Comp, env: Env, k: nat)
    requires Closes(c, env) && c.vouchers == []
    ensures var p, at := Tick(c, env, k), CompletesAt(c, env);
      && (k < at ==> p.Crashed? && p.comp.phase != Completed)
      && (k >= at ==> IssuedUpTo(Standings(Starting(c, env), env), Served(c, env), p, k - at))
  {
    hide Tick, Starting, Closes, Finalised, Standings, Writes, Listed, IssueAll, IssuedUpTo, CompletesAt, Served;
    ClosesBy(c, env, k);
    NoVoucherInStandings(c, env);
    IssueSplits(c, env);
    if k > 1 {
      FinalisedExact(Starting(c, env), env, k - 2);
    }
  }

  lemma IssueSplits(c: Comp, env: Env)
    ensures var f := Standings(Starting(c, env), env);
      CompletesAt(c, env) == 2 + Writes(Starting(c, env), env) && Served(c, env) == IssueAll(f, Listed(f, {Ranked}, env), env)
  {
  }

  lemma FinalisedExact(b: Comp, env: Env, left: nat)
    requires b.phase == Running && Standings(b, env).vouchers == []
    ensures var f := Standings(b, env);
      var p, at, all := Finalised(b, env, left), Writes(b, env), IssueAll(f, Listed(f, {Ranked}, env), env);
      && (left < at ==> p.Crashed? && p.comp.phase != Completed)
      && (left >= at ==> IssuedUpTo(f, all, p, left - at))
  {
    hide Finalised, Standings, Listed, ReachedAfter, Writes, IssueAll, IssueFrom, IssuedUpTo, Board, ClosedAll, BoardWritten;
    var r, f := ReachedAfter(b, env, left), Standings(b, env);
    FinalisedShape(b, env, left);
    StandingsPhase(b, env);
    ReachesIssuing(b, env, left);
    if r.Issuing? {
      IssuingExact(f, Listed(f, {Ranked}, env), env, r.left);
    } else {
      StaysRunning(b, env, Finalised(b, env, left), r);
    }
  }

  lemma ReachesIssuing(b: Comp, env: Env, left: nat)
    ensures var r, at := ReachedAfter(b, env, left), Writes(b, env);
      (r.Issuing? <==> left >= at) && (r.Issuing? ==> r.left == left - at)
  {
    hide Listed, Board, ClosedAll;
  }

  /** `left` of the vouchers of `all` issued over the standings `f`. */
  predicate IssuedUpTo(f: Comp, all: Comp, p: Progress, left: nat) {
    && p.comp == f.(vouchers := p.comp.vouchers, taken := p.comp.taken) && p.comp.phase == Completed
    && p.comp.vouchers == all.vouchers[..Min(left, |all.vouchers|)]
    && (p.Alive? <==> left >= |all.vouchers|) && (p.Alive? ==> p.comp == all)
  }

  lemma IssuingExact(f: Comp, winners: seq<nat>, env: Env, left: nat)
    requires Known(f, winners) && f.phase == Completed && f.vouchers == []
    ensures IssuedUpTo(f, IssueAll(f, winners, env), IssueFrom(f, winners, env, left), left)
  {
    IssueExact(f, winners, env, left);
    IssueFrame(f, winners, env, left);
  }

  lemma ClosesBy(c: Comp, env: Env, k: nat)
    requires Closes(c, env)
    ensures Starting(c, env).phase == Running
    ensures if k > 1 then Tick(c, env, k) == Finalised(Starting(c, env), env, k - 2)
            else Tick(c, env, k).Crashed? && Tick(c, env, k).comp.phase != Completed
  {
    hide Finalised;
    MarkedFrame(Activated(c, env));
    hide BreachesMarked;
  }

  lemma StaysRunning(b: Comp, env: Env, p: Progress, r: Reached)
    requires At(b, env, p, r) && !r.Issuing?
    ensures p.comp.phase == b.phase
  {
    if r.Writing? {
      PartlyWritten(ClosedAll(b, env), env, r.lines);
    }
  }

  // ---------- Who is served ----------

  /** The vouchers an uninterrupted closing issues go to exactly the winners for whom one of the five
      attempts finds a free code, one each. */
  lemma ServedMeans(c: Comp, env: Env)
    requires Sound(c) && Closes(c, env)
    ensures var f, s := Standings(Starting(c, env), env), Served(c, env);
      && (forall e: nat :: HasVoucher(s.vouchers, e) ==> e < |f.entries| && f.entries[e].status == Ranked && Wins(f, e))
      && (forall e: nat :: e < |f.entries| && f.entries[e].status == Ranked && Wins(f, e) ==>
           HasVoucher(s.vouchers, e) || Unlucky(s.taken, env, e))
      && (forall i, j :: 0 <= i < j < |s.vouchers| ==> s.vouchers[i].entry != s.vouchers[j].entry)
  {
    var f, all := Standings(Starting(c, env), env), Served(c, env);
    NothingIssuedBefore(c, env);
    NoVoucherInStandings(c, env);
    WinnersServed(f, env);
    hide Tick, Standings, Starting, Wins, Sound, CompletesAt, Served, Closes, HasVoucher;
    var n := CompletesAt(c, env) + |all.vouchers|;
    TickExact(c, env, n);
    TickKeeps(c, env, n);
    OnePerEntry(Tick(c, env, n).comp);
  }

  lemma WinnersServed(f: Comp, env: Env)
    requires f.vouchers == []
    ensures var s := IssueAll(f, Listed(f, {Ranked}, env), env);
      && (forall e: nat :: HasVoucher(s.vouchers, e) ==> e < |f.entries| && f.entries[e].status == Ranked && Wins(f, e))
      && (forall e: nat :: e < |f.entries| && f.entries[e].status == Ranked && Wins(f, e) ==>
           HasVoucher(s.vouchers, e) || Unlucky(s.taken, env, e))
  {
    var winners := Listed(f, {Ranked}, env);
    var n := |IssueAll(f, winners, env).vouchers|;
    IssueServes(f, winners, env, n);
    IssueExact(f, winners, env, n);
    hide IssueAll, IssueFrom, Wins, Unlucky;
  }

  lemma OnePerEntry(c: Comp)
    requires Sound(c)
    ensures forall i, j :: 0 <= i < j < |c.vouchers| ==> c.vouchers[i].entry != c.vouchers[j].entry
  {
  }

  // ---------- Who is lost ----------

  /** Whatever happens from here on, this entry never holds a voucher. */
  ghost predicate NeverServed(c: Comp, e: nat) {
    forall later: seq<Event> :: !HasVoucher(Run(c, later).vouchers, e)
  }

  lemma RunOne(c: Comp, ev: Event)
    ensures Run(c, [ev]) == Next(c, ev)
  {
    assert [ev][..0] == [];
    assert Run(c, []) == c;
  }

  /** A crash before completion can still be made good: the next tick may issue everything. */
  lemma RetryServes(c: Comp, env: Env, k: nat, i: nat)
    requires Sound(c) && Closes(c, env) && k < CompletesAt(c, env) && i < |Served(c, env).vouchers|
    ensures !NeverServed(Tick(c, env, k).comp, Served(c, env).vouchers[i].entry)
  {
    hide Tick, Standings, Starting, Closes, Sound, Served, CompletesAt;
    var d := Tick(c, env, k).comp;
    NothingIssuedBefore(c, env);
    TickExact(c, env, k);
    TickKeeps(c, env, k);
    ServedTheSame(c, env, k);
    NothingIssuedBefore(d, env);
    var n := CompletesAt(d, env) + |Served(d, env).vouchers|;
    TickExact(d, env, n);
    RunOne(d, TickAt(env, n));
    assert Run(d, [TickAt(env, n)]).vouchers == Served(c, env).vouchers;
  }

  lemma ServedTheSame(c: Comp, env: Env, k: nat)
    requires Closes(c, env) && Tick(c, env, k).Crashed? && Tick(c, env, k).comp.phase != Completed
    ensures Closes(Tick(c, env, k).comp, env) && Served(Tick(c, env, k).comp, env) == Served(c, env)
  {
    hide Tick, Standings, Starting, Closes;
    CrashKeepsStandings(c, env, k);
  }

  /** The winner whose voucher would be number `i` of the issue loses it for good if and only if the
      tick crashes after the competition is marked completed and before that voucher is written. An
      insert error that is not a code collision has the same effect without a crash: it ends the issue
      at that write, the engine logs it and goes on, and nothing looks at the competition again. */
  lemma VoucherLostIff(c: Comp, env: Env, k: nat, i: nat)
    requires Sound(c) && Closes(c, env) && i < |Served(c, env).vouchers|
    ensures NeverServed(Tick(c, env, k).comp, Served(c, env).vouchers[i].entry)
      <==> CompletesAt(c, env) <= k <= CompletesAt(c, env) + i
  {
    hide Tick, Standings, Starting, Sound, Served, CompletesAt;
    var all, at, d := Served(c, env).vouchers, CompletesAt(c, env), Tick(c, env, k).comp;
    NothingIssuedBefore(c, env);
    ServedMeans(c, env);
    TickExact(c, env, k);
    if k < at {
      RetryServes(c, env, k, i);
    } else {
      TickKeeps(c, env, k);
      FinalVouchers(d, all[i].entry);
      if k > at + i {
        assert d.vouchers[i].entry == all[i].entry;
      }
    }
  }

  lemma FinalVouchers(d: Comp, e: nat)
    requires Sound(d) && d.phase == Completed
    ensures NeverServed(d, e) <==> !HasVoucher(d.vouchers, e)
  {
    hide Sound;
    forall later: seq<Event> ensures Run(d, later).vouchers == d.vouchers {
      VouchersNowOrNever(d, later);
    }
    assert Run(d, []) == d;
  }

  /** So a crash costs some winner the voucher if and only if it comes after the status change and
      before the last voucher. */
  lemma SomeVoucherLostIff(c: Comp, env: Env, k: nat)
    requires Sound(c) && Closes(c, env)
    ensures (exists e: nat :: HasVoucher(Served(c, env).vouchers, e) && NeverServed(Tick(c, env, k).comp, e))
      <==> CompletesAt(c, env) <= k < CompletesAt(c, env) + |Served(c, env).vouchers|
  {
    hide Tick, Standings, Starting, Sound, Served, NeverServed, CompletesAt;
    var all := Served(c, env).vouchers;
    forall i: nat | i < |all|
      ensures NeverServed(Tick(c, env, k).comp, all[i].entry)
        <==> CompletesAt(c, env) <= k <= CompletesAt(c, env) + i
    {
      VoucherLostIff(c, env, k, i);
    }
    if all != [] {
      var last := |all| - 1;
      assert HasVoucher(all, all[last].entry);
    }
  }
}
