/** Finalisation retried under changing circumstances: every tick has prices, row orders, lock-outs
    and voucher codes of its own. */
module Retries {
  import opened Options
  import opened Capital
  import opened Competitions
  import opened Finalisation
  import Corrections

  /** One tick and the number of writes it gets to commit. */
  datatype Try = Try(env: Env, crashAfter: nat)

  function AfterTries(c: Comp, tries: seq<Try>): Comp {
    if tries == [] then c
    else
      var last := tries[|tries| - 1];
      Tick(AfterTries(c, tries[..|tries| - 1]), last.env, last.crashAfter).comp
  }

  /** The entries whose closing transaction this tick gets to. */
  function ReachedBy(c: Comp, env: Env, k: nat): set<nat> {
    if Closes(c, env) && k > 1 then Prefix(Listed(Starting(c, env), {Competing}, env), k - 2) else {}
  }

  /** The circumstances under which the tries got to this entry, in order. */
  function EnvsReaching(c: Comp, tries: seq<Try>, e: nat): seq<Env> {
    if tries == [] then []
    else
      var front, last := tries[..|tries| - 1], tries[|tries| - 1];
      EnvsReaching(c, front, e)
      + if e in ReachedBy(AfterTries(c, front), last.env, last.crashAfter) then [last.env] else []
  }

  // ---------- One account under several closings ----------

  function Through(s: AccountState, e: nat, envs: seq<Env>): AccountState {
    if envs == [] then s else Frozen(Through(s, e, envs[..|envs| - 1]), e, envs[|envs| - 1])
  }

  /** This closing transaction fails on the account. */
  predicate Fails(s: AccountState, e: nat, env: Env) {
    s.status != Active || env.stuck(e) || Unsettleable(s.trades, env.value)
  }

  /** The place of the first closing that does not fail, or the number of closings. */
  function FirstSettling(s: AccountState, e: nat, envs: seq<Env>): (first: nat)
    ensures first <= |envs|
    ensures forall i :: 0 <= i < first ==> Fails(s, e, envs[i])
    ensures first < |envs| ==> !Fails(s, e, envs[first])
  {
    if envs == [] then 0
    else
      var n := |envs| - 1;
      var first := FirstSettling(s, e, envs[..n]);
      if first == n && Fails(s, e, envs[n]) then n + 1 else first
  }

  /** However often it is reached, an account ends as the first closing that did not fail left it. */
  lemma {:induction false} ThroughIsFirst(s: AccountState, e: nat, envs: seq<Env>)
    ensures var first := FirstSettling(s, e, envs);
      && Through(s, e, envs) == (if first < |envs| then Frozen(s, e, envs[first]) else s)
      && (Through(s, e, envs).status == Active <==> s.status == Active && first == |envs|)
  {
    if envs != [] {
      var n := |envs| - 1;
      hide Frozen, Fails;
      ThroughIsFirst(s, e, envs[..n]);
      var first := FirstSettling(s, e, envs[..n]);
      if first < n {
        FrozenStatus(s, e, envs[first]);
        FrozenStatus(Through(s, e, envs[..n]), e, envs[n]);
      } else {
        FrozenStatus(s, e, envs[n]);
      }
    }
  }

  lemma FrozenStatus(s: AccountState, e: nat, env: Env)
    ensures Fails(s, e, env) ==> Frozen(s, e, env) == s
    ensures !Fails(s, e, env) ==> s.status == Active && Frozen(s, e, env).status == Closed
    ensures s.status != Active ==> Frozen(s, e, env) == s
  {
  }

  // ---------- One try ----------

  /** Whatever becomes of a tick, the accounts it got to were put through their closing transaction and
      the others were left alone. */
  lemma TickAccounts(c: Comp, env: Env, k: nat)
    ensures var d, reached := Tick(c, env, k).comp, ReachedBy(c, env, k);
      && |d.entries| == |c.entries|
      && forall e: nat :: e < |c.entries| ==>
           d.entries[e].account == if e in reached then Frozen(c.entries[e].account, e, env) else c.entries[e].account
  {
    hide Finalised, ReachedAfter, Listed, FrozenIn, Frozen;
    var b := Starting(c, env);
    MarkingKeepsAccounts(Activated(c, env));
    if Closes(c, env) && k > 1 {
      FinalisedAccounts(b, env, k - 2);
    }
  }

  lemma MarkingKeepsAccounts(c: Comp)
    ensures var d := BreachesMarked(c);
      |d.entries| == |c.entries| && forall e: nat :: e < |c.entries| ==> d.entries[e].account == c.entries[e].account
  {
  }

  lemma FinalisedAccounts(b: Comp, env: Env, left: nat)
    ensures var d, reached := Finalised(b, env, left).comp, Prefix(Listed(b, {Competing}, env), left);
      && |d.entries| == |b.entries|
      && forall e: nat :: e < |b.entries| ==> d.entries[e].account == FrozenEntry(b.entries[e], e in reached, e, env).account
  {
    hide Finalised, Listed, FrozenIn, Frozen, Standings, Board, IssueFrom;
    FinalisedShape(b, env, left);
    ListedCandidates(b, env, left);
    var r, all := ReachedAfter(b, env, left), ClosedAll(b, env);
    match r
    case Closing(_) =>
    case Writing(n) => PartlyWritten(all, env, n);
    case Issuing(l) =>
      var f := Standings(b, env);
      StandingsAccounts(b, env);
      IssueFrame(f, Listed(f, {Ranked}, env), env, l);
  }

  /** Competing on an account that has not failed. */
  predicate StillIn(en: Entry) {
    en.status == Competing && en.account.status != Failed
  }

  predicate InRunning(en: Entry) {
    en.status in {Competing, Ranked}
  }

  /** A crash before completion keeps who is in the running, and takes nobody out of the closing that it
      did not get to. */
  lemma CrashKeepsField(c: Comp, env: Env, k: nat)
    requires Closes(c, env) && Tick(c, env, k).Crashed? && Tick(c, env, k).comp.phase != Completed
    ensures var a, z := BreachesMarked(c).entries, BreachesMarked(Tick(c, env, k).comp).entries;
      && |z| == |a| == |c.entries|
      && forall e: nat :: e < |a| ==>
           && (InRunning(z[e]) <==> InRunning(a[e]))
           && (z[e].status == Competing ==> a[e].status == Competing)
           && (a[e].status == Competing ==> z[e].status == Competing || e in ReachedBy(c, env, k))
  {
    hide Tick, BreachesMarked, ReachedBy, Starting, Closes;
    StartingEntries(c, env);
    if k > 1 {
      var p, r := Tick(c, env, k), ReachedAfter(Starting(c, env), env, k - 2);
      CrashedEarly(c, env, k);
      StartingNoBreach(c, env);
      CrashKeepsNoBreach(Starting(c, env), env, p, r);
      MarkedNoBreach(p.comp);
      ReachedHere(c, env, k);
      CrashedField(Starting(c, env), env, k - 2, p);
    } else {
      NothingYet(c, env, k);
    }
  }

  lemma StartingEntries(c: Comp, env: Env)
    ensures Starting(c, env).entries == BreachesMarked(c).entries && |BreachesMarked(c).entries| == |c.entries|
  {
  }

  lemma StartingNoBreach(c: Comp, env: Env)
    ensures NoBreach(Starting(c, env))
  {
    MarkedNoBreach(Activated(c, env));
  }

  lemma ReachedHere(c: Comp, env: Env, k: nat)
    requires Closes(c, env) && k > 1
    ensures ReachedBy(c, env, k) == Prefix(Listed(Starting(c, env), {Competing}, env), k - 2)
  {
  }

  lemma NothingYet(c: Comp, env: Env, k: nat)
    requires k <= 1
    ensures BreachesMarked(Tick(c, env, k).comp).entries == BreachesMarked(c).entries
  {
  }

  lemma CrashedField(b: Comp, env: Env, left: nat, p: Progress)
    requires At(b, env, p, ReachedAfter(b, env, left)) && !ReachedAfter(b, env, left).Issuing?
    ensures |p.comp.entries| == |b.entries|
    ensures forall e: nat :: e < |b.entries| ==>
      && (InRunning(p.comp.entries[e]) <==> InRunning(b.entries[e]))
      && (p.comp.entries[e].status == Competing ==> b.entries[e].status == Competing)
      && (b.entries[e].status == Competing ==>
           p.comp.entries[e].status == Competing || e in Prefix(Listed(b, {Competing}, env), left))
  {
    hide Listed, Board, FrozenIn, Frozen;
    ListedCandidates(b, env, left);
    match ReachedAfter(b, env, left)
    case Closing(_) =>
    case Writing(n) => PartlyWritten(ClosedAll(b, env), env, n);
  }

  // ---------- Any number of tries ----------

  lemma {:induction false} AccountsThroughTries(c: Comp, tries: seq<Try>)
    ensures |AfterTries(c, tries).entries| == |c.entries|
    ensures forall e: nat :: e < |c.entries| ==>
      AfterTries(c, tries).entries[e].account == Through(c.entries[e].account, e, EnvsReaching(c, tries, e))
  {
    if tries != [] {
      var front, last := tries[..|tries| - 1], tries[|tries| - 1];
      hide Tick, ReachedBy, Frozen;
      AccountsThroughTries(c, front);
      TickAccounts(AfterTries(c, front), last.env, last.crashAfter);
      forall e: nat | e < |c.entries|
        ensures AfterTries(c, tries).entries[e].account == Through(c.entries[e].account, e, EnvsReaching(c, tries, e))
      {
        var before := EnvsReaching(c, front, e);
        assert (before + [last.env])[..|before|] == before;
        assert before + [] == before;
      }
    }
  }

  /** Every try finds the competition due, and crashes before marking it completed. */
  ghost predicate CrashedTries(c: Comp, tries: seq<Try>) {
    forall i :: 0 <= i < |tries| ==>
      var d := AfterTries(c, tries[..i]);
      var p := Tick(d, tries[i].env, tries[i].crashAfter);
      Closes(d, tries[i].env) && p.Crashed? && p.comp.phase != Completed
  }

  lemma CrashedFront(c: Comp, tries: seq<Try>)
    requires CrashedTries(c, tries) && tries != []
    ensures CrashedTries(c, tries[..|tries| - 1])
    ensures var d, last := AfterTries(c, tries[..|tries| - 1]), tries[|tries| - 1];
      var p := Tick(d, last.env, last.crashAfter);
      Closes(d, last.env) && p.Crashed? && p.comp.phase != Completed && AfterTries(c, tries) == p.comp
  {
    hide Tick, Closes;
    var n := |tries| - 1;
    assert forall i :: 0 <= i < n ==> tries[..n][..i] == tries[..i];
  }

  lemma {:induction false} TriesKeepField(c: Comp, tries: seq<Try>)
    requires Sound(c) && CrashedTries(c, tries)
    ensures var d := AfterTries(c, tries);
      var a, z := BreachesMarked(c).entries, BreachesMarked(d).entries;
      && Sound(d) && |z| == |a| == |c.entries|
      && forall e: nat :: e < |a| ==>
           && (InRunning(z[e]) <==> InRunning(a[e]))
           && (z[e].status == Competing ==> a[e].status == Competing)
           && (a[e].status == Competing ==> z[e].status == Competing || EnvsReaching(c, tries, e) != [])
           && (a[e].status != Competing ==> EnvsReaching(c, tries, e) == [])
  {
    hide Tick, BreachesMarked, ReachedBy, Sound, Closes, CrashedTries, InRunning;
    MarkingKeepsAccounts(c);
    if tries != [] {
      var front, last := tries[..|tries| - 1], tries[|tries| - 1];
      CrashedFront(c, tries);
      TriesKeepField(c, front);
      var d := AfterTries(c, front);
      TickKeeps(d, last.env, last.crashAfter);
      CrashKeepsField(d, last.env, last.crashAfter);
      ReachesCompeting(d, last.env, last.crashAfter);
    }
  }

  lemma ReachesCompeting(c: Comp, env: Env, k: nat)
    ensures |BreachesMarked(c).entries| == |c.entries|
    ensures forall e :: e in ReachedBy(c, env, k) ==>
      e < |c.entries| && BreachesMarked(c).entries[e].status == Competing
  {
    if Closes(c, env) && k > 1 {
      hide BreachesMarked, Listed;
      StartingEntries(c, env);
      ListedCandidates(Starting(c, env), env, k - 2);
    }
  }

  // ---------- The try that goes through ----------

  lemma CompletingTick(c: Comp, env: Env, k: nat)
    requires Sound(c) && Closes(c, env) && Tick(c, env, k).Alive?
    ensures var a, r := BreachesMarked(c).entries, Tick(c, env, k).comp;
      && |r.entries| == |a| == |c.entries|
      && forall e: nat :: e < |a| ==>
           && (r.entries[e].status == Ranked <==> InRunning(a[e]))
           && (a[e].status == Competing ==> e in ReachedBy(c, env, k))
  {
    hide Tick, BreachesMarked, ReachedBy, Starting, Closes, Standings, Sound, Listed, Writes, Finalised;
    var b := Starting(c, env);
    StartingEntries(c, env);
    EndsInTime(c, env, k);
    ReachedHere(c, env, k);
    ListedCandidates(b, env, k - 2);
    NothingIssuedBefore(c, env);
    ClosingTick(c, env, k);
    TickKeeps(c, env, k);
    CompletedHasNobodyCompeting(Tick(c, env, k).comp);
    StandingsField(b, env);
  }

  lemma EndsInTime(c: Comp, env: Env, k: nat)
    requires Closes(c, env) && Tick(c, env, k).Alive?
    ensures k > 1 && k - 2 >= |Listed(Starting(c, env), {Competing}, env)|
  {
    hide Finalised, Listed, Board, At, ClosedAll, BreachesMarked;
    FinalisedShape(Starting(c, env), env, k - 2);
  }

  lemma StandingsField(b: Comp, env: Env)
    ensures |Standings(b, env).entries| == |b.entries|
    ensures forall e: nat :: e < |b.entries| ==> (InRunning(Standings(b, env).entries[e]) <==> InRunning(b.entries[e]))
  {
    var d := ClosedAll(b, env);
    PartlyWritten(d, env, |Board(d, env)|);
  }

  /** What marking the breaches leaves of the field. */
  lemma MarkedField(c: Comp)
    ensures var a := BreachesMarked(c).entries;
      && |a| == |c.entries|
      && forall e: nat :: e < |a| ==>
           && (a[e].status == Competing <==> StillIn(c.entries[e]))
           && (InRunning(a[e]) <==> c.entries[e].status == Ranked || StillIn(c.entries[e]))
  {
  }

  /** Some order of the rankable entries for which the stored ranks are those of the balances. */
  ghost predicate RanksUpToDate(c: Comp) {
    exists order :: Corrections.IsReadOrder(c, order) && Corrections.UpToDate(c, order)
  }

  /** Whatever each of a series of ticks meets, and before whichever write it crashes: once one goes
      through, the account of everybody who was competing on an account that had not failed is as the
      first closing that got to it without failing left it (untouched when all failed), these and
      whoever was ranked before are ranked, by the balances that this left, nobody else is, and vouchers
      went to exactly the winners for whom the last tick found a free code. */
  lemma RetriesConverge(c: Comp, tries: seq<Try>, last: Try)
    requires Sound(c) && CrashedTries(c, tries)
    requires Closes(AfterTries(c, tries), last.env)
    requires Tick(AfterTries(c, tries), last.env, last.crashAfter).Alive?
    ensures var r := AfterTries(c, tries + [last]);
      && r.phase == Completed && |r.entries| == |c.entries| && RanksUpToDate(r)
      && (forall e: nat :: e < |c.entries| ==>
           var s, envs := c.entries[e].account, EnvsReaching(c, tries + [last], e);
           var first := FirstSettling(s, e, envs);
           && (envs != [] <==> StillIn(c.entries[e]))
           && r.entries[e].account == (if first < |envs| then Frozen(s, e, envs[first]) else s)
           && (r.entries[e].status == Ranked <==> c.entries[e].status == Ranked || StillIn(c.entries[e])))
      && (forall e: nat :: HasVoucher(r.vouchers, e) ==> Wins(r, e))
      && (forall e: nat :: e < |r.entries| && r.entries[e].status == Ranked && Wins(r, e) ==>
           HasVoucher(r.vouchers, e) || Unlucky(r.taken, last.env, e))
  {
    hide Tick, BreachesMarked, ReachedBy, Sound, Closes, CrashedTries, InRunning, Wins, Unlucky, HasVoucher, RanksUpToDate,
         Frozen, Standings, Starting, StillIn;
    var d, all := AfterTries(c, tries), tries + [last];
    assert all[..|all| - 1] == tries;
    MarkedField(c);
    TriesKeepField(c, tries);
    NothingIssuedBefore(d, last.env);
    CompletingTick(d, last.env, last.crashAfter);
    ClosingTick(d, last.env, last.crashAfter);
    ClosingRanks(d, last.env, last.crashAfter);
    ReachesCompeting(d, last.env, last.crashAfter);
    AccountsThroughTries(c, all);
    forall e: nat | e < |c.entries| {
      ThroughIsFirst(c.entries[e].account, e, EnvsReaching(c, all, e));
    }
  }

  lemma ClosingRanks(c: Comp, env: Env, k: nat)
    requires Closes(c, env) && Tick(c, env, k).Alive? && c.vouchers == []
    ensures RanksUpToDate(Tick(c, env, k).comp)
  {
    hide Tick, ReadOrder, Starting, ClosedAll, Closes, Corrections.UpToDate;
    Corrections.ClosingTickIsUpToDate(c, env, k);
  }

  // ---------- Where a retry ends elsewhere ----------

  /** What a settled trade is stamped with; without a price it is closed at nothing. */
  function ResultOf(v: Valuation): int {
    if v.Worth? then v.pnl else 0
  }

  /** Both circumstances put the same result on every open trade. */
  predicate SettleAlike(trades: seq<Trade>, one: Env, other: Env) {
    forall i :: 0 <= i < |trades| && trades[i].status == Open ==>
      ResultOf(one.value(trades[i])) == ResultOf(other.value(trades[i]))
  }

  lemma FrozenAlikeIff(s: AccountState, e: nat, one: Env, other: Env)
    requires !Fails(s, e, one) && !Fails(s, e, other)
    ensures Frozen(s, e, one) == Frozen(s, e, other) <==> SettleAlike(s.trades, one, other)
  {
    var a, b := Liquidated(s, one.value), Liquidated(s, other.value);
    if SettleAlike(s.trades, one, other) {
      PnlAlike(s.trades, one, other);
      assert a.trades == b.trades;
    } else {
      var i :| 0 <= i < |s.trades| && s.trades[i].status == Open
               && ResultOf(one.value(s.trades[i])) != ResultOf(other.value(s.trades[i]));
      ResultAt(s, one, i);
      ResultAt(s, other, i);
      assert a.trades[i].pnl != b.trades[i].pnl;
    }
  }

  lemma ResultAt(s: AccountState, env: Env, i: nat)
    requires i < |s.trades| && s.trades[i].status == Open && !Unsettleable(s.trades, env.value)
    ensures var r := Liquidated(s, env.value).trades;
      i < |r| && r[i] == s.trades[i].(status := Settled, pnl := ResultOf(env.value(s.trades[i])))
  {
  }

  lemma {:induction false} PnlAlike(trades: seq<Trade>, one: Env, other: Env)
    requires SettleAlike(trades, one, other)
    ensures LiquidationPnl(trades, one.value) == LiquidationPnl(trades, other.value)
  {
    if trades != [] {
      PnlAlike(trades[..|trades| - 1], one, other);
    }
  }

  /** The closings that reached the account come to what `env` alone would have done to it: all of them
      failed as it does, or the first that did not puts the same results on the open trades. */
  predicate EndsAlike(s: AccountState, e: nat, envs: seq<Env>, env: Env) {
    var first := FirstSettling(s, e, envs);
    if Fails(s, e, env) then first == |envs|
    else first < |envs| && SettleAlike(s.trades, envs[first], env)
  }

  /** Against a closing that goes through at once, in whatever circumstances, those of the first try for
      one: a competitor's account ends after the retries as it would have then if and only if the two
      come to the same on its open trades. Other accounts always do. */
  lemma EndsAsUninterruptedIff(c: Comp, tries: seq<Try>, last: Try, atOnce: Try, e: nat)
    requires Sound(c) && CrashedTries(c, tries) && e < |c.entries|
    requires Closes(AfterTries(c, tries), last.env)
    requires Tick(AfterTries(c, tries), last.env, last.crashAfter).Alive?
    requires Closes(c, atOnce.env) && Tick(c, atOnce.env, atOnce.crashAfter).Alive?
    ensures var r, u := AfterTries(c, tries + [last]), Tick(c, atOnce.env, atOnce.crashAfter).comp;
      && |r.entries| == |u.entries| == |c.entries|
      && (r.entries[e].account == u.entries[e].account
          <==> (StillIn(c.entries[e]) ==>
                  EndsAlike(c.entries[e].account, e, EnvsReaching(c, tries + [last], e), atOnce.env)))
  {
    hide Tick, BreachesMarked, ReachedBy, Sound, Closes, CrashedTries, InRunning, RanksUpToDate, Frozen, AfterTries,
         EnvsReaching, FirstSettling, SettleAlike, Fails, StillIn;
    MarkedField(c);
    RetriesConverge(c, tries, last);
    CompletingTick(c, atOnce.env, atOnce.crashAfter);
    TickAccounts(c, atOnce.env, atOnce.crashAfter);
    ReachesCompeting(c, atOnce.env, atOnce.crashAfter);
    AlikeIff(c.entries[e].account, e, EnvsReaching(c, tries + [last], e), atOnce.env);
  }

  lemma AlikeIff(s: AccountState, e: nat, envs: seq<Env>, env: Env)
    ensures var first := FirstSettling(s, e, envs);
      EndsAlike(s, e, envs, env)
      <==> (if first < |envs| then Frozen(s, e, envs[first]) else s) == Frozen(s, e, env)
    ensures envs == [] ==> FirstSettling(s, e, envs) == 0
  {
    hide Frozen, SettleAlike, Fails;
    var first := FirstSettling(s, e, envs);
    FrozenStatus(s, e, env);
    if first < |envs| {
      FrozenStatus(s, e, envs[first]);
      if !Fails(s, e, env) {
        FrozenAlikeIff(s, e, envs[first], env);
      }
    }
  }
}
