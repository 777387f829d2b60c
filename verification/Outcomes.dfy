/** What a pass decides, in the numbers of the account alone. Percentages are of hundred, money is in
    cents. */
module Outcomes {
  import opened Options
  import opened Arithmetic
  import opened Capital
  import opened Drawdown
  import opened Enforcement
  import Scaling

  // ---------- Passing ----------

  /** The profit is at the target, or at a tenth of the start where no target is set. */
  predicate AtTarget(balance: int, start: int, target: int) {
    if target > 0 then balance - start >= target else 10 * (balance - start) >= start
  }

  predicate NothingOpen(trades: seq<Trade>) {
    forall i :: 0 <= i < |trades| ==> trades[i].status != Open
  }

  /** passAccount passes an active account exactly with its target reached, nothing open and the review
      raised; it changes nothing but the status. */
  lemma PassedIff(s: AccountState, reviewRaised: bool)
    requires s.status == Active
    ensures var t := AfterPass(s, reviewRaised);
      && (t.status == Passed <==> AtTarget(s.balance, s.start, s.profitTarget) && NothingOpen(s.trades) && reviewRaised)
      && (t.status != Passed ==> t == s) && t == s.(status := t.status)
  {
  }

  /** Today's realised loss is at or above a positive limit, in percent of the start. */
  predicate OverDailyLimit(start: int, limit: Option<real>, today: int) {
    && limit.Some? && limit.value > 0.0 && start > 0 && today < 0
    && 100.0 * (-today) as real >= limit.value * start as real
  }

  lemma DailyBreachIff(acc: AccountState, env: Env)
    ensures DailyBreach(acc, env)
      <==> OverDailyLimit(acc.start, if acc.kind == Funded && env.model.Some? then Some(env.model.value.dailyDrawdownPct)
                                     else acc.dailyDrawdownPct, env.todayRealised)
  {
    if acc.start > 0 && DailyLimit(acc, env).Some? {
      ShareAtLeast((-env.todayRealised) as real, acc.start as real, DailyLimit(acc, env).value);
    }
  }

  lemma ShareAtLeast(part: real, whole: real, pct: real)
    requires whole > 0.0
    ensures part / whole * 100.0 >= pct <==> 100.0 * part >= pct * whole
  {
    var q := part / whole;
    assert q * whole == part;
    if q * 100.0 >= pct {
      assert (q * 100.0 - pct) * whole >= 0.0;
    } else {
      assert (pct - q * 100.0) * whole > 0.0;
    }
  }

  /** The highest equity the row remembers, or where it started. */
  function HighWater(s: AccountState): int {
    if s.eodPeak.Some? then Max(s.eodPeak.value, s.balance) else Max(s.start, s.balance)
  }

  /** The balance is below (or, `orAt`, at) the share of the high-water mark that may not be lost. */
  predicate UnderTrailing(s: AccountState, pct: real, orAt: bool) {
    var l, r := 100.0 * s.balance as real, HighWater(s) as real * (100.0 - pct);
    l < r || (orAt && l == r)
  }

  lemma TrailingIff(s: AccountState, pct: real)
    ensures UnderTrailing(s, pct, false) <==> (s.balance as real) < Trailing(Max(Anchor(s), s.balance), pct)
    ensures UnderTrailing(s, pct, true) <==> s.balance as real <= Trailing(Max(Anchor(s), s.balance), pct)
  {
    var high := HighWater(s) as real;
    assert high * (100.0 - pct) == 100.0 * (high * (1.0 - pct / 100.0));
  }

  /** A pass over an evaluation account, on whatever copy: it passes exactly when neither time rule
      applies, the copy is above its floor, within its daily limit and at the target, both holds are off,
      and the live row is at the target with nothing open and the review raised. It expires exactly
      when the phase has ended. */
  lemma EvaluationPassedIff(acc: AccountState, s: AccountState, env: Env)
    requires s.status == Active && acc.kind != Funded
    ensures AfterProcess(acc, s, env).status == Passed
      <==> && !env.phaseEnded && !env.inactive
           && !(acc.start > 0 && UnderTrailing(acc, acc.maxDrawdownPct, true))
           && !OverDailyLimit(acc.start, acc.dailyDrawdownPct, env.todayRealised)
           && AtTarget(acc.balance, acc.start, acc.profitTarget) && !env.daysHeld && !env.consistencyHeld
           && AtTarget(s.balance, s.start, s.profitTarget) && NothingOpen(s.trades) && env.reviewRaised
    ensures AfterProcess(acc, s, env).status == Expired <==> env.phaseEnded
  {
    DailyBreachIff(acc, env);
    TrailingIff(acc, acc.maxDrawdownPct);
    PassedIff(AfterRatchet(acc, s, env), env.reviewRaised);
    RatchetedFrame(s, ProcessResolution(acc, env));
    assert FloorBreach(acc, env) <==> acc.start > 0 && UnderTrailing(acc, acc.maxDrawdownPct, true);
    assert TargetReached(acc) <==> AtTarget(acc.balance, acc.start, acc.profitTarget);
    hide UnderTrailing, OverDailyLimit, Trailing, Ratcheted, DailyBreach, FloorBreach, AtTarget, TargetReached;
    BranchStatuses(BranchOf(acc, env, HasOpen(s.trades)), AfterRatchet(acc, s, env), env);
  }

  // ---------- Failing ----------

  predicate CanSettle(trades: seq<Trade>, value: Valuer) {
    forall i :: 0 <= i < |trades| && trades[i].status == Open ==> !value(trades[i]).Unvaluable?
  }

  /** An evaluation account that nobody else moved, and to which no time rule applies, fails exactly when
      its balance is below its share of the high-water mark, the percentage is positive and its open
      trades can be valued. Its daily limit does not matter. */
  lemma EvaluationFailedIff(s: AccountState, env: Env)
    requires s.status == Active && s.start > 0 && s.kind != Funded && !env.phaseEnded && !env.inactive
    ensures AfterProcess(s, s, env).status == Failed
      <==> UnderTrailing(s, s.maxDrawdownPct, false) && s.maxDrawdownPct > 0.0 && CanSettle(s.trades, env.value)
  {
    TrailingIff(s, s.maxDrawdownPct);
    FailsIffStrictlyBelowFloor(s, env);
  }

  /** The peak has reached the lock and the balance is below the level locked there. */
  predicate UnderNewLock(s: AccountState, pct: real, locksAtPct: real) {
    && 100.0 * HighWater(s) as real >= s.start as real * (100.0 + locksAtPct)
    && 10000.0 * s.balance as real < s.start as real * (100.0 + locksAtPct) * (100.0 - pct)
  }

  /** A funded account with a model fails exactly when the percentage of the model is positive, its open
      trades can be valued, and its balance is below its share of the high-water mark or, where the
      model locks, below the stored floor or below the level its peak now locks. */
  lemma FundedFailedIff(s: AccountState, env: Env)
    requires s.status == Active && s.start > 0 && s.kind == Funded && env.model.Some?
    ensures var m := env.model.value;
      AfterProcess(s, s, env).status == Failed
      <==> && m.maxDrawdownPct > 0.0 && CanSettle(s.trades, env.value)
           && (|| UnderTrailing(s, m.maxDrawdownPct, false)
               || (m.locksAtPct.Some?
                   && (|| (s.eodFloor.Some? && (s.balance as real) < s.eodFloor.value)
                       || UnderNewLock(s, m.maxDrawdownPct, m.locksAtPct.value))))
  {
    var m := env.model.value;
    TrailingIff(s, m.maxDrawdownPct);
    FailsIffStrictlyBelowFloor(s, env);
    if m.locksAtPct.Some? {
      NewLockIff(s, m.maxDrawdownPct, m.locksAtPct.value);
    }
    hide UnderTrailing, UnderNewLock, Trailing, LockThreshold, LockLevel, AfterProcess;
  }

  lemma NewLockIff(s: AccountState, pct: real, locksAtPct: real)
    ensures UnderNewLock(s, pct, locksAtPct)
      <==> && Max(Anchor(s), s.balance) as real >= LockThreshold(s.start, locksAtPct)
           && (s.balance as real) < LockLevel(s.start, locksAtPct, pct)
  {
    var start, keep := s.start as real, 1.0 - pct / 100.0;
    var at := start * (100.0 + locksAtPct);
    assert at == 100.0 * (start * (1.0 + locksAtPct / 100.0));
    assert at * (100.0 - pct) == 100.0 * (at * keep);
    assert at * keep == 100.0 * (LockThreshold(s.start, locksAtPct) * keep);
  }

  // ---------- Growing ----------

  /** A pass over a funded account evaluates its plan exactly when the copy is above its floor and within
      the daily limit, that of the model where there is one. */
  lemma FundedGrowsIff(acc: AccountState, s: AccountState, env: Env)
    requires acc.kind == Funded && env.plan.Some?
    ensures var t, grown := AfterProcess(acc, s, env), Scaling.Evaluated(s, env.plan.value);
      var pct := if env.model.Some? then env.model.value.maxDrawdownPct else env.fundedPct;
      var locksAt := if env.model.Some? then env.model.value.locksAtPct else None;
      var limit := if env.model.Some? then Some(env.model.value.dailyDrawdownPct) else acc.dailyDrawdownPct;
      if || (acc.start > 0 && acc.balance as real <= Resolve(acc, acc.balance, pct, locksAt).floor)
         || OverDailyLimit(acc.start, limit, env.todayRealised)
      then t.claimed == s.claimed && t.multiplier == s.multiplier && t.ledger == s.ledger
      else t.claimed == grown.claimed && t.multiplier == grown.multiplier && t.ledger == grown.ledger
  {
    hide OverDailyLimit, DailyBreach, Resolve, Ratcheted, Scaling.Evaluated, AfterFail;
    DailyBreachIff(acc, env);
    RatchetedFrame(s, ProcessResolution(acc, env));
    EvaluationIgnoresFloor(s, AfterRatchet(acc, s, env), env.plan.value);
    FailKeepsPlan(AfterRatchet(acc, s, env), env.model, env.value);
  }

  lemma FailKeepsPlan(s: AccountState, model: Option<FundedModel>, value: Valuer)
    ensures var t := AfterFail(s, model, false, value);
      t.claimed == s.claimed && t.multiplier == s.multiplier && t.ledger == s.ledger
  {
    hide CloseOpen, VoidResting, LiquidationPnl, Resolve;
  }

  /** The evaluation does not read the two columns a ratchet writes. */
  lemma EvaluationIgnoresFloor(s: AccountState, t: AccountState, plan: Scaling.Plan)
    requires t == s.(eodPeak := t.eodPeak, eodFloor := t.eodFloor)
    ensures var a, b := Scaling.Evaluated(s, plan), Scaling.Evaluated(t, plan);
      a.claimed == b.claimed && a.multiplier == b.multiplier && a.ledger == b.ledger
  {
    hide Scaling.NextMultiplier, Scaling.PerMilestone, Scaling.Inject;
    if Scaling.Runs(plan) && s.start > 0 {
      InjectIgnoresFloor(s, t, Scaling.PerMilestone(plan, s.start), plan.maxSize, s.claimed + 1,
                         Scaling.Earned(Scaling.TradingProfit(s), s.start, plan));
      hide Scaling.Earned;
    }
  }

  lemma {:induction false} InjectIgnoresFloor(s: AccountState, t: AccountState, amount: real, cap: int, next: nat, last: nat)
    requires t == s.(eodPeak := t.eodPeak, eodFloor := t.eodFloor)
    ensures var a, b := Scaling.Inject(s, amount, cap, next, last), Scaling.Inject(t, amount, cap, next, last);
      (a.Some? <==> b.Some?) && (a.Some? ==> a.value.ledger == b.value.ledger)
    decreases last + 1 - next
  {
    if !(next > last || (cap > 0 && s.balance as real + amount > cap as real)) && Cents(amount) != 0 {
      InjectIgnoresFloor(Adjusted(s, Cents(amount), ScalingIncrease(next)), Adjusted(t, Cents(amount), ScalingIncrease(next)),
                         amount, cap, next + 1, last);
    }
  }
}
