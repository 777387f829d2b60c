/** What one evaluation of a scaling plan does, in the numbers of the plan and the account alone. */
module Evaluations {
  import opened Options
  import opened Arithmetic
  import opened Capital
  import opened Scaling
  import ScalingRuns

  // ---------- What is claimed ----------

  /** The trading profit holds at least this many milestones. */
  predicate Reaches(s: AccountState, plan: Plan, milestones: nat) {
    100.0 * (s.balance - s.start - LedgerTotal(s.ledger)) as real >= milestones as real * plan.milestonePct * s.start as real
  }

  /** A percentage of the start, in hundredths of a cent. */
  function Share(start: int, pct: real): real {
    start as real * pct
  }

  /** One injection is less than half a cent, and the size cap would let it pass. */
  predicate TooSmall(s: AccountState, plan: Plan) {
    && 0.0 < Share(s.start, plan.increasePct) < 50.0
    && (plan.maxSize > 0 ==> 100.0 * s.balance as real + Share(s.start, plan.increasePct) <= 100.0 * plan.maxSize as real)
  }

  /** An evaluation claims exactly the milestones the trading profit holds, unless these are not more
      than before or the injection is too small to be booked. */
  lemma ClaimedIff(s: AccountState, plan: Plan, k: nat)
    requires plan.enabled && plan.milestonePct > 0.0 && plan.factor > 1.0 && s.start > 0 && k > s.claimed
    ensures Evaluated(s, plan).claimed == k <==> Reaches(s, plan, k) && !Reaches(s, plan, k + 1) && !TooSmall(s, plan)
    ensures Evaluated(s, plan).claimed == s.claimed <==> !Reaches(s, plan, s.claimed + 1) || TooSmall(s, plan)
  {
    EvaluationCount(s, plan);
    TooSmallIff(s, plan);
    ReachesIff(s, plan, k);
    ReachesIff(s, plan, k + 1);
    ReachesIff(s, plan, s.claimed + 1);
    hide Reaches, TooSmall, Earned, Refused, Evaluated;
  }

  /** A plan that is switched off, whose milestone is not positive or whose factor does not grow, and an
      account without a start, are left alone. */
  lemma IdlePlan(s: AccountState, plan: Plan)
    requires !plan.enabled || plan.milestonePct <= 0.0 || plan.factor <= 1.0 || s.start <= 0
    ensures Evaluated(s, plan) == s
  {
  }

  lemma ReachesIff(s: AccountState, plan: Plan, k: nat)
    requires Runs(plan) && s.start > 0 && k > 0
    ensures Reaches(s, plan, k) <==> Earned(TradingProfit(s), s.start, plan) >= k
  {
    ScalingRuns.EarnedAtLeast(TradingProfit(s), s.start, plan, k);
    var need := k as real * plan.milestonePct * s.start as real;
    assert TradingProfit(s) as real >= need / 100.0 <==> 100.0 * TradingProfit(s) as real >= need;
  }

  lemma TooSmallIff(s: AccountState, plan: Plan)
    requires s.start > 0
    ensures TooSmall(s, plan) <==> Refused(s, plan)
  {
    hide PerMilestone, Cents, Share;
    var x, y := Share(s.start, plan.increasePct), PerMilestone(plan, s.start);
    ShareIs(s.start, plan);
    InCents(x, y, s.balance, plan.maxSize);
  }

  lemma ShareIs(start: int, plan: Plan)
    requires start > 0
    ensures PerMilestone(plan, start) == Share(start, plan.increasePct) / 100.0
    ensures Share(start, plan.increasePct) > 0.0 <==> plan.increasePct > 0.0
  {
    ShareSign(start as real, plan.increasePct);
  }

  lemma InCents(x: real, y: real, balance: int, cap: int)
    requires y == x / 100.0
    ensures x > 0.0 ==> (Cents(y) == 0 <==> x < 50.0)
    ensures balance as real + y <= cap as real <==> 100.0 * balance as real + x <= 100.0 * cap as real
  {
  }

  lemma ShareSign(start: real, pct: real)
    requires start > 0.0
    ensures start * pct > 0.0 <==> pct > 0.0
  {
    if pct <= 0.0 {
      assert start * (-pct) >= 0.0;
    }
  }

  // ---------- What is booked ----------

  /** Rows `from` and later of a ledger book consecutive milestones, each an injection of the amount to
      the nearest cent, halves up, that fits under the cap, on a balance that runs from `balance`. */
  predicate Books(ledger: seq<LedgerRow>, from: nat, next: nat, amount: real, cap: int, balance: int) {
    from <= |ledger| && forall i :: from <= i < |ledger| ==>
      && InTurn(ledger, i, from, next, balance)
      && -0.5 < ledger[i].amount as real - amount <= 0.5
      && Fits(ledger[i].before, amount, cap)
      && ledger[i].after == ledger[i].before + ledger[i].amount
  }

  /** Row `i` is for the milestone whose turn it is, on the balance the row before left. */
  predicate InTurn(ledger: seq<LedgerRow>, i: nat, from: nat, next: nat, balance: int)
    requires from <= i < |ledger|
  {
    && ledger[i].source == ScalingIncrease(next + (i - from))
    && ledger[i].before == if i == from then balance else ledger[i - 1].after
  }

  lemma {:induction false} LoopBooks(s: AccountState, amount: real, cap: int, next: nat, last: nat)
    requires Inject(s, amount, cap, next, last).Some? && next <= last + 1
    ensures var t := Inject(s, amount, cap, next, last).value;
      && s.ledger <= t.ledger && Books(t.ledger, |s.ledger|, next, amount, cap, s.balance)
      && (|t.ledger| - |s.ledger| == last + 1 - next || !Fits(t.balance, amount, cap))
      && |t.ledger| - |s.ledger| <= last + 1 - next
      && t.balance - s.balance == LedgerTotal(t.ledger) - LedgerTotal(s.ledger)
    decreases last + 1 - next
  {
    hide Books, LedgerTotal, Inject, Cents;
    InjectOnce(s, amount, cap, next, last);
    if next <= last && Fits(s.balance, amount, cap) {
      var row := LedgerRow(Cents(amount), ScalingIncrease(next), s.balance, s.balance + Cents(amount));
      LedgerTotalAppend(s.ledger, row);
      LoopBooks(Adjusted(s, Cents(amount), ScalingIncrease(next)), amount, cap, next + 1, last);
      BooksOneMore(s.ledger, row, Inject(s, amount, cap, next, last).value.ledger, next, amount, cap);
    } else {
      BooksNothing(s.ledger, next, amount, cap, s.balance);
    }
  }

  predicate Fits(balance: int, amount: real, cap: int) {
    cap > 0 ==> balance as real + amount <= cap as real
  }

  lemma InjectOnce(s: AccountState, amount: real, cap: int, next: nat, last: nat)
    ensures Inject(s, amount, cap, next, last) ==
      if next > last || !Fits(s.balance, amount, cap) then Some(s)
      else if Cents(amount) == 0 then None
      else Inject(Adjusted(s, Cents(amount), ScalingIncrease(next)), amount, cap, next + 1, last)
  {
  }

  lemma BooksNothing(ledger: seq<LedgerRow>, next: nat, amount: real, cap: int, balance: int)
    ensures Books(ledger, |ledger|, next, amount, cap, balance)
  {
  }

  lemma BooksOneMore(before: seq<LedgerRow>, row: LedgerRow, ledger: seq<LedgerRow>, next: nat, amount: real, cap: int)
    requires before + [row] <= ledger && Books(ledger, |before| + 1, next + 1, amount, cap, row.after)
    requires row.source == ScalingIncrease(next) && row.amount == Cents(amount) && row.after == row.before + row.amount
    requires Fits(row.before, amount, cap)
    ensures before <= ledger && Books(ledger, |before|, next, amount, cap, row.before)
  {
    assert ledger[|before|] == (before + [row])[|before|] == row;
    assert -0.5 < row.amount as real - amount <= 0.5;
  }

  /** The row books this share to the nearest cent, halves up, and it fits under the cap. */
  predicate BooksShare(row: LedgerRow, share: real, cap: int) {
    && -50.0 < 100.0 * row.amount as real - share <= 50.0
    && row.after == row.before + row.amount
    && RoomFor(row.before, share, cap)
  }

  predicate RoomFor(balance: int, share: real, cap: int) {
    cap > 0 ==> 100.0 * balance as real + share <= 100.0 * cap as real
  }

  /** Every row an evaluation books is the plan's share of the starting balance, for the next milestone,
      and the balance moves by these rows. There is one for each milestone claimed, unless the next
      would have passed the cap; without an increase there is none. */
  lemma EvaluationBooks(s: AccountState, plan: Plan)
    ensures var t, share := Evaluated(s, plan), Share(s.start, plan.increasePct);
      && s.ledger <= t.ledger
      && (forall i :: |s.ledger| <= i < |t.ledger| ==>
           BooksShare(t.ledger[i], share, plan.maxSize) && InTurn(t.ledger, i, |s.ledger|, s.claimed + 1, s.balance))
      && t.balance - s.balance == LedgerTotal(t.ledger) - LedgerTotal(s.ledger)
      && |t.ledger| - |s.ledger| <= t.claimed - s.claimed
      && (|t.ledger| - |s.ledger| == t.claimed - s.claimed || plan.increasePct <= 0.0 || !RoomFor(t.balance, share, plan.maxSize))
      && (plan.increasePct <= 0.0 ==> t.ledger == s.ledger)
  {
    hide Share, PerMilestone, Earned, Inject, NextMultiplier, LedgerTotal, Books, BooksShare, InTurn, Fits, RoomFor, TradingProfit;
    if Runs(plan) && s.start > 0 && plan.increasePct > 0.0 {
      var earned := Earned(TradingProfit(s), s.start, plan);
      var amount := PerMilestone(plan, s.start);
      ShareIs(s.start, plan);
      if earned > s.claimed && Inject(s, amount, plan.maxSize, s.claimed + 1, earned).Some? {
        var t := Inject(s, amount, plan.maxSize, s.claimed + 1, earned).value;
        LoopBooks(s, amount, plan.maxSize, s.claimed + 1, earned);
        SharesBooked(t.ledger, |s.ledger|, s.claimed + 1, amount, Share(s.start, plan.increasePct), plan.maxSize, s.balance);
        RoomIs(t.balance, amount, Share(s.start, plan.increasePct), plan.maxSize);
        assert Evaluated(s, plan) == t.(multiplier := NextMultiplier(plan, s.start, earned), claimed := earned);
        hide Evaluated;
      }
    }
  }

  lemma SharesBooked(ledger: seq<LedgerRow>, from: nat, next: nat, amount: real, share: real, cap: int, balance: int)
    requires amount == share / 100.0 && Books(ledger, from, next, amount, cap, balance)
    ensures forall i :: from <= i < |ledger| ==> BooksShare(ledger[i], share, cap) && InTurn(ledger, i, from, next, balance)
  {
    hide BooksShare, Fits, InTurn;
    forall i | from <= i < |ledger| ensures BooksShare(ledger[i], share, cap) {
      ShareBooked(ledger[i], amount, share, cap);
    }
  }

  lemma ShareBooked(row: LedgerRow, amount: real, share: real, cap: int)
    requires amount == share / 100.0
    requires -0.5 < row.amount as real - amount <= 0.5 && Fits(row.before, amount, cap) && row.after == row.before + row.amount
    ensures BooksShare(row, share, cap)
  {
  }

  lemma RoomIs(balance: int, amount: real, share: real, cap: int)
    requires amount == share / 100.0
    ensures RoomFor(balance, share, cap) <==> Fits(balance, amount, cap)
  {
  }

  // ---------- What the multiplier becomes ----------

  /** 1, factor, factor^2, ... */
  predicate Powers(ms: seq<real>, factor: real) {
    ms != [] && ms[0] == 1.0 && forall i :: 0 <= i < |ms| - 1 ==> ms[i + 1] == Times(factor, ms[i])
  }

  function Times(x: real, y: real): real {
    x * y
  }

  function PowersTo(factor: real, n: nat): (ms: seq<real>)
    ensures |ms| == n + 1
  {
    if n == 0 then [1.0] else PowersTo(factor, n - 1) + [Times(factor, PowersTo(factor, n - 1)[n - 1])]
  }

  lemma {:induction false} PowersToMeans(factor: real, n: nat)
    ensures Powers(PowersTo(factor, n), factor) && PowersTo(factor, n)[n] == Pow(factor, n)
  {
    hide Times;
    if n > 0 {
      PowersToMeans(factor, n - 1);
      NextPower(factor, n);
    }
  }

  lemma NextPower(factor: real, n: nat)
    requires n > 0
    ensures Pow(factor, n) == Times(factor, Pow(factor, n - 1))
  {
  }

  /** An evaluation that claims sets the multiplier to the factor once for every milestone claimed so
      far, or to what takes the account exactly to the size cap when that is less; one that does not
      claim leaves it. */
  lemma MultiplierIs(s: AccountState, plan: Plan) returns (ms: seq<real>)
    requires plan.enabled && plan.milestonePct > 0.0 && plan.factor > 1.0 && s.start > 0
    ensures var t := Evaluated(s, plan);
      && |ms| == t.claimed + 1 && Powers(ms, plan.factor)
      && (t.claimed == s.claimed ==> t.multiplier == s.multiplier)
      && (t.claimed != s.claimed ==>
           if plan.maxSize > 0 && s.start as real * ms[t.claimed] > plan.maxSize as real
           then s.start as real * t.multiplier == plan.maxSize as real
           else t.multiplier == ms[t.claimed])
  {
    hide Evaluated, Earned, Pow, Powers, NextMultiplier;
    var t := Evaluated(s, plan);
    ScalingRuns.EvaluationMultiplier(s, plan);
    ms := PowersTo(plan.factor, t.claimed);
    PowersToMeans(plan.factor, t.claimed);
    NextMultiplierIs(plan, s.start, t.claimed);
  }

  lemma NextMultiplierIs(plan: Plan, start: int, n: nat)
    requires start > 0
    ensures var raw, next := Pow(plan.factor, n), NextMultiplier(plan, start, n);
      if plan.maxSize > 0 && start as real * raw > plan.maxSize as real then start as real * next == plan.maxSize as real
      else next == raw
  {
    hide Pow;
    if plan.maxSize > 0 {
      QuotientBelow(plan.maxSize as real, start as real, Pow(plan.factor, n));
    }
  }

  lemma QuotientBelow(x: real, d: real, y: real)
    requires d > 0.0
    ensures x / d < y <==> d * y > x
    ensures d * (x / d) == x
  {
    ScalingRuns.QuotientAtLeast(x, d, y);
  }
}
