/** The scaling plan of a funded account: milestones of net trading profit raise the risk multiplier
    and inject capital through the ledger. */
module Scaling {
  import opened Options
  import opened Sequences
  import opened Capital
  import opened Accounts
  import opened Arithmetic

  /** A challenge model's scaling columns. `maxSize` is in cents, 0 for no limit. */
  datatype Plan = Plan(
    enabled: bool, milestonePct: real, factor: real, maxSize: int, increasePct: real)

  predicate Runs(plan: Plan) {
    plan.enabled && plan.milestonePct > 0.0 && plan.factor > 1.0
  }

  /** The balance move that the ledger does not account for. */
  function TradingProfit(s: AccountState): int {
    s.balance - s.start - LedgerTotal(s.ledger)
  }

  /** Whole milestones in a trading profit; none while the profit is not positive. */
  function Earned(profit: int, start: int, plan: Plan): nat
    requires Runs(plan) && start > 0
  {
    var pct := profit as real / start as real * 100.0;
    if pct <= 0.0 then 0 else MilestonesIn(pct, plan.milestonePct)
  }

  function MilestonesIn(pct: real, milestonePct: real): nat
    requires pct > 0.0 && milestonePct > 0.0
  {
    assert pct / milestonePct > 0.0;
    (pct / milestonePct).Floor
  }

  lemma EarnedMonotone(p: int, q: int, start: int, plan: Plan)
    requires Runs(plan) && start > 0 && p <= q
    ensures Earned(p, start, plan) <= Earned(q, start, plan)
  {
    var pp := p as real / start as real * 100.0;
    var pq := q as real / start as real * 100.0;
    assert p as real / start as real <= q as real / start as real;
    if pp > 0.0 {
      assert pp / plan.milestonePct <= pq / plan.milestonePct;
    }
  }

  function Pow(b: real, n: nat): real {
    if n == 0 then 1.0 else b * Pow(b, n - 1)
  }

  lemma {:induction false} PowMonotone(b: real, m: nat, n: nat)
    requires b >= 1.0 && m <= n
    ensures 1.0 <= Pow(b, m) <= Pow(b, n)
  {
    if n > 0 {
      if m == n {
        PowMonotone(b, m - 1, n - 1);
        assert b * Pow(b, m - 1) >= Pow(b, m - 1);
      } else {
        PowMonotone(b, m, n - 1);
        assert b * Pow(b, n - 1) >= Pow(b, n - 1);
      }
    }
  }

  /** min(factor ^ milestones, maxSize / start). */
  function NextMultiplier(plan: Plan, start: int, earned: nat): real
    requires start > 0
  {
    var raw := Pow(plan.factor, earned);
    var cap := if plan.maxSize > 0 then plan.maxSize as real / start as real else raw;
    if raw <= cap then raw else cap
  }

  /** The uncapped size of one injection, in (possibly fractional) cents. */
  function PerMilestone(plan: Plan, start: int): real {
    start as real * plan.increasePct / 100.0
  }

  function Ceil(x: real): int {
    -((0.0 - x).Floor)
  }

  /** The injection loop, for one `amount` and size cap. None is the error raised when an amount
      that rounds to 0.00 meets the non-zero check of balance_adjustments; it rolls the evaluation
      back. */
  function Inject(s: AccountState, amount: real, cap: int, next: nat, last: nat): Option<AccountState>
    decreases last + 1 - next
  {
    if next > last || (cap > 0 && s.balance as real + amount > cap as real) then Some(s)
    else if Cents(amount) == 0 then None
    else Inject(Adjusted(s, Cents(amount), ScalingIncrease(next)), amount, cap, next + 1, last)
  }

  /** One evaluation of the plan on a locked row. */
  function Evaluated(s: AccountState, plan: Plan): AccountState {
    if !Runs(plan) || s.start <= 0 then s
    else
      var earned := Earned(TradingProfit(s), s.start, plan);
      if earned <= s.claimed then s
      else
        var injected := if plan.increasePct > 0.0 then Inject(s, PerMilestone(plan, s.start), plan.maxSize, s.claimed + 1, earned) else Some(s);
        match injected
        case None => s
        case Some(t) => t.(multiplier := NextMultiplier(plan, s.start, earned), claimed := earned)
  }

  /** The database refuses the first injection, so nothing of the evaluation is kept. */
  predicate Refused(s: AccountState, plan: Plan)
    requires s.start > 0
  {
    && plan.increasePct > 0.0
    && Cents(PerMilestone(plan, s.start)) == 0
    && (plan.maxSize > 0 ==>
         s.balance as real + PerMilestone(plan, s.start) <= plan.maxSize as real)
  }

  method EvaluateScalingPlan(row: AccountRecord, plan: Plan)
    modifies row
    ensures row.State() == Evaluated(old(row.State()), plan)
  {
    if !plan.enabled || !(plan.milestonePct > 0.0) || !(plan.factor > 1.0) {
      return;
    }
    if !(row.start > 0) {
      return;
    }
    var cumulativeInjected := SumLedger(row.ledger);
    var netTradingProfit := row.balance - row.start - cumulativeInjected;
    var netProfitPct := netTradingProfit as real / row.start as real * 100.0;
    if netProfitPct <= 0.0 {
      return;
    }
    assert netProfitPct / plan.milestonePct > 0.0;
    var milestonesEarned: nat := (netProfitPct / plan.milestonePct).Floor;
    if milestonesEarned <= row.claimed {
      return;
    }
    assert milestonesEarned == Earned(TradingProfit(row.State()), row.start, plan);
    var raw := Pow(plan.factor, milestonesEarned);
    var cap := if plan.maxSize > 0 then plan.maxSize as real / row.start as real else raw;
    var nextMultiplier := if raw <= cap then raw else cap;
    if plan.increasePct > 0.0 {
      var perMilestoneAmount := PerMilestone(plan, row.start);
      var committed := InjectMilestones(row, perMilestoneAmount, plan.maxSize, milestonesEarned);
      if !committed {
        return;
      }
    }
    row.multiplier := nextMultiplier;
    row.claimed := milestonesEarned;
  }

  /** The loop over newly earned milestones. A refused insert rolls the whole evaluation back. */
  method InjectMilestones(row: AccountRecord, amount: real, cap: int, milestonesEarned: nat)
    returns (committed: bool)
    requires row.claimed < milestonesEarned
    modifies row
    ensures var r := Inject(old(row.State()), amount, cap, old(row.claimed) + 1, milestonesEarned);
      && (committed <==> r.Some?)
      && row.State() == if committed then r.value else old(row.State())
  {
    var begin := row.Snapshot();
    var milestone := row.claimed + 1;
    while milestone <= milestonesEarned
      invariant begin.claimed < milestone <= milestonesEarned + 1
      invariant Inject(begin, amount, cap, begin.claimed + 1, milestonesEarned)
             == Inject(row.State(), amount, cap, milestone, milestonesEarned)
    {
      if cap > 0 && row.balance as real + amount > cap as real {
        return true;
      }
      var adjustment := row.ApplyBalanceAdjustment(Cents(amount), ScalingIncrease(milestone));
      if adjustment.Failure? {
        row.Rollback(begin);
        return false;
      }
      milestone := milestone + 1;
    }
    committed := true;
  }

  /** SELECT COALESCE(SUM(amount), 0). */
  method SumLedger(ledger: seq<LedgerRow>) returns (total: int)
    ensures total == LedgerTotal(ledger)
  {
    total := 0;
    for i := 0 to |ledger|
      invariant total == LedgerTotal(ledger[..i])
    {
      assert ledger[..i + 1][..i] == ledger[..i];
      total := total + ledger[i].amount;
    }
    assert ledger[..|ledger|] == ledger;
  }

  // ---------- The loop in closed form ----------

  /** How many full injections fit under the size cap. */
  function Slots(amount: real, cap: int, balance: int): nat
    requires Cents(amount) > 0
  {
    var need, step := Ceil(amount), Cents(amount);
    if cap - balance < need then 0 else (cap - balance - need) / step + 1
  }

  function Grants(amount: real, cap: int, balance: int, wanted: nat): nat
    requires Cents(amount) > 0
  {
    if cap > 0 then Min(wanted, Slots(amount, cap, balance)) else wanted
  }

  /** The ledger rows of `count` consecutive milestone injections. */
  function InjectionRows(balance: int, amount: int, next: nat, count: nat): seq<LedgerRow>
    decreases count
  {
    if count == 0 then []
    else [LedgerRow(amount, ScalingIncrease(next), balance, balance + amount)]
         + InjectionRows(balance + amount, amount, next + 1, count - 1)
  }

  lemma SlotStep(amount: real, cap: int, balance: int)
    requires Cents(amount) > 0
    ensures Slots(amount, cap, balance) > 0 <==> balance as real + amount <= cap as real
    ensures Slots(amount, cap, balance) > 0 ==>
      Slots(amount, cap, balance + Cents(amount)) == Slots(amount, cap, balance) - 1
  {
    var need, step, room := Ceil(amount), Cents(amount), cap - balance;
    assert room >= need <==> room as real >= amount;
    if room >= need {
      if room - step >= need {
        DivMinusOne(room - need, step);
      } else {
        DivIs(room - need, step, 0);
      }
    }
  }

  /** `count` consecutive injections, applied one by one. */
  function Repeated(s: AccountState, amount: int, next: nat, count: nat): AccountState
    decreases count
  {
    if count == 0 then s
    else Repeated(Adjusted(s, amount, ScalingIncrease(next)), amount, next + 1, count - 1)
  }

  lemma {:induction false} RepeatedClosedForm(s: AccountState, amount: int, next: nat, count: nat)
    requires amount > 0
    ensures Repeated(s, amount, next, count)
         == s.(balance := s.balance + count * amount,
               peak := if count == 0 then s.peak else Max(s.peak, s.balance + count * amount),
               ledger := s.ledger + InjectionRows(s.balance, amount, next, count))
    decreases count
  {
    if count == 0 {
      assert s.ledger + InjectionRows(s.balance, amount, next, 0) == s.ledger;
    } else {
      var t := Adjusted(s, amount, ScalingIncrease(next));
      RepeatedClosedForm(t, amount, next + 1, count - 1);
      assert (count - 1) * amount + amount == count * amount;
      MulLe(amount, 1, count);
      assert t.ledger + InjectionRows(t.balance, amount, next + 1, count - 1)
          == s.ledger + InjectionRows(s.balance, amount, next, count);
    }
  }

  /** The loop runs exactly Grants times. */
  lemma {:induction false} InjectCounts(s: AccountState, amount: real, cap: int, next: nat, last: nat)
    requires Cents(amount) > 0 && next <= last + 1
    ensures Inject(s, amount, cap, next, last)
         == Some(Repeated(s, Cents(amount), next, Grants(amount, cap, s.balance, last + 1 - next)))
    decreases last + 1 - next
  {
    SlotStep(amount, cap, s.balance);
    if Grants(amount, cap, s.balance, last + 1 - next) > 0 {
      InjectCounts(Adjusted(s, Cents(amount), ScalingIncrease(next)), amount, cap, next + 1, last);
    }
  }

  /** One evaluation injects min(newly earned, slots under the cap) times, each injection adds one
      ledger row for the next milestone, and no injection takes the balance past the cap. */
  lemma InjectClosedForm(s: AccountState, amount: real, cap: int, next: nat, last: nat)
    requires Cents(amount) > 0 && next <= last + 1
    ensures var k := Grants(amount, cap, s.balance, last + 1 - next);
      && Inject(s, amount, cap, next, last) == Some(
           s.(balance := s.balance + k * Cents(amount),
              peak := if k == 0 then s.peak else Max(s.peak, s.balance + k * Cents(amount)),
              ledger := s.ledger + InjectionRows(s.balance, Cents(amount), next, k)))
      && (cap > 0 && k > 0 ==> s.balance + k * Cents(amount) <= cap)
  {
    var step := Cents(amount);
    var k := Grants(amount, cap, s.balance, last + 1 - next);
    InjectCounts(s, amount, cap, next, last);
    RepeatedClosedForm(s, step, next, k);
    if cap > 0 && k > 0 {
      SlotsFit(amount, cap, s.balance, k);
    }
  }

  lemma SlotsFit(amount: real, cap: int, balance: int, k: nat)
    requires Cents(amount) > 0 && 0 < k <= Slots(amount, cap, balance)
    ensures balance + k * Cents(amount) <= cap
  {
    var need, step, room := Ceil(amount), Cents(amount), cap - balance;
    MulLe(step, k - 1, (room - need) / step);
    assert k * step == (k - 1) * step + step;
    assert step <= need;
  }

  /** For an injection of whole cents the number of slots is the plain quotient. */
  lemma WholeCentSlots(amount: int, cap: int, balance: int)
    requires amount > 0
    ensures Cents(amount as real) == amount
    ensures Slots(amount as real, cap, balance) == Max(0, (cap - balance) / amount)
  {
    assert Ceil(amount as real) == amount;
    var room := cap - balance;
    if room >= amount {
      DivMinusOne(room, amount);
    } else {
      DivMonotone(room, amount - 1, amount);
      DivIs(amount - 1, amount, 0);
    }
  }

  /** What a claim assigns rises with the milestone count and never sizes the account past the cap.
      What the account stores can fall all the same: see `ScalingRuns`. */
  lemma MultiplierMonotoneAndCapped(plan: Plan, start: int, m: nat, n: nat)
    requires Runs(plan) && start > 0 && m <= n
    ensures NextMultiplier(plan, start, m) <= NextMultiplier(plan, start, n)
    ensures plan.maxSize > 0 ==> start as real * NextMultiplier(plan, start, n) <= plan.maxSize as real
  {
    PowMonotone(plan.factor, m, n);
    if plan.maxSize > 0 {
      var cap := plan.maxSize as real / start as real;
      var x := NextMultiplier(plan, start, n);
      assert start as real * cap == plan.maxSize as real;
      assert start as real * x <= start as real * cap;
    }
  }

  // ---------- What one evaluation keeps ----------

  lemma {:induction false} InjectKeeps(s: AccountState, amount: real, cap: int, next: nat, last: nat)
    requires Inject(s, amount, cap, next, last).Some?
    ensures var t := Inject(s, amount, cap, next, last).value;
      && TradingProfit(t) == TradingProfit(s)
      && t == s.(balance := t.balance, peak := t.peak, ledger := t.ledger)
      && (Conserved(t) <==> Conserved(s))
      && (PeakHolds(s) ==> PeakHolds(t))
    decreases last + 1 - next
  {
    if !(next > last || (cap > 0 && s.balance as real + amount > cap as real)) {
      var step := Cents(amount);
      AdjustedConserves(s, step, ScalingIncrease(next));
      LedgerTotalAppend(s.ledger, LedgerRow(step, ScalingIncrease(next), s.balance, s.balance + step));
      InjectKeeps(Adjusted(s, step, ScalingIncrease(next)), amount, cap, next + 1, last);
    }
  }

  /** The loop is refused only on its first row, and only for an amount that rounds to nothing. */
  lemma InjectRefusedIff(s: AccountState, plan: Plan, next: nat, last: nat)
    requires s.start > 0 && plan.increasePct > 0.0 && next <= last
    ensures Inject(s, PerMilestone(plan, s.start), plan.maxSize, next, last).None? <==> Refused(s, plan)
  {
    var amount := PerMilestone(plan, s.start);
    assert amount > 0.0 by {
      assert s.start as real * plan.increasePct > 0.0;
    }
    if Cents(amount) > 0 {
      InjectClosedForm(s, amount, plan.maxSize, next, last);
    }
  }

  /** An evaluation does not read its own injections as profit, so it never feeds itself: the
      trading profit is the same after it, evaluating again changes nothing, and a milestone count
      that was reached is never lost. */
  lemma EvaluationIsIdempotent(s: AccountState, plan: Plan)
    ensures TradingProfit(Evaluated(s, plan)) == TradingProfit(s)
    ensures Evaluated(Evaluated(s, plan), plan) == Evaluated(s, plan)
    ensures Evaluated(s, plan).claimed >= s.claimed
  {
    if Runs(plan) && s.start > 0 {
      var earned := Earned(TradingProfit(s), s.start, plan);
      if earned > s.claimed && plan.increasePct > 0.0 {
        InjectRefusedIff(s, plan, s.claimed + 1, earned);
        if Inject(s, PerMilestone(plan, s.start), plan.maxSize, s.claimed + 1, earned).Some? {
          InjectKeeps(s, PerMilestone(plan, s.start), plan.maxSize, s.claimed + 1, earned);
        }
      }
    }
  }

  lemma NothingNewKeeps(s: AccountState, plan: Plan)
    requires Runs(plan) && s.start > 0 && Earned(TradingProfit(s), s.start, plan) <= s.claimed
    ensures Evaluated(s, plan) == s
  {
  }

  /** The count after an evaluation, in full. */
  lemma EvaluationCount(s: AccountState, plan: Plan)
    ensures Evaluated(s, plan).claimed ==
      if Runs(plan) && s.start > 0 && !Refused(s, plan)
      then Max(s.claimed, Earned(TradingProfit(s), s.start, plan))
      else s.claimed
  {
    if Runs(plan) && s.start > 0 {
      var earned := Earned(TradingProfit(s), s.start, plan);
      if earned > s.claimed && plan.increasePct > 0.0 {
        InjectRefusedIff(s, plan, s.claimed + 1, earned);
        if Inject(s, PerMilestone(plan, s.start), plan.maxSize, s.claimed + 1, earned).Some? {
          InjectKeeps(s, PerMilestone(plan, s.start), plan.maxSize, s.claimed + 1, earned);
        }
      }
    }
  }

  /** The frame of an evaluation: only balance, peak, ledger, multiplier and count can change. */
  lemma EvaluationFrame(s: AccountState, plan: Plan)
    ensures var t := Evaluated(s, plan);
      && t == s.(balance := t.balance, peak := t.peak, ledger := t.ledger,
                 multiplier := t.multiplier, claimed := t.claimed)
      && (Conserved(t) <==> Conserved(s))
      && (PeakHolds(s) ==> PeakHolds(t))
      && Anchor(t) == Anchor(s)
  {
    if Runs(plan) && s.start > 0 {
      var earned := Earned(TradingProfit(s), s.start, plan);
      if earned > s.claimed && plan.increasePct > 0.0 {
        if Inject(s, PerMilestone(plan, s.start), plan.maxSize, s.claimed + 1, earned).Some? {
          InjectKeeps(s, PerMilestone(plan, s.start), plan.maxSize, s.claimed + 1, earned);
        }
      }
    }
  }

  // ---------- Evaluating often against evaluating once ----------

  /** Capital injected by evaluating after each of a series of trading results. Only the numbers
      the loop depends on are followed: balance, trading profit and claimed count; `earned` says
      how many milestones a trading profit holds. */
  function InjectedStaged(amount: real, cap: int, earned: int -> nat,
                          balance: int, profit: int, claimed: nat, results: seq<int>): nat
    requires Cents(amount) > 0
    decreases |results|
  {
    if results == [] then 0
    else
      var p, b := profit + results[0], balance + results[0];
      var wanted := Newly(earned(p), claimed);
      var k := Grants(amount, cap, b, wanted);
      k + InjectedStaged(amount, cap, earned, b + k * Cents(amount), p, claimed + wanted, results[1..])
  }

  function Newly(earned: nat, claimed: nat): nat {
    if earned > claimed then earned - claimed else 0
  }

  lemma {:induction false} SlotsAfter(amount: real, cap: int, balance: int, k: nat)
    requires Cents(amount) > 0
    ensures Slots(amount, cap, balance + k * Cents(amount)) == Max(0, Slots(amount, cap, balance) - k)
  {
    if k > 0 {
      SlotsAfter(amount, cap, balance, k - 1);
      var b := balance + (k - 1) * Cents(amount);
      assert b + Cents(amount) == balance + k * Cents(amount);
      SlotStep(amount, cap, b);
      SlotsAntitone(amount, cap, b, b + Cents(amount));
    }
  }

  lemma SlotsAntitone(amount: real, cap: int, b: int, c: int)
    requires Cents(amount) > 0 && b <= c
    ensures Slots(amount, cap, c) <= Slots(amount, cap, b)
  {
    DivMonotone(cap - c - Ceil(amount), cap - b - Ceil(amount), Cents(amount));
    if cap - b >= Ceil(amount) {
      DivMonotone(0, cap - b - Ceil(amount), Cents(amount));
    }
  }

  ghost predicate Rises(earned: int -> nat) {
    forall p, q :: p <= q ==> earned(p) <= earned(q)
  }

  lemma {:induction false} StagedAtLeastOnce(amount: real, cap: int, earned: int -> nat,
                                             balance: int, profit: int, claimed: nat, results: seq<int>)
    requires Cents(amount) > 0 && Rises(earned)
    requires results != [] && forall i :: 1 <= i < |results| ==> results[i] >= 0
    ensures InjectedStaged(amount, cap, earned, balance, profit, claimed, results)
         >= InjectedStaged(amount, cap, earned, balance, profit, claimed, [Sum(results)])
    decreases |results|
  {
    var rest := results[1..];
    if rest == [] {
      assert results == [Sum(results)];
    } else {
      var t := Sum(rest);
      var p, b := profit + results[0], balance + results[0];
      var wanted := Newly(earned(p), claimed);
      var k := Grants(amount, cap, b, wanted);
      var b1, c1 := b + k * Cents(amount), claimed + wanted;
      StagedAtLeastOnce(amount, cap, earned, b1, p, c1, rest);
      CatchUp(amount, cap, earned, balance, profit, claimed, Sum(results));
      CatchUp(amount, cap, earned, b1, p, c1, t);
      SumNonNegative(rest);
      assert earned(p) <= earned(p + t);
      assert balance + Sum(results) == b + t && profit + Sum(results) == p + t;
      TwoStageGrants(amount, cap, b, t, k, wanted, Newly(earned(p + t), claimed));
    }
  }

  function EarnedOrNone(profit: int, start: int, plan: Plan): nat {
    if Runs(plan) && start > 0 then Earned(profit, start, plan) else 0
  }

  /** Granting before the later profit arrives uses no slot the catch-up would have had left. */
  lemma TwoStageGrants(amount: real, cap: int, b: int, t: nat, k: nat, early: nat, all: nat)
    requires Cents(amount) > 0 && early <= all && k == Grants(amount, cap, b, early)
    ensures k + Grants(amount, cap, b + k * Cents(amount) + t, all - early) >= Grants(amount, cap, b + t, all)
  {
    SlotsAntitone(amount, cap, b, b + t);
    SlotsAfter(amount, cap, b + t, k);
    assert b + k * Cents(amount) + t == b + t + k * Cents(amount);
  }

  lemma CatchUp(amount: real, cap: int, earned: int -> nat, balance: int, profit: int, claimed: nat, total: int)
    requires Cents(amount) > 0
    ensures InjectedStaged(amount, cap, earned, balance, profit, claimed, [total])
         == Grants(amount, cap, balance + total, Newly(earned(profit + total), claimed))
  {
    assert [total][1..] == [];
  }

  lemma {:induction false} SumNonNegative(results: seq<int>)
    requires forall i :: 0 <= i < |results| ==> results[i] >= 0
    ensures Sum(results) >= 0
  {
    if results != [] {
      SumNonNegative(results[1..]);
    }
  }
}
