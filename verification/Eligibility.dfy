/** May this account withdraw, and how much: the consistency limit and the list of blockers. */
module Eligibility {
  import opened Arithmetic
  import opened Options
  import opened Sequences
  import opened Capital

  // ---------- The consistency limit ----------

  /** consistentWithdrawableProfit: everything except the amount by which the best day overshot its
      cap of `capPct` percent of total profit. */
  function ConsistentWithdrawable(total: int, best: int, capPct: real): int {
    var cap := capPct / 100.0;
    if !(total > 0) || !(cap > 0.0) then Max(0, total)
    else Cents(RMax(0.0, RMin(total as real, Allowed(total, best, cap))))
  }

  function Allowed(total: int, best: int, cap: real): real {
    total as real * (1.0 + cap) - best as real
  }

  lemma RoundedMonotone(x: real, y: real)
    requires x <= y
    ensures Cents(x) <= Cents(y)
  {
  }

  lemma RoundedShift(x: real, w: int)
    ensures Cents(x - w as real) == Cents(x) - w
  {
  }

  /** The limit lies between nothing and the whole profit. */
  lemma LimitBounds(total: int, best: int, capPct: real)
    ensures 0 <= ConsistentWithdrawable(total, best, capPct) <= Max(0, total)
  {
    if total > 0 && capPct > 0.0 {
      RoundedMonotone(0.0, RMax(0.0, RMin(total as real, Allowed(total, best, capPct / 100.0))));
      RoundedMonotone(RMax(0.0, RMin(total as real, Allowed(total, best, capPct / 100.0))), total as real);
    }
  }

  /** More profit never lowers the limit. */
  lemma LimitMonotone(total: int, more: int, best: int, capPct: real)
    requires total <= more
    ensures ConsistentWithdrawable(total, best, capPct) <= ConsistentWithdrawable(more, best, capPct)
  {
    LimitBounds(more, best, capPct);
    if total > 0 && capPct > 0.0 {
      var cap := capPct / 100.0;
      assert Allowed(total, best, cap) <= Allowed(more, best, cap) by {
        assert (more as real - total as real) * (1.0 + cap) >= 0.0;
      }
      RoundedMonotone(RMax(0.0, RMin(total as real, Allowed(total, best, cap))),
                      RMax(0.0, RMin(more as real, Allowed(more, best, cap))));
    }
  }

  /** A better best day never raises the limit, so a trader cannot gain by a more lopsided record. */
  lemma LimitAntitone(total: int, best: int, better: int, capPct: real)
    requires best <= better
    ensures ConsistentWithdrawable(total, better, capPct) <= ConsistentWithdrawable(total, best, capPct)
  {
    if total > 0 && capPct > 0.0 {
      var cap := capPct / 100.0;
      RoundedMonotone(RMax(0.0, RMin(total as real, Allowed(total, better, cap))),
                      RMax(0.0, RMin(total as real, Allowed(total, best, cap))));
    }
  }

  /** A best day within its cap withholds nothing; beyond the cap, what is withheld is the overshoot
      itself, to the nearest cent, until nothing is left to withdraw. */
  lemma LimitWithholdsOvershoot(total: int, best: int, capPct: real)
    requires total > 0 && capPct > 0.0
    ensures var over := best as real - total as real * (capPct / 100.0);
      var held := total - ConsistentWithdrawable(total, best, capPct);
      && (over <= 0.0 ==> held == 0)
      && (0.0 <= over <= total as real ==> over - 0.5 <= held as real <= over + 0.5)
      && (over >= total as real ==> held == total)
  {
    var cap := capPct / 100.0;
    assert Allowed(total, best, cap) == total as real - (best as real - total as real * cap);
  }

  /** Without a cap, or without a profit, nothing of the profit is withheld. */
  lemma LimitWithoutCap(total: int, best: int, capPct: real)
    requires total <= 0 || capPct <= 0.0
    ensures ConsistentWithdrawable(total, best, capPct) == if total > 0 then total else 0
  {
  }

  /** Taking `w` lowers the limit on what remains by at least `w`. */
  lemma AllowedAfter(total: int, best: int, cap: real, w: int)
    requires w >= 0 && cap > 0.0
    ensures Allowed(total - w, best, cap) <= Allowed(total, best, cap) - w as real
  {
    assert w as real * cap >= 0.0;
    assert (total - w) as real * (1.0 + cap) == total as real * (1.0 + cap) - w as real - w as real * cap;
  }

  lemma LimitAfterWithdrawal(total: int, best: int, capPct: real, w: int)
    requires 0 <= w <= ConsistentWithdrawable(total, best, capPct)
    ensures ConsistentWithdrawable(total - w, best, capPct) <= ConsistentWithdrawable(total, best, capPct) - w
  {
    LimitBounds(total, best, capPct);
    if total > w && capPct > 0.0 {
      var cap := capPct / 100.0;
      var x := RMax(0.0, RMin(total as real, Allowed(total, best, cap)));
      var y := RMax(0.0, RMin((total - w) as real, Allowed(total - w, best, cap)));
      AllowedAfter(total, best, cap, w);
      hide Allowed, Cents;
      if y > 0.0 {
        RoundedMonotone(y, x - w as real);
        RoundedShift(x, w);
      }
    }
  }

  /** Each withdrawal is within the limit recomputed on what remains, with the best day fixed. */
  predicate EachWithinLimit(total: int, best: int, capPct: real, ws: seq<int>) {
    ws == [] ||
    (0 <= ws[0] <= ConsistentWithdrawable(total, best, capPct)
     && EachWithinLimit(total - ws[0], best, capPct, ws[1..]))
  }

  /** No series of withdrawals takes out more than the limit at the start. */
  lemma {:induction false} SplittingGainsNothing(total: int, best: int, capPct: real, ws: seq<int>)
    requires EachWithinLimit(total, best, capPct, ws)
    ensures Sum(ws) <= ConsistentWithdrawable(total, best, capPct)
  {
    if ws == [] {
      LimitBounds(total, best, capPct);
    } else {
      SplittingGainsNothing(total - ws[0], best, capPct, ws[1..]);
      LimitAfterWithdrawal(total, best, capPct, ws[0]);
    }
  }

  // ---------- The blockers ----------

  datatype Blocker =
    | NotFunded | NotActive | KycNotApproved | OpenExposure | PendingPayout
    | ConsistencyHold | BelowMinimum | InsufficientProfit

  datatype Consistency = Consistency(ok: bool, bestDayProfit: int)

  datatype Query = Query(
    kind: Kind, status: Status, balance: int, start: int, kycApproved: bool,
    openTrades: int, pendingOrders: int, pendingPayouts: int,
    requested: Option<int>, minRequest: int, sharePct: real,
    consistency: Option<Consistency>, maxDayPct: real)

  function Profit(q: Query): int {
    q.balance - q.start
  }

  function Payable(q: Query): int {
    Cents(Max(0, Profit(q)) as real * (q.sharePct / 100.0))
  }

  function WithdrawableNow(q: Query): int {
    if q.consistency.Some? && q.maxDayPct > 0.0
    then ConsistentWithdrawable(Profit(q), q.consistency.value.bestDayProfit, q.maxDayPct)
    else Max(0, Profit(q))
  }

  predicate RuleBreached(q: Query) {
    q.consistency.Some? && !q.consistency.value.ok && q.maxDayPct > 0.0
  }

  /** When each code must be reported. */
  predicate Applies(q: Query, b: Blocker) {
    BlockedBy(q, b, Profit(q), Payable(q), WithdrawableNow(q))
  }

  predicate BlockedBy(q: Query, b: Blocker, profit: int, payable: int, withdrawable: int) {
    match b
    case NotFunded => q.kind != Funded
    case NotActive => q.status != Active
    case KycNotApproved => !q.kycApproved
    case OpenExposure => q.openTrades > 0 || q.pendingOrders > 0
    case PendingPayout => q.pendingPayouts > 0
    case ConsistencyHold =>
      RuleBreached(q)
      || (q.requested.Some? && withdrawable < q.requested.value <= profit)
    case BelowMinimum => (if q.requested.Some? then q.requested.value else payable) < q.minRequest
    case InsufficientProfit => q.requested.Some? && q.requested.value > profit
  }

  /** The codes that do not depend on an amount. */
  predicate IsGate(b: Blocker) {
    b.NotFunded? || b.NotActive? || b.KycNotApproved? || b.OpenExposure? || b.PendingPayout?
  }

  /** Each code is reported exactly when it applies, once, and the first one reported is 'not funded'
      or else 'not active' when these apply: callers show the first message only. */
  method EvaluatePayoutEligibility(q: Query)
    returns (blockers: seq<Blocker>, realizedProfit: int, estimatedPayable: int, withdrawableNow: int)
    ensures forall b :: b in blockers <==> Applies(q, b)
    ensures Distinct(blockers)
    ensures q.kind != Funded ==> [NotFunded] <= blockers
    ensures q.kind == Funded && q.status != Active ==> [NotActive] <= blockers
    ensures realizedProfit == Profit(q) && estimatedPayable == Payable(q)
    ensures withdrawableNow == WithdrawableNow(q)
  {
    realizedProfit := q.balance - q.start;
    var shareRatio := q.sharePct / 100.0;
    estimatedPayable := Cents(Max(0, realizedProfit) as real * shareRatio);
    withdrawableNow :=
      if q.consistency.Some? && q.maxDayPct > 0.0
      then ConsistentWithdrawable(realizedProfit, q.consistency.value.bestDayProfit, q.maxDayPct)
      else Max(0, realizedProfit);
    blockers := GateBlockers(q);
    blockers := WithAmountBlockers(q, blockers, realizedProfit, estimatedPayable, withdrawableNow);
  }

  /** Type and status, then identity check, exposure and an earlier request. */
  method GateBlockers(q: Query) returns (blockers: seq<Blocker>)
    ensures forall b :: b in blockers <==> IsGate(b) && BlockedBy(q, b, 0, 0, 0)
    ensures Distinct(blockers)
    ensures q.kind != Funded ==> [NotFunded] <= blockers
    ensures q.kind == Funded && q.status != Active ==> [NotActive] <= blockers
  {
    hide Distinct;
    var standing := StandingBlockers(q);
    blockers := AddIf(!q.kycApproved, standing, KycNotApproved);
    blockers := AddIf(q.openTrades > 0 || q.pendingOrders > 0, blockers, OpenExposure);
    blockers := AddIf(q.pendingPayouts > 0, blockers, PendingPayout);
    assert standing <= blockers;
  }

  method StandingBlockers(q: Query) returns (blockers: seq<Blocker>)
    ensures forall b :: b in blockers <==> (b == NotFunded && q.kind != Funded) || (b == NotActive && q.status != Active)
    ensures Distinct(blockers)
    ensures q.kind != Funded ==> [NotFunded] <= blockers
    ensures q.kind == Funded && q.status != Active ==> [NotActive] <= blockers
  {
    blockers := [];
    if q.kind != Funded {
      blockers := blockers + [NotFunded];
    }
    if q.status != Active {
      blockers := blockers + [NotActive];
    }
  }

  /** One guarded push. */
  method AddIf(applies: bool, blockers: seq<Blocker>, b: Blocker) returns (r: seq<Blocker>)
    requires b !in blockers && Distinct(blockers)
    ensures forall c :: c in r <==> c in blockers || (applies && c == b)
    ensures Distinct(r) && blockers <= r
  {
    r := if applies then blockers + [b] else blockers;
  }

  /** The consistency rule, the minimum and the amount itself. */
  method WithAmountBlockers(q: Query, gates: seq<Blocker>, profit: int, payable: int, withdrawable: int)
    returns (blockers: seq<Blocker>)
    requires forall b :: b in gates <==> IsGate(b) && BlockedBy(q, b, 0, 0, 0)
    requires Distinct(gates)
    ensures gates <= blockers
    ensures forall b :: b in blockers <==> BlockedBy(q, b, profit, payable, withdrawable)
    ensures Distinct(blockers)
  {
    blockers := gates;
    assert ConsistencyHold !in gates && BelowMinimum !in gates && InsufficientProfit !in gates;
    if q.consistency.Some? && !q.consistency.value.ok && q.maxDayPct > 0.0 {
      blockers := blockers + [ConsistencyHold];
    }
    if q.requested.None? {
      if payable < q.minRequest {
        blockers := blockers + [BelowMinimum];
      }
    } else {
      if q.requested.value < q.minRequest {
        blockers := blockers + [BelowMinimum];
      }
      assert Distinct(blockers) && InsufficientProfit !in blockers;
      if q.requested.value > profit {
        blockers := blockers + [InsufficientProfit];
      } else if q.requested.value > withdrawable {
        if ConsistencyHold !in blockers {
          blockers := blockers + [ConsistencyHold];
        }
      }
    }
  }

  /** Nothing blocks. */
  predicate Eligible(q: Query) {
    forall b :: !Applies(q, b)
  }

  /** What eligibility for an amount means, and what it guarantees: the account is funded, active and
      flat, and paying the amount leaves at least the starting balance in it. */
  lemma EligibleAmount(q: Query)
    requires q.requested.Some?
    ensures Eligible(q) <==>
      && q.kind == Funded && q.status == Active && q.kycApproved
      && q.openTrades <= 0 && q.pendingOrders <= 0 && q.pendingPayouts <= 0
      && !(q.consistency.Some? && !q.consistency.value.ok && q.maxDayPct > 0.0)
      && q.minRequest <= q.requested.value <= Profit(q)
      && q.requested.value <= WithdrawableNow(q)
    ensures Eligible(q) ==> q.balance - q.requested.value >= q.start
  {
    if Eligible(q) {
      assert !Applies(q, NotFunded) && !Applies(q, NotActive) && !Applies(q, KycNotApproved);
      assert !Applies(q, OpenExposure) && !Applies(q, PendingPayout) && !Applies(q, ConsistencyHold);
      assert !Applies(q, BelowMinimum) && !Applies(q, InsufficientProfit);
    }
  }

  /** A reported consistency breach blocks every amount, also one the limit itself allows: a caller
      that refuses on any blocker pays nothing until the ratio recovers. */
  lemma BreachBlocksAllowedAmountToo(q: Query)
    requires RuleBreached(q) && q.requested.Some?
    requires 0 < q.minRequest <= q.requested.value <= WithdrawableNow(q)
    ensures !Eligible(q)
    ensures forall b :: Applies(q.(consistency := None), b) ==> IsGate(b)
  {
    LimitBounds(Profit(q), q.consistency.value.bestDayProfit, q.maxDayPct);
    assert Applies(q, ConsistencyHold);
  }

  /** A best day of 600 in a profit of 1,000, with a cap of half: 900 could be withdrawn, and a request
      for 500 is held for the breach and nothing else. */
  lemma BreachBlocksExample()
    ensures var q := Query(Funded, Active, 1100000, 1000000, true, 0, 0, 0, Some(50000), 5000, 100.0,
                           Some(Consistency(false, 60000)), 50.0);
      WithdrawableNow(q) == 90000 && forall b :: Applies(q, b) <==> b == ConsistencyHold
  {
    assert Allowed(100000, 60000, 0.5) == 90000.0;
  }

  /** Without an amount the minimum is asked of the trader's share of the profit, to the nearest cent. */
  lemma EligibleWithoutAmount(q: Query)
    requires q.requested.None?
    ensures Eligible(q) <==>
      && q.kind == Funded && q.status == Active && q.kycApproved
      && q.openTrades <= 0 && q.pendingOrders <= 0 && q.pendingPayouts <= 0
      && !(q.consistency.Some? && !q.consistency.value.ok && q.maxDayPct > 0.0)
      && Max(0, q.balance - q.start) as real * q.sharePct + 50.0 >= 100.0 * q.minRequest as real
  {
    ShareToTheCent(q);
    if Eligible(q) {
      assert !Applies(q, NotFunded) && !Applies(q, NotActive) && !Applies(q, KycNotApproved);
      assert !Applies(q, OpenExposure) && !Applies(q, PendingPayout) && !Applies(q, ConsistencyHold);
      assert !Applies(q, BelowMinimum);
    }
  }

  lemma ShareToTheCent(q: Query)
    ensures var share := Max(0, q.balance - q.start) as real * q.sharePct;
      && -50.0 < 100.0 * Payable(q) as real - share <= 50.0
      && (Payable(q) >= q.minRequest <==> share + 50.0 >= 100.0 * q.minRequest as real)
  {
    var share := Max(0, q.balance - q.start) as real * q.sharePct;
    assert Max(0, q.balance - q.start) as real * (q.sharePct / 100.0) == share / 100.0;
  }

  /** What can be withdrawn: the whole profit, unless a consistency limit applies and the best day is over
      its cap; then the profit less the overshoot, to the nearest half cent, and never less than nothing. */
  lemma WithdrawableIs(q: Query)
    ensures var profit, now := q.balance - q.start, WithdrawableNow(q);
      && (profit <= 0 ==> now == 0)
      && (q.consistency.None? || q.maxDayPct <= 0.0 ==> now == Max(0, profit))
      && (q.consistency.Some? && q.maxDayPct > 0.0 && profit > 0 ==>
           var over := q.consistency.value.bestDayProfit as real - profit as real * (q.maxDayPct / 100.0);
           && (over <= 0.0 ==> now == profit)
           && (0.0 <= over <= profit as real ==> profit as real - over - 0.5 <= now as real <= profit as real - over + 0.5)
           && (over >= profit as real ==> now == 0))
  {
    var profit := q.balance - q.start;
    if q.consistency.Some? && q.maxDayPct > 0.0 && profit > 0 {
      LimitWithholdsOvershoot(profit, q.consistency.value.bestDayProfit, q.maxDayPct);
    }
    hide ConsistentWithdrawable, Allowed;
    if q.consistency.Some? && q.maxDayPct > 0.0 && profit <= 0 {
      LimitBounds(profit, q.consistency.value.bestDayProfit, q.maxDayPct);
    }
  }
}
