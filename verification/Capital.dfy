/** The rows an account owns, as values: its own columns, its trades and its balance adjustments.
    Money is in integer cents; percentages are reals. The functions here are the effects of the
    individual SQL statements; the commands built from them are in the other modules. */
module Capital {
  import opened Arithmetic
  import opened Options

  datatype Status = Active | Passed | Failed | Locked | Expired | Cancelled | Closed

  datatype Kind = Phase1 | Phase2 | Phase3 | Funded | Competition

  /** Open, resting (a pending order), settled (status 'closed') or voided (status 'cancelled'). */
  datatype TradeStatus = Open | Resting | Settled | Voided

  datatype Trade = Trade(id: nat, status: TradeStatus, pnl: int)

  /** Why a balance adjustment was made. */
  datatype Source =
    | AdminAdjustment
    | AdminReset
    | PayoutDebit(payoutId: nat)
    | ScalingIncrease(milestone: nat)
    | CheatCorrection

  /** One row of balance_adjustments. */
  datatype LedgerRow = LedgerRow(amount: int, source: Source, before: int, after: int)

  datatype AccountState = AccountState(
    kind: Kind,
    status: Status,
    start: int,
    balance: int,
    peak: int,
    eodPeak: Option<int>,
    eodFloor: Option<real>,
    maxDrawdownPct: real,
    dailyDrawdownPct: Option<real>,
    profitTarget: int,
    claimed: nat,
    multiplier: real,
    trades: seq<Trade>,
    ledger: seq<LedgerRow>)

  // ---------- The two sums of the governing invariant ----------

  function RealisedOf(t: Trade): int {
    if t.status == Settled then t.pnl else 0
  }

  /** Realised trading P&L: the middle term of the invariant. */
  function Realised(trades: seq<Trade>): int {
    if trades == [] then 0
    else Realised(trades[..|trades| - 1]) + RealisedOf(trades[|trades| - 1])
  }

  /** SUM(balance_adjustments.amount): the third term of the invariant. */
  function LedgerTotal(ledger: seq<LedgerRow>): int {
    if ledger == [] then 0
    else LedgerTotal(ledger[..|ledger| - 1]) + ledger[|ledger| - 1].amount
  }

  /** current_balance = starting_balance + realised trade P&L + sum of balance adjustments. */
  predicate Conserved(s: AccountState) {
    s.balance == s.start + Realised(s.trades) + LedgerTotal(s.ledger)
  }

  predicate PeakHolds(s: AccountState) {
    s.peak >= s.balance
  }

  lemma LedgerTotalAppend(ledger: seq<LedgerRow>, row: LedgerRow)
    ensures LedgerTotal(ledger + [row]) == LedgerTotal(ledger) + row.amount
  {
    assert (ledger + [row])[..|ledger|] == ledger;
  }

  lemma RealisedAppend(trades: seq<Trade>, t: Trade)
    ensures Realised(trades + [t]) == Realised(trades) + RealisedOf(t)
  {
    assert (trades + [t])[..|trades|] == trades;
  }

  lemma {:induction false} RealisedUpdate(trades: seq<Trade>, i: nat, t: Trade)
    requires i < |trades|
    ensures Realised(trades[i := t]) == Realised(trades) - RealisedOf(trades[i]) + RealisedOf(t)
  {
    var n := |trades| - 1;
    if i == n {
      assert trades[i := t][..n] == trades[..n];
    } else {
      RealisedUpdate(trades[..n], i, t);
      assert trades[i := t][..n] == trades[..n][i := t];
    }
  }

  // ---------- applyBalanceAdjustment, shiftAnchors, rebaseAnchors ----------

  /** applyBalanceAdjustment: balance, peak and one ledger row move together. */
  function Adjusted(s: AccountState, amount: int, source: Source): AccountState {
    var after := s.balance + amount;
    s.(balance := after,
       peak := Max(s.peak, after),
       ledger := s.ledger + [LedgerRow(amount, source, s.balance, after)])
  }

  /** The trailing anchor the drawdown engine reads: a NULL peak means "never ratcheted". */
  function Anchor(s: AccountState): int {
    if s.eodPeak.Some? then s.eodPeak.value else s.start
  }

  /** shiftAnchors: the anchor follows a capital movement, clamped at zero. */
  function Shifted(s: AccountState, delta: int): AccountState {
    if delta == 0 then s else s.(eodPeak := Some(Max(Anchor(s) + delta, 0)))
  }

  /** rebaseAnchors: the frame restarts at `equity` and a locked floor is forgotten. */
  function Rebased(s: AccountState, equity: int): AccountState {
    s.(eodPeak := Some(equity), eodFloor := None)
  }

  /** adjustBalance: the ledger movement followed by the anchor shift. */
  function CapitalMoved(s: AccountState, amount: int, source: Source): AccountState {
    Shifted(Adjusted(s, amount, source), amount)
  }

  /** resetToStarting. */
  function ResetToStart(s: AccountState): AccountState {
    var delta := s.start - s.balance;
    var booked := if delta == 0 then s else Adjusted(s, delta, AdminReset);
    Rebased(booked.(peak := s.start), s.start)
  }

  /** A trading result lands on the balance directly, never in the ledger. */
  function PnlBooked(s: AccountState, pnl: int): AccountState {
    s.(balance := s.balance + pnl, peak := Max(s.peak, s.balance + pnl))
  }

  lemma AdjustedConserves(s: AccountState, amount: int, source: Source)
    ensures Conserved(Adjusted(s, amount, source)) <==> Conserved(s)
    ensures PeakHolds(Adjusted(s, amount, source))
    ensures Anchor(Adjusted(s, amount, source)) == Anchor(s)
  {
    hide LedgerTotal, Realised;
    LedgerTotalAppend(s.ledger, LedgerRow(amount, source, s.balance, s.balance + amount));
  }

  /** A reset puts the balance back to the start, restarts the drawdown frame and the peak, and
      books exactly the missing capital, so the invariant survives although P&L is not erased. */
  lemma ResetRestartsFrame(s: AccountState)
    ensures var r := ResetToStart(s);
      && r.balance == r.start == s.start
      && r.peak == s.start
      && Anchor(r) == s.start
      && r.eodFloor == None
      && r.trades == s.trades
      && LedgerTotal(r.ledger) == LedgerTotal(s.ledger) + (s.start - s.balance)
      && (Conserved(r) <==> Conserved(s))
  {
    if s.start != s.balance {
      AdjustedConserves(s, s.start - s.balance, AdminReset);
      LedgerTotalAppend(s.ledger, LedgerRow(s.start - s.balance, AdminReset, s.balance, s.start));
    }
  }

  // ---------- Force-closing trades ----------

  /** What the price map and calculatePnL say about one open trade: no price for its instrument, a
      P&L in cents, or a thrown error (no conversion rate for its quote currency). */
  datatype Valuation = Unpriced | Unvaluable | Worth(pnl: int)

  type Valuer = Trade -> Valuation

  predicate IsOpen(t: Trade) {
    t.status == Open
  }

  /** One open trade at liquidation. An unvaluable trade is left as it is. */
  function CloseOne(t: Trade, value: Valuer): Trade {
    if t.status != Open then t
    else match value(t)
      case Unpriced => t.(status := Settled, pnl := 0)
      case Worth(p) => t.(status := Settled, pnl := p)
      case Unvaluable => t
  }

  function CloseOpen(trades: seq<Trade>, value: Valuer): (r: seq<Trade>)
    ensures |r| == |trades|
    ensures forall i :: 0 <= i < |trades| ==> r[i] == CloseOne(trades[i], value)
  {
    if trades == [] then []
    else CloseOpen(trades[..|trades| - 1], value) + [CloseOne(trades[|trades| - 1], value)]
  }

  /** UPDATE trades SET status = 'cancelled' WHERE status = 'pending'. */
  function VoidResting(trades: seq<Trade>): (r: seq<Trade>)
    ensures |r| == |trades|
    ensures forall i :: 0 <= i < |trades| ==>
      r[i] == if trades[i].status == Resting then trades[i].(status := Voided) else trades[i]
  {
    seq(|trades|, i requires 0 <= i < |trades| =>
      if trades[i].status == Resting then trades[i].(status := Voided) else trades[i])
  }

  /** The accumulated P&L of one liquidation. */
  function LiquidationPnl(trades: seq<Trade>, value: Valuer): int {
    if trades == [] then 0
    else
      var t := trades[|trades| - 1];
      LiquidationPnl(trades[..|trades| - 1], value)
      + (if t.status == Open && value(t).Worth? then value(t).pnl else 0)
  }

  /** Some open trade cannot be valued, so calculatePnL throws. */
  predicate Unsettleable(trades: seq<Trade>, value: Valuer) {
    exists i :: 0 <= i < |trades| && trades[i].status == Open && value(trades[i]).Unvaluable?
  }

  lemma {:induction false} CloseOpenPnl(trades: seq<Trade>, value: Valuer)
    ensures Realised(CloseOpen(trades, value)) == Realised(trades) + LiquidationPnl(trades, value)
  {
    if trades != [] {
      var n := |trades| - 1;
      CloseOpenPnl(trades[..n], value);
      RealisedAppend(CloseOpen(trades[..n], value), CloseOne(trades[n], value));
    }
  }

  lemma {:induction false} VoidRestingPnl(trades: seq<Trade>)
    ensures Realised(VoidResting(trades)) == Realised(trades)
  {
    if trades != [] {
      var n := |trades| - 1;
      VoidRestingPnl(trades[..n]);
      assert VoidResting(trades)[..n] == VoidResting(trades[..n]);
    }
  }

  /** The one balance UPDATE of a liquidation, which a zero total skips. */
  function TotalBooked(s: AccountState, total: int): AccountState {
    if total == 0 then s else PnlBooked(s, total)
  }

  /** Everything a liquidation does apart from the status change. */
  function Liquidated(s: AccountState, value: Valuer): AccountState {
    TotalBooked(s, LiquidationPnl(s.trades, value))
      .(trades := VoidResting(CloseOpen(s.trades, value)))
  }

  /** A liquidation moves the balance by exactly the P&L it stamps on trades, touches no ledger row,
      leaves no resting order, and leaves open exactly the trades that could not be valued. */
  lemma LiquidationSettles(s: AccountState, value: Valuer)
    ensures var r := Liquidated(s, value);
      && (Conserved(r) <==> Conserved(s))
      && (PeakHolds(s) ==> PeakHolds(r))
      && r.ledger == s.ledger
      && r.balance - s.balance == Realised(r.trades) - Realised(s.trades)
      && (forall i :: 0 <= i < |r.trades| ==> r.trades[i].status != Resting)
      && (forall i :: 0 <= i < |s.trades| ==>
           (IsOpen(r.trades[i]) <==> IsOpen(s.trades[i]) && value(s.trades[i]).Unvaluable?))
      && ((exists i :: 0 <= i < |r.trades| && IsOpen(r.trades[i])) <==> Unsettleable(s.trades, value))
  {
    hide Liquidated, Conserved, PeakHolds, IsOpen, Unsettleable, Realised;
    LiquidationBooks(s, value);
    LiquidationTrades(s, value);
  }

  lemma LiquidationBooks(s: AccountState, value: Valuer)
    ensures var r := Liquidated(s, value);
      && (Conserved(r) <==> Conserved(s))
      && (PeakHolds(s) ==> PeakHolds(r))
      && r.ledger == s.ledger
      && r.balance - s.balance == Realised(r.trades) - Realised(s.trades)
  {
    CloseOpenPnl(s.trades, value);
    VoidRestingPnl(CloseOpen(s.trades, value));
    hide CloseOpen, VoidResting, LiquidationPnl, Realised;
  }

  lemma LiquidationTrades(s: AccountState, value: Valuer)
    ensures var r := Liquidated(s, value).trades;
      && |r| == |s.trades|
      && (forall i :: 0 <= i < |r| ==> r[i].status != Resting)
      && (forall i :: 0 <= i < |s.trades| ==>
           (IsOpen(r[i]) <==> IsOpen(s.trades[i]) && value(s.trades[i]).Unvaluable?))
      && ((exists i :: 0 <= i < |r| && IsOpen(r[i])) <==> Unsettleable(s.trades, value))
  {
    hide LiquidationPnl, PnlBooked, TotalBooked;
    var r := Liquidated(s, value).trades;
    assert r == VoidResting(CloseOpen(s.trades, value));
    if Unsettleable(s.trades, value) {
      var i :| 0 <= i < |s.trades| && s.trades[i].status == Open && value(s.trades[i]).Unvaluable?;
      assert IsOpen(r[i]);
    }
  }
}
