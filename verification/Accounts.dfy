/** The account aggregate: the one place where non-trade balance changes, drawdown-anchor
    movements and status changes are made. */
module Accounts {
  import opened Options
  import opened Arithmetic
  import opened Capital

  datatype DomainError = NonZeroAmountRequired | TargetRequired | IllegalTransition

  // ---------- Lifecycle ----------

  /** LEGAL_TRANSITIONS. */
  function LegalTransitions(from: Status): set<Status> {
    match from
    case Active => {Passed, Failed, Locked, Expired, Cancelled, Closed}
    case Passed => {Active, Locked, Cancelled, Closed}
    case Failed => {Active, Locked, Cancelled, Closed}
    case Locked => {Active, Failed, Cancelled, Closed}
    case Expired => {Active, Cancelled, Closed}
    case Cancelled => {Active}
    case Closed => {}
  }

  /** changeStatus as a partial function of the current status. */
  function Transition(from: Status, next: Option<Status>): Result<Status, DomainError> {
    if next.None? then Failure(TargetRequired)
    else if next.value == from then Success(from)
    else if next.value in LegalTransitions(from) then Success(next.value)
    else Failure(IllegalTransition)
  }

  /** The status after a series of requests, refused ones being skipped. */
  function AfterRequests(from: Status, requests: seq<Option<Status>>): Status {
    if requests == [] then from
    else
      var here := AfterRequests(from, requests[..|requests| - 1]);
      match Transition(here, requests[|requests| - 1])
      case Success(s) => s
      case Failure(_) => here
  }

  /** A closed account never leaves that status, whatever is requested. */
  lemma {:induction false} ClosedIsFinal(requests: seq<Option<Status>>)
    ensures AfterRequests(Closed, requests) == Closed
  {
    if requests != [] {
      ClosedIsFinal(requests[..|requests| - 1]);
    }
  }

  /** Every other status reaches every status by at most two legal requests, and 'passed' and
      'expired' are entered only from 'active': a failed or locked account must first be
      reactivated to be passed. */
  lemma LifecycleShape(from: Status, to: Status)
    ensures from != Closed ==>
      exists mid :: AfterRequests(from, [Some(mid), Some(to)]) == to
    ensures to in {Passed, Expired} && to in LegalTransitions(from) ==> from == Active
    ensures to == Failed && to in LegalTransitions(from) ==> from in {Active, Locked}
  {
    if from != Closed {
      var mid := if from == to then to else if to in LegalTransitions(from) then from else Active;
      var path := [Some(mid), Some(to)];
      assert path[..1] == [Some(mid)] && path[..1][..0] == [];
      assert AfterRequests(from, path[..1]) == mid;
      assert AfterRequests(from, path) == to;
    }
  }

  /** The same table by target: from where each status can be entered by a request that names it. */
  lemma EnteredFrom(from: Status, to: Status)
    requires from != to
    ensures Transition(from, Some(to)).Success? <==>
      match to
      case Active => from != Closed
      case Passed => from == Active
      case Expired => from == Active
      case Failed => from == Active || from == Locked
      case Locked => from == Active || from == Passed || from == Failed
      case Cancelled => from != Closed
      case Closed => from != Cancelled
    ensures Transition(from, Some(to)).Success? ==> Transition(from, Some(to)).value == to
    ensures Transition(from, Some(to)).Failure? ==> Transition(from, Some(to)).error == IllegalTransition
  {
  }

  // ---------- The row in the database ----------

  /** The locked accounts row together with its trades and balance_adjustments rows. The columns no
      command here writes are constants. */
  class AccountRecord {
    const kind: Kind
    const start: int
    const maxDrawdownPct: real
    const dailyDrawdownPct: Option<real>
    const profitTarget: int
    var status: Status
    var balance: int
    var peak: int
    var eodPeak: Option<int>
    var eodFloor: Option<real>
    var claimed: nat
    var multiplier: real
    var trades: seq<Trade>
    var ledger: seq<LedgerRow>

    ghost function State(): AccountState
      reads this
    {
      AccountState(kind, status, start, balance, peak, eodPeak, eodFloor, maxDrawdownPct,
                   dailyDrawdownPct, profitTarget, claimed, multiplier, trades, ledger)
    }

    constructor (s: AccountState)
      ensures State() == s
    {
      kind, start, profitTarget := s.kind, s.start, s.profitTarget;
      maxDrawdownPct, dailyDrawdownPct := s.maxDrawdownPct, s.dailyDrawdownPct;
      status, balance, peak, eodPeak, eodFloor := s.status, s.balance, s.peak, s.eodPeak, s.eodFloor;
      claimed, multiplier, trades, ledger := s.claimed, s.multiplier, s.trades, s.ledger;
    }

    /** BEGIN: the values a later ROLLBACK returns to. */
    method Snapshot() returns (s: AccountState)
      ensures s == State()
    {
      s := AccountState(kind, status, start, balance, peak, eodPeak, eodFloor, maxDrawdownPct,
                        dailyDrawdownPct, profitTarget, claimed, multiplier, trades, ledger);
    }

    /** ROLLBACK to a snapshot of this row. */
    method Rollback(s: AccountState)
      requires s.kind == kind && s.start == start && s.profitTarget == profitTarget
      requires s.maxDrawdownPct == maxDrawdownPct && s.dailyDrawdownPct == dailyDrawdownPct
      modifies this
      ensures State() == s
    {
      status, balance, peak, eodPeak, eodFloor := s.status, s.balance, s.peak, s.eodPeak, s.eodFloor;
      claimed, multiplier, trades, ledger := s.claimed, s.multiplier, s.trades, s.ledger;
    }

    /** applyBalanceAdjustment: refuses a zero amount, else moves balance, peak and ledger. */
    method ApplyBalanceAdjustment(amount: int, source: Source) returns (r: Result<int, DomainError>)
      modifies this
      ensures amount == 0 ==> r == Failure(NonZeroAmountRequired) && State() == old(State())
      ensures amount != 0 ==>
        r == Success(balance) && State() == Adjusted(old(State()), amount, source)
    {
      if amount == 0 {
        return Failure(NonZeroAmountRequired);
      }
      var before := balance;
      balance := balance + amount;
      peak := Max(peak, balance);
      ledger := ledger + [LedgerRow(amount, source, before, balance)];
      r := Success(balance);
    }

    method ShiftAnchors(delta: int)
      modifies this`eodPeak
      ensures State() == Shifted(old(State()), delta)
    {
      if delta != 0 {
        var base := if eodPeak.Some? then eodPeak.value else start;
        eodPeak := Some(Max(base + delta, 0));
      }
    }

    method RebaseAnchors(equity: int)
      modifies this`eodPeak, this`eodFloor
      ensures State() == Rebased(old(State()), equity)
    {
      eodPeak := Some(equity);
      eodFloor := None;
    }
  }

  // ---------- The aggregate ----------

  /** The aggregate holds a cached copy of the row it was loaded from. The cache may be stale:
      callers force-close trades through the database before they use it. */
  class Account {
    const db: AccountRecord
    var currentBalance: int
    var startingBalance: int
    var peakBalance: int
    var status: Status

    constructor FromLockedRow(db: AccountRecord)
      ensures this.db == db
      ensures currentBalance == db.balance && startingBalance == db.start
      ensures peakBalance == db.peak && status == db.status
    {
      this.db := db;
      currentBalance, startingBalance, peakBalance, status := db.balance, db.start, db.peak, db.status;
    }

    /** A non-trade capital movement: ledger row, balance and drawdown anchor together. The cache
        follows the database even if it was stale before the call. */
    method AdjustBalance(amount: int, source: Source, shiftDrawdownAnchors: bool)
      returns (r: Result<int, DomainError>)
      modifies this, db
      ensures amount == 0 ==>
        && r == Failure(NonZeroAmountRequired)
        && db.State() == old(db.State())
        && currentBalance == old(currentBalance) && peakBalance == old(peakBalance)
      ensures amount != 0 ==>
        && r == Success(currentBalance)
        && db.State() == (if shiftDrawdownAnchors then CapitalMoved(old(db.State()), amount, source)
                          else Adjusted(old(db.State()), amount, source))
        && currentBalance == db.balance && peakBalance == db.peak
      ensures startingBalance == old(startingBalance) && status == old(status)
    {
      r := db.ApplyBalanceAdjustment(amount, source);
      if r.Failure? {
        return;
      }
      if shiftDrawdownAnchors {
        db.ShiftAnchors(amount);
      }
      currentBalance := r.value;
      peakBalance := db.peak;
    }

    /** The delta comes from the row as it is now, so a stale cache cannot book a wrong amount. */
    method ResetToStarting() returns (delta: int)
      modifies this, db
      ensures db.State() == ResetToStart(old(db.State()))
      ensures delta == db.start - old(db.balance)
      ensures currentBalance == peakBalance == startingBalance == db.start
      ensures status == old(status)
    {
      currentBalance := db.balance;
      startingBalance := db.start;
      delta := startingBalance - currentBalance;
      if delta != 0 {
        var _ := AdjustBalance(delta, AdminReset, false);
      }
      db.peak := db.start;
      db.RebaseAnchors(startingBalance);
      currentBalance := startingBalance;
      peakBalance := startingBalance;
    }

    /** Refuses what the domain does not allow; otherwise row and cache agree on the new status. */
    method ChangeStatus(next: Option<Status>) returns (r: Result<bool, DomainError>)
      modifies this, db
      ensures r.Failure? <==> Transition(old(status), next).Failure?
      ensures r.Failure? ==> db.State() == old(db.State()) && status == old(status)
      ensures r.Success? ==> status == next.value && r.value == (next.value != old(status))
      ensures r.Success? && r.value ==> db.State() == old(db.State()).(status := next.value)
      ensures r.Success? && !r.value ==> db.State() == old(db.State())
      ensures currentBalance == old(currentBalance) && peakBalance == old(peakBalance)
      ensures startingBalance == old(startingBalance)
    {
      if next.None? {
        return Failure(TargetRequired);
      }
      if next.value == status {
        return Success(false);
      }
      if next.value !in LegalTransitions(status) {
        return Failure(IllegalTransition);
      }
      db.status := next.value;
      status := next.value;
      r := Success(true);
    }
  }
}
