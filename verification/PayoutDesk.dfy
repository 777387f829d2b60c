/** Approving payouts: dual control above a threshold, one debit per payout, and what an arbitrary
    series of approvers, rejections, setting changes and account events can do to them. */
module PayoutDesk {
  import opened Options
  import opened Arithmetic
  import opened Capital
  import opened Accounts
  import Eligibility
  import Enforcement
  import Scaling
  import CapitalRuns

  datatype PayoutStatus = Pending | Paid | Rejected

  /** One payouts row. An empty approver string stands for NULL, which the code treats alike. */
  datatype Payout = Payout(
    user: nat, account: nat, amount: int, status: PayoutStatus, first: string, second: string)

  /** The setting payout_dual_approval_threshold. */
  datatype Setting = Missing | Unparseable | Number(value: real)

  /** Dual control is off unless the setting is a positive number. */
  function Threshold(setting: Setting): Option<real> {
    if setting.Number? && setting.value > 0.0 then Some(setting.value) else None
  }

  predicate NeedsTwo(amount: int, setting: Setting) {
    Threshold(setting).Some? && amount as real >= Threshold(setting).value
  }

  /** COUNT(*) FILTER (WHERE status = ...). */
  function Exposure(trades: seq<Trade>, status: TradeStatus): nat {
    if trades == [] then 0
    else Exposure(trades[..|trades| - 1], status) + if trades[|trades| - 1].status == status then 1 else 0
  }

  lemma {:induction false} NoExposureIff(trades: seq<Trade>, status: TradeStatus)
    ensures Exposure(trades, status) == 0 <==> forall i :: 0 <= i < |trades| ==> trades[i].status != status
  {
    if trades != [] {
      var n := |trades| - 1;
      NoExposureIff(trades[..n], status);
      assert forall i :: 0 <= i < n ==> trades[..n][i] == trades[i];
    }
  }

  const MIN_REQUEST := 5000

  /** What approval asks of the eligibility rules: no consistency argument, no pending payout. */
  function ApprovalQuery(p: Payout, s: AccountState, kycApproved: bool): Eligibility.Query {
    Eligibility.Query(s.kind, s.status, s.balance, s.start, kycApproved,
                      Exposure(s.trades, Open), Exposure(s.trades, Resting), 0,
                      Some(p.amount), MIN_REQUEST, 100.0, None, 0.0)
  }

  /** What an approval certifies about the account it is about to debit. */
  predicate Payable(p: Payout, s: AccountState, kycApproved: bool) {
    && s.kind == Funded && s.status == Active && kycApproved
    && Exposure(s.trades, Open) == 0 && Exposure(s.trades, Resting) == 0
    && MIN_REQUEST <= p.amount <= s.balance - s.start
  }

  /** The eligibility rules, asked that way, report no blocker exactly when all of this holds. */
  lemma PayableIffEligible(p: Payout, s: AccountState, kycApproved: bool)
    ensures Payable(p, s, kycApproved) <==> Eligibility.Eligible(ApprovalQuery(p, s, kycApproved))
  {
    Eligibility.EligibleAmount(ApprovalQuery(p, s, kycApproved));
  }

  datatype Outcome = NotFound | NotPending | Blocked | AwaitingSecond | SameApprover | PaidOut

  datatype Approval = Approval(payout: Payout, account: AccountState, outcome: Outcome)

  /** One approval of a found payout on its locked account. */
  function Approved(id: nat, p: Payout, s: AccountState, kycApproved: bool, setting: Setting, actor: string): Approval {
    if p.status != Pending then Approval(p, s, NotPending)
    else if !Payable(p, s, kycApproved) then Approval(p, s, Blocked)
    else if NeedsTwo(p.amount, setting) && p.first == "" then Approval(p.(first := actor), s, AwaitingSecond)
    else if NeedsTwo(p.amount, setting) && p.first == actor then Approval(p, s, SameApprover)
    else
      var signed := if NeedsTwo(p.amount, setting) then p.(second := actor) else p;
      Approval(signed.(status := Paid), CapitalMoved(s, -p.amount, PayoutDebit(id)), PaidOut)
  }

  class PayoutRow {
    const id: nat
    const user: nat
    const account: nat
    const amount: int
    var status: PayoutStatus
    var first: string
    var second: string

    ghost function Value(): Payout
      reads this
    {
      Payout(user, account, amount, status, first, second)
    }

    constructor (id: nat, p: Payout)
      ensures this.id == id && Value() == p
    {
      this.id, user, account, amount := id, p.user, p.account, p.amount;
      status, first, second := p.status, p.first, p.second;
    }
  }

  method CountTrades(trades: seq<Trade>, status: TradeStatus) returns (n: nat)
    ensures n == Exposure(trades, status)
  {
    n := 0;
    for i := 0 to |trades|
      invariant n == Exposure(trades[..i], status)
    {
      assert trades[..i + 1][..i] == trades[..i];
      if trades[i].status == status {
        n := n + 1;
      }
    }
    assert trades[..|trades|] == trades;
  }

  /** approvePayout, inside the caller's transaction; a refusal changes nothing. */
  method ApprovePayout(payout: PayoutRow?, row: AccountRecord?, kycApproved: bool, setting: Setting, actor: string)
    returns (outcome: Outcome)
    modifies payout, row
    ensures payout == null || (old(payout.status) == Pending && row == null) ==> outcome == NotFound
    ensures payout != null && row == null ==>
      payout.Value() == old(payout.Value()) && (outcome == NotPending <==> payout.status != Pending)
    ensures payout == null && row != null ==> row.State() == old(row.State())
    ensures payout != null && row != null ==>
      Approval(payout.Value(), row.State(), outcome)
        == Approved(payout.id, old(payout.Value()), old(row.State()), kycApproved, setting, actor)
  {
    if payout == null {
      return NotFound;
    }
    if payout.status != Pending {
      return NotPending;
    }
    if row == null {
      return NotFound;
    }
    var account := new Account.FromLockedRow(row);
    var openCount := CountTrades(row.trades, Open);
    var pendingCount := CountTrades(row.trades, Resting);
    var query := Eligibility.Query(row.kind, account.status, account.currentBalance, account.startingBalance,
                                   kycApproved, openCount, pendingCount, 0, Some(payout.amount),
                                   MIN_REQUEST, 100.0, None, 0.0);
    var blockers, _, _, _ := Eligibility.EvaluatePayoutEligibility(query);
    assert query == ApprovalQuery(payout.Value(), row.State(), kycApproved);
    PayableIffEligible(payout.Value(), row.State(), kycApproved);
    if |blockers| > 0 {
      assert Eligibility.Applies(query, blockers[0]);
      return Blocked;
    }
    if NeedsTwo(payout.amount, setting) {
      if payout.first == "" {
        payout.first := actor;
        return AwaitingSecond;
      }
      if payout.first == actor {
        return SameApprover;
      }
      payout.second := actor;
    }
    var _ := account.AdjustBalance(-payout.amount, PayoutDebit(payout.id), true);
    payout.status := Paid;
    outcome := PaidOut;
  }

  /** What one approval comes to, and what it signs. Two people are needed when the setting is a positive
      number that the amount reaches. */
  lemma ApprovalOutcome(id: nat, p: Payout, s: AccountState, kyc: bool, setting: Setting, actor: string)
    ensures var r := Approved(id, p, s, kyc, setting, actor);
      var two := setting.Number? && setting.value > 0.0 && p.amount as real >= setting.value;
      var due :=
        && p.status == Pending && s.kind == Funded && s.status == Active && kyc
        && (forall i :: 0 <= i < |s.trades| ==> s.trades[i].status !in {Open, Resting})
        && 5000 <= p.amount <= s.balance - s.start;
      && (r.outcome == PaidOut <==> due && (two ==> p.first != "" && p.first != actor))
      && (r.outcome == AwaitingSecond <==> due && two && p.first == "")
      && (r.outcome == SameApprover <==> due && two && p.first == actor && actor != "")
      && (r.outcome == NotPending <==> p.status != Pending)
      && (r.outcome == PaidOut ==>
           && r.payout == p.(status := Paid, second := if two then actor else p.second)
           && r.account.balance == s.balance - p.amount)
      && (r.outcome == AwaitingSecond ==> r.payout == p.(first := actor) && r.account == s)
      && (r.outcome !in {PaidOut, AwaitingSecond} ==> r.payout == p && r.account == s)
  {
    NoExposureIff(s.trades, Open);
    NoExposureIff(s.trades, Resting);
  }

  /** Whatever the threshold, an eligible payout is paid once two different admins have approved it. */
  lemma TwoApproversSuffice(id: nat, p: Payout, s: AccountState, kyc: bool, setting: Setting, a: string, b: string)
    requires p.status == Pending && Payable(p, s, kyc) && a != b && a != "" && b != ""
    ensures var one := Approved(id, p, s, kyc, setting, a);
      one.outcome == PaidOut || Approved(id, one.payout, one.account, kyc, setting, b).outcome == PaidOut
  {
    var one := Approved(id, p, s, kyc, setting, a);
    assert one.outcome != PaidOut ==> one.account == s && Payable(one.payout, s, kyc);
  }

  // ---------- The desk: all payouts, all accounts, any interleaving ----------

  datatype Desk = Desk(
    accounts: map<nat, AccountState>, payouts: map<nat, Payout>, kyc: set<nat>, setting: Setting)

  datatype DeskOp =
    | Submit(id: nat, user: nat, account: nat, amount: int)
    | Approve(id: nat, actor: string)
    | Reject(id: nat)
    | BulkReject(id: nat)
    | SetThreshold(setting: Setting)
    | SetKyc(user: nat, approved: bool)
    | OnAccount(account: nat, op: CapitalRuns.Op)

  /** The approval a desk would give now. */
  function ApprovalOn(d: Desk, id: nat, actor: string): Option<Approval> {
    if id !in d.payouts || d.payouts[id].account !in d.accounts then None
    else
      var p := d.payouts[id];
      Some(Approved(id, p, d.accounts[p.account], p.user in d.kyc, d.setting, actor))
  }

  predicate Pays(d: Desk, op: DeskOp) {
    op.Approve? && ApprovalOn(d, op.id, op.actor).Some? && ApprovalOn(d, op.id, op.actor).value.outcome == PaidOut
  }

  function SetStatus(d: Desk, id: nat, status: PayoutStatus): Desk
    requires id in d.payouts
  {
    d.(payouts := d.payouts[id := d.payouts[id].(status := status)])
  }

  /** `Reject` is the single-payout route, `BulkReject` the command-centre action, which does not
      look at the status it overwrites. */
  function DeskStep(d: Desk, op: DeskOp): Desk {
    match op
    case Submit(id, user, account, amount) =>
      if id in d.payouts || account !in d.accounts then d
      else d.(payouts := d.payouts[id := Payout(user, account, amount, Pending, "", "")])
    case Approve(id, actor) =>
      var r := ApprovalOn(d, id, actor);
      if r.None? then d
      else d.(payouts := d.payouts[id := r.value.payout],
              accounts := d.accounts[d.payouts[id].account := r.value.account])
    case Reject(id) => if id in d.payouts && d.payouts[id].status == Pending then SetStatus(d, id, Rejected) else d
    case BulkReject(id) => if id in d.payouts then SetStatus(d, id, Rejected) else d
    case SetThreshold(setting) => d.(setting := setting)
    case SetKyc(user, approved) => d.(kyc := if approved then d.kyc + {user} else d.kyc - {user})
    case OnAccount(a, op) =>
      if a in d.accounts then d.(accounts := d.accounts[a := CapitalRuns.Step(d.accounts[a], op)]) else d
  }

  function DeskRun(d: Desk, ops: seq<DeskOp>): Desk {
    if ops == [] then d else DeskStep(DeskRun(d, ops[..|ops| - 1]), ops[|ops| - 1])
  }

  /** The ledger amounts booked for one payout. */
  function Debits(ledger: seq<LedgerRow>, id: nat): seq<int> {
    if ledger == [] then []
    else
      var row := ledger[|ledger| - 1];
      Debits(ledger[..|ledger| - 1], id) + if row.source == PayoutDebit(id) then [row.amount] else []
  }

  lemma DebitsAppend(ledger: seq<LedgerRow>, row: LedgerRow, id: nat)
    ensures Debits(ledger + [row], id) == Debits(ledger, id) + if row.source == PayoutDebit(id) then [row.amount] else []
  {
    assert (ledger + [row])[..|ledger|] == ledger;
  }

  /** Account events other than an approval do not book payout rows. */
  predicate NoForgedDebit(op: DeskOp) {
    op.OnAccount? && op.op.Adjust? ==> !op.op.source.PayoutDebit?
  }

  lemma {:induction false} InjectKeepsDebits(s: AccountState, amount: real, cap: int, next: nat, last: nat, id: nat)
    requires Scaling.Inject(s, amount, cap, next, last).Some?
    ensures Debits(Scaling.Inject(s, amount, cap, next, last).value.ledger, id) == Debits(s.ledger, id)
    decreases last + 1 - next
  {
    if !(next > last || (cap > 0 && s.balance as real + amount > cap as real)) {
      var step := Cents(amount);
      DebitsAppend(s.ledger, LedgerRow(step, ScalingIncrease(next), s.balance, s.balance + step), id);
      InjectKeepsDebits(Adjusted(s, step, ScalingIncrease(next)), amount, cap, next + 1, last, id);
    }
  }

  lemma EvaluationKeepsDebits(s: AccountState, plan: Scaling.Plan, id: nat)
    ensures Debits(Scaling.Evaluated(s, plan).ledger, id) == Debits(s.ledger, id)
  {
    if Scaling.Runs(plan) && s.start > 0 {
      var earned := Scaling.Earned(Scaling.TradingProfit(s), s.start, plan);
      if earned > s.claimed && plan.increasePct > 0.0 {
        var amount := Scaling.PerMilestone(plan, s.start);
        if Scaling.Inject(s, amount, plan.maxSize, s.claimed + 1, earned).Some? {
          InjectKeepsDebits(s, amount, plan.maxSize, s.claimed + 1, earned, id);
        }
      }
    }
  }

  lemma BranchKeepsDebits(branch: Enforcement.Branch, s: AccountState, env: Enforcement.Env, id: nat)
    ensures Debits(Enforcement.AfterBranch(branch, s, env).ledger, id) == Debits(s.ledger, id)
  {
    if branch == Enforcement.DoScale && env.plan.Some? {
      EvaluationKeepsDebits(s, env.plan.value, id);
    } else {
      assert Enforcement.AfterBranch(branch, s, env).ledger == s.ledger;
    }
  }

  lemma StepKeepsDebits(s: AccountState, op: CapitalRuns.Op, id: nat)
    requires op.Adjust? ==> !op.source.PayoutDebit?
    ensures Debits(CapitalRuns.Step(s, op).ledger, id) == Debits(s.ledger, id)
  {
    match op {
      case Adjust(amount, source, _) =>
        DebitsAppend(s.ledger, LedgerRow(amount, source, s.balance, s.balance + amount), id);
      case Reset =>
        DebitsAppend(s.ledger, LedgerRow(s.start - s.balance, AdminReset, s.balance, s.start), id);
      case Scale(plan) => EvaluationKeepsDebits(s, plan, id);
      case Process(acc, env) =>
        CapitalRuns.RatchetFrame(acc, s, env);
        BranchKeepsDebits(Enforcement.BranchOf(acc, env, Enforcement.HasOpen(s.trades)),
                          Enforcement.AfterRatchet(acc, s, env), env, id);
      case _ => assert CapitalRuns.Step(s, op).ledger == s.ledger;
    }
  }

  // ---------- One debit per payout, exactly when it is paid ----------

  /** How many operations of a run paid this payout. */
  function Payments(d: Desk, ops: seq<DeskOp>, id: nat): nat {
    if ops == [] then 0
    else
      var pre, op := ops[..|ops| - 1], ops[|ops| - 1];
      Payments(d, pre, id) + if op.Approve? && op.id == id && Pays(DeskRun(d, pre), op) then 1 else 0
  }

  /** A desk before its first payout. */
  ghost predicate Opening(d: Desk) {
    && d.payouts == map[]
    && forall a, id {:trigger Debits(d.accounts[a].ledger, id)} :: a in d.accounts ==> Debits(d.accounts[a].ledger, id) == []
  }

  /** What holds of one payout after it was paid `paid` times. */
  ghost predicate InBooks(d: Desk, id: nat, paid: nat) {
    && paid <= 1
    && (id !in d.payouts ==> paid == 0)
    && (id in d.payouts ==>
         && d.payouts[id].account in d.accounts
         && (d.payouts[id].status == Pending ==> paid == 0)
         && (d.payouts[id].status == Paid ==> paid == 1))
    && forall a :: a in d.accounts ==> Debits(d.accounts[a].ledger, id) == Expected(d, id, a, paid)
  }

  function Expected(d: Desk, id: nat, a: nat, paid: nat): seq<int> {
    if paid == 1 && id in d.payouts && d.payouts[id].account == a then [-d.payouts[id].amount] else []
  }

  lemma MovedAccountInBooks(d: Desk, a: nat, t: AccountState, id: nat, paid: nat)
    requires InBooks(d, id, paid) && a in d.accounts && Debits(t.ledger, id) == Debits(d.accounts[a].ledger, id)
    ensures InBooks(d.(accounts := d.accounts[a := t]), id, paid)
  {
  }

  /** Rewriting a payout row keeps the books when it keeps account and amount, and the status still
      tells the truth. */
  lemma MovedRowInBooks(d: Desk, other: nat, p: Payout, id: nat, paid: nat)
    requires InBooks(d, id, paid) && other in d.payouts
    requires p.account == d.payouts[other].account && p.amount == d.payouts[other].amount
    requires other == id ==> (p.status == Pending ==> paid == 0) && (p.status == Paid ==> paid == 1)
    ensures InBooks(d.(payouts := d.payouts[other := p]), id, paid)
  {
    forall a | a in d.accounts
      ensures Debits(d.accounts[a].ledger, id) == Expected(d.(payouts := d.payouts[other := p]), id, a, paid)
    {
      assert Debits(d.accounts[a].ledger, id) == Expected(d, id, a, paid);
    }
  }

  lemma PaymentInBooks(d: Desk, id: nat, p: Payout)
    requires InBooks(d, id, 0) && id in d.payouts
    requires p.account == d.payouts[id].account && p.amount == d.payouts[id].amount && p.status == Paid
    ensures InBooks(d.(payouts := d.payouts[id := p],
                       accounts := d.accounts[p.account := CapitalMoved(d.accounts[p.account], -p.amount, PayoutDebit(id))]),
                    id, 1)
  {
    hide Debits;
    var s := d.accounts[p.account];
    DebitsAppend(s.ledger, LedgerRow(-p.amount, PayoutDebit(id), s.balance, s.balance - p.amount), id);
    var e := d.(payouts := d.payouts[id := p],
                accounts := d.accounts[p.account := CapitalMoved(s, -p.amount, PayoutDebit(id))]);
    forall a | a in e.accounts
      ensures Debits(e.accounts[a].ledger, id) == Expected(e, id, a, 1)
    {
      assert Debits(d.accounts[a].ledger, id) == Expected(d, id, a, 0);
    }
  }

  /** The three shapes an approval's effect can take. */
  lemma ApprovalShape(id: nat, p: Payout, s: AccountState, kyc: bool, setting: Setting, actor: string)
    ensures var r := Approved(id, p, s, kyc, setting, actor);
      && r.payout.account == p.account && r.payout.amount == p.amount
      && (r.outcome == PaidOut ==>
           p.status == Pending && r.payout.status == Paid && r.account == CapitalMoved(s, -p.amount, PayoutDebit(id)))
      && (r.outcome != PaidOut ==> r.payout.status == p.status && r.account == s)
  {
  }

  lemma InBooksTells(d: Desk, id: nat, paid: nat)
    requires InBooks(d, id, paid)
    ensures paid <= 1
    ensures id in d.payouts ==> (d.payouts[id].status == Pending ==> paid == 0) && (d.payouts[id].status == Paid ==> paid == 1)
  {
  }

  lemma ApproveInBooks(d: Desk, other: nat, actor: string, id: nat, paid: nat)
    requires InBooks(d, id, paid)
    ensures InBooks(DeskStep(d, Approve(other, actor)), id,
                    paid + if other == id && Pays(d, Approve(other, actor)) then 1 else 0)
  {
    hide InBooks, Approved, CapitalMoved;
    InBooksTells(d, id, paid);
    if ApprovalOn(d, other, actor).Some? {
      var r := ApprovalOn(d, other, actor).value;
      var p := d.payouts[other];
      var s := d.accounts[p.account];
      ApprovalShape(other, p, s, p.user in d.kyc, d.setting, actor);
      if r.outcome != PaidOut {
        assert d.accounts[p.account := s] == d.accounts;
        MovedRowInBooks(d, other, r.payout, id, paid);
      } else if other == id {
        PaymentInBooks(d, id, r.payout);
      } else {
        OtherPaymentInBooks(d, other, r.payout, id, paid);
      }
    }
  }

  lemma OtherPaymentInBooks(d: Desk, other: nat, p: Payout, id: nat, paid: nat)
    requires InBooks(d, id, paid) && other in d.payouts && other != id
    requires p.account == d.payouts[other].account && p.amount == d.payouts[other].amount
    requires p.account in d.accounts
    ensures InBooks(d.(payouts := d.payouts[other := p],
                       accounts := d.accounts[p.account := CapitalMoved(d.accounts[p.account], -p.amount, PayoutDebit(other))]),
                    id, paid)
  {
    var s := d.accounts[p.account];
    var t := CapitalMoved(s, -p.amount, PayoutDebit(other));
    DebitsAppend(s.ledger, LedgerRow(-p.amount, PayoutDebit(other), s.balance, s.balance - p.amount), id);
    MovedAccountInBooks(d, p.account, t, id, paid);
    MovedRowInBooks(d.(accounts := d.accounts[p.account := t]), other, p, id, paid);
  }

  lemma AccountEventInBooks(d: Desk, a: nat, op: CapitalRuns.Op, id: nat, paid: nat)
    requires InBooks(d, id, paid) && NoForgedDebit(OnAccount(a, op))
    ensures InBooks(DeskStep(d, OnAccount(a, op)), id, paid)
  {
    if a in d.accounts {
      var was, t := d.accounts[a], CapitalRuns.Step(d.accounts[a], op);
      assert Debits(t.ledger, id) == Debits(was.ledger, id) by {
        StepKeepsDebits(was, op, id);
      }
      MovedAccountInBooks(d, a, t, id, paid);
    }
  }

  lemma StepInBooks(d: Desk, op: DeskOp, id: nat, paid: nat)
    requires InBooks(d, id, paid) && NoForgedDebit(op)
    ensures InBooks(DeskStep(d, op), id, paid + if op.Approve? && op.id == id && Pays(d, op) then 1 else 0)
  {
    match op {
      case Approve(other, actor) => ApproveInBooks(d, other, actor, id, paid);
      case OnAccount(a, o) => AccountEventInBooks(d, a, o, id, paid);
      case _ => RowEventInBooks(d, op, id, paid);
    }
  }

  lemma RowEventInBooks(d: Desk, op: DeskOp, id: nat, paid: nat)
    requires InBooks(d, id, paid) && !op.Approve? && !op.OnAccount?
    ensures InBooks(DeskStep(d, op), id, paid)
  {
    match op {
      case Submit(other, _, _, _) =>
        var e := DeskStep(d, op);
        forall a | a in e.accounts
          ensures Debits(e.accounts[a].ledger, id) == Expected(e, id, a, paid)
        {
          assert Debits(d.accounts[a].ledger, id) == Expected(d, id, a, paid);
        }
      case Reject(other) =>
        if other in d.payouts {
          MovedRowInBooks(d, other, d.payouts[other].(status := Rejected), id, paid);
        }
      case BulkReject(other) =>
        if other in d.payouts {
          MovedRowInBooks(d, other, d.payouts[other].(status := Rejected), id, paid);
        }
      case SetThreshold(_) => SettingInBooks(d, DeskStep(d, op), id, paid);
      case SetKyc(_, _) => SettingInBooks(d, DeskStep(d, op), id, paid);
    }
  }

  lemma SettingInBooks(d: Desk, e: Desk, id: nat, paid: nat)
    requires InBooks(d, id, paid) && e.accounts == d.accounts && e.payouts == d.payouts
    ensures InBooks(e, id, paid)
  {
    forall a | a in e.accounts
      ensures Debits(e.accounts[a].ledger, id) == Expected(e, id, a, paid)
    {
      assert Debits(d.accounts[a].ledger, id) == Expected(d, id, a, paid);
    }
  }

  /** Under any interleaving of requests, approvers, rejections, threshold and KYC changes and
      account events: a payout is paid at most once; the ledger of its account holds its debit, once
      and for the requested amount, exactly when it was paid; no other account is ever debited for
      it; a pending payout was not paid and a paid one was. */
  lemma {:induction false} DebitedOnceExactlyWhenPaid(d: Desk, ops: seq<DeskOp>, id: nat)
    requires Opening(d) && forall i :: 0 <= i < |ops| ==> NoForgedDebit(ops[i])
    ensures InBooks(DeskRun(d, ops), id, Payments(d, ops, id))
  {
    if ops != [] {
      var pre := ops[..|ops| - 1];
      DebitedOnceExactlyWhenPaid(d, pre, id);
      StepInBooks(DeskRun(d, pre), ops[|ops| - 1], id, Payments(d, pre, id));
    }
  }

  /** A bulk rejection hit this payout after it had been paid. */
  predicate HitAfterPaid(d: Desk, ops: seq<DeskOp>, id: nat) {
    exists i :: 0 <= i < |ops| && ops[i] == BulkReject(id) && ListedPaid(DeskRun(d, ops[..i]), id)
  }

  lemma HitAfterPaidStep(d: Desk, ops: seq<DeskOp>, id: nat)
    requires ops != []
    ensures var n := |ops| - 1;
      HitAfterPaid(d, ops, id) <==>
      || HitAfterPaid(d, ops[..n], id)
      || (ops[n] == BulkReject(id) && ListedPaid(DeskRun(d, ops[..n]), id))
  {
    var n := |ops| - 1;
    assert forall i :: 0 <= i < n ==> ops[..n][i] == ops[i] && ops[..n][..i] == ops[..i];
    if HitAfterPaid(d, ops[..n], id) {
      var i :| 0 <= i < n && ops[..n][i] == BulkReject(id) && ListedPaid(DeskRun(d, ops[..n][..i]), id);
      assert ops[i] == BulkReject(id) && ops[..n][..i] == ops[..i];
    }
  }

  predicate ListedPaid(d: Desk, id: nat) {
    id in d.payouts && d.payouts[id].status == Paid
  }

  /** A payout becomes paid by a payment and stops being paid by a bulk rejection, and by nothing else. */
  lemma ListedPaidStep(d: Desk, op: DeskOp, id: nat)
    ensures ListedPaid(DeskStep(d, op), id) <==>
      || (ListedPaid(d, id) && op != BulkReject(id))
      || (op.Approve? && op.id == id && Pays(d, op))
    ensures ListedPaid(d, id) ==> !(op.Approve? && op.id == id && Pays(d, op))
    ensures ListedPaid(d, id) && op == BulkReject(id) ==> RejectedRow(DeskStep(d, op), id)
    ensures RejectedRow(d, id) ==> RejectedRow(DeskStep(d, op), id)
  {
    if op.Approve? && ApprovalOn(d, op.id, op.actor).Some? {
      var p := d.payouts[op.id];
      ApprovalShape(op.id, p, d.accounts[p.account], p.user in d.kyc, d.setting, op.actor);
    }
  }

  predicate RejectedRow(d: Desk, id: nat) {
    id in d.payouts && d.payouts[id].status == Rejected
  }

  /** The only way a payout that was debited stops being listed as paid is a bulk rejection after the
      payment: status and ledger agree if and only if none happened. */
  lemma {:induction false} StatusMatchesLedgerIff(d: Desk, ops: seq<DeskOp>, id: nat)
    requires Opening(d) && forall i :: 0 <= i < |ops| ==> NoForgedDebit(ops[i])
    ensures (ListedPaid(DeskRun(d, ops), id) <==> Payments(d, ops, id) == 1) <==> !HitAfterPaid(d, ops, id)
    ensures HitAfterPaid(d, ops, id) ==> RejectedRow(DeskRun(d, ops), id) && Payments(d, ops, id) == 1
  {
    DebitedOnceExactlyWhenPaid(d, ops, id);
    var bound: nat := Payments(d, ops, id);
    assert bound <= 1;
    if ops != [] {
      var n := |ops| - 1;
      StatusMatchesLedgerIff(d, ops[..n], id);
      ListedPaidStep(DeskRun(d, ops[..n]), ops[n], id);
      HitAfterPaidStep(d, ops, id);
    }
  }

  const FLAT := AccountState(Funded, Active, 100000, 150000, 150000, None, None, 10.0, None, 0, 0, 1.0, [], [])
  const DESK := Desk(map[1 := FLAT], map[], {3}, Missing)
  const RUN := [Submit(7, 3, 1, 20000), Approve(7, "ann"), BulkReject(7)]

  lemma AfterOne(d: Desk, op: DeskOp, d1: Desk)
    requires d1 == DeskStep(d, op)
    ensures DeskRun(d, [op]) == d1
  {
    assert DeskRun(d, [op][..0]) == d;
  }

  lemma SubmittedIsPayable(d: Desk, d1: Desk)
    requires d == DESK && d1 == DeskStep(d, RUN[0])
    ensures Opening(d)
    ensures d1 == d.(payouts := map[7 := Payout(3, 1, 20000, Pending, "", "")])
    ensures Payable(d1.payouts[7], FLAT, true)
  {
  }

  lemma ApprovedIsPaid(d1: Desk, d2: Desk)
    requires d1 == DESK.(payouts := map[7 := Payout(3, 1, 20000, Pending, "", "")]) && d2 == DeskStep(d1, RUN[1])
    requires Payable(d1.payouts[7], FLAT, true)
    ensures ListedPaid(d2, 7) && 1 in d2.accounts && d2.accounts[1].balance == 130000
    ensures Debits(d2.accounts[1].ledger, 7) == [-20000]
  {
    var row := LedgerRow(-20000, PayoutDebit(7), 150000, 130000);
    assert d2.accounts[1].ledger == [] + [row];
    DebitsAppend([], row, 7);
  }

  lemma AccountsAfterReject(d: Desk, id: nat)
    ensures DeskStep(d, BulkReject(id)).accounts == d.accounts
  {
  }

  /** Such a run: requested, paid, then rejected in bulk. The balance has fallen by the amount, and the
      row says that nothing was paid. */
  lemma PaidThenRejected()
    ensures Opening(DESK) && HitAfterPaid(DESK, RUN, 7)
    ensures var d := DeskRun(DESK, RUN);
      RejectedRow(d, 7) && 1 in d.accounts && d.accounts[1].balance == 130000 && Debits(d.accounts[1].ledger, 7) == [-20000]
  {
    var d1, d2 := DeskStep(DESK, RUN[0]), DeskStep(DeskStep(DESK, RUN[0]), RUN[1]);
    AfterOne(DESK, RUN[0], d1);
    assert RUN[..2][..1] == RUN[..1] == [RUN[0]];
    SubmittedIsPayable(DESK, d1);
    ApprovedIsPaid(d1, d2);
    hide DeskStep, Payable, Approved, Opening, Debits;
    assert DeskRun(DESK, RUN[..1]) == d1;
    assert DeskRun(DESK, RUN[..2]) == d2;
    ListedPaidStep(d2, RUN[2], 7);
    AccountsAfterReject(d2, 7);
  }

  // ---------- Two people above the threshold ----------

  /** Operation `i` of the run was this actor's recorded first approval. */
  predicate RecordedFirst(d: Desk, ops: seq<DeskOp>, i: nat, id: nat, actor: string) {
    && i < |ops| && ops[i] == Approve(id, actor)
    && ApprovalOn(DeskRun(d, ops[..i]), id, actor).Some?
    && ApprovalOn(DeskRun(d, ops[..i]), id, actor).value.outcome == AwaitingSecond
  }

  /** A first approver appears on a row by that person's recorded first approval. */
  lemma FirstSigned(d: Desk, op: DeskOp, id: nat)
    requires id in DeskStep(d, op).payouts && DeskStep(d, op).payouts[id].first != ""
    requires id !in d.payouts || d.payouts[id].first != DeskStep(d, op).payouts[id].first
    ensures var first := DeskStep(d, op).payouts[id].first;
      && op == Approve(id, first)
      && ApprovalOn(d, id, first).Some? && ApprovalOn(d, id, first).value.outcome == AwaitingSecond
  {
  }

  lemma {:induction false} FirstApproverIsOnRecord(d: Desk, ops: seq<DeskOp>, id: nat)
    requires d.payouts == map[]
    requires id in DeskRun(d, ops).payouts && DeskRun(d, ops).payouts[id].first != ""
    ensures exists i: nat :: RecordedFirst(d, ops, i, id, DeskRun(d, ops).payouts[id].first)
  {
    if ops != [] {
      hide DeskStep, ApprovalOn;
      var n := |ops| - 1;
      var pre, op := ops[..n], ops[n];
      var was, now := DeskRun(d, pre), DeskRun(d, ops);
      if id in was.payouts && was.payouts[id].first == now.payouts[id].first {
        FirstApproverIsOnRecord(d, pre, id);
        var i: nat :| RecordedFirst(d, pre, i, id, was.payouts[id].first);
        assert pre[..i] == ops[..i];
        assert RecordedFirst(d, ops, i, id, now.payouts[id].first);
      } else {
        FirstSigned(was, op, id);
        assert RecordedFirst(d, ops, n, id, now.payouts[id].first);
      }
    }
  }

  /** When a payout is paid while the setting is a positive number that its amount reaches, an earlier
      operation of the run was a first approval by somebody else, and the row names both: no one person
      pays it, however often that person approves. */
  lemma TwoPeopleAboveThreshold(d: Desk, ops: seq<DeskOp>, id: nat, payer: string)
    requires d.payouts == map[]
    requires Pays(DeskRun(d, ops), Approve(id, payer))
    requires var setting := DeskRun(d, ops).setting;
      setting.Number? && setting.value > 0.0 && DeskRun(d, ops).payouts[id].amount as real >= setting.value
    ensures exists i: nat, other ::
      other != payer && other != "" && i < |ops| && ops[i] == Approve(id, other) && RecordedFirst(d, ops, i, id, other)
    ensures var row := DeskStep(DeskRun(d, ops), Approve(id, payer)).payouts[id];
      row.first != row.second && row.second == payer
  {
    var was := DeskRun(d, ops);
    var p := was.payouts[id];
    ApprovalOutcome(id, p, was.accounts[p.account], p.user in was.kyc, was.setting, payer);
    FirstApproverIsOnRecord(d, ops, id);
    var i: nat :| RecordedFirst(d, ops, i, id, p.first);
    assert p.first != payer && p.first != "" && ops[i] == Approve(id, p.first) && RecordedFirst(d, ops, i, id, p.first);
  }

  /** While it is not, or the amount stays below it, the first approval of a payable payout pays it,
      whoever gives it. */
  lemma OnePersonBelowThreshold(d: Desk, id: nat, payer: string)
    requires id in d.payouts && d.payouts[id].account in d.accounts && d.payouts[id].status == Pending
    requires Payable(d.payouts[id], d.accounts[d.payouts[id].account], d.payouts[id].user in d.kyc)
    requires d.setting.Number? && d.setting.value > 0.0 ==> (d.payouts[id].amount as real) < d.setting.value
    ensures Pays(d, Approve(id, payer))
  {
    var p := d.payouts[id];
    var s := d.accounts[p.account];
    ApprovalOutcome(id, p, s, p.user in d.kyc, d.setting, payer);
    NoExposureIff(s.trades, Open);
    NoExposureIff(s.trades, Resting);
  }

  // ---------- What stands in the way of a payment ----------

  /** The last word on this user's identity check, if any operation had one. */
  function LastKyc(ops: seq<DeskOp>, user: nat): Option<bool> {
    if ops == [] then None
    else
      match ops[|ops| - 1]
      case SetKyc(u, approved) => if u == user then Some(approved) else LastKyc(ops[..|ops| - 1], user)
      case _ => LastKyc(ops[..|ops| - 1], user)
  }

  lemma {:induction false} KycIsLastSet(d: Desk, ops: seq<DeskOp>, user: nat)
    ensures user in DeskRun(d, ops).kyc <==> if LastKyc(ops, user).Some? then LastKyc(ops, user).value else user in d.kyc
  {
    if ops != [] {
      KycIsLastSet(d, ops[..|ops| - 1], user);
    }
  }

  /** The last value the threshold setting was given, if any operation gave one. */
  function LastSetting(ops: seq<DeskOp>): Option<Setting> {
    if ops == [] then None
    else if ops[|ops| - 1].SetThreshold? then Some(ops[|ops| - 1].setting)
    else LastSetting(ops[..|ops| - 1])
  }

  lemma {:induction false} SettingIsLastSet(d: Desk, ops: seq<DeskOp>)
    ensures DeskRun(d, ops).setting == if LastSetting(ops).Some? then LastSetting(ops).value else d.setting
  {
    if ops != [] {
      SettingIsLastSet(d, ops[..|ops| - 1]);
    }
  }

  lemma {:induction false} RejectedStays(d: Desk, ops: seq<DeskOp>, id: nat)
    requires RejectedRow(d, id)
    ensures RejectedRow(DeskRun(d, ops), id)
  {
    if ops != [] {
      RejectedStays(d, ops[..|ops| - 1], id);
      ListedPaidStep(DeskRun(d, ops[..|ops| - 1]), ops[|ops| - 1], id);
    }
  }

  /** A payout that was rejected while pending, or hit by a bulk rejection at any time, is never paid
      afterwards; and nobody is paid whose identity check was last refused, or never approved. */
  lemma NeverPaidAfter(d: Desk, ops: seq<DeskOp>, id: nat, payer: string)
    requires Pays(DeskRun(d, ops), Approve(id, payer))
    ensures forall i :: 0 <= i < |ops| && id in DeskRun(d, ops[..i]).payouts ==>
      && ops[i] != BulkReject(id)
      && (ops[i] == Reject(id) ==> DeskRun(d, ops[..i]).payouts[id].status != Pending)
    ensures var user := DeskRun(d, ops).payouts[id].user;
      if LastKyc(ops, user).Some? then LastKyc(ops, user).value else user in d.kyc
  {
    KycIsLastSet(d, ops, DeskRun(d, ops).payouts[id].user);
    forall i | 0 <= i < |ops| && id in DeskRun(d, ops[..i]).payouts ensures !Refuses(DeskRun(d, ops[..i]), ops[i], id) {
      if Refuses(DeskRun(d, ops[..i]), ops[i], id) {
        RefusedIsNotPaid(d, ops, i, id, payer);
      }
    }
  }

  /** This operation rejects the payout. */
  predicate Refuses(d: Desk, op: DeskOp, id: nat)
    requires id in d.payouts
  {
    op == BulkReject(id) || (op == Reject(id) && d.payouts[id].status == Pending)
  }

  lemma RefusedIsNotPaid(d: Desk, ops: seq<DeskOp>, i: nat, id: nat, payer: string)
    requires i < |ops| && id in DeskRun(d, ops[..i]).payouts && Refuses(DeskRun(d, ops[..i]), ops[i], id)
    ensures !Pays(DeskRun(d, ops), Approve(id, payer))
  {
    assert ops[..i + 1][..i] == ops[..i];
    var mid := DeskRun(d, ops[..i + 1]);
    assert RejectedRow(mid, id);
    assert ops[..i + 1] + ops[i + 1..] == ops;
    RejectedStays(mid, ops[i + 1..], id);
    RunOnwards(d, ops[..i + 1], ops[i + 1..]);
  }

  lemma {:induction false} RunOnwards(d: Desk, a: seq<DeskOp>, b: seq<DeskOp>)
    ensures DeskRun(d, a + b) == DeskRun(DeskRun(d, a), b)
  {
    hide DeskStep;
    if b == [] {
      assert a + b == a;
    } else {
      RunOnwards(d, a, b[..|b| - 1]);
      assert (a + b)[..|a + b| - 1] == a + b[..|b| - 1];
    }
  }

  // ---------- What a payment takes ----------

  /** A payment is made only from an active funded account with no trade open, no order resting and an
      approved owner; it takes the requested amount, leaves at least the starting balance, and moves
      no other account. */
  lemma PaymentStaysAboveStart(d: Desk, id: nat, actor: string)
    requires Pays(d, Approve(id, actor))
    ensures var p := d.payouts[id];
      var before, after := d.accounts[p.account], DeskStep(d, Approve(id, actor)).accounts[p.account];
      && p.user in d.kyc && before.kind == Funded && before.status == Active
      && (forall i :: 0 <= i < |before.trades| ==> before.trades[i].status !in {Open, Resting})
      && after.balance == before.balance - p.amount
      && after.balance >= after.start == before.start
      && DeskStep(d, Approve(id, actor)).accounts - {p.account} == d.accounts - {p.account}
  {
    var p := d.payouts[id];
    NoExposureIff(d.accounts[p.account].trades, Open);
    NoExposureIff(d.accounts[p.account].trades, Resting);
  }

  /** What a run of the desk does to one account: its own events, and a debit for each payment from it. */
  function AccountOps(d: Desk, ops: seq<DeskOp>, a: nat): seq<CapitalRuns.Op> {
    if ops == [] then []
    else
      var pre, op := ops[..|ops| - 1], ops[|ops| - 1];
      AccountOps(d, pre, a) + OpsOn(DeskRun(d, pre), op, a)
  }

  function OpsOn(d: Desk, op: DeskOp, a: nat): seq<CapitalRuns.Op> {
    if op.OnAccount? && op.account == a then [op.op]
    else if Pays(d, op) && d.payouts[op.id].account == a
    then [CapitalRuns.Adjust(-d.payouts[op.id].amount, PayoutDebit(op.id), true)]
    else []
  }

  /** Each account of the desk goes through exactly that run. */
  lemma {:induction false} AccountsRun(d: Desk, ops: seq<DeskOp>, a: nat)
    requires a in d.accounts
    ensures a in DeskRun(d, ops).accounts
    ensures DeskRun(d, ops).accounts[a] == CapitalRuns.Run(d.accounts[a], AccountOps(d, ops, a))
  {
    if ops != [] {
      var pre, op := ops[..|ops| - 1], ops[|ops| - 1];
      hide DeskStep, CapitalRuns.Step, OpsOn;
      AccountsRun(d, pre, a);
      AccountStep(DeskRun(d, pre), op, a);
      var before, more := AccountOps(d, pre, a), OpsOn(DeskRun(d, pre), op, a);
      if more == [] {
        assert before + more == before;
      } else {
        assert (before + more)[..|before|] == before;
      }
    }
  }

  lemma AccountStep(d: Desk, op: DeskOp, a: nat)
    requires a in d.accounts
    ensures var more := OpsOn(d, op, a);
      && a in DeskStep(d, op).accounts && |more| <= 1
      && DeskStep(d, op).accounts[a] == if more == [] then d.accounts[a] else CapitalRuns.Step(d.accounts[a], more[0])
  {
    hide Approved, CapitalMoved;
    if op.Approve? && ApprovalOn(d, op.id, op.actor).Some? {
      var p := d.payouts[op.id];
      ApprovalShape(op.id, p, d.accounts[p.account], p.user in d.kyc, d.setting, op.actor);
      PaidIsNotNothing(op.id, p, d.accounts[p.account], p.user in d.kyc, d.setting, op.actor);
    }
  }

  lemma PaidIsNotNothing(id: nat, p: Payout, s: AccountState, kyc: bool, setting: Setting, actor: string)
    ensures Approved(id, p, s, kyc, setting, actor).outcome == PaidOut ==> p.amount > 0
  {
  }

  /** The governing invariant holds on every account of the desk, whatever happens. */
  lemma {:induction false} DeskConserves(d: Desk, ops: seq<DeskOp>, a: nat)
    requires a in d.accounts && Conserved(d.accounts[a]) && PeakHolds(d.accounts[a])
    ensures a in DeskRun(d, ops).accounts
    ensures Conserved(DeskRun(d, ops).accounts[a]) && PeakHolds(DeskRun(d, ops).accounts[a])
  {
    if ops != [] {
      hide DeskStep, Conserved, PeakHolds;
      var n := |ops| - 1;
      DeskConserves(d, ops[..n], a);
      DeskStepConserves(DeskRun(d, ops[..n]), ops[n], a);
    }
  }

  lemma DeskStepConserves(d: Desk, op: DeskOp, a: nat)
    requires a in d.accounts && Conserved(d.accounts[a]) && PeakHolds(d.accounts[a])
    ensures var e := DeskStep(d, op);
      a in e.accounts && Conserved(e.accounts[a]) && PeakHolds(e.accounts[a])
  {
    hide Conserved, PeakHolds, CapitalMoved, Adjusted;
    match op {
      case OnAccount(_, o) => CapitalRuns.StepKeeps(d.accounts[a], o);
      case Approve(id, actor) =>
        if ApprovalOn(d, id, actor).Some? {
          var p := d.payouts[id];
          ApprovalShape(id, p, d.accounts[p.account], p.user in d.kyc, d.setting, actor);
          if p.account == a {
            MovedConserves(d.accounts[a], -p.amount, PayoutDebit(id));
          }
        }
      case _ =>
    }
  }

  lemma MovedConserves(s: AccountState, amount: int, source: Source)
    requires Conserved(s) && PeakHolds(s)
    ensures Conserved(CapitalMoved(s, amount, source)) && PeakHolds(CapitalMoved(s, amount, source))
  {
    AdjustedConserves(s, amount, source);
  }
}
