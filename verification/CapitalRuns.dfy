/** Whole lives of an account: any series of trade results, admin movements, payouts, resets, engine
    passes and status requests, in any order, with engine passes working on arbitrarily old copies. */
module CapitalRuns {
  import opened Options
  import opened Arithmetic
  import opened Capital
  import opened Accounts
  import opened Drawdown
  import opened Enforcement
  import Anchors
  import Scaling

  datatype Op =
    | OpenTrade(id: nat)
    | PlaceOrder(id: nat)
    | FillOrder(index: nat)
    | CloseTrade(index: nat, pnl: int)
    | Adjust(amount: int, source: Source, shift: bool)
    | Reset
    | Tick(equity: int, pct: real, locksAt: Option<real>)
    | Process(acc: AccountState, env: Env)
    | Scale(plan: Scaling.Plan)
    | Fail(model: Option<FundedModel>, skip: bool, value: Valuer)
    | Expire(value: Valuer)
    | Request(next: Option<Status>)

  function Step(s: AccountState, op: Op): AccountState {
    match op
    case OpenTrade(id) => s.(trades := s.trades + [Trade(id, Open, 0)])
    case PlaceOrder(id) => s.(trades := s.trades + [Trade(id, Resting, 0)])
    case FillOrder(i) =>
      if i < |s.trades| && s.trades[i].status == Resting
      then s.(trades := s.trades[i := s.trades[i].(status := Open)]) else s
    case CloseTrade(i, pnl) =>
      if i < |s.trades| && s.trades[i].status == Open
      then PnlBooked(s, pnl).(trades := s.trades[i := s.trades[i].(status := Settled, pnl := pnl)]) else s
    case Adjust(amount, source, shift) =>
      if amount == 0 then s
      else if shift then CapitalMoved(s, amount, source)
      else Adjusted(s, amount, source)
    case Reset => ResetToStart(s)
    case Tick(q, pct, locksAt) => Ratcheted(s, Resolve(s, q, pct, locksAt))
    case Process(acc, env) => AfterProcess(acc, s, env)
    case Scale(plan) => Scaling.Evaluated(s, plan)
    case Fail(model, skip, value) => AfterFail(s, model, skip, value)
    case Expire(value) => AfterExpire(s, value)
    case Request(next) =>
      (match Transition(s.status, next)
       case Success(t) => s.(status := t)
       case Failure(_) => s)
  }

  function Run(s: AccountState, ops: seq<Op>): AccountState {
    if ops == [] then s
    else Step(Run(s, ops[..|ops| - 1]), ops[|ops| - 1])
  }

  // ---------- Ledger conservation ----------

  lemma TimedOutKeeps(s: AccountState, value: Valuer)
    ensures AfterExpire(s, value).start == s.start
    ensures Conserved(s) ==> Conserved(AfterExpire(s, value))
    ensures PeakHolds(s) ==> PeakHolds(AfterExpire(s, value))
  {
    LiquidationSettles(s, value);
  }

  lemma FailKeeps(s: AccountState, model: Option<FundedModel>, skip: bool, value: Valuer)
    ensures AfterFail(s, model, skip, value).start == s.start
    ensures Conserved(s) ==> Conserved(AfterFail(s, model, skip, value))
    ensures PeakHolds(s) ==> PeakHolds(AfterFail(s, model, skip, value))
  {
    LiquidationSettles(s, value);
    LiquidationSettles(Ratcheted(s, FailResolution(s, model)), value);
  }

  lemma BranchKeeps(branch: Branch, s: AccountState, env: Env)
    ensures AfterBranch(branch, s, env).start == s.start
    ensures Conserved(s) ==> Conserved(AfterBranch(branch, s, env))
    ensures PeakHolds(s) ==> PeakHolds(AfterBranch(branch, s, env))
  {
    match branch
    case DoExpire => TimedOutKeeps(s, env.value);
    case DoScale =>
      if env.plan.Some? {
        Scaling.EvaluationFrame(s, env.plan.value);
      }
    case DoPass =>
    case DoNothing =>
    case _ => FailKeeps(s, env.model, branch == DoFailInactive, env.value);
  }

  /** The ratchet of a pass touches the two anchor columns only. */
  lemma RatchetFrame(acc: AccountState, s: AccountState, env: Env)
    ensures var s1 := AfterRatchet(acc, s, env);
      s1 == s.(eodPeak := s1.eodPeak, eodFloor := s1.eodFloor)
  {
  }

  lemma StepKeeps(s: AccountState, op: Op)
    ensures Step(s, op).start == s.start
    ensures Conserved(s) ==> Conserved(Step(s, op))
    ensures PeakHolds(s) ==> PeakHolds(Step(s, op))
  {
    match op
    case OpenTrade(id) => RealisedAppend(s.trades, Trade(id, Open, 0));
    case PlaceOrder(id) => RealisedAppend(s.trades, Trade(id, Resting, 0));
    case FillOrder(i) =>
      if i < |s.trades| {
        RealisedUpdate(s.trades, i, s.trades[i].(status := Open));
      }
    case CloseTrade(i, pnl) =>
      if i < |s.trades| {
        RealisedUpdate(s.trades, i, s.trades[i].(status := Settled, pnl := pnl));
      }
    case Adjust(amount, source, shift) => AdjustedConserves(s, amount, source);
    case Reset => ResetRestartsFrame(s);
    case Tick(_, _, _) =>
    case Process(acc, env) =>
      RatchetFrame(acc, s, env);
      BranchKeeps(BranchOf(acc, env, HasOpen(s.trades)), AfterRatchet(acc, s, env), env);
    case Scale(plan) => Scaling.EvaluationFrame(s, plan);
    case Fail(model, skip, value) => FailKeeps(s, model, skip, value);
    case Expire(value) => TimedOutKeeps(s, value);
    case Request(_) =>
  }

  /** Over every run: balance = start + realised P&L + ledger, and the peak is never below it. */
  lemma {:induction false} LedgerConservation(s: AccountState, ops: seq<Op>)
    requires Conserved(s) && PeakHolds(s)
    ensures var t := Run(s, ops);
      && t.start == s.start
      && t.balance == t.start + Realised(t.trades) + LedgerTotal(t.ledger)
      && t.peak >= t.balance
  {
    if ops != [] {
      LedgerConservation(s, ops[..|ops| - 1]);
      StepKeeps(Run(s, ops[..|ops| - 1]), ops[|ops| - 1]);
    }
  }

  // ---------- Scaling never cascades ----------

  /** The plan an operation evaluates, if it reaches the scaling plan at all. */
  function PlanOf(s: AccountState, op: Op): Option<Scaling.Plan> {
    match op
    case Scale(plan) => Some(plan)
    case Process(acc, env) => if BranchOf(acc, env, HasOpen(s.trades)) == DoScale then env.plan else None
    case _ => None
  }

  /** The milestones an evaluation sees, counted on realised trading P&L alone. */
  function MilestonesSeen(s: AccountState, op: Op): nat {
    var plan := PlanOf(s, op);
    if plan.Some? && Scaling.Runs(plan.value) && s.start > 0 && !Scaling.Refused(s, plan.value)
    then Scaling.Earned(Realised(s.trades), s.start, plan.value)
    else 0
  }

  lemma ProcessClaims(acc: AccountState, s: AccountState, env: Env)
    requires Conserved(s)
    ensures AfterProcess(acc, s, env).claimed == Max(s.claimed, MilestonesSeen(s, Process(acc, env)))
  {
    RatchetFrame(acc, s, env);
    var branch := BranchOf(acc, env, HasOpen(s.trades));
    var s1 := AfterRatchet(acc, s, env);
    if branch == DoScale && env.plan.Some? {
      Scaling.EvaluationCount(s1, env.plan.value);
      assert PlanOf(s, Process(acc, env)) == env.plan;
    } else {
      ClaimedOnlyByScaling(branch, s1, env);
      assert PlanOf(s, Process(acc, env)) == None;
    }
  }

  lemma ClaimedOnlyByScaling(branch: Branch, s: AccountState, env: Env)
    requires branch != DoScale || env.plan.None?
    ensures AfterBranch(branch, s, env).claimed == s.claimed
  {
  }

  lemma StepClaims(s: AccountState, op: Op)
    requires Conserved(s)
    ensures Step(s, op).claimed == Max(s.claimed, MilestonesSeen(s, op))
  {
    match op
    case Scale(plan) => Scaling.EvaluationCount(s, plan);
    case Process(acc, env) => ProcessClaims(acc, s, env);
    case _ =>
  }

  /** The milestones seen at each operation of a run, in order. */
  function SeenList(s: AccountState, ops: seq<Op>): (seen: seq<nat>)
    ensures |seen| == |ops|
  {
    if ops == [] then []
    else
      var pre := ops[..|ops| - 1];
      SeenList(s, pre) + [MilestonesSeen(Run(s, pre), ops[|ops| - 1])]
  }

  lemma {:induction false} SeenListAt(s: AccountState, ops: seq<Op>, i: nat)
    requires i < |ops|
    ensures SeenList(s, ops)[i] == MilestonesSeen(Run(s, ops[..i]), ops[i])
  {
    hide Step, MilestonesSeen;
    if i < |ops| - 1 {
      SeenListAt(s, ops[..|ops| - 1], i);
      assert ops[..|ops| - 1][..i] == ops[..i];
    }
  }

  ghost predicate IsBest(best: nat, floor: nat, seen: seq<nat>) {
    && best >= floor
    && (forall i :: 0 <= i < |seen| ==> seen[i] <= best)
    && (best == floor || best in seen)
  }

  lemma BestStep(best: nat, floor: nat, seen: seq<nat>, next: nat)
    requires IsBest(best, floor, seen)
    ensures IsBest(Max(best, next), floor, seen + [next])
  {
    assert forall i :: 0 <= i < |seen| ==> (seen + [next])[i] == seen[i];
    assert next in seen + [next];
  }

  /** The claimed count is the largest number of milestones of trading profit seen at any evaluation
      of the run (see SeenListAt), never below its starting value: injections, credits, payouts and
      resets in between do not count, and no milestone that was seen is missing. */
  lemma {:induction false} ClaimedIsBestSeen(s: AccountState, ops: seq<Op>)
    requires Conserved(s) && PeakHolds(s)
    ensures IsBest(Run(s, ops).claimed, s.claimed, SeenList(s, ops))
  {
    if ops != [] {
      var pre, op := ops[..|ops| - 1], ops[|ops| - 1];
      ClaimedIsBestSeen(s, pre);
      LedgerConservation(s, pre);
      StepClaims(Run(s, pre), op);
      BestStep(Run(s, pre).claimed, s.claimed, SeenList(s, pre), MilestonesSeen(Run(s, pre), op));
    }
  }

  /** Capital movements, and evaluations of one plan; nothing here settles a trade. */
  predicate CapitalOnly(op: Op, plan: Scaling.Plan) {
    match op
    case Adjust(_, source, _) => !source.ScalingIncrease?
    case Reset => true
    case Tick(_, _, _) => true
    case Scale(p) => p == plan
    case OpenTrade(_) => true
    case PlaceOrder(_) => true
    case Request(_) => true
    case _ => false
  }

  /** The milestone numbers of the scaling rows, in ledger order. */
  function ScalingRows(ledger: seq<LedgerRow>): seq<nat> {
    if ledger == [] then []
    else
      var row := ledger[|ledger| - 1];
      ScalingRows(ledger[..|ledger| - 1])
      + if row.source.ScalingIncrease? then [row.source.milestone] else []
  }

  lemma ScalingRowsAppend(ledger: seq<LedgerRow>, row: LedgerRow)
    ensures ScalingRows(ledger + [row])
         == ScalingRows(ledger) + if row.source.ScalingIncrease? then [row.source.milestone] else []
  {
    assert (ledger + [row])[..|ledger|] == ledger;
  }

  /** What a capital-only step leaves alone. */
  predicate EarnedNothing(s: AccountState, t: AccountState) {
    && t.claimed == s.claimed && t.multiplier == s.multiplier && t.start == s.start
    && Realised(t.trades) == Realised(s.trades)
    && ScalingRows(t.ledger) == ScalingRows(s.ledger)
  }

  lemma AdjustedEarnsNothing(s: AccountState, amount: int, source: Source)
    requires !source.ScalingIncrease?
    ensures EarnedNothing(s, Adjusted(s, amount, source))
  {
    ScalingRowsAppend(s.ledger, LedgerRow(amount, source, s.balance, s.balance + amount));
  }

  lemma MovementEarnsNothing(s: AccountState, plan: Scaling.Plan, op: Op)
    requires CapitalOnly(op, plan) && !op.Scale?
    ensures EarnedNothing(s, Step(s, op))
  {
    hide Resolve, ScalingRows, Realised;
    match op
    case Adjust(amount, source, _) => AdjustedEarnsNothing(s, amount, source);
    case Reset => AdjustedEarnsNothing(s, s.start - s.balance, AdminReset);
    case OpenTrade(id) => RealisedAppend(s.trades, Trade(id, Open, 0));
    case PlaceOrder(id) => RealisedAppend(s.trades, Trade(id, Resting, 0));
    case Tick(q, pct, locksAt) => RatchetedFrame(s, Resolve(s, q, pct, locksAt));
    case Request(_) =>
  }

  lemma CapitalStepEarnsNothing(s: AccountState, plan: Scaling.Plan, op: Op)
    requires Conserved(s) && Scaling.Runs(plan) && s.start > 0 && CapitalOnly(op, plan)
    requires Scaling.Earned(Realised(s.trades), s.start, plan) <= s.claimed
    ensures EarnedNothing(s, Step(s, op))
  {
    hide Scaling.Evaluated, Scaling.Earned;
    if op.Scale? {
      assert Scaling.TradingProfit(s) == Realised(s.trades);
      Scaling.NothingNewKeeps(s, plan);
    } else {
      MovementEarnsNothing(s, plan, op);
    }
  }

  /** Once a plan's milestones have been claimed, no credit, debit, payout or reset, and no number
      of further evaluations, earns another one, raises the multiplier or injects anything. */
  lemma {:induction false} LedgerCannotEarn(s: AccountState, plan: Scaling.Plan, ops: seq<Op>)
    requires Conserved(s) && PeakHolds(s) && Scaling.Runs(plan) && s.start > 0
    requires Scaling.Earned(Realised(s.trades), s.start, plan) <= s.claimed
    requires forall i :: 0 <= i < |ops| ==> CapitalOnly(ops[i], plan)
    ensures EarnedNothing(s, Run(s, ops))
  {
    if ops != [] {
      var pre := ops[..|ops| - 1];
      LedgerCannotEarn(s, plan, pre);
      LedgerConservation(s, pre);
      CapitalStepEarnsNothing(Run(s, pre), plan, ops[|ops| - 1]);
    }
  }

  /** Scaling rows carry strictly increasing milestone numbers, none above `bound`. */
  predicate InOrder(ledger: seq<LedgerRow>, bound: nat) {
    var m := ScalingRows(ledger);
    && (forall i, j :: 0 <= i < j < |m| ==> m[i] < m[j])
    && (forall i :: 0 <= i < |m| ==> m[i] <= bound)
  }

  lemma {:induction false} InjectInOrder(s: AccountState, amount: real, cap: int, next: nat, last: nat)
    requires 0 < next <= last + 1 && InOrder(s.ledger, next - 1)
    requires Scaling.Inject(s, amount, cap, next, last).Some?
    ensures InOrder(Scaling.Inject(s, amount, cap, next, last).value.ledger, last)
    decreases last + 1 - next
  {
    hide ScalingRows;
    if !(next > last || (cap > 0 && s.balance as real + amount > cap as real)) {
      var step := Cents(amount);
      ScalingRowsAppend(s.ledger, LedgerRow(step, ScalingIncrease(next), s.balance, s.balance + step));
      InjectInOrder(Adjusted(s, step, ScalingIncrease(next)), amount, cap, next + 1, last);
    }
  }

  lemma EvaluatedInOrder(s: AccountState, plan: Scaling.Plan)
    requires InOrder(s.ledger, s.claimed)
    ensures var t := Scaling.Evaluated(s, plan);
      InOrder(t.ledger, t.claimed)
  {
    if Scaling.Runs(plan) && s.start > 0 {
      var earned := Scaling.Earned(Scaling.TradingProfit(s), s.start, plan);
      if earned > s.claimed && plan.increasePct > 0.0 {
        var amount := Scaling.PerMilestone(plan, s.start);
        if Scaling.Inject(s, amount, plan.maxSize, s.claimed + 1, earned).Some? {
          InjectInOrder(s, amount, plan.maxSize, s.claimed + 1, earned);
        }
      }
    }
  }

  /** Only the scaling plan writes scaling rows. */
  predicate NoForgedScaling(op: Op) {
    op.Adjust? ==> !op.source.ScalingIncrease?
  }

  lemma AdjustedInOrder(s: AccountState, amount: int, source: Source)
    requires InOrder(s.ledger, s.claimed) && !source.ScalingIncrease?
    ensures InOrder(Adjusted(s, amount, source).ledger, s.claimed)
  {
    ScalingRowsAppend(s.ledger, LedgerRow(amount, source, s.balance, s.balance + amount));
  }

  lemma BranchInOrder(branch: Branch, s: AccountState, env: Env)
    requires InOrder(s.ledger, s.claimed)
    ensures InOrder(AfterBranch(branch, s, env).ledger, AfterBranch(branch, s, env).claimed)
  {
    if branch == DoScale && env.plan.Some? {
      EvaluatedInOrder(s, env.plan.value);
    } else {
      ClaimedOnlyByScaling(branch, s, env);
      assert AfterBranch(branch, s, env).ledger == s.ledger;
    }
  }

  lemma StepInOrder(s: AccountState, op: Op)
    requires InOrder(s.ledger, s.claimed) && NoForgedScaling(op)
    ensures InOrder(Step(s, op).ledger, Step(s, op).claimed)
  {
    hide Scaling.Evaluated, Resolve, InOrder;
    match op {
      case Adjust(amount, source, _) =>
        AdjustedInOrder(s, amount, source);
      case Reset =>
        AdjustedInOrder(s, s.start - s.balance, AdminReset);
      case Scale(plan) =>
        EvaluatedInOrder(s, plan);
      case Process(acc, env) =>
        RatchetFrame(acc, s, env);
        BranchInOrder(BranchOf(acc, env, HasOpen(s.trades)), AfterRatchet(acc, s, env), env);
      case _ =>
        assert Step(s, op).ledger == s.ledger && Step(s, op).claimed == s.claimed;
    }
  }

  /** Over every run each milestone is injected at most once, in order, and only after being claimed. */
  lemma {:induction false} EachMilestoneInjectedOnce(s: AccountState, ops: seq<Op>)
    requires InOrder(s.ledger, s.claimed) && forall i :: 0 <= i < |ops| ==> NoForgedScaling(ops[i])
    ensures InOrder(Run(s, ops).ledger, Run(s, ops).claimed)
  {
    if ops != [] {
      EachMilestoneInjectedOnce(s, ops[..|ops| - 1]);
      StepInOrder(Run(s, ops[..|ops| - 1]), ops[|ops| - 1]);
    }
  }

  // ---------- Forced liquidation is exactly once ----------

  /** The operation took an active account out through the engine's fail or expire exit. */
  predicate IsExit(s: AccountState, op: Op) {
    && (op.Fail? || op.Expire? || op.Process?)
    && s.status == Active
    && Step(s, op).status in {Failed, Expired}
  }

  lemma OnlyRequestsReactivate(s: AccountState, op: Op)
    requires s.status != Active && op != Request(Some(Active))
    ensures Step(s, op).status != Active
  {
    match op
    case Scale(plan) => Scaling.EvaluationFrame(s, plan);
    case Process(acc, env) =>
      if env.plan.Some? {
        Scaling.EvaluationFrame(AfterRatchet(acc, s, env), env.plan.value);
      }
    case _ =>
  }

  lemma NextStaysInactive(s: AccountState, ops: seq<Op>, j: nat)
    requires j < |ops| && Run(s, ops[..j]).status != Active && ops[j] != Request(Some(Active))
    ensures Run(s, ops[..j + 1]).status != Active
  {
    assert ops[..j + 1][..j] == ops[..j];
    OnlyRequestsReactivate(Run(s, ops[..j]), ops[j]);
  }

  lemma {:induction false} InactiveStays(s: AccountState, ops: seq<Op>, i: nat, j: nat)
    requires i <= j <= |ops| && Run(s, ops[..i]).status != Active
    requires forall k :: 0 <= k < |ops| ==> ops[k] != Request(Some(Active))
    ensures Run(s, ops[..j]).status != Active
    decreases j
  {
    if i < j {
      InactiveStays(s, ops, i, j - 1);
      NextStaysInactive(s, ops, j - 1);
    }
  }

  /** The engine took an active account out: failed, expired or passed. */
  predicate Leaves(s: AccountState, op: Op) {
    !op.Request? && s.status == Active && Step(s, op).status != Active
  }

  /** However fail, expire and pass calls interleave, without a reactivation at most one of them
      commits. */
  lemma ExitsAtMostOnce(s: AccountState, ops: seq<Op>, i: nat, j: nat)
    requires i < j < |ops|
    requires forall k :: 0 <= k < |ops| ==> ops[k] != Request(Some(Active))
    ensures !(Leaves(Run(s, ops[..i]), ops[i]) && Leaves(Run(s, ops[..j]), ops[j]))
  {
    if Leaves(Run(s, ops[..i]), ops[i]) {
      assert ops[..i + 1][..i] == ops[..i];
      InactiveStays(s, ops, i + 1, j);
    }
  }

  /** The trade valuation an exit used. */
  function ValuerOf(op: Op): Valuer
    requires op.Fail? || op.Expire? || op.Process?
  {
    match op
    case Process(_, env) => env.value
    case Fail(_, _, value) => value
    case Expire(value) => value
  }

  /** One exit's effect on trades, balance and ledger. */
  predicate ExitEffect(s: AccountState, t: AccountState, value: Valuer) {
    && (forall i :: 0 <= i < |t.trades| ==> t.trades[i].status != Resting)
    && t.balance - s.balance == Realised(t.trades) - Realised(s.trades)
    && t.ledger == s.ledger
    && (HasOpen(t.trades) <==> t.status == Expired && Unsettleable(s.trades, value))
  }

  lemma FailSettles(s: AccountState, model: Option<FundedModel>, skip: bool, value: Valuer)
    requires FailCommits(s, model, skip, value)
    ensures ExitEffect(s, AfterFail(s, model, skip, value), value)
  {
    hide Resolve;
    LiquidationSettles(s, value);
    LiquidationSettles(Ratcheted(s, FailResolution(s, model)), value);
  }

  /** An exit voids every order and moves the balance by exactly the P&L it stamped; only an expiry
      can leave trades open, and it does so exactly when one of them could not be valued. */
  lemma ExitSettles(s: AccountState, op: Op)
    requires IsExit(s, op)
    ensures ExitEffect(s, Step(s, op), ValuerOf(op))
  {
    match op
    case Fail(model, skip, value) => FailSettles(s, model, skip, value);
    case Expire(value) => LiquidationSettles(s, value);
    case Process(acc, env) => ProcessExitSettles(acc, s, env);
  }

  lemma ProcessExitSettles(acc: AccountState, s: AccountState, env: Env)
    requires IsExit(s, Process(acc, env))
    ensures ExitEffect(s, AfterProcess(acc, s, env), env.value)
  {
    RatchetFrame(acc, s, env);
    BranchExitSettles(BranchOf(acc, env, HasOpen(s.trades)), AfterRatchet(acc, s, env), env);
  }

  lemma BranchExitSettles(branch: Branch, s: AccountState, env: Env)
    requires s.status == Active && AfterBranch(branch, s, env).status in {Failed, Expired}
    ensures ExitEffect(s, AfterBranch(branch, s, env), env.value)
  {
    match branch
    case DoExpire => LiquidationSettles(s, env.value);
    case DoScale =>
      if env.plan.Some? {
        Scaling.EvaluationFrame(s, env.plan.value);
      }
    case DoPass =>
    case DoNothing =>
    case _ => FailSettles(s, env.model, branch == DoFailInactive, env.value);
  }

  // ---------- The outcome counters over all accounts ----------

  datatype Book = Book(accounts: seq<AccountState>, failed: nat, expired: nat)

  /** One operation on one account; an exit bumps its counter in the same transaction. */
  function BookStep(b: Book, i: nat, op: Op): Book
    requires i < |b.accounts|
  {
    var s := b.accounts[i];
    var t := Step(s, op);
    Book(b.accounts[i := t],
         b.failed + (if IsExit(s, op) && t.status == Failed then 1 else 0),
         b.expired + (if IsExit(s, op) && t.status == Expired then 1 else 0))
  }

  function BookRun(b: Book, ops: seq<(nat, Op)>): (r: Book)
    requires forall k :: 0 <= k < |ops| ==> ops[k].0 < |b.accounts|
    ensures |r.accounts| == |b.accounts|
  {
    if ops == [] then b
    else BookStep(BookRun(b, ops[..|ops| - 1]), ops[|ops| - 1].0, ops[|ops| - 1].1)
  }

  function InStatus(accounts: seq<AccountState>, status: Status): nat {
    if accounts == [] then 0
    else InStatus(accounts[..|accounts| - 1], status)
         + if accounts[|accounts| - 1].status == status then 1 else 0
  }

  lemma {:induction false} InStatusUpdate(accounts: seq<AccountState>, i: nat, t: AccountState, status: Status)
    requires i < |accounts|
    ensures InStatus(accounts[i := t], status) == InStatus(accounts, status)
      - (if accounts[i].status == status then 1 else 0) + if t.status == status then 1 else 0
  {
    var n := |accounts| - 1;
    if i == n {
      assert accounts[i := t][..n] == accounts[..n];
    } else {
      InStatusUpdate(accounts[..n], i, t, status);
      assert accounts[i := t][..n] == accounts[..n][i := t];
    }
  }

  lemma EngineStatusChange(s: AccountState, op: Op)
    requires !op.Request? && Step(s, op).status != s.status
    ensures s.status == Active
    ensures Step(s, op).status in {Failed, Expired} ==> IsExit(s, op)
  {
    match op
    case Scale(plan) => Scaling.EvaluationFrame(s, plan);
    case Process(acc, env) =>
      if env.plan.Some? {
        Scaling.EvaluationFrame(AfterRatchet(acc, s, env), env.plan.value);
      }
    case _ =>
  }

  /** How far status requests alone moved the number of accounts in a status. */
  function RequestedInto(b: Book, ops: seq<(nat, Op)>, status: Status): int
    requires forall k :: 0 <= k < |ops| ==> ops[k].0 < |b.accounts|
  {
    if ops == [] then 0
    else
      var pre, i, op := ops[..|ops| - 1], ops[|ops| - 1].0, ops[|ops| - 1].1;
      var s := BookRun(b, pre).accounts[i];
      RequestedInto(b, pre, status)
      + (if !op.Request? then 0
         else (if Step(s, op).status == status then 1 else 0) - if s.status == status then 1 else 0)
  }

  /** Over any number of accounts and any interleaving, requests included: each counter has grown by
      exactly the accounts in its status that did not get there, or leave, by a status request. */
  lemma {:induction false} CountersMatchOutcomes(b: Book, ops: seq<(nat, Op)>)
    requires forall k :: 0 <= k < |ops| ==> ops[k].0 < |b.accounts|
    ensures var r := BookRun(b, ops);
      && r.failed - b.failed == InStatus(r.accounts, Failed) - InStatus(b.accounts, Failed) - RequestedInto(b, ops, Failed)
      && r.expired - b.expired == InStatus(r.accounts, Expired) - InStatus(b.accounts, Expired) - RequestedInto(b, ops, Expired)
  {
    if ops != [] {
      var n := |ops| - 1;
      CountersMatchOutcomes(b, ops[..n]);
      var mid := BookRun(b, ops[..n]);
      var i, op := ops[n].0, ops[n].1;
      var s, t := mid.accounts[i], Step(mid.accounts[i], op);
      InStatusUpdate(mid.accounts, i, t, Failed);
      InStatusUpdate(mid.accounts, i, t, Expired);
      hide Step;
      if t.status != s.status && !op.Request? {
        EngineStatusChange(s, op);
      }
    }
  }

  // ---------- The locked floor over a run ----------

  /** A stored floor is still stored and no lower. */
  predicate LockKept(s: AccountState, t: AccountState) {
    t.kind == s.kind && (s.eodFloor.Some? ==> t.eodFloor.Some? && t.eodFloor.value >= s.eodFloor.value)
  }

  lemma RatchetKeepsLock(s: AccountState, r: Resolution)
    ensures LockKept(s, Ratcheted(s, r))
  {
  }

  lemma BranchKeepsLock(branch: Branch, s: AccountState, env: Env)
    ensures LockKept(s, AfterBranch(branch, s, env))
  {
    hide Resolve, Scaling.Evaluated;
    if env.plan.Some? {
      Scaling.EvaluationFrame(s, env.plan.value);
    }
  }

  lemma StepKeepsLock(s: AccountState, op: Op)
    requires !op.Reset?
    ensures LockKept(s, Step(s, op))
  {
    hide Resolve, Scaling.Evaluated;
    match op {
      case Process(acc, env) =>
        RatchetKeepsLock(s, ProcessResolution(acc, env));
        BranchKeepsLock(BranchOf(acc, env, HasOpen(s.trades)), AfterRatchet(acc, s, env), env);
      case Scale(plan) => Scaling.EvaluationFrame(s, plan);
      case _ =>
    }
  }

  /** Over every run without a reset, a stored floor stays stored and never falls: trades, payouts,
      credits, engine passes on any copy, evaluations and status changes do not clear it. */
  lemma {:induction false} OnlyResetClearsLock(s: AccountState, ops: seq<Op>)
    requires forall i :: 0 <= i < |ops| ==> !ops[i].Reset?
    ensures LockKept(s, Run(s, ops))
  {
    hide Step;
    if ops != [] {
      OnlyResetClearsLock(s, ops[..|ops| - 1]);
      StepKeepsLock(Run(s, ops[..|ops| - 1]), ops[|ops| - 1]);
    }
  }

  /** Hence, once a funded account's peak reached the lock threshold at a look, no later look anywhere
      in any run without a reset finds a floor below the locked level. */
  lemma LockBindsForever(s: AccountState, equity: int, ops: seq<Op>, later: int, pct: real, locksAtPct: real)
    requires s.kind == Funded && Max(Anchor(s), equity) as real >= LockThreshold(s.start, locksAtPct)
    requires forall i :: 0 <= i < |ops| ==> !ops[i].Reset?
    ensures var locked := Ratcheted(s, Resolve(s, equity, pct, Some(locksAtPct)));
      Resolve(Run(locked, ops), later, pct, Some(locksAtPct)).floor >= LockLevel(s.start, locksAtPct, pct)
  {
    hide Trailing, LockThreshold, LockLevel;
    var locked := Ratcheted(s, Resolve(s, equity, pct, Some(locksAtPct)));
    assert locked.eodFloor.Some? && locked.eodFloor.value >= LockLevel(s.start, locksAtPct, pct);
    OnlyResetClearsLock(locked, ops);
    StoredLockBinds(Run(locked, ops), later, pct, Some(locksAtPct));
  }

  // ---------- The anchor over a run ----------

  /** A copy the sweep could have read: same account, and an anchor column that was set stays set. */
  predicate PlausibleCopy(s: AccountState, op: Op) {
    op.Process? ==> op.acc.start == s.start && (op.acc.eodPeak.Some? ==> s.eodPeak.Some?)
  }

  function FailEvents(s: AccountState, model: Option<FundedModel>, skip: bool, value: Valuer): seq<Anchors.Event> {
    if FailCommits(s, model, skip, value) && !skip then [Anchors.Ratchet(s.balance)] else []
  }

  /** The ratchet a pass writes from its copy. */
  function RatchetEvents(acc: AccountState, env: Env): seq<Anchors.Event> {
    var timedOut := acc.kind != Funded && (env.phaseEnded || env.inactive);
    if acc.start > 0 && !timedOut && acc.balance > Anchor(acc) then [Anchors.Ratchet(acc.balance)] else []
  }

  function ProcessEvents(acc: AccountState, s: AccountState, env: Env): seq<Anchors.Event> {
    var branch := BranchOf(acc, env, HasOpen(s.trades));
    RatchetEvents(acc, env) + BranchEvents(branch, AfterRatchet(acc, s, env), env)
  }

  function BranchEvents(branch: Branch, s: AccountState, env: Env): seq<Anchors.Event> {
    if branch == DoFailFloor || branch == DoFailDaily then FailEvents(s, env.model, false, env.value) else []
  }

  /** What one operation does to the anchor. Scaling injections and trade results do nothing. */
  function EventsOf(s: AccountState, op: Op): seq<Anchors.Event> {
    match op
    case Adjust(amount, _, shift) => if shift && amount != 0 then [Anchors.Move(amount)] else []
    case Reset => [Anchors.Rebase(s.start)]
    case Tick(q, _, _) => [Anchors.Ratchet(q)]
    case Fail(model, skip, value) => FailEvents(s, model, skip, value)
    case Process(acc, env) => ProcessEvents(acc, s, env)
    case _ => []
  }

  function Trace(s: AccountState, ops: seq<Op>): seq<Anchors.Event> {
    if ops == [] then []
    else
      var pre := ops[..|ops| - 1];
      Trace(s, pre) + EventsOf(Run(s, pre), ops[|ops| - 1])
  }

  lemma {:induction false} FoldAppend(a: int, es: seq<Anchors.Event>, fs: seq<Anchors.Event>)
    ensures Anchors.Fold(a, es + fs) == Anchors.Fold(Anchors.Fold(a, es), fs)
  {
    if fs == [] {
      assert es + fs == es;
    } else {
      var n := |fs| - 1;
      FoldAppend(a, es, fs[..n]);
      assert (es + fs)[..|es + fs| - 1] == es + fs[..n];
    }
  }

  lemma FoldOne(a: int, e: Anchors.Event)
    ensures Anchors.Fold(a, [e]) == Anchors.Apply(a, e)
  {
    assert [e][..0] == [];
  }

  lemma FailFolds(s: AccountState, model: Option<FundedModel>, skip: bool, value: Valuer)
    ensures Anchor(AfterFail(s, model, skip, value)) == Anchors.Fold(Anchor(s), FailEvents(s, model, skip, value))
    ensures s.eodPeak.Some? ==> AfterFail(s, model, skip, value).eodPeak.Some?
  {
    FoldOne(Anchor(s), Anchors.Ratchet(s.balance));
  }

  lemma RatchetFolds(acc: AccountState, s: AccountState, env: Env)
    requires acc.start == s.start && (acc.eodPeak.Some? ==> s.eodPeak.Some?)
    ensures Anchor(AfterRatchet(acc, s, env)) == Anchors.Fold(Anchor(s), RatchetEvents(acc, env))
  {
    FoldOne(Anchor(s), Anchors.Ratchet(acc.balance));
  }

  lemma BranchFolds(branch: Branch, s: AccountState, env: Env)
    ensures Anchor(AfterBranch(branch, s, env)) == Anchors.Fold(Anchor(s), BranchEvents(branch, s, env))
  {
    match branch
    case DoScale =>
      if env.plan.Some? {
        Scaling.EvaluationFrame(s, env.plan.value);
      }
    case DoFailInactive => FailFolds(s, env.model, true, env.value);
    case DoFailFloor => FailFolds(s, env.model, false, env.value);
    case DoFailDaily => FailFolds(s, env.model, false, env.value);
    case _ =>
  }

  lemma ProcessFolds(acc: AccountState, s: AccountState, env: Env)
    requires acc.start == s.start && (acc.eodPeak.Some? ==> s.eodPeak.Some?)
    ensures Anchor(AfterProcess(acc, s, env)) == Anchors.Fold(Anchor(s), ProcessEvents(acc, s, env))
  {
    var s1 := AfterRatchet(acc, s, env);
    var branch := BranchOf(acc, env, HasOpen(s.trades));
    RatchetFolds(acc, s, env);
    BranchFolds(branch, s1, env);
    FoldAppend(Anchor(s), RatchetEvents(acc, env), BranchEvents(branch, s1, env));
  }

  lemma StepFolds(s: AccountState, op: Op)
    requires PlausibleCopy(s, op)
    ensures Anchor(Step(s, op)) == Anchors.Fold(Anchor(s), EventsOf(s, op))
  {
    match op
    case Adjust(amount, source, _) => FoldOne(Anchor(s), Anchors.Move(amount));
    case Reset => FoldOne(Anchor(s), Anchors.Rebase(s.start));
    case Tick(q, _, _) => FoldOne(Anchor(s), Anchors.Ratchet(q));
    case Fail(model, skip, value) => FailFolds(s, model, skip, value);
    case Process(acc, env) => ProcessFolds(acc, s, env);
    case Scale(plan) => Scaling.EvaluationFrame(s, plan);
    case _ =>
  }

  lemma {:induction false} AnchorFollowsTrace(s: AccountState, ops: seq<Op>)
    requires forall i :: 0 <= i < |ops| ==> PlausibleCopy(Run(s, ops[..i]), ops[i])
    ensures Anchor(Run(s, ops)) == Anchors.Fold(Anchor(s), Trace(s, ops))
  {
    if ops != [] {
      var n := |ops| - 1;
      assert forall i :: 0 <= i < n ==> ops[..n][..i] == ops[..i];
      AnchorFollowsTrace(s, ops[..n]);
      StepFolds(Run(s, ops[..n]), ops[n]);
      FoldAppend(Anchor(s), Trace(s, ops[..n]), EventsOf(Run(s, ops[..n]), ops[n]));
    }
  }

  /** Over every run in which the zero clamp is not hit, the anchor is the maximum over past ratchet
      points (and the start) of that equity plus all capital moved by adjustBalance since. */
  lemma RunAnchorIsHighWater(s: AccountState, ops: seq<Op>)
    requires forall i :: 0 <= i < |ops| ==> PlausibleCopy(Run(s, ops[..i]), ops[i])
    requires Anchors.NeverClamped(0, [Anchors.Rebase(Anchor(s))] + Trace(s, ops))
    ensures Anchors.IsHighWater([Anchors.Rebase(Anchor(s))] + Trace(s, ops), Anchor(Run(s, ops)))
  {
    var first := [Anchors.Rebase(Anchor(s))];
    AnchorFollowsTrace(s, ops);
    FoldOne(0, first[0]);
    FoldAppend(0, first, Trace(s, ops));
    Anchors.AnchorIsHighWater(0, first + Trace(s, ops));
  }

  /** With the clamp counted too, the anchor after every run is the maximum over past ratchet points
      (and the start) and over a zero at every adjustBalance movement, each carried along. */
  lemma RunAnchorIsClampedHighWater(s: AccountState, ops: seq<Op>)
    requires forall i :: 0 <= i < |ops| ==> PlausibleCopy(Run(s, ops[..i]), ops[i])
    ensures Anchors.IsClampedHighWater([Anchors.Rebase(Anchor(s))] + Trace(s, ops), Anchor(Run(s, ops)))
  {
    var first := [Anchors.Rebase(Anchor(s))];
    AnchorFollowsTrace(s, ops);
    FoldOne(0, first[0]);
    FoldAppend(0, first, Trace(s, ops));
    Anchors.AnchorIsClampedHighWater(0, first + Trace(s, ops));
  }

  // ---------- Trades ----------

  /** Trades are only added, and each only moves on: an open one to settled, and a settled or voided one
      nowhere. */
  predicate Advanced(a: seq<Trade>, b: seq<Trade>) {
    |a| <= |b| && forall i :: 0 <= i < |a| ==>
      && b[i].id == a[i].id
      && (a[i].status == Open ==> b[i].status in {Open, Settled})
      && (a[i].status in {Settled, Voided} ==> b[i] == a[i])
  }

  lemma LiquidationAdvances(s: AccountState, value: Valuer)
    ensures Advanced(s.trades, Liquidated(s, value).trades)
  {
    hide LiquidationPnl;
  }

  lemma StepAdvances(s: AccountState, op: Op)
    ensures Advanced(s.trades, Step(s, op).trades)
  {
    hide Liquidated, Ratcheted, Resolve, Scaling.Evaluated;
    match op {
      case Scale(plan) => Scaling.EvaluationFrame(s, plan);
      case Tick(q, pct, locksAt) => RatchetedFrame(s, Resolve(s, q, pct, locksAt));
      case Fail(model, skip, value) => FailAdvances(s, model, skip, value);
      case Process(acc, env) => ProcessAdvances(s, acc, env);
      case Expire(value) => LiquidationAdvances(s, value);
      case _ =>
    }
  }

  lemma FailAdvances(s: AccountState, model: Option<FundedModel>, skip: bool, value: Valuer)
    ensures Advanced(s.trades, AfterFail(s, model, skip, value).trades)
  {
    hide Liquidated, Resolve, Advanced, Ratcheted;
    var r := Ratcheted(s, FailResolution(s, model));
    RatchetedFrame(s, FailResolution(s, model));
    LiquidationAdvances(s, value);
    LiquidationAdvances(r, value);
    AdvancedByNothing(s.trades);
  }

  lemma ProcessAdvances(s: AccountState, acc: AccountState, env: Env)
    ensures Advanced(s.trades, AfterProcess(acc, s, env).trades)
  {
    hide Liquidated, AfterFail, Advanced, BranchOf, AfterRatchet, Scaling.Evaluated;
    RatchetFrame(acc, s, env);
    var r := AfterRatchet(acc, s, env);
    FailAdvances(r, env.model, true, env.value);
    FailAdvances(r, env.model, false, env.value);
    LiquidationAdvances(r, env.value);
    AdvancedByNothing(s.trades);
    if env.plan.Some? {
      Scaling.EvaluationFrame(r, env.plan.value);
    }
  }

  lemma AdvancedByNothing(trades: seq<Trade>)
    ensures Advanced(trades, trades)
  {
  }

  /** Over every run no trade is lost, reopened, or settled a second time at another result. */
  lemma {:induction false} TradesAdvance(s: AccountState, ops: seq<Op>)
    ensures Advanced(s.trades, Run(s, ops).trades)
  {
    hide Step;
    if ops != [] {
      TradesAdvance(s, ops[..|ops| - 1]);
      StepAdvances(Run(s, ops[..|ops| - 1]), ops[|ops| - 1]);
    }
  }

  /** An order placed, filled and closed ends settled at its result, which the balance has taken up. */
  lemma OrderIsTraded(s: AccountState, id: nat, pnl: int)
    ensures var i := |s.trades|;
      var t := Step(Step(Step(s, PlaceOrder(id)), FillOrder(i)), CloseTrade(i, pnl));
      t.trades == s.trades + [Trade(id, Settled, pnl)] && t.balance == s.balance + pnl && t.ledger == s.ledger
  {
  }

  // ---------- Requests and exits as events ----------

  function Requests(nexts: seq<Option<Status>>): seq<Op> {
    if nexts == [] then [] else Requests(nexts[..|nexts| - 1]) + [Request(nexts[|nexts| - 1])]
  }

  /** A series of status requests takes an account through the lifecycle, and nothing else of it changes. */
  lemma {:induction false} RequestsFollowLifecycle(s: AccountState, nexts: seq<Option<Status>>)
    ensures Run(s, Requests(nexts)) == s.(status := AfterRequests(s.status, nexts))
  {
    if nexts != [] {
      var n := |nexts| - 1;
      RequestsFollowLifecycle(s, nexts[..n]);
      var ops := Requests(nexts);
      assert ops[..|ops| - 1] == Requests(nexts[..n]);
    }
  }

  /** An active account that expires, or fails without a look at its floor, is out of the running: expired
      in any case, failed exactly when all its open trades can be valued. One that is not active stays. */
  lemma ExitEvents(s: AccountState, model: Option<FundedModel>, value: Valuer)
    ensures Step(s, Expire(value)).status == (if s.status == Active then Expired else s.status)
    ensures s.status == Active ==> (Step(s, Fail(model, true, value)).status == Failed
      <==> forall i :: 0 <= i < |s.trades| && s.trades[i].status == Open ==> !value(s.trades[i]).Unvaluable?)
    ensures s.status != Active ==> Step(s, Expire(value)) == s && Step(s, Fail(model, true, value)) == s
  {
  }
}
