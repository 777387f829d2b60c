/** The challenge engine's per-account pass: fail, expire, pass, and the decision between them.
    Every command re-reads the locked row; a thrown error or a failed guard rolls it back. */
module Enforcement {
  import opened Options
  import opened Arithmetic
  import opened Capital
  import opened Accounts
  import opened Drawdown
  import Scaling

  /** The funded-stage columns of the account's challenge model, when it has one. */
  datatype FundedModel = FundedModel(
    maxDrawdownPct: real, dailyDrawdownPct: real, locksAtPct: Option<real>)

  /** bbook_pnl, today's row. */
  class Bbook {
    var expired: nat
    var failed: nat
    constructor ()
      ensures expired == failed == 0
    {
      expired, failed := 0, 0;
    }
  }

  // ---------- failAccount ----------

  function FailPct(s: AccountState, model: Option<FundedModel>): real {
    if s.kind == Funded && model.Some? then model.value.maxDrawdownPct else s.maxDrawdownPct
  }

  function LocksAt(s: AccountState, model: Option<FundedModel>): Option<real> {
    if s.kind == Funded && model.Some? then model.value.locksAtPct else None
  }

  /** The floor failAccount computes for the row it locked. */
  function FailResolution(s: AccountState, model: Option<FundedModel>): Resolution {
    Resolve(s, s.balance, FailPct(s, model), LocksAt(s, model))
  }

  predicate FailCommits(s: AccountState, model: Option<FundedModel>, skipDrawdownCheck: bool, value: Valuer) {
    && s.status == Active
    && (!skipDrawdownCheck ==>
         FailPct(s, model) > 0.0 && (s.balance as real) < FailResolution(s, model).floor)
    && !Unsettleable(s.trades, value)
  }

  function AfterFail(s: AccountState, model: Option<FundedModel>, skipDrawdownCheck: bool, value: Valuer): AccountState {
    if !FailCommits(s, model, skipDrawdownCheck, value) then s
    else
      var r := if skipDrawdownCheck then s else Ratcheted(s, FailResolution(s, model));
      Liquidated(r, value).(status := Failed)
  }

  method FailAccount(row: AccountRecord, bbook: Bbook, model: Option<FundedModel>,
                     skipDrawdownCheck: bool, value: Valuer)
    modifies row, bbook`failed
    ensures row.State() == AfterFail(old(row.State()), model, skipDrawdownCheck, value)
    ensures row.status == Failed && old(row.status) == Active
      <==> FailCommits(old(row.State()), model, skipDrawdownCheck, value)
    ensures bbook.failed == old(bbook.failed)
      + if old(row.status) == Active && row.status == Failed then 1 else 0
  {
    if row.status != Active {
      return;
    }
    var begin := row.Snapshot();
    if !skipDrawdownCheck {
      var pct := FailPct(begin, model);
      if pct <= 0.0 {
        return;
      }
      var floor := GetEffectiveDrawdownFloor(row, begin, row.balance, pct, LocksAt(begin, model));
      if row.balance as real >= floor {
        row.Rollback(begin);
        return;
      }
    }
    var committed := SettleAsFailed(row, begin, value);
    if committed {
      bbook.failed := bbook.failed + 1;
    }
  }

  /** The writing half of failAccount: settle, void, mark failed; a throw returns to `begin`. */
  method SettleAsFailed(row: AccountRecord, begin: AccountState, value: Valuer) returns (committed: bool)
    requires begin == row.State().(eodPeak := begin.eodPeak, eodFloor := begin.eodFloor)
    modifies row
    ensures committed <==> !Unsettleable(old(row.trades), value)
    ensures row.State() ==
      if committed then Liquidated(old(row.State()), value).(status := Failed) else begin
  {
    var closed := CloseOrThrow(row, value);
    if closed.None? {
      row.Rollback(begin);
      return false;
    }
    BookTotal(row, closed.value);
    row.trades := VoidResting(row.trades);
    row.status := Failed;
    committed := true;
  }

  /** UPDATE accounts SET current_balance = current_balance + total, skipped for a zero total. */
  method BookTotal(row: AccountRecord, total: int)
    modifies row`balance, row`peak
    ensures row.State() == TotalBooked(old(row.State()), total)
  {
    if total != 0 {
      row.balance := row.balance + total;
      row.peak := Max(row.peak, row.balance);
    }
  }

  /** failAccount's loop: an error on any trade aborts the transaction. */
  method CloseOrThrow(row: AccountRecord, value: Valuer) returns (total: Option<int>)
    modifies row`trades
    ensures total.None? <==> Unsettleable(old(row.trades), value)
    ensures total.Some? ==>
      && total.value == LiquidationPnl(old(row.trades), value)
      && row.trades == CloseOpen(old(row.trades), value)
  {
    ghost var was := row.trades;
    var sum := 0;
    for i := 0 to |row.trades|
      invariant |row.trades| == |was|
      invariant forall j :: 0 <= j < i ==> row.trades[j] == CloseOne(was[j], value)
      invariant forall j :: i <= j < |was| ==> row.trades[j] == was[j]
      invariant sum == LiquidationPnl(was[..i], value)
      invariant forall j :: 0 <= j < i ==> !(was[j].status == Open && value(was[j]).Unvaluable?)
    {
      assert was[..i + 1][..i] == was[..i];
      var t := row.trades[i];
      if t.status == Open {
        match value(t) {
          case Unpriced => row.trades := row.trades[i := t.(status := Settled, pnl := 0)];
          case Worth(p) =>
            sum := sum + p;
            row.trades := row.trades[i := t.(status := Settled, pnl := p)];
          case Unvaluable =>
            assert was[i].status == Open && value(was[i]).Unvaluable?;
            return None;
        }
      }
    }
    assert was[..|was|] == was;
    total := Some(sum);
  }

  // ---------- expireAccount ----------

  function AfterExpire(s: AccountState, value: Valuer): AccountState {
    if s.status != Active then s else Liquidated(s, value).(status := Expired)
  }

  method ExpireAccount(row: AccountRecord, bbook: Bbook, value: Valuer)
    modifies row, bbook`expired
    ensures row.State() == AfterExpire(old(row.State()), value)
    ensures bbook.expired == old(bbook.expired)
      + if old(row.status) == Active && row.status == Expired then 1 else 0
  {
    if row.status != Active {
      return;
    }
    row.status := Expired;
    var total := CloseOrSkip(row, value);
    BookTotal(row, total);
    row.trades := VoidResting(row.trades);
    bbook.expired := bbook.expired + 1;
  }

  /** expireAccount's loop: an error on a trade is logged and the trade is skipped. */
  method CloseOrSkip(row: AccountRecord, value: Valuer) returns (total: int)
    modifies row`trades
    ensures total == LiquidationPnl(old(row.trades), value)
    ensures row.trades == CloseOpen(old(row.trades), value)
  {
    ghost var was := row.trades;
    total := 0;
    for i := 0 to |row.trades|
      invariant |row.trades| == |was|
      invariant forall j :: 0 <= j < i ==> row.trades[j] == CloseOne(was[j], value)
      invariant forall j :: i <= j < |was| ==> row.trades[j] == was[j]
      invariant total == LiquidationPnl(was[..i], value)
    {
      assert was[..i + 1][..i] == was[..i];
      var t := row.trades[i];
      if t.status == Open {
        match value(t) {
          case Unpriced => row.trades := row.trades[i := t.(status := Settled, pnl := 0)];
          case Worth(p) =>
            total := total + p;
            row.trades := row.trades[i := t.(status := Settled, pnl := p)];
          case Unvaluable =>
        }
      }
    }
    assert was[..|was|] == was;
  }

  // ---------- passAccount ----------

  function Target(s: AccountState): real {
    if s.profitTarget <= 0 then s.start as real * 0.10 else s.profitTarget as real
  }

  predicate TargetReached(s: AccountState) {
    (s.balance - s.start) as real >= Target(s)
  }

  predicate HasOpen(trades: seq<Trade>) {
    exists i :: 0 <= i < |trades| && IsOpen(trades[i])
  }

  predicate PassCommits(s: AccountState, reviewRaised: bool) {
    s.status == Active && TargetReached(s) && !HasOpen(s.trades) && reviewRaised
  }

  function AfterPass(s: AccountState, reviewRaised: bool): AccountState {
    if PassCommits(s, reviewRaised) then s.(status := Passed) else s
  }

  method PassAccount(row: AccountRecord, reviewRaised: bool)
    modifies row`status
    ensures row.State() == AfterPass(old(row.State()), reviewRaised)
  {
    if row.status != Active {
      return;
    }
    var target := if row.profitTarget <= 0 then row.start as real * 0.10 else row.profitTarget as real;
    if ((row.balance - row.start) as real) < target {
      return;
    }
    var open := CountOpen(row.trades);
    if open > 0 {
      return;
    }
    row.status := Passed;
    if !reviewRaised {
      row.status := Active;   // the thrown error rolls the update back
    }
  }

  /** SELECT COUNT(*) ... WHERE status = 'open'. */
  method CountOpen(trades: seq<Trade>) returns (n: nat)
    ensures n > 0 <==> HasOpen(trades)
  {
    n := 0;
    for i := 0 to |trades|
      invariant n > 0 <==> exists j :: 0 <= j < i && IsOpen(trades[j])
    {
      if IsOpen(trades[i]) {
        n := n + 1;
      }
    }
  }

  // ---------- processAccount ----------

  /** What a pass reads besides the account: clocks, settings, the model, query results, prices. */
  datatype Env = Env(
    phaseEnded: bool, inactive: bool,
    fundedPct: real, model: Option<FundedModel>,
    todayRealised: int, daysHeld: bool, consistencyHeld: bool,
    plan: Option<Scaling.Plan>, reviewRaised: bool, value: Valuer)

  /** processAccount's own drawdown percentage. */
  function ProcessPct(acc: AccountState, env: Env): real {
    if acc.kind != Funded then acc.maxDrawdownPct
    else if env.model.Some? then env.model.value.maxDrawdownPct
    else env.fundedPct
  }

  function ProcessResolution(acc: AccountState, env: Env): Resolution {
    Resolve(acc, acc.balance, ProcessPct(acc, env), LocksAt(acc, env.model))
  }

  function DailyLimit(acc: AccountState, env: Env): Option<real> {
    if acc.kind == Funded && env.model.Some? then Some(env.model.value.dailyDrawdownPct)
    else acc.dailyDrawdownPct
  }

  /** The balance is at or below the floor this pass computes. */
  predicate FloorBreach(acc: AccountState, env: Env) {
    acc.start > 0 && acc.balance as real <= ProcessResolution(acc, env).floor
  }

  /** Today's realised loss is at or above the daily limit. */
  predicate DailyBreach(acc: AccountState, env: Env) {
    && DailyLimit(acc, env).Some? && DailyLimit(acc, env).value > 0.0 && acc.start > 0
    && env.todayRealised < 0
    && (-env.todayRealised) as real / acc.start as real * 100.0 >= DailyLimit(acc, env).value
  }

  /** The branch a pass takes, decided on the copy of the row the sweep read. */
  datatype Branch = DoExpire | DoFailInactive | DoFailFloor | DoFailDaily | DoScale | DoPass | DoNothing

  function BranchOf(acc: AccountState, env: Env, openNow: bool): Branch {
    if acc.kind != Funded && env.phaseEnded then DoExpire
    else if acc.kind != Funded && env.inactive then DoFailInactive
    else if FloorBreach(acc, env) then DoFailFloor
    else if DailyBreach(acc, env) then DoFailDaily
    else GrowthBranch(acc, env, openNow)
  }

  function GrowthBranch(acc: AccountState, env: Env, openNow: bool): Branch {
    if acc.kind == Funded then DoScale
    else if TargetReached(acc) && !openNow && !env.daysHeld && !env.consistencyHeld then DoPass
    else DoNothing
  }

  /** The row after the pass ratcheted it; the ratchet is reached when neither time rule applied. */
  function AfterRatchet(acc: AccountState, s: AccountState, env: Env): AccountState {
    if acc.kind != Funded && (env.phaseEnded || env.inactive) then s
    else if acc.start > 0 then Ratcheted(s, ProcessResolution(acc, env))
    else s
  }

  /** What a branch does to the (already ratcheted) row. */
  function AfterBranch(branch: Branch, s: AccountState, env: Env): AccountState {
    match branch
    case DoExpire => AfterExpire(s, env.value)
    case DoFailInactive => AfterFail(s, env.model, true, env.value)
    case DoFailFloor => AfterFail(s, env.model, false, env.value)
    case DoFailDaily => AfterFail(s, env.model, false, env.value)
    case DoScale => if env.plan.Some? then Scaling.Evaluated(s, env.plan.value) else s
    case DoPass => AfterPass(s, env.reviewRaised)
    case DoNothing => s
  }

  /** One pass: `acc` is the copy the sweep read, `s` the row as it is when the pass runs. */
  function AfterProcess(acc: AccountState, s: AccountState, env: Env): AccountState {
    AfterBranch(BranchOf(acc, env, HasOpen(s.trades)), AfterRatchet(acc, s, env), env)
  }

  /** The two limits of a pass, in order: the ratcheting floor check, then the daily loss. Both are
      inclusive. The caller fails the account for either. */
  method CheckLimits(acc: AccountState, row: AccountRecord, env: Env) returns (breached: bool)
    modifies row`eodPeak, row`eodFloor
    ensures row.State() ==
      if acc.start > 0 then Ratcheted(old(row.State()), ProcessResolution(acc, env)) else old(row.State())
    ensures breached <==> FloorBreach(acc, env) || DailyBreach(acc, env)
  {
    var pct := if acc.kind == Funded then env.fundedPct else acc.maxDrawdownPct;
    var daily := acc.dailyDrawdownPct;
    var locksAt := None;
    if acc.kind == Funded && env.model.Some? {
      pct := env.model.value.maxDrawdownPct;
      daily := Some(env.model.value.dailyDrawdownPct);
      locksAt := env.model.value.locksAtPct;
    }
    if acc.start > 0 {
      var floor := GetEffectiveDrawdownFloor(row, acc, acc.balance, pct, locksAt);
      if acc.balance as real <= floor {
        return true;
      }
    }
    if daily.Some? && daily.value > 0.0 && acc.start > 0 {
      if env.todayRealised < 0 {
        var todayLossPct := (-env.todayRealised) as real / acc.start as real * 100.0;
        return todayLossPct >= daily.value;
      }
    }
    breached := false;
  }

  method ProcessAccount(acc: AccountState, row: AccountRecord, bbook: Bbook, env: Env)
    modifies row, bbook
    ensures row.State() == AfterProcess(acc, old(row.State()), env)
    ensures bbook.failed == old(bbook.failed)
      + if old(row.status) == Active && row.status == Failed then 1 else 0
    ensures bbook.expired == old(bbook.expired)
      + if old(row.status) == Active && row.status == Expired then 1 else 0
  {
    if acc.kind != Funded && env.phaseEnded {
      ExpireAccount(row, bbook, env.value);
      return;
    }
    if acc.kind != Funded && env.inactive {
      FailAccount(row, bbook, env.model, true, env.value);
      return;
    }
    var breached := CheckLimits(acc, row, env);
    if breached {
      FailAccount(row, bbook, env.model, false, env.value);
      return;
    }
    FinishPass(acc, row, env);
  }

  /** The last part of a pass: the scaling plan of a funded account, or the profit target. */
  method FinishPass(acc: AccountState, row: AccountRecord, env: Env)
    modifies row
    ensures row.State() == AfterBranch(GrowthBranch(acc, env, HasOpen(old(row.trades))), old(row.State()), env)
    ensures row.status == old(row.status) || row.status == Passed
  {
    if acc.kind == Funded {
      if env.plan.Some? {
        Scaling.EvaluationFrame(row.State(), env.plan.value);
        Scaling.EvaluateScalingPlan(row, env.plan.value);
      }
      return;
    }
    if TargetReached(acc) {
      var open := CountOpen(row.trades);
      if open > 0 || env.daysHeld || env.consistencyHeld {
        return;
      }
      PassAccount(row, env.reviewRaised);
    }
  }

  // ---------- What a pass can and cannot do ----------

  /** A failed account had no open trade left behind, an expired one may: exactly when an open trade
      could not be valued, because the expiry loop swallows the error and still commits. */
  lemma ExitLeavesOpenIff(s: AccountState, model: Option<FundedModel>, skip: bool, value: Valuer)
    requires s.status == Active
    ensures FailCommits(s, model, skip, value) ==> !HasOpen(AfterFail(s, model, skip, value).trades)
    ensures HasOpen(AfterExpire(s, value).trades) <==> Unsettleable(s.trades, value)
  {
    LiquidationSettles(s, value);
    LiquidationSettles(Ratcheted(s, FailResolution(s, model)), value);
  }

  /** One open trade without a conversion rate: the expiry commits and leaves it open, the failure of the
      same account is rolled back. */
  lemma UnvaluableTradeExample(value: Valuer)
    requires forall t :: value(t) == Unvaluable
    ensures var s := AccountState(Phase1, Active, 10000000, 8000000, 10000000, None, None, 10.0, None, 0, 0, 1.0,
                                  [Trade(1, Open, 0)], []);
      && AfterExpire(s, value).status == Expired && HasOpen(AfterExpire(s, value).trades)
      && (s.balance as real) < FailResolution(s, None).floor && AfterFail(s, None, false, value) == s
  {
    var s := AccountState(Phase1, Active, 10000000, 8000000, 10000000, None, None, 10.0, None, 0, 0, 1.0,
                          [Trade(1, Open, 0)], []);
    assert s.trades[0].status == Open && value(s.trades[0]).Unvaluable?;
    ExitLeavesOpenIff(s, None, false, value);
  }

  /** The percentages the pass and failAccount use are the same. */
  predicate SamePct(acc: AccountState, env: Env) {
    acc.kind != Funded || env.model.Some? || env.fundedPct == acc.maxDrawdownPct
  }

  lemma FloorsAgree(s: AccountState, env: Env)
    requires SamePct(s, env)
    ensures FailPct(s, env.model) == ProcessPct(s, env)
    ensures FailResolution(Ratcheted(s, ProcessResolution(s, env)), env.model).floor
         == ProcessResolution(s, env).floor
  {
    ResolveIsStable(s, s.balance, ProcessPct(s, env), LocksAt(s, env.model));
  }

  /** On a row nobody else moved, a pass over an active account ends it as failed exactly when the
      balance is STRICTLY below the floor (the pass itself also calls "equal" a breach), the
      drawdown percentage is positive and every open trade can be valued. */
  lemma FailsIffStrictlyBelowFloor(s: AccountState, env: Env)
    requires s.status == Active && s.start > 0 && SamePct(s, env)
    requires s.kind == Funded || (!env.phaseEnded && !env.inactive)
    ensures AfterProcess(s, s, env).status == Failed
      <==> && (s.balance as real) < ProcessResolution(s, env).floor
           && ProcessPct(s, env) > 0.0
           && !Unsettleable(s.trades, env.value)
  {
    FloorsAgree(s, env);
    if env.plan.Some? {
      Scaling.EvaluationFrame(AfterRatchet(s, s, env), env.plan.value);
    }
  }

  /** A balance exactly on the floor is reported as a breach and then nothing happens to it. */
  lemma OnTheFloorSurvives(s: AccountState, env: Env)
    requires s.status == Active && s.start > 0 && SamePct(s, env)
    requires s.kind == Funded || (!env.phaseEnded && !env.inactive)
    requires s.balance as real == ProcessResolution(s, env).floor
    ensures BranchOf(s, env, HasOpen(s.trades)) == DoFailFloor
    ensures AfterProcess(s, s, env) == Ratcheted(s, ProcessResolution(s, env))
  {
    FloorsAgree(s, env);
  }

  /** The daily-loss branch never fails an account: it is reached only above the floor, and the
      failure it asks for re-checks that same floor. */
  lemma DailyLossNeverFails(s: AccountState, env: Env)
    requires s.status == Active && SamePct(s, env)
    requires BranchOf(s, env, HasOpen(s.trades)) == DoFailDaily
    ensures AfterProcess(s, s, env) == Ratcheted(s, ProcessResolution(s, env))
  {
    FloorsAgree(s, env);
  }

  /** For a funded account without a model the two percentages differ, and then the daily branch
      fails it exactly when failAccount's own floor is above the balance. */
  lemma DailyLossWithoutModel(s: AccountState, env: Env)
    requires s.status == Active && s.kind == Funded && env.model.None?
    requires BranchOf(s, env, HasOpen(s.trades)) == DoFailDaily
    ensures AfterProcess(s, s, env).status == Failed
      <==> && s.maxDrawdownPct > 0.0
           && (s.balance as real) < Trailing(Max(Anchor(s), s.balance), s.maxDrawdownPct)
           && !Unsettleable(s.trades, env.value)
  {
    ResolveIsStable(s, s.balance, ProcessPct(s, env), None);
  }

  /** Such an account exists: a 4% platform setting against a 1% account column. */
  lemma DailyLossWithoutModelExample(value: Valuer)
    ensures var s := AccountState(Funded, Active, 10000000, 9850000, 10000000, None, None, 1.0,
                                  Some(1.0), 0, 0, 1.0, [], []);
      var env := Env(false, false, 4.0, None, -150000, false, false, None, true, value);
      BranchOf(s, env, HasOpen(s.trades)) == DoFailDaily && AfterProcess(s, s, env).status == Failed
  {
    var s := AccountState(Funded, Active, 10000000, 9850000, 10000000, None, None, 1.0,
                          Some(1.0), 0, 0, 1.0, [], []);
    var env := Env(false, false, 4.0, None, -150000, false, false, None, true, value);
    DailyLossWithoutModel(s, env);
  }

  lemma BranchStatuses(branch: Branch, s: AccountState, env: Env)
    requires s.status == Active
    ensures var t := AfterBranch(branch, s, env);
      && (t.status == Failed ==>
           branch == DoFailInactive || (s.balance as real) < FailResolution(s, env.model).floor)
      && (t.status == Passed ==> TargetReached(s) && !HasOpen(s.trades))
      && (t.status == Expired ==> branch == DoExpire)
      && t.status in {Active, Failed, Passed, Expired}
      && (t.status == Passed ==> branch == DoPass)
  {
    if env.plan.Some? {
      Scaling.EvaluationFrame(s, env.plan.value);
    }
  }
}
