/** What a pass does when the row moved after the sweep read its copy. The ratchet trusts the copy, so
    a pass can raise the floor of the live row over its balance. */
module StaleCopies {
  import opened Options
  import opened Arithmetic
  import opened Capital
  import opened Drawdown
  import opened Enforcement
  import Scaling
  import Outcomes

  /** What a copy read earlier shares with the row: columns that never change, and an anchor that was
      set stays set. */
  predicate CopyOf(acc: AccountState, s: AccountState) {
    acc.kind == s.kind && acc.start == s.start && (acc.eodPeak.Some? ==> s.eodPeak.Some?)
  }

  /** Neither the phase end nor the inactivity rule applies; these two do not look at the floor. */
  predicate NoTimeRule(acc: AccountState, env: Env) {
    acc.kind == Funded || (!env.phaseEnded && !env.inactive)
  }

  /** The row's own floor, as failAccount would compute it with no pass in between, is above its balance. */
  predicate BelowOwnFloor(s: AccountState, model: Option<FundedModel>) {
    (s.balance as real) < FailResolution(s, model).floor
  }

  // ---------- What the ratchet writes ----------

  /** The copy was at a new high that is above the live anchor. */
  predicate NewPeak(acc: AccountState, s: AccountState) {
    acc.balance > Anchor(acc) && acc.balance > Anchor(s)
  }

  /** Nothing, or less than `level`, is stored. */
  predicate Below(floor: Option<real>, level: real) {
    floor.None? || floor.value < level
  }

  function Level(s: AccountState, model: Option<FundedModel>): real
    requires LocksAt(s, model).Some?
  {
    LockLevel(s.start, LocksAt(s, model).value, FailPct(s, model))
  }

  predicate ReachesLock(s: AccountState, peak: int, model: Option<FundedModel>)
    requires LocksAt(s, model).Some?
  {
    peak as real >= LockThreshold(s.start, LocksAt(s, model).value)
  }

  /** The copy's peak reaches the lock threshold and both stored floors are below the locked level. */
  predicate WritesLock(acc: AccountState, s: AccountState, model: Option<FundedModel>) {
    && LocksAt(s, model).Some?
    && ReachesLock(s, Max(Anchor(acc), acc.balance), model)
    && Below(acc.eodFloor, Level(s, model)) && Below(s.eodFloor, Level(s, model))
  }

  /** The two columns after a pass ratcheted the live row from a copy. */
  lemma StaleCopyRaisesAnchorIff(acc: AccountState, s: AccountState, env: Env)
    requires CopyOf(acc, s)
    ensures var r := Ratcheted(s, ProcessResolution(acc, env));
      && Anchor(r) == (if NewPeak(acc, s) then acc.balance else Anchor(s))
      && r.eodFloor == (if WritesLock(acc, s, env.model) then Some(Level(s, env.model)) else s.eodFloor)
  {
    hide Trailing, LockThreshold, LockLevel;
  }

  // ---------- When that matters ----------

  /** The copy lifts the trailing floor, or the locked floor, over the live balance. */
  predicate StaleHarm(acc: AccountState, s: AccountState, model: Option<FundedModel>) {
    || (NewPeak(acc, s) && (s.balance as real) < Trailing(Max(acc.balance, s.balance), FailPct(s, model)))
    || (LocksAt(s, model).Some? && (s.balance as real) < Level(s, model)
        && (WritesLock(acc, s, model) || (NewPeak(acc, s) && ReachesLock(s, acc.balance, model))))
  }

  lemma RatchetLiftsFloorIff(acc: AccountState, s: AccountState, env: Env)
    requires CopyOf(acc, s) && !BelowOwnFloor(s, env.model)
    ensures BelowOwnFloor(Ratcheted(s, ProcessResolution(acc, env)), env.model) <==> StaleHarm(acc, s, env.model)
  {
    StaleCopyRaisesAnchorIff(acc, s, env);
    RatchetedFrame(s, ProcessResolution(acc, env));
    hide Trailing, LockThreshold, LockLevel, Ratcheted, ProcessResolution;
  }

  /** The inactivity rule decides, which fails an account whatever its floor. */
  predicate InactivityRule(acc: AccountState, env: Env) {
    acc.kind != Funded && !env.phaseEnded && env.inactive
  }

  /** A pass ends an account as failed although its own floor does not justify it if and only if every
      open trade can be valued and either the inactivity rule decides, or: the copy was at or below its
      floor or over its daily limit, the percentage is positive, and the copy lifts a floor over the
      live balance. */
  lemma UnjustifiedFailureIff(acc: AccountState, s: AccountState, env: Env)
    requires s.status == Active && CopyOf(acc, s)
    ensures AfterProcess(acc, s, env).status == Failed && !BelowOwnFloor(s, env.model)
      <==> && !BelowOwnFloor(s, env.model) && !Unsettleable(s.trades, env.value)
           && (|| InactivityRule(acc, env)
               || (NoTimeRule(acc, env) && (FloorBreach(acc, env) || DailyBreach(acc, env))
                   && FailPct(s, env.model) > 0.0 && StaleHarm(acc, s, env.model)))
  {
    if NoTimeRule(acc, env) {
      LimitFailureIff(acc, s, env);
    } else {
      TimeRuleOutcome(acc, s, env);
    }
  }

  lemma TimeRuleOutcome(acc: AccountState, s: AccountState, env: Env)
    requires s.status == Active && !NoTimeRule(acc, env)
    ensures AfterProcess(acc, s, env).status == Failed <==> InactivityRule(acc, env) && !Unsettleable(s.trades, env.value)
  {
    hide Resolve;
  }

  lemma LimitFailureIff(acc: AccountState, s: AccountState, env: Env)
    requires s.status == Active && CopyOf(acc, s) && NoTimeRule(acc, env)
    ensures AfterProcess(acc, s, env).status == Failed && !BelowOwnFloor(s, env.model)
      <==> && (FloorBreach(acc, env) || DailyBreach(acc, env))
           && FailPct(s, env.model) > 0.0 && !Unsettleable(s.trades, env.value)
           && !BelowOwnFloor(s, env.model) && StaleHarm(acc, s, env.model)
  {
    var s1 := AfterRatchet(acc, s, env);
    var branch := BranchOf(acc, env, HasOpen(s.trades));
    BranchFailsIff(branch, s1, env);
    FailingBranches(acc, env, HasOpen(s.trades));
    RatchetKeeps(acc, s, env);
    hide StaleHarm, BelowOwnFloor, FloorBreach, DailyBreach, BranchOf, AfterBranch, Ratcheted, ProcessResolution, FailPct;
    if !BelowOwnFloor(s, env.model) && acc.start > 0 {
      RatchetLiftsFloorIff(acc, s, env);
    }
  }

  lemma FailingBranches(acc: AccountState, env: Env, openNow: bool)
    requires NoTimeRule(acc, env)
    ensures BranchOf(acc, env, openNow) in {DoFailFloor, DoFailDaily} <==> FloorBreach(acc, env) || DailyBreach(acc, env)
    ensures BranchOf(acc, env, openNow) !in {DoExpire, DoFailInactive}
    ensures acc.start <= 0 ==> !FloorBreach(acc, env) && !DailyBreach(acc, env)
  {
  }

  lemma RatchetKeeps(acc: AccountState, s: AccountState, env: Env)
    requires NoTimeRule(acc, env)
    ensures var s1 := AfterRatchet(acc, s, env);
      && s1.status == s.status && s1.trades == s.trades && FailPct(s1, env.model) == FailPct(s, env.model)
      && (acc.start > 0 ==> s1 == Ratcheted(s, ProcessResolution(acc, env)))
  {
  }

  lemma BranchFailsIff(branch: Branch, s: AccountState, env: Env)
    requires s.status == Active && branch !in {DoExpire, DoFailInactive}
    ensures AfterBranch(branch, s, env).status == Failed
      <==> && branch in {DoFailFloor, DoFailDaily} && FailPct(s, env.model) > 0.0
           && BelowOwnFloor(s, env.model) && !Unsettleable(s.trades, env.value)
  {
    if env.plan.Some? {
      Scaling.EvaluationFrame(s, env.plan.value);
    }
    hide Resolve, Scaling.Evaluated;
  }

  /** Nor is the next pass harmless: on a row that a stale pass left active with its balance unmoved,
      a pass over the row itself fails it if and only if the copy had lifted a floor over the balance,
      the percentage is positive and every open trade can be valued. */
  lemma NextPassFailsIff(acc: AccountState, s: AccountState, env: Env, next: Env)
    requires s.status == Active && s.start > 0 && CopyOf(acc, s) && !BelowOwnFloor(s, env.model)
    requires NoTimeRule(acc, env) && NoTimeRule(s, next) && next.model == env.model && SamePct(s, next)
    requires AfterProcess(acc, s, env).status == Active && AfterProcess(acc, s, env).balance == s.balance
    ensures var u := AfterProcess(acc, s, env);
      AfterProcess(u, u, next).status == Failed
      <==> FailPct(s, env.model) > 0.0 && !Unsettleable(s.trades, next.value) && StaleHarm(acc, s, env.model)
  {
    var u := AfterProcess(acc, s, env);
    RatchetLiftsFloorIff(acc, s, env);
    UnmovedRow(acc, s, env);
    FloorsAgree(u, next);
    FailsIffStrictlyBelowFloor(u, next);
  }

  /** What an unmoved row can still have gained from the scaling plan does not enter its floor. */
  predicate SameFrame(u: AccountState, r: AccountState) {
    u == r.(peak := u.peak, ledger := u.ledger, multiplier := u.multiplier, claimed := u.claimed)
  }

  lemma UnmovedRow(acc: AccountState, s: AccountState, env: Env)
    requires s.status == Active && s.start > 0 && acc.start == s.start && NoTimeRule(acc, env)
    requires AfterProcess(acc, s, env).status == Active && AfterProcess(acc, s, env).balance == s.balance
    ensures var u, r := AfterProcess(acc, s, env), Ratcheted(s, ProcessResolution(acc, env));
      SameFrame(u, r) && FailResolution(u, env.model) == FailResolution(r, env.model)
  {
    RatchetKeeps(acc, s, env);
    FailingBranches(acc, env, HasOpen(s.trades));
    RatchetedFrame(s, ProcessResolution(acc, env));
    hide Ratcheted, ProcessResolution, BranchOf, AfterBranch, Resolve;
    UnmovedBranch(BranchOf(acc, env, HasOpen(s.trades)), AfterRatchet(acc, s, env), env);
  }

  lemma UnmovedBranch(branch: Branch, s: AccountState, env: Env)
    requires s.status == Active && branch !in {DoExpire, DoFailInactive}
    requires AfterBranch(branch, s, env).status == Active && AfterBranch(branch, s, env).balance == s.balance
    ensures SameFrame(AfterBranch(branch, s, env), s)
    ensures FailResolution(AfterBranch(branch, s, env), env.model) == FailResolution(s, env.model)
  {
    hide Resolve, Scaling.Evaluated, FailCommits, Liquidated;
    if env.plan.Some? {
      Scaling.EvaluationFrame(s, env.plan.value);
    }
    SameFloor(AfterBranch(branch, s, env), s, env.model);
  }

  lemma SameFloor(u: AccountState, r: AccountState, model: Option<FundedModel>)
    requires u.kind == r.kind && u.start == r.start && u.balance == r.balance && u.maxDrawdownPct == r.maxDrawdownPct
    requires u.eodPeak == r.eodPeak && u.eodFloor == r.eodFloor
    ensures FailResolution(u, model) == FailResolution(r, model)
  {
    hide Trailing, LockThreshold, LockLevel;
  }

  /** Harm takes an old copy: a pass over the row as it is never lifts a floor over its balance. */
  lemma OwnCopyIsHarmless(s: AccountState, model: Option<FundedModel>)
    requires !BelowOwnFloor(s, model)
    ensures !StaleHarm(s, s, model)
  {
    hide Trailing, LockThreshold, LockLevel;
  }

  /** Passing is safe however old the copy: it needs the live target reached with nothing open. */
  lemma StalePassNeedsLiveTarget(acc: AccountState, s: AccountState, env: Env)
    requires s.status == Active
    ensures AfterProcess(acc, s, env).status == Passed ==>
      Outcomes.AtTarget(s.balance, s.start, s.profitTarget) && Outcomes.NothingOpen(s.trades)
    ensures s.kind == acc.kind == Funded ==> AfterProcess(acc, s, env).status in {Active, Failed}
  {
    BranchStatuses(BranchOf(acc, env, HasOpen(s.trades)), AfterRatchet(acc, s, env), env);
  }

  // ---------- Three ways to be harmed ----------

  function FundedAt(balance: int, anchor: int): AccountState {
    AccountState(Funded, Active, 10000000, balance, balance, Some(anchor), None, 4.0, None, 0, 0, 1.0, [], [])
  }

  function PassEnv(todayRealised: int, locksAtPct: Option<real>, value: Valuer): Env {
    Env(false, false, 4.0, Some(FundedModel(4.0, 3.0, locksAtPct)), todayRealised, false, false, None, true, value)
  }

  /** A payout committed between read and ratchet: no trade is made, and the pass after the stale one
      fails the account, which it does not when the passes see the paid row. */
  lemma PayoutBetweenReadAndRatchet(value: Valuer)
    ensures var env, before := PassEnv(0, None, value), FundedAt(11000000, 10500000);
      var paid := CapitalMoved(before, -1000000, PayoutDebit(1));
      var raced := AfterProcess(before, paid, env);
      var orderly := AfterProcess(paid, paid, env);
      && orderly.status == Active && AfterProcess(orderly, orderly, env).status == Active
      && raced.status == Active && AfterProcess(raced, raced, env).status == Failed
  {
  }

  /** With a daily loss at its limit the stale pass fails the account itself. */
  lemma PayoutBeforeDailyLossCheck(value: Valuer)
    ensures var env, before := PassEnv(-300000, None, value), FundedAt(11000000, 10500000);
      var paid := CapitalMoved(before, -1000000, PayoutDebit(1));
      && !BelowOwnFloor(paid, env.model) && AfterProcess(paid, paid, env).status == Active
      && AfterProcess(before, paid, env).status == Failed
  {
  }

  /** A reset committed between read and ratchet: the anchor is not raised, but the copy's peak writes
      the locked floor the reset had cleared, and the next pass fails the freshly reset account. */
  lemma ResetBetweenReadAndRatchet(value: Valuer)
    ensures var env, before := PassEnv(0, Some(5.0), value), FundedAt(10600000, 10600000);
      var reset := ResetToStart(before);
      var raced := AfterProcess(before, reset, env);
      && !BelowOwnFloor(reset, env.model) && Anchor(raced) == Anchor(reset)
      && raced.eodFloor == Some(10080000.0)
      && raced.status == Active && AfterProcess(raced, raced, env).status == Failed
  {
  }
}
