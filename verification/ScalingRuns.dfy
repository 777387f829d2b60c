/** The scaling plan over whole runs of an account: when its multiplier can fall, and what evaluating
    often is worth against evaluating once. */
module ScalingRuns {
  import opened Options
  import opened Arithmetic
  import opened Sequences
  import opened Capital
  import opened CapitalRuns
  import opened Scaling
  import Enforcement

  /** The account's model does not change: every evaluation of the run uses this plan. */
  predicate UsesPlan(op: Op, plan: Plan) {
    && (op.Scale? ==> op.plan == plan)
    && (op.Process? ==> op.env.plan.None? || op.env.plan.value == plan)
  }

  predicate OnePlan(ops: seq<Op>, plan: Plan) {
    forall i :: 0 <= i < |ops| ==> UsesPlan(ops[i], plan)
  }

  /** The engine evaluates funded accounts that are active. */
  predicate EngineRun(s: AccountState, ops: seq<Op>) {
    forall i :: 0 <= i < |ops| && ops[i].Scale? ==> Run(s, ops[..i]).kind == Funded && Run(s, ops[..i]).status == Active
  }

  lemma {:induction false} RunCons(s: AccountState, op: Op, rest: seq<Op>)
    ensures Run(s, [op] + rest) == Run(Step(s, op), rest)
  {
    hide Step;
    var ops := [op] + rest;
    if rest == [] {
      assert ops[..0] == [];
    } else {
      var n := |rest| - 1;
      RunCons(s, op, rest[..n]);
      assert ops[..|ops| - 1] == [op] + rest[..n];
    }
  }

  // ---------- The first milestone count that can be earned next ----------

  /** The least trading profit that holds more than `claimed` milestones. A milestone can be smaller
      than a cent, so it may hold several more. */
  function FirstProfit(plan: Plan, start: int, claimed: nat): int {
    Ceil((claimed + 1) as real * plan.milestonePct * start as real / 100.0)
  }

  lemma QuotientAtLeast(x: real, d: real, k: real)
    requires d > 0.0
    ensures x / d >= k <==> x >= k * d
  {
    var q := x / d;
    assert q * d == x;
    assert (q - k) * d == x - k * d;
    if q >= k {
      assert (q - k) * d >= 0.0;
    } else {
      assert (k - q) * d > 0.0;
      assert (k - q) * d == -((q - k) * d);
    }
  }

  lemma EarnedAtLeast(p: int, start: int, plan: Plan, k: nat)
    requires Runs(plan) && start > 0 && k > 0
    ensures Earned(p, start, plan) >= k <==> p as real >= k as real * plan.milestonePct * start as real / 100.0
  {
    var m, s := plan.milestonePct, start as real;
    var pct := p as real / s * 100.0;
    var need := k as real * m;
    assert need > 0.0;
    QuotientAtLeast(pct, m, k as real);
    QuotientAtLeast(p as real, s, need / 100.0);
    assert need / 100.0 * s == need * s / 100.0;
    assert pct >= need <==> p as real / s >= need / 100.0;
    assert pct > 0.0 ==> (Earned(p, start, plan) >= k <==> pct / m >= k as real);
  }

  lemma FirstProfitMeans(plan: Plan, start: int, claimed: nat, p: int)
    requires Runs(plan) && start > 0
    ensures Earned(p, start, plan) > claimed <==> p >= FirstProfit(plan, start, claimed)
  {
    EarnedAtLeast(p, start, plan, claimed + 1);
  }

  /** The lowest multiplier the next claim can assign. */
  function FirstMultiplier(plan: Plan, start: int, claimed: nat): real
    requires Runs(plan) && start > 0
  {
    NextMultiplier(plan, start, Earned(FirstProfit(plan, start, claimed), start, plan))
  }

  lemma FirstMultiplierIsLowest(plan: Plan, start: int, claimed: nat, p: int)
    requires Runs(plan) && start > 0 && Earned(p, start, plan) > claimed
    ensures FirstMultiplier(plan, start, claimed) <= NextMultiplier(plan, start, Earned(p, start, plan))
    ensures NextMultiplier(plan, start, Earned(p, start, plan)) <= FirstMultiplier(plan, start, Earned(p, start, plan))
  {
    hide Earned, NextMultiplier, FirstProfit;
    var first := FirstProfit(plan, start, claimed);
    FirstProfitMeans(plan, start, claimed, p);
    EarnedMonotone(first, p, start, plan);
    MultiplierMonotoneAndCapped(plan, start, Earned(first, start, plan), Earned(p, start, plan));
    var k := Earned(p, start, plan);
    var next := FirstProfit(plan, start, k);
    FirstProfitMeans(plan, start, k, next);
    MultiplierMonotoneAndCapped(plan, start, k, Earned(next, start, plan));
  }

  // ---------- When the stored multiplier can fall ----------

  lemma EvaluationMultiplier(s: AccountState, plan: Plan)
    requires Runs(plan) && s.start > 0
    ensures var k, t := Earned(TradingProfit(s), s.start, plan), Evaluated(s, plan);
      if k > s.claimed && !Refused(s, plan) then t.multiplier == NextMultiplier(plan, s.start, k) && t.claimed == k
      else t.multiplier == s.multiplier && t.claimed == s.claimed
  {
    var earned := Earned(TradingProfit(s), s.start, plan);
    if earned > s.claimed && plan.increasePct > 0.0 {
      InjectRefusedIff(s, plan, s.claimed + 1, earned);
    }
    hide NextMultiplier, Inject, Earned;
  }

  /** The stored multiplier is at most what the next claim assigns. */
  predicate NotAhead(s: AccountState, plan: Plan)
    requires Runs(plan) && s.start > 0
  {
    s.multiplier <= FirstMultiplier(plan, s.start, s.claimed)
  }

  predicate Rose(s: AccountState, t: AccountState, plan: Plan)
    requires Runs(plan) && s.start > 0
  {
    t.start == s.start && t.multiplier >= s.multiplier && NotAhead(t, plan)
  }

  lemma EvaluationRises(s: AccountState, plan: Plan)
    requires Runs(plan) && s.start > 0 && NotAhead(s, plan)
    ensures Rose(s, Evaluated(s, plan), plan)
  {
    EvaluationMultiplier(s, plan);
    EvaluationFrame(s, plan);
    hide Evaluated, FirstMultiplier, NextMultiplier, Earned, Refused;
    if Earned(TradingProfit(s), s.start, plan) > s.claimed {
      FirstMultiplierIsLowest(plan, s.start, s.claimed, TradingProfit(s));
    }
  }

  lemma BranchMultiplier(branch: Enforcement.Branch, s: AccountState, env: Enforcement.Env)
    requires branch != Enforcement.DoScale || env.plan.None?
    ensures var t := Enforcement.AfterBranch(branch, s, env);
      t.multiplier == s.multiplier && t.claimed == s.claimed && t.start == s.start
  {
  }

  lemma StepRises(s: AccountState, op: Op, plan: Plan)
    requires Runs(plan) && s.start > 0 && NotAhead(s, plan) && UsesPlan(op, plan)
    ensures Rose(s, Step(s, op), plan)
  {
    hide FirstMultiplier, Evaluated;
    match op {
      case Scale(_) => EvaluationRises(s, plan);
      case Process(acc, env) =>
        RatchetFrame(acc, s, env);
        var s1 := Enforcement.AfterRatchet(acc, s, env);
        var branch := Enforcement.BranchOf(acc, env, Enforcement.HasOpen(s.trades));
        hide Enforcement.AfterRatchet, Enforcement.BranchOf;
        if branch == Enforcement.DoScale && env.plan.Some? {
          EvaluationRises(s1, plan);
        } else {
          BranchMultiplier(branch, s1, env);
        }
      case _ =>
    }
  }

  lemma {:induction false} RunRises(s: AccountState, ops: seq<Op>, plan: Plan)
    requires Runs(plan) && s.start > 0 && NotAhead(s, plan) && OnePlan(ops, plan)
    ensures Rose(s, Run(s, ops), plan)
  {
    hide Step, FirstMultiplier;
    if ops != [] {
      RunRises(s, ops[..|ops| - 1], plan);
      StepRises(Run(s, ops[..|ops| - 1]), ops[|ops| - 1], plan);
    }
  }

  /** No evaluation of this plan can ever commit: the injection rounds to nothing and no cap stops the
      loop before it. */
  predicate AlwaysRefused(plan: Plan, start: int) {
    plan.increasePct > 0.0 && plan.maxSize <= 0 && Cents(PerMilestone(plan, start)) == 0
  }

  /** The run that shows a fall: one trade up to the first profit that earns something, a credit past
      the size cap (so that nothing is injected and nothing refused), one evaluation. */
  function Fall(s: AccountState, plan: Plan): seq<Op> {
    var pnl := FirstProfit(plan, s.start, s.claimed) - TradingProfit(s);
    [OpenTrade(0), CloseTrade(|s.trades|, pnl), Adjust(Max(1, plan.maxSize + 1 - s.balance - pnl), AdminAdjustment, false),
     Scale(plan)]
  }

  /** The row before the evaluation of such a run. */
  lemma BeforeEvaluation(s: AccountState, pnl: int, credit: int) returns (t: AccountState)
    requires credit > 0
    ensures forall last: Op ::
      Run(s, [OpenTrade(0), CloseTrade(|s.trades|, pnl), Adjust(credit, AdminAdjustment, false), last]) == Step(t, last)
    ensures TradingProfit(t) == TradingProfit(s) + pnl && t.balance == s.balance + pnl + credit
    ensures t.claimed == s.claimed && t.start == s.start && t.multiplier == s.multiplier
    ensures t.kind == s.kind && t.status == s.status
    ensures Run(s, [OpenTrade(0), CloseTrade(|s.trades|, pnl), Adjust(credit, AdminAdjustment, false)]) == t
  {
    var a, b, c := OpenTrade(0), CloseTrade(|s.trades|, pnl), Adjust(credit, AdminAdjustment, false);
    var s1 := s.(trades := s.trades + [Trade(0, Open, 0)]);
    var s2 := PnlBooked(s1, pnl).(trades := s1.trades[|s.trades| := Trade(0, Settled, pnl)]);
    t := Adjusted(s2, credit, AdminAdjustment);
    LedgerTotalAppend(s.ledger, LedgerRow(credit, AdminAdjustment, s2.balance, s2.balance + credit));
    assert Step(s, a) == s1 && Step(s1, b) == s2 && Step(s2, c) == t;
    hide Step;
    forall last: Op ensures Run(s, [a, b, c, last]) == Step(t, last) {
      assert [a, b, c, last] == [a] + ([b] + ([c] + ([last] + [])));
      RunCons(s, a, [b] + ([c] + ([last] + [])));
      RunCons(s1, b, [c] + ([last] + []));
      RunCons(s2, c, [last] + []);
      RunCons(t, last, []);
    }
    assert [a, b, c] == [a] + ([b] + ([c] + []));
    RunCons(s, a, [b] + ([c] + []));
    RunCons(s1, b, [c] + []);
    RunCons(s2, c, []);
  }

  lemma FallFalls(s: AccountState, plan: Plan)
    requires Runs(plan) && s.start > 0 && s.kind == Funded && s.status == Active && !AlwaysRefused(plan, s.start)
    ensures OnePlan(Fall(s, plan), plan) && EngineRun(s, Fall(s, plan))
    ensures Run(s, Fall(s, plan)).multiplier == FirstMultiplier(plan, s.start, s.claimed)
  {
    hide FirstProfit, Evaluated, NextMultiplier, Earned, Run, TradingProfit, PerMilestone;
    var first := FirstProfit(plan, s.start, s.claimed);
    var pnl := first - TradingProfit(s);
    var t := BeforeEvaluation(s, pnl, Max(1, plan.maxSize + 1 - s.balance - pnl));
    FirstProfitMeans(plan, s.start, s.claimed, first);
    PerMilestonePositive(plan, s.start);
    assert !Refused(t, plan);
    var ops := Fall(s, plan);
    assert ops[..3] == [ops[0], ops[1], ops[2]];
    assert forall i :: 0 <= i < |ops| && ops[i].Scale? ==> i == 3;
    EvaluationMultiplier(t, plan);
  }

  lemma PerMilestonePositive(plan: Plan, start: int)
    requires start > 0
    ensures plan.increasePct > 0.0 ==> PerMilestone(plan, start) > 0.0
  {
    if plan.increasePct > 0.0 {
      assert start as real * plan.increasePct > 0.0;
    }
  }

  /** No run of one plan that the engine could make ever lowers the multiplier. */
  ghost predicate NeverFalls(s: AccountState, plan: Plan) {
    forall ops: seq<Op> :: OnePlan(ops, plan) && EngineRun(s, ops) ==> Run(s, ops).multiplier >= s.multiplier
  }

  /** Over every such run of a funded account the stored multiplier never falls if and only if it is at
      most what the next claim assigns, or no evaluation can commit at all. */
  lemma MultiplierNeverFallsIff(s: AccountState, plan: Plan)
    requires Runs(plan) && s.start > 0 && s.kind == Funded && s.status == Active
    ensures NeverFalls(s, plan) <==> NotAhead(s, plan) || AlwaysRefused(plan, s.start)
  {
    if NotAhead(s, plan) {
      forall ops: seq<Op> | OnePlan(ops, plan) && EngineRun(s, ops) ensures Run(s, ops).multiplier >= s.multiplier {
        RunRises(s, ops, plan);
      }
    } else if AlwaysRefused(plan, s.start) {
      forall ops: seq<Op> | OnePlan(ops, plan) && EngineRun(s, ops) ensures Run(s, ops).multiplier >= s.multiplier {
        RefusedRunKeeps(s, ops, plan);
      }
    } else {
      FallFalls(s, plan);
      assert Run(s, Fall(s, plan)).multiplier < s.multiplier;
    }
  }

  lemma {:induction false} RefusedRunKeeps(s: AccountState, ops: seq<Op>, plan: Plan)
    requires Runs(plan) && s.start > 0 && AlwaysRefused(plan, s.start) && OnePlan(ops, plan)
    ensures Run(s, ops).multiplier == s.multiplier && Run(s, ops).start == s.start
  {
    hide Evaluated, Earned, NextMultiplier, PerMilestone;
    if ops != [] {
      RefusedRunKeeps(s, ops[..|ops| - 1], plan);
      var t, op := Run(s, ops[..|ops| - 1]), ops[|ops| - 1];
      match op {
        case Scale(_) =>
          EvaluationMultiplier(t, plan);
          EvaluationFrame(t, plan);
        case Process(acc, env) => RefusedPassKeeps(t, acc, env, plan);
        case _ =>
      }
    }
  }

  lemma RefusedPassKeeps(s: AccountState, acc: AccountState, env: Enforcement.Env, plan: Plan)
    requires Runs(plan) && s.start > 0 && AlwaysRefused(plan, s.start) && UsesPlan(Process(acc, env), plan)
    ensures var t := Enforcement.AfterProcess(acc, s, env);
      t.multiplier == s.multiplier && t.start == s.start
  {
    RatchetFrame(acc, s, env);
    var s1 := Enforcement.AfterRatchet(acc, s, env);
    var branch := Enforcement.BranchOf(acc, env, Enforcement.HasOpen(s.trades));
    hide Enforcement.AfterRatchet, Enforcement.BranchOf, Evaluated, Earned, NextMultiplier, PerMilestone;
    if branch == Enforcement.DoScale && env.plan.Some? {
      EvaluationMultiplier(s1, plan);
      EvaluationFrame(s1, plan);
    } else {
      BranchMultiplier(branch, s1, env);
    }
  }

  /** A new funded account starts with multiplier 1 and nothing claimed. Its multiplier never falls if and
      only if the plan has no size cap or one that is not below the starting balance. */
  lemma FreshMultiplierNeverFallsIff(s: AccountState, plan: Plan)
    requires Runs(plan) && s.start > 0 && s.kind == Funded && s.status == Active && s.multiplier == 1.0 && s.claimed == 0
    ensures NeverFalls(s, plan) <==> plan.maxSize <= 0 || plan.maxSize >= s.start
  {
    MultiplierNeverFallsIff(s, plan);
    var k := Earned(FirstProfit(plan, s.start, 0), s.start, plan);
    PowMonotone(plan.factor, 0, k);
    if plan.maxSize > 0 {
      QuotientAtLeast(plan.maxSize as real, s.start as real, 1.0);
    }
    FirstProfitMeans(plan, s.start, 0, FirstProfit(plan, s.start, 0));
    hide Earned, FirstProfit, NeverFalls, Pow;
  }

  /** A cap of 50,000 on an account that started at 100,000: the first milestone halves the multiplier. */
  lemma CapBelowStartHalves()
    ensures var plan := Plan(true, 10.0, 2.0, 5000000, 0.0);
      var s := AccountState(Funded, Active, 10000000, 11000000, 11000000, None, None, 4.0, None, 0, 0, 1.0,
                            [Trade(1, Settled, 1000000)], []);
      Conserved(s) && Evaluated(s, plan).claimed == 1 && Evaluated(s, plan).multiplier == 0.5
  {
    var plan := Plan(true, 10.0, 2.0, 5000000, 0.0);
    var s := AccountState(Funded, Active, 10000000, 11000000, 11000000, None, None, 4.0, None, 0, 0, 1.0,
                          [Trade(1, Settled, 1000000)], []);
    assert s.trades[..0] == [];
    EarnedAtLeast(1000000, 10000000, plan, 1);
    EarnedAtLeast(1000000, 10000000, plan, 2);
    HalfIsCap(plan);
    hide Earned, NextMultiplier, Evaluated;
    assert TradingProfit(s) == 1000000;
    EvaluationMultiplier(s, plan);
  }

  lemma HalfIsCap(plan: Plan)
    requires plan.factor == 2.0 && plan.maxSize == 5000000
    ensures NextMultiplier(plan, 10000000, 1) == 0.5
  {
    assert Pow(2.0, 1) == 2.0 * Pow(2.0, 0);
  }

  // ---------- Evaluating in stages against evaluating once ----------

  /** One open trade, by position, and the result it closes with. */
  datatype Closing = Closing(index: nat, result: int)

  function Close(c: Closing): Op {
    CloseTrade(c.index, c.result)
  }

  function Closings(cs: seq<Closing>): seq<Op> {
    if cs == [] then [] else Closings(cs[..|cs| - 1]) + [Close(cs[|cs| - 1])]
  }

  /** Every trade closed in turn, and one evaluation at the end. */
  function CatchingUp(cs: seq<Closing>, plan: Plan): seq<Op> {
    Closings(cs) + [Scale(plan)]
  }

  /** The trades of each stage closed in turn, with an evaluation after each stage. */
  function Staged(stages: seq<seq<Closing>>, plan: Plan): seq<Op> {
    if stages == [] then [] else CatchingUp(stages[0], plan) + Staged(stages[1..], plan)
  }

  /** All trades of all stages. */
  function Together(stages: seq<seq<Closing>>): seq<Closing> {
    if stages == [] then [] else stages[0] + Together(stages[1..])
  }

  function Total(cs: seq<Closing>): int {
    if cs == [] then 0 else Total(cs[..|cs| - 1]) + cs[|cs| - 1].result
  }

  /** What each stage adds to the trading profit. */
  function Results(stages: seq<seq<Closing>>): seq<int> {
    if stages == [] then [] else [Total(stages[0])] + Results(stages[1..])
  }

  lemma {:induction false} RunAppend(s: AccountState, a: seq<Op>, b: seq<Op>)
    ensures Run(s, a + b) == Run(Run(s, a), b)
  {
    hide Step;
    if b == [] {
      assert a + b == a;
    } else {
      RunAppend(s, a, b[..|b| - 1]);
      assert (a + b)[..|a + b| - 1] == a + b[..|b| - 1];
    }
  }

  lemma {:induction false} TotalAppend(a: seq<Closing>, b: seq<Closing>)
    ensures Total(a + b) == Total(a) + Total(b)
  {
    if b == [] {
      assert a + b == a;
    } else {
      TotalAppend(a, b[..|b| - 1]);
      assert (a + b)[..|a + b| - 1] == a + b[..|b| - 1];
    }
  }

  lemma {:induction false} TotalOfStages(stages: seq<seq<Closing>>)
    ensures Total(Together(stages)) == Sum(Results(stages)) && |Results(stages)| == |stages|
    ensures forall i :: 0 <= i < |stages| ==> Results(stages)[i] == Total(stages[i])
  {
    if stages != [] {
      TotalOfStages(stages[1..]);
      TotalAppend(stages[0], Together(stages[1..]));
      assert Results(stages)[1..] == Results(stages[1..]);
    }
  }

  predicate OpenAndDistinct(trades: seq<Trade>, cs: seq<Closing>) {
    && (forall i :: 0 <= i < |cs| ==> cs[i].index < |trades| && trades[cs[i].index].status == Open)
    && (forall i, j :: 0 <= i < j < |cs| ==> cs[i].index != cs[j].index)
  }

  /** The row after one of these trades closed. */
  lemma CloseOneTrade(s: AccountState, cs: seq<Closing>)
    requires cs != [] && OpenAndDistinct(s.trades, cs)
    ensures var t := Step(s, Close(cs[0]));
      && t.balance == s.balance + cs[0].result && TradingProfit(t) == TradingProfit(s) + cs[0].result
      && t.ledger == s.ledger && t.start == s.start && t.claimed == s.claimed
      && OpenAndDistinct(t.trades, cs[1..])
  {
  }

  /** The row after several of them closed. */
  lemma {:induction false} CloseSeveral(s: AccountState, cs: seq<Closing>, rest: seq<Closing>)
    requires OpenAndDistinct(s.trades, cs + rest)
    ensures var t := Run(s, Closings(cs));
      && t.balance == s.balance + Total(cs) && TradingProfit(t) == TradingProfit(s) + Total(cs)
      && t.ledger == s.ledger && t.start == s.start && t.claimed == s.claimed
      && OpenAndDistinct(t.trades, rest)
  {
    if cs == [] {
      assert cs + rest == rest;
    } else {
      var n := |cs| - 1;
      var t := Run(s, Closings(cs[..n]));
      assert cs[..n] + ([cs[n]] + rest) == cs + rest;
      assert Run(s, Closings(cs)) == Step(t, Close(cs[n]));
      hide OpenAndDistinct, TradingProfit, Step, Run, Closings;
      CloseSeveral(s, cs[..n], [cs[n]] + rest);
      CloseOneTrade(t, [cs[n]] + rest);
      assert ([cs[n]] + rest)[1..] == rest;
    }
  }

  /** Scaling rows in the ledger. */
  function Injections(s: AccountState): nat {
    |ScalingRows(s.ledger)|
  }

  lemma {:induction false} InjectionRowsCount(ledger: seq<LedgerRow>, balance: int, amount: int, next: nat, count: nat)
    ensures |ScalingRows(ledger + InjectionRows(balance, amount, next, count))| == |ScalingRows(ledger)| + count
    decreases count
  {
    var rows := InjectionRows(balance, amount, next, count);
    if count == 0 {
      assert ledger + rows == ledger;
    } else {
      InjectionRowsCount(ledger + [rows[0]], balance + amount, amount, next + 1, count - 1);
      ScalingRowsAppend(ledger, rows[0]);
      assert ledger + rows == ledger + [rows[0]] + InjectionRows(balance + amount, amount, next + 1, count - 1);
    }
  }

  /** The plan injects whole amounts at all. */
  predicate Injects(plan: Plan, start: int) {
    Runs(plan) && start > 0 && plan.increasePct > 0.0 && Cents(PerMilestone(plan, start)) > 0
  }

  /** How many injections one evaluation makes. */
  lemma EvaluationInjects(s: AccountState, plan: Plan)
    requires Injects(plan, s.start)
    ensures var per, wanted := PerMilestone(plan, s.start), Newly(Earned(TradingProfit(s), s.start, plan), s.claimed);
      var k, t := Grants(per, plan.maxSize, s.balance, wanted), Evaluated(s, plan);
      && Injections(t) == Injections(s) + k && t.balance == s.balance + k * Cents(per)
      && t.claimed == s.claimed + wanted && TradingProfit(t) == TradingProfit(s)
      && t.start == s.start && t.trades == s.trades
  {
    var per, earned := PerMilestone(plan, s.start), Earned(TradingProfit(s), s.start, plan);
    EvaluationIsIdempotent(s, plan);
    EvaluationFrame(s, plan);
    hide Earned, PerMilestone, NextMultiplier, Inject;
    if earned > s.claimed {
      InjectClosedForm(s, per, plan.maxSize, s.claimed + 1, earned);
      var k := Grants(per, plan.maxSize, s.balance, earned - s.claimed);
      InjectionRowsCount(s.ledger, s.balance, Cents(per), s.claimed + 1, k);
    } else {
      NoGrants(per, plan.maxSize, s.balance);
    }
  }

  lemma NoGrants(per: real, cap: int, balance: int)
    requires Cents(per) > 0
    ensures Grants(per, cap, balance, 0) == 0
  {
  }

  /** `earned` is the milestone count of this account's plan. */
  ghost predicate Counts(earned: int -> nat, plan: Plan, start: int) {
    forall p: int :: earned(p) == EarnedOrNone(p, start, plan)
  }

  /** What a run has injected since `s`. */
  predicate Gained(s: AccountState, t: AccountState, injections: nat, plan: Plan, profit: int) {
    && Injections(t) == Injections(s) + injections
    && t.balance == s.balance + profit + injections * Cents(PerMilestone(plan, s.start))
  }

  lemma CountsAt(earned: int -> nat, plan: Plan, start: int, p: int)
    requires Counts(earned, plan, start) && Runs(plan) && start > 0
    ensures earned(p) == Earned(p, start, plan)
  {
  }

  /** The first stage of the counter, against the evaluation it stands for. */
  lemma FirstStage(s1: AccountState, plan: Plan, earned: int -> nat, balance: int, profit: int, results: seq<int>)
    requires Injects(plan, s1.start) && Counts(earned, plan, s1.start) && results != []
    requires s1.balance == balance + results[0] && TradingProfit(s1) == profit + results[0]
    ensures var per, wanted := PerMilestone(plan, s1.start), Newly(Earned(TradingProfit(s1), s1.start, plan), s1.claimed);
      var k := Grants(per, plan.maxSize, s1.balance, wanted);
      InjectedStaged(per, plan.maxSize, earned, balance, profit, s1.claimed, results)
        == k + InjectedStaged(per, plan.maxSize, earned, s1.balance + k * Cents(per), TradingProfit(s1), s1.claimed + wanted, results[1..])
  {
    CountsAt(earned, plan, s1.start, TradingProfit(s1));
    hide Counts, Earned, Grants, PerMilestone, TradingProfit;
  }

  lemma {:induction false} StagedRunInjects(s: AccountState, stages: seq<seq<Closing>>, plan: Plan, earned: int -> nat)
    requires Injects(plan, s.start) && OpenAndDistinct(s.trades, Together(stages)) && Counts(earned, plan, s.start)
    ensures Gained(s, Run(s, Staged(stages, plan)),
                   InjectedStaged(PerMilestone(plan, s.start), plan.maxSize, earned, s.balance, TradingProfit(s), s.claimed, Results(stages)),
                   plan, Sum(Results(stages)))
    decreases |stages|
  {
    hide Counts, PerMilestone, Earned, EarnedOrNone, TradingProfit, Evaluated, Injections, Newly, OpenAndDistinct, Grants;
    if stages == [] {
      assert Results(stages) == [];
    } else {
      var s1 := Run(s, Closings(stages[0]));
      var s2, t := Evaluated(s1, plan), Run(s, Staged(stages, plan));
      UnfoldStaged(s, stages, plan);
      hide Step, Gained, InjectedStaged, Staged, Run, Sum, Results, Closings;
      CloseSeveral(s, stages[0], Together(stages[1..]));
      FirstStage(s1, plan, earned, s.balance, TradingProfit(s), Results(stages));
      StageGains(s, s1, plan, Total(stages[0]));
      StagedRunInjects(s2, stages[1..], plan, earned);
      var per, wanted := PerMilestone(plan, s.start), Newly(Earned(TradingProfit(s1), s.start, plan), s1.claimed);
      var k := Grants(per, plan.maxSize, s1.balance, wanted);
      var later := InjectedStaged(per, plan.maxSize, earned, s2.balance, TradingProfit(s2), s2.claimed, Results(stages[1..]));
      GainedThen(s, s2, t, k, later, plan, Total(stages[0]), Sum(Results(stages[1..])));
    }
  }

  lemma UnfoldStaged(s: AccountState, stages: seq<seq<Closing>>, plan: Plan)
    requires stages != []
    ensures Run(s, Staged(stages, plan)) == Run(Evaluated(Run(s, Closings(stages[0])), plan), Staged(stages[1..], plan))
    ensures Results(stages) != [] && Results(stages)[0] == Total(stages[0]) && Results(stages)[1..] == Results(stages[1..])
    ensures Sum(Results(stages)) == Total(stages[0]) + Sum(Results(stages[1..]))
  {
    UnfoldCatchingUp(s, stages[0], plan);
    RunAppend(s, CatchingUp(stages[0], plan), Staged(stages[1..], plan));
    assert Results(stages)[1..] == Results(stages[1..]);
  }

  lemma UnfoldCatchingUp(s: AccountState, cs: seq<Closing>, plan: Plan)
    ensures Run(s, CatchingUp(cs, plan)) == Evaluated(Run(s, Closings(cs)), plan)
  {
    var ops := CatchingUp(cs, plan);
    assert ops[..|ops| - 1] == Closings(cs);
  }

  lemma StageGains(s: AccountState, s1: AccountState, plan: Plan, result: int)
    requires Injects(plan, s.start) && s1.start == s.start && s1.ledger == s.ledger && s1.balance == s.balance + result
    ensures var per, wanted := PerMilestone(plan, s.start), Newly(Earned(TradingProfit(s1), s.start, plan), s1.claimed);
      var k, t := Grants(per, plan.maxSize, s1.balance, wanted), Evaluated(s1, plan);
      && Gained(s, t, k, plan, result) && t.balance == s1.balance + k * Cents(per)
      && t.claimed == s1.claimed + wanted && TradingProfit(t) == TradingProfit(s1)
      && t.start == s.start && t.trades == s1.trades
  {
    hide PerMilestone, Earned, TradingProfit, Evaluated, Grants;
    EvaluationInjects(s1, plan);
  }

  lemma GainedThen(s: AccountState, m: AccountState, t: AccountState, k: nat, l: nat, plan: Plan, p: int, q: int)
    requires m.start == s.start && Gained(s, m, k, plan, p) && Gained(m, t, l, plan, q)
    ensures Gained(s, t, k + l, plan, p + q)
  {
    hide PerMilestone, Injections;
    var c := Cents(PerMilestone(plan, s.start));
    assert (k + l) * c == k * c + l * c;
  }

  lemma SameLedgerSameInjections(s: AccountState, t: AccountState)
    requires s.ledger == t.ledger
    ensures Injections(s) == Injections(t)
  {
  }

  lemma CatchUpRunInjects(s: AccountState, cs: seq<Closing>, plan: Plan)
    requires Injects(plan, s.start) && OpenAndDistinct(s.trades, cs)
    ensures Gained(s, Run(s, CatchingUp(cs, plan)),
                   Grants(PerMilestone(plan, s.start), plan.maxSize, s.balance + Total(cs),
                          Newly(Earned(TradingProfit(s) + Total(cs), s.start, plan), s.claimed)),
                   plan, Total(cs))
  {
    hide PerMilestone, Earned, TradingProfit, Evaluated, Injections, Injects, Newly, OpenAndDistinct, Grants;
    UnfoldCatchingUp(s, cs, plan);
    assert cs + [] == cs;
    CloseSeveral(s, cs, []);
    StageGains(s, Run(s, Closings(cs)), plan, Total(cs));
  }

  /** A plan that injects nothing adds no row in any run of closings and evaluations. */
  lemma NothingInjected(s: AccountState, plan: Plan)
    requires !Injects(plan, s.start)
    ensures Injections(Evaluated(s, plan)) == Injections(s) && Evaluated(s, plan).balance == s.balance
    ensures Evaluated(s, plan).start == s.start && Evaluated(s, plan).trades == s.trades
  {
    EvaluationFrame(s, plan);
  }

  lemma IdleCatchUpRun(s: AccountState, cs: seq<Closing>, rest: seq<Closing>, plan: Plan)
    requires !Injects(plan, s.start) && OpenAndDistinct(s.trades, cs + rest)
    ensures var t := Run(s, CatchingUp(cs, plan));
      && Injections(t) == Injections(s) && t.balance == s.balance + Total(cs)
      && t.start == s.start && OpenAndDistinct(t.trades, rest)
  {
    hide Injects, Evaluated, TradingProfit, Injections, OpenAndDistinct, Run, Closings;
    UnfoldCatchingUp(s, cs, plan);
    CloseSeveral(s, cs, rest);
    var t := Run(s, Closings(cs));
    SameLedgerSameInjections(t, s);
    NothingInjected(t, plan);
  }

  lemma {:induction false} IdleStagedRun(s: AccountState, stages: seq<seq<Closing>>, plan: Plan)
    requires !Injects(plan, s.start) && OpenAndDistinct(s.trades, Together(stages))
    ensures Injections(Run(s, Staged(stages, plan))) == Injections(s)
    ensures Run(s, Staged(stages, plan)).balance == s.balance + Sum(Results(stages))
    decreases |stages|
  {
    hide Injects, Injections, OpenAndDistinct;
    if stages != [] {
      var t := Run(s, CatchingUp(stages[0], plan));
      assert Run(s, Staged(stages, plan)) == Run(t, Staged(stages[1..], plan)) by {
        RunAppend(s, CatchingUp(stages[0], plan), Staged(stages[1..], plan));
      }
      hide Run, Staged, CatchingUp;
      IdleCatchUpRun(s, stages[0], Together(stages[1..]), plan);
      IdleStagedRun(t, stages[1..], plan);
      assert Results(stages)[1..] == Results(stages[1..]);
    }
  }

  /** Any account, any plan, any open trades, evaluated at any points of their closing at which the
      trading profit is no lower than at the point before: this leaves at least as many injections,
      and at least as much balance, as closing them all and evaluating once. */
  lemma StagedRunGainsAtLeastCatchUp(s: AccountState, stages: seq<seq<Closing>>, plan: Plan)
    requires stages != [] && OpenAndDistinct(s.trades, Together(stages))
    requires forall i :: 1 <= i < |stages| ==> Total(stages[i]) >= 0
    ensures Injections(Run(s, Staged(stages, plan))) >= Injections(Run(s, CatchingUp(Together(stages), plan)))
    ensures Run(s, Staged(stages, plan)).balance >= Run(s, CatchingUp(Together(stages), plan)).balance
  {
    hide Run, Injections, PerMilestone, EarnedOrNone, Grants, InjectedStaged, OpenAndDistinct;
    if !Injects(plan, s.start) {
      IdleStagedRun(s, stages, plan);
      assert Together(stages) + [] == Together(stages);
      IdleCatchUpRun(s, Together(stages), [], plan);
      TotalOfStages(stages);
    } else {
      var earned := (p: int) => EarnedOrNone(p, s.start, plan);
      forall p: int, q: int | p <= q ensures earned(p) <= earned(q) {
        MilestonesRise(plan, s.start, p, q);
      }
      StagedGainsAtLeast(s, stages, plan, earned);
    }
  }

  lemma StagedGainsAtLeast(s: AccountState, stages: seq<seq<Closing>>, plan: Plan, earned: int -> nat)
    requires Injects(plan, s.start) && Counts(earned, plan, s.start) && Rises(earned)
    requires stages != [] && OpenAndDistinct(s.trades, Together(stages))
    requires forall i :: 1 <= i < |stages| ==> Total(stages[i]) >= 0
    ensures Injections(Run(s, Staged(stages, plan))) >= Injections(Run(s, CatchingUp(Together(stages), plan)))
    ensures Run(s, Staged(stages, plan)).balance >= Run(s, CatchingUp(Together(stages), plan)).balance
  {
    hide Run, Injections, PerMilestone, Grants, InjectedStaged, Rises, Counts, OpenAndDistinct, TradingProfit, Earned, Newly, Sum,
         Staged, CatchingUp, Together, Results, Total;
    var per, profit, total := PerMilestone(plan, s.start), TradingProfit(s), Sum(Results(stages));
    TotalOfStages(stages);
    StagedRunInjects(s, stages, plan, earned);
    CatchUpRunInjects(s, Together(stages), plan);
    CounterAtLeastCatchUp(plan, s.start, earned, s.balance, profit, s.claimed, Results(stages));
    MoreGained(s, Run(s, Staged(stages, plan)), Run(s, CatchingUp(Together(stages), plan)), plan, total,
               InjectedStaged(per, plan.maxSize, earned, s.balance, profit, s.claimed, Results(stages)),
               Grants(per, plan.maxSize, s.balance + total, Newly(Earned(profit + total, s.start, plan), s.claimed)));
  }

  lemma CounterAtLeastCatchUp(plan: Plan, start: int, earned: int -> nat, balance: int, profit: int, claimed: nat, results: seq<int>)
    requires Injects(plan, start) && Counts(earned, plan, start) && Rises(earned)
    requires results != [] && forall i :: 1 <= i < |results| ==> results[i] >= 0
    ensures var per, total := PerMilestone(plan, start), Sum(results);
      InjectedStaged(per, plan.maxSize, earned, balance, profit, claimed, results)
      >= Grants(per, plan.maxSize, balance + total, Newly(Earned(profit + total, start, plan), claimed))
  {
    var per, total := PerMilestone(plan, start), Sum(results);
    CountsAt(earned, plan, start, profit + total);
    hide Counts, Earned, Newly, PerMilestone, Grants, InjectedStaged, Rises, Sum;
    StagedAtLeastOnce(per, plan.maxSize, earned, balance, profit, claimed, results);
    CatchUp(per, plan.maxSize, earned, balance, profit, claimed, total);
  }

  lemma MilestonesRise(plan: Plan, start: int, p: int, q: int)
    requires Runs(plan) && start > 0 && p <= q
    ensures EarnedOrNone(p, start, plan) <= EarnedOrNone(q, start, plan)
  {
    EarnedMonotone(p, q, start, plan);
  }

  lemma MoreGained(s: AccountState, t: AccountState, u: AccountState, plan: Plan, total: int, k: nat, l: nat)
    requires Gained(s, t, k, plan, total) && Gained(s, u, l, plan, total) && k >= l && Cents(PerMilestone(plan, s.start)) > 0
    ensures Injections(t) >= Injections(u) && t.balance >= u.balance
  {
    hide PerMilestone, Injections;
    MulLe(Cents(PerMilestone(plan, s.start)), l, k);
  }
}
