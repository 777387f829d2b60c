/** The life of one competition. A tick of the engine is a series of committed writes and may crash
    before any of them; the next tick starts again from what was committed. */
module Competitions {
  import opened Options
  import opened Arithmetic
  import opened Capital
  import opened Sequences
  import CapitalRuns
  import Ranking

  datatype Phase = Upcoming | Running | Completed | CalledOff

  /** 'active', 'completed', 'disqualified', 'withdrawn'. */
  datatype EntryStatus = Competing | Ranked | Disqualified | Withdrawn

  datatype Entry = Entry(status: EntryStatus, account: AccountState, rank: Option<nat>, usd: int, pct: int)

  datatype Voucher = Voucher(entry: nat, code: nat)

  /** `prizes` maps a rank to whether its voucher specification is well formed; `taken` holds every
      voucher code in the database, whatever competition it belongs to. */
  datatype Comp = Comp(
    phase: Phase, metric: Ranking.Metric, prizes: map<nat, bool>,
    entries: seq<Entry>, vouchers: seq<Voucher>, taken: set<nat>)

  /** What one tick meets: the clock, the price map with calculatePnL, the accounts whose transaction
      fails or is locked out, the order in which a SELECT returns its rows, the random codes. */
  datatype Env = Env(
    started: bool, over: bool, value: Valuer, stuck: nat -> bool,
    shuffle: seq<nat> -> seq<nat>, code: (nat, nat) -> nat)

  /** Still going with `left` writes before the crash, or crashed. */
  datatype Progress = Alive(comp: Comp, left: nat) | Crashed(comp: Comp)

  function Wrote(was: Comp, now: Comp, left: nat): Progress {
    if left == 0 then Crashed(was) else Alive(now, left - 1)
  }

  // ---------- SELECTs ----------

  predicate SameRows(s: seq<nat>, t: seq<nat>) {
    && |s| == |t| && Distinct(s)
    && (forall e :: e in s ==> e in t)
    && (forall e :: e in t ==> e in s)
  }

  /** Entries with one of these statuses, by number. */
  function Select(entries: seq<Entry>, statuses: set<EntryStatus>): (list: seq<nat>)
    ensures forall e: nat :: e in list <==> e < |entries| && entries[e].status in statuses
    ensures Distinct(list)
  {
    if entries == [] then []
    else
      var n := |entries| - 1;
      var front := Select(entries[..n], statuses);
      assert forall e: nat :: e in front <==> e < n && entries[e].status in statuses;
      front + if entries[n].status in statuses then [n] else []
  }

  /** The rows in the order the database happens to return them: any order at all. */
  function Arranged(env: Env, list: seq<nat>): (r: seq<nat>)
    requires Distinct(list)
    ensures SameRows(r, list)
  {
    if SameRows(env.shuffle(list), list) then env.shuffle(list) else list
  }

  function Listed(c: Comp, statuses: set<EntryStatus>, env: Env): (r: seq<nat>)
    ensures Known(c, r) && Distinct(r)
    ensures forall e: nat :: e in r <==> e < |c.entries| && c.entries[e].status in statuses
  {
    var list := Arranged(env, Select(c.entries, statuses));
    assert forall i :: 0 <= i < |list| ==> list[i] in list;
    list
  }

  predicate Known(c: Comp, list: seq<nat>) {
    forall i :: 0 <= i < |list| ==> list[i] < |c.entries|
  }

  // ---------- The writes of a tick ----------

  function Activated(c: Comp, env: Env): Comp {
    if c.phase == Upcoming && env.started then c.(phase := Running) else c
  }

  function BreachMarked(en: Entry): Entry {
    if en.status == Competing && en.account.status == Failed then en.(status := Disqualified) else en
  }

  function Mapped(entries: seq<Entry>, f: Entry -> Entry): (r: seq<Entry>)
    ensures |r| == |entries|
    ensures forall e :: 0 <= e < |entries| ==> r[e] == f(entries[e])
  {
    if entries == [] then []
    else Mapped(entries[..|entries| - 1], f) + [f(entries[|entries| - 1])]
  }

  function BreachesMarked(c: Comp): Comp {
    c.(entries := Mapped(c.entries, BreachMarked))
  }

  /** closeAndFreezeAccount: one transaction; a lock-out, a failed status guard or an error leaves the
      account as it was. */
  function Frozen(s: AccountState, e: nat, env: Env): AccountState {
    if s.status != Active || env.stuck(e) || Unsettleable(s.trades, env.value) then s
    else Liquidated(s, env.value).(status := Closed)
  }

  function WithAccount(c: Comp, e: nat, s: AccountState): Comp
    requires e < |c.entries|
  {
    c.(entries := c.entries[e := c.entries[e].(account := s)])
  }

  function CloseFrom(c: Comp, todo: seq<nat>, env: Env, left: nat): Progress
    requires Known(c, todo)
    decreases |todo|
  {
    if todo == [] then Alive(c, left)
    else if left == 0 then Crashed(c)
    else CloseFrom(WithAccount(c, todo[0], Frozen(c.entries[todo[0]].account, todo[0], env)), todo[1..], env, left - 1)
  }

  /** One line of the final board. */
  datatype Line = Line(entry: nat, rank: nat, usd: int, pct: int)

  function RowOf(c: Comp, e: nat): Ranking.Row
    requires e < |c.entries|
  {
    Ranking.Row(e, c.entries[e].account.start, c.entries[e].account.balance)
  }

  function Rows(c: Comp, order: seq<nat>): (rows: seq<Ranking.Row>)
    requires Known(c, order)
    ensures |rows| == |order|
  {
    seq(|order|, i requires 0 <= i < |order| => RowOf(c, order[i]))
  }

  /** The rankable rows in the order they are read. */
  function ReadOrder(c: Comp, env: Env): (order: seq<nat>)
    ensures Known(c, order) && Distinct(order)
    ensures forall e: nat :: e in order <==> e < |c.entries| && c.entries[e].status in {Competing, Ranked}
  {
    Listed(c, {Competing, Ranked}, env)
  }

  function LineAt(order: seq<nat>, rows: seq<Ranking.Row>, sorted: seq<nat>, i: nat): Line
    requires |order| == |rows| == |sorted| && i < |sorted| && sorted[i] < |order|
  {
    Line(order[sorted[i]], i + 1, Ranking.ProfitUsd(rows[sorted[i]]), Ranking.ProfitPct(rows[sorted[i]]))
  }

  /** The sorted list computeAndPersistRanking writes from. */
  function Board(c: Comp, env: Env): (board: seq<Line>)
    ensures |board| == |ReadOrder(c, env)|
    ensures forall i :: 0 <= i < |board| ==> board[i].rank == i + 1
    ensures forall i :: 0 <= i < |board| ==> board[i].entry in ReadOrder(c, env)
  {
    var order := ReadOrder(c, env);
    var rows := Rows(c, order);
    var sorted := Ranking.Sorted(c.metric, rows, |rows|);
    seq(|rows|, i requires 0 <= i < |rows| => LineAt(order, rows, sorted, i))
  }

  /** The UPDATE for one line; the correction path does not touch the status. */
  function Stamp(en: Entry, line: Line, final: bool): Entry {
    en.(status := if final then Ranked else en.status,
        rank := Some(line.rank), usd := line.usd, pct := line.pct)
  }

  predicate OnBoard(c: Comp, board: seq<Line>) {
    forall i :: 0 <= i < |board| ==> board[i].entry < |c.entries|
  }

  function WriteFrom(c: Comp, board: seq<Line>, i: nat, left: nat): Progress
    requires OnBoard(c, board) && i <= |board|
    decreases |board| - i
  {
    if i == |board| then Alive(c, left)
    else if left == 0 then Crashed(c)
    else
      var e := board[i].entry;
      WriteFrom(c.(entries := c.entries[e := Stamp(c.entries[e], board[i], true)]), board, i + 1, left - 1)
  }

  function HasVoucher(vouchers: seq<Voucher>, e: nat): bool {
    exists i :: 0 <= i < |vouchers| && vouchers[i].entry == e
  }

  /** This winner's rank carries a well-formed voucher and the winner has none yet. */
  predicate Due(c: Comp, e: nat)
    requires e < |c.entries|
  {
    && c.entries[e].rank.Some? && c.entries[e].rank.value in c.prizes && c.prizes[c.entries[e].rank.value]
    && !HasVoucher(c.vouchers, e)
  }

  const ATTEMPTS := 5

  /** The first of the remaining attempts whose code is not taken. */
  function FreeCode(taken: set<nat>, env: Env, e: nat, attempt: nat): Option<nat>
    decreases ATTEMPTS - attempt
  {
    if attempt >= ATTEMPTS then None
    else if env.code(e, attempt) !in taken then Some(env.code(e, attempt))
    else FreeCode(taken, env, e, attempt + 1)
  }

  function Issued(c: Comp, e: nat, code: nat): Comp {
    c.(vouchers := c.vouchers + [Voucher(e, code)], taken := c.taken + {code})
  }

  function IssueFrom(c: Comp, winners: seq<nat>, env: Env, left: nat): Progress
    requires Known(c, winners)
    decreases |winners|
  {
    if winners == [] then Alive(c, left)
    else if !Due(c, winners[0]) then IssueFrom(c, winners[1..], env, left)
    else
      match FreeCode(c.taken, env, winners[0], 0)
      case None => IssueFrom(c, winners[1..], env, left)
      case Some(code) =>
        if left == 0 then Crashed(c) else IssueFrom(Issued(c, winners[0], code), winners[1..], env, left - 1)
  }

  function Finalised(c: Comp, env: Env, left: nat): Progress {
    match CloseFrom(c, Listed(c, {Competing}, env), env, left)
    case Crashed(d) => Crashed(d)
    case Alive(d, l) => RankedAndPaid(d, env, l)
  }

  /** The part of finalisation after the accounts are closed. */
  function RankedAndPaid(c: Comp, env: Env, left: nat): Progress {
    match WriteFrom(c, Board(c, env), 0, left)
    case Crashed(d) => Crashed(d)
    case Alive(d, l) => CompletedAndPaid(d, env, l)
  }

  /** The status change, then the vouchers. */
  function CompletedAndPaid(c: Comp, env: Env, left: nat): Progress {
    match Wrote(c, c.(phase := Completed), left)
    case Crashed(d) => Crashed(d)
    case Alive(d, l) => IssueFrom(d, Listed(d, {Ranked}, env), env, l)
  }

  /** closeDueCompetitions. */
  function ClosedIfDue(c: Comp, env: Env, left: nat): Progress {
    if c.phase == Running && env.over then Finalised(c, env, left) else Alive(c, left)
  }

  /** runCompetitionEngine, as far as this competition is concerned. */
  function Tick(c: Comp, env: Env, left: nat): Progress {
    if left == 0 then Crashed(c)
    else if left == 1 then Crashed(Activated(c, env))
    else ClosedIfDue(BreachesMarked(Activated(c, env)), env, left - 2)
  }

  // ---------- Closed forms ----------

  /** The accounts of the entries in `done` frozen. */
  function FrozenIn(c: Comp, done: set<nat>, env: Env): (r: Comp)
    ensures |r.entries| == |c.entries| && r == c.(entries := r.entries)
    ensures forall e :: 0 <= e < |c.entries| ==> r.entries[e] == FrozenEntry(c.entries[e], e in done, e, env)
  {
    c.(entries := seq(|c.entries|, e requires 0 <= e < |c.entries| =>
        FrozenEntry(c.entries[e], e in done, e, env)))
  }

  function FrozenEntry(en: Entry, done: bool, e: nat, env: Env): Entry {
    if done then en.(account := Frozen(en.account, e, env)) else en
  }

  /** The first `n` lines of a board written. */
  function Stamped(c: Comp, board: seq<Line>, n: nat, final: bool): (r: Comp)
    requires OnBoard(c, board) && n <= |board|
    ensures |r.entries| == |c.entries| && r == c.(entries := r.entries)
  {
    if n == 0 then c
    else
      var d := Stamped(c, board, n - 1, final);
      var e := board[n - 1].entry;
      d.(entries := d.entries[e := Stamp(d.entries[e], board[n - 1], final)])
  }

  function Elements(s: seq<nat>): set<nat> {
    set e | e in s
  }

  lemma FreezeOne(c: Comp, done: set<nat>, e: nat, env: Env)
    requires e < |c.entries| && e !in done
    ensures var here := FrozenIn(c, done, env);
      WithAccount(here, e, Frozen(here.entries[e].account, e, env)) == FrozenIn(c, done + {e}, env)
  {
    var here := FrozenIn(c, done, env);
    var next := WithAccount(here, e, Frozen(here.entries[e].account, e, env));
    assert next.entries == FrozenIn(c, done + {e}, env).entries;
  }

  /** The first `n` of a list, or all of it. */
  function Prefix(list: seq<nat>, n: nat): set<nat> {
    Elements(list[..Min(n, |list|)])
  }

  /** Closing goes through, or stops after as many accounts as there were writes left; each account is
      untouched or frozen, and frozen at most once. */
  lemma {:induction false} CloseFromShape(c: Comp, done: set<nat>, todo: seq<nat>, env: Env, left: nat)
    requires Known(c, todo) && Distinct(todo) && forall e :: e in todo ==> e !in done
    ensures var p := CloseFrom(FrozenIn(c, done, env), todo, env, left);
      p.comp == FrozenIn(c, done + Prefix(todo, left), env) && (p.Alive? <==> left >= |todo|)
      && (p.Alive? ==> p.left == left - |todo|)
    decreases |todo|
  {
    hide FrozenIn, Frozen, Prefix;
    if todo == [] || left == 0 {
      PrefixOfNone(todo, left);
      assert done + {} == done;
    } else {
      var e, rest := todo[0], todo[1..];
      FreezeOne(c, done, e, env);
      PrefixCons(todo, left);
      assert Known(c, rest) && Distinct(rest);
      CloseFromShape(c, done + {e}, rest, env, left - 1);
      assert done + {e} + Prefix(rest, left - 1) == done + ({e} + Prefix(rest, left - 1));
    }
  }

  lemma PrefixOfNone(list: seq<nat>, n: nat)
    requires list == [] || n == 0
    ensures Prefix(list, n) == {}
  {
  }

  lemma PrefixCons(list: seq<nat>, n: nat)
    requires list != [] && n > 0
    ensures Prefix(list, n) == {list[0]} + Prefix(list[1..], n - 1)
    ensures Distinct(list) ==> list[0] !in list[1..]
  {
    var m := Min(n, |list|);
    assert list[..m] == [list[0]] + list[1..][..m - 1];
  }

  /** Rank writing goes through, or stops after as many lines as there were writes left. */
  lemma {:induction false} WriteFromShape(c: Comp, board: seq<Line>, i: nat, left: nat)
    requires OnBoard(c, board) && i <= |board|
    ensures var p := WriteFrom(Stamped(c, board, i, true), board, i, left);
      && p.comp == Stamped(c, board, Min(i + left, |board|), true)
      && (p.Alive? <==> left >= |board| - i) && (p.Alive? ==> p.left == left - (|board| - i))
    decreases |board| - i
  {
    if i < |board| && left > 0 {
      WriteFromShape(c, board, i + 1, left - 1);
    }
  }

  /** Lines name distinct entries. */
  predicate DistinctLines(board: seq<Line>) {
    forall i, j :: 0 <= i < j < |board| ==> board[i].entry != board[j].entry
  }

  lemma BoardIsDistinct(c: Comp, env: Env)
    ensures DistinctLines(Board(c, env)) && OnBoard(c, Board(c, env))
    ensures forall e: nat :: e in ReadOrder(c, env) ==> exists i :: 0 <= i < |Board(c, env)| && Board(c, env)[i].entry == e
  {
    var order := ReadOrder(c, env);
    var rows := Rows(c, order);
    var sorted := Ranking.Sorted(c.metric, rows, |rows|);
    var board := Board(c, env);
    forall i, j | 0 <= i < j < |board| ensures board[i].entry != board[j].entry {
      assert Ranking.Ahead(c.metric, rows, sorted[i], sorted[j]);
      assert sorted[i] != sorted[j];
    }
    forall e: nat | e in order ensures exists i :: 0 <= i < |board| && board[i].entry == e {
      var p :| 0 <= p < |order| && order[p] == e;
      assert p in sorted;
      var i :| 0 <= i < |sorted| && sorted[i] == p;
      assert board[i].entry == e;
    }
  }

  /** Pointwise reading of a written board. */
  lemma {:induction false} StampedAt(c: Comp, board: seq<Line>, n: nat, final: bool)
    requires OnBoard(c, board) && n <= |board| && DistinctLines(board)
    ensures var r := Stamped(c, board, n, final);
      && (forall i :: 0 <= i < n ==> r.entries[board[i].entry] == Stamp(c.entries[board[i].entry], board[i], final))
      && (forall e :: 0 <= e < |c.entries| && (forall i :: 0 <= i < n ==> board[i].entry != e) ==> r.entries[e] == c.entries[e])
  {
    if n > 0 {
      StampedAt(c, board, n - 1, final);
    }
  }

  // ---------- Everything else that happens to a competition ----------

  datatype Event =
    | TickAt(env: Env, crashAfter: nat)
    | Join(start: int, maxDrawdownPct: real, dailyDrawdownPct: Option<real>)
    | AccountEvent(entry: nat, op: CapitalRuns.Op)
    | Disqualify(entry: nat, crashAfter: nat)
    | WithdrawBot(entry: nat, crashAfter: nat)
    | Cancel(crashAfter: nat)
    | CorrectBalance(entry: nat, amount: int, env: Env)

  function Joined(start: int, maxDrawdownPct: real, dailyDrawdownPct: Option<real>): Entry {
    Entry(Competing,
          AccountState(Competition, Active, start, start, start, None, None, maxDrawdownPct,
                       dailyDrawdownPct, 0, 0, 1.0, [], []),
          None, 0, 0)
  }

  function WithEntry(c: Comp, e: nat, en: Entry): Comp
    requires e < |c.entries|
  {
    c.(entries := c.entries[e := en])
  }

  /** Two statements without a transaction: the entry's status, then its account's. */
  function TakenOut(c: Comp, e: nat, status: EntryStatus, account: Status, crashAfter: nat): Comp {
    if e >= |c.entries| || c.entries[e].status != Competing || crashAfter == 0 then c
    else
      var en := c.entries[e].(status := status);
      if crashAfter == 1 then WithEntry(c, e, en)
      else WithEntry(c, e, en.(account := en.account.(status := account)))
  }

  function WithdrawnEntry(en: Entry): Entry {
    if en.status == Competing then en.(status := Withdrawn) else en
  }

  function CancelledEntry(en: Entry): Entry {
    if en.account.status == Active then en.(account := en.account.(status := Status.Cancelled)) else en
  }

  /** Three statements without a transaction. */
  function Cancelled(c: Comp, crashAfter: nat): Comp {
    if c.phase !in {Upcoming, Running} || crashAfter == 0 then c
    else
      var c1 := c.(phase := CalledOff);
      if crashAfter == 1 then c1
      else
        var c2 := c1.(entries := Mapped(c1.entries, WithdrawnEntry));
        if crashAfter == 2 then c2 else c2.(entries := Mapped(c2.entries, CancelledEntry))
  }

  /** The correction handler: one transaction for the ledger row and, once completed, the re-rank. */
  function Corrected(c: Comp, e: nat, amount: int, env: Env): Comp {
    if c.phase !in {Running, Completed} || e >= |c.entries| || amount == 0 then c
    else
      var d := WithAccount(c, e, Adjusted(c.entries[e].account, amount, CheatCorrection));
      if c.phase == Completed then Reranked(d, env) else d
  }

  function Reranked(c: Comp, env: Env): Comp {
    BoardIsDistinct(c, env);
    Stamped(c, Board(c, env), |Board(c, env)|, false)
  }

  function Next(c: Comp, ev: Event): Comp {
    match ev
    case TickAt(env, crashAfter) => Tick(c, env, crashAfter).comp
    case Join(start, maxPct, dailyPct) =>
      if c.phase in {Upcoming, Running} then c.(entries := c.entries + [Joined(start, maxPct, dailyPct)]) else c
    case AccountEvent(e, op) =>
      if e < |c.entries| then WithAccount(c, e, CapitalRuns.Step(c.entries[e].account, op)) else c
    case Disqualify(e, crashAfter) => TakenOut(c, e, Disqualified, Failed, crashAfter)
    case WithdrawBot(e, crashAfter) => TakenOut(c, e, Withdrawn, Status.Cancelled, crashAfter)
    case Cancel(crashAfter) => Cancelled(c, crashAfter)
    case CorrectBalance(e, amount, env) => Corrected(c, e, amount, env)
  }

  function Run(c: Comp, events: seq<Event>): Comp {
    if events == [] then c else Next(Run(c, events[..|events| - 1]), events[|events| - 1])
  }

  // ---------- What every run keeps ----------

  predicate AccountsSound(c: Comp) {
    forall e :: 0 <= e < |c.entries| ==> Conserved(c.entries[e].account) && PeakHolds(c.entries[e].account)
  }

  /** At most one voucher per entry, each with its own code, and none before completion. */
  predicate VouchersSound(c: Comp) {
    && (c.vouchers != [] ==> c.phase == Completed)
    && (forall i :: 0 <= i < |c.vouchers| ==> c.vouchers[i].entry < |c.entries| && c.vouchers[i].code in c.taken)
    && (forall i, j :: 0 <= i < j < |c.vouchers| ==>
         c.vouchers[i].entry != c.vouchers[j].entry && c.vouchers[i].code != c.vouchers[j].code)
  }

  /** `board` lists exactly the ranked entries, in rank order from 1. */
  predicate IsBoard(entries: seq<Entry>, board: seq<nat>) {
    && Distinct(board)
    && (forall i :: 0 <= i < |board| ==>
         board[i] < |entries| && entries[board[i]].status == Ranked && entries[board[i]].rank == Some(i + 1))
    && (forall e :: 0 <= e < |entries| ==> entries[e].status == Ranked ==> e in board)
  }

  /** The final ranks are exactly 1..n over the ranked entries, and nobody is left competing. */
  ghost predicate FinalRanks(entries: seq<Entry>) {
    && (forall e :: 0 <= e < |entries| ==> entries[e].status != Competing)
    && exists board :: IsBoard(entries, board)
  }

  ghost predicate Sound(c: Comp) {
    AccountsSound(c) && VouchersSound(c) && (c.phase == Completed ==> FinalRanks(c.entries))
  }

  lemma FrozenKeeps(s: AccountState, e: nat, env: Env)
    ensures Conserved(s) ==> Conserved(Frozen(s, e, env))
    ensures PeakHolds(s) ==> PeakHolds(Frozen(s, e, env))
  {
    LiquidationSettles(s, env.value);
  }

  lemma FrozenInKeeps(c: Comp, done: set<nat>, env: Env)
    requires AccountsSound(c)
    ensures AccountsSound(FrozenIn(c, done, env))
  {
    forall e: nat | e < |c.entries|
      ensures Conserved(FrozenIn(c, done, env).entries[e].account) && PeakHolds(FrozenIn(c, done, env).entries[e].account)
    {
      FrozenKeeps(c.entries[e].account, e, env);
    }
  }

  lemma {:induction false} StampedFrame(c: Comp, board: seq<Line>, n: nat, final: bool)
    requires OnBoard(c, board) && n <= |board|
    ensures forall e :: 0 <= e < |c.entries| ==>
      var r := Stamped(c, board, n, final).entries[e];
      r.account == c.entries[e].account && (!final ==> r.status == c.entries[e].status)
  {
    if n > 0 {
      StampedFrame(c, board, n - 1, final);
    }
  }

  function EntriesOf(board: seq<Line>): (r: seq<nat>)
    ensures |r| == |board| && forall i :: 0 <= i < |board| ==> r[i] == board[i].entry
  {
    seq(|board|, i requires 0 <= i < |board| => board[i].entry)
  }

  predicate Covers(entries: seq<Entry>, board: seq<Line>) {
    && (forall i :: 0 <= i < |board| ==>
         && board[i].rank == i + 1 && board[i].entry < |entries|
         && entries[board[i].entry].status in {Competing, Ranked})
    && (forall e :: 0 <= e < |entries| && entries[e].status in {Competing, Ranked} ==> e in EntriesOf(board))
  }

  lemma BoardCovers(c: Comp, env: Env)
    ensures Covers(c.entries, Board(c, env)) && DistinctLines(Board(c, env)) && OnBoard(c, Board(c, env))
  {
    BoardIsDistinct(c, env);
    var board := Board(c, env);
    forall e: nat | e in ReadOrder(c, env) ensures e in EntriesOf(board) {
      var i :| 0 <= i < |board| && board[i].entry == e;
      assert EntriesOf(board)[i] == e;
    }
    forall i | 0 <= i < |board| ensures c.entries[board[i].entry].status in {Competing, Ranked} {
      assert board[i].entry in ReadOrder(c, env);
    }
  }

  lemma WholeBoardWritten(c: Comp, board: seq<Line>, final: bool)
    requires Covers(c.entries, board) && DistinctLines(board) && OnBoard(c, board)
    requires final || forall e :: 0 <= e < |c.entries| ==> c.entries[e].status != Competing
    ensures FinalRanks(Stamped(c, board, |board|, final).entries)
  {
    var r, ids := Stamped(c, board, |board|, final), EntriesOf(board);
    StampedAt(c, board, |board|, final);
    assert forall i :: 0 <= i < |board| ==> board[i].entry == ids[i] && ids[i] in ids;
    hide Stamped, EntriesOf;
    forall e: nat | e < |r.entries|
      ensures r.entries[e].status != Competing && (r.entries[e].status == Ranked ==> e in ids)
    {
      if e in ids {
        var i :| 0 <= i < |ids| && ids[i] == e;
        assert board[i].entry == e;
      }
    }
    assert IsBoard(r.entries, ids);
  }

  /** Writing the whole board ranks every rankable entry; with `final` they all become 'completed'. */
  lemma WholeBoard(c: Comp, env: Env, final: bool)
    requires final || forall e :: 0 <= e < |c.entries| ==> c.entries[e].status != Competing
    ensures OnBoard(c, Board(c, env))
    ensures FinalRanks(Stamped(c, Board(c, env), |Board(c, env)|, final).entries)
  {
    BoardCovers(c, env);
    WholeBoardWritten(c, Board(c, env), final);
  }

  /** Issuing vouchers changes nothing else, and keeps one per entry with a code of its own. */
  lemma {:induction false} IssueKeeps(c: Comp, winners: seq<nat>, env: Env, left: nat)
    requires Known(c, winners) && VouchersSound(c) && c.phase == Completed
    ensures var r := IssueFrom(c, winners, env, left).comp;
      VouchersSound(r) && r == c.(vouchers := r.vouchers, taken := r.taken)
    decreases |winners|
  {
    if winners != [] {
      var e := winners[0];
      if !Due(c, e) || FreeCode(c.taken, env, e, 0).None? {
        IssueKeeps(c, winners[1..], env, left);
      } else if left > 0 {
        var code := FreeCode(c.taken, env, e, 0).value;
        FreeCodeIsFree(c.taken, env, e, 0);
        IssueKeeps(Issued(c, e, code), winners[1..], env, left - 1);
      }
    }
  }

  lemma {:induction false} FreeCodeIsFree(taken: set<nat>, env: Env, e: nat, attempt: nat)
    ensures FreeCode(taken, env, e, attempt).Some? ==> FreeCode(taken, env, e, attempt).value !in taken
    ensures FreeCode(taken, env, e, attempt).None? <==>
      forall k: nat :: attempt <= k < ATTEMPTS ==> env.code(e, k) in taken
    decreases ATTEMPTS - attempt
  {
    if attempt < ATTEMPTS {
      FreeCodeIsFree(taken, env, e, attempt + 1);
    }
  }

  lemma CompletedAndPaidKeeps(c: Comp, env: Env, left: nat)
    requires AccountsSound(c) && c.vouchers == [] && FinalRanks(c.entries) && c.phase != Completed
    ensures Sound(CompletedAndPaid(c, env, left).comp)
  {
    if left > 0 {
      var f := c.(phase := Completed);
      IssueKeeps(f, Listed(f, {Ranked}, env), env, left - 1);
    }
  }

  lemma StampedKeeps(c: Comp, board: seq<Line>, n: nat, final: bool)
    requires AccountsSound(c) && OnBoard(c, board) && n <= |board|
    ensures AccountsSound(Stamped(c, board, n, final))
  {
    StampedFrame(c, board, n, final);
  }

  lemma RankedAndPaidKeeps(c: Comp, env: Env, left: nat)
    requires AccountsSound(c) && c.vouchers == [] && c.phase != Completed
    ensures Sound(RankedAndPaid(c, env, left).comp)
  {
    hide Board, FinalRanks, AccountsSound, WriteFrom, CompletedAndPaid;
    WholeBoard(c, env, true);
    var board := Board(c, env);
    WriteFromShape(c, board, 0, left);
    StampedKeeps(c, board, Min(left, |board|), true);
    var p := WriteFrom(c, board, 0, left);
    if p.Alive? {
      CompletedAndPaidKeeps(p.comp, env, p.left);
    }
  }

  lemma FinalisedKeeps(c: Comp, env: Env, left: nat)
    requires Sound(c) && c.phase == Running
    ensures Sound(Finalised(c, env, left).comp)
  {
    var todo := Listed(c, {Competing}, env);
    assert FrozenIn(c, {}, env).entries == c.entries;
    CloseFromShape(c, {}, todo, env, left);
    FrozenInKeeps(c, {} + Prefix(todo, left), env);
    var p := CloseFrom(c, todo, env, left);
    if p.Alive? {
      RankedAndPaidKeeps(p.comp, env, p.left);
    }
  }

  lemma BreachesMarkedKeeps(c: Comp)
    requires Sound(c)
    ensures Sound(BreachesMarked(c))
    ensures c.phase == Completed ==> BreachesMarked(c) == c
  {
    if c.phase == Completed {
      assert BreachesMarked(c).entries == c.entries;
    }
  }

  lemma ClosedIfDueKeeps(c: Comp, env: Env, left: nat)
    requires Sound(c)
    ensures Sound(ClosedIfDue(c, env, left).comp)
  {
    if c.phase == Running && env.over {
      FinalisedKeeps(c, env, left);
    }
  }

  lemma ActivatedKeeps(c: Comp, env: Env)
    requires Sound(c)
    ensures Sound(Activated(c, env))
  {
  }

  lemma TickKeeps(c: Comp, env: Env, left: nat)
    requires Sound(c)
    ensures Sound(Tick(c, env, left).comp)
  {
    hide Sound, ClosedIfDue;
    ActivatedKeeps(c, env);
    if left > 1 {
      BreachesMarkedKeeps(Activated(c, env));
      ClosedIfDueKeeps(BreachesMarked(Activated(c, env)), env, left - 2);
    }
  }

  lemma RerankedKeeps(c: Comp, env: Env)
    requires AccountsSound(c) && VouchersSound(c)
    requires forall e :: 0 <= e < |c.entries| ==> c.entries[e].status != Competing
    ensures Sound(Reranked(c, env))
  {
    WholeBoard(c, env, false);
    StampedKeeps(c, Board(c, env), |Board(c, env)|, false);
  }

  lemma NobodyCompeting(c: Comp)
    requires FinalRanks(c.entries)
    ensures forall e :: 0 <= e < |c.entries| ==> c.entries[e].status != Competing
  {
  }

  lemma CorrectedKeeps(c: Comp, e: nat, amount: int, env: Env)
    requires Sound(c)
    ensures Sound(Corrected(c, e, amount, env))
  {
    hide FinalRanks, Reranked, Conserved, PeakHolds, Adjusted;
    if c.phase in {Running, Completed} && e < |c.entries| && amount != 0 {
      var s := Adjusted(c.entries[e].account, amount, CheatCorrection);
      AdjustedConserves(c.entries[e].account, amount, CheatCorrection);
      WithAccountKeeps(c, e, s);
      if c.phase == Completed {
        NobodyCompeting(c);
        RerankedKeeps(WithAccount(c, e, s), env);
      }
    }
  }

  lemma WithAccountKeeps(c: Comp, e: nat, s: AccountState)
    requires AccountsSound(c) && VouchersSound(c) && e < |c.entries| && Conserved(s) && PeakHolds(s)
    ensures AccountsSound(WithAccount(c, e, s)) && VouchersSound(WithAccount(c, e, s))
  {
    hide Conserved, PeakHolds;
  }

  lemma SameStandings(c: Comp, d: Comp)
    requires c.phase == Completed ==> FinalRanks(c.entries)
    requires |d.entries| == |c.entries| && d.phase == c.phase
    requires forall e :: 0 <= e < |c.entries| ==>
      d.entries[e].status == c.entries[e].status && d.entries[e].rank == c.entries[e].rank
    ensures d.phase == Completed ==> FinalRanks(d.entries)
  {
    if c.phase == Completed {
      var board :| IsBoard(c.entries, board);
      assert IsBoard(d.entries, board);
    }
  }

  lemma TakenOutKeeps(c: Comp, e: nat, status: EntryStatus, account: Status, crashAfter: nat)
    requires Sound(c)
    ensures Sound(TakenOut(c, e, status, account, crashAfter))
  {
  }

  lemma AccountEventKeeps(c: Comp, e: nat, op: CapitalRuns.Op)
    requires Sound(c)
    ensures Sound(Next(c, AccountEvent(e, op)))
  {
    if e < |c.entries| {
      CapitalRuns.StepKeeps(c.entries[e].account, op);
      SameStandings(c, WithAccount(c, e, CapitalRuns.Step(c.entries[e].account, op)));
    }
  }

  lemma JoinKeeps(c: Comp, en: Entry)
    requires Sound(c) && c.phase in {Upcoming, Running}
    requires Conserved(en.account) && PeakHolds(en.account)
    ensures Sound(c.(entries := c.entries + [en]))
  {
  }

  lemma CancelledKeeps(c: Comp, crashAfter: nat)
    requires Sound(c)
    ensures Sound(Cancelled(c, crashAfter))
  {
    hide FinalRanks, Conserved, PeakHolds, WithdrawnEntry;
    var c1 := c.(phase := CalledOff);
    var c2 := c1.(entries := Mapped(c1.entries, WithdrawnEntry));
    assert forall e :: 0 <= e < |c.entries| ==> c2.entries[e].account == c.entries[e].account by {
      WithdrawnKeepsAccounts(c.entries);
    }
    if c.phase in {Upcoming, Running} && crashAfter > 2 {
      CancelledAccountsKeep(c2);
    }
  }

  lemma WithdrawnKeepsAccounts(entries: seq<Entry>)
    ensures forall e :: 0 <= e < |entries| ==> Mapped(entries, WithdrawnEntry)[e].account == entries[e].account
  {
  }

  lemma CancelledAccountsKeep(c: Comp)
    requires AccountsSound(c)
    ensures AccountsSound(c.(entries := Mapped(c.entries, CancelledEntry)))
  {
  }

  lemma NextKeeps(c: Comp, ev: Event)
    requires Sound(c)
    ensures Sound(Next(c, ev))
  {
    hide Sound, Tick, TakenOut, Cancelled, Corrected;
    match ev
    case TickAt(env, crashAfter) => TickKeeps(c, env, crashAfter);
    case Join(start, maxPct, dailyPct) =>
      if c.phase in {Upcoming, Running} {
        JoinKeeps(c, Joined(start, maxPct, dailyPct));
      }
    case AccountEvent(e, op) => AccountEventKeeps(c, e, op);
    case Disqualify(e, crashAfter) => TakenOutKeeps(c, e, Disqualified, Failed, crashAfter);
    case WithdrawBot(e, crashAfter) => TakenOutKeeps(c, e, Withdrawn, Status.Cancelled, crashAfter);
    case Cancel(crashAfter) => CancelledKeeps(c, crashAfter);
    case CorrectBalance(e, amount, env) => CorrectedKeeps(c, e, amount, env);
  }

  predicate Opening(c: Comp) {
    c.phase == Upcoming && c.entries == [] && c.vouchers == []
  }

  /** Over every series of ticks (each crashing before any write, or not at all), joins, account
      events, disqualifications, withdrawals, cancellations and corrections: each account's balance
      counts each of its trades exactly once, no entry holds two vouchers, no two vouchers share a
      code, none exists before completion, and once completed the ranks are exactly 1..n. */
  lemma {:induction false} EveryRunIsSound(c: Comp, events: seq<Event>)
    requires Opening(c)
    ensures Sound(Run(c, events))
  {
    if events != [] {
      EveryRunIsSound(c, events[..|events| - 1]);
      NextKeeps(Run(c, events[..|events| - 1]), events[|events| - 1]);
    }
  }

  // ---------- The lifecycle ----------

  lemma FinalisedPhase(c: Comp, env: Env, left: nat)
    requires c.phase == Running
    ensures var p := Finalised(c, env, left);
      && p.comp.phase in {Running, Completed}
      && (p.Alive? ==> p.comp.phase == Completed)
      && (p.comp.phase == Running ==> p.comp.vouchers == c.vouchers)
  {
    var todo := Listed(c, {Competing}, env);
    assert FrozenIn(c, {}, env).entries == c.entries;
    CloseFromShape(c, {}, todo, env, left);
    var p := CloseFrom(c, todo, env, left);
    if p.Alive? {
      RankedAndPaidPhase(p.comp, env, p.left);
    }
  }

  lemma RankedAndPaidPhase(c: Comp, env: Env, left: nat)
    ensures var p := RankedAndPaid(c, env, left);
      && p.comp.phase in {c.phase, Completed}
      && (p.Alive? ==> p.comp.phase == Completed)
      && (p.comp.phase != Completed ==> p.comp.vouchers == c.vouchers)
  {
    BoardCovers(c, env);
    WriteFromShape(c, Board(c, env), 0, left);
    var p := WriteFrom(c, Board(c, env), 0, left);
    if p.Alive? {
      CompletedAndPaidPhase(p.comp, env, p.left);
    }
  }

  lemma CompletedAndPaidPhase(c: Comp, env: Env, left: nat)
    ensures var p := CompletedAndPaid(c, env, left);
      && p.comp.phase in {c.phase, Completed}
      && (p.Alive? ==> p.comp.phase == Completed)
      && (p.comp.phase != Completed ==> p.comp.vouchers == c.vouchers)
  {
    if left > 0 {
      var f := c.(phase := Completed);
      IssueFrame(f, Listed(f, {Ranked}, env), env, left - 1);
    }
  }

  lemma {:induction false} IssueFrame(c: Comp, winners: seq<nat>, env: Env, left: nat)
    requires Known(c, winners)
    ensures var r := IssueFrom(c, winners, env, left).comp;
      r == c.(vouchers := r.vouchers, taken := r.taken) && c.vouchers <= r.vouchers
    decreases |winners|
  {
    if winners != [] {
      var e := winners[0];
      if !Due(c, e) || FreeCode(c.taken, env, e, 0).None? {
        IssueFrame(c, winners[1..], env, left);
      } else if left > 0 {
        IssueFrame(Issued(c, e, FreeCode(c.taken, env, e, 0).value), winners[1..], env, left - 1);
      }
    }
  }

  function Level(phase: Phase): nat {
    match phase
    case Upcoming => 0
    case Running => 1
    case Completed => 2
    case CalledOff => 2
  }

  /** The phase only moves upcoming, active, completed or cancelled, and the last two are final. Once
      completed, no event issues another voucher and no tick changes anything. */
  lemma PhaseMovesForward(c: Comp, ev: Event)
    requires Sound(c)
    ensures Level(Next(c, ev).phase) >= Level(c.phase)
    ensures Level(c.phase) == 2 ==> Next(c, ev).phase == c.phase && Next(c, ev).vouchers == c.vouchers
    ensures c.phase == Completed && ev.TickAt? ==> Next(c, ev) == c
  {
    hide Tick, Sound;
    match ev {
      case TickAt(env, crashAfter) => TickPhase(c, env, crashAfter);
      case _ =>
    }
  }

  lemma TickPhase(c: Comp, env: Env, left: nat)
    requires Sound(c)
    ensures var d := Tick(c, env, left).comp;
      && Level(d.phase) >= Level(c.phase)
      && (Level(c.phase) == 2 ==> d.phase == c.phase && d.vouchers == c.vouchers)
      && (c.phase == Completed ==> d == c)
  {
    hide Sound, ClosedIfDue, BreachesMarked, Activated;
    ActivatedPhase(c, env);
    if left > 1 {
      ClosedIfDuePhase(BreachesMarked(Activated(c, env)), env, left - 2);
    }
  }

  lemma ActivatedPhase(c: Comp, env: Env)
    requires Sound(c)
    ensures var a := Activated(c, env);
      && (a.phase == c.phase || (c.phase == Upcoming && a.phase == Running))
      && BreachesMarked(a).phase == a.phase
      && (c.phase != Upcoming ==> a == c)
      && (c.phase == CalledOff ==> BreachesMarked(a).vouchers == c.vouchers)
      && (c.phase == Completed ==> BreachesMarked(a) == c)
  {
    hide Sound;
    if c.phase == Completed {
      BreachesMarkedKeeps(c);
    }
  }

  lemma ClosedIfDuePhase(c: Comp, env: Env, left: nat)
    ensures var d := ClosedIfDue(c, env, left).comp;
      (c.phase != Running ==> d == c) && d.phase in {c.phase, Completed}
  {
    hide Finalised;
    if c.phase == Running && env.over {
      FinalisedPhase(c, env, left);
    }
  }

  lemma MarkedFrame(c: Comp)
    ensures BreachesMarked(c) == c.(entries := BreachesMarked(c).entries)
  {
  }

  /** A crash after the competition was marked completed loses the vouchers not yet issued for good:
      whatever happens later, they stay what they were. */
  lemma {:induction false} VouchersNowOrNever(c: Comp, events: seq<Event>)
    requires Sound(c) && c.phase == Completed
    ensures Run(c, events).vouchers == c.vouchers && Run(c, events).phase == Completed && Sound(Run(c, events))
  {
    if events != [] {
      VouchersNowOrNever(c, events[..|events| - 1]);
      PhaseMovesForward(Run(c, events[..|events| - 1]), events[|events| - 1]);
      NextKeeps(Run(c, events[..|events| - 1]), events[|events| - 1]);
    }
  }
}
