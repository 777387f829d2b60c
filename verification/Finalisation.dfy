/** What an uncrashed closing tick leaves behind, and why retrying after a crash leaves the same. */
module Finalisation {
  import opened Options
  import opened Arithmetic
  import opened Capital
  import opened Sequences
  import opened Competitions
  import Ranking

  // ---------- The result in closed form ----------

  function Candidates(c: Comp): (r: set<nat>)
    ensures forall e: nat :: e in r <==> e < |c.entries| && c.entries[e].status == Competing
  {
    Elements(Select(c.entries, {Competing}))
  }

  function ClosedAll(c: Comp, env: Env): Comp {
    FrozenIn(c, Candidates(c), env)
  }

  function BoardWritten(c: Comp, env: Env, n: nat): Comp
    requires n <= |Board(c, env)|
  {
    BoardCovers(c, env);
    Stamped(c, Board(c, env), n, true)
  }

  /** Accounts closed, ranks written, status set: the state vouchers are issued from. */
  function Standings(c: Comp, env: Env): Comp {
    var d := ClosedAll(c, env);
    BoardWritten(d, env, |Board(d, env)|).(phase := Completed)
  }

  lemma CloseShape(c: Comp, env: Env, left: nat)
    ensures var todo := Listed(c, {Competing}, env);
      var p := CloseFrom(c, todo, env, left);
      && Prefix(todo, left) <= Candidates(c) && p.comp == FrozenIn(c, Prefix(todo, left), env)
      && (p.Alive? <==> left >= |todo|) && (p.Alive? ==> p.comp == ClosedAll(c, env) && p.left == left - |todo|)
  {
    var todo := Listed(c, {Competing}, env);
    assert FrozenIn(c, {}, env) == c by {
      assert FrozenIn(c, {}, env).entries == c.entries;
    }
    ListedCandidates(c, env, left);
    hide FrozenIn, Prefix, Listed, CloseFrom, Candidates;
    CloseFromShape(c, {}, todo, env, left);
    assert {} + Prefix(todo, left) == Prefix(todo, left);
  }

  lemma ListedCandidates(c: Comp, env: Env, left: nat)
    ensures var todo := Listed(c, {Competing}, env);
      Prefix(todo, left) <= Candidates(c) && (left >= |todo| ==> Prefix(todo, left) == Candidates(c))
  {
    var todo := Listed(c, {Competing}, env);
    assert forall i :: 0 <= i < |todo| ==> todo[i] in todo;
    assert todo[..|todo|] == todo;
  }

  lemma WriteShape(c: Comp, env: Env, left: nat)
    requires OnBoard(c, Board(c, env))
    ensures var n := |Board(c, env)|;
      var p := WriteFrom(c, Board(c, env), 0, left);
      && p.comp == BoardWritten(c, env, Min(left, n))
      && (p.Alive? <==> left >= n) && (p.Alive? ==> p.left == left - n)
  {
    WriteFromShape(c, Board(c, env), 0, left);
  }

  lemma {:induction false} IssueKeepsPhase(c: Comp, winners: seq<nat>, env: Env, left: nat)
    requires Known(c, winners) && c.phase == Completed
    ensures IssueFrom(c, winners, env, left).comp.phase == Completed
  {
    IssueFrame(c, winners, env, left);
  }

  /** Where a closing tick has got to when it ends: some accounts closed; all closed and some ranks
      written; or the standings complete and vouchers being issued. */
  datatype Reached = Closing(done: set<nat>) | Writing(lines: nat) | Issuing(left: nat)

  ghost predicate At(c: Comp, env: Env, p: Progress, r: Reached) {
    match r
    case Closing(done) => p.Crashed? && done <= Candidates(c) && p.comp == FrozenIn(c, done, env)
    case Writing(n) =>
      p.Crashed? && n <= |Board(ClosedAll(c, env), env)| && p.comp == BoardWritten(ClosedAll(c, env), env, n)
    case Issuing(left) =>
      p == IssueFrom(Standings(c, env), Listed(Standings(c, env), {Ranked}, env), env, left)
  }

  /** The writes of a closing tick before its vouchers: closed accounts, ranks, the status. */
  function Writes(b: Comp, env: Env): nat {
    |Listed(b, {Competing}, env)| + |Board(ClosedAll(b, env), env)| + 1
  }

  function ReachedAfter(b: Comp, env: Env, left: nat): Reached {
    var todo := Listed(b, {Competing}, env);
    if left < |todo| then Closing(Prefix(todo, left))
    else if left < Writes(b, env) then Writing(left - |todo|)
    else Issuing(left - Writes(b, env))
  }

  lemma FinalisedShape(c: Comp, env: Env, left: nat)
    ensures At(c, env, Finalised(c, env, left), ReachedAfter(c, env, left))
    ensures Finalised(c, env, left).Alive? ==> ReachedAfter(c, env, left).Issuing?
  {
    hide FrozenIn, Board, Stamped, IssueFrom, CloseFrom, WriteFrom, Listed, Prefix;
    CloseShape(c, env, left);
    var p := CloseFrom(c, Listed(c, {Competing}, env), env, left);
    if p.Alive? {
      var d := ClosedAll(c, env);
      BoardCovers(d, env);
      WriteShape(d, env, p.left);
    }
  }

  // ---------- A retry leads to the same standings ----------

  /** No competing entry is on a failed account: breaches have been marked. */
  predicate NoBreach(c: Comp) {
    forall e :: 0 <= e < |c.entries| ==> !(c.entries[e].status == Competing && c.entries[e].account.status == Failed)
  }

  lemma MarkedNoBreach(c: Comp)
    ensures NoBreach(BreachesMarked(c))
    ensures NoBreach(c) ==> BreachesMarked(c) == c
  {
    if NoBreach(c) {
      assert BreachesMarked(c).entries == c.entries;
    }
  }

  lemma FreezingIsOnce(c: Comp, done: set<nat>, env: Env)
    requires done <= Candidates(c)
    ensures ClosedAll(FrozenIn(c, done, env), env) == ClosedAll(c, env)
    ensures NoBreach(c) ==> NoBreach(FrozenIn(c, done, env))
  {
    var d := FrozenIn(c, done, env);
    assert ClosedAll(d, env).entries == ClosedAll(c, env).entries;
  }

  /** Some ranks written over closed accounts: same accounts, and who was competing or ranked still is. */
  predicate PartlyRanked(d: Comp, r: Comp) {
    && r == d.(entries := r.entries) && |r.entries| == |d.entries|
    && forall e :: 0 <= e < |d.entries| ==>
         && r.entries[e].account == d.entries[e].account
         && (r.entries[e].status in {Competing, Ranked} <==> d.entries[e].status in {Competing, Ranked})
         && (r.entries[e].status == Competing ==> d.entries[e].status == Competing)
  }

  lemma PartlyWritten(d: Comp, env: Env, n: nat)
    requires n <= |Board(d, env)|
    ensures PartlyRanked(d, BoardWritten(d, env, n))
  {
    BoardCovers(d, env);
    var board := Board(d, env);
    StampedAt(d, board, n, true);
    StampedFrame(d, board, n, true);
    var r := BoardWritten(d, env, n);
    forall e | 0 <= e < |d.entries|
      ensures r.entries[e].status in {Competing, Ranked} <==> d.entries[e].status in {Competing, Ranked}
      ensures r.entries[e].status == Competing ==> d.entries[e].status == Competing
    {
      if exists i :: 0 <= i < n && board[i].entry == e {
        var i :| 0 <= i < n && board[i].entry == e;
        assert r.entries[board[i].entry].status == Ranked;
      }
    }
  }

  lemma {:induction false} SelectSame(a: seq<Entry>, b: seq<Entry>, statuses: set<EntryStatus>)
    requires |a| == |b| && forall e :: 0 <= e < |a| ==> (a[e].status in statuses <==> b[e].status in statuses)
    ensures Select(a, statuses) == Select(b, statuses)
  {
    if a != [] {
      SelectSame(a[..|a| - 1], b[..|b| - 1], statuses);
    }
  }

  lemma BoardSame(d: Comp, r: Comp, env: Env)
    requires PartlyRanked(d, r)
    ensures Board(r, env) == Board(d, env)
  {
    SelectSame(d.entries, r.entries, {Competing, Ranked});
    var order := ReadOrder(d, env);
    assert ReadOrder(r, env) == order;
    assert Rows(r, order) == Rows(d, order);
  }

  lemma ClosingAgainDoesNothing(c: Comp, r: Comp, env: Env)
    requires PartlyRanked(ClosedAll(c, env), r)
    ensures ClosedAll(r, env) == r
  {
    assert ClosedAll(r, env).entries == r.entries;
  }

  /** Writing a whole board over a partly written one gives the same entries. */
  lemma WritingAgain(d: Comp, env: Env, n: nat)
    requires n <= |Board(d, env)|
    ensures var r := BoardWritten(d, env, n);
      Board(r, env) == Board(d, env) && BoardWritten(r, env, |Board(d, env)|) == BoardWritten(d, env, |Board(d, env)|)
  {
    var r := BoardWritten(d, env, n);
    PartlyWritten(d, env, n);
    BoardSame(d, r, env);
    var board := Board(d, env);
    BoardCovers(d, env);
    StampedAt(d, board, n, true);
    forall i | 0 <= i < |board| ensures OldOrStamped(d, r, board[i]) {
    }
    forall e: nat | e < |d.entries| && e !in EntriesOf(board) ensures r.entries[e] == d.entries[e] {
      assert forall i :: 0 <= i < |board| ==> EntriesOf(board)[i] in EntriesOf(board);
    }
    OverWritten(d, r, board);
  }

  /** The entry of a line is as it was, or already carries the line. */
  predicate OldOrStamped(d: Comp, r: Comp, line: Line)
    requires line.entry < |d.entries| && line.entry < |r.entries|
  {
    || r.entries[line.entry] == d.entries[line.entry]
    || r.entries[line.entry] == Stamp(d.entries[line.entry], line, true)
  }

  lemma OverWritten(d: Comp, r: Comp, board: seq<Line>)
    requires OnBoard(d, board) && DistinctLines(board) && r == d.(entries := r.entries) && |r.entries| == |d.entries|
    requires forall i :: 0 <= i < |board| ==> OldOrStamped(d, r, board[i])
    requires forall e: nat :: e < |d.entries| && e !in EntriesOf(board) ==> r.entries[e] == d.entries[e]
    ensures Stamped(r, board, |board|, true) == Stamped(d, board, |board|, true)
  {
    hide Stamped, DistinctLines, OldOrStamped;
    var x, y := Stamped(r, board, |board|, true), Stamped(d, board, |board|, true);
    forall e: nat | e < |d.entries| ensures x.entries[e] == y.entries[e] {
      OverWrittenAt(d, r, board, e);
    }
    assert x.entries == y.entries;
  }

  lemma OverWrittenAt(d: Comp, r: Comp, board: seq<Line>, e: nat)
    requires OnBoard(d, board) && OnBoard(r, board) && DistinctLines(board)
    requires e < |d.entries| && |r.entries| == |d.entries|
    requires forall i :: 0 <= i < |board| ==> OldOrStamped(d, r, board[i])
    requires e !in EntriesOf(board) ==> r.entries[e] == d.entries[e]
    ensures Stamped(r, board, |board|, true).entries[e] == Stamped(d, board, |board|, true).entries[e]
  {
    hide Stamped, DistinctLines;
    StampedEntry(d, board, e);
    StampedEntry(r, board, e);
    if e in EntriesOf(board) {
      var i :| 0 <= i < |board| && EntriesOf(board)[i] == e;
      assert OldOrStamped(d, r, board[i]);
    }
  }

  /** StampedAt, for one entry of a whole board. */
  lemma StampedEntry(c: Comp, board: seq<Line>, e: nat)
    requires OnBoard(c, board) && DistinctLines(board) && e < |c.entries|
    ensures var r := Stamped(c, board, |board|, true).entries[e];
      && (e !in EntriesOf(board) ==> r == c.entries[e])
      && forall i :: 0 <= i < |board| && board[i].entry == e ==> r == Stamp(c.entries[e], board[i], true)
  {
    StampedAt(c, board, |board|, true);
    if e !in EntriesOf(board) {
      assert forall i :: 0 <= i < |board| ==> EntriesOf(board)[i] in EntriesOf(board);
    }
  }

  lemma StandingsStable(c: Comp, env: Env, p: Progress, r: Reached)
    requires At(c, env, p, r) && !r.Issuing?
    ensures Standings(p.comp, env) == Standings(c, env)
  {
    match r
    case Closing(done) => FreezingIsOnce(c, done, env);
    case Writing(n) =>
      var d := ClosedAll(c, env);
      PartlyWritten(d, env, n);
      ClosingAgainDoesNothing(c, p.comp, env);
      WritingAgain(d, env, n);
  }

  lemma {:induction false} IssueToTheEnd(c: Comp, winners: seq<nat>, env: Env, m: nat, n: nat)
    requires Known(c, winners)
    requires IssueFrom(c, winners, env, m).Alive? && IssueFrom(c, winners, env, n).Alive?
    ensures IssueFrom(c, winners, env, m).comp == IssueFrom(c, winners, env, n).comp
    decreases |winners|
  {
    if winners != [] {
      var e, rest := winners[0], winners[1..];
      if !Due(c, e) || FreeCode(c.taken, env, e, 0).None? {
        IssueToTheEnd(c, rest, env, m, n);
      } else {
        IssueToTheEnd(Issued(c, e, FreeCode(c.taken, env, e, 0).value), rest, env, m - 1, n - 1);
      }
    }
  }

  /** The state in which the closing part of a tick starts. */
  function Starting(c: Comp, env: Env): Comp {
    BreachesMarked(Activated(c, env))
  }

  /** This tick will close the competition. */
  predicate Closes(c: Comp, env: Env) {
    Starting(c, env).phase == Running && env.over
  }

  lemma NothingIssuedBefore(c: Comp, env: Env)
    requires Sound(c) && Closes(c, env)
    ensures c.vouchers == []
  {
  }

  lemma CrashKeepsNoBreach(c: Comp, env: Env, p: Progress, r: Reached)
    requires At(c, env, p, r) && !r.Issuing? && NoBreach(c)
    ensures NoBreach(p.comp) && p.comp.phase == c.phase
  {
    FreezingIsOnce(c, Candidates(c), env);
    match r
    case Closing(done) => FreezingIsOnce(c, done, env);
    case Writing(n) => PartlyWritten(ClosedAll(c, env), env, n);
  }

  /** A tick that crashed before completion was still closing accounts or writing ranks. */
  lemma CrashedEarly(c: Comp, env: Env, k: nat)
    requires Closes(c, env) && k > 1 && Tick(c, env, k).Crashed? && Tick(c, env, k).comp.phase != Completed
    ensures var r := ReachedAfter(Starting(c, env), env, k - 2);
      At(Starting(c, env), env, Tick(c, env, k), r) && !r.Issuing?
  {
    hide Finalised, Standings, BreachesMarked, ReachedAfter, Listed, IssueFrom;
    var b := Starting(c, env);
    var r := ReachedAfter(b, env, k - 2);
    FinalisedShape(b, env, k - 2);
    StandingsPhase(b, env);
    if r.Issuing? {
      IssueKeepsPhase(Standings(b, env), Listed(Standings(b, env), {Ranked}, env), env, r.left);
    }
  }

  /** A crash before completion leaves a state that closes to the same standings. */
  lemma CrashKeepsStandings(c: Comp, env: Env, k: nat)
    requires Closes(c, env) && Tick(c, env, k).Crashed? && Tick(c, env, k).comp.phase != Completed
    ensures Closes(Tick(c, env, k).comp, env)
    ensures Standings(Starting(Tick(c, env, k).comp, env), env) == Standings(Starting(c, env), env)
  {
    if k > 1 {
      var b, p := Starting(c, env), Tick(c, env, k);
      CrashedEarly(c, env, k);
      MarkedNoBreach(Activated(c, env));
      hide Tick, Standings, BreachesMarked, ReachedAfter, At, NoBreach, Closes, Starting;
      CrashKeepsNoBreach(b, env, p, ReachedAfter(b, env, k - 2));
      StandingsStable(b, env, p, ReachedAfter(b, env, k - 2));
      StartsAtOnce(c, env, p.comp);
    }
  }

  /** A running state without a breach is where the next closing starts. */
  lemma StartsAtOnce(c: Comp, env: Env, d: Comp)
    requires Closes(c, env) && NoBreach(d) && d.phase == Starting(c, env).phase
    ensures Starting(d, env) == d && Closes(d, env)
  {
    MarkedNoBreach(d);
  }

  lemma StandingsPhase(c: Comp, env: Env)
    ensures Standings(c, env).phase == Completed && |Standings(c, env).entries| == |c.entries|
  {
  }

  /** The states after a series of crashed ticks. */
  function AfterCrashes(c: Comp, env: Env, crashes: seq<nat>): Comp {
    if crashes == [] then c
    else Tick(AfterCrashes(c, env, crashes[..|crashes| - 1]), env, crashes[|crashes| - 1]).comp
  }

  ghost predicate AllCrashedEarly(c: Comp, env: Env, crashes: seq<nat>) {
    forall i :: 0 <= i < |crashes| ==>
      var p := Tick(AfterCrashes(c, env, crashes[..i]), env, crashes[i]);
      p.Crashed? && p.comp.phase != Completed
  }

  lemma {:induction false} CrashesKeepStandings(c: Comp, env: Env, crashes: seq<nat>)
    requires Closes(c, env) && AllCrashedEarly(c, env, crashes)
    ensures var d := AfterCrashes(c, env, crashes);
      Closes(d, env) && Standings(Starting(d, env), env) == Standings(Starting(c, env), env)
  {
    hide Tick, Standings, Starting;
    if crashes != [] {
      var n := |crashes| - 1;
      assert forall i :: 0 <= i < n ==> crashes[..n][..i] == crashes[..i];
      CrashesKeepStandings(c, env, crashes[..n]);
      CrashKeepsStandings(AfterCrashes(c, env, crashes[..n]), env, crashes[n]);
    }
  }

  lemma AliveTick(c: Comp, env: Env, left: nat) returns (m: nat)
    requires Closes(c, env) && Tick(c, env, left).Alive?
    ensures var f := Standings(Starting(c, env), env);
      Tick(c, env, left) == IssueFrom(f, Listed(f, {Ranked}, env), env, m)
  {
    hide Finalised, Standings, BreachesMarked;
    FinalisedShape(Starting(c, env), env, left - 2);
    m := ReachedAfter(Starting(c, env), env, left - 2).left;
  }

  /** Crash-safe finalisation while nothing else changes: with the same prices, row orders, lock-outs and
      codes in every tick and no other event in between, however many ticks crash before the
      competition is marked completed, and before whichever of their writes, the first tick that goes
      through leaves exactly what an uncrashed tick would have left. `Retries` has what survives when
      every tick meets something else. */
  lemma RetryConverges(c: Comp, env: Env, crashes: seq<nat>, m: nat, n: nat)
    requires Closes(c, env) && AllCrashedEarly(c, env, crashes)
    requires Tick(c, env, n).Alive? && Tick(AfterCrashes(c, env, crashes), env, m).Alive?
    ensures Tick(AfterCrashes(c, env, crashes), env, m).comp == Tick(c, env, n).comp
  {
    hide Tick, Standings, Starting;
    CrashesKeepStandings(c, env, crashes);
    var d := AfterCrashes(c, env, crashes);
    var i := AliveTick(c, env, n);
    var j := AliveTick(d, env, m);
    var f := Standings(Starting(c, env), env);
    IssueToTheEnd(f, Listed(f, {Ranked}, env), env, i, j);
  }

  // ---------- What a closing tick leaves behind ----------

  /** Every competing account is frozen (or was already, or could not be), no other account moves. */
  lemma StandingsAccounts(c: Comp, env: Env)
    ensures var f := Standings(c, env);
      && |f.entries| == |c.entries|
      && forall e :: 0 <= e < |c.entries| ==>
           f.entries[e].account == FrozenEntry(c.entries[e], c.entries[e].status == Competing, e, env).account
  {
    var d := ClosedAll(c, env);
    PartlyWritten(d, env, |Board(d, env)|);
  }

  /** The line the reference order asks for row `p` of the read order. */
  function LineFor(c: Comp, order: seq<nat>, p: nat): Line
    requires Known(c, order) && p < |order|
  {
    Line(order[p], Ranking.Rank(c.metric, Rows(c, order), p),
         Ranking.ProfitUsd(RowOf(c, order[p])), Ranking.ProfitPct(RowOf(c, order[p])))
  }

  lemma LineOnBoard(c: Comp, env: Env, p: nat) returns (i: nat)
    requires p < |ReadOrder(c, env)|
    ensures i < |Board(c, env)| && Board(c, env)[i] == LineFor(c, ReadOrder(c, env), p)
  {
    hide Ranking.Rank, Ranking.Ahead, Ranking.ProfitPct, ReadOrder;
    var order := ReadOrder(c, env);
    var rows := Rows(c, order);
    var sorted := Ranking.Sorted(c.metric, rows, |rows|);
    assert p in sorted;
    i :| 0 <= i < |sorted| && sorted[i] == p;
    assert Board(c, env)[i] == LineAt(order, rows, sorted, i);
    Ranking.SortRefinesRank(c.metric, rows, i);
  }

  /** Writing a whole board stamps each rankable entry with its rank in the reference order. */
  lemma BoardStampsRanks(c: Comp, env: Env, final: bool, p: nat)
    requires p < |ReadOrder(c, env)|
    ensures var order := ReadOrder(c, env);
      && OnBoard(c, Board(c, env))
      && Stamped(c, Board(c, env), |Board(c, env)|, final).entries[order[p]]
           == Stamp(c.entries[order[p]], LineFor(c, order, p), final)
  {
    var i := LineOnBoard(c, env, p);
    BoardCovers(c, env);
    hide Board, Covers, Stamped;
    StampedAt(c, Board(c, env), |Board(c, env)|, final);
  }

  /** Each rankable entry gets the rank the reference order gives it among the closed accounts, and
      the profit its account then shows. */
  lemma StandingsRanks(c: Comp, env: Env, p: nat)
    requires p < |ReadOrder(ClosedAll(c, env), env)|
    ensures var f, order := Standings(c, env), ReadOrder(ClosedAll(c, env), env);
      && Known(f, order)
      && f.entries[order[p]].status == Ranked
      && f.entries[order[p]].rank == Some(Ranking.Rank(c.metric, Rows(f, order), p))
      && f.entries[order[p]].usd == Ranking.ProfitUsd(RowOf(f, order[p]))
      && f.entries[order[p]].pct == Ranking.ProfitPct(RowOf(f, order[p]))
  {
    var d := ClosedAll(c, env);
    var order := ReadOrder(d, env);
    BoardStampsRanks(d, env, true, p);
    PartlyWritten(d, env, |Board(d, env)|);
    hide ReadOrder, Board, FrozenIn, Ranking.Rank;
    assert Rows(Standings(c, env), order) == Rows(d, order);
  }

  /** No free code was left for this winner. */
  predicate Unlucky(taken: set<nat>, env: Env, e: nat) {
    forall k: nat :: k < 5 ==> env.code(e, k) in taken
  }

  predicate Wins(c: Comp, e: nat) {
    e < |c.entries| && c.entries[e].rank.Some? && c.entries[e].rank.value in c.prizes && c.prizes[c.entries[e].rank.value]
  }

  /** An uncrashed issue serves every winner, unless all five of its codes are taken, and nobody else. */
  lemma {:induction false} IssueServes(c: Comp, winners: seq<nat>, env: Env, left: nat)
    requires Known(c, winners)
    ensures var p := IssueFrom(c, winners, env, left);
      && c.taken <= p.comp.taken
      && (forall e :: HasVoucher(c.vouchers, e) ==> HasVoucher(p.comp.vouchers, e))
      && (forall e :: HasVoucher(p.comp.vouchers, e) ==> HasVoucher(c.vouchers, e) || (e in winners && Wins(c, e)))
      && (p.Alive? ==> forall e :: e in winners && Wins(c, e) ==>
           HasVoucher(p.comp.vouchers, e) || Unlucky(p.comp.taken, env, e))
    decreases |winners|
  {
    if winners != [] {
      var e, rest := winners[0], winners[1..];
      var code := FreeCode(c.taken, env, e, 0);
      FreeCodeIsFree(c.taken, env, e, 0);
      if !Due(c, e) || code.None? {
        IssueServes(c, rest, env, left);
      } else if left > 0 {
        var d := Issued(c, e, code.value);
        assert d.vouchers[|c.vouchers|].entry == e;
        forall x | HasVoucher(c.vouchers, x) ensures HasVoucher(d.vouchers, x) {
          var i :| 0 <= i < |c.vouchers| && c.vouchers[i].entry == x;
          assert d.vouchers[i].entry == x;
        }
        IssueServes(d, rest, env, left - 1);
      }
    }
  }

  /** What a closing tick that goes through leaves: the status, the accounts, and vouchers for the
      winners alone. The ranks are those of StandingsRanks. */
  lemma ClosingTick(c: Comp, env: Env, left: nat)
    requires Closes(c, env) && Tick(c, env, left).Alive? && c.vouchers == []
    ensures var b, r := Starting(c, env), Tick(c, env, left).comp;
      && r.phase == Completed && r.entries == Standings(b, env).entries
      && (forall e: nat :: e < |b.entries| ==>
           r.entries[e].account == FrozenEntry(b.entries[e], b.entries[e].status == Competing, e, env).account)
      && (forall e :: HasVoucher(r.vouchers, e) ==> Wins(r, e))
      && (forall e: nat :: e < |r.entries| && r.entries[e].status == Ranked && Wins(r, e) ==>
           HasVoucher(r.vouchers, e) || Unlucky(r.taken, env, e))
  {
    hide Tick, Standings, Starting, Wins;
    var m := AliveTick(c, env, left);
    var b := Starting(c, env);
    var f := Standings(b, env);
    StandingsAccounts(b, env);
    NoVoucherInStandings(c, env);
    IssueFrame(f, Listed(f, {Ranked}, env), env, m);
    IssueServes(f, Listed(f, {Ranked}, env), env, m);
    var r := Tick(c, env, left).comp;
    forall e: nat ensures Wins(r, e) <==> Wins(f, e) {
      SameWinner(f, r, e);
    }
  }

  lemma SameWinner(f: Comp, r: Comp, e: nat)
    requires f.entries == r.entries && f.prizes == r.prizes
    ensures Wins(r, e) <==> Wins(f, e)
  {
  }

  lemma NoVoucherInStandings(c: Comp, env: Env)
    ensures Standings(Starting(c, env), env).vouchers == c.vouchers
    ensures Standings(Starting(c, env), env).phase == Completed
  {
  }

  /** A competing account that is active when the closing starts is still active after it exactly
      when its own transaction failed; its entry is ranked all the same, and no later tick will
      close it. */
  lemma StaysOpenIff(c: Comp, env: Env, left: nat, e: nat, later: Env, laterLeft: nat)
    requires Sound(c) && Closes(c, env) && Tick(c, env, left).Alive? && c.vouchers == []
    requires e < |Starting(c, env).entries|
    requires Starting(c, env).entries[e].status == Competing && Starting(c, env).entries[e].account.status == Active
    ensures var before, r := Starting(c, env).entries[e].account, Tick(c, env, left).comp;
      && e < |r.entries| && r.entries[e].status != Competing
      && (r.entries[e].account.status == Active <==> env.stuck(e) || Unsettleable(before.trades, env.value))
      && (r.entries[e].account.status == Active ==> r.entries[e].account == before)
      && Tick(r, later, laterLeft).comp == r
  {
    hide Tick, Starting, Standings, Sound;
    ClosingTick(c, env, left);
    TickKeeps(c, env, left);
    var r := Tick(c, env, left).comp;
    CompletedHasNobodyCompeting(r);
    StandingsAccounts(Starting(c, env), env);
    TickPhase(r, later, laterLeft);
  }

  lemma CompletedHasNobodyCompeting(c: Comp)
    requires Sound(c) && c.phase == Completed
    ensures forall e :: 0 <= e < |c.entries| ==> c.entries[e].status != Competing
  {
  }

  /** One account's closing transaction either leaves everything alone or, from an active account,
      moves the balance by exactly the P&L it stamps, leaves nothing open or resting and rewrites no
      trade that was already settled; running it again changes nothing. */
  lemma FreezeBooksOnce(s: AccountState, e: nat, env: Env)
    ensures var t := Frozen(s, e, env);
      && Frozen(t, e, env) == t
      && t.ledger == s.ledger
      && (t != s ==>
           && s.status == Active && t.status == Closed
           && t.balance - s.balance == Realised(t.trades) - Realised(s.trades)
           && |t.trades| == |s.trades|
           && (forall i :: 0 <= i < |t.trades| ==> t.trades[i].status !in {Open, Resting})
           && (forall i :: 0 <= i < |s.trades| && s.trades[i].status in {Settled, Voided} ==> t.trades[i] == s.trades[i]))
  {
    LiquidationSettles(s, env.value);
    if Frozen(s, e, env) != s {
      var r := Liquidated(s, env.value);
      assert forall i :: 0 <= i < |s.trades| ==> !IsOpen(r.trades[i]);
    }
  }
}
