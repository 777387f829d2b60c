/** The effective drawdown floor and the columns that remember it. */
module Drawdown {
  import opened Options
  import opened Arithmetic
  import opened Capital
  import opened Accounts

  /** resolveEffectiveFloor's answer. */
  datatype Resolution = Resolution(
    floor: real, nextPeak: int, peakChanged: bool, nextLocked: Option<real>, lockedChanged: bool)

  function Trailing(peak: int, maxDrawdownPct: real): real {
    peak as real * (1.0 - maxDrawdownPct / 100.0)
  }

  function LockThreshold(start: int, locksAtPct: real): real {
    start as real * (1.0 + locksAtPct / 100.0)
  }

  /** The floor a funded account keeps once its peak has reached the threshold. */
  function LockLevel(start: int, locksAtPct: real, maxDrawdownPct: real): real {
    LockThreshold(start, locksAtPct) * (1.0 - maxDrawdownPct / 100.0)
  }

  function Resolve(s: AccountState, equity: int, maxDrawdownPct: real, locksAtPct: Option<real>): Resolution {
    var priorPeak := Anchor(s);
    var nextPeak := Max(priorPeak, equity);
    var trailing := Trailing(nextPeak, maxDrawdownPct);
    if s.kind != Funded || locksAtPct.None? then
      Resolution(trailing, nextPeak, nextPeak > priorPeak, s.eodFloor, false)
    else
      var threshold := LockThreshold(s.start, locksAtPct.value);
      var candidate := LockLevel(s.start, locksAtPct.value, maxDrawdownPct);
      var lock := nextPeak as real >= threshold && (s.eodFloor.None? || candidate > s.eodFloor.value);
      var nextLocked := if lock then Some(candidate) else s.eodFloor;
      var floor := if nextLocked.Some? then RMax(trailing, nextLocked.value) else trailing;
      Resolution(floor, nextPeak, nextPeak > priorPeak, nextLocked, lock)
  }

  /** The two guarded UPDATEs of getEffectiveDrawdownFloor, applied to the row as it is now. The
      resolution may come from an older copy of that row. */
  function Ratcheted(s: AccountState, r: Resolution): AccountState {
    var raisesPeak := r.peakChanged && (s.eodPeak.None? || s.eodPeak.value < r.nextPeak);
    var raisesFloor := r.lockedChanged && r.nextLocked.Some?
                       && (s.eodFloor.None? || s.eodFloor.value < r.nextLocked.value);
    s.(eodPeak := if raisesPeak then Some(r.nextPeak) else s.eodPeak,
       eodFloor := if raisesFloor then r.nextLocked else s.eodFloor)
  }

  lemma RatchetedFrame(s: AccountState, r: Resolution)
    ensures var t := Ratcheted(s, r);
      t == s.(eodPeak := t.eodPeak, eodFloor := t.eodFloor)
  {
  }

  method GetEffectiveDrawdownFloor(row: AccountRecord, acc: AccountState, equity: int,
                                   maxDrawdownPct: real, locksAtPct: Option<real>)
    returns (floor: real)
    modifies row`eodPeak, row`eodFloor
    ensures floor == Resolve(acc, equity, maxDrawdownPct, locksAtPct).floor
    ensures row.State() ==
      Ratcheted(old(row.State()), Resolve(acc, equity, maxDrawdownPct, locksAtPct))
  {
    var r := Resolve(acc, equity, maxDrawdownPct, locksAtPct);
    if r.peakChanged {
      if row.eodPeak.None? || row.eodPeak.value < r.nextPeak {
        row.eodPeak := Some(r.nextPeak);
      }
    }
    if r.lockedChanged && r.nextLocked.Some? {
      if row.eodFloor.None? || row.eodFloor.value < r.nextLocked.value {
        row.eodFloor := r.nextLocked;
      }
    }
    floor := r.floor;
  }

  lemma TrailingMonotone(p: int, q: int, pct: real)
    requires p <= q && pct <= 100.0
    ensures Trailing(p, pct) <= Trailing(q, pct)
  {
    var keep := 1.0 - pct / 100.0;
    assert (q as real - p as real) * keep >= 0.0;
  }

  /** Resolving again on the row just written gives the same floor and changes nothing more. */
  lemma ResolveIsStable(s: AccountState, equity: int, pct: real, locksAtPct: Option<real>)
    ensures var r := Resolve(s, equity, pct, locksAtPct);
      var again := Resolve(Ratcheted(s, r), equity, pct, locksAtPct);
      && again.floor == r.floor
      && !again.peakChanged && !again.lockedChanged
      && Anchor(Ratcheted(s, r)) == r.nextPeak == Max(Anchor(s), equity)
  {
  }

  // ---------- A floor only walks forward under trading ----------

  /** The row after the engine looked at each of a series of equities. */
  function AfterTicks(s: AccountState, equities: seq<int>, pct: real, locksAtPct: Option<real>): AccountState {
    if equities == [] then s
    else
      var t := AfterTicks(s, equities[..|equities| - 1], pct, locksAtPct);
      Ratcheted(t, Resolve(t, equities[|equities| - 1], pct, locksAtPct))
  }

  /** However equity moves, the floor at the last tick is at least the floor at any tick before. */
  lemma {:induction false} FloorNeverWalksBack(
    s: AccountState, equities: seq<int>, first: int, pct: real, locksAtPct: Option<real>)
    requires pct <= 100.0
    ensures var s1 := Ratcheted(s, Resolve(s, first, pct, locksAtPct));
      forall last :: Resolve(s, first, pct, locksAtPct).floor
                  <= Resolve(AfterTicks(s1, equities, pct, locksAtPct), last, pct, locksAtPct).floor
  {
    var s1 := Ratcheted(s, Resolve(s, first, pct, locksAtPct));
    TicksOnlyRaise(s1, equities, pct, locksAtPct);
    var t := AfterTicks(s1, equities, pct, locksAtPct);
    ResolveIsStable(s, first, pct, locksAtPct);
    forall last ensures Resolve(s, first, pct, locksAtPct).floor <= Resolve(t, last, pct, locksAtPct).floor {
      TrailingMonotone(Anchor(s1), Max(Anchor(t), last), pct);
    }
  }

  lemma {:induction false} TicksOnlyRaise(s: AccountState, equities: seq<int>, pct: real, locksAtPct: Option<real>)
    ensures var t := AfterTicks(s, equities, pct, locksAtPct);
      && t.kind == s.kind && t.start == s.start
      && Anchor(t) >= Anchor(s)
      && (s.eodFloor.Some? ==> t.eodFloor.Some? && t.eodFloor.value >= s.eodFloor.value)
  {
    if equities != [] {
      TicksOnlyRaise(s, equities[..|equities| - 1], pct, locksAtPct);
    }
  }

  /** Once peak equity has crossed the lock threshold, a capital movement of any size and any later
      equity leave the floor of a funded account at or above the locked level; a reset clears it.
      `CapitalRuns` has this over every run. */
  lemma LockSurvives(s: AccountState, equity: int, amount: int, source: Source, later: int,
                     pct: real, locksAtPct: real)
    requires s.kind == Funded
    requires Max(Anchor(s), equity) as real >= LockThreshold(s.start, locksAtPct)
    ensures var locked := Ratcheted(s, Resolve(s, equity, pct, Some(locksAtPct)));
      var level := LockThreshold(s.start, locksAtPct) * (1.0 - pct / 100.0);
      && Resolve(CapitalMoved(locked, amount, source), later, pct, Some(locksAtPct)).floor >= level
      && ResetToStart(locked).eodFloor == None
  {
    var locked := Ratcheted(s, Resolve(s, equity, pct, Some(locksAtPct)));
    var level := LockThreshold(s.start, locksAtPct) * (1.0 - pct / 100.0);
    assert locked.eodFloor.Some? && locked.eodFloor.value >= level;
    var moved := CapitalMoved(locked, amount, source);
    assert moved.eodFloor == locked.eodFloor && moved.kind == Funded;
    StoredLockBinds(moved, later, pct, Some(locksAtPct));
  }

  lemma StoredLockBinds(s: AccountState, equity: int, pct: real, locksAtPct: Option<real>)
    requires s.kind == Funded && locksAtPct.Some? && s.eodFloor.Some?
    ensures Resolve(s, equity, pct, locksAtPct).floor >= s.eodFloor.value
  {
  }

  // ---------- Headroom ----------

  /** How far the balance is above the trailing floor. */
  function Headroom(s: AccountState, pct: real): real {
    s.balance as real - Trailing(Anchor(s), pct)
  }

  /** A debit of `paid` costs only drawdown% of it in trailing headroom: the rest of the floor
      leaves the account with the money. */
  lemma DebitCostsShareOfHeadroom(s: AccountState, paid: int, source: Source, pct: real)
    requires paid != 0 && Anchor(s) - paid >= 0
    ensures Headroom(CapitalMoved(s, -paid, source), pct)
         == Headroom(s, pct) - paid as real * pct / 100.0
  {
    AdjustedConserves(s, -paid, source);
    var m := CapitalMoved(s, -paid, source);
    assert Anchor(m) == Anchor(s) - paid;
    var keep := 1.0 - pct / 100.0;
    assert Trailing(Anchor(m), pct) == Trailing(Anchor(s), pct) - paid as real * keep by {
      assert (Anchor(s) as real - paid as real) * keep == Anchor(s) as real * keep - paid as real * keep;
    }
    assert paid as real * keep == paid as real - paid as real * pct / 100.0;
  }

  /** Right after a reset, the account stands strictly above its floor on the first look. */
  lemma ResetIsNotInBreach(s: AccountState, pct: real, locksAtPct: Option<real>)
    requires s.start > 0 && 0.0 < pct <= 100.0
    requires locksAtPct.Some? ==> locksAtPct.value > 0.0
    ensures var r := ResetToStart(s);
      Resolve(r, r.balance, pct, locksAtPct).floor < r.balance as real
  {
    ResetRestartsFrame(s);
    var start := s.start as real;
    assert start * (1.0 - pct / 100.0) == start - start * (pct / 100.0);
    assert start * (pct / 100.0) > 0.0;
    if locksAtPct.Some? {
      assert start * (1.0 + locksAtPct.value / 100.0) == start + start * (locksAtPct.value / 100.0);
      assert start * (locksAtPct.value / 100.0) > 0.0;
    }
  }
}
