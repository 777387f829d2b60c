/** The trailing anchor over a whole history, against an independent definition: a high-water mark
    in which every past equity is moved by the capital that moved after it. */
module Anchors {
  import opened Arithmetic
  import opened Capital

  /** What can happen to the anchor: the engine ratchets it to an equity, a capital movement shifts
      it, a reset rebases it. A history starts with the rebase that opened the account. */
  datatype Event = Ratchet(equity: int) | Move(delta: int) | Rebase(equity: int)

  function Apply(anchor: int, e: Event): int {
    match e
    case Ratchet(q) => Max(anchor, q)
    case Move(d) => Max(anchor + d, 0)
    case Rebase(q) => q
  }

  /** The anchor column after a history. */
  function Fold(anchor: int, es: seq<Event>): int {
    if es == [] then anchor
    else Apply(Fold(anchor, es[..|es| - 1]), es[|es| - 1])
  }

  /** The clamp at zero never changes a value. */
  predicate NeverClamped(anchor: int, es: seq<Event>) {
    forall i :: 0 <= i < |es| && es[i].Move? ==> Fold(anchor, es[..i]) + es[i].delta >= 0
  }

  // ---------- The reference: a shift-adjusted high-water mark ----------

  /** All capital moved by a series of events. */
  function Moved(es: seq<Event>): int {
    if es == [] then 0
    else Moved(es[..|es| - 1]) + (if es[|es| - 1].Move? then es[|es| - 1].delta else 0)
  }

  /** A past equity point that still counts: no rebase came after it. */
  predicate Counts(es: seq<Event>, i: int) {
    && 0 <= i < |es|
    && !es[i].Move?
    && forall j :: i < j < |es| ==> !es[j].Rebase?
  }

  /** That equity, carried along by every capital movement since. */
  function Carried(es: seq<Event>, i: int): int
    requires Counts(es, i)
  {
    es[i].equity + Moved(es[i + 1..])
  }

  ghost predicate IsHighWater(es: seq<Event>, h: int) {
    && (forall i {:trigger Counts(es, i)} :: Counts(es, i) ==> Carried(es, i) <= h)
    && (exists i {:trigger Counts(es, i)} :: Counts(es, i) && Carried(es, i) == h)
  }

  lemma CarriedStep(es: seq<Event>, i: int)
    requires es != [] && Counts(es, i) && i < |es| - 1
    ensures var pre, e := es[..|es| - 1], es[|es| - 1];
      && Counts(pre, i)
      && Carried(es, i) == Carried(pre, i) + (if e.Move? then e.delta else 0)
  {
    assert es[i + 1..][..|es| - i - 2] == es[..|es| - 1][i + 1..];
  }

  lemma CountsStep(es: seq<Event>, i: int)
    requires es != [] && Counts(es[..|es| - 1], i) && !es[|es| - 1].Rebase?
    ensures Counts(es, i)
  {
  }

  /** With the clamp at zero, the anchor is never below any carried equity point. */
  lemma {:induction false} AnchorBoundsHistory(anchor: int, es: seq<Event>, i: int)
    requires Counts(es, i)
    ensures Carried(es, i) <= Fold(anchor, es)
  {
    if i < |es| - 1 {
      CarriedStep(es, i);
      AnchorBoundsHistory(anchor, es[..|es| - 1], i);
    } else {
      assert es[i + 1..] == [];
    }
  }

  /** While the clamp is not hit, the anchor IS the shift-adjusted high-water mark. */
  lemma {:induction false} AnchorIsHighWater(anchor: int, es: seq<Event>)
    requires es != [] && es[0].Rebase? && NeverClamped(anchor, es)
    ensures IsHighWater(es, Fold(anchor, es))
  {
    forall i {:trigger Counts(es, i)} | Counts(es, i) ensures Carried(es, i) <= Fold(anchor, es) {
      AnchorBoundsHistory(anchor, es, i);
    }
    var n := |es| - 1;
    var pre, e := es[..n], es[n];
    assert es[n + 1..] == [];
    if n == 0 || e.Rebase? || (e.Ratchet? && e.equity >= Fold(anchor, pre)) {
      assert Counts(es, n) && Carried(es, n) == Fold(anchor, es);
    } else {
      forall i | 0 <= i < n && pre[i].Move? ensures Fold(anchor, pre[..i]) + pre[i].delta >= 0 {
        assert pre[..i] == es[..i];
      }
      AnchorIsHighWater(anchor, pre);
      var i :| Counts(pre, i) && Carried(pre, i) == Fold(anchor, pre);
      CountsStep(es, i);
      CarriedStep(es, i);
      assert Counts(es, i) && Carried(es, i) == Fold(anchor, es);
    }
  }

  /** The high-water mark is one number, so the previous lemma determines the anchor. */
  lemma HighWaterIsUnique(es: seq<Event>, h: int, k: int)
    requires IsHighWater(es, h) && IsHighWater(es, k)
    ensures h == k
  {
    var i :| Counts(es, i) && Carried(es, i) == h;
    var j :| Counts(es, j) && Carried(es, j) == k;
    assert Carried(es, j) <= h && Carried(es, i) <= k;
  }

  // ---------- With the clamp at zero ----------

  /** A past moment that still counts: no rebase came after it. */
  predicate Stands(es: seq<Event>, i: int) {
    0 <= i < |es| && forall j :: i < j < |es| ==> !es[j].Rebase?
  }

  /** What that moment contributes: its equity, or zero for a movement (where the clamp is), carried
      along by every capital movement since. */
  function Standing(es: seq<Event>, i: int): int
    requires Stands(es, i)
  {
    (if es[i].Move? then 0 else es[i].equity) + Moved(es[i + 1..])
  }

  ghost predicate IsClampedHighWater(es: seq<Event>, h: int) {
    && (forall i {:trigger Stands(es, i)} :: Stands(es, i) ==> Standing(es, i) <= h)
    && (exists i {:trigger Stands(es, i)} :: Stands(es, i) && Standing(es, i) == h)
  }

  lemma StandingStep(es: seq<Event>, i: int)
    requires es != [] && 0 <= i < |es| - 1
    ensures Stands(es, i) <==> Stands(es[..|es| - 1], i) && !es[|es| - 1].Rebase?
    ensures var pre, e := es[..|es| - 1], es[|es| - 1];
      Stands(es, i) ==> Standing(es, i) == Standing(pre, i) + (if e.Move? then e.delta else 0)
  {
    assert es[i + 1..][..|es| - i - 2] == es[..|es| - 1][i + 1..];
  }

  /** For every history, clamped or not, the anchor is the maximum over past equities and over a zero
      at every capital movement, each carried along by the movements since. */
  lemma {:induction false} AnchorIsClampedHighWater(anchor: int, es: seq<Event>)
    requires es != [] && es[0].Rebase?
    ensures IsClampedHighWater(es, Fold(anchor, es))
  {
    var n := |es| - 1;
    var pre, e, h := es[..n], es[n], Fold(anchor, es);
    assert es[n + 1..] == [];
    if n > 0 {
      AnchorIsClampedHighWater(anchor, pre);
    }
    forall i {:trigger Stands(es, i)} | Stands(es, i) ensures Standing(es, i) <= h {
      if i < n {
        StandingStep(es, i);
        assert Stands(pre, i);
      }
    }
    if Stands(es, n) && Standing(es, n) == h {
    } else {
      var i :| Stands(pre, i) && Standing(pre, i) == Fold(anchor, pre);
      StandingStep(es, i);
      assert Stands(es, i) && Standing(es, i) == h;
    }
  }

  /** A zero at a capital movement, carried to now, that is above every carried equity. */
  ghost predicate ClampShows(es: seq<Event>, mark: int) {
    exists i {:trigger Stands(es, i)} :: Stands(es, i) && es[i].Move? && Standing(es, i) > mark
  }

  /** The anchor is the shift-adjusted high-water mark if and only if no carried clamp point is above
      it; otherwise it is higher. */
  lemma AnchorIsMarkIff(anchor: int, es: seq<Event>, mark: int)
    requires es != [] && es[0].Rebase? && IsHighWater(es, mark)
    ensures Fold(anchor, es) == mark <==> !ClampShows(es, mark)
    ensures Fold(anchor, es) >= mark
  {
    AnchorIsClampedHighWater(anchor, es);
    var h := Fold(anchor, es);
    var k :| Counts(es, k) && Carried(es, k) == mark;
    assert Stands(es, k) && Standing(es, k) == mark;
    var i :| Stands(es, i) && Standing(es, i) == h;
    if !es[i].Move? {
      assert Counts(es, i) && Carried(es, i) == h;
    }
  }

  /** The shortest history whose anchor is above the mark, and the ratchet that brings them together. */
  lemma ClampLosesTheMark()
    ensures Fold(0, [Rebase(5000), Move(-9000)]) == 0 && IsHighWater([Rebase(5000), Move(-9000)], -4000)
    ensures Fold(0, [Rebase(5000), Move(-9000), Ratchet(100)]) == 100
    ensures IsHighWater([Rebase(5000), Move(-9000), Ratchet(100)], 100)
  {
    var es := [Rebase(5000), Move(-9000)];
    var fs := es + [Ratchet(100)];
    assert fs == [Rebase(5000), Move(-9000), Ratchet(100)] && fs[..2] == es;
    assert es[..1] == [Rebase(5000)] && es[..1][..0] == [] && es[1..] == [Move(-9000)];
    assert es[1..][..0] == [] && es[..0] == [] && es[2..] == [];
    assert Fold(0, es[..1]) == 5000;
    assert Counts(es, 0) && Carried(es, 0) == -4000;
    assert fs[1..] == [Move(-9000), Ratchet(100)] && fs[1..][..1] == [Move(-9000)] && fs[3..] == [];
    assert Moved(fs[1..]) == Moved(fs[1..][..1]) == -9000;
    assert Counts(fs, 0) && Carried(fs, 0) == -4000;
    assert Counts(fs, 2) && Carried(fs, 2) == 100;
  }

  // ---------- What a capital movement costs in drawdown headroom ----------

  /** A movement keeps the distance from anchor to balance exactly when the clamp is not hit. */
  lemma MovementKeepsGap(s: AccountState, amount: int, source: Source)
    requires amount != 0
    ensures var m := CapitalMoved(s, amount, source);
      (Anchor(m) - m.balance == Anchor(s) - s.balance) <==> Anchor(s) + amount >= 0
  {
    AdjustedConserves(s, amount, source);
  }
}
