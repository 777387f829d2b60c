/** The streak counters of a trader's statistics. */
module TraderStats {

  /** Trades i to j all went the same way: won (`sign` 1) or lost (`sign` -1). */
  predicate IsStreak(pnls: seq<real>, i: int, j: int, sign: real) {
    0 <= i <= j <= |pnls| && forall k :: i <= k < j ==> pnls[k] * sign > 0.0
  }

  ghost predicate IsLongest(pnls: seq<real>, length: nat, sign: real) {
    && (exists i, j :: IsStreak(pnls, i, j, sign) && j - i == length)
    && (forall i, j :: IsStreak(pnls, i, j, sign) ==> j - i <= length)
  }

  /** The streak that ends at position `n`. */
  ghost predicate IsCurrent(pnls: seq<real>, n: nat, length: nat, sign: real)
    requires n <= |pnls|
  {
    length <= n && IsStreak(pnls, n - length, n, sign) && (length < n ==> !(pnls[n - length - 1] * sign > 0.0))
  }

  ghost predicate LongestUpTo(pnls: seq<real>, n: nat, length: nat, sign: real) {
    && (exists i, j :: IsStreak(pnls, i, j, sign) && j - i == length && j <= n)
    && (forall i, j :: IsStreak(pnls, i, j, sign) && j <= n ==> j - i <= length)
  }

  /** One more trade: the running counter and the best so far. */
  lemma StreakStep(pnls: seq<real>, n: nat, cur: nat, best: nat, sign: real)
    requires n < |pnls| && IsCurrent(pnls, n, cur, sign) && LongestUpTo(pnls, n, best, sign)
    ensures var now := if pnls[n] * sign > 0.0 then cur + 1 else 0;
      IsCurrent(pnls, n + 1, now, sign) && LongestUpTo(pnls, n + 1, if now > best then now else best, sign)
  {
    var now := if pnls[n] * sign > 0.0 then cur + 1 else 0;
    assert IsCurrent(pnls, n + 1, now, sign);
    if now > best {
      assert IsStreak(pnls, n + 1 - now, n + 1, sign);
    }
  }

  lemma StreakStart(pnls: seq<real>, sign: real)
    ensures IsCurrent(pnls, 0, 0, sign) && LongestUpTo(pnls, 0, 0, sign)
  {
    assert IsStreak(pnls, 0, 0, sign);
  }

  lemma LongestAtEnd(pnls: seq<real>, length: nat, sign: real)
    requires LongestUpTo(pnls, |pnls|, length, sign)
    ensures IsLongest(pnls, length, sign)
  {
  }

  /** The loop over a trader's results; a result of exactly zero ends both kinds of streak. */
  method MaxStreaks(pnls: seq<real>) returns (maxWinStreak: nat, maxLossStreak: nat)
    ensures IsLongest(pnls, maxWinStreak, 1.0)
    ensures IsLongest(pnls, maxLossStreak, -1.0)
  {
    maxWinStreak, maxLossStreak := 0, 0;
    var curWin, curLoss := 0, 0;
    hide IsCurrent, LongestUpTo, IsLongest;
    StreakStart(pnls, 1.0);
    StreakStart(pnls, -1.0);
    for n := 0 to |pnls|
      invariant IsCurrent(pnls, n, curWin, 1.0) && LongestUpTo(pnls, n, maxWinStreak, 1.0)
      invariant IsCurrent(pnls, n, curLoss, -1.0) && LongestUpTo(pnls, n, maxLossStreak, -1.0)
    {
      StreakStep(pnls, n, curWin, maxWinStreak, 1.0);
      StreakStep(pnls, n, curLoss, maxLossStreak, -1.0);
      if pnls[n] > 0.0 {
        curWin, curLoss := curWin + 1, 0;
        maxWinStreak := if curWin > maxWinStreak then curWin else maxWinStreak;
      } else if pnls[n] < 0.0 {
        curLoss, curWin := curLoss + 1, 0;
        maxLossStreak := if curLoss > maxLossStreak then curLoss else maxLossStreak;
      } else {
        curWin, curLoss := 0, 0;
      }
    }
    LongestAtEnd(pnls, maxWinStreak, 1.0);
    LongestAtEnd(pnls, maxLossStreak, -1.0);
  }
}
