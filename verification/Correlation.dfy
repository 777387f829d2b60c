/** Pearson correlation of two traders' daily results: its bound, the symmetry of the matrix, and the
    copy-trading flags drawn from it. */
module Correlation {
  import opened Options

  // ---------- The reference sums ----------

  function Sum(s: seq<real>): real {
    if s == [] then 0.0 else Sum(s[..|s| - 1]) + s[|s| - 1]
  }

  function Times(x: real, y: real): real {
    x * y
  }

  /** The inner product of two series, shifted by `p` and `q`. */
  function Dot(xs: seq<real>, p: real, ys: seq<real>, q: real): real
    requires |xs| == |ys|
  {
    if xs == [] then 0.0
    else
      var n := |xs| - 1;
      Dot(xs[..n], p, ys[..n], q) + Times(xs[n] - p, ys[n] - q)
  }

  function Mean(s: seq<real>): real
    requires s != []
  {
    Sum(s) / |s| as real
  }

  // ---------- Cauchy-Schwarz ----------

  lemma {:induction false} SquaresNonNegative(xs: seq<real>, p: real)
    ensures Dot(xs, p, xs, p) >= 0.0
  {
    hide Times;
    if xs != [] {
      var n := |xs| - 1;
      SquaresNonNegative(xs[..n], p);
      SquareNonNegative(xs[n] - p);
    }
  }

  lemma SquareNonNegative(x: real)
    ensures Times(x, x) >= 0.0
  {
  }

  /** u^2*a + 2uv*c + v^2*b. */
  function Form(u: real, v: real, a: real, c: real, b: real): real {
    u * u * a + 2.0 * (u * v * c) + v * v * b
  }

  /** The sum of (u*(x-p) + v*(y-q))^2 in terms of the three sums, so never negative. */
  lemma {:induction false} FormNonNegative(xs: seq<real>, p: real, ys: seq<real>, q: real, u: real, v: real)
    requires |xs| == |ys|
    ensures Form(u, v, Dot(xs, p, xs, p), Dot(xs, p, ys, q), Dot(ys, q, ys, q)) >= 0.0
  {
    hide Form, Times;
    if xs == [] {
      FormOfNothing(u, v);
    } else {
      var n := |xs| - 1;
      FormNonNegative(xs[..n], p, ys[..n], q, u, v);
      FormStep(Dot(xs[..n], p, xs[..n], p), Dot(xs[..n], p, ys[..n], q), Dot(ys[..n], q, ys[..n], q),
               xs[n] - p, ys[n] - q, u, v);
    }
  }

  lemma FormOfNothing(u: real, v: real)
    ensures Form(u, v, 0.0, 0.0, 0.0) == 0.0
  {
  }

  lemma FormStep(a: real, c: real, b: real, x: real, y: real, u: real, v: real)
    ensures Form(u, v, a + Times(x, x), c + Times(x, y), b + Times(y, y)) >= Form(u, v, a, c, b)
  {
    Square(u, x, v, y);
    SquareNonNegative(u * x + v * y);
    assert u * u * (a + x * x) == u * u * a + u * u * (x * x);
    assert u * v * (c + x * y) == u * v * c + u * v * (x * y);
    assert v * v * (b + y * y) == v * v * b + v * v * (y * y);
  }

  lemma Square(u: real, x: real, v: real, y: real)
    ensures (u * x + v * y) * (u * x + v * y) == u * u * (x * x) + 2.0 * (u * v * (x * y)) + v * v * (y * y)
  {
    var s, t := u * x, v * y;
    assert (s + t) * (s + t) == s * s + 2.0 * (s * t) + t * t;
    assert s * s == u * u * (x * x);
    assert t * t == v * v * (y * y);
    assert s * t == u * v * (x * y);
  }

  lemma {:induction false} ZeroSquares(xs: seq<real>, p: real, ys: seq<real>, q: real)
    requires |xs| == |ys| && Dot(ys, q, ys, q) == 0.0
    ensures Dot(xs, p, ys, q) == 0.0
  {
    hide Times;
    if xs != [] {
      var n := |xs| - 1;
      SquaresNonNegative(ys[..n], q);
      SquareNonNegative(ys[n] - q);
      ZeroSquare(xs[n] - p, ys[n] - q);
      ZeroSquares(xs[..n], p, ys[..n], q);
    }
  }

  lemma ZeroSquare(x: real, y: real)
    ensures Times(y, y) == 0.0 ==> Times(x, y) == 0.0
  {
    if y > 0.0 {
      NegativeProduct(y, -y);
      assert y * (-y) == -(y * y);
    } else if y < 0.0 {
      NegativeProduct(-y, y);
      assert (-y) * y == -(y * y);
    }
  }

  /** num^2 <= denomA * denomB, for series of any length and any shifts. */
  lemma CauchySchwarz(xs: seq<real>, p: real, ys: seq<real>, q: real)
    requires |xs| == |ys|
    ensures Times(Dot(xs, p, ys, q), Dot(xs, p, ys, q)) <= Times(Dot(xs, p, xs, p), Dot(ys, q, ys, q))
  {
    hide Form, Dot, Times;
    var a, c, b := Dot(xs, p, xs, p), Dot(xs, p, ys, q), Dot(ys, q, ys, q);
    SquaresNonNegative(ys, q);
    if b == 0.0 {
      ZeroSquares(xs, p, ys, q);
      ZeroTimes(a);
    } else {
      FormNonNegative(xs, p, ys, q, b, -c);
      Discriminant(a, c, b);
    }
  }

  lemma ZeroTimes(a: real)
    ensures Times(0.0, 0.0) == Times(a, 0.0) == 0.0
  {
  }

  lemma Discriminant(a: real, c: real, b: real)
    requires b > 0.0 && Form(b, -c, a, c, b) >= 0.0
    ensures Times(c, c) <= Times(a, b)
  {
    assert b * b * a == b * (a * b);
    assert b * (-c) * c == -(b * (c * c));
    assert (-c) * (-c) * b == b * (c * c);
    assert b * (a * b - c * c) == b * (a * b) - b * (c * c);
    if a * b - c * c < 0.0 {
      NegativeProduct(b, a * b - c * c);
    }
  }

  lemma NegativeProduct(b: real, d: real)
    requires b > 0.0 && d < 0.0
    ensures b * d < 0.0
  {
  }

  // ---------- pearsonCorrelation ----------

  /** Math.sqrt on non-negative arguments. */
  ghost predicate IsSqrt(sqrt: real -> real) {
    forall x: real :: x >= 0.0 ==> sqrt(x) >= 0.0 && Times(sqrt(x), sqrt(x)) == x
  }

  function Ratio(num: real, denom: real): real {
    if denom > 0.0 then num / denom else 0.0
  }

  /** The coefficient, or None under three days. */
  function Pearson(xs: seq<real>, ys: seq<real>, sqrt: real -> real): Option<real>
    requires |xs| == |ys|
  {
    if |xs| < 3 then None
    else
      var p, q := Mean(xs), Mean(ys);
      Some(Ratio(Dot(xs, p, ys, q), sqrt(Times(Dot(xs, p, xs, p), Dot(ys, q, ys, q)))))
  }

  lemma RatioBounds(num: real, product: real, root: real)
    requires root >= 0.0 && Times(root, root) == product && Times(num, num) <= product
    ensures -1.0 <= Ratio(num, root) <= 1.0
  {
    if root > 0.0 {
      if num > root {
        SquareGrows(root, num);
      }
      if -num > root {
        assert (-num) * (-num) == num * num;
        SquareGrows(root, -num);
      }
      assert (num / root) * root == num;
    }
  }

  lemma SquareGrows(r: real, x: real)
    requires 0.0 < r < x
    ensures r * r < x * x
  {
    assert r * r < r * x;
    assert r * x < x * x;
  }

  /** The coefficient lies in [-1, 1]. */
  lemma PearsonBounded(xs: seq<real>, ys: seq<real>, sqrt: real -> real)
    requires |xs| == |ys| && IsSqrt(sqrt)
    ensures Pearson(xs, ys, sqrt).Some? ==> -1.0 <= Pearson(xs, ys, sqrt).value <= 1.0
  {
    hide Dot, Times, Ratio, Mean;
    if |xs| >= 3 {
      var p, q := Mean(xs), Mean(ys);
      var a, c, b := Dot(xs, p, xs, p), Dot(xs, p, ys, q), Dot(ys, q, ys, q);
      CauchySchwarz(xs, p, ys, q);
      SquaresNonNegative(xs, p);
      SquaresNonNegative(ys, q);
      ProductNonNegative(a, b);
      RatioBounds(c, Times(a, b), sqrt(Times(a, b)));
    }
  }

  lemma ProductNonNegative(a: real, b: real)
    requires a >= 0.0 && b >= 0.0
    ensures Times(a, b) >= 0.0
  {
  }

  /** The two means, the accumulated products and their ratio; None under three days. */
  method PearsonCorrelation(seriesA: seq<real>, seriesB: seq<real>, sqrt: real -> real) returns (r: Option<real>)
    requires |seriesA| == |seriesB| && IsSqrt(sqrt)
    ensures r == Pearson(seriesA, seriesB, sqrt)
    ensures r.None? <==> |seriesA| < 3
    ensures r.Some? ==> -1.0 <= r.value <= 1.0
  {
    hide Times, Ratio, IsSqrt, Dot;
    var n := |seriesA|;
    if n < 3 {
      return None;
    }
    var meanA := Average(seriesA);
    var meanB := Average(seriesB);
    var num, denomA, denomB := CentredProducts(seriesA, meanA, seriesB, meanB);
    PearsonBounded(seriesA, seriesB, sqrt);
    var denom := sqrt(Times(denomA, denomB));
    r := Some(Ratio(num, denom));
  }

  /** The accumulating loop. */
  method CentredProducts(seriesA: seq<real>, meanA: real, seriesB: seq<real>, meanB: real)
    returns (num: real, denomA: real, denomB: real)
    requires |seriesA| == |seriesB|
    ensures num == Dot(seriesA, meanA, seriesB, meanB)
    ensures denomA == Dot(seriesA, meanA, seriesA, meanA) && denomB == Dot(seriesB, meanB, seriesB, meanB)
  {
    hide Times;
    num, denomA, denomB := 0.0, 0.0, 0.0;
    for i := 0 to |seriesA|
      invariant num == Dot(seriesA[..i], meanA, seriesB[..i], meanB)
      invariant denomA == Dot(seriesA[..i], meanA, seriesA[..i], meanA)
      invariant denomB == Dot(seriesB[..i], meanB, seriesB[..i], meanB)
    {
      assert seriesA[..i + 1][..i] == seriesA[..i] && seriesB[..i + 1][..i] == seriesB[..i];
      var da, db := seriesA[i] - meanA, seriesB[i] - meanB;
      num := num + Times(da, db);
      denomA := denomA + Times(da, da);
      denomB := denomB + Times(db, db);
    }
    assert seriesA[..|seriesA|] == seriesA && seriesB[..|seriesB|] == seriesB;
  }

  method Average(s: seq<real>) returns (mean: real)
    requires s != []
    ensures mean == Mean(s)
  {
    var total := 0.0;
    for i := 0 to |s|
      invariant total == Sum(s[..i])
    {
      assert s[..i + 1][..i] == s[..i];
      total := total + s[i];
    }
    assert s[..|s|] == s;
    mean := total / |s| as real;
  }

  // ---------- Daily results ----------

  datatype Closed = Closed(day: int, pnl: real)

  /** A JavaScript Map from day to P&L: entries in the order their keys were first set. */
  type DayMap = seq<Closed>

  predicate DistinctDays(m: DayMap) {
    forall i, j :: 0 <= i < j < |m| ==> m[i].day != m[j].day
  }

  predicate HasDay(m: DayMap, day: int) {
    exists i :: 0 <= i < |m| && m[i].day == day
  }

  function DaySum(trades: seq<Closed>, day: int): real {
    if trades == [] then 0.0
    else
      var t := trades[|trades| - 1];
      DaySum(trades[..|trades| - 1], day) + if t.day == day then t.pnl else 0.0
  }

  /** One trade counts on its day alone, and the sums of two lists of trades add up. */
  lemma {:induction false} DaySumAdds(a: seq<Closed>, b: seq<Closed>, day: int)
    ensures DaySum(a + b, day) == DaySum(a, day) + DaySum(b, day)
    ensures forall t: Closed :: DaySum([t], day) == if t.day == day then t.pnl else 0.0
  {
    forall t: Closed ensures DaySum([t], day) == if t.day == day then t.pnl else 0.0 {
      assert [t][..0] == [];
    }
    if b == [] {
      assert a + b == a;
    } else {
      DaySumAdds(a, b[..|b| - 1], day);
      assert (a + b)[..|a + b| - 1] == a + b[..|b| - 1];
    }
  }

  /** dayMap.set(day, (dayMap.get(day) || 0) + pnl). */
  method AddToDay(m: DayMap, t: Closed) returns (r: DayMap)
    requires DistinctDays(m)
    ensures DistinctDays(r)
    ensures forall day :: HasDay(r, day) <==> HasDay(m, day) || day == t.day
    ensures forall i :: 0 <= i < |m| ==>
      i < |r| && r[i] == if m[i].day == t.day then Closed(t.day, m[i].pnl + t.pnl) else m[i]
    ensures forall i :: |m| <= i < |r| ==> r[i] == t && !HasDay(m, t.day)
  {
    for i := 0 to |m|
      invariant forall j :: 0 <= j < i ==> m[j].day != t.day
    {
      if m[i].day == t.day {
        r := m[i := Closed(t.day, m[i].pnl + t.pnl)];
        assert forall day :: HasDay(m, day) ==> HasDay(r, day) by {
          forall day | HasDay(m, day) ensures HasDay(r, day) {
            var j :| 0 <= j < |m| && m[j].day == day;
            assert r[j].day == day;
          }
        }
        assert r[i].day == t.day;
        return;
      }
    }
    r := m + [t];
    forall day | HasDay(m, day) ensures HasDay(r, day) {
      var j :| 0 <= j < |m| && m[j].day == day;
      assert r[j].day == day;
    }
    assert r[|m|].day == t.day;
  }

  /** Each day with a trade appears once, with the sum of that day's trades. */
  method DailyPnl(trades: seq<Closed>) returns (m: DayMap)
    ensures DistinctDays(m)
    ensures forall day :: HasDay(m, day) <==> HasDay(trades, day)
    ensures forall i :: 0 <= i < |m| ==> m[i].pnl == DaySum(trades, m[i].day)
  {
    m := [];
    for k := 0 to |trades|
      invariant DistinctDays(m)
      invariant forall day :: HasDay(m, day) <==> HasDay(trades[..k], day)
      invariant forall i :: 0 <= i < |m| ==> m[i].pnl == DaySum(trades[..k], m[i].day)
    {
      var pre, now, t := trades[..k], trades[..k + 1], trades[k];
      assert now[..k] == pre && now[k] == t;
      ghost var was := m;
      assert HasDay(was, t.day) <==> HasDay(pre, t.day);
      m := AddToDay(m, t);
      forall day ensures HasDay(m, day) <==> HasDay(now, day) {
        HasDayAppend(pre, t, day);
        assert pre + [t] == now;
      }
      forall i | 0 <= i < |m| ensures m[i].pnl == DaySum(now, m[i].day) {
        if i >= |was| {
          assert m[i] == t;
          NoDayNoSum(pre, t.day);
        }
      }
    }
    assert trades[..|trades|] == trades;
  }

  lemma HasDayAppend(m: DayMap, t: Closed, day: int)
    ensures HasDay(m + [t], day) <==> HasDay(m, day) || day == t.day
  {
    if HasDay(m, day) {
      var j :| 0 <= j < |m| && m[j].day == day;
      assert (m + [t])[j].day == day;
    }
    assert (m + [t])[|m|] == t;
  }

  lemma {:induction false} NoDayNoSum(trades: seq<Closed>, day: int)
    requires !HasDay(trades, day)
    ensures DaySum(trades, day) == 0.0
  {
    if trades != [] {
      NoDayNoSum(trades[..|trades| - 1], day);
    }
  }

  // ---------- Days two traders share ----------

  /** One shared day with both results. */
  datatype Shared = Shared(day: int, a: real, b: real)

  function PnlOn(m: DayMap, day: int): real
    requires HasDay(m, day)
  {
    if m[|m| - 1].day == day then m[|m| - 1].pnl
    else
      var i :| 0 <= i < |m| && m[i].day == day;
      assert m[..|m| - 1][i] == m[i];
      PnlOn(m[..|m| - 1], day)
  }

  /** The days of `ma` that are also in `mb`, in the order of `ma`. */
  function Common(ma: DayMap, mb: DayMap): seq<Shared> {
    if ma == [] then []
    else
      var t := ma[|ma| - 1];
      Common(ma[..|ma| - 1], mb) + if HasDay(mb, t.day) then [Shared(t.day, t.pnl, PnlOn(mb, t.day))] else []
  }

  function As(s: seq<Shared>): (r: seq<real>)
    ensures |r| == |s|
  {
    if s == [] then [] else As(s[..|s| - 1]) + [s[|s| - 1].a]
  }

  function Bs(s: seq<Shared>): (r: seq<real>)
    ensures |r| == |s|
  {
    if s == [] then [] else Bs(s[..|s| - 1]) + [s[|s| - 1].b]
  }

  function Swapped(s: seq<Shared>): (r: seq<Shared>)
    ensures |r| == |s|
    ensures forall i :: 0 <= i < |s| ==> r[i] == Shared(s[i].day, s[i].b, s[i].a)
  {
    if s == [] then [] else Swapped(s[..|s| - 1]) + [Shared(s[|s| - 1].day, s[|s| - 1].b, s[|s| - 1].a)]
  }

  /** Math.round to two decimals; Math.round rounds halves up. */
  function Round2(x: real): real {
    (x * 100.0 + 0.5).Floor as real / 100.0
  }

  function Cell(ma: DayMap, mb: DayMap, sqrt: real -> real): real {
    var s := Common(ma, mb);
    match Pearson(As(s), Bs(s), sqrt)
    case None => 0.0
    case Some(r) => Round2(r)
  }

  /** A cell is the coefficient to the nearest hundredth, halves up, and 0 with fewer than three days in
      common. */
  lemma CellIs(ma: DayMap, mb: DayMap, sqrt: real -> real)
    ensures var s := Common(ma, mb);
      var r, cell := Pearson(As(s), Bs(s), sqrt), Cell(ma, mb, sqrt);
      && (|s| < 3 ==> cell == 0.0)
      && (|s| >= 3 ==> r.Some? && -0.005 < cell - r.value <= 0.005 && 100.0 * cell == (100.0 * cell).Floor as real)
  {
    hide Times, Dot, Mean, Ratio, Common;
  }

  // ---------- Sums do not depend on the order of the days ----------

  function Total(f: Shared -> real, s: seq<Shared>): real {
    if s == [] then 0.0 else Total(f, s[..|s| - 1]) + f(s[|s| - 1])
  }

  lemma {:induction false} TotalRemove(f: Shared -> real, s: seq<Shared>, j: nat)
    requires j < |s|
    ensures Total(f, s) == Total(f, s[..j] + s[j + 1..]) + f(s[j])
  {
    var n := |s| - 1;
    if j == n {
      assert s[..j] + s[j + 1..] == s[..n];
    } else {
      TotalRemove(f, s[..n], j);
      assert (s[..j] + s[j + 1..])[..n - 1] == s[..n][..j] + s[..n][j + 1..];
    }
  }

  lemma WithoutOne(t: seq<Shared>, j: nat)
    requires j < |t|
    ensures multiset(t[..j] + t[j + 1..]) == multiset(t) - multiset{t[j]}
  {
    assert t == t[..j] + [t[j]] + t[j + 1..];
  }

  lemma {:induction false} TotalOfPermutation(f: Shared -> real, s: seq<Shared>, t: seq<Shared>)
    requires multiset(s) == multiset(t)
    ensures Total(f, s) == Total(f, t)
  {
    assert |s| == |multiset(s)| == |multiset(t)| == |t|;
    if s != [] {
      var n := |s| - 1;
      assert s[n] in multiset(t);
      var j :| 0 <= j < |t| && t[j] == s[n];
      var rest := t[..j] + t[j + 1..];
      assert multiset(s[..n]) == multiset(rest) by {
        WithoutOne(s, n);
        WithoutOne(t, j);
        assert s[..n] + s[n + 1..] == s[..n];
      }
      TotalOfPermutation(f, s[..n], rest);
      TotalRemove(f, t, j);
    }
  }

  lemma {:induction false} DotIsTotal(s: seq<Shared>, p: real, q: real)
    ensures Dot(As(s), p, Bs(s), q) == Total((x: Shared) => Times(x.a - p, x.b - q), s)
    ensures Dot(As(s), p, As(s), p) == Total((x: Shared) => Times(x.a - p, x.a - p), s)
    ensures Dot(Bs(s), q, Bs(s), q) == Total((x: Shared) => Times(x.b - q, x.b - q), s)
    ensures Sum(As(s)) == Total((x: Shared) => x.a, s)
    ensures Sum(Bs(s)) == Total((x: Shared) => x.b, s)
  {
    hide Times;
    if s != [] {
      DotIsTotal(s[..|s| - 1], p, q);
    }
  }

  lemma PearsonOfPermutation(s: seq<Shared>, t: seq<Shared>, sqrt: real -> real)
    requires multiset(s) == multiset(t)
    ensures Pearson(As(s), Bs(s), sqrt) == Pearson(As(t), Bs(t), sqrt)
  {
    hide Times, Dot, Sum, Ratio;
    assert |s| == |multiset(s)| == |multiset(t)| == |t|;
    if |s| >= 3 {
      DotIsTotal(s, 0.0, 0.0);
      DotIsTotal(t, 0.0, 0.0);
      TotalOfPermutation((x: Shared) => x.a, s, t);
      TotalOfPermutation((x: Shared) => x.b, s, t);
      var p, q := Mean(As(s)), Mean(Bs(s));
      DotIsTotal(s, p, q);
      DotIsTotal(t, p, q);
      TotalOfPermutation((x: Shared) => Times(x.a - p, x.b - q), s, t);
      TotalOfPermutation((x: Shared) => Times(x.a - p, x.a - p), s, t);
      TotalOfPermutation((x: Shared) => Times(x.b - q, x.b - q), s, t);
    }
  }

  lemma {:induction false} DotSwaps(xs: seq<real>, p: real, ys: seq<real>, q: real)
    requires |xs| == |ys|
    ensures Dot(xs, p, ys, q) == Dot(ys, q, xs, p)
  {
    hide Times;
    if xs != [] {
      var n := |xs| - 1;
      DotSwaps(xs[..n], p, ys[..n], q);
      TimesCommutes(xs[n] - p, ys[n] - q);
    }
  }

  lemma TimesCommutes(x: real, y: real)
    ensures Times(x, y) == Times(y, x)
  {
  }

  lemma PearsonSwaps(xs: seq<real>, ys: seq<real>, sqrt: real -> real)
    requires |xs| == |ys|
    ensures Pearson(xs, ys, sqrt) == Pearson(ys, xs, sqrt)
  {
    hide Times, Dot, Mean, Ratio;
    if |xs| >= 3 {
      var p, q := Mean(xs), Mean(ys);
      DotSwaps(xs, p, ys, q);
      TimesCommutes(Dot(xs, p, xs, p), Dot(ys, q, ys, q));
    }
  }

  // ---------- The two orders hold the same days ----------

  predicate DistinctShared(s: seq<Shared>) {
    forall i, j :: 0 <= i < j < |s| ==> s[i].day != s[j].day
  }

  lemma {:induction false} CommonMember(ma: DayMap, mb: DayMap, x: Shared)
    requires DistinctDays(ma)
    ensures x in Common(ma, mb) <==>
      HasDay(ma, x.day) && HasDay(mb, x.day) && x.a == PnlOn(ma, x.day) && x.b == PnlOn(mb, x.day)
    ensures DistinctShared(Common(ma, mb))
    ensures forall y :: y in Common(ma, mb) ==> HasDay(ma, y.day)
  {
    if ma != [] {
      var n := |ma| - 1;
      var t, front := ma[n], Common(ma[..n], mb);
      CommonMember(ma[..n], mb, x);
      assert ma == ma[..n] + [t];
      HasDayAppend(ma[..n], t, x.day);
      forall y | y in front ensures HasDay(ma, y.day) && y.day != t.day {
        HasDayAppend(ma[..n], t, y.day);
        var i :| 0 <= i < n && ma[..n][i].day == y.day;
        assert ma[i].day != ma[n].day;
      }
      assert HasDay(ma, t.day) by {
        HasDayAppend(ma[..n], t, t.day);
      }
      assert forall i :: 0 <= i < |front| ==> front[i] in front;
    }
  }

  lemma {:induction false} OnceEach(s: seq<Shared>, x: Shared)
    requires DistinctShared(s)
    ensures multiset(s)[x] == if x in s then 1 else 0
  {
    if s != [] {
      var n := |s| - 1;
      OnceEach(s[..n], x);
      assert s == s[..n] + [s[n]];
      assert s[n] !in s[..n];
    }
  }

  lemma SwappedMember(s: seq<Shared>, x: Shared)
    ensures x in Swapped(s) <==> Shared(x.day, x.b, x.a) in s
  {
    if Shared(x.day, x.b, x.a) in s {
      var i :| 0 <= i < |s| && s[i] == Shared(x.day, x.b, x.a);
      assert Swapped(s)[i] == x;
    }
  }

  lemma SameDays(ma: DayMap, mb: DayMap)
    requires DistinctDays(ma) && DistinctDays(mb)
    ensures multiset(Common(ma, mb)) == multiset(Swapped(Common(mb, ma)))
  {
    var s, t := Common(ma, mb), Swapped(Common(mb, ma));
    forall x ensures multiset(s)[x] == multiset(t)[x] {
      CommonMember(ma, mb, x);
      CommonMember(mb, ma, Shared(x.day, x.b, x.a));
      SwappedMember(Common(mb, ma), x);
      OnceEach(s, x);
      OnceEach(t, x);
    }
  }

  lemma {:induction false} SwappedSeries(s: seq<Shared>)
    ensures As(Swapped(s)) == Bs(s) && Bs(Swapped(s)) == As(s)
  {
    if s != [] {
      SwappedSeries(s[..|s| - 1]);
      assert Swapped(s)[..|s| - 1] == Swapped(s[..|s| - 1]);
    }
  }

  /** The two traders get the same number, although each lists the shared days in its own order. */
  lemma CellIsSymmetric(ma: DayMap, mb: DayMap, sqrt: real -> real)
    requires DistinctDays(ma) && DistinctDays(mb)
    ensures Cell(ma, mb, sqrt) == Cell(mb, ma, sqrt)
  {
    hide Pearson, Common, Swapped, As, Bs, Round2;
    var s, t := Common(ma, mb), Common(mb, ma);
    SameDays(ma, mb);
    PearsonOfPermutation(s, Swapped(t), sqrt);
    SwappedSeries(t);
    PearsonSwaps(As(t), Bs(t), sqrt);
  }

  // ---------- The matrix and its flags ----------

  function Matrix(users: seq<DayMap>, sqrt: real -> real): (m: seq<seq<real>>)
    ensures |m| == |users|
    ensures forall i :: 0 <= i < |users| ==> |m[i]| == |users|
    ensures forall i, j :: 0 <= i < |users| && 0 <= j < |users| ==>
      m[i][j] == if i == j then 1.0 else Cell(users[i], users[j], sqrt)
  {
    seq(|users|, i requires 0 <= i < |users| =>
      seq(|users|, j requires 0 <= j < |users| => if i == j then 1.0 else Cell(users[i], users[j], sqrt)))
  }

  lemma CellIsBounded(ma: DayMap, mb: DayMap, sqrt: real -> real)
    requires IsSqrt(sqrt)
    ensures -1.0 <= Cell(ma, mb, sqrt) <= 1.0
  {
    var s := Common(ma, mb);
    hide Pearson, Common;
    PearsonBounded(As(s), Bs(s), sqrt);
  }

  /** Every entry is in [-1, 1], the diagonal is 1 and the matrix is symmetric. */
  lemma MatrixIsSymmetricAndBounded(users: seq<DayMap>, sqrt: real -> real, i: nat, j: nat)
    requires IsSqrt(sqrt) && forall k :: 0 <= k < |users| ==> DistinctDays(users[k])
    requires i < |users| && j < |users|
    ensures var m := Matrix(users, sqrt);
      m[i][j] == m[j][i] && -1.0 <= m[i][j] <= 1.0 && m[i][i] == 1.0
  {
    hide Cell;
    CellIsSymmetric(users[i], users[j], sqrt);
    CellIsBounded(users[i], users[j], sqrt);
  }

  const COPY_TRADING_THRESHOLD := 0.85

  datatype Flag = Flag(a: nat, b: nat, correlation: real)

  /** The pairs at or above the threshold, each once. */
  method CopyTradingFlags(matrix: seq<seq<real>>) returns (flags: seq<Flag>)
    requires forall i :: 0 <= i < |matrix| ==> |matrix[i]| == |matrix|
    ensures forall f :: f in flags <==>
      f.a < f.b < |matrix| && f.correlation == matrix[f.a][f.b] && f.correlation >= 0.85
    ensures forall i, j :: 0 <= i < j < |flags| ==> flags[i] != flags[j]
  {
    flags := [];
    for i := 0 to |matrix|
      invariant forall f :: f in flags <==>
        f.a < i && f.a < f.b < |matrix| && f.correlation == matrix[f.a][f.b] && f.correlation >= COPY_TRADING_THRESHOLD
      invariant forall k, l :: 0 <= k < l < |flags| ==> flags[k] != flags[l]
    {
      for j := i + 1 to |matrix|
        invariant forall f :: f in flags <==>
          && (f.a < i || (f.a == i && f.b < j)) && f.a < f.b < |matrix|
          && f.correlation == matrix[f.a][f.b] && f.correlation >= COPY_TRADING_THRESHOLD
        invariant forall k, l :: 0 <= k < l < |flags| ==> flags[k] != flags[l]
      {
        if matrix[i][j] >= COPY_TRADING_THRESHOLD {
          var flag := Flag(i, j, matrix[i][j]);
          assert flag !in flags;
          flags := flags + [flag];
        }
      }
    }
  }
}
