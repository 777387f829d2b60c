/** What the correlation coefficient is: a shift of a series does not matter, a series goes with itself
    and against its negation, and a constant one goes with nothing. */
module Coefficients {
  import opened Options
  import opened Correlation

  // ---------- The sums it is made of ----------

  /** Shifting both series, in terms of the plain sums. */
  lemma {:induction false} DotExpands(xs: seq<real>, p: real, ys: seq<real>, q: real)
    requires |xs| == |ys|
    ensures Dot(xs, p, ys, q)
         == Dot(xs, 0.0, ys, 0.0) - Times(q, Sum(xs)) - Times(p, Sum(ys)) + Times(|xs| as real, Times(p, q))
  {
    hide Times;
    if xs == [] {
      TimesZero(p, q);
    } else {
      var n := |xs| - 1;
      DotExpands(xs[..n], p, ys[..n], q);
      ProductExpands(xs[n], p, ys[n], q);
      TimesPlus(q, Sum(xs[..n]), xs[n]);
      TimesPlus(p, Sum(ys[..n]), ys[n]);
      TimesPlus(Times(p, q), n as real, 1.0);
      TimesCommutes(n as real, Times(p, q));
      TimesCommutes(|xs| as real, Times(p, q));
    }
  }

  lemma TimesZero(p: real, q: real)
    ensures Times(q, 0.0) == Times(p, 0.0) == Times(0.0, Times(p, q)) == 0.0
  {
  }

  lemma ProductExpands(x: real, p: real, y: real, q: real)
    ensures Times(x - p, y - q) == Times(x - 0.0, y - 0.0) - Times(q, x) - Times(p, y) + Times(Times(p, q), 1.0)
  {
  }

  lemma TimesPlus(x: real, a: real, b: real)
    ensures Times(x, a + b) == Times(x, a) + Times(x, b)
  {
  }

  lemma MeanIs(s: seq<real>)
    requires s != []
    ensures Times(|s| as real, Mean(s)) == Sum(s)
  {
  }

  /** Around the two means: n times the centred sum of products is n times the plain one less the product
      of the sums. With `ys == xs` this is the denominator. */
  lemma CentredSums(xs: seq<real>, ys: seq<real>)
    requires |xs| == |ys| && xs != []
    ensures Times(|xs| as real, Dot(xs, Mean(xs), ys, Mean(ys)))
         == Times(|xs| as real, Dot(xs, 0.0, ys, 0.0)) - Times(Sum(xs), Sum(ys))
  {
    DotExpands(xs, Mean(xs), ys, Mean(ys));
    MeanIs(xs);
    MeanIs(ys);
    var n, p, q, d := |xs| as real, Mean(xs), Mean(ys), Dot(xs, 0.0, ys, 0.0);
    hide Dot, Mean, Sum;
    Cancels(n, p, q, d);
  }

  lemma Cancels(n: real, p: real, q: real, d: real)
    ensures Times(n, d - Times(q, Times(n, p)) - Times(p, Times(n, q)) + Times(n, Times(p, q)))
         == Times(n, d) - Times(Times(n, p), Times(n, q))
  {
    var u := p * q;
    assert q * (n * p) == n * u && p * (n * q) == n * u;
    assert (n * p) * (n * q) == n * (n * u);
  }

  // ---------- Shifted series ----------

  function Shifted(s: seq<real>, c: real): (r: seq<real>)
    ensures |r| == |s|
  {
    seq(|s|, i requires 0 <= i < |s| => s[i] + c)
  }

  lemma {:induction false} DotOfShifted(xs: seq<real>, c: real, p: real, ys: seq<real>, q: real)
    requires |xs| == |ys|
    ensures Dot(Shifted(xs, c), p + c, ys, q) == Dot(xs, p, ys, q)
    ensures Dot(Shifted(xs, c), p + c, Shifted(xs, c), p + c) == Dot(xs, p, xs, p)
  {
    hide Times;
    if xs != [] {
      var n := |xs| - 1;
      DotOfShifted(xs[..n], c, p, ys[..n], q);
      assert Shifted(xs, c)[..n] == Shifted(xs[..n], c);
      assert xs[n] + c - (p + c) == xs[n] - p;
    }
  }

  lemma {:induction false} SumOfShifted(xs: seq<real>, c: real)
    ensures Sum(Shifted(xs, c)) == Sum(xs) + Times(|xs| as real, c)
  {
    if xs != [] {
      var n := |xs| - 1;
      SumOfShifted(xs[..n], c);
      assert Shifted(xs, c)[..n] == Shifted(xs[..n], c);
    }
  }

  lemma MeanOfShifted(xs: seq<real>, c: real)
    requires xs != []
    ensures Mean(Shifted(xs, c)) == Mean(xs) + c
  {
    SumOfShifted(xs, c);
    var n := |xs| as real;
    assert (Sum(xs) + n * c) / n == Sum(xs) / n + c;
  }

  /** A constant added to every day of one trader changes nothing. */
  lemma ShiftIrrelevant(xs: seq<real>, c: real, ys: seq<real>, sqrt: real -> real)
    requires |xs| == |ys|
    ensures Pearson(Shifted(xs, c), ys, sqrt) == Pearson(xs, ys, sqrt)
  {
    hide Times, Dot, Mean, Ratio;
    if |xs| >= 3 {
      MeanOfShifted(xs, c);
      DotOfShifted(xs, c, Mean(xs), ys, Mean(ys));
    }
  }

  // ---------- The extreme coefficients ----------

  function Negated(s: seq<real>): (r: seq<real>)
    ensures |r| == |s|
  {
    seq(|s|, i requires 0 <= i < |s| => -s[i])
  }

  predicate Constant(s: seq<real>) {
    forall i, j :: 0 <= i < j < |s| ==> s[i] == s[j]
  }

  lemma {:induction false} DotOfNegated(xs: seq<real>, p: real)
    ensures Dot(xs, p, Negated(xs), -p) == -Dot(xs, p, xs, p)
    ensures Dot(Negated(xs), -p, Negated(xs), -p) == Dot(xs, p, xs, p)
    ensures Sum(Negated(xs)) == -Sum(xs)
  {
    hide Times;
    if xs != [] {
      var n := |xs| - 1;
      DotOfNegated(xs[..n], p);
      assert Negated(xs)[..n] == Negated(xs[..n]);
      TimesNegated(xs[n] - p);
      assert -xs[n] - (-p) == -(xs[n] - p);
    }
  }

  lemma TimesNegated(x: real)
    ensures Times(x, -x) == -Times(x, x) && Times(-x, -x) == Times(x, x)
  {
  }

  lemma {:induction false} SomeSquare(xs: seq<real>, p: real, i: nat)
    requires i < |xs| && xs[i] != p
    ensures Dot(xs, p, xs, p) > 0.0
  {
    hide Times;
    var n := |xs| - 1;
    SquaresNonNegative(xs[..n], p);
    SquareNonNegative(xs[n] - p);
    if i == n {
      SquarePositive(xs[n] - p);
    } else {
      SomeSquare(xs[..n], p, i);
    }
  }

  lemma SquarePositive(x: real)
    requires x != 0.0
    ensures Times(x, x) > 0.0
  {
    TimesNegated(x);
    PositiveSquare(if x > 0.0 then x else -x);
  }

  lemma PositiveSquare(x: real)
    requires x > 0.0
    ensures Times(x, x) > 0.0
  {
    var y := -x;
    NegativeProduct(x, y);
    assert x * y == -Times(x, x);
  }

  lemma RootOfSquare(sqrt: real -> real, a: real)
    requires IsSqrt(sqrt) && a > 0.0
    ensures sqrt(Times(a, a)) == a
  {
    SquareNonNegative(a);
    SquarePositive(a);
    var r := sqrt(Times(a, a));
    if 0.0 < r < a {
      SquareGrows(r, a);
    } else if r > a {
      SquareGrows(a, r);
    }
  }

  /** A series that is not constant has coefficient 1 with itself and -1 with its negation. */
  lemma SelfAndNegation(xs: seq<real>, sqrt: real -> real)
    requires |xs| >= 3 && !Constant(xs) && IsSqrt(sqrt)
    ensures Pearson(xs, xs, sqrt) == Some(1.0) && Pearson(xs, Negated(xs), sqrt) == Some(-1.0)
  {
    hide Times, Dot, Mean, IsSqrt, Ratio;
    var p := Mean(xs);
    var i, j :| 0 <= i < j < |xs| && xs[i] != xs[j];
    SomeSquare(xs, p, if xs[i] != p then i else j);
    DotOfNegated(xs, p);
    MeanOfNegated(xs);
    RootOfSquare(sqrt, Dot(xs, p, xs, p));
    RatioOfEqual(Dot(xs, p, xs, p));
  }

  lemma MeanOfNegated(xs: seq<real>)
    requires xs != []
    ensures Mean(Negated(xs)) == -Mean(xs)
  {
    DotOfNegated(xs, 0.0);
  }

  lemma RatioOfEqual(a: real)
    requires a > 0.0
    ensures Ratio(a, a) == 1.0 && Ratio(-a, a) == -1.0
  {
  }

  lemma {:induction false} ConstantDot(xs: seq<real>, p: real, ys: seq<real>, q: real)
    requires |xs| == |ys| && forall i :: 0 <= i < |xs| ==> xs[i] == p
    ensures Dot(xs, p, ys, q) == 0.0 && Sum(xs) == Times(|xs| as real, p)
  {
    if xs != [] {
      ConstantDot(xs[..|xs| - 1], p, ys[..|ys| - 1], q);
    }
  }

  /** A constant series has coefficient 0 with every other. */
  lemma ConstantIsZero(xs: seq<real>, ys: seq<real>, sqrt: real -> real)
    requires |xs| == |ys| >= 3 && Constant(xs)
    ensures Pearson(xs, ys, sqrt) == Some(0.0)
  {
    ConstantDot(xs, xs[0], ys, Mean(ys));
    assert Mean(xs) == xs[0];
    hide Dot, Times, Mean;
    assert Ratio(0.0, sqrt(Times(Dot(xs, xs[0], xs, xs[0]), Dot(ys, Mean(ys), ys, Mean(ys))))) == 0.0;
  }
}
