/** The order of a competition's entries, against an independent definition of a rank: one more than
    the entries that are strictly better, plus the equal ones earlier in row order. */
module Ranking {
  import opened Capital

  datatype Metric = ByProfitUsd | ByProfitPct

  /** What the ranking reads of one entry. */
  datatype Row = Row(entry: nat, start: int, balance: int)

  function ProfitUsd(r: Row): int {
    r.balance - r.start
  }

  /** Math.round of hundredths of a percent; Math.round rounds halves up. */
  function ProfitPct(r: Row): int {
    if r.start > 0 then ((r.balance - r.start) as real / r.start as real * 10000.0 + 0.5).Floor else 0
  }

  function Key(metric: Metric, r: Row): int {
    if metric == ByProfitUsd then ProfitUsd(r) else ProfitPct(r)
  }

  /** The comparator puts `a` before `b`. */
  predicate Better(metric: Metric, a: Row, b: Row) {
    Key(metric, a) > Key(metric, b) || (Key(metric, a) == Key(metric, b) && ProfitUsd(a) > ProfitUsd(b))
  }

  predicate Tied(metric: Metric, a: Row, b: Row) {
    !Better(metric, a, b) && !Better(metric, b, a)
  }

  // ---------- The reference ----------

  /** Row `j` is ranked above row `i`. */
  predicate Ahead(metric: Metric, rows: seq<Row>, j: nat, i: nat)
    requires j < |rows| && i < |rows|
  {
    Better(metric, rows[j], rows[i]) || (j < i && Tied(metric, rows[j], rows[i]))
  }

  function AllAhead(metric: Metric, rows: seq<Row>, i: nat): set<nat>
    requires i < |rows|
  {
    set j: nat | j < |rows| && Ahead(metric, rows, j, i)
  }

  function Rank(metric: Metric, rows: seq<Row>, i: nat): nat
    requires i < |rows|
  {
    1 + |AllAhead(metric, rows, i)|
  }

  // ---------- The stable sort, on row numbers ----------

  /** Put row number `i` behind every row it is not strictly better than. */
  function Insert(metric: Metric, rows: seq<Row>, sorted: seq<nat>, i: nat): seq<nat>
    requires i < |rows| && forall k :: 0 <= k < |sorted| ==> sorted[k] < |rows|
  {
    if sorted == [] || !Better(metric, rows[i], rows[sorted[|sorted| - 1]]) then sorted + [i]
    else Insert(metric, rows, sorted[..|sorted| - 1], i) + [sorted[|sorted| - 1]]
  }

  /** The first `n` row numbers in ranked order. */
  function Sorted(metric: Metric, rows: seq<Row>, n: nat): (order: seq<nat>)
    requires n <= |rows|
    ensures |order| == n
    ensures forall k :: 0 <= k < n ==> order[k] < n
    ensures forall i: nat :: i < n ==> i in order
    ensures forall p, q :: 0 <= p < q < n ==> Ahead(metric, rows, order[p], order[q])
  {
    if n == 0 then []
    else
      var earlier := Sorted(metric, rows, n - 1);
      SortedStep(metric, rows, earlier, n);
      Insert(metric, rows, earlier, n - 1)
  }

  predicate InOrder(metric: Metric, rows: seq<Row>, order: seq<nat>)
    requires forall k :: 0 <= k < |order| ==> order[k] < |rows|
  {
    forall p, q :: 0 <= p < q < |order| ==> Ahead(metric, rows, order[p], order[q])
  }

  /** Inserting row n - 1 into the first n - 1 rows in order gives the first n in order. */
  lemma SortedStep(metric: Metric, rows: seq<Row>, earlier: seq<nat>, n: nat)
    requires 0 < n <= |rows| && |earlier| == n - 1
    requires (forall k :: 0 <= k < n - 1 ==> earlier[k] < n - 1) && (forall i: nat :: i < n - 1 ==> i in earlier)
    requires InOrder(metric, rows, earlier)
    ensures var order := Insert(metric, rows, earlier, n - 1);
      && |order| == n && (forall k :: 0 <= k < n ==> order[k] < n) && (forall i: nat :: i < n ==> i in order)
      && InOrder(metric, rows, order)
  {
    hide Ahead, Insert;
    InsertKeepsOrder(metric, rows, earlier, n - 1);
  }

  lemma {:induction false} InsertKeepsOrder(metric: Metric, rows: seq<Row>, sorted: seq<nat>, i: nat)
    requires i < |rows| && forall k :: 0 <= k < |sorted| ==> sorted[k] < i
    requires forall p, q :: 0 <= p < q < |sorted| ==> Ahead(metric, rows, sorted[p], sorted[q])
    ensures var r := Insert(metric, rows, sorted, i);
      && |r| == |sorted| + 1
      && i in r
      && (forall j :: j in sorted ==> j in r)
      && (forall k :: 0 <= k < |r| ==> r[k] <= i)
      && (forall k :: 0 <= k < |r| ==> r[k] == i || r[k] in sorted)
      && (forall p, q :: 0 <= p < q < |r| ==> Ahead(metric, rows, r[p], r[q]))
  {
    var n := |sorted| - 1;
    if sorted != [] && Better(metric, rows[i], rows[sorted[n]]) {
      InsertKeepsOrder(metric, rows, sorted[..n], i);
      var front := Insert(metric, rows, sorted[..n], i);
      forall p | 0 <= p < |front| ensures Ahead(metric, rows, front[p], sorted[n]) {
        if front[p] != i {
          var k :| 0 <= k < n && sorted[..n][k] == front[p];
          assert Ahead(metric, rows, sorted[k], sorted[n]);
        }
      }
    } else if sorted != [] {
      forall p | 0 <= p < |sorted| ensures Ahead(metric, rows, sorted[p], i) {
        if p < n {
          assert Ahead(metric, rows, sorted[p], sorted[n]);
        }
      }
    }
  }

  // ---------- The sort refines the reference ----------

  function SetOf(s: seq<nat>): set<nat> {
    set x | x in s
  }

  lemma {:induction false} DistinctCount(s: seq<nat>)
    requires forall p, q :: 0 <= p < q < |s| ==> s[p] != s[q]
    ensures |SetOf(s)| == |s|
  {
    if s != [] {
      var n := |s| - 1;
      DistinctCount(s[..n]);
      assert s == s[..n] + [s[n]];
      assert SetOf(s) == SetOf(s[..n]) + {s[n]};
    }
  }

  /** The row at position `p` of the stable sort has rank p + 1. */
  lemma SortRefinesRank(metric: Metric, rows: seq<Row>, p: nat)
    requires p < |rows|
    ensures Rank(metric, rows, Sorted(metric, rows, |rows|)[p]) == p + 1
  {
    hide Ahead, Sorted;
    var order := Sorted(metric, rows, |rows|);
    var i := order[p];
    forall j: nat | j < |rows| ensures j in order[..p] <==> Ahead(metric, rows, j, i) {
      assert j in order;
      var q :| 0 <= q < |order| && order[q] == j;
      NotBothAhead(metric, rows, i, j);
      if q < p {
        assert order[..p][q] == j;
      } else if q > p {
        assert Ahead(metric, rows, order[p], order[q]);
      }
    }
    assert AllAhead(metric, rows, i) == SetOf(order[..p]);
    forall a, b | 0 <= a < b < p ensures order[..p][a] != order[..p][b] {
      NotBothAhead(metric, rows, order[a], order[b]);
    }
    DistinctCount(order[..p]);
  }

  /** Rows compare by rank exactly as the reference order says; in particular no two share a rank. */
  lemma RankOrders(metric: Metric, rows: seq<Row>, i: nat, j: nat)
    requires i < |rows| && j < |rows|
    ensures Rank(metric, rows, i) < Rank(metric, rows, j) <==> Ahead(metric, rows, i, j)
    ensures Rank(metric, rows, i) == Rank(metric, rows, j) <==> i == j
    ensures 1 <= Rank(metric, rows, i) <= |rows|
  {
    hide Rank, Ahead, Sorted;
    var order := Sorted(metric, rows, |rows|);
    assert i in order && j in order;
    var p :| 0 <= p < |order| && order[p] == i;
    var q :| 0 <= q < |order| && order[q] == j;
    SortRefinesRank(metric, rows, p);
    SortRefinesRank(metric, rows, q);
    NotBothAhead(metric, rows, i, j);
    if p < q {
      assert Ahead(metric, rows, order[p], order[q]);
    } else if q < p {
      assert Ahead(metric, rows, order[q], order[p]);
    }
  }

  lemma NotBothAhead(metric: Metric, rows: seq<Row>, i: nat, j: nat)
    requires i < |rows| && j < |rows|
    ensures !(Ahead(metric, rows, i, j) && Ahead(metric, rows, j, i))
  {
  }

  /** By profit: the larger gain ranks first, equal gains in the order they are read. */
  lemma RankByUsdIff(rows: seq<Row>, i: nat, j: nat)
    requires i < |rows| && j < |rows|
    ensures Rank(ByProfitUsd, rows, i) < Rank(ByProfitUsd, rows, j)
      <==> var a, b := rows[i].balance - rows[i].start, rows[j].balance - rows[j].start;
           a > b || (a == b && i < j)
  {
    RankOrders(ByProfitUsd, rows, i, j);
    hide Rank;
  }

  /** `pct` is the gain in hundredths of a percent of the start, to the nearest one, halves up; 0 without a
      start. */
  predicate IsPct(r: Row, pct: int) {
    if r.start <= 0 then pct == 0
    else -0.5 < pct as real - 10000.0 * ((r.balance - r.start) as real / r.start as real) <= 0.5
  }

  lemma PctIsOne(r: Row, pct: int)
    ensures IsPct(r, pct) <==> pct == ProfitPct(r)
  {
    if r.start > 0 {
      var x := (r.balance - r.start) as real / r.start as real;
      assert pct == (x * 10000.0 + 0.5).Floor <==> -0.5 < pct as real - 10000.0 * x <= 0.5;
    }
  }

  /** By percentage: the larger rounded percentage ranks first, then the larger gain, then the order of
      reading. */
  lemma RankByPctIff(rows: seq<Row>, i: nat, j: nat, p: int, q: int)
    requires i < |rows| && j < |rows| && IsPct(rows[i], p) && IsPct(rows[j], q)
    ensures Rank(ByProfitPct, rows, i) < Rank(ByProfitPct, rows, j)
      <==> var a, b := rows[i].balance - rows[i].start, rows[j].balance - rows[j].start;
           p > q || (p == q && (a > b || (a == b && i < j)))
  {
    PctIsOne(rows[i], p);
    PctIsOne(rows[j], q);
    RankOrders(ByProfitPct, rows, i, j);
    hide Rank, ProfitPct, IsPct;
  }

  /** Every rank from 1 to n is given to exactly one row. */
  lemma RanksAreOneToN(metric: Metric, rows: seq<Row>, rank: nat)
    requires 1 <= rank <= |rows|
    ensures exists i: nat :: i < |rows| && Rank(metric, rows, i) == rank
    ensures forall i: nat, j: nat ::
      i < |rows| && j < |rows| && Rank(metric, rows, i) == rank == Rank(metric, rows, j) ==> i == j
  {
    SortRefinesRank(metric, rows, rank - 1);
    assert Rank(metric, rows, Sorted(metric, rows, |rows|)[rank - 1]) == rank;
    forall i: nat, j: nat | i < |rows| && j < |rows| && Rank(metric, rows, i) == rank == Rank(metric, rows, j)
      ensures i == j
    {
      RankOrders(metric, rows, i, j);
    }
  }

  // ---------- Correcting one balance ----------

  lemma KeyMonotone(metric: Metric, r: Row, raised: Row)
    requires raised.start == r.start && raised.balance >= r.balance
    ensures Key(metric, raised) >= Key(metric, r) && ProfitUsd(raised) >= ProfitUsd(r)
  {
    if r.start > 0 {
      var a, b := (r.balance - r.start) as real, (raised.balance - r.start) as real;
      assert a / r.start as real <= b / r.start as real;
    }
  }

  lemma {:induction false} SubsetCount(a: set<nat>, b: set<nat>)
    requires a <= b
    ensures |a| <= |b|
  {
    if a != {} {
      var x :| x in a;
      SubsetCount(a - {x}, b - {x});
    }
  }

  // ---------- Row order ----------

  /** `there` lists the rows of `here` in another order: row `i` stands at `to(i)`. */
  ghost predicate Reordered(here: seq<Row>, there: seq<Row>, to: nat -> nat) {
    && |there| == |here|
    && (forall i: nat :: i < |here| ==> to(i) < |here| && there[to(i)] == here[i])
    && (forall i: nat, j: nat :: i < j < |here| ==> to(i) != to(j))
  }

  predicate NoTies(metric: Metric, rows: seq<Row>) {
    forall i: nat, j: nat :: i < j < |rows| ==> !Tied(metric, rows[i], rows[j])
  }

  lemma {:induction false} ImageCount(a: set<nat>, to: nat -> nat, n: nat)
    requires forall i :: i in a ==> i < n
    requires forall i: nat, j: nat :: i < j < n ==> to(i) != to(j)
    ensures |set i | i in a :: to(i)| == |a|
  {
    if a == {} {
      assert (set i | i in a :: to(i)) == {};
    } else {
      var x :| x in a;
      var rest := a - {x};
      ImageCount(rest, to, n);
      forall i | i in rest ensures to(i) != to(x) {
        assert i < x || x < i;
      }
      assert (set i | i in a :: to(i)) == (set i | i in rest :: to(i)) + {to(x)};
    }
  }

  /** Without ties the ranks do not depend on the order in which the rows are read, so re-ranking
      unchanged entries writes what is already there. */
  lemma RowOrderIrrelevantWithoutTies(metric: Metric, here: seq<Row>, there: seq<Row>, to: nat -> nat, i: nat)
    requires Reordered(here, there, to) && NoTies(metric, here) && i < |here|
    ensures Rank(metric, there, to(i)) == Rank(metric, here, i)
  {
    var ahead := AllAhead(metric, here, i);
    var image := set j | j in ahead :: to(j);
    ImageCount(ahead, to, |here|);
    forall j: nat | j < |here| ensures Ahead(metric, here, j, i) <==> Ahead(metric, there, to(j), to(i)) {
      assert there[to(j)] == here[j] && there[to(i)] == here[i];
      if i < j {
        assert !Tied(metric, here[i], here[j]);
      } else if j < i {
        assert !Tied(metric, here[j], here[i]);
      }
    }
    forall k: nat | k < |there| && Ahead(metric, there, k, to(i)) ensures k in image {
      ReorderedOnto(here, there, to, k);
      var j: nat :| j < |here| && to(j) == k;
      assert j in ahead;
    }
    assert AllAhead(metric, there, to(i)) == image;
  }

  predicate IsRow(j: nat, n: nat) {
    j < n
  }

  /** An injection of n row numbers into n row numbers hits every one of them. */
  lemma ReorderedOnto(here: seq<Row>, there: seq<Row>, to: nat -> nat, k: nat)
    requires Reordered(here, there, to) && k < |here|
    ensures exists j: nat :: j < |here| && to(j) == k
  {
    var n := |here|;
    var all := set j: nat | j < n && IsRow(j, n);
    var image := set j | j in all :: to(j);
    ImageCount(all, to, n);
    if k !in image {
      forall x | x in image ensures x in all - {k} {
      }
      SubsetCount(image, all - {k});
    }
  }

  /** Only an exact tie depends on it: exchanging two tied rows in the read order changes the rank of
      at least one of them. */
  lemma TiesDependOnRowOrder(metric: Metric, rows: seq<Row>, i: nat, j: nat)
    requires i < j < |rows| && Tied(metric, rows[i], rows[j])
    ensures var there := rows[i := rows[j]][j := rows[i]];
      Rank(metric, there, j) != Rank(metric, rows, i) || Rank(metric, there, i) != Rank(metric, rows, j)
  {
    var there := rows[i := rows[j]][j := rows[i]];
    RankOrders(metric, rows, i, j);
    RankOrders(metric, there, i, j);
    assert Ahead(metric, rows, i, j) && Ahead(metric, there, i, j);
  }

  // ---------- Raising one balance, with the rows read in any order ----------

  predicate SameOrder(i: nat, j: nat, to: nat -> nat) {
    i < j <==> to(i) < to(j)
  }

  /** Two rows rank alike in two read orders if and only if they do not tie or are read in the same
      order both times. */
  lemma PairAgreesIff(metric: Metric, here: seq<Row>, there: seq<Row>, to: nat -> nat, i: nat, j: nat)
    requires |there| == |here| && i < |here| && j < |here| && to(i) < |here| && to(j) < |here|
    requires i != j && to(i) != to(j)
    requires there[to(i)] == here[i] && there[to(j)] == here[j]
    ensures (Rank(metric, here, i) < Rank(metric, here, j) <==> Rank(metric, there, to(i)) < Rank(metric, there, to(j)))
      <==> (!Tied(metric, here[i], here[j]) || SameOrder(i, j, to))
  {
    RankOrders(metric, here, i, j);
    RankOrders(metric, there, to(i), to(j));
    hide Rank, Key, ProfitUsd;
  }

  /** The raised row beats what it was. */
  lemma RaisedIsBetter(metric: Metric, r: Row, raised: Row, other: Row)
    requires raised.start == r.start && raised.balance > r.balance
    ensures Better(metric, other, raised) || Tied(metric, other, raised) ==> Better(metric, other, r)
  {
    KeyMonotone(metric, r, raised);
    hide ProfitPct;
  }

  /** Raising one balance never worsens its rank, even if the rows are read in another order the second
      time: whoever is ahead of the raised row, by a tie or not, was strictly better before. */
  lemma RaisingNeverWorsens(metric: Metric, here: seq<Row>, there: seq<Row>, to: nat -> nat, k: nat, balance: int)
    requires k < |here| && balance > here[k].balance
    requires Reordered(here[k := here[k].(balance := balance)], there, to)
    ensures Rank(metric, there, to(k)) <= Rank(metric, here, k)
  {
    var raised := here[k := here[k].(balance := balance)];
    var ahead := AllAhead(metric, here, k);
    var image := set j | j in ahead :: to(j);
    ImageCount(ahead, to, |here|);
    forall q: nat | q in AllAhead(metric, there, to(k)) ensures q in image {
      ReorderedOnto(raised, there, to, q);
      var j: nat :| j < |here| && to(j) == q;
      assert there[q] == raised[j] && there[to(k)] == raised[k];
      assert j != k;
      RaisedIsBetter(metric, here[k], raised[k], here[j]);
      assert j in ahead;
    }
    SubsetCount(AllAhead(metric, there, to(k)), image);
  }
}
