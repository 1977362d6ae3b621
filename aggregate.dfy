/**
  The grouping the scripts hand to pandas, written as folds over sequences:
  group sizes (`groupby(...).size()`), per-group sentiment sums and means, and
  the contingency table `pd.crosstab` builds for a chi-square test, with the
  shape guard that decides whether the test is run at all.
*/
module Aggregate {

  // ---------------------------------------------------------------------------
  // Group sizes

  /** `groupby(keys).size()`: how many times each key occurs. */
  function Tally<K(==)>(ks: seq<K>): (m: map<K, nat>)
    ensures m.Keys == set k | k in ks
    ensures forall k :: k in m ==> m[k] == multiset(ks)[k]
  {
    if ks == [] then map[]
    else
      var init, k := ks[..|ks| - 1], ks[|ks| - 1];
      assert ks == init + [k];
      var m := Tally(init);
      m[k := if k in m then m[k] + 1 else 1]
  }

  // ---------------------------------------------------------------------------
  // Mean sentiment per group

  /** What a group accumulates: its size and the sum of its values. */
  datatype Stat = Stat(n: nat, total: real)

  /** `mean`: the sum over the size. */
  function Mean(s: Stat): real
    requires s.n > 0
  {
    s.total / s.n as real
  }

  /** Adds one `(key, value)` entry to the running groups. */
  function Add<K(==)>(m: map<K, Stat>, e: (K, real)): map<K, Stat>
  {
    m[e.0 := if e.0 in m then Stat(m[e.0].n + 1, m[e.0].total + e.1) else Stat(1, e.1)]
  }

  /** `groupby(key).agg(mean=..., n=size)` before the division: size and sum per key. */
  function GroupStats<K(==)>(entries: seq<(K, real)>): (m: map<K, Stat>)
    ensures m.Keys == set e | e in entries :: e.0
    ensures forall k :: k in m ==> m[k].n > 0
  {
    if entries == [] then map[]
    else
      var init := entries[..|entries| - 1];
      assert entries == init + [entries[|entries| - 1]];
      Add(GroupStats(init), entries[|entries| - 1])
  }

  /** A group's size is the number of entries with its key, as `groupby(...).size()` counts them. */
  lemma {:induction false} GroupSizeIsTally<K>(entries: seq<(K, real)>)
    ensures forall k :: k in GroupStats(entries) ==> GroupStats(entries)[k].n == Tally(Firsts(entries))[k]
  {
    if entries != [] {
      var init := entries[..|entries| - 1];
      GroupSizeIsTally(init);
      assert Firsts(entries) == Firsts(init) + [entries[|entries| - 1].0];
      SameKeys(init);
    }
  }

  /** Grouping and counting see the same keys. */
  lemma SameKeys<K>(entries: seq<(K, real)>)
    ensures Tally(Firsts(entries)).Keys == GroupStats(entries).Keys
  {
    forall k | k in Firsts(entries) ensures exists e :: e in entries && e.0 == k {
      var i :| 0 <= i < |entries| && Firsts(entries)[i] == k;
      assert entries[i] in entries;
    }
  }

  ghost predicate SumWithinSize(s: Stat)
  {
    -(s.n as real) <= s.total <= s.n as real
  }

  /** Every value in [-1, 1] keeps each group's sum within its size. */
  lemma {:induction false} SumBounds<K>(entries: seq<(K, real)>)
    requires forall e :: e in entries ==> -1.0 <= e.1 <= 1.0
    ensures forall k :: k in GroupStats(entries) ==> SumWithinSize(GroupStats(entries)[k])
  {
    if entries != [] {
      var init, last := entries[..|entries| - 1], entries[|entries| - 1];
      assert forall e :: e in init ==> e in entries;
      SumBounds(init);
      assert last in entries;
      var g := GroupStats(init);
      assert GroupStats(entries) == Add(g, last);
      forall k | k in Add(g, last) ensures SumWithinSize(Add(g, last)[k]) {
        if k != last.0 {
          assert Add(g, last)[k] == g[k];
        }
      }
    }
  }

  /** A sum within the size gives a mean within [-1, 1]. */
  lemma MeanWithin(s: Stat)
    requires s.n > 0 && SumWithinSize(s)
    ensures -1.0 <= Mean(s) <= 1.0
  {
    var n := s.n as real;
    assert Mean(s) * n == s.total;
  }

  /** Every value in [-1, 1] gives every group a mean in [-1, 1]. */
  lemma MeanBounds<K>(entries: seq<(K, real)>)
    requires forall e :: e in entries ==> -1.0 <= e.1 <= 1.0
    ensures forall k :: k in GroupStats(entries) ==> -1.0 <= Mean(GroupStats(entries)[k]) <= 1.0
  {
    SumBounds(entries);
    forall k | k in GroupStats(entries)
      ensures -1.0 <= Mean(GroupStats(entries)[k]) <= 1.0
    {
      MeanWithin(GroupStats(entries)[k]);
    }
  }

  /** Adding two entries in either order gives the same groups (sums of reals commute). */
  lemma AddCommutes<K>(m: map<K, Stat>, x: (K, real), y: (K, real))
    ensures Add(Add(m, x), y) == Add(Add(m, y), x)
  {
  }

  /** One more entry at the end is one more `Add`. */
  lemma GroupStatsSnoc<K>(s: seq<(K, real)>, y: (K, real))
    ensures GroupStats(s + [y]) == Add(GroupStats(s), y)
  {
    assert (s + [y])[..|s|] == s;
  }

  /** An entry anywhere in the input contributes as if it came last. */
  lemma {:induction false} MoveToEnd<K>(p: seq<(K, real)>, x: (K, real), q: seq<(K, real)>)
    ensures GroupStats(p + [x] + q) == Add(GroupStats(p + q), x)
    decreases |q|
  {
    if q == [] {
      assert p + [x] + q == p + [x];
      assert p + q == p;
      GroupStatsSnoc(p, x);
    } else {
      var q', y := q[..|q| - 1], q[|q| - 1];
      assert p + [x] + q == (p + [x] + q') + [y];
      assert p + q == (p + q') + [y];
      GroupStatsSnoc(p + [x] + q', y);
      GroupStatsSnoc(p + q', y);
      MoveToEnd(p, x, q');
      AddCommutes(GroupStats(p + q'), x, y);
    }
  }

  /**
    The groups do not depend on the order of the input: any permutation of the
    entries gives the same sizes and the same sums, hence the same means.
  */
  lemma {:induction false} GroupStatsPermutation<K>(a: seq<(K, real)>, b: seq<(K, real)>)
    requires multiset(a) == multiset(b)
    ensures GroupStats(a) == GroupStats(b)
    decreases |a|
  {
    if a == [] {
      assert |b| == |multiset(b)| == 0;
    } else {
      var a', x := a[..|a| - 1], a[|a| - 1];
      assert a == a' + [x];
      assert x in multiset(b);
      var j :| 0 <= j < |b| && b[j] == x;
      var b' := b[..j] + b[j + 1..];
      assert b == b[..j] + [x] + b[j + 1..];
      assert multiset(b) == multiset(b[..j]) + multiset{x} + multiset(b[j + 1..]);
      assert multiset(b') == multiset(b[..j]) + multiset(b[j + 1..]);
      assert multiset(a) == multiset(a') + multiset{x};
      assert multiset(a') == multiset(a) - multiset{x};
      assert multiset(b') == multiset(b) - multiset{x};
      GroupStatsPermutation(a', b');
      MoveToEnd(b[..j], x, b[j + 1..]);
    }
  }

  // ---------------------------------------------------------------------------
  // Contingency tables

  /** The distinct values of `xs`, in order of first appearance. */
  function Distinct<T(==,!new)>(xs: seq<T>): (d: seq<T>)
    ensures forall x :: x in d <==> x in xs
    ensures forall i, j :: 0 <= i < j < |d| ==> d[i] != d[j]
  {
    if xs == [] then []
    else
      var d := Distinct(xs[..|xs| - 1]);
      var x := xs[|xs| - 1];
      assert forall y :: y in xs <==> y in xs[..|xs| - 1] || y == x;
      if x in d then d else d + [x]
  }

  /** A list of labels has more than one distinct value exactly when two of its entries differ. */
  lemma DistinctMoreThanOne<T(!new)>(xs: seq<T>)
    ensures |Distinct(xs)| > 1 <==> Varied(xs)
  {
    var d := Distinct(xs);
    if |d| > 1 {
      assert d[0] in xs && d[1] in xs;
      var i :| 0 <= i < |xs| && xs[i] == d[0];
      var j :| 0 <= j < |xs| && xs[j] == d[1];
    }
    if i, j :| 0 <= i < |xs| && 0 <= j < |xs| && xs[i] != xs[j] {
      assert xs[i] in d && xs[j] in d;
    }
  }

  /** The first components of the pairs, in order: a group's keys, or a crosstab's row values. */
  function Firsts<A, B>(pairs: seq<(A, B)>): (r: seq<A>)
    ensures |r| == |pairs| && forall i :: 0 <= i < |r| ==> r[i] == pairs[i].0
  {
    if pairs == [] then [] else Firsts(pairs[..|pairs| - 1]) + [pairs[|pairs| - 1].0]
  }

  /** The second components of the pairs, in order. */
  function Seconds<A, B>(pairs: seq<(A, B)>): (r: seq<B>)
    ensures |r| == |pairs| && forall i :: 0 <= i < |r| ==> r[i] == pairs[i].1
  {
    if pairs == [] then [] else Seconds(pairs[..|pairs| - 1]) + [pairs[|pairs| - 1].1]
  }

  lemma FirstsMembers(pairs: seq<(string, string)>)
    ensures forall x :: x in Firsts(pairs) <==> exists p :: p in pairs && p.0 == x
  {
    forall x | x in Firsts(pairs) ensures exists p :: p in pairs && p.0 == x {
      var i :| 0 <= i < |pairs| && Firsts(pairs)[i] == x;
      assert pairs[i] in pairs;
    }
  }

  lemma SecondsMembers(pairs: seq<(string, string)>)
    ensures forall y :: y in Seconds(pairs) <==> exists p :: p in pairs && p.1 == y
  {
    forall y | y in Seconds(pairs) ensures exists p :: p in pairs && p.1 == y {
      var i :| 0 <= i < |pairs| && Seconds(pairs)[i] == y;
      assert pairs[i] in pairs;
    }
  }

  /** A contingency table: row labels, column labels, and the observed count in each cell. */
  datatype Table = Table(rows: seq<string>, cols: seq<string>, cells: seq<seq<nat>>)

  /** One row of counts: the occurrences of `(r, c)` for each column label `c`. */
  function GridRow(m: multiset<(string, string)>, r: string, cols: seq<string>): (row: seq<nat>)
    ensures |row| == |cols|
  {
    if cols == [] then [] else GridRow(m, r, cols[..|cols| - 1]) + [m[(r, cols[|cols| - 1])]]
  }

  /** Cell `j` of a row counts the pairs `(r, cols[j])`. */
  lemma {:induction false} GridRowIndex(m: multiset<(string, string)>, r: string, cols: seq<string>, j: int)
    requires 0 <= j < |cols|
    ensures GridRow(m, r, cols)[j] == m[(r, cols[j])]
    decreases |cols|
  {
    if j < |cols| - 1 {
      GridRowIndex(m, r, cols[..|cols| - 1], j);
    }
  }

  function Grid(m: multiset<(string, string)>, rows: seq<string>, cols: seq<string>): (g: seq<seq<nat>>)
    ensures |g| == |rows|
  {
    if rows == [] then [] else Grid(m, rows[..|rows| - 1], cols) + [GridRow(m, rows[|rows| - 1], cols)]
  }

  /** Row `i` of the grid is the row of counts for label `rows[i]`. */
  lemma {:induction false} GridIndex(m: multiset<(string, string)>, rows: seq<string>, cols: seq<string>, i: int)
    requires 0 <= i < |rows|
    ensures Grid(m, rows, cols)[i] == GridRow(m, rows[i], cols)
    decreases |rows|
  {
    if i < |rows| - 1 {
      GridIndex(m, rows[..|rows| - 1], cols, i);
    }
  }

  /** Every cell of the grid counts the pairs with its row and column label. */
  lemma GridCells(m: multiset<(string, string)>, rows: seq<string>, cols: seq<string>)
    ensures forall i :: 0 <= i < |rows| ==> |Grid(m, rows, cols)[i]| == |cols|
    ensures forall i, j :: 0 <= i < |rows| && 0 <= j < |cols| ==> Grid(m, rows, cols)[i][j] == m[(rows[i], cols[j])]
  {
    forall i | 0 <= i < |rows| ensures Grid(m, rows, cols)[i] == GridRow(m, rows[i], cols) {
      GridIndex(m, rows, cols, i);
    }
    forall i, j | 0 <= i < |rows| && 0 <= j < |cols| ensures Grid(m, rows, cols)[i][j] == m[(rows[i], cols[j])] {
      GridRowIndex(m, rows[i], cols, j);
    }
  }

  /**
    `pd.crosstab(row_values, col_values)` over aligned pairs: one row per distinct
    row value and one column per distinct column value actually observed, and
    in each cell the number of pairs with that row and column value.
  */
  function Crosstab(pairs: seq<(string, string)>): (t: Table)
    ensures forall x :: x in t.rows <==> exists p :: p in pairs && p.0 == x
    ensures forall y :: y in t.cols <==> exists p :: p in pairs && p.1 == y
    ensures |t.cells| == |t.rows| && forall i :: 0 <= i < |t.rows| ==> |t.cells[i]| == |t.cols|
    ensures forall i, j :: 0 <= i < |t.rows| && 0 <= j < |t.cols| ==>
              t.cells[i][j] == multiset(pairs)[(t.rows[i], t.cols[j])]
  {
    var rows, cols := Distinct(Firsts(pairs)), Distinct(Seconds(pairs));
    FirstsMembers(pairs);
    SecondsMembers(pairs);
    GridCells(multiset(pairs), rows, cols);
    Table(rows, cols, Grid(multiset(pairs), rows, cols))
  }

  /** `tab.shape[0] > 1 and tab.shape[1] > 1`: the guard in front of every chi-square test. */
  predicate Testable(t: Table)
  {
    |t.rows| > 1 && |t.cols| > 1
  }

  function Sum(xs: seq<nat>): nat
  {
    if xs == [] then 0 else Sum(xs[..|xs| - 1]) + xs[|xs| - 1]
  }

  function GridSum(g: seq<seq<nat>>): nat
  {
    if g == [] then 0 else GridSum(g[..|g| - 1]) + Sum(g[|g| - 1])
  }

  lemma SumSnoc(xs: seq<nat>, x: nat)
    ensures Sum(xs + [x]) == Sum(xs) + x
  {
    assert (xs + [x])[..|xs|] == xs;
  }

  lemma RowSumSnoc(m: multiset<(string, string)>, r: string, cols: seq<string>)
    requires cols != []
    ensures Sum(GridRow(m, r, cols)) == Sum(GridRow(m, r, cols[..|cols| - 1])) + m[(r, cols[|cols| - 1])]
  {
    SumSnoc(GridRow(m, r, cols[..|cols| - 1]), m[(r, cols[|cols| - 1])]);
  }

  ghost predicate NoDuplicates(xs: seq<string>)
  {
    forall i, j :: 0 <= i < j < |xs| ==> xs[i] != xs[j]
  }

  /** Taking one pair out of the multiset lowers exactly one cell of a row, if it lies in that row. */
  lemma {:induction false} RowSumRemove(m: multiset<(string, string)>, p: (string, string), r: string, cols: seq<string>)
    requires p in m && NoDuplicates(cols)
    ensures Sum(GridRow(m, r, cols)) == Sum(GridRow(m - multiset{p}, r, cols)) + (if r == p.0 && p.1 in cols then 1 else 0)
    decreases |cols|
  {
    if cols != [] {
      var init, c := cols[..|cols| - 1], cols[|cols| - 1];
      var m' := m - multiset{p};
      assert NoDuplicates(init) by {
        forall i, j | 0 <= i < j < |init| ensures init[i] != init[j] {
          assert init[i] == cols[i] && init[j] == cols[j];
        }
      }
      RowSumRemove(m, p, r, init);
      RowSumSnoc(m, r, cols);
      RowSumSnoc(m', r, cols);
      assert m'[(r, c)] == m[(r, c)] - (if (r, c) == p then 1 else 0);
      if p.1 == c {
        assert p.1 !in init by {
          forall i | 0 <= i < |init| ensures init[i] != c {
            assert init[i] == cols[i];
          }
        }
      }
      assert p.1 in cols <==> p.1 in init || p.1 == c;
    }
  }

  lemma {:induction false} GridSumRemove(m: multiset<(string, string)>, p: (string, string), rows: seq<string>, cols: seq<string>)
    requires p in m && NoDuplicates(rows) && NoDuplicates(cols)
    ensures GridSum(Grid(m, rows, cols)) ==
            GridSum(Grid(m - multiset{p}, rows, cols)) + (if p.0 in rows && p.1 in cols then 1 else 0)
    decreases |rows|
  {
    if rows != [] {
      var init, r := rows[..|rows| - 1], rows[|rows| - 1];
      GridSumRemove(m, p, init, cols);
      RowSumRemove(m, p, r, cols);
      assert Grid(m, rows, cols)[..|rows| - 1] == Grid(m, init, cols);
      assert Grid(m - multiset{p}, rows, cols)[..|rows| - 1] == Grid(m - multiset{p}, init, cols);
      assert p.0 in rows <==> p.0 in init || p.0 == r;
      assert p.0 == r ==> p.0 !in init;
    }
  }

  /** With labels covering every pair, the cells of the grid add up to the number of pairs. */
  lemma {:induction false} GridSumCovers(m: multiset<(string, string)>, rows: seq<string>, cols: seq<string>)
    requires NoDuplicates(rows) && NoDuplicates(cols)
    requires forall p :: p in m ==> p.0 in rows && p.1 in cols
    ensures GridSum(Grid(m, rows, cols)) == |m|
    decreases |m|
  {
    if m == multiset{} {
      GridEmpty(rows, cols);
    } else {
      var p :| p in m;
      GridSumRemove(m, p, rows, cols);
      GridSumCovers(m - multiset{p}, rows, cols);
    }
  }

  lemma {:induction false} GridEmpty(rows: seq<string>, cols: seq<string>)
    ensures GridSum(Grid(multiset{}, rows, cols)) == 0
    decreases |rows|
  {
    if rows != [] {
      GridEmpty(rows[..|rows| - 1], cols);
      RowEmpty(rows[|rows| - 1], cols);
      assert Grid(multiset{}, rows, cols)[..|rows| - 1] == Grid(multiset{}, rows[..|rows| - 1], cols);
    }
  }

  lemma {:induction false} RowEmpty(r: string, cols: seq<string>)
    ensures Sum(GridRow(multiset{}, r, cols)) == 0
    decreases |cols|
  {
    if cols != [] {
      RowEmpty(r, cols[..|cols| - 1]);
      assert GridRow(multiset{}, r, cols)[..|cols| - 1] == GridRow(multiset{}, r, cols[..|cols| - 1]);
    }
  }

  /** Every observation lands in exactly one cell: the cells of a crosstab add up to the number of pairs. */
  lemma CrosstabTotal(pairs: seq<(string, string)>)
    ensures GridSum(Crosstab(pairs).cells) == |pairs|
  {
    var t := Crosstab(pairs);
    assert forall p :: p in multiset(pairs) ==> p.0 in t.rows && p.1 in t.cols;
    GridSumCovers(multiset(pairs), t.rows, t.cols);
  }

  /** At least two different values occur in `xs`. */
  ghost predicate Varied<T>(xs: seq<T>)
  {
    exists i, j :: 0 <= i < |xs| && 0 <= j < |xs| && xs[i] != xs[j]
  }

  /**
    The crosstab passes the guard exactly when two different row values and two
    different column values are observed; one row value alone, or one column
    value alone, gives no test.
  */
  lemma TestableIff(pairs: seq<(string, string)>)
    ensures Testable(Crosstab(pairs)) <==> Varied(Firsts(pairs)) && Varied(Seconds(pairs))
  {
    DistinctMoreThanOne(Firsts(pairs));
    DistinctMoreThanOne(Seconds(pairs));
  }
}
