/**
 Count tables over two key columns, as built by a count pivot table with
 `fill_value=0` or by a cross-tabulation: the row keys and column keys are
 the values observed in the data, every combination of an observed row key
 and an observed column key has a cell, and a cell holds the number of rows
 with that pair of keys. Key order is not modelled: keys are sets.
 */
module CrossTabs {
  import opened Counting

  /** A count table. `At` reads a cell; a pair outside the table reads 0. */
  datatype CrossTab<R, C> = CrossTab(rowKeys: set<R>, colKeys: set<C>, cells: map<(R, C), nat>)
  {
    function At(r: R, c: C): nat {
      if (r, c) in cells then cells[(r, c)] else 0
    }
  }

  /** Every combination of a row key and a column key. */
  function Product<R(==,!new), C(==,!new)>(rs: set<R>, cs: set<C>): (p: set<(R, C)>)
    ensures forall r, c :: (r, c) in p <==> r in rs && c in cs
  {
    set r, c | r in rs && c in cs :: (r, c)
  }

  /** The rows of `xs` whose row key is `r` and whose column key is `c`. */
  function Cell<T(==,!new), R(==), C(==)>(xs: seq<T>, rowKey: T -> R, colKey: T -> C, r: R, c: C): seq<T> {
    Where(Where(xs, rowKey, r), colKey, c)
  }

  /** The count table of `xs` over `rowKey` and `colKey`. */
  function Tabulate<T(==,!new), R(==,!new), C(==,!new)>(xs: seq<T>, rowKey: T -> R, colKey: T -> C): CrossTab<R, C> {
    var rs := Observed(xs, rowKey);
    var cs := Observed(xs, colKey);
    CrossTab(rs, cs, map p | p in Product(rs, cs) :: |Cell(xs, rowKey, colKey, p.0, p.1)|)
  }

  /** The table's keys are the observed keys, and it is dense over them. */
  lemma TabulateKeys<T(!new), R(!new), C(!new)>(xs: seq<T>, rowKey: T -> R, colKey: T -> C)
    ensures Tabulate(xs, rowKey, colKey).rowKeys == Observed(xs, rowKey)
    ensures Tabulate(xs, rowKey, colKey).colKeys == Observed(xs, colKey)
    ensures forall r, c :: (r, c) in Tabulate(xs, rowKey, colKey).cells <==> r in Observed(xs, rowKey) && c in Observed(xs, colKey)
  {
  }

  /** Every cell, inside or outside the table, reads the number of rows with
      that pair of keys: pairs never observed read 0. */
  lemma TabulateAt<T(!new), R(!new), C(!new)>(xs: seq<T>, rowKey: T -> R, colKey: T -> C, r: R, c: C)
    ensures Tabulate(xs, rowKey, colKey).At(r, c) == |Cell(xs, rowKey, colKey, r, c)|
  {
    var tab := Tabulate(xs, rowKey, colKey);
    var rows := Where(xs, rowKey, r);
    TabulateKeys(xs, rowKey, colKey);
    if |Cell(xs, rowKey, colKey, r, c)| > 0 {
      WhereNonEmpty(rows, colKey, c);
      WhereMembers(xs, rowKey, r);
      var i :| 0 <= i < |rows| && colKey(rows[i]) == c;
      assert rows[i] in xs;
      assert (r, c) in tab.cells;
    }
  }

  /** Sum of row `r` over the column keys `cs`. */
  function RowSum<R, C>(tab: CrossTab<R, C>, r: R, cs: seq<C>): nat {
    if |cs| == 0 then 0 else tab.At(r, cs[0]) + RowSum(tab, r, cs[1..])
  }

  /** Sum of every cell over the row keys `rs` and the column keys `cs`. */
  function Total<R, C>(tab: CrossTab<R, C>, rs: seq<R>, cs: seq<C>): nat {
    if |rs| == 0 then 0 else RowSum(tab, rs[0], cs) + Total(tab, rs[1..], cs)
  }

  /** A row sum of a count table is the number of that row key's rows,
      split across the listed column keys. */
  lemma {:induction false} RowSumCounts<T(!new), R(!new), C(!new)>(xs: seq<T>, rowKey: T -> R, colKey: T -> C, r: R, cs: seq<C>)
    ensures RowSum(Tabulate(xs, rowKey, colKey), r, cs) == SumKeys(Where(xs, rowKey, r), colKey, cs)
  {
    if |cs| > 0 {
      TabulateAt(xs, rowKey, colKey, r, cs[0]);
      RowSumCounts(xs, rowKey, colKey, r, cs[1..]);
    }
  }

  /** When the column list names every observed column key once, a row sum
      is the number of rows with that row key. */
  lemma RowSumIsRowCount<T(!new), R(!new), C(!new)>(xs: seq<T>, rowKey: T -> R, colKey: T -> C, r: R, cs: seq<C>)
    requires Distinct(cs)
    requires forall k :: k in Observed(xs, colKey) ==> k in cs
    ensures RowSum(Tabulate(xs, rowKey, colKey), r, cs) == |Where(xs, rowKey, r)|
  {
    RowSumCounts(xs, rowKey, colKey, r, cs);
    var sel := Where(xs, rowKey, r);
    WhereMembers(xs, rowKey, r);
    forall i | 0 <= i < |sel| ensures colKey(sel[i]) in cs {
      assert sel[i] in sel;
      assert sel[i] in xs;
      var j :| 0 <= j < |xs| && xs[j] == sel[i];
      assert colKey(xs[j]) in Observed(xs, colKey);
    }
    SumKeysCovers(sel, colKey, cs);
  }

  /** When both key lists name every observed key once, the table's cells add
      up to the number of rows. */
  lemma {:induction false} TotalIsRowCount<T(!new), R(!new), C(!new)>(xs: seq<T>, rowKey: T -> R, colKey: T -> C, rs: seq<R>, cs: seq<C>)
    requires Distinct(rs) && Distinct(cs)
    requires forall k :: k in Observed(xs, rowKey) ==> k in rs
    requires forall k :: k in Observed(xs, colKey) ==> k in cs
    ensures Total(Tabulate(xs, rowKey, colKey), rs, cs) == |xs|
  {
    TotalByRows(xs, rowKey, colKey, rs, cs);
    forall i | 0 <= i < |xs| ensures rowKey(xs[i]) in rs {
      assert rowKey(xs[i]) in Observed(xs, rowKey);
    }
    SumKeysCovers(xs, rowKey, rs);
  }

  /** The grand total is the sum of the row counts of the listed row keys. */
  lemma {:induction false} TotalByRows<T(!new), R(!new), C(!new)>(xs: seq<T>, rowKey: T -> R, colKey: T -> C, rs: seq<R>, cs: seq<C>)
    requires Distinct(cs)
    requires forall k :: k in Observed(xs, colKey) ==> k in cs
    ensures Total(Tabulate(xs, rowKey, colKey), rs, cs) == SumKeys(xs, rowKey, rs)
  {
    if |rs| > 0 {
      RowSumIsRowCount(xs, rowKey, colKey, rs[0], cs);
      TotalByRows(xs, rowKey, colKey, rs[1..], cs);
    }
  }
}
