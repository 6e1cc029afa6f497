/**
 Sequence helpers shared by the aggregation step: selecting the rows whose key
 equals a value (a boolean-mask selection on a data frame), taking a column,
 the distinct values of a column in order of first appearance (`unique()`),
 and sums of counts over a list of keys.
 */
module Counting {

  /** No value occurs twice in `ks`. */
  predicate Distinct<K(==)>(ks: seq<K>) {
    forall i, j :: 0 <= i < j < |ks| ==> ks[i] != ks[j]
  }

  /** The rows of `xs` whose key is `k`, in their original order. */
  function Where<T(==,!new), K(==)>(xs: seq<T>, key: T -> K, k: K): (r: seq<T>)
    ensures |r| <= |xs|
    ensures forall i :: 0 <= i < |r| ==> key(r[i]) == k
  {
    if |xs| == 0 then []
    else (if key(xs[0]) == k then [xs[0]] else []) + Where(xs[1..], key, k)
  }

  /** The selected rows are exactly the rows of `xs` with key `k`. */
  lemma {:induction false} WhereMembers<T(!new), K>(xs: seq<T>, key: T -> K, k: K)
    ensures forall x :: x in Where(xs, key, k) <==> x in xs && key(x) == k
  {
    if |xs| > 0 {
      WhereMembers(xs[1..], key, k);
      assert xs == [xs[0]] + xs[1..];
    }
  }

  /** Selection keeps every row with key `k` as often as it occurs in `xs`,
      and drops every other row. */
  lemma {:induction false} WhereCount<T(!new), K>(xs: seq<T>, key: T -> K, k: K)
    ensures forall x :: multiset(Where(xs, key, k))[x] == if key(x) == k then multiset(xs)[x] else 0
  {
    if |xs| > 0 {
      WhereCount(xs[1..], key, k);
      assert xs == [xs[0]] + xs[1..];
    }
  }

  /** The column of key values, one per row. */
  function Column<T, K>(xs: seq<T>, key: T -> K): (col: seq<K>)
    ensures |col| == |xs|
    ensures forall i :: 0 <= i < |xs| ==> col[i] == key(xs[i])
  {
    seq(|xs|, i requires 0 <= i < |xs| => key(xs[i]))
  }

  /** The set of key values observed in `xs`. */
  function Observed<T, K(==)>(xs: seq<T>, key: T -> K): set<K> {
    set i | 0 <= i < |xs| :: key(xs[i])
  }

  /** Index of the first occurrence of `x` in `xs`. */
  function FirstIndex<K(==)>(xs: seq<K>, x: K): (n: nat)
    requires x in xs
    ensures n < |xs| && xs[n] == x
    ensures forall j :: 0 <= j < n ==> xs[j] != x
  {
    if xs[0] == x then 0 else 1 + FirstIndex(xs[1..], x)
  }

  /** The distinct values of `xs`, each once, in order of first appearance. */
  function Unique<K(==,!new)>(xs: seq<K>): (u: seq<K>)
    ensures Distinct(u)
    ensures forall x :: x in u <==> x in xs
    ensures |u| <= |xs|
    decreases |xs|
  {
    if |xs| == 0 then []
    else
      var prefix := Unique(xs[..|xs| - 1]);
      var last := xs[|xs| - 1];
      assert forall x :: x in xs <==> x in xs[..|xs| - 1] || x == last;
      if last in prefix then prefix else prefix + [last]
  }

  /** Sum over `ks` of the number of rows of `xs` with each key. */
  function SumKeys<T(==,!new), K(==)>(xs: seq<T>, key: T -> K, ks: seq<K>): nat
  {
    if |ks| == 0 then 0 else |Where(xs, key, ks[0])| + SumKeys(xs, key, ks[1..])
  }

  /** Peeling the first row off `xs` lowers the sum by one exactly when that
      row's key is listed in the distinct list `ks`. */
  lemma {:induction false} SumKeysCons<T(!new), K>(xs: seq<T>, key: T -> K, ks: seq<K>)
    requires |xs| > 0
    requires Distinct(ks)
    ensures SumKeys(xs, key, ks) == (if key(xs[0]) in ks then 1 else 0) + SumKeys(xs[1..], key, ks)
  {
    if |ks| > 0 {
      assert Distinct(ks[1..]) by {
        forall i, j | 0 <= i < j < |ks[1..]| ensures ks[1..][i] != ks[1..][j] {
          assert ks[1..][i] == ks[i + 1] && ks[1..][j] == ks[j + 1];
        }
      }
      SumKeysCons(xs, key, ks[1..]);
      assert ks[0] !in ks[1..] by {
        forall j | 0 <= j < |ks[1..]| ensures ks[1..][j] != ks[0] {
          assert ks[1..][j] == ks[j + 1];
        }
      }
      assert key(xs[0]) in ks <==> key(xs[0]) == ks[0] || key(xs[0]) in ks[1..] by {
        assert ks == [ks[0]] + ks[1..];
      }
    }
  }

  /** When `ks` lists every key occurring in `xs` exactly once, the counts per
      key add up to the number of rows: every row is counted once. */
  lemma {:induction false} SumKeysCovers<T(!new), K>(xs: seq<T>, key: T -> K, ks: seq<K>)
    requires Distinct(ks)
    requires forall i :: 0 <= i < |xs| ==> key(xs[i]) in ks
    ensures SumKeys(xs, key, ks) == |xs|
  {
    if |xs| == 0 {
      SumKeysEmpty(xs, key, ks);
    } else {
      SumKeysCons(xs, key, ks);
      assert key(xs[0]) in ks;
      SumKeysCovers(xs[1..], key, ks);
    }
  }

  /** Every count over an empty sequence is zero. */
  lemma {:induction false} SumKeysEmpty<T(!new), K>(xs: seq<T>, key: T -> K, ks: seq<K>)
    requires |xs| == 0
    ensures SumKeys(xs, key, ks) == 0
  {
    if |ks| > 0 {
      SumKeysEmpty(xs, key, ks[1..]);
    }
  }

  /** Selecting on one key and then another gives the same rows as the other
      order: both keep exactly the rows matching both keys, in input order. */
  lemma {:induction false} WhereCommutes<T(!new), A, B>(xs: seq<T>, ka: T -> A, a: A, kb: T -> B, b: B)
    ensures Where(Where(xs, ka, a), kb, b) == Where(Where(xs, kb, b), ka, a)
  {
    if |xs| > 0 {
      WhereCommutes(xs[1..], ka, a, kb, b);
      WhereAppend(if ka(xs[0]) == a then [xs[0]] else [], Where(xs[1..], ka, a), kb, b);
      WhereAppend(if kb(xs[0]) == b then [xs[0]] else [], Where(xs[1..], kb, b), ka, a);
    }
  }

  /** Selection distributes over concatenation. */
  lemma {:induction false} WhereAppend<T(!new), K>(xs: seq<T>, ys: seq<T>, key: T -> K, k: K)
    ensures Where(xs + ys, key, k) == Where(xs, key, k) + Where(ys, key, k)
  {
    if |xs| == 0 {
      assert xs + ys == ys;
    } else {
      var zs := xs + ys;
      assert zs[0] == xs[0];
      assert zs[1..] == xs[1..] + ys;
      var head := if key(xs[0]) == k then [xs[0]] else [];
      WhereAppend(xs[1..], ys, key, k);
      assert Where(zs, key, k) == head + Where(zs[1..], key, k);
      assert Where(xs, key, k) == head + Where(xs[1..], key, k);
      assert head + (Where(xs[1..], key, k) + Where(ys, key, k))
          == (head + Where(xs[1..], key, k)) + Where(ys, key, k);
    }
  }

  /** Only values that occur in `xs` have a non-empty selection. */
  lemma WhereNonEmpty<T(!new), K>(xs: seq<T>, key: T -> K, k: K)
    requires |Where(xs, key, k)| > 0
    ensures k in Observed(xs, key)
  {
  }

  /** Selecting twice, peeled at the first row: that row survives exactly
      when it matches both keys. */
  lemma WhereWhereCons<T(!new), A, B>(xs: seq<T>, ka: T -> A, a: A, kb: T -> B, b: B)
    requires |xs| > 0
    ensures Where(Where(xs, ka, a), kb, b)
         == (if ka(xs[0]) == a && kb(xs[0]) == b then [xs[0]] else []) + Where(Where(xs[1..], ka, a), kb, b)
  {
    WhereAppend(if ka(xs[0]) == a then [xs[0]] else [], Where(xs[1..], ka, a), kb, b);
  }

  /** A value's first occurrence in a prefix is its first occurrence in the
      whole sequence. */
  lemma FirstIndexPrefix<K>(xs: seq<K>, n: nat, x: K)
    requires n <= |xs| && x in xs[..n]
    ensures x in xs && FirstIndex(xs, x) == FirstIndex(xs[..n], x)
  {
    var a := FirstIndex(xs[..n], x);
    assert xs[a] == x;
    var b := FirstIndex(xs, x);
    assert b <= a;
    assert xs[..n][b] == x;
  }

  /** `Unique` lists the values in the order of their first occurrence. */
  lemma {:induction false} UniqueFirstAppearance<K(!new)>(xs: seq<K>)
    ensures forall i, j :: 0 <= i < j < |Unique(xs)| ==> FirstIndex(xs, Unique(xs)[i]) < FirstIndex(xs, Unique(xs)[j])
    decreases |xs|
  {
    if |xs| > 0 {
      var n := |xs| - 1;
      var prefix := xs[..n];
      var last := xs[n];
      var up := Unique(prefix);
      UniqueFirstAppearance(prefix);
      forall i | 0 <= i < |up| ensures up[i] in xs && FirstIndex(xs, up[i]) == FirstIndex(prefix, up[i]) < n {
        FirstIndexPrefix(xs, n, up[i]);
      }
      if last !in up {
        assert last !in prefix;
        assert FirstIndex(xs, last) == n;
      }
    }
  }

  /** A sequence without repeats has as many elements as its set. */
  lemma {:induction false} DistinctCard<K>(ks: seq<K>)
    requires Distinct(ks)
    ensures |set k | k in ks| == |ks|
  {
    if |ks| > 0 {
      var rest := ks[1..];
      assert Distinct(rest) by {
        forall i, j | 0 <= i < j < |rest| ensures rest[i] != rest[j] {
          assert rest[i] == ks[i + 1] && rest[j] == ks[j + 1];
        }
      }
      DistinctCard(rest);
      assert ks[0] !in rest by {
        forall j | 0 <= j < |rest| ensures rest[j] != ks[0] {
          assert rest[j] == ks[j + 1];
        }
      }
      assert (set k | k in ks) == {ks[0]} + (set k | k in rest) by {
        assert ks == [ks[0]] + rest;
      }
    }
  }
}
