/** Aggregation over lists: WHERE, SUM, and sums of sums taken in either order. */
module Sums {
  import opened Seqs

  function Select<T(!new)>(rows: seq<T>, p: T -> bool): (chosen: seq<T>)
    ensures forall r :: r in chosen <==> r in rows && p(r)
  {
    if rows == [] then []
    else
      var before, last := Select(rows[..|rows| - 1], p), rows[|rows| - 1];
      assert rows == rows[..|rows| - 1] + [last];
      if p(last) then before + [last] else before
  }

  function Sum<T>(rows: seq<T>, f: T -> int): int {
    if rows == [] then 0 else Sum(rows[..|rows| - 1], f) + f(rows[|rows| - 1])
  }

  /** SUM(f) WHERE p. */
  function SumIf<T>(rows: seq<T>, p: T -> bool, f: T -> int): int {
    if rows == [] then 0
    else SumIf(rows[..|rows| - 1], p, f) + (if p(rows[|rows| - 1]) then f(rows[|rows| - 1]) else 0)
  }

  /** SUM(f) WHERE key = k. */
  function SumWhere<T, K(==)>(rows: seq<T>, key: T -> K, k: K, f: T -> int): int {
    if rows == [] then 0
    else SumWhere(rows[..|rows| - 1], key, k, f) + (if key(rows[|rows| - 1]) == k then f(rows[|rows| - 1]) else 0)
  }

  function Count<K(==)>(keys: seq<K>, k: K): nat {
    if keys == [] then 0 else Count(keys[..|keys| - 1], k) + (if keys[|keys| - 1] == k then 1 else 0)
  }

  /** Key by key, then row by row. */
  function SumGroups<T, K(==)>(keys: seq<K>, rows: seq<T>, key: T -> K, f: T -> int): int {
    if keys == [] then 0
    else SumGroups(keys[..|keys| - 1], rows, key, f) + SumWhere(rows, key, keys[|keys| - 1], f)
  }

  /** Row by row, each as often as its key is listed. */
  function SumListed<T, K(==)>(keys: seq<K>, rows: seq<T>, key: T -> K, f: T -> int): int {
    if rows == [] then 0
    else
      var last := rows[|rows| - 1];
      SumListed(keys, rows[..|rows| - 1], key, f) + f(last) * Count(keys, key(last))
  }

  lemma {:induction false} ListedNone<T, K>(rows: seq<T>, key: T -> K, f: T -> int)
    ensures SumListed([], rows, key, f) == 0
  {
    if rows != [] { ListedNone(rows[..|rows| - 1], key, f); }
  }

  lemma {:induction false} ListedAppend<T, K>(keys: seq<K>, k: K, rows: seq<T>, key: T -> K, f: T -> int)
    ensures SumListed(keys + [k], rows, key, f) == SumListed(keys, rows, key, f) + SumWhere(rows, key, k, f)
  {
    if rows != [] {
      var last := rows[|rows| - 1];
      ListedAppend(keys, k, rows[..|rows| - 1], key, f);
      assert (keys + [k])[..|keys|] == keys;
      var n, extra := Count(keys, key(last)), if key(last) == k then 1 else 0;
      assert f(last) * (n + extra) == f(last) * n + f(last) * extra;
    }
  }

  /** Exchange of summation. */
  lemma {:induction false} Exchange<T, K>(keys: seq<K>, rows: seq<T>, key: T -> K, f: T -> int)
    ensures SumGroups(keys, rows, key, f) == SumListed(keys, rows, key, f)
  {
    if keys == [] {
      ListedNone(rows, key, f);
    } else {
      var init, last := keys[..|keys| - 1], keys[|keys| - 1];
      Exchange(init, rows, key, f);
      ListedAppend(init, last, rows, key, f);
      assert keys == init + [last];
    }
  }

  lemma {:induction false} CountDistinct<K>(keys: seq<K>, k: K)
    requires Distinct(keys)
    ensures Count(keys, k) == if k in keys then 1 else 0
  {
    if keys != [] {
      var init, last := keys[..|keys| - 1], keys[|keys| - 1];
      CountDistinct(init, k);
      assert keys == init + [last];
    }
  }

  /** SUM(f) WHERE key IN keys. */
  function SumIn<T, K(==)>(rows: seq<T>, keys: set<K>, key: T -> K, f: T -> int): int {
    if rows == [] then 0
    else SumIn(rows[..|rows| - 1], keys, key, f) + (if key(rows[|rows| - 1]) in keys then f(rows[|rows| - 1]) else 0)
  }

  /** Distinct keys pick out each row at most once. */
  lemma {:induction false} ListedOnce<T, K>(keys: seq<K>, rows: seq<T>, key: T -> K, f: T -> int)
    requires Distinct(keys)
    ensures SumListed(keys, rows, key, f) == SumIn(rows, Elements(keys), key, f)
  {
    if rows != [] {
      ListedOnce(keys, rows[..|rows| - 1], key, f);
      CountDistinct(keys, key(rows[|rows| - 1]));
    }
  }

  lemma {:induction false} SumInAll<T, K>(rows: seq<T>, keys: set<K>, key: T -> K, f: T -> int)
    requires forall r :: r in rows ==> key(r) in keys
    ensures SumIn(rows, keys, key, f) == Sum(rows, f)
  {
    if rows != [] {
      var init := rows[..|rows| - 1];
      assert rows == init + [rows[|rows| - 1]];
      SumInAll(init, keys, key, f);
    }
  }

  lemma {:induction false} SumIfNone<T>(rows: seq<T>, p: T -> bool, f: T -> int)
    requires forall r :: r in rows ==> !p(r)
    ensures SumIf(rows, p, f) == 0
  {
    if rows != [] {
      var init := rows[..|rows| - 1];
      assert rows == init + [rows[|rows| - 1]];
      SumIfNone(init, p, f);
    }
  }

  /** Distinct keys that cover the rows partition every sum over them. */
  lemma PartitionSum<T, K>(keys: seq<K>, rows: seq<T>, key: T -> K, f: T -> int)
    requires Distinct(keys) && forall r :: r in rows ==> key(r) in keys
    ensures SumGroups(keys, rows, key, f) == Sum(rows, f)
  {
    Exchange(keys, rows, key, f);
    ListedOnce(keys, rows, key, f);
    SumInAll(rows, Elements(keys), key, f);
  }
}
