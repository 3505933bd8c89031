/**
  Generic operations on a table, modelled as a sequence of rows.

  The store keeps every relation as a sequence; a lookup by primary key is a
  search, a `WHERE` clause is a filter, a `DELETE` by key is `Without`, an
  `UPDATE` by key is `Replace`, and `ORDER BY` is `SortBy`. Keys are passed as
  named functions so that one key denotes the same function everywhere.
 */
module Tables {
  import opened Outcomes

  /** The rows of `rows` that satisfy `p`, in their original order. */
  function Filter<T(!new)>(rows: seq<T>, p: T -> bool): (r: seq<T>)
    ensures |r| <= |rows|
    ensures forall x :: x in r <==> x in rows && p(x)
    ensures multiset(r) <= multiset(rows)
  {
    if |rows| == 0 then []
    else
      var tail := Filter(rows[1..], p);
      assert rows == [rows[0]] + rows[1..];
      if p(rows[0]) then [rows[0]] + tail else tail
  }

  /** A filter keeps each row that satisfies `p` exactly as often as it occurs, and no other. */
  lemma {:induction false} FilterMultiplicity<T(!new)>(rows: seq<T>, p: T -> bool)
    ensures forall x :: multiset(Filter(rows, p))[x] == if p(x) then multiset(rows)[x] else 0
  {
    if |rows| > 0 {
      FilterMultiplicity(rows[1..], p);
      assert rows == [rows[0]] + rows[1..];
      assert multiset(rows) == multiset{rows[0]} + multiset(rows[1..]);
    }
  }

  /** The number of rows that satisfy `p` (an SQL `count(*) ... WHERE p`). */
  function Count<T>(rows: seq<T>, p: T -> bool): (n: nat)
    ensures n <= |rows|
    ensures n == 0 <==> forall x :: x in rows ==> !p(x)
  {
    if |rows| == 0 then 0
    else (if p(rows[0]) then 1 else 0) + Count(rows[1..], p)
  }

  /** The first row satisfying `p`, if any. */
  function Find<T>(rows: seq<T>, p: T -> bool): (r: Option<T>)
    ensures r.Some? ==> r.value in rows && p(r.value)
    ensures r.None? <==> forall x :: x in rows ==> !p(x)
  {
    if |rows| == 0 then None
    else if p(rows[0]) then Some(rows[0])
    else Find(rows[1..], p)
  }

  /** The row whose key is `k`, if any (an ORM `get` by primary key). */
  function Get<T, K(==)>(rows: seq<T>, key: T -> K, k: K): (r: Option<T>)
    ensures r.Some? ==> r.value in rows && key(r.value) == k
    ensures r.None? <==> forall x :: x in rows ==> key(x) != k
  {
    if |rows| == 0 then None
    else if key(rows[0]) == k then Some(rows[0])
    else Get(rows[1..], key, k)
  }

  /** No two rows share a key: a primary-key or UNIQUE constraint. */
  ghost predicate UniqueBy<T, K>(rows: seq<T>, key: T -> K) {
    forall i, j :: 0 <= i < j < |rows| ==> key(rows[i]) != key(rows[j])
  }

  /** The rows whose key is not `k`, in order (a `DELETE ... WHERE key = k`). */
  function Without<T(!new), K(==)>(rows: seq<T>, key: T -> K, k: K): (r: seq<T>)
    ensures |r| <= |rows|
    ensures forall x :: x in r <==> x in rows && key(x) != k
  {
    if |rows| == 0 then []
    else if key(rows[0]) != k then [rows[0]] + Without(rows[1..], key, k)
    else Without(rows[1..], key, k)
  }

  /** Every row whose key is `k` replaced by `v`, all others kept in place. */
  function Replace<T, K(==)>(rows: seq<T>, key: T -> K, k: K, v: T): (r: seq<T>)
    ensures |r| == |rows|
    ensures forall i :: 0 <= i < |rows| ==> r[i] == (if key(rows[i]) == k then v else rows[i])
  {
    if |rows| == 0 then []
    else [if key(rows[0]) == k then v else rows[0]] + Replace(rows[1..], key, k, v)
  }

  /** Every row rewritten by `f`, in place (an `UPDATE` without a key). */
  function Map<T, U>(rows: seq<T>, f: T -> U): (r: seq<U>)
    ensures |r| == |rows|
    ensures forall i :: 0 <= i < |rows| ==> r[i] == f(rows[i])
  {
    if |rows| == 0 then [] else [f(rows[0])] + Map(rows[1..], f)
  }

  /** The rows of a rewritten table are exactly the rewritten rows. */
  lemma MapMembers<T, U>(rows: seq<T>, f: T -> U)
    ensures forall x :: x in Map(rows, f) <==> exists y :: y in rows && x == f(y)
  {
    var r := Map(rows, f);
    forall x | x in r
      ensures exists y :: y in rows && x == f(y)
    {
      var k :| 0 <= k < |r| && r[k] == x;
      assert rows[k] in rows;
    }
    forall y | y in rows
      ensures f(y) in r
    {
      var k :| 0 <= k < |rows| && rows[k] == y;
      assert r[k] == f(y);
    }
  }

  // ---------------------------------------------------------------------------
  // Uniqueness

  lemma UniqueMatch<T, K>(rows: seq<T>, key: T -> K, x: T, y: T)
    requires UniqueBy(rows, key)
    requires x in rows && y in rows && key(x) == key(y)
    ensures x == y
  {
    var i :| 0 <= i < |rows| && rows[i] == x;
    var j :| 0 <= j < |rows| && rows[j] == y;
  }

  /** Under a unique key, `Get` finds the row with that key whenever one exists. */
  lemma GetUnique<T, K>(rows: seq<T>, key: T -> K, x: T)
    requires UniqueBy(rows, key)
    requires x in rows
    ensures Get(rows, key, key(x)) == Some(x)
  {
    var r := Get(rows, key, key(x));
    UniqueMatch(rows, key, r.value, x);
  }

  lemma {:induction false} UniqueWithout<T(!new), K, K2>(rows: seq<T>, key: T -> K, k: K, key2: T -> K2)
    requires UniqueBy(rows, key2)
    ensures UniqueBy(Without(rows, key, k), key2)
  {
    if |rows| > 0 {
      var tail := rows[1..];
      assert UniqueBy(tail, key2) by {
        forall i, j | 0 <= i < j < |tail|
          ensures key2(tail[i]) != key2(tail[j])
        {
          assert tail[i] == rows[i + 1] && tail[j] == rows[j + 1];
        }
      }
      UniqueWithout(tail, key, k, key2);
      var w := Without(tail, key, k);
      if key(rows[0]) != k {
        var r := [rows[0]] + w;
        forall i, j | 0 <= i < j < |r|
          ensures key2(r[i]) != key2(r[j])
        {
          if i == 0 {
            assert r[j] in tail;
            var m :| 0 <= m < |tail| && tail[m] == r[j];
            assert rows[m + 1] == r[j];
          } else {
            assert r[i] == w[i - 1] && r[j] == w[j - 1];
          }
        }
      }
    }
  }

  lemma UniqueAppend<T, K>(rows: seq<T>, key: T -> K, x: T)
    requires UniqueBy(rows, key)
    requires forall y :: y in rows ==> key(y) != key(x)
    ensures UniqueBy(rows + [x], key)
  {
    var r := rows + [x];
    forall i, j | 0 <= i < j < |r|
      ensures key(r[i]) != key(r[j])
    {
      if j == |rows| {
        assert r[i] in rows;
      } else {
        assert r[i] == rows[i] && r[j] == rows[j];
      }
    }
  }

  /** Replacing rows by a value that agrees with each of them on `key2` keeps `key2` unique. */
  lemma UniqueReplace<T, K, K2>(rows: seq<T>, key: T -> K, k: K, v: T, key2: T -> K2)
    requires UniqueBy(rows, key2)
    requires forall x :: x in rows && key(x) == k ==> key2(x) == key2(v)
    ensures UniqueBy(Replace(rows, key, k, v), key2)
  {
    var r := Replace(rows, key, k, v);
    forall i, j | 0 <= i < j < |r|
      ensures key2(r[i]) != key2(r[j])
    {
      assert rows[i] in rows && rows[j] in rows;
      assert key2(r[i]) == key2(rows[i]) && key2(r[j]) == key2(rows[j]);
    }
  }

  /**
    Replacing the one row whose key is `k` by `v` keeps `key2` unique when no
    other row shares `v`'s `key2`.
   */
  lemma UniqueReplaceNew<T, K, K2>(rows: seq<T>, key: T -> K, k: K, v: T, key2: T -> K2)
    requires UniqueBy(rows, key) && UniqueBy(rows, key2)
    requires forall x :: x in rows && key(x) != k ==> key2(x) != key2(v)
    ensures UniqueBy(Replace(rows, key, k, v), key2)
  {
    var r := Replace(rows, key, k, v);
    forall i, j | 0 <= i < j < |r|
      ensures key2(r[i]) != key2(r[j])
    {
      assert rows[i] in rows && rows[j] in rows;
    }
  }

  /** Keeping a subset of the rows keeps any key unique. */
  lemma {:induction false} UniqueFilter<T(!new), K>(rows: seq<T>, p: T -> bool, key: T -> K)
    requires UniqueBy(rows, key)
    ensures UniqueBy(Filter(rows, p), key)
  {
    if |rows| > 0 {
      var tail := rows[1..];
      assert UniqueBy(tail, key) by {
        forall i, j | 0 <= i < j < |tail|
          ensures key(tail[i]) != key(tail[j])
        {
          assert tail[i] == rows[i + 1] && tail[j] == rows[j + 1];
        }
      }
      UniqueFilter(tail, p, key);
      var f := Filter(tail, p);
      if p(rows[0]) {
        var r := [rows[0]] + f;
        forall i, j | 0 <= i < j < |r|
          ensures key(r[i]) != key(r[j])
        {
          if i == 0 {
            assert r[j] in tail;
            var m :| 0 <= m < |tail| && tail[m] == r[j];
            assert rows[m + 1] == r[j];
          } else {
            assert r[i] == f[i - 1] && r[j] == f[j - 1];
          }
        }
      }
    }
  }

  /** Rewriting rows without changing their keys keeps the keys unique. */
  lemma UniqueMap<T, K>(rows: seq<T>, f: T -> T, key: T -> K)
    requires UniqueBy(rows, key)
    requires forall x :: key(f(x)) == key(x)
    ensures UniqueBy(Map(rows, f), key)
  {
    var r := Map(rows, f);
    forall i, j | 0 <= i < j < |r|
      ensures key(r[i]) != key(r[j])
    {
      assert key(r[i]) == key(rows[i]) && key(r[j]) == key(rows[j]);
    }
  }

  // ---------------------------------------------------------------------------
  // Counting

  lemma {:induction false} CountAppend<T>(rows: seq<T>, x: T, p: T -> bool)
    ensures Count(rows + [x], p) == Count(rows, p) + (if p(x) then 1 else 0)
  {
    if |rows| > 0 {
      assert (rows + [x])[1..] == rows[1..] + [x];
      CountAppend(rows[1..], x, p);
    }
  }

  lemma {:induction false} CountAllWithout<T(!new), K>(rows: seq<T>, key: T -> K, k: K, p: T -> bool)
    requires forall x :: x in rows ==> key(x) != k
    ensures Without(rows, key, k) == rows
  {
    if |rows| > 0 {
      assert rows[0] in rows;
      forall x | x in rows[1..]
        ensures key(x) != k
      {
        assert x in rows;
      }
      CountAllWithout(rows[1..], key, k, p);
    }
  }

  /**
    Deleting the one row `x` whose key is `k` lowers the count of rows
    satisfying `p` by one if `x` satisfies `p`, and leaves it alone otherwise.
   */
  lemma {:induction false} CountWithout<T(!new), K>(rows: seq<T>, key: T -> K, k: K, x: T, p: T -> bool)
    requires UniqueBy(rows, key)
    requires x in rows && key(x) == k
    ensures Count(Without(rows, key, k), p) + (if p(x) then 1 else 0) == Count(rows, p)
  {
    var tail := rows[1..];
    assert UniqueBy(tail, key) by {
      forall i, j | 0 <= i < j < |tail|
        ensures key(tail[i]) != key(tail[j])
      {
        assert tail[i] == rows[i + 1] && tail[j] == rows[j + 1];
      }
    }
    if rows[0] == x {
      forall y | y in tail
        ensures key(y) != k
      {
        var m :| 0 <= m < |tail| && tail[m] == y;
        assert rows[m + 1] == y;
      }
      CountAllWithout(tail, key, k, p);
    } else {
      assert x in tail;
      CountWithout(tail, key, k, x, p);
      var w := Without(tail, key, k);
      assert Without(rows, key, k) == [rows[0]] + w;
      assert ([rows[0]] + w)[1..] == w;
    }
  }

  /**
    Replacing the one row `x` whose key is `k` by `v` moves the count of rows
    satisfying `p` by exactly the difference `v` and `x` make.
   */
  lemma {:induction false} CountReplace<T, K>(rows: seq<T>, key: T -> K, k: K, x: T, v: T, p: T -> bool)
    requires UniqueBy(rows, key)
    requires x in rows && key(x) == k
    ensures Count(Replace(rows, key, k, v), p) + (if p(x) then 1 else 0)
         == Count(rows, p) + (if p(v) then 1 else 0)
  {
    var tail := rows[1..];
    assert UniqueBy(tail, key) by {
      forall i, j | 0 <= i < j < |tail|
        ensures key(tail[i]) != key(tail[j])
      {
        assert tail[i] == rows[i + 1] && tail[j] == rows[j + 1];
      }
    }
    var r := Replace(rows, key, k, v);
    assert r[1..] == Replace(tail, key, k, v);
    if rows[0] == x {
      forall y | y in tail
        ensures key(y) != k
      {
        var m :| 0 <= m < |tail| && tail[m] == y;
        assert rows[m + 1] == y;
      }
      ReplaceAbsent(tail, key, k, v);
    } else {
      assert x in tail;
      CountReplace(tail, key, k, x, v, p);
    }
  }

  lemma ReplaceAbsent<T, K>(rows: seq<T>, key: T -> K, k: K, v: T)
    requires forall x :: x in rows ==> key(x) != k
    ensures Replace(rows, key, k, v) == rows
  {
    var r := Replace(rows, key, k, v);
    forall i | 0 <= i < |rows|
      ensures r[i] == rows[i]
    {
      assert rows[i] in rows;
    }
  }

  /** Dropping only rows that fail `p` leaves the count of `p` rows alone. */
  lemma {:induction false} CountFilter<T(!new)>(rows: seq<T>, q: T -> bool, p: T -> bool)
    requires forall x :: x in rows && p(x) ==> q(x)
    ensures Count(Filter(rows, q), p) == Count(rows, p)
  {
    if |rows| > 0 {
      assert rows[0] in rows;
      forall x | x in rows[1..] && p(x)
        ensures q(x)
      {
        assert x in rows;
      }
      CountFilter(rows[1..], q, p);
      var f := Filter(rows[1..], q);
      if q(rows[0]) {
        assert ([rows[0]] + f)[1..] == f;
      }
    }
  }

  /** Rewriting rows in a way `p` cannot see leaves the count of `p` rows alone. */
  lemma {:induction false} CountMap<T>(rows: seq<T>, f: T -> T, p: T -> bool)
    requires forall x :: p(f(x)) == p(x)
    ensures Count(Map(rows, f), p) == Count(rows, p)
  {
    if |rows| > 0 {
      CountMap(rows[1..], f, p);
      assert Map(rows, f)[1..] == Map(rows[1..], f);
    }
  }

  // ---------------------------------------------------------------------------
  // Ordering

  /** `rows` is ascending by `key`. */
  ghost predicate SortedBy<T>(rows: seq<T>, key: T -> int) {
    forall i, j :: 0 <= i < j < |rows| ==> key(rows[i]) <= key(rows[j])
  }

  /** Putting a row no greater than any other in front keeps a sequence ascending. */
  lemma SortedCons<T>(x: T, rows: seq<T>, key: T -> int)
    requires SortedBy(rows, key)
    requires forall y :: y in rows ==> key(x) <= key(y)
    ensures SortedBy([x] + rows, key)
  {
    var r := [x] + rows;
    forall i, j | 0 <= i < j < |r|
      ensures key(r[i]) <= key(r[j])
    {
      assert r[j] == rows[j - 1] && r[j] in rows;
      if i > 0 {
        assert r[i] == rows[i - 1];
      }
    }
  }

  /** The head of an ascending sequence is no greater than any row of its tail. */
  lemma SortedHead<T>(rows: seq<T>, key: T -> int)
    requires SortedBy(rows, key) && |rows| > 0
    ensures forall y :: y in rows[1..] ==> key(rows[0]) <= key(y)
  {
    forall y | y in rows[1..]
      ensures key(rows[0]) <= key(y)
    {
      var m :| 0 <= m < |rows[1..]| && rows[1..][m] == y;
      assert rows[m + 1] == y;
    }
  }

  /** Inserts `x` into the ascending `rows`, after every row with an equal key. */
  function InsertBy<T(!new)>(x: T, rows: seq<T>, key: T -> int): (r: seq<T>)
    requires SortedBy(rows, key)
    ensures SortedBy(r, key)
    ensures multiset(r) == multiset(rows) + multiset{x}
  {
    if |rows| == 0 then [x]
    else if key(x) < key(rows[0]) then
      SortedHead(rows, key);
      SortedCons(x, rows, key);
      [x] + rows
    else
      var tail := InsertBy(x, rows[1..], key);
      InsertBehindHead(x, rows, tail, key);
      [rows[0]] + tail
  }

  /** The step of `InsertBy` that keeps the head of `rows` in front of the insertion into its tail. */
  lemma InsertBehindHead<T>(x: T, rows: seq<T>, tail: seq<T>, key: T -> int)
    requires SortedBy(rows, key) && |rows| > 0 && key(rows[0]) <= key(x)
    requires SortedBy(tail, key)
    requires multiset(tail) == multiset(rows[1..]) + multiset{x}
    ensures SortedBy([rows[0]] + tail, key)
    ensures multiset([rows[0]] + tail) == multiset(rows) + multiset{x}
  {
    assert rows == [rows[0]] + rows[1..];
    SortedHead(rows, key);
    forall y | y in tail
      ensures key(rows[0]) <= key(y)
    {
      assert y in multiset(tail);
      assert y == x || y in rows[1..];
    }
    SortedCons(rows[0], tail, key);
  }

  /**
    `rows` ordered ascending by `key` (an SQL `ORDER BY key`). Rows with equal
    keys keep their relative order; SQL leaves that order unspecified.
   */
  function SortBy<T(!new)>(rows: seq<T>, key: T -> int): (r: seq<T>)
    ensures SortedBy(r, key)
    ensures multiset(r) == multiset(rows)
    ensures |r| == |rows|
    ensures forall y :: y in r <==> y in rows
  {
    if |rows| == 0 then []
    else
      var sorted := SortBy(rows[1..], key);
      assert rows == [rows[0]] + rows[1..];
      var r := InsertBy(rows[0], sorted, key);
      SameMultisetSameMembers(r, rows);
      r
  }

  /** Two sequences with the same multiset have the same length and members. */
  lemma SameMultisetSameMembers<T>(a: seq<T>, b: seq<T>)
    requires multiset(a) == multiset(b)
    ensures |a| == |b|
    ensures forall y :: y in a <==> y in b
  {
    assert |multiset(a)| == |a| && |multiset(b)| == |b|;
    forall y
      ensures y in a <==> y in b
    {
      assert y in a <==> y in multiset(a);
      assert y in b <==> y in multiset(b);
    }
  }
}
