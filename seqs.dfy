/** Sequence and collection helpers: the in-memory reading of the SQL the
    repositories issue (a `WHERE` selection, `DISTINCT`, `GROUP BY ... COUNT(*)`). */
module Seqs {

  /** The elements of `s` satisfying `p`, in their original order. */
  function Filter<T(!new)>(p: T -> bool, s: seq<T>): (r: seq<T>)
    ensures |r| <= |s|
    ensures forall x :: x in r <==> x in s && p(x)
  {
    if s == [] then [] else (if p(s[0]) then [s[0]] else []) + Filter(p, s[1..])
  }

  /** Filtering distributes over concatenation (an insert is an append). */
  lemma {:induction false} FilterAppend<T(!new)>(p: T -> bool, a: seq<T>, b: seq<T>)
    ensures Filter(p, a + b) == Filter(p, a) + Filter(p, b)
  {
    if a == [] {
      assert a + b == b;
    } else {
      assert (a + b)[1..] == a[1..] + b;
      FilterAppend(p, a[1..], b);
    }
  }

  /** Every element either satisfies `p` or does not: the rows a `DELETE ... WHERE p`
      removes and the rows it keeps add up to the table. */
  lemma {:induction false} FilterPartition<T(!new)>(p: T -> bool, s: seq<T>)
    ensures |Filter(p, s)| + |Filter(x => !p(x), s)| == |s|
  {
    if s != [] {
      FilterPartition(p, s[1..]);
    }
  }

  /** Filtering by a predicate that accepts every element keeps the sequence. */
  lemma {:induction false} FilterAll<T(!new)>(p: T -> bool, s: seq<T>)
    requires forall x :: x in s ==> p(x)
    ensures Filter(p, s) == s
  {
    if s != [] {
      FilterAll(p, s[1..]);
      assert s == [s[0]] + s[1..];
    }
  }

  /** Filters by predicates that agree everywhere select the same elements. */
  lemma {:induction false} FilterExt<T(!new)>(p: T -> bool, q: T -> bool, s: seq<T>)
    requires forall x :: p(x) == q(x)
    ensures Filter(p, s) == Filter(q, s)
  {
    if s != [] {
      FilterExt(p, q, s[1..]);
    }
  }

  /** One more element of a prefix. */
  lemma TakeSnoc<T>(s: seq<T>, i: nat)
    requires i < |s|
    ensures s[..i + 1] == s[..i] + [s[i]]
  {
  }

  /** A non-empty sequence is its head followed by its tail. */
  lemma HeadTail<T>(s: seq<T>)
    requires s != []
    ensures s == [s[0]] + s[1..]
  {
  }

  predicate NoDuplicates<T(==)>(s: seq<T>) {
    forall i, j :: 0 <= i < j < |s| ==> s[i] != s[j]
  }

  function Elems<T>(s: seq<T>): set<T> {
    set x | x in s
  }

  /** `SELECT DISTINCT`: each element once, in order of first occurrence. */
  function Distinct<T(==,!new)>(s: seq<T>): (r: seq<T>)
    ensures forall x :: x in r <==> x in s
    ensures NoDuplicates(r)
    ensures |r| <= |s|
  {
    if s == [] then []
    else
      var t := Distinct(s[..|s| - 1]);
      assert forall x :: x in s[..|s| - 1] ==> x in s;
      assert forall x :: x in s ==> x in s[..|s| - 1] || x == s[|s| - 1];
      if s[|s| - 1] in t then t else t + [s[|s| - 1]]
  }

  /** A sequence without repetitions has as many elements as its set. */
  lemma {:induction false} NoDuplicatesCard<T>(s: seq<T>)
    requires NoDuplicates(s)
    ensures |Elems(s)| == |s|
  {
    if s != [] {
      var t := s[..|s| - 1];
      assert NoDuplicates(t);
      NoDuplicatesCard(t);
      assert s[|s| - 1] !in Elems(t);
      assert Elems(s) == Elems(t) + {s[|s| - 1]};
    }
  }

  /** `COUNT(DISTINCT x)` equals the length of the `SELECT DISTINCT x` list. */
  lemma DistinctCard<T(!new)>(s: seq<T>)
    ensures |Distinct(s)| == |Elems(s)|
  {
    NoDuplicatesCard(Distinct(s));
    assert Elems(Distinct(s)) == Elems(s);
  }

  // ---------------------------------------------------------------------
  // GROUP BY key, COUNT(*): the grouped rows a `rows.Next()` loop reads.

  function Keys<K>(rows: seq<(K, nat)>): (r: seq<K>)
    ensures |r| == |rows|
    ensures forall i :: 0 <= i < |rows| ==> r[i] == rows[i].0
  {
    if rows == [] then [] else [rows[0].0] + Keys(rows[1..])
  }

  function SumCounts<K>(rows: seq<(K, nat)>): nat {
    if rows == [] then 0 else rows[0].1 + SumCounts(rows[1..])
  }

  /** The count a grouped result gives key `k`, 0 when no group has it. */
  function CountFor<K(==)>(rows: seq<(K, nat)>, k: K): nat {
    if rows == [] then 0 else if rows[0].0 == k then rows[0].1 else CountFor(rows[1..], k)
  }

  /** Adds one occurrence of `k` to the grouped rows. */
  function Bump<K(==)>(rows: seq<(K, nat)>, k: K): seq<(K, nat)> {
    if rows == [] then [(k, 1)]
    else if rows[0].0 == k then [(k, rows[0].1 + 1)] + rows[1..]
    else [rows[0]] + Bump(rows[1..], k)
  }

  /** The result of `GROUP BY` over the key column `keys`. */
  function GroupBy<K(==)>(keys: seq<K>): seq<(K, nat)> {
    if keys == [] then [] else Bump(GroupBy(keys[..|keys| - 1]), keys[|keys| - 1])
  }

  lemma {:induction false} BumpFacts<K>(rows: seq<(K, nat)>, k: K)
    ensures SumCounts(Bump(rows, k)) == SumCounts(rows) + 1
    ensures forall x :: x in Keys(Bump(rows, k)) <==> x in Keys(rows) || x == k
    ensures NoDuplicates(Keys(rows)) ==> NoDuplicates(Keys(Bump(rows, k)))
    ensures NoDuplicates(Keys(rows)) ==>
      forall x :: CountFor(Bump(rows, k), x) == CountFor(rows, x) + (if x == k then 1 else 0)
  {
    if rows != [] {
      BumpFacts(rows[1..], k);
      var nd := NoDuplicates(Keys(rows));
      if nd {
        HeadNotInTail(Keys(rows));
        TailNoDuplicates(Keys(rows));
      }
      if rows[0].0 == k {
        assert Keys(Bump(rows, k)) == Keys(rows);
        if nd {
          AbsentCountZero(rows[1..], k);
        }
      } else {
        assert Keys(Bump(rows, k)) == [rows[0].0] + Keys(Bump(rows[1..], k));
        if nd {
          ConsNoDuplicates(rows[0].0, Keys(Bump(rows[1..], k)));
        }
      }
    }
  }

  lemma HeadNotInTail<T>(s: seq<T>)
    requires |s| > 0 && NoDuplicates(s)
    ensures s[0] !in s[1..]
  {
  }

  lemma TailNoDuplicates<T>(s: seq<T>)
    requires |s| > 0 && NoDuplicates(s)
    ensures NoDuplicates(s[1..])
  {
  }

  lemma AbsentCountZero<K>(rows: seq<(K, nat)>, k: K)
    requires k !in Keys(rows)
    ensures CountFor(rows, k) == 0
  {
  }

  lemma ConsNoDuplicates<T>(x: T, s: seq<T>)
    requires NoDuplicates(s) && x !in s
    ensures NoDuplicates([x] + s)
  {
  }

  /** The grouped rows have one row per distinct key, each carrying the number
      of occurrences of its key, and their counts add up to the row count. */
  lemma {:induction false} GroupByFacts<K>(keys: seq<K>)
    ensures NoDuplicates(Keys(GroupBy(keys)))
    ensures forall x :: x in Keys(GroupBy(keys)) <==> x in keys
    ensures forall x :: CountFor(GroupBy(keys), x) == multiset(keys)[x]
    ensures SumCounts(GroupBy(keys)) == |keys|
  {
    if keys != [] {
      var init := keys[..|keys| - 1];
      var last := keys[|keys| - 1];
      GroupByFacts(init);
      BumpFacts(GroupBy(init), last);
      assert keys == init + [last];
      assert multiset(keys) == multiset(init) + multiset{last};
      assert forall x :: x in keys <==> x in init || x == last;
    }
  }

  // ---------------------------------------------------------------------
  // The sum of the values of a map, independent of any key order.

  ghost function Pick<K>(s: set<K>): (k: K)
    requires s != {}
    ensures k in s
  {
    var k :| k in s; k
  }

  ghost function SumValues<K>(m: map<K, nat>): nat
    decreases |m.Keys|
  {
    if m.Keys == {} then 0
    else
      var k := Pick(m.Keys);
      assert (m - {k}).Keys == m.Keys - {k};
      m[k] + SumValues(m - {k})
  }

  lemma {:induction false} SumValuesRemove<K>(m: map<K, nat>, k: K)
    requires k in m
    ensures SumValues(m) == m[k] + SumValues(m - {k})
    decreases |m.Keys|
  {
    var k' := Pick(m.Keys);
    if k' != k {
      var m1 := m - {k'};
      var m2 := m - {k};
      assert m1.Keys == m.Keys - {k'};
      assert m2.Keys == m.Keys - {k};
      assert m1[k] == m[k] && m2[k'] == m[k'];
      SumValuesRemove(m1, k);
      SumValuesRemove(m2, k');
      assert m1 - {k} == m2 - {k'};
      assert SumValues(m) == m[k'] + SumValues(m1);
    }
  }

  /** The map a `rows.Next()` loop builds from grouped rows. */
  function RowsToMap<K>(rows: seq<(K, nat)>): map<K, nat> {
    if rows == [] then map[] else RowsToMap(rows[1..])[rows[0].0 := rows[0].1]
  }

  /** When the grouped rows have distinct keys, the values of the map built
      from them sum to the rows' total. */
  lemma {:induction false} RowsToMapSum<K>(rows: seq<(K, nat)>)
    requires NoDuplicates(Keys(rows))
    ensures SumValues(RowsToMap(rows)) == SumCounts(rows)
    ensures forall x :: x in RowsToMap(rows) <==> x in Keys(rows)
    ensures forall x :: x in RowsToMap(rows) ==> RowsToMap(rows)[x] == CountFor(rows, x)
  {
    if rows != [] {
      var tail := rows[1..];
      HeadNotInTail(Keys(rows));
      TailNoDuplicates(Keys(rows));
      RowsToMapSum(tail);
      var k := rows[0].0;
      var m := RowsToMap(rows);
      SumValuesRemove(m, k);
      assert m - {k} == RowsToMap(tail);
    }
  }

  /** Reading the grouped rows one by one and storing each into the map
      (`stats[key] = cnt`) builds the same map, as long as the keys are distinct. */
  lemma {:induction false} RowsToMapSnoc<K>(rows: seq<(K, nat)>, e: (K, nat))
    requires e.0 !in Keys(rows)
    ensures RowsToMap(rows + [e]) == RowsToMap(rows)[e.0 := e.1]
  {
    if rows == [] {
      assert rows + [e] == [e];
    } else {
      assert (rows + [e])[0] == rows[0];
      assert (rows + [e])[1..] == rows[1..] + [e];
      assert e.0 !in Keys(rows[1..]);
      RowsToMapSnoc(rows[1..], e);
      assert rows[0].0 != e.0;
    }
  }
}
