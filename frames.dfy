/** The pandas operations both scripts build their tables with, on tables
    modelled as sequences of records: `pd.to_numeric(errors='coerce')`,
    boolean-mask filtering, `groupby(...).size()`, `groupby(...).sum()`
    and `pd.merge(how='left' | 'inner')`. A missing value (NaN/None) is
    `None`. Group tables are built in first-appearance order and then
    sorted by key, as groupby does by default. */
module Frames {
  import opened Wrappers

  /** A cell of a numeric column as read from a file: missing, a number,
      or text that may or may not parse as one. */
  datatype Cell<N> = Missing | Number(value: N) | Text(text: string)

  /** A row of a source table: its state text column and the rest. */
  datatype Record<V> = Record(state: Option<string>, val: V)

  /** A row keyed by a grouping or join column. */
  datatype Keyed<K, V> = Keyed(key: K, val: V)

  /** A row of a merge: the left row and what the right table supplied. */
  datatype Joined<L, R> = Joined(left: L, right: R)

  /** pd.to_numeric(errors='coerce') on one cell; `parse` is the number
      syntax pandas accepts, not modelled here. */
  function ToNumeric<N>(c: Cell<N>, parse: string -> Option<N>): Option<N> {
    match c
    case Missing => None
    case Number(v) => Some(v)
    case Text(t) => parse(t)
  }

  /** `df[mask]`: the rows that satisfy `keep`, each as often as in `s`,
      and none other. */
  function Filter<T(!new)>(s: seq<T>, keep: T -> bool): (r: seq<T>)
    ensures |r| <= |s|
    ensures forall i | 0 <= i < |r| :: keep(r[i])
    ensures forall x {:trigger multiset(r)[x]} :: multiset(r)[x] == if keep(x) then multiset(s)[x] else 0
    decreases |s|
  {
    if s == [] then []
    else
      var init, last := s[..|s| - 1], s[|s| - 1];
      assert s == init + [last];
      Filter(init, keep) + (if keep(last) then [last] else [])
  }

  /** A mask keeps the input order: masking two tables laid end to end
      masks each in place. With FilterSingle this determines the result. */
  lemma {:induction false} FilterAppend<T(!new)>(a: seq<T>, b: seq<T>, keep: T -> bool)
    ensures Filter(a + b, keep) == Filter(a, keep) + Filter(b, keep)
    decreases |b|
  {
    if b == [] {
      assert a + b == a;
    } else {
      var init, last := b[..|b| - 1], b[|b| - 1];
      assert (a + b)[..|a + b| - 1] == a + init;
      assert (a + b)[|a + b| - 1] == last;
      FilterAppend(a, init, keep);
    }
  }

  /** A one-row table is kept exactly when its row satisfies the mask. */
  lemma FilterSingle<T(!new)>(x: T, keep: T -> bool)
    ensures Filter([x], keep) == if keep(x) then [x] else []
  {
    assert [x][..0] == [];
  }

  /** A column computed row by row: `f` applied to every row, in order. */
  function MapSeq<A, B>(s: seq<A>, f: A -> B): (r: seq<B>)
    ensures |r| == |s| && forall i | 0 <= i < |s| :: r[i] == f(s[i])
  {
    seq(|s|, i requires 0 <= i < |s| => f(s[i]))
  }

  /** A three-row map, row by row. */
  lemma MapSeqThree<A, B>(s: seq<A>, f: A -> B)
    requires |s| == 3
    ensures MapSeq(s, f) == [f(s[0]), f(s[1]), f(s[2])]
  {
  }

  lemma MapSeqAppend<A, B>(a: seq<A>, b: seq<A>, f: A -> B)
    ensures MapSeq(a + b, f) == MapSeq(a, f) + MapSeq(b, f)
  {
  }

  /** Deleting the row at `j` removes one copy of it from the multiset. */
  lemma RemoveOne<T>(s: seq<T>, j: nat)
    requires j < |s|
    ensures multiset(s[..j] + s[j + 1..]) == multiset(s) - multiset{s[j]}
  {
    assert s == s[..j] + [s[j]] + s[j + 1..];
  }

  /** Reordering the rows reorders the mapped rows the same way. */
  lemma {:induction false} MapSeqPermutation<A, B>(s1: seq<A>, s2: seq<A>, f: A -> B)
    requires multiset(s1) == multiset(s2)
    ensures multiset(MapSeq(s1, f)) == multiset(MapSeq(s2, f))
    decreases |s1|
  {
    if s1 == [] {
      assert |s2| == |multiset(s2)| == 0;
    } else {
      var n := |s1| - 1;
      var x := s1[n];
      assert x in multiset(s2) by {
        assert x in s1;
      }
      var j :| 0 <= j < |s2| && s2[j] == x;
      var init, rest := s1[..n] + s1[n + 1..], s2[..j] + s2[j + 1..];
      RemoveOne(s1, n);
      RemoveOne(s2, j);
      MapSeqPermutation(init, rest, f);
      MapRemove(s1, n, f);
      MapRemove(s2, j, f);
    }
  }

  /** Mapping a table is mapping it without row `j` plus the image of row `j`. */
  lemma MapRemove<A, B>(s: seq<A>, j: nat, f: A -> B)
    requires j < |s|
    ensures multiset(MapSeq(s, f)) == multiset(MapSeq(s[..j] + s[j + 1..], f)) + multiset{f(s[j])}
  {
    assert MapSeq(s, f) == MapSeq(s[..j], f) + [f(s[j])] + MapSeq(s[j + 1..], f);
    MapSeqAppend(s[..j], s[j + 1..], f);
  }

  /** A mask that holds on every row keeps the table as it is. */
  lemma {:induction false} FilterAll<T(!new)>(s: seq<T>, keep: T -> bool)
    requires forall i | 0 <= i < |s| :: keep(s[i])
    ensures Filter(s, keep) == s
    decreases |s|
  {
    if s != [] {
      FilterAll(s[..|s| - 1], keep);
    }
  }

  /** Reordering the rows reorders the kept rows the same way. */
  lemma FilterPermutation<T(!new)>(s1: seq<T>, s2: seq<T>, keep: T -> bool)
    requires multiset(s1) == multiset(s2)
    ensures multiset(Filter(s1, keep)) == multiset(Filter(s2, keep))
  {
    var r1, r2 := Filter(s1, keep), Filter(s2, keep);
    assert forall x :: multiset(r1)[x] == multiset(r2)[x];
  }

  /** Mapping after a filter finds every value `x` as often as mapping the
      whole table does, when no dropped row maps to `x`. */
  lemma {:induction false} MapFilterCount<A(!new), B>(s: seq<A>, keep: A -> bool, f: A -> B, x: B)
    requires forall y | y in s && !keep(y) :: f(y) != x
    ensures multiset(MapSeq(Filter(s, keep), f))[x] == multiset(MapSeq(s, f))[x]
    decreases |s|
  {
    if s != [] {
      var init, last := s[..|s| - 1], s[|s| - 1];
      assert s == init + [last];
      assert forall y | y in init :: y in s;
      MapFilterCount(init, keep, f, x);
      var kept := Filter(init, keep);
      var before := multiset(MapSeq(kept, f))[x];
      assert before == multiset(MapSeq(init, f))[x];
      assert MapSeq(s, f) == MapSeq(init, f) + [f(last)];
      if keep(last) {
        assert Filter(s, keep) == kept + [last];
        assert MapSeq(kept + [last], f) == MapSeq(kept, f) + [f(last)];
      } else {
        assert Filter(s, keep) == kept;
        assert f(last) != x;
      }
    }
  }

  ghost function KeySet<K, V>(t: seq<Keyed<K, V>>): set<K> {
    set i | 0 <= i < |t| :: t[i].key
  }

  ghost predicate UniqueKeys<K, V>(t: seq<Keyed<K, V>>) {
    forall i, j | 0 <= i < j < |t| :: t[i].key != t[j].key
  }

  lemma KeySetAppend<K, V>(t: seq<Keyed<K, V>>, row: Keyed<K, V>)
    ensures KeySet(t + [row]) == KeySet(t) + {row.key}
  {
    var t' := t + [row];
    assert forall i | 0 <= i < |t| :: t'[i] == t[i];
    assert t'[|t|] == row;
  }

  lemma KeySetUpdate<K, V>(t: seq<Keyed<K, V>>, i: nat, row: Keyed<K, V>)
    requires i < |t| && row.key == t[i].key
    ensures KeySet(t[i := row]) == KeySet(t)
  {
    var t' := t[i := row];
    assert forall j | 0 <= j < |t| :: t'[j].key == t[j].key;
  }

  /** The keys that are present (not NaN) in a key column. */
  ghost function PresentKeys<K>(keys: seq<Option<K>>): set<K> {
    set o | o in keys && o.Some? :: o.value
  }

  /** Position of the first row with key `k`. */
  function Find<K(==), V>(t: seq<Keyed<K, V>>, k: K): (r: Option<nat>)
    ensures r.Some? ==> r.value < |t| && t[r.value].key == k
    ensures r.Some? ==> forall j | 0 <= j < r.value :: t[j].key != k
    ensures r.None? <==> k !in KeySet(t)
    decreases |t|
  {
    if t == [] then None
    else
      var init := t[..|t| - 1];
      assert KeySet(t) == KeySet(init) + {t[|t| - 1].key};
      match Find(init, k)
      case Some(i) => Some(i)
      case None => if t[|t| - 1].key == k then Some(|t| - 1) else None
  }

  /** The value of the first row with key `k`, if any. */
  function Lookup<K(==), V>(t: seq<Keyed<K, V>>, k: K): (r: Option<V>)
    ensures r.Some? <==> k in KeySet(t)
  {
    match Find(t, k)
    case Some(i) => Some(t[i].val)
    case None => None
  }

  /** In a table with unique keys, Lookup returns the row with that key. */
  lemma LookupUnique<K, V>(t: seq<Keyed<K, V>>, i: nat)
    requires UniqueKeys(t) && i < |t|
    ensures Lookup(t, t[i].key) == Some(t[i].val)
  {
  }

  // ---------------------------------------------------------------------
  // groupby(...).size()

  /** Counts one more row with key `k` in the running group sizes. */
  function Tally<K(==)>(t: seq<Keyed<K, nat>>, k: K): (t': seq<Keyed<K, nat>>)
    requires UniqueKeys(t)
    ensures UniqueKeys(t') && KeySet(t') == KeySet(t) + {k}
    ensures |t'| == |t| + (if k in KeySet(t) then 0 else 1)
    ensures forall i | 0 <= i < |t| :: t'[i].key == t[i].key
    ensures forall i | 0 <= i < |t'| :: t'[i].val == (if i < |t| then t[i].val else 0) + (if t'[i].key == k then 1 else 0)
  {
    match Find(t, k)
    case Some(i) =>
      KeySetUpdate(t, i, Keyed(k, t[i].val + 1));
      t[i := Keyed(k, t[i].val + 1)]
    case None =>
      KeySetAppend(t, Keyed(k, 1));
      t + [Keyed(k, 1)]
  }

  /** `groupby(key).size()`: one row per distinct present key, holding the
      number of rows with that key; rows whose key is NaN are dropped. */
  function GroupSize<K(==)>(keys: seq<Option<K>>): (t: seq<Keyed<K, nat>>)
    ensures UniqueKeys(t)
    ensures KeySet(t) == PresentKeys(keys)
    ensures forall i | 0 <= i < |t| :: t[i].val == multiset(keys)[Some(t[i].key)]
    decreases |keys|
  {
    if keys == [] then []
    else
      var init, last := keys[..|keys| - 1], keys[|keys| - 1];
      assert keys == init + [last];
      assert PresentKeys(keys) == PresentKeys(init) + (if last.Some? then {last.value} else {});
      var t := GroupSize(init);
      match last
      case None => t
      case Some(k) => Tally(t, k)
  }

  /** Every group holds at least one row. */
  lemma GroupSizePositive<K>(keys: seq<Option<K>>, i: nat)
    requires i < |GroupSize(keys)|
    ensures GroupSize(keys)[i].val >= 1
  {
    var t := GroupSize(keys);
    assert t[i].key in KeySet(t);
  }

  /** Two rows of one key make one group of size 2. */
  lemma GroupSizeTwo<K>(a: K)
    ensures GroupSize([Some(a), Some(a)]) == [Keyed(a, 2)]
  {
    var keys := [Some(a), Some(a)];
    var one := keys[..1];
    assert one[..0] == [];
    assert GroupSize(one) == [Keyed(a, 1)];
  }

  /** Two rows of one key and then one of another give two groups, in
      that order, of sizes 2 and 1. */
  lemma GroupSizeTwoOne<K>(a: K, b: K)
    requires a != b
    ensures GroupSize([Some(a), Some(a), Some(b)]) == [Keyed(a, 2), Keyed(b, 1)]
  {
    var keys := [Some(a), Some(a), Some(b)];
    GroupSizeTwo(a);
    assert keys[..2] == [Some(a), Some(a)];
  }

  /** The group sizes do not depend on the order of the rows: two
      orderings of the same rows give the same (key, size) rows. */
  lemma GroupSizeOrderIndependent<K>(keys1: seq<Option<K>>, keys2: seq<Option<K>>)
    requires multiset(keys1) == multiset(keys2)
    ensures forall g :: g in GroupSize(keys1) <==> g in GroupSize(keys2)
  {
    var t1, t2 := GroupSize(keys1), GroupSize(keys2);
    assert PresentKeys(keys1) == PresentKeys(keys2) by {
      forall o ensures o in keys1 <==> o in keys2 {
        assert o in keys1 <==> o in multiset(keys1);
        assert o in keys2 <==> o in multiset(keys2);
      }
    }
    forall g | g in t1 ensures g in t2 {
      var i :| 0 <= i < |t1| && t1[i] == g;
      assert g.key in KeySet(t2);
      var j :| 0 <= j < |t2| && t2[j].key == g.key;
      assert t2[j] == g;
    }
    forall g | g in t2 ensures g in t1 {
      var j :| 0 <= j < |t2| && t2[j] == g;
      assert g.key in KeySet(t1);
      var i :| 0 <= i < |t1| && t1[i].key == g.key;
      assert t1[i] == g;
    }
  }

  // ---------------------------------------------------------------------
  // groupby(key)[column].sum()

  /** Reference sum: the present values of the rows with key `k`. */
  function SumFor<K(==)>(rows: seq<Keyed<Option<K>, Option<real>>>, k: K): real
    decreases |rows|
  {
    if rows == [] then 0.0
    else
      var last := rows[|rows| - 1];
      SumFor(rows[..|rows| - 1], k) + Contribution(last, k)
  }

  /** What one row adds to the sum for `k`: its value when it has key `k`
      and a value, else nothing. */
  function Contribution<K(==)>(row: Keyed<Option<K>, Option<real>>, k: K): real {
    if row.key == Some(k) && row.val.Some? then row.val.value else 0.0
  }

  /** The sum over two tables laid end to end is the sum of their sums. */
  lemma {:induction false} SumForAppend<K>(a: seq<Keyed<Option<K>, Option<real>>>, b: seq<Keyed<Option<K>, Option<real>>>, k: K)
    ensures SumFor(a + b, k) == SumFor(a, k) + SumFor(b, k)
    decreases |b|
  {
    if b == [] {
      assert a + b == a;
    } else {
      var init := b[..|b| - 1];
      assert (a + b)[..|a + b| - 1] == a + init;
      assert (a + b)[|a + b| - 1] == b[|b| - 1];
      SumForAppend(a, init, k);
    }
  }

  /** The sum is the sum without row `j` plus row `j`'s contribution. */
  lemma SumForRemove<K>(s: seq<Keyed<Option<K>, Option<real>>>, j: nat, k: K)
    requires j < |s|
    ensures SumFor(s, k) == SumFor(s[..j] + s[j + 1..], k) + Contribution(s[j], k)
  {
    assert s == s[..j] + ([s[j]] + s[j + 1..]);
    assert [s[j]][..0] == [];
    SumForAppend(s[..j], [s[j]] + s[j + 1..], k);
    SumForAppend([s[j]], s[j + 1..], k);
    SumForAppend(s[..j], s[j + 1..], k);
  }

  /** The sum for a key does not depend on the order of the rows. */
  lemma {:induction false} SumForPermutation<K>(s1: seq<Keyed<Option<K>, Option<real>>>, s2: seq<Keyed<Option<K>, Option<real>>>, k: K)
    requires multiset(s1) == multiset(s2)
    ensures SumFor(s1, k) == SumFor(s2, k)
    decreases |s1|
  {
    if s1 == [] {
      assert |s2| == |multiset(s2)| == 0;
    } else {
      var n := |s1| - 1;
      var x := s1[n];
      assert x in multiset(s2) by {
        assert x in s1;
      }
      var j :| 0 <= j < |s2| && s2[j] == x;
      RemoveOne(s1, n);
      RemoveOne(s2, j);
      SumForPermutation(s1[..n] + s1[n + 1..], s2[..j] + s2[j + 1..], k);
      SumForRemove(s1, n, k);
      SumForRemove(s2, j, k);
    }
  }

  /** Adds one row with key `k` and value `v` to the running group sums. */
  function Accumulate<K(==)>(t: seq<Keyed<K, real>>, k: K, v: Option<real>): (t': seq<Keyed<K, real>>)
    requires UniqueKeys(t)
    ensures UniqueKeys(t') && KeySet(t') == KeySet(t) + {k}
    ensures |t'| == |t| + (if k in KeySet(t) then 0 else 1)
    ensures forall i | 0 <= i < |t| :: t'[i].key == t[i].key
    ensures forall i | 0 <= i < |t'| :: t'[i].val == (if i < |t| then t[i].val else 0.0) + (if t'[i].key == k && v.Some? then v.value else 0.0)
  {
    var add := if v.Some? then v.value else 0.0;
    match Find(t, k)
    case Some(i) =>
      KeySetUpdate(t, i, Keyed(k, t[i].val + add));
      t[i := Keyed(k, t[i].val + add)]
    case None =>
      KeySetAppend(t, Keyed(k, add));
      t + [Keyed(k, add)]
  }

  ghost function RowKeys<K, V>(rows: seq<Keyed<Option<K>, V>>): set<K> {
    set i | 0 <= i < |rows| && rows[i].key.Some? :: rows[i].key.value
  }

  /** The present keys do not depend on the order of the rows. */
  lemma RowKeysPermutation<K, V>(s1: seq<Keyed<Option<K>, V>>, s2: seq<Keyed<Option<K>, V>>)
    requires multiset(s1) == multiset(s2)
    ensures RowKeys(s1) == RowKeys(s2)
  {
    forall x | x in RowKeys(s1) ensures x in RowKeys(s2) {
      var i :| 0 <= i < |s1| && s1[i].key == Some(x);
      assert s1[i] in multiset(s2) by {
        assert s1[i] in s1;
      }
      var j :| 0 <= j < |s2| && s2[j] == s1[i];
    }
    forall x | x in RowKeys(s2) ensures x in RowKeys(s1) {
      var j :| 0 <= j < |s2| && s2[j].key == Some(x);
      assert s2[j] in multiset(s1) by {
        assert s2[j] in s2;
      }
      var i :| 0 <= i < |s1| && s1[i] == s2[j];
    }
  }

  /** A key no row carries sums to 0. */
  lemma {:induction false} SumForAbsent<K>(rows: seq<Keyed<Option<K>, Option<real>>>, k: K)
    ensures k !in RowKeys(rows) ==> SumFor(rows, k) == 0.0
    decreases |rows|
  {
    if rows != [] && k !in RowKeys(rows) {
      var init := rows[..|rows| - 1];
      assert RowKeys(init) <= RowKeys(rows) by {
        forall x | x in RowKeys(init) ensures x in RowKeys(rows) {
          var i :| 0 <= i < |init| && init[i].key.Some? && init[i].key.value == x;
          assert rows[i] == init[i];
        }
      }
      SumForAbsent(init, k);
      var last := rows[|rows| - 1];
      assert last.key.Some? ==> last.key.value in RowKeys(rows);
    }
  }

  /** `groupby(key)[value].sum()`: one row per distinct present key, holding
      the sum of the present values with that key (NaN values are skipped,
      a group of NaNs sums to 0); rows whose key is NaN are dropped. */
  function GroupSum<K(==)>(rows: seq<Keyed<Option<K>, Option<real>>>): (t: seq<Keyed<K, real>>)
    ensures UniqueKeys(t)
    ensures KeySet(t) == RowKeys(rows)
    ensures forall i | 0 <= i < |t| :: t[i].val == SumFor(rows, t[i].key)
    decreases |rows|
  {
    if rows == [] then []
    else
      var init, last := rows[..|rows| - 1], rows[|rows| - 1];
      assert RowKeys(rows) == RowKeys(init) + (if last.key.Some? then {last.key.value} else {});
      var t := GroupSum(init);
      match last.key
      case None => t
      case Some(k) =>
        SumForAbsent(init, k);
        Accumulate(t, k, last.val)
  }

  /** The group sums do not depend on the order of the rows: two
      orderings of the same rows give the same (key, sum) rows. */
  lemma GroupSumOrderIndependent<K>(rows1: seq<Keyed<Option<K>, Option<real>>>, rows2: seq<Keyed<Option<K>, Option<real>>>)
    requires multiset(rows1) == multiset(rows2)
    ensures forall g :: g in GroupSum(rows1) <==> g in GroupSum(rows2)
  {
    var t1, t2 := GroupSum(rows1), GroupSum(rows2);
    RowKeysPermutation(rows1, rows2);
    forall g | g in t1 ensures g in t2 {
      var i :| 0 <= i < |t1| && t1[i] == g;
      assert g.key in KeySet(t2);
      var j :| 0 <= j < |t2| && t2[j].key == g.key;
      SumForPermutation(rows1, rows2, g.key);
      assert t2[j] == g;
    }
    forall g | g in t2 ensures g in t1 {
      var j :| 0 <= j < |t2| && t2[j] == g;
      assert g.key in KeySet(t1);
      var i :| 0 <= i < |t1| && t1[i].key == g.key;
      SumForPermutation(rows1, rows2, g.key);
      assert t1[i] == g;
    }
  }

  // ---------------------------------------------------------------------
  // Sorting a group table by its keys (groupby's default sort=True)

  /** `less` is a strict total order. */
  ghost predicate StrictTotalOrder<K(!new)>(less: (K, K) -> bool) {
    && (forall a :: !less(a, a))
    && (forall a, b, c | less(a, b) && less(b, c) :: less(a, c))
    && (forall a, b | a != b :: less(a, b) || less(b, a))
  }

  /** The keys strictly increase along the table. */
  ghost predicate SortedBy<K, V>(t: seq<Keyed<K, V>>, less: (K, K) -> bool) {
    forall i, j | 0 <= i < j < |t| :: less(t[i].key, t[j].key)
  }

  /** `x` inserted before the first row whose key is not below its own. */
  function InsertByKey<K, V>(t: seq<Keyed<K, V>>, x: Keyed<K, V>, less: (K, K) -> bool): (r: seq<Keyed<K, V>>)
    ensures multiset(r) == multiset(t) + multiset{x}
    decreases |t|
  {
    if t == [] || !less(t[0].key, x.key) then [x] + t
    else
      assert t == [t[0]] + t[1..];
      [t[0]] + InsertByKey(t[1..], x, less)
  }

  /** The rows of `t` in increasing key order (an insertion sort). */
  function SortByKey<K, V>(t: seq<Keyed<K, V>>, less: (K, K) -> bool): (r: seq<Keyed<K, V>>)
    ensures multiset(r) == multiset(t)
    decreases |t|
  {
    if t == [] then []
    else
      assert t == t[..|t| - 1] + [t[|t| - 1]];
      InsertByKey(SortByKey(t[..|t| - 1], less), t[|t| - 1], less)
  }

  lemma {:induction false} InsertByKeySorted<K(!new), V>(t: seq<Keyed<K, V>>, x: Keyed<K, V>, less: (K, K) -> bool)
    requires StrictTotalOrder(less) && SortedBy(t, less) && x.key !in KeySet(t)
    ensures SortedBy(InsertByKey(t, x, less), less)
    decreases |t|
  {
    var r := InsertByKey(t, x, less);
    if t == [] {
    } else if !less(t[0].key, x.key) {
      assert less(x.key, t[0].key);
      forall j | 0 < j < |r| ensures less(r[0].key, r[j].key) {
        if j > 1 {
          assert less(t[0].key, t[j - 1].key);
        }
      }
    } else {
      var rest := InsertByKey(t[1..], x, less);
      assert x.key !in KeySet(t[1..]) by {
        forall i | 0 <= i < |t[1..]| ensures t[1..][i].key != x.key {
          assert t[1..][i] == t[i + 1];
        }
      }
      InsertByKeySorted(t[1..], x, less);
      forall j | 0 <= j < |rest| ensures less(t[0].key, rest[j].key) {
        assert rest[j] in multiset(rest);
        if rest[j] != x {
          var k :| 0 <= k < |t[1..]| && t[1..][k] == rest[j];
          assert t[k + 1] == rest[j];
        }
      }
    }
  }

  /** Sorting keeps exactly the rows, and so the key set. */
  lemma SortByKeyRows<K, V>(t: seq<Keyed<K, V>>, less: (K, K) -> bool)
    ensures forall x :: x in SortByKey(t, less) <==> x in t
    ensures KeySet(SortByKey(t, less)) == KeySet(t)
  {
    var r := SortByKey(t, less);
    forall x ensures x in r <==> x in t {
      assert x in r <==> x in multiset(r);
      assert x in t <==> x in multiset(t);
    }
    forall k | k in KeySet(r) ensures k in KeySet(t) {
      var i :| 0 <= i < |r| && r[i].key == k;
      assert r[i] in t;
    }
    forall k | k in KeySet(t) ensures k in KeySet(r) {
      var i :| 0 <= i < |t| && t[i].key == k;
      assert t[i] in r;
    }
  }

  /** With unique keys, sorting gives strictly increasing keys, hence
      still unique ones. */
  lemma {:induction false} SortByKeySorted<K(!new), V>(t: seq<Keyed<K, V>>, less: (K, K) -> bool)
    requires StrictTotalOrder(less) && UniqueKeys(t)
    ensures SortedBy(SortByKey(t, less), less) && UniqueKeys(SortByKey(t, less))
    decreases |t|
  {
    if t != [] {
      var init, last := t[..|t| - 1], t[|t| - 1];
      assert UniqueKeys(init);
      SortByKeySorted(init, less);
      SortByKeyRows(init, less);
      var sorted := SortByKey(init, less);
      assert last.key !in KeySet(init) by {
        forall k | 0 <= k < |init| ensures init[k].key != last.key {
          assert t[k] == init[k];
        }
      }
      InsertByKeySorted(sorted, last, less);
    }
  }

  /** A row of a sorted table is its first row or has a greater key. */
  lemma FirstIsLeast<K, V>(t: seq<Keyed<K, V>>, y: Keyed<K, V>, less: (K, K) -> bool)
    requires SortedBy(t, less) && y in t
    ensures y == t[0] || less(t[0].key, y.key)
  {
    var i :| 0 <= i < |t| && t[i] == y;
    if i > 0 {
      assert less(t[0].key, t[i].key);
    }
  }

  /** Two sorted tables with the same rows are the same table. */
  lemma {:induction false} SortedUnique<K(!new), V>(a: seq<Keyed<K, V>>, b: seq<Keyed<K, V>>, less: (K, K) -> bool)
    requires StrictTotalOrder(less) && SortedBy(a, less) && SortedBy(b, less)
    requires forall x :: x in a <==> x in b
    ensures a == b
    decreases |a|
  {
    if a != [] {
      assert a[0] in b;
    }
    if b != [] {
      assert b[0] in a;
    }
    if a != [] && b != [] {
      FirstIsLeast(a, b[0], less);
      FirstIsLeast(b, a[0], less);
      assert a[0] == b[0];
      forall x ensures x in a[1..] <==> x in b[1..] {
        if x in a[1..] {
          var k :| 1 <= k < |a| && a[k] == x;
          assert less(a[0].key, a[k].key);
          assert x in b;
        }
        if x in b[1..] {
          var k :| 1 <= k < |b| && b[k] == x;
          assert less(b[0].key, b[k].key);
          assert x in a;
        }
      }
      SortedUnique(a[1..], b[1..], less);
      assert a == [a[0]] + a[1..] && b == [b[0]] + b[1..];
    }
  }

  // ---------------------------------------------------------------------
  // groupby(...).size() and groupby(...)[column].sum() with sort=True

  /** Two tables with unique keys and the same rows sort to the same table. */
  lemma SortSameRows<K(!new), V>(t1: seq<Keyed<K, V>>, t2: seq<Keyed<K, V>>, less: (K, K) -> bool)
    requires StrictTotalOrder(less) && UniqueKeys(t1) && UniqueKeys(t2)
    requires forall x :: x in t1 <==> x in t2
    ensures SortByKey(t1, less) == SortByKey(t2, less)
  {
    SortByKeyRows(t1, less);
    SortByKeyRows(t2, less);
    SortByKeySorted(t1, less);
    SortByKeySorted(t2, less);
    SortedUnique(SortByKey(t1, less), SortByKey(t2, less), less);
  }

  /** Sorting two rows puts the one with the smaller key first. */
  lemma SortByKeyTwo<K, V>(a: Keyed<K, V>, b: Keyed<K, V>, less: (K, K) -> bool)
    ensures SortByKey([a, b], less) == if less(a.key, b.key) then [a, b] else [b, a]
  {
    var t := [a, b];
    assert t[..1] == [a] && t[..1][..0] == [];
  }

  /** Two groups, sorted. */
  lemma SortedGroupSizeTwo<K>(keys: seq<Option<K>>, a: Keyed<K, nat>, b: Keyed<K, nat>, less: (K, K) -> bool)
    requires GroupSize(keys) == [a, b]
    ensures SortedGroupSize(keys, less) == if less(a.key, b.key) then [a, b] else [b, a]
  {
    SortByKeyTwo(a, b, less);
  }

  /** Every row of `r` is a row of `t`. */
  lemma RowsOf<K, V>(r: seq<Keyed<K, V>>, t: seq<Keyed<K, V>>)
    requires forall x :: x in r <==> x in t
    ensures forall i | 0 <= i < |r| :: r[i] in t
  {
    forall i | 0 <= i < |r| ensures r[i] in t {
      assert r[i] in r;
    }
  }

  /** `groupby(key).size()`: one row per distinct present key, in
      increasing key order (see SortedGroupSizeSorted), holding the number
      of rows with that key. */
  function SortedGroupSize<K(==)>(keys: seq<Option<K>>, less: (K, K) -> bool): (t: seq<Keyed<K, nat>>)
    ensures KeySet(t) == PresentKeys(keys)
    ensures forall i | 0 <= i < |t| :: 1 <= t[i].val == multiset(keys)[Some(t[i].key)]
  {
    var groups := GroupSize(keys);
    SortByKeyRows(groups, less);
    RowsOf(SortByKey(groups, less), groups);
    SortedGroupSizePositive(keys);
    SortByKey(groups, less)
  }

  /** Every unsorted group holds at least one row. */
  lemma SortedGroupSizePositive<K>(keys: seq<Option<K>>)
    ensures forall i | 0 <= i < |GroupSize(keys)| :: GroupSize(keys)[i].val >= 1
  {
    forall i | 0 <= i < |GroupSize(keys)| ensures GroupSize(keys)[i].val >= 1 {
      GroupSizePositive(keys, i);
    }
  }

  /** Under a strict total order the groups come in increasing key order,
      one row per key. */
  lemma SortedGroupSizeSorted<K(!new)>(keys: seq<Option<K>>, less: (K, K) -> bool)
    requires StrictTotalOrder(less)
    ensures SortedBy(SortedGroupSize(keys, less), less) && UniqueKeys(SortedGroupSize(keys, less))
  {
    SortByKeySorted(GroupSize(keys), less);
  }

  /** The sorted group sizes do not depend on the order of the rows at
      all: two orderings of the same rows give the same table. */
  lemma SortedGroupSizeOrderIndependent<K(!new)>(keys1: seq<Option<K>>, keys2: seq<Option<K>>, less: (K, K) -> bool)
    requires StrictTotalOrder(less) && multiset(keys1) == multiset(keys2)
    ensures SortedGroupSize(keys1, less) == SortedGroupSize(keys2, less)
  {
    GroupSizeOrderIndependent(keys1, keys2);
    SortSameRows(GroupSize(keys1), GroupSize(keys2), less);
  }

  /** `groupby(key)[value].sum()`: one row per distinct present key, in
      increasing key order (see SortedGroupSumSorted), holding the sum of
      the present values with that key. */
  function SortedGroupSum<K(==)>(rows: seq<Keyed<Option<K>, Option<real>>>, less: (K, K) -> bool): (t: seq<Keyed<K, real>>)
    ensures KeySet(t) == RowKeys(rows)
    ensures forall i | 0 <= i < |t| :: t[i].val == SumFor(rows, t[i].key)
  {
    var groups := GroupSum(rows);
    SortByKeyRows(groups, less);
    RowsOf(SortByKey(groups, less), groups);
    SortByKey(groups, less)
  }

  /** Under a strict total order the sums come in increasing key order,
      one row per key. */
  lemma SortedGroupSumSorted<K(!new)>(rows: seq<Keyed<Option<K>, Option<real>>>, less: (K, K) -> bool)
    requires StrictTotalOrder(less)
    ensures SortedBy(SortedGroupSum(rows, less), less) && UniqueKeys(SortedGroupSum(rows, less))
  {
    SortByKeySorted(GroupSum(rows), less);
  }

  /** The sorted group sums do not depend on the order of the rows at
      all: two orderings of the same rows give the same table. */
  lemma SortedGroupSumOrderIndependent<K(!new)>(rows1: seq<Keyed<Option<K>, Option<real>>>, rows2: seq<Keyed<Option<K>, Option<real>>>, less: (K, K) -> bool)
    requires StrictTotalOrder(less) && multiset(rows1) == multiset(rows2)
    ensures SortedGroupSum(rows1, less) == SortedGroupSum(rows2, less)
  {
    GroupSumOrderIndependent(rows1, rows2);
    SortSameRows(GroupSum(rows1), GroupSum(rows2), less);
  }

  // ---------------------------------------------------------------------
  // pd.merge

  /** The right-table values whose key is `k`, in table order. */
  function MatchesOf<K(==), R>(right: seq<Keyed<K, R>>, k: K): seq<R>
    decreases |right|
  {
    if right == [] then []
    else
      var last := right[|right| - 1];
      MatchesOf(right[..|right| - 1], k) + (if last.key == k then [last.val] else [])
  }

  /** The output rows of a left merge for one left row: one per match, or
      a single row with nothing from the right when there is no match. */
  function LeftRows<L, R>(l: L, ms: seq<R>): seq<Joined<L, Option<R>>> {
    if ms == [] then [Joined(l, None)]
    else seq(|ms|, i requires 0 <= i < |ms| => Joined(l, Some(ms[i])))
  }

  /** `pd.merge(left, right, on=key, how='left')`: the left rows in order,
      each repeated once per matching right row, or kept once unmatched. */
  function LeftMerge<L, K(==), R>(left: seq<L>, key: L -> K, right: seq<Keyed<K, R>>): (out: seq<Joined<L, Option<R>>>)
    ensures |out| >= |left|
    decreases |left|
  {
    if left == [] then []
    else
      var last := left[|left| - 1];
      LeftMerge(left[..|left| - 1], key, right) + LeftRows(last, MatchesOf(right, key(last)))
  }

  /** `pd.merge(left, right, on=key, how='inner')`: the left rows in order,
      each repeated once per matching right row; unmatched rows vanish. */
  function InnerMerge<L, K(==), R>(left: seq<L>, key: L -> K, right: seq<Keyed<K, R>>): (out: seq<Joined<L, R>>)
    decreases |left|
  {
    if left == [] then []
    else
      var last := left[|left| - 1];
      var ms := MatchesOf(right, key(last));
      InnerMerge(left[..|left| - 1], key, right) + seq(|ms|, i requires 0 <= i < |ms| => Joined(last, ms[i]))
  }

  /** At most one row of `t` has key `k`. */
  ghost predicate AtMostOnce<K, V>(t: seq<Keyed<K, V>>, k: K) {
    forall i, j | 0 <= i < j < |t| && t[i].key == k :: t[j].key != k
  }

  /** No present key appears twice; rows whose key is missing may repeat. */
  ghost predicate UniquePresentKeys<K, V>(t: seq<Keyed<Option<K>, V>>) {
    forall i, j | 0 <= i < j < |t| && t[i].key.Some? :: t[i].key != t[j].key
  }

  /** In a table whose present keys are unique, a present key is carried
      by at most one row. */
  lemma PresentAtMostOnce<K, V>(t: seq<Keyed<Option<K>, V>>, x: K)
    requires UniquePresentKeys(t)
    ensures AtMostOnce(t, Some(x))
  {
  }

  /** A key that at most one right row carries matches at most that row. */
  lemma {:induction false} MatchesOfAtMostOnce<K, R>(right: seq<Keyed<K, R>>, k: K)
    requires AtMostOnce(right, k)
    ensures MatchesOf(right, k) == if k in KeySet(right) then [Lookup(right, k).value] else []
    decreases |right|
  {
    if right != [] {
      var init, last := right[..|right| - 1], right[|right| - 1];
      assert KeySet(right) == KeySet(init) + {last.key};
      assert AtMostOnce(init, k) by {
        forall i, j | 0 <= i < j < |init| && init[i].key == k ensures init[j].key != k {
          assert init[i] == right[i] && init[j] == right[j];
        }
      }
      MatchesOfAtMostOnce(init, k);
      if last.key == k {
        assert k !in KeySet(init) by {
          forall i | 0 <= i < |init| ensures init[i].key != k {
            assert init[i] == right[i];
          }
        }
      }
    }
  }

  /** With unique right keys a key matches at most one right row. */
  lemma MatchesOfUnique<K, R>(right: seq<Keyed<K, R>>, k: K)
    requires UniqueKeys(right)
    ensures MatchesOf(right, k) == if k in KeySet(right) then [Lookup(right, k).value] else []
  {
    MatchesOfAtMostOnce(right, k);
  }

  /** A left merge in which every left row's key is carried by at most one
      right row keeps every left row exactly once, in order, joined with
      the matching right value or with nothing. */
  lemma {:induction false} LeftMergeAtMostOnce<L, K, R>(left: seq<L>, key: L -> K, right: seq<Keyed<K, R>>)
    requires forall i | 0 <= i < |left| :: AtMostOnce(right, key(left[i]))
    ensures |LeftMerge(left, key, right)| == |left|
    ensures forall i | 0 <= i < |left| :: LeftMerge(left, key, right)[i] == Joined(left[i], Lookup(right, key(left[i])))
    decreases |left|
  {
    if left != [] {
      var init, last := left[..|left| - 1], left[|left| - 1];
      forall i | 0 <= i < |init| ensures AtMostOnce(right, key(init[i])) {
        assert init[i] == left[i];
      }
      LeftMergeAtMostOnce(init, key, right);
      MatchesOfAtMostOnce(right, key(last));
      var prev := LeftMerge(init, key, right);
      var row := Joined(last, Lookup(right, key(last)));
      assert LeftRows(last, MatchesOf(right, key(last))) == [row];
      assert LeftMerge(left, key, right) == prev + [row];
      forall i | 0 <= i < |left|
        ensures LeftMerge(left, key, right)[i] == Joined(left[i], Lookup(right, key(left[i])))
      {
        if i < |init| {
          assert left[i] == init[i];
        }
      }
    }
  }

  /** A left merge against a table with unique keys keeps every left row
      exactly once, in order, joined with the matching right value or
      with nothing. */
  lemma LeftMergeUnique<L, K, R>(left: seq<L>, key: L -> K, right: seq<Keyed<K, R>>)
    requires UniqueKeys(right)
    ensures |LeftMerge(left, key, right)| == |left|
    ensures forall i | 0 <= i < |left| :: LeftMerge(left, key, right)[i] == Joined(left[i], Lookup(right, key(left[i])))
  {
    LeftMergeAtMostOnce(left, key, right);
  }

  /** No two rows share a key under `key`. */
  ghost predicate UniqueBy<L, K>(left: seq<L>, key: L -> K) {
    forall i, j | 0 <= i < j < |left| :: key(left[i]) != key(left[j])
  }

  /** An inner merge of two tables with unique keys holds exactly the keys
      present in both, each once, with the left row and the right value of
      that key. */
  lemma InnerMergeUnique<L, K, R>(left: seq<L>, key: L -> K, right: seq<Keyed<K, R>>)
    requires UniqueKeys(right) && UniqueBy(left, key)
    ensures forall i, j | 0 <= i < j < |InnerMerge(left, key, right)| ::
      key(InnerMerge(left, key, right)[i].left) != key(InnerMerge(left, key, right)[j].left)
    ensures forall i | 0 <= i < |InnerMerge(left, key, right)| ::
      InnerMerge(left, key, right)[i].left in left &&
      Lookup(right, key(InnerMerge(left, key, right)[i].left)) == Some(InnerMerge(left, key, right)[i].right)
    ensures forall j | 0 <= j < |left| && key(left[j]) in KeySet(right) ::
      exists i :: 0 <= i < |InnerMerge(left, key, right)| && InnerMerge(left, key, right)[i].left == left[j]
  {
    InnerMergeDistinct(left, key, right);
    forall i | 0 <= i < |InnerMerge(left, key, right)|
      ensures InnerMerge(left, key, right)[i].left in left
      ensures Lookup(right, key(InnerMerge(left, key, right)[i].left)) == Some(InnerMerge(left, key, right)[i].right)
    {
      InnerMergeFrom(left, key, right, i);
      InnerMergeValue(left, key, right, i);
    }
    InnerMergeComplete(left, key, right, InnerMerge(left, key, right));
  }

  /** Against a table with unique keys, the rows of an inner merge of a
      table with unique keys have pairwise different keys. */
  lemma {:induction false} InnerMergeDistinct<L, K, R>(left: seq<L>, key: L -> K, right: seq<Keyed<K, R>>)
    requires UniqueKeys(right) && UniqueBy(left, key)
    ensures forall i, j | 0 <= i < j < |InnerMerge(left, key, right)| ::
      key(InnerMerge(left, key, right)[i].left) != key(InnerMerge(left, key, right)[j].left)
    decreases |left|
  {
    if left != [] {
      var init, last := left[..|left| - 1], left[|left| - 1];
      assert UniqueBy(init, key);
      InnerMergeDistinct(init, key, right);
      MatchesOfUnique(right, key(last));
      var prev := InnerMerge(init, key, right);
      var out := InnerMerge(left, key, right);
      var ms := MatchesOf(right, key(last));
      assert out == prev + seq(|ms|, i requires 0 <= i < |ms| => Joined(last, ms[i]));
      assert |ms| <= 1;
      forall i | 0 <= i < |prev| ensures key(prev[i].left) != key(last) {
        InnerMergeFrom(init, key, right, i);
        var j :| 0 <= j < |init| && init[j] == prev[i].left;
        assert left[j] == init[j];
      }
    }
  }

  /** Against a table with unique keys, each row of an inner merge carries
      the right value of its key. */
  lemma {:induction false} InnerMergeValue<L, K, R>(left: seq<L>, key: L -> K, right: seq<Keyed<K, R>>, i: nat)
    requires UniqueKeys(right) && i < |InnerMerge(left, key, right)|
    ensures Lookup(right, key(InnerMerge(left, key, right)[i].left)) == Some(InnerMerge(left, key, right)[i].right)
    decreases |left|
  {
    var init, last := left[..|left| - 1], left[|left| - 1];
    var prev := InnerMerge(init, key, right);
    if i < |prev| {
      InnerMergeValue(init, key, right, i);
    } else {
      MatchesOfUnique(right, key(last));
    }
  }

  /** Every left row whose key the right table has appears in the inner
      merge `out`. */
  lemma InnerMergeComplete<L, K, R>(left: seq<L>, key: L -> K, right: seq<Keyed<K, R>>, out: seq<Joined<L, R>>)
    requires UniqueKeys(right) && out == InnerMerge(left, key, right)
    ensures forall j | 0 <= j < |left| && key(left[j]) in KeySet(right) ::
      exists i :: 0 <= i < |out| && out[i].left == left[j]
  {
    forall j | 0 <= j < |left| && key(left[j]) in KeySet(right) {
      InnerMergeHas(left, key, right, j);
    }
  }

  /** The row at index `j` of the left table, when the right table has its
      key, appears in the inner merge. */
  lemma {:induction false} InnerMergeHas<L, K, R>(left: seq<L>, key: L -> K, right: seq<Keyed<K, R>>, j: nat)
    requires UniqueKeys(right) && j < |left| && key(left[j]) in KeySet(right)
    ensures exists i :: 0 <= i < |InnerMerge(left, key, right)| && InnerMerge(left, key, right)[i].left == left[j]
    decreases |left|
  {
    var init, last := left[..|left| - 1], left[|left| - 1];
    var prev := InnerMerge(init, key, right);
    var out := InnerMerge(left, key, right);
    var ms := MatchesOf(right, key(last));
    assert out == prev + seq(|ms|, i requires 0 <= i < |ms| => Joined(last, ms[i]));
    if j < |init| {
      InnerMergeHas(init, key, right, j);
      var i :| 0 <= i < |prev| && prev[i].left == init[j];
      assert out[i].left == left[j];
    } else {
      MatchesOfUnique(right, key(last));
      assert |ms| == 1 && |out| == |prev| + 1;
      assert out[|prev|].left == left[j];
    }
  }

  /** An inner merge against a table with unique keys keeps the left
      table's order: left rows in increasing key order give output rows in
      increasing key order. */
  lemma {:induction false} InnerMergeSorted<L, K, R>(left: seq<L>, key: L -> K, right: seq<Keyed<K, R>>, less: (K, K) -> bool)
    requires UniqueKeys(right)
    requires forall i, j | 0 <= i < j < |left| :: less(key(left[i]), key(left[j]))
    ensures forall i, j | 0 <= i < j < |InnerMerge(left, key, right)| ::
      less(key(InnerMerge(left, key, right)[i].left), key(InnerMerge(left, key, right)[j].left))
    decreases |left|
  {
    if left != [] {
      var init, last := left[..|left| - 1], left[|left| - 1];
      InnerMergeSorted(init, key, right, less);
      MatchesOfUnique(right, key(last));
      var prev := InnerMerge(init, key, right);
      var out := InnerMerge(left, key, right);
      var ms := MatchesOf(right, key(last));
      var tail := seq(|ms|, i requires 0 <= i < |ms| => Joined(last, ms[i]));
      assert out == prev + tail;
      assert |tail| <= 1;
      forall i | 0 <= i < |prev| ensures less(key(prev[i].left), key(last)) {
        InnerMergeFrom(init, key, right, i);
        var j :| 0 <= j < |init| && init[j] == prev[i].left;
        assert left[j] == init[j];
      }
    }
  }

  /** Every row of an inner merge comes from a left row. */
  lemma {:induction false} InnerMergeFrom<L, K, R>(left: seq<L>, key: L -> K, right: seq<Keyed<K, R>>, i: nat)
    requires i < |InnerMerge(left, key, right)|
    ensures InnerMerge(left, key, right)[i].left in left
    decreases |left|
  {
    var init, last := left[..|left| - 1], left[|left| - 1];
    var prev := InnerMerge(init, key, right);
    if i < |prev| {
      InnerMergeFrom(init, key, right, i);
      assert prev[i].left in init;
    }
  }
}
