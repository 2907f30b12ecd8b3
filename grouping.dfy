/**
 * The pandas reductions the reports are built from, over any row type:
 * `groupby(key)[val].sum()`, `nunique()`, `sort_values(ascending=False)`
 * and `head(n)`. A grouped series is a sequence of (key, sum) pairs.
 */
module Grouping {

  import opened Seqs

  // ---------------------------------------------------------------------------
  // Distinct keys: the index of a groupby, and nunique
  // ---------------------------------------------------------------------------

  /** The set of keys that occur in `rows`. */
  function KeySet<R(==), K>(rows: seq<R>, key: R -> K): set<K>
  {
    set r | r in rows :: key(r)
  }

  /** Each key of `rows` once, in the order of the key's last occurrence. */
  function DistinctKeys<R, K(==)>(rows: seq<R>, key: R -> K): seq<K>
  {
    if rows == [] then []
    else
      var rest := DistinctKeys(rows[1..], key);
      if key(rows[0]) in rest then rest else [key(rows[0])] + rest
  }

  /** `DistinctKeys` lists every key of `rows`, nothing else, each exactly once. */
  lemma {:induction false} DistinctKeysSpec<R, K>(rows: seq<R>, key: R -> K)
    ensures NoDup(DistinctKeys(rows, key))
    ensures forall k :: k in DistinctKeys(rows, key) ==> k in KeySet(rows, key)
    ensures forall k :: k in KeySet(rows, key) ==> k in DistinctKeys(rows, key)
    ensures |DistinctKeys(rows, key)| == |KeySet(rows, key)|
  {
    var ks := DistinctKeys(rows, key);
    if rows != [] {
      DistinctKeysSpec(rows[1..], key);
      assert rows == [rows[0]] + rows[1..];
      assert KeySet(rows, key) == {key(rows[0])} + KeySet(rows[1..], key);
      var rest := DistinctKeys(rows[1..], key);
      assert forall k :: k in ks <==> k == key(rows[0]) || k in rest;
    }
    assert (set k | k in ks) == KeySet(rows, key);
    NoDupCard(ks);
  }

  // ---------------------------------------------------------------------------
  // Sums
  // ---------------------------------------------------------------------------

  /** The sum of `val` over all rows. */
  function Total<R>(rows: seq<R>, val: R -> int): int
  {
    if rows == [] then 0 else val(rows[0]) + Total(rows[1..], val)
  }

  /** The sum of `val` over the rows whose key is `k`. */
  function SumBy<R, K(==)>(rows: seq<R>, key: R -> K, val: R -> int, k: K): int
  {
    if rows == [] then 0
    else (if key(rows[0]) == k then val(rows[0]) else 0) + SumBy(rows[1..], key, val, k)
  }

  /** The sum of the values of a grouped series. */
  function SumValues<K>(g: seq<(K, int)>): int
  {
    if g == [] then 0 else g[0].1 + SumValues(g[1..])
  }

  /** The per-key sums for the keys `ks`, in the order of `ks`. */
  function GroupsOver<R, K(==)>(rows: seq<R>, key: R -> K, val: R -> int, ks: seq<K>): seq<(K, int)>
  {
    if ks == [] then []
    else [(ks[0], SumBy(rows, key, val, ks[0]))] + GroupsOver(rows, key, val, ks[1..])
  }

  /** `groupby(key)[val].sum()`: one (key, sum) pair per distinct key. */
  function Groups<R, K(==)>(rows: seq<R>, key: R -> K, val: R -> int): seq<(K, int)>
  {
    GroupsOver(rows, key, val, DistinctKeys(rows, key))
  }

  /** No key occurs twice in a grouped series. */
  predicate KeysDistinct<K(==)>(g: seq<(K, int)>)
  {
    forall i, j :: 0 <= i < j < |g| ==> g[i].0 != g[j].0
  }

  lemma {:induction false} GroupsOverSpec<R, K>(rows: seq<R>, key: R -> K, val: R -> int, ks: seq<K>)
    ensures |GroupsOver(rows, key, val, ks)| == |ks|
    ensures forall i :: 0 <= i < |ks| ==>
              GroupsOver(rows, key, val, ks)[i] == (ks[i], SumBy(rows, key, val, ks[i]))
    ensures NoDup(ks) ==> KeysDistinct(GroupsOver(rows, key, val, ks))
  {
    if ks != [] {
      GroupsOverSpec(rows, key, val, ks[1..]);
    }
  }

  /** Moving one row out of the table changes the total of the groups by that row's value, if its key is listed. */
  lemma {:induction false} SumGroupsCons<R, K>(rows: seq<R>, key: R -> K, val: R -> int, ks: seq<K>)
    requires rows != [] && NoDup(ks)
    ensures SumValues(GroupsOver(rows, key, val, ks))
            == SumValues(GroupsOver(rows[1..], key, val, ks))
               + (if key(rows[0]) in ks then val(rows[0]) else 0)
  {
    if ks != [] {
      assert NoDup(ks[1..]);
      SumGroupsCons(rows, key, val, ks[1..]);
      assert ks == [ks[0]] + ks[1..];
      assert ks[0] !in ks[1..];
    }
  }

  lemma {:induction false} SumGroupsEmpty<R, K>(key: R -> K, val: R -> int, ks: seq<K>)
    ensures SumValues(GroupsOver([], key, val, ks)) == 0
  {
    if ks != [] {
      SumGroupsEmpty(key, val, ks[1..]);
    }
  }

  /** Summing per key over a duplicate-free list holding every key gives the grand total. */
  lemma {:induction false} SumGroupsTotal<R, K>(rows: seq<R>, key: R -> K, val: R -> int, ks: seq<K>)
    requires NoDup(ks)
    requires forall r :: r in rows ==> key(r) in ks
    ensures SumValues(GroupsOver(rows, key, val, ks)) == Total(rows, val)
  {
    if rows == [] {
      SumGroupsEmpty(key, val, ks);
    } else {
      SumGroupsTotal(rows[1..], key, val, ks);
      SumGroupsCons(rows, key, val, ks);
    }
  }

  /**
   * `groupby(key)[val].sum()` holds each key of the rows exactly once, pairs
   * it with the sum of `val` over that key's rows, and its values add up to
   * the sum over all rows.
   */
  lemma GroupsSpec<R, K>(rows: seq<R>, key: R -> K, val: R -> int)
    ensures KeysDistinct(Groups(rows, key, val))
    ensures |Groups(rows, key, val)| == |KeySet(rows, key)|
    ensures forall k :: k in KeySet(rows, key) ==> (k, SumBy(rows, key, val, k)) in Groups(rows, key, val)
    ensures forall e :: e in Groups(rows, key, val) ==>
              e.0 in KeySet(rows, key) && e.1 == SumBy(rows, key, val, e.0)
    ensures SumValues(Groups(rows, key, val)) == Total(rows, val)
  {
    var ks := DistinctKeys(rows, key);
    var g := Groups(rows, key, val);
    DistinctKeysSpec(rows, key);
    GroupsOverSpec(rows, key, val, ks);
    forall k | k in KeySet(rows, key)
      ensures (k, SumBy(rows, key, val, k)) in g
    {
      var i :| 0 <= i < |ks| && ks[i] == k;
      assert g[i] == (k, SumBy(rows, key, val, k));
    }
    SumGroupsTotal(rows, key, val, ks);
  }

  // ---------------------------------------------------------------------------
  // sort_values(ascending=False) and head(n)
  // ---------------------------------------------------------------------------

  /** Values never increase along the series. */
  predicate NonIncreasing<K>(g: seq<(K, int)>)
  {
    forall i, j :: 0 <= i < j < |g| ==> g[i].1 >= g[j].1
  }

  function Insert<K>(x: (K, int), s: seq<(K, int)>): seq<(K, int)>
  {
    if s == [] || x.1 >= s[0].1 then [x] + s else [s[0]] + Insert(x, s[1..])
  }

  /** The series in descending order of value; the order among equal values is left unspecified. */
  function SortDesc<K>(s: seq<(K, int)>): seq<(K, int)>
  {
    if s == [] then [] else Insert(s[0], SortDesc(s[1..]))
  }

  lemma {:induction false} InsertMembers<K>(x: (K, int), s: seq<(K, int)>)
    ensures forall e :: e in Insert(x, s) ==> e == x || e in s
    ensures x in Insert(x, s) && forall e :: e in s ==> e in Insert(x, s)
  {
    if s != [] && x.1 < s[0].1 {
      InsertMembers(x, s[1..]);
    }
  }

  lemma {:induction false} InsertSorted<K>(x: (K, int), s: seq<(K, int)>)
    requires NonIncreasing(s)
    ensures NonIncreasing(Insert(x, s))
  {
    if s != [] && x.1 < s[0].1 {
      InsertSorted(x, s[1..]);
      InsertMembers(x, s[1..]);
      var t := Insert(x, s[1..]);
      forall j | 0 <= j < |t|
        ensures s[0].1 >= t[j].1
      {
        assert t[j] in t;
        if t[j] != x {
          var i :| 0 <= i < |s[1..]| && s[1..][i] == t[j];
          assert s[i + 1] == t[j];
        }
      }
    }
  }

  lemma {:induction false} InsertCounts<K>(x: (K, int), s: seq<(K, int)>)
    ensures multiset(Insert(x, s)) == multiset(s) + multiset{x}
    ensures SumValues(Insert(x, s)) == x.1 + SumValues(s)
  {
    if s != [] && x.1 < s[0].1 {
      InsertCounts(x, s[1..]);
      assert s == [s[0]] + s[1..];
    }
  }

  /** Inserting an element whose key is new keeps the keys distinct. */
  lemma {:induction false} InsertKeysDistinct<K>(x: (K, int), s: seq<(K, int)>)
    requires KeysDistinct(s)
    requires forall e :: e in s ==> e.0 != x.0
    ensures KeysDistinct(Insert(x, s))
  {
    if s != [] && x.1 < s[0].1 {
      InsertKeysDistinct(x, s[1..]);
      var t := Insert(x, s[1..]);
      InsertMembers(x, s[1..]);
      forall j | 0 <= j < |t|
        ensures t[j].0 != s[0].0
      {
        assert t[j] in t;
      }
    }
  }

  lemma {:induction false} SortDescPermutes<K>(s: seq<(K, int)>)
    ensures NonIncreasing(SortDesc(s))
    ensures multiset(SortDesc(s)) == multiset(s)
    ensures SumValues(SortDesc(s)) == SumValues(s)
  {
    if s != [] {
      SortDescPermutes(s[1..]);
      InsertSorted(s[0], SortDesc(s[1..]));
      InsertCounts(s[0], SortDesc(s[1..]));
      assert s == [s[0]] + s[1..];
    }
  }

  lemma {:induction false} SortDescKeysDistinct<K>(s: seq<(K, int)>)
    requires KeysDistinct(s)
    ensures KeysDistinct(SortDesc(s))
  {
    if s != [] {
      assert KeysDistinct(s[1..]);
      SortDescKeysDistinct(s[1..]);
      SortDescPermutes(s[1..]);
      forall e | e in SortDesc(s[1..])
        ensures e.0 != s[0].0
      {
        assert e in multiset(s[1..]);
        var j :| 0 <= j < |s[1..]| && s[1..][j] == e;
        assert s[j + 1] == e;
      }
      InsertKeysDistinct(s[0], SortDesc(s[1..]));
    }
  }

  /**
   * Sorting yields a non-increasing permutation of the series with the same
   * values in total, and keeps keys distinct.
   */
  lemma SortDescSpec<K>(s: seq<(K, int)>)
    ensures NonIncreasing(SortDesc(s))
    ensures multiset(SortDesc(s)) == multiset(s)
    ensures |SortDesc(s)| == |s|
    ensures SumValues(SortDesc(s)) == SumValues(s)
    ensures KeysDistinct(s) ==> KeysDistinct(SortDesc(s))
  {
    SortDescPermutes(s);
    assert |multiset(SortDesc(s))| == |multiset(s)|;
    if KeysDistinct(s) {
      SortDescKeysDistinct(s);
    }
  }

  /**
   * The first `n` entries of the sorted series: `min(n, |s|)` of them, in
   * non-increasing order, all taken from `s`, and no entry of `s` left out
   * has a larger value than any entry kept.
   */
  lemma TopSpec<K>(s: seq<(K, int)>, n: nat)
    ensures |Take(SortDesc(s), n)| == if |s| < n then |s| else n
    ensures NonIncreasing(Take(SortDesc(s), n))
    ensures forall e :: e in Take(SortDesc(s), n) ==> e in s
    ensures forall e, t :: e in s && e !in Take(SortDesc(s), n) && t in Take(SortDesc(s), n) ==> e.1 <= t.1
    ensures KeysDistinct(s) ==> KeysDistinct(Take(SortDesc(s), n))
  {
    var sorted := SortDesc(s);
    SortDescSpec(s);
    var m := if |sorted| <= n then |sorted| else n;
    var top := Take(sorted, n);
    assert top == sorted[..m];
    PrefixSpec(sorted, m);
    forall e | e in s
      ensures e in sorted
    {
      assert e in multiset(s);
    }
    forall e | e in sorted
      ensures e in s
    {
      assert e in multiset(sorted);
    }
  }

  /** A prefix of a non-increasing series is non-increasing and dominates the rest. */
  lemma {:induction false} PrefixSpec<K>(sorted: seq<(K, int)>, m: nat)
    requires NonIncreasing(sorted) && m <= |sorted|
    ensures NonIncreasing(sorted[..m])
    ensures forall e :: e in sorted[..m] ==> e in sorted
    ensures KeysDistinct(sorted) ==> KeysDistinct(sorted[..m])
    ensures forall e, t :: e in sorted && e !in sorted[..m] && t in sorted[..m] ==> e.1 <= t.1
  {
    var top := sorted[..m];
    forall e, t | e in sorted && e !in top && t in top
      ensures e.1 <= t.1
    {
      var i :| 0 <= i < |sorted| && sorted[i] == e;
      var j :| 0 <= j < |top| && top[j] == t;
      assert sorted[j] == t;
    }
  }
}
