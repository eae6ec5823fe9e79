/** What the SQL statements of the data-access layer do to a sequence of rows:
    WHERE filters (keeping table order), ORDER BY (a sort whose ties SQL leaves
    unspecified, so only sortedness and permutation are promised), SUM and DISTINCT. */
module Relational {
  import opened Wrappers

  /** A comparison usable by ORDER BY: total and transitive. */
  ghost predicate TotalPreorder<T(!new)>(le: (T, T) -> bool) {
    && (forall a, b :: le(a, b) || le(b, a))
    && (forall a, b, c :: le(a, b) && le(b, c) ==> le(a, c))
  }

  predicate Sorted<T>(s: seq<T>, le: (T, T) -> bool) {
    forall i, j | 0 <= i < j < |s| :: le(s[i], s[j])
  }

  /** WHERE: the rows satisfying `p`, each as often as in `s`, in table order. */
  function Where<T(!new)>(s: seq<T>, p: T -> bool): (r: seq<T>)
    ensures |r| <= |s|
    ensures forall x :: multiset(r)[x] == if p(x) then multiset(s)[x] else 0
    ensures forall i | 0 <= i < |r| :: p(r[i]) && r[i] in s
  {
    if |s| == 0 then []
    else
      assert s == [s[0]] + s[1..];
      (if p(s[0]) then [s[0]] else []) + Where(s[1..], p)
  }

  /** A row satisfying the condition survives the WHERE. */
  lemma {:induction false} WhereKeeps<T(!new)>(s: seq<T>, p: T -> bool, x: T)
    requires x in s && p(x)
    ensures x in Where(s, p)
  {
    if s[0] != x {
      assert x in s[1..];
      WhereKeeps(s[1..], p, x);
    }
  }

  /** When no two rows satisfy the condition, the WHERE yields at most one row,
      and exactly the one that satisfies it when there is one. */
  lemma {:induction false} WhereSingle<T(!new)>(s: seq<T>, p: T -> bool)
    requires forall i, j | 0 <= i < j < |s| :: !(p(s[i]) && p(s[j]))
    ensures |Where(s, p)| <= 1
    ensures forall i | 0 <= i < |s| && p(s[i]) :: Where(s, p) == [s[i]]
  {
    if |s| > 0 {
      WhereSingle(s[1..], p);
      var rest := Where(s[1..], p);
      if p(s[0]) {
        forall k | 0 <= k < |s[1..]|
          ensures !p(s[1..][k])
        {
          assert s[1..][k] == s[k + 1];
        }
        WhereNone(s[1..], p);
      }
      forall i | 0 <= i < |s| && p(s[i])
        ensures Where(s, p) == [s[i]]
      {
        if i > 0 {
          assert s[1..][i - 1] == s[i];
        }
      }
    }
  }

  lemma {:induction false} WhereNone<T(!new)>(s: seq<T>, p: T -> bool)
    requires forall i | 0 <= i < |s| :: !p(s[i])
    ensures Where(s, p) == []
  {
    if |s| > 0 {
      WhereNone(s[1..], p);
    }
  }

  /** Every earlier row stands in relation `rel` to every later one. */
  predicate Pairwise<T>(s: seq<T>, rel: (T, T) -> bool) {
    forall i, j | 0 <= i < j < |s| :: rel(s[i], s[j])
  }

  lemma TailPairwise<T>(s: seq<T>, rel: (T, T) -> bool)
    requires |s| > 0 && Pairwise(s, rel)
    ensures Pairwise(s[1..], rel)
    ensures forall k | 0 <= k < |s| - 1 :: rel(s[0], s[1..][k])
  {
    forall i, j | 0 <= i < j < |s[1..]|
      ensures rel(s[1..][i], s[1..][j])
    {
      assert s[1..][i] == s[i + 1] && s[1..][j] == s[j + 1];
    }
    forall k | 0 <= k < |s| - 1
      ensures rel(s[0], s[1..][k])
    {
      assert s[1..][k] == s[k + 1];
    }
  }

  lemma ConsPairwise<T>(x: T, rest: seq<T>, rel: (T, T) -> bool)
    requires Pairwise(rest, rel)
    requires forall k | 0 <= k < |rest| :: rel(x, rest[k])
    ensures Pairwise([x] + rest, rel)
  {
    var r := [x] + rest;
    forall i, j | 0 <= i < j < |r|
      ensures rel(r[i], r[j])
    {
      assert r[j] == rest[j - 1];
      if i > 0 {
        assert r[i] == rest[i - 1];
      }
    }
  }

  /** WHERE keeps the rows in order, so a pairwise property survives it. */
  lemma {:induction false} WherePairwise<T(!new)>(s: seq<T>, p: T -> bool, rel: (T, T) -> bool)
    requires Pairwise(s, rel)
    ensures Pairwise(Where(s, p), rel)
  {
    if |s| > 0 {
      TailPairwise(s, rel);
      WherePairwise(s[1..], p, rel);
      var rest := Where(s[1..], p);
      if p(s[0]) {
        forall k | 0 <= k < |rest|
          ensures rel(s[0], rest[k])
        {
          WhereMember(s[1..], p, k);
          var m :| 0 <= m < |s[1..]| && s[1..][m] == rest[k];
          assert rel(s[0], s[1..][m]);
        }
        ConsPairwise(s[0], rest, rel);
        assert Where(s, p) == [s[0]] + rest;
      } else {
        assert Where(s, p) == rest;
      }
    }
  }

  /** Each row of a WHERE result sits at some index of the input. */
  lemma WhereMember<T(!new)>(s: seq<T>, p: T -> bool, k: int)
    requires 0 <= k < |Where(s, p)|
    ensures exists m | 0 <= m < |s| :: s[m] == Where(s, p)[k]
  {
    assert Where(s, p)[k] in s;
  }

  lemma WhereAll<T(!new)>(s: seq<T>, p: T -> bool)
    requires forall i | 0 <= i < |s| :: p(s[i])
    ensures Where(s, p) == s
  {
    if |s| > 0 {
      WhereAll(s[1..], p);
      assert s == [s[0]] + s[1..];
    }
  }

  function Insert<T>(x: T, s: seq<T>, le: (T, T) -> bool): (r: seq<T>)
    ensures multiset(r) == multiset(s) + multiset{x}
    ensures |r| == |s| + 1
  {
    if |s| == 0 then [x]
    else if le(x, s[0]) then [x] + s
    else
      assert s == [s[0]] + s[1..];
      [s[0]] + Insert(x, s[1..], le)
  }

  /** ORDER BY: a reordering of the rows. */
  function Sort<T>(s: seq<T>, le: (T, T) -> bool): (r: seq<T>)
    ensures multiset(r) == multiset(s)
    ensures |r| == |s|
  {
    if |s| == 0 then []
    else
      assert s == [s[0]] + s[1..];
      Insert(s[0], Sort(s[1..], le), le)
  }

  lemma {:induction false} InsertSorted<T(!new)>(x: T, s: seq<T>, le: (T, T) -> bool)
    requires TotalPreorder(le) && Sorted(s, le)
    ensures Sorted(Insert(x, s, le), le)
  {
    if |s| > 0 && !le(x, s[0]) {
      var rest := Insert(x, s[1..], le);
      InsertSorted(x, s[1..], le);
      assert le(s[0], x);
      forall k | 0 <= k < |rest|
        ensures le(s[0], rest[k])
      {
        assert rest[k] in multiset(rest);
        if rest[k] != x {
          assert rest[k] in multiset(s[1..]);
          var m :| 0 <= m < |s[1..]| && s[1..][m] == rest[k];
          assert s[m + 1] == rest[k];
        }
      }
      var r := [s[0]] + rest;
      assert r == Insert(x, s, le);
      forall i, j | 0 <= i < j < |r|
        ensures le(r[i], r[j])
      {
        if i == 0 {
          assert r[j] == rest[j - 1];
        } else {
          assert r[i] == rest[i - 1] && r[j] == rest[j - 1];
        }
      }
    } else if |s| > 0 {
      var r := [x] + s;
      forall i, j | 0 <= i < j < |r|
        ensures le(r[i], r[j])
      {
        if i == 0 {
          assert r[j] == s[j - 1];
          if j > 1 {
            assert le(s[0], s[j - 1]);
          }
        } else {
          assert r[i] == s[i - 1] && r[j] == s[j - 1];
        }
      }
    }
  }

  /** The sort a total preorder drives puts the rows in order. */
  lemma {:induction false} SortSorted<T(!new)>(s: seq<T>, le: (T, T) -> bool)
    requires TotalPreorder(le)
    ensures Sorted(Sort(s, le), le)
  {
    if |s| > 0 {
      SortSorted(s[1..], le);
      InsertSorted(s[0], Sort(s[1..], le), le);
    }
  }

  /** SUM over the rows. */
  function SumBy<T>(s: seq<T>, f: T -> int): int {
    if |s| == 0 then 0 else f(s[0]) + SumBy(s[1..], f)
  }

  lemma {:induction false} SumByAppend<T>(a: seq<T>, b: seq<T>, f: T -> int)
    ensures SumBy(a + b, f) == SumBy(a, f) + SumBy(b, f)
  {
    if |a| == 0 {
      assert a + b == b;
    } else {
      assert (a + b)[1..] == a[1..] + b;
      SumByAppend(a[1..], b, f);
    }
  }

  lemma SumByRemove<T>(b: seq<T>, k: int, f: T -> int)
    requires 0 <= k < |b|
    ensures SumBy(b, f) == f(b[k]) + SumBy(b[..k] + b[k + 1..], f)
  {
    assert b == b[..k] + ([b[k]] + b[k + 1..]);
    SumByAppend(b[..k], [b[k]] + b[k + 1..], f);
    SumByAppend([b[k]], b[k + 1..], f);
    SumByAppend(b[..k], b[k + 1..], f);
  }

  lemma MultisetRemove<T>(b: seq<T>, k: int)
    requires 0 <= k < |b|
    ensures multiset(b[..k] + b[k + 1..]) == multiset(b) - multiset{b[k]}
  {
    assert b == b[..k] + [b[k]] + b[k + 1..];
  }

  /** SUM does not depend on the order of the rows. */
  lemma {:induction false} SumByPermutation<T>(a: seq<T>, b: seq<T>, f: T -> int)
    requires multiset(a) == multiset(b)
    ensures SumBy(a, f) == SumBy(b, f)
    decreases |a|
  {
    if |a| > 0 {
      assert a[0] in multiset(b);
      var k :| 0 <= k < |b| && b[k] == a[0];
      MultisetRemove(b, k);
      MultisetRemove(a, 0);
      assert a[..0] + a[1..] == a[1..];
      SumByPermutation(a[1..], b[..k] + b[k + 1..], f);
      SumByRemove(b, k, f);
    }
  }

  /** The negated condition. */
  function Not<T>(p: T -> bool): T -> bool {
    x => !p(x)
  }

  /** Splitting the rows by a condition splits their sum. */
  lemma {:induction false} SumBySplit<T(!new)>(s: seq<T>, p: T -> bool, f: T -> int)
    ensures SumBy(s, f) == SumBy(Where(s, p), f) + SumBy(Where(s, Not(p)), f)
  {
    if |s| > 0 {
      SumBySplit(s[1..], p, f);
      var a := Where(s[1..], p);
      var b := Where(s[1..], Not(p));
      if p(s[0]) {
        assert Where(s, p) == [s[0]] + a;
        assert Where(s, Not(p)) == b;
        assert ([s[0]] + a)[1..] == a;
      } else {
        assert Where(s, p) == a;
        assert Where(s, Not(p)) == [s[0]] + b;
        assert ([s[0]] + b)[1..] == b;
      }
    }
  }

  /** COUNT(*): the sum of one per row. */
  function Count<T>(s: seq<T>): int {
    if |s| == 0 then 0 else 1 + Count(s[1..])
  }

  /** Counting is summing ones. */
  lemma {:induction false} SumByOnes<T>(s: seq<T>)
    ensures SumBy(s, _ => 1) == Count(s) == |s|
  {
    if |s| > 0 {
      SumByOnes(s[1..]);
    }
  }

  /** The condition `key = k` of a WHERE or GROUP BY. */
  function KeyIs<T>(key: T -> int, k: int): T -> bool {
    x => key(x) == k
  }

  /** Two conditions that agree on every row select the same rows. */
  lemma {:induction false} WhereAgree<T(!new)>(s: seq<T>, p: T -> bool, q: T -> bool)
    requires forall i | 0 <= i < |s| :: p(s[i]) == q(s[i])
    ensures Where(s, p) == Where(s, q)
  {
    if |s| > 0 {
      WhereAgree(s[1..], p, q);
    }
  }

  /** The sum of `f` over each group of rows sharing a key, for each key in turn. */
  function SumGroups<T(!new)>(keys: seq<int>, rows: seq<T>, key: T -> int, f: T -> int): int {
    if |keys| == 0 then 0
    else SumBy(Where(rows, KeyIs(key, keys[0])), f) + SumGroups(keys[1..], rows, key, f)
  }

  predicate NoDuplicates<K(==)>(s: seq<K>) {
    forall i, j | 0 <= i < j < |s| :: s[i] != s[j]
  }

  lemma {:induction false} SumGroupsEmpty<T(!new)>(keys: seq<int>, key: T -> int, f: T -> int)
    ensures SumGroups(keys, [], key, f) == 0
  {
    if |keys| > 0 {
      SumGroupsEmpty(keys[1..], key, f);
    }
  }

  lemma WhereConsSum<T(!new)>(x: T, rows: seq<T>, p: T -> bool, f: T -> int)
    ensures SumBy(Where([x] + rows, p), f) == (if p(x) then f(x) else 0) + SumBy(Where(rows, p), f)
  {
    var s := [x] + rows;
    assert s[0] == x && s[1..] == rows;
    var head := if p(x) then [x] else [];
    assert Where(s, p) == head + Where(rows, p);
    SumByAppend(head, Where(rows, p), f);
  }

  lemma NoDuplicatesTail<K>(keys: seq<K>)
    requires |keys| > 0 && NoDuplicates(keys)
    ensures NoDuplicates(keys[1..]) && keys[0] !in keys[1..]
    ensures forall k :: k in keys <==> k == keys[0] || k in keys[1..]
  {
    forall i, j | 0 <= i < j < |keys[1..]|
      ensures keys[1..][i] != keys[1..][j]
    {
      assert keys[1..][i] == keys[i + 1] && keys[1..][j] == keys[j + 1];
    }
    assert keys == [keys[0]] + keys[1..];
  }

  /** Adding one row adds its value to the one group whose key it carries. */
  lemma {:induction false} SumGroupsCons<T(!new)>(keys: seq<int>, x: T, rows: seq<T>, key: T -> int, f: T -> int)
    requires NoDuplicates(keys)
    ensures SumGroups(keys, [x] + rows, key, f) == SumGroups(keys, rows, key, f) + (if key(x) in keys then f(x) else 0)
  {
    if |keys| > 0 {
      NoDuplicatesTail(keys);
      SumGroupsCons(keys[1..], x, rows, key, f);
      WhereConsSum(x, rows, KeyIs(key, keys[0]), f);
    }
  }

  /** Summing per group over distinct keys that cover every row gives the total:
      GROUP BY loses and duplicates nothing. */
  lemma {:induction false} SumGroupsPartition<T(!new)>(keys: seq<int>, rows: seq<T>, key: T -> int, f: T -> int)
    requires NoDuplicates(keys)
    requires forall i | 0 <= i < |rows| :: key(rows[i]) in keys
    ensures SumGroups(keys, rows, key, f) == SumBy(rows, f)
  {
    if |rows| == 0 {
      SumGroupsEmpty(keys, key, f);
    } else {
      assert rows == [rows[0]] + rows[1..];
      SumGroupsPartition(keys, rows[1..], key, f);
      SumGroupsCons(keys, rows[0], rows[1..], key, f);
    }
  }

  /** Distinct values in order of first appearance (GROUP BY keys). */
  function Distinct<K(==,!new)>(s: seq<K>): (r: seq<K>)
    ensures forall x :: x in r <==> x in s
    ensures forall i, j | 0 <= i < j < |r| :: r[i] != r[j]
  {
    if |s| == 0 then []
    else
      var d := Distinct(s[..|s| - 1]);
      assert s == s[..|s| - 1] + [s[|s| - 1]];
      if s[|s| - 1] in d then d else d + [s[|s| - 1]]
  }

  /** The first row of a result, as `rows[0] || null`. */
  function First<T>(s: seq<T>): (r: Option<T>)
    ensures r.Some? <==> |s| > 0
    ensures r.Some? ==> r.value == s[0]
  {
    if |s| == 0 then None else Some(s[0])
  }
}
