/** A SQLite table with an `INTEGER PRIMARY KEY AUTOINCREMENT` id: its rows in
    storage order, and the largest id ever handed out (the `sqlite_sequence` entry),
    so that a new row gets `lastId + 1` and ids of deleted rows are never reused. */
module Tables {
  import opened Wrappers
  import opened Relational

  datatype Table<T> = Table(rows: seq<T>, lastId: nat)

  /** An index created by `CREATE INDEX IF NOT EXISTS <name> ON <table>(…)`. */
  datatype IndexDef = IndexDef(name: string, table: string)

  /** No two rows share a primary key. */
  predicate UniqueKeys<T>(rows: seq<T>, key: T -> int) {
    forall i, j | 0 <= i < j < |rows| :: key(rows[i]) != key(rows[j])
  }

  /** The primary-key invariant of an AUTOINCREMENT table: ids are unique and lie
      in 1..lastId. */
  predicate Keyed<T>(t: Table<T>, key: T -> int) {
    && UniqueKeys(t.rows, key)
    && (forall i | 0 <= i < |t.rows| :: 1 <= key(t.rows[i]) <= t.lastId)
  }

  function Empty<T>(): (r: Table<T>)
    ensures r.rows == []
  {
    Table([], 0)
  }

  /** An INSERT: the row goes to the end and the sequence advances. */
  function Append<T>(t: Table<T>, row: T): Table<T> {
    Table(t.rows + [row], t.lastId + 1)
  }

  /** A row stored under the next id keeps the primary-key invariant. */
  lemma AppendKeyed<T>(t: Table<T>, row: T, key: T -> int)
    requires Keyed(t, key) && key(row) == t.lastId + 1
    ensures Keyed(Append(t, row), key)
  {
    var r := Append(t, row).rows;
    forall i, j | 0 <= i < j < |r|
      ensures key(r[i]) != key(r[j])
    {
      if j == |r| - 1 {
        assert 1 <= key(r[i]) <= t.lastId;
      }
    }
  }

  /** `DELETE … WHERE id = ?`: the rows with another key, in order. */
  function RemoveKey<T(!new)>(t: Table<T>, key: T -> int, id: int): (r: Table<T>)
    ensures r.lastId == t.lastId
    ensures forall x :: multiset(r.rows)[x] == if key(x) != id then multiset(t.rows)[x] else 0
  {
    Table(Where(t.rows, Not(KeyIs(key, id))), t.lastId)
  }

  lemma TailUniqueKeys<T>(s: seq<T>, key: T -> int)
    requires |s| > 0 && UniqueKeys(s, key)
    ensures UniqueKeys(s[1..], key)
  {
    forall i, j | 0 <= i < j < |s[1..]|
      ensures key(s[1..][i]) != key(s[1..][j])
    {
      assert s[1..][i] == s[i + 1] && s[1..][j] == s[j + 1];
    }
  }

  /** Putting a row in front of rows with other keys keeps keys unique. */
  lemma ConsUniqueKeys<T>(x: T, rest: seq<T>, key: T -> int)
    requires UniqueKeys(rest, key)
    requires forall k | 0 <= k < |rest| :: key(rest[k]) != key(x)
    ensures UniqueKeys([x] + rest, key)
  {
    var r := [x] + rest;
    forall i, j | 0 <= i < j < |r|
      ensures key(r[i]) != key(r[j])
    {
      assert r[j] == rest[j - 1];
      if i > 0 {
        assert r[i] == rest[i - 1];
      }
    }
  }

  lemma {:induction false} WhereUniqueKeys<T(!new)>(s: seq<T>, p: T -> bool, key: T -> int)
    requires UniqueKeys(s, key)
    ensures UniqueKeys(Where(s, p), key)
    ensures forall k | 0 <= k < |Where(s, p)| :: exists m | 0 <= m < |s| :: s[m] == Where(s, p)[k]
  {
    if |s| > 0 {
      TailUniqueKeys(s, key);
      WhereUniqueKeys(s[1..], p, key);
      var rest := Where(s[1..], p);
      if p(s[0]) {
        forall k | 0 <= k < |rest|
          ensures key(rest[k]) != key(s[0])
        {
          var m :| 0 <= m < |s[1..]| && s[1..][m] == rest[k];
          assert s[m + 1] == rest[k];
        }
        ConsUniqueKeys(s[0], rest, key);
        assert Where(s, p) == [s[0]] + rest;
      } else {
        assert Where(s, p) == rest;
      }
    }
    forall k | 0 <= k < |Where(s, p)|
      ensures exists m | 0 <= m < |s| :: s[m] == Where(s, p)[k]
    {
      assert Where(s, p)[k] in s;
    }
  }


  /** Deleting rows keeps the primary-key invariant. */
  lemma RemoveKeyKeyed<T(!new)>(t: Table<T>, key: T -> int, id: int)
    requires Keyed(t, key)
    ensures Keyed(RemoveKey(t, key, id), key)
  {
    WhereUniqueKeys(t.rows, Not(KeyIs(key, id)), key);
    var r := RemoveKey(t, key, id);
    forall i | 0 <= i < |r.rows|
      ensures 1 <= key(r.rows[i]) <= t.lastId
    {
      assert r.rows[i] in multiset(r.rows);
      var m :| 0 <= m < |t.rows| && t.rows[m] == r.rows[i];
    }
  }

  /** `SELECT * … WHERE id = ?`: the rows carrying the key. */
  function Lookup<T(!new)>(rows: seq<T>, key: T -> int, id: int): (r: seq<T>)
    ensures forall x :: multiset(r)[x] == if key(x) == id then multiset(rows)[x] else 0
    ensures forall i | 0 <= i < |r| :: key(r[i]) == id
  {
    Where(rows, x => key(x) == id)
  }

  /** Reordering rows keeps their keys unique: a key shared by two positions of
      the reordered rows would need the row to occur twice in the original. */
  lemma PermutationUniqueKeys<T>(a: seq<T>, b: seq<T>, key: T -> int)
    requires multiset(a) == multiset(b)
    requires UniqueKeys(a, key)
    ensures UniqueKeys(b, key)
  {
    forall i, j | 0 <= i < j < |b|
      ensures key(b[i]) != key(b[j])
    {
      if key(b[i]) == key(b[j]) {
        assert b[i] in multiset(a) && b[j] in multiset(a);
        var p :| 0 <= p < |a| && a[p] == b[i];
        var q :| 0 <= q < |a| && a[q] == b[j];
        assert p == q;
        OccursTwice(b, i, j);
        OccursOnce(a, p, key);
        assert false;
      }
    }
  }

  lemma OccursTwice<T>(s: seq<T>, i: int, j: int)
    requires 0 <= i < j < |s| && s[i] == s[j]
    ensures multiset(s)[s[i]] >= 2
  {
    assert s == s[..i] + [s[i]] + s[i + 1..j] + [s[j]] + s[j + 1..];
  }

  lemma OccursOnce<T>(s: seq<T>, p: int, key: T -> int)
    requires 0 <= p < |s| && UniqueKeys(s, key)
    ensures multiset(s)[s[p]] == 1
  {
    assert s == s[..p] + [s[p]] + s[p + 1..];
    assert s[p] !in s[..p] by {
      forall k | 0 <= k < p
        ensures s[..p][k] != s[p]
      {
        assert key(s[k]) != key(s[p]);
      }
    }
    var tail := s[p + 1..];
    assert s[p] !in tail by {
      forall k | 0 <= k < |tail|
        ensures tail[k] != s[p]
      {
        assert tail[k] == s[p + 1 + k];
      }
    }
  }

  /** Under unique keys a lookup by primary key finds the one row carrying it, or nothing. */
  lemma {:induction false} LookupUnique<T(!new)>(rows: seq<T>, key: T -> int, id: int)
    requires UniqueKeys(rows, key)
    ensures |Lookup(rows, key, id)| <= 1
    ensures forall i | 0 <= i < |rows| && key(rows[i]) == id :: Lookup(rows, key, id) == [rows[i]]
    ensures (forall i | 0 <= i < |rows| :: key(rows[i]) != id) ==> Lookup(rows, key, id) == []
  {
    if |rows| > 0 {
      LookupUnique(rows[1..], key, id);
      var rest := Lookup(rows[1..], key, id);
      assert Lookup(rows, key, id) == (if key(rows[0]) == id then [rows[0]] else []) + rest;
      if key(rows[0]) == id {
        forall i | 0 <= i < |rows[1..]|
          ensures key(rows[1..][i]) != id
        {
          assert rows[1..][i] == rows[i + 1];
        }
        assert rest == [];
      }
      forall i | 0 <= i < |rows| && key(rows[i]) == id
        ensures Lookup(rows, key, id) == [rows[i]]
      {
        if i > 0 {
          assert rows[1..][i - 1] == rows[i];
        }
      }
    }
  }

  /** `UPDATE … WHERE id = ?`: every row carrying the key is rewritten by `f`. */
  function Modify<T>(rows: seq<T>, key: T -> int, id: int, f: T -> T): (r: seq<T>)
    ensures |r| == |rows|
    ensures forall i | 0 <= i < |rows| :: r[i] == if key(rows[i]) == id then f(rows[i]) else rows[i]
  {
    seq(|rows|, i requires 0 <= i < |rows| => if key(rows[i]) == id then f(rows[i]) else rows[i])
  }

  /** `f` applied to every row with key `id`, other rows kept; the first error
      `f` raises on a matched row, if any, instead. */
  function TryModify<T>(rows: seq<T>, key: T -> int, id: int, f: T -> Result<T>): (r: Result<seq<T>>)
    ensures r.Ok? <==> forall i | 0 <= i < |rows| && key(rows[i]) == id :: f(rows[i]).Ok?
    ensures r.Ok? ==> |r.value| == |rows|
    ensures r.Ok? ==> forall i | 0 <= i < |rows| :: if key(rows[i]) == id then f(rows[i]) == Ok(r.value[i]) else r.value[i] == rows[i]
    ensures r.Err? ==> exists i | 0 <= i < |rows| && key(rows[i]) == id :: f(rows[i]) == Err(r.error)
  {
    if |rows| == 0 then Ok([])
    else
      var head: Result<T> := if key(rows[0]) != id then Ok(rows[0]) else f(rows[0]);
      if head.Err? then Err(head.error)
      else
        var tail := rows[1..];
        assert forall i | 0 < i < |rows| :: rows[i] == tail[i - 1];
        match TryModify(tail, key, id, f)
        case Err(e) => Err(e)
        case Ok(rest) => Ok([head.value] + rest)
  }

  predicate HasKey<T>(rows: seq<T>, key: T -> int, id: int) {
    exists i | 0 <= i < |rows| :: key(rows[i]) == id
  }
}
