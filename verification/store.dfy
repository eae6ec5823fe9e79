/** The state of one SQLite database as the data-access layer sees it, and of the
    connection holding it: the four application tables, the catalog, the named
    indexes, the `database_info` version row, the snapshot an open transaction
    rolls back to, and `last_insert_rowid()`. */
module Store {
  import opened Wrappers
  import opened Values
  import opened Tables
  import CategorySchema
  import BudgetSchema
  import TransactionSchema
  import BankBalanceSchema

  /** The database contents. `tables` is what `sqlite_master` lists with
      `type='table'`; a table's rows are meaningful only while it is listed.
      `version` is the `value` of the `key='version'` row of `database_info`. */
  datatype Data = Data(
    categories: Table<CategorySchema.Category>,
    budgets: Table<BudgetSchema.Budget>,
    transactions: Table<TransactionSchema.Transaction>,
    balances: Table<BankBalanceSchema.BankBalance>,
    tables: set<string>,
    indexes: set<string>,
    version: Option<string>)

  /** A database sql.js has just created: no tables at all. */
  const EmptyData: Data := Data(Empty(), Empty(), Empty(), Empty(), {}, {}, None)

  /** Every table keeps its constraints. */
  predicate Valid(d: Data) {
    && CategorySchema.Valid(d.categories)
    && BudgetSchema.Valid(d.budgets)
    && TransactionSchema.Valid(d.transactions)
    && BankBalanceSchema.Valid(d.balances)
  }

  function NoSuchTable(name: string): Error {
    Sql("no such table: " + name)
  }

  /** `CREATE TABLE IF NOT EXISTS <name> (…)`: lists the table; an existing table
      and its rows are left alone. */
  function CreateTable(d: Data, name: string): (r: Data)
    ensures r.tables == d.tables + {name}
    ensures r.categories == d.categories && r.budgets == d.budgets
    ensures r.transactions == d.transactions && r.balances == d.balances
    ensures r.indexes == d.indexes && r.version == d.version
  {
    d.(tables := d.tables + {name})
  }

  /** `CREATE INDEX IF NOT EXISTS <name> ON <table>(…)`: fails when the table is
      missing; otherwise records the index, once. */
  function CreateIndex(d: Data, index: IndexDef): (r: Result<Data>)
    ensures r.Ok? <==> index.table in d.tables
    ensures r.Ok? ==> r.value == d.(indexes := d.indexes + {index.name})
  {
    if index.table !in d.tables then Err(Sql("no such table: main." + index.table))
    else Ok(d.(indexes := d.indexes + {index.name}))
  }

  /** The names a list of index definitions declares. */
  function IndexNames(idx: seq<IndexDef>): set<string> {
    set i | 0 <= i < |idx| :: idx[i].name
  }

  /** The first index whose table is missing, if any. */
  function FirstMissing(tables: set<string>, idx: seq<IndexDef>): (r: Option<IndexDef>)
    ensures r.None? <==> forall i | 0 <= i < |idx| :: idx[i].table in tables
    ensures r.Some? ==> r.value.table !in tables
  {
    if |idx| == 0 then None
    else if idx[0].table !in tables then Some(idx[0])
    else FirstMissing(tables, idx[1..])
  }

  /** Runs `CREATE INDEX IF NOT EXISTS` for each definition in turn and stops at
      the first failure; the indexes created before it stay. Rows, tables and the
      connection's other state are never touched. */
  function CreateIndexes(s: Session, idx: seq<IndexDef>): (r: Step<()>)
    ensures r.result.Ok? <==> forall i | 0 <= i < |idx| :: idx[i].table in s.data.tables
    ensures r.result.Ok? ==> r.session == s.(data := s.data.(indexes := s.data.indexes + IndexNames(idx)))
    ensures r.result.Err? ==> r.result.error == Sql("no such table: main." + FirstMissing(s.data.tables, idx).value.table)
    ensures r.session.data == s.data.(indexes := r.session.data.indexes)
    ensures r.session.saved == s.saved && r.session.lastRowId == s.lastRowId
    ensures s.data.indexes <= r.session.data.indexes <= s.data.indexes + IndexNames(idx)
    decreases |idx|
  {
    if |idx| == 0 then Step(s, Ok(()))
    else
      match CreateIndex(s.data, idx[0])
      case Err(e) => Step(s, Err(e))
      case Ok(d) =>
        var r := CreateIndexes(s.(data := d), idx[1..]);
        assert IndexNames(idx) == {idx[0].name} + IndexNames(idx[1..]) by {
          forall n | n in IndexNames(idx) ensures n in {idx[0].name} + IndexNames(idx[1..]) {
            var i :| 0 <= i < |idx| && idx[i].name == n;
            if i > 0 { assert idx[1..][i - 1].name == n; }
          }
        }
        r
  }

  /** One result set of sql.js `exec`: column names and rows of values. */
  datatype ResultSet = ResultSet(columns: seq<string>, values: seq<seq<Value>>)

  /** What sql.js `exec` returns for one SELECT: a single result set when the
      statement produced rows, and an empty array when it produced none. */
  function ExecResult(columns: seq<string>, rows: seq<seq<Value>>): (r: seq<ResultSet>)
    ensures |r| <= 1
    ensures |r| == 1 <==> |rows| > 0
    ensures |r| == 1 ==> r[0] == ResultSet(columns, rows)
  {
    if |rows| == 0 then [] else [ResultSet(columns, rows)]
  }

  /** What a successful write statement leaves behind: the new contents and, for
      an INSERT, the rowid of the new row. */
  datatype Effect = Effect(data: Data, rowid: Option<int>)

  /** An open connection. `saved` holds the contents as of `BEGIN` while a
      transaction is open; `lastRowId` is what `last_insert_rowid()` answers (0
      before the first insert on the connection). */
  datatype Session = Session(data: Data, saved: Option<Data>, lastRowId: int)

  const Fresh: Session := Session(EmptyData, None, 0)

  /** A step of work on an open connection: the connection afterwards and what
      the step returned or threw. */
  datatype Step<T> = Step(session: Session, result: Result<T>)

  const NestedBegin: string := "cannot start a transaction within a transaction"
  const NoCommit: string := "cannot commit - no transaction is active"
  const NoRollback: string := "cannot rollback - no transaction is active"

  /** `BEGIN TRANSACTION`: snapshots the contents; SQLite refuses to nest. */
  function Begin(s: Session): (r: Result<Session>)
    ensures r.Ok? <==> s.saved.None?
    ensures r.Ok? ==> r.value == s.(saved := Some(s.data))
    ensures r.Err? ==> r.error == Sql(NestedBegin)
  {
    if s.saved.Some? then Err(Sql(NestedBegin)) else Ok(s.(saved := Some(s.data)))
  }

  /** `COMMIT`: keeps the contents and drops the snapshot. */
  function Commit(s: Session): (r: Result<Session>)
    ensures r.Ok? <==> s.saved.Some?
    ensures r.Ok? ==> r.value.data == s.data && r.value.saved.None? && r.value.lastRowId == s.lastRowId
    ensures r.Err? ==> r.error == Sql(NoCommit)
  {
    if s.saved.None? then Err(Sql(NoCommit)) else Ok(s.(saved := None))
  }

  /** `ROLLBACK`: restores the snapshot. `last_insert_rowid()` is not rolled back. */
  function Rollback(s: Session): (r: Result<Session>)
    ensures r.Ok? <==> s.saved.Some?
    ensures r.Ok? ==> r.value.data == s.saved.value && r.value.saved.None? && r.value.lastRowId == s.lastRowId
    ensures r.Err? ==> r.error == Sql(NoRollback)
  {
    if s.saved.None? then Err(Sql(NoRollback)) else Ok(Session(s.saved.value, None, s.lastRowId))
  }

  /** Work done inside a transaction and committed is kept; rolled back, it is gone. */
  lemma CommitKeepsRollbackDiscards(s: Session, work: Data)
    requires s.saved.None?
    ensures Commit(Begin(s).value.(data := work)).value.data == work
    ensures Rollback(Begin(s).value.(data := work)).value.data == s.data
  {
  }
}
