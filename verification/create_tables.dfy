/** The initialization orchestrator: the four repositories in their fixed order,
    table creation with optional seeding, index creation, the guarded seeding
    step, and the full initialization run as the application's setup. */
module CreateTables {
  import opened Wrappers
  import opened Values
  import opened Tables
  import opened Store
  import Schemas
  import CheckTables
  import CategorySchema
  import BankBalanceSchema
  import CategoryRepository
  import BudgetRepository
  import BankBalanceRepository
  import TransactionRepository

  datatype Repository = CategoryRepo | BudgetRepo | BankBalanceRepo | TransactionRepo

  /** `repositories`: tables without foreign keys come first. */
  const Repositories: seq<Repository> := [CategoryRepo, BudgetRepo, BankBalanceRepo, TransactionRepo]

  function TableOf(repo: Repository): string {
    match repo
    case CategoryRepo => CategorySchema.TableName
    case BudgetRepo => BudgetRepository.BudgetSchema.TableName
    case BankBalanceRepo => BankBalanceSchema.TableName
    case TransactionRepo => TransactionRepository.TransactionSchema.TableName
  }

  /** The repositories are visited in the order of the `SCHEMAS` registry. */
  lemma RepositoriesFollowSchemas()
    ensures |Repositories| == |Schemas.TableNames|
    ensures forall i | 0 <= i < |Repositories| :: TableOf(Repositories[i]) == Schemas.TableNames[i]
  {
  }

  /** The tables the registry lists, as a set. */
  const SchemaTables: set<string> := set n | n in Schemas.TableNames

  /** The tables a list of repositories owns. */
  function TablesOf(repos: seq<Repository>): set<string> {
    set i | 0 <= i < |repos| :: TableOf(repos[i])
  }

  /** The index definitions one repository creates. */
  function OwnIndexes(repo: Repository): seq<IndexDef> {
    match repo
    case CategoryRepo => CategorySchema.Indexes
    case BudgetRepo => BudgetRepository.BudgetSchema.Indexes
    case BankBalanceRepo => BankBalanceSchema.Indexes
    case TransactionRepo => TransactionRepository.TransactionSchema.Indexes
  }

  /** The index definitions a list of repositories creates, in visiting order. */
  function IndexesOf(repos: seq<Repository>): seq<IndexDef> {
    if |repos| == 0 then [] else OwnIndexes(repos[0]) + IndexesOf(repos[1..])
  }

  // ---------------------------------------------------------------------------
  // One repository's part

  function CreateTableOf(repo: Repository, s: Session): Step<()> {
    match repo
    case CategoryRepo => CategoryRepository.CreateTable(s)
    case BudgetRepo => BudgetRepository.CreateTable(s)
    case BankBalanceRepo => BankBalanceRepository.CreateTable(s)
    case TransactionRepo => TransactionRepository.CreateTable(s)
  }

  /** The repository's `insertSampleData`. Only its own table changes; it fails
      when that table is missing, and otherwise only the bank balances can fail. */
  function SeedOf(repo: Repository, s: Session, clock: Clock): (r: Step<()>)
    ensures TableOf(repo) !in s.data.tables ==> r == Step(s, Err(NoSuchTable(TableOf(repo))))
    ensures TableOf(repo) in s.data.tables && repo != BankBalanceRepo ==> r.result.Ok?
    ensures r.session.data.tables == s.data.tables && r.session.data.indexes == s.data.indexes
    ensures r.session.data.version == s.data.version
    ensures repo != CategoryRepo ==> r.session.data.categories == s.data.categories
    ensures repo != BudgetRepo ==> r.session.data.budgets == s.data.budgets
    ensures repo != BankBalanceRepo ==> r.session.data.balances == s.data.balances
    ensures repo != TransactionRepo ==> r.session.data.transactions == s.data.transactions
    ensures repo == CategoryRepo && r.result.Ok? ==> |r.session.data.categories.rows| == |s.data.categories.rows| + 6
    ensures repo == BudgetRepo && r.result.Ok? ==> |r.session.data.budgets.rows| == |s.data.budgets.rows| + 2
    ensures repo == TransactionRepo && r.result.Ok? ==> |r.session.data.transactions.rows| == |s.data.transactions.rows| + 2
    ensures repo == BankBalanceRepo && r.result.Ok? ==>
      && |r.session.data.balances.rows| == |s.data.balances.rows| + 2
      && !SampleMonthsFree(r.session.data)
      && BankBalanceRepository.SampleMonthTaken(r.session.data.balances.rows, 7)
    ensures repo == BankBalanceRepo && TableOf(repo) in s.data.tables && SampleMonthsFree(s.data) ==> r.result.Ok?
    ensures repo == BankBalanceRepo && TableOf(repo) in s.data.tables
            && BankBalanceRepository.SampleMonthTaken(s.data.balances.rows, 7) ==>
      r == Step(s, Err(Sql(BankBalanceSchema.UniqueFailed)))
    ensures Store.Valid(s.data) ==> Store.Valid(r.session.data)
  {
    match repo
    case CategoryRepo => CategoryRepository.InsertSampleData(s, clock)
    case BudgetRepo => BudgetRepository.InsertSampleData(s, clock)
    case BankBalanceRepo => BankBalanceRepository.InsertSampleData(s, clock)
    case TransactionRepo => TransactionRepository.InsertSampleData(s, clock)
  }

  /** The repository's `createIndexes`: it needs the repository's table. */
  function CreateIndexesOf(repo: Repository, s: Session): (r: Step<()>)
    ensures r.result.Ok? <==> TableOf(repo) in s.data.tables
    ensures r.result.Ok? ==> r.session.data.indexes == s.data.indexes + IndexNames(OwnIndexes(repo))
    ensures r.session == s.(data := s.data.(indexes := r.session.data.indexes))
  {
    match repo
    case CategoryRepo => CategoryRepository.CreateIndexes(s)
    case BudgetRepo => BudgetRepository.CreateIndexes(s)
    case BankBalanceRepo => BankBalanceRepository.CreateIndexes(s)
    case TransactionRepo => TransactionRepository.CreateIndexes(s)
  }

  /** One turn of the `createTables` loop: the table, then (when seeding) its sample rows. */
  function Visit(repo: Repository, s: Session, seed: bool, clock: Clock): Step<()> {
    var created := CreateTableOf(repo, s);
    if seed then SeedOf(repo, created.session, clock) else created
  }

  // ---------------------------------------------------------------------------
  // createTables, insertSampleData, createIndex

  /** The `createTables` loop from the given repositories on; the first failure
      stops it. Without seeding it only lists the tables. */
  function CreateTablesFrom(s: Session, repos: seq<Repository>, seed: bool, clock: Clock): (r: Step<()>)
    ensures r.session.data.indexes == s.data.indexes && r.session.data.version == s.data.version
    ensures r.result.Ok? ==> r.session.data.tables == s.data.tables + TablesOf(repos)
    ensures !seed ==> r == Step(s.(data := s.data.(tables := s.data.tables + TablesOf(repos))), Ok(()))
    ensures Store.Valid(s.data) ==> Store.Valid(r.session.data)
    decreases |repos|
  {
    if |repos| == 0 then Step(s, Ok(()))
    else
      var v := Visit(repos[0], s, seed, clock);
      if v.result.Err? then v
      else
        assert TablesOf(repos) == {TableOf(repos[0])} + TablesOf(repos[1..]) by {
          forall n | n in TablesOf(repos) ensures n in {TableOf(repos[0])} + TablesOf(repos[1..]) {
            var i :| 0 <= i < |repos| && TableOf(repos[i]) == n;
            if i > 0 { assert TableOf(repos[1..][i - 1]) == n; }
          }
        }
        CreateTablesFrom(v.session, repos[1..], seed, clock)
  }

  /** `createTables(db, insertSampleData)`. */
  function CreateTables(s: Session, seed: bool, clock: Clock): (r: Step<()>)
    ensures r.result.Ok? ==> forall i | 0 <= i < |Schemas.TableNames| :: Schemas.TableNames[i] in r.session.data.tables
    ensures !seed ==> r.result.Ok? && r.session.data == s.data.(tables := s.data.tables + SchemaTables)
    ensures r.session.data.indexes == s.data.indexes
  {
    assert TablesOf(Repositories) == SchemaTables by {
      RepositoriesFollowSchemas();
      forall n | n in Schemas.TableNames ensures n in TablesOf(Repositories) {
        var i :| 0 <= i < |Schemas.TableNames| && Schemas.TableNames[i] == n;
        assert TableOf(Repositories[i]) == n;
      }
    }
    RepositoriesFollowSchemas();
    CreateTablesFrom(s, Repositories, seed, clock)
  }

  /** Each repository's `insertSampleData` in turn; the first failure stops it. */
  function SeedAll(s: Session, repos: seq<Repository>, clock: Clock): (r: Step<()>)
    ensures r.session.data.tables == s.data.tables && r.session.data.indexes == s.data.indexes
    decreases |repos|
  {
    if |repos| == 0 then Step(s, Ok(()))
    else
      var first := SeedOf(repos[0], s, clock);
      if first.result.Err? then first else SeedAll(first.session, repos[1..], clock)
  }

  /** `insertSampleData(db)` and `insertSampleDataWithCheck(db)`, which are the
      same: seed every repository unless the data probe holds. The probe holds
      whenever the `categories` table exists, so these never seed; without that
      table the probe throws. */
  function InsertSampleData(s: Session, clock: Clock): (r: Step<()>)
    ensures CategorySchema.TableName in s.data.tables ==> r == Step(s, Ok(()))
    ensures CategorySchema.TableName !in s.data.tables ==> r == Step(s, Err(NoSuchTable(CategorySchema.TableName)))
  {
    match CheckTables.CheckIfDataExists(s.data)
    case Err(e) => Step(s, Err(e))
    case Ok(exists_) => if exists_ then Step(s, Ok(())) else SeedAll(s, Repositories, clock)
  }

  /** The `createIndex` loop from the given repositories on; the first failure stops it. */
  function CreateIndexFrom(s: Session, repos: seq<Repository>): (r: Step<()>)
    ensures r.result.Ok? <==> forall i | 0 <= i < |repos| :: TableOf(repos[i]) in s.data.tables
    ensures r.result.Ok? ==> r.session.data.indexes == s.data.indexes + IndexNames(IndexesOf(repos))
    ensures r.session == s.(data := s.data.(indexes := r.session.data.indexes))
    decreases |repos|
  {
    if |repos| == 0 then Step(s, Ok(()))
    else
      var first := CreateIndexesOf(repos[0], s);
      if first.result.Err? then first
      else
        IndexNamesAppend(OwnIndexes(repos[0]), IndexesOf(repos[1..]));
        AllTablesCons(repos, s.data.tables);
        CreateIndexFrom(first.session, repos[1..])
  }

  lemma AllTablesCons(repos: seq<Repository>, tables: set<string>)
    requires |repos| > 0
    ensures (forall i | 0 <= i < |repos| :: TableOf(repos[i]) in tables) <==>
      TableOf(repos[0]) in tables && forall i | 0 <= i < |repos[1..]| :: TableOf(repos[1..][i]) in tables
  {
    if TableOf(repos[0]) in tables && forall i | 0 <= i < |repos[1..]| :: TableOf(repos[1..][i]) in tables {
      forall i | 0 <= i < |repos| ensures TableOf(repos[i]) in tables {
        if i > 0 { assert repos[i] == repos[1..][i - 1]; }
      }
    }
  }

  lemma IndexNamesAppend(a: seq<IndexDef>, b: seq<IndexDef>)
    ensures IndexNames(a + b) == IndexNames(a) + IndexNames(b)
  {
    forall n | n in IndexNames(a + b) ensures n in IndexNames(a) + IndexNames(b) {
      var i :| 0 <= i < |a + b| && (a + b)[i].name == n;
      if i >= |a| { assert b[i - |a|].name == n; }
    }
    forall n | n in IndexNames(a) + IndexNames(b) ensures n in IndexNames(a + b) {
      if n in IndexNames(a) {
        var i :| 0 <= i < |a| && a[i].name == n;
        assert (a + b)[i].name == n;
      } else {
        var i :| 0 <= i < |b| && b[i].name == n;
        assert (a + b)[|a| + i].name == n;
      }
    }
  }

  /** `createIndex`: every index of every repository, which names exactly the
      indexes of `SCHEMAS_INDEXES`; it needs all four tables. */
  function CreateIndex(s: Session): (r: Step<()>)
    ensures r.result.Ok? <==> forall i | 0 <= i < |Schemas.TableNames| :: Schemas.TableNames[i] in s.data.tables
    ensures r.result.Ok? ==> r.session.data.indexes == s.data.indexes + IndexNames(Schemas.SchemasIndexes)
    ensures r.session == s.(data := s.data.(indexes := r.session.data.indexes))
  {
    RepositoriesFollowSchemas();
    RepositoryIndexesAreSchemasIndexes();
    CreateIndexFrom(s, Repositories)
  }

  /** The repositories' indexes, in their order, name the same indexes as the
      registry's list, which is in another order. */
  lemma RepositoryIndexesAreSchemasIndexes()
    ensures IndexNames(IndexesOf(Repositories)) == IndexNames(Schemas.SchemasIndexes)
  {
    var c, b := CategorySchema.Indexes, BudgetRepository.BudgetSchema.Indexes;
    var bb, t := BankBalanceSchema.Indexes, TransactionRepository.TransactionSchema.Indexes;
    assert IndexesOf(Repositories[3..]) == t + IndexesOf([]);
    assert IndexesOf(Repositories[2..]) == bb + IndexesOf(Repositories[3..]);
    assert IndexesOf(Repositories[1..]) == b + IndexesOf(Repositories[2..]);
    assert IndexesOf(Repositories) == c + IndexesOf(Repositories[1..]);
    assert IndexesOf(Repositories) == c + (b + (bb + t));
    IndexNamesAppend(bb, t);
    IndexNamesAppend(b, bb + t);
    IndexNamesAppend(c, b + (bb + t));
    assert Schemas.SchemasIndexes == ((c + t) + b) + bb;
    IndexNamesAppend(c, t);
    IndexNamesAppend(c + t, b);
    IndexNamesAppend((c + t) + b, bb);
  }

  // ---------------------------------------------------------------------------
  // Seeding through createTables

  /** Neither sample month of the bank balances has a row. */
  predicate SampleMonthsFree(d: Data) {
    !BankBalanceRepository.SampleMonthTaken(d.balances.rows, 7) && !BankBalanceRepository.SampleMonthTaken(d.balances.rows, 8)
  }

  /** One turn of the loop that succeeds hands over to the rest of the loop. */
  lemma FromCons(s: Session, repo: Repository, rest: seq<Repository>, seed: bool, clock: Clock)
    requires Visit(repo, s, seed, clock).result.Ok?
    ensures CreateTablesFrom(s, [repo] + rest, seed, clock) == CreateTablesFrom(Visit(repo, s, seed, clock).session, rest, seed, clock)
  {
    assert ([repo] + rest)[1..] == rest;
  }

  /** A turn of the loop that fails ends it. */
  lemma FromConsFails(s: Session, repo: Repository, rest: seq<Repository>, seed: bool, clock: Clock)
    requires Visit(repo, s, seed, clock).result.Err?
    ensures CreateTablesFrom(s, [repo] + rest, seed, clock) == Visit(repo, s, seed, clock)
  {
  }

  /** `createTables(db, true)` on a database without the sample bank months:
      every table is created and seeded at once, six categories, two budgets, two
      bank months and two transactions, and the July sample month is then taken. */
  lemma {:induction false} SeedingCreateTables(s: Session, clock: Clock)
    requires SampleMonthsFree(s.data)
    ensures var r := CreateTables(s, true, clock);
      && r.result.Ok?
      && |r.session.data.categories.rows| == |s.data.categories.rows| + 6
      && |r.session.data.budgets.rows| == |s.data.budgets.rows| + 2
      && |r.session.data.balances.rows| == |s.data.balances.rows| + 2
      && |r.session.data.transactions.rows| == |s.data.transactions.rows| + 2
      && BankBalanceRepository.SampleMonthTaken(r.session.data.balances.rows, 7)
  {
    var v1 := Visit(CategoryRepo, s, true, clock);
    var v2 := Visit(BudgetRepo, v1.session, true, clock);
    var v3 := Visit(BankBalanceRepo, v2.session, true, clock);
    var v4 := Visit(TransactionRepo, v3.session, true, clock);
    VisitCategories(s, clock);
    VisitBudgets(v1.session, clock);
    VisitBankBalances(v2.session, clock);
    VisitTransactions(v3.session, clock);
    FromCons(s, CategoryRepo, [BudgetRepo, BankBalanceRepo, TransactionRepo], true, clock);
    FromCons(v1.session, BudgetRepo, [BankBalanceRepo, TransactionRepo], true, clock);
    FromCons(v2.session, BankBalanceRepo, [TransactionRepo], true, clock);
    FromCons(v3.session, TransactionRepo, [], true, clock);
    assert CreateTablesFrom(v4.session, [], true, clock).session == v4.session;
  }

  /** The first turn of the seeding loop: the categories table and its samples. */
  lemma VisitCategories(s: Session, clock: Clock)
    ensures var v := Visit(CategoryRepo, s, true, clock);
      && v.result.Ok?
      && |v.session.data.categories.rows| == |s.data.categories.rows| + 6
      && v.session.data.budgets == s.data.budgets
      && v.session.data.balances == s.data.balances
      && v.session.data.transactions == s.data.transactions
  {
  }

  /** The second turn of the seeding loop: the budgets table and its samples. */
  lemma VisitBudgets(s: Session, clock: Clock)
    ensures var v := Visit(BudgetRepo, s, true, clock);
      && v.result.Ok?
      && |v.session.data.budgets.rows| == |s.data.budgets.rows| + 2
      && v.session.data.categories == s.data.categories
      && v.session.data.balances == s.data.balances
      && v.session.data.transactions == s.data.transactions
  {
  }

  /** The third turn of the seeding loop: the bank balances table and its
      samples, which need both sample months free. */
  lemma VisitBankBalances(s: Session, clock: Clock)
    requires SampleMonthsFree(s.data)
    ensures var v := Visit(BankBalanceRepo, s, true, clock);
      && v.result.Ok?
      && |v.session.data.balances.rows| == |s.data.balances.rows| + 2
      && BankBalanceRepository.SampleMonthTaken(v.session.data.balances.rows, 7)
      && v.session.data.categories == s.data.categories
      && v.session.data.budgets == s.data.budgets
      && v.session.data.transactions == s.data.transactions
  {
  }

  /** The last turn of the seeding loop: the transactions table and its samples. */
  lemma VisitTransactions(s: Session, clock: Clock)
    ensures var v := Visit(TransactionRepo, s, true, clock);
      && v.result.Ok?
      && |v.session.data.transactions.rows| == |s.data.transactions.rows| + 2
      && v.session.data.categories == s.data.categories
      && v.session.data.budgets == s.data.budgets
      && v.session.data.balances == s.data.balances
  {
  }

  /** `createTables(db, true)` on a database that already has the July sample
      month: categories and budgets are seeded again, then the bank balances'
      seed fails on the UNIQUE constraint before the transactions are reached. */
  lemma {:induction false} SeedingAgainFails(s: Session, clock: Clock)
    requires BankBalanceRepository.SampleMonthTaken(s.data.balances.rows, 7)
    ensures var r := CreateTables(s, true, clock);
      && r.result == Err(Sql(BankBalanceSchema.UniqueFailed))
      && |r.session.data.categories.rows| == |s.data.categories.rows| + 6
      && |r.session.data.budgets.rows| == |s.data.budgets.rows| + 2
      && r.session.data.balances == s.data.balances
      && r.session.data.transactions == s.data.transactions
  {
    var v1 := Visit(CategoryRepo, s, true, clock);
    var v2 := Visit(BudgetRepo, v1.session, true, clock);
    var v3 := Visit(BankBalanceRepo, v2.session, true, clock);
    assert v1.result.Ok? && v2.result.Ok?;
    assert v3.result == Err(Sql(BankBalanceSchema.UniqueFailed));
    FromCons(v1.session, BudgetRepo, [BankBalanceRepo, TransactionRepo], true, clock);
    FromConsFails(v2.session, BankBalanceRepo, [TransactionRepo], true, clock);
    FromCons(s, CategoryRepo, [BudgetRepo, BankBalanceRepo, TransactionRepo], true, clock);
    assert CreateTables(s, true, clock) == v3;
  }

  /** `createTables(db, true)` on a database that has August 2025 but not July:
      categories and budgets are seeded again, the bank balances' seed stores July
      and then fails on the UNIQUE constraint for August, and the transactions are
      not reached. */
  lemma {:induction false} SeedingAugustTakenFails(s: Session, clock: Clock)
    requires !BankBalanceRepository.SampleMonthTaken(s.data.balances.rows, 7)
    requires BankBalanceRepository.SampleMonthTaken(s.data.balances.rows, 8)
    ensures var r := CreateTables(s, true, clock);
      && r.result == Err(Sql(BankBalanceSchema.UniqueFailed))
      && |r.session.data.categories.rows| == |s.data.categories.rows| + 6
      && |r.session.data.budgets.rows| == |s.data.budgets.rows| + 2
      && |r.session.data.balances.rows| == |s.data.balances.rows| + 1
      && r.session.data.transactions == s.data.transactions
  {
    var v1 := Visit(CategoryRepo, s, true, clock);
    var v2 := Visit(BudgetRepo, v1.session, true, clock);
    var v3 := Visit(BankBalanceRepo, v2.session, true, clock);
    VisitCategories(s, clock);
    VisitBudgets(v1.session, clock);
    assert v3.result == Err(Sql(BankBalanceSchema.UniqueFailed));
    FromCons(v1.session, BudgetRepo, [BankBalanceRepo, TransactionRepo], true, clock);
    FromConsFails(v2.session, BankBalanceRepo, [TransactionRepo], true, clock);
    FromCons(s, CategoryRepo, [BudgetRepo, BankBalanceRepo, TransactionRepo], true, clock);
    assert CreateTables(s, true, clock) == v3;
  }

  /** Both cases above, for use inside a function body. */
  lemma SeedingOutcomes(s: Session, clock: Clock)
    ensures SampleMonthsFree(s.data) ==>
      var r := CreateTables(s, true, clock);
      && r.result.Ok?
      && |r.session.data.categories.rows| == |s.data.categories.rows| + 6
      && |r.session.data.budgets.rows| == |s.data.budgets.rows| + 2
      && |r.session.data.balances.rows| == |s.data.balances.rows| + 2
      && |r.session.data.transactions.rows| == |s.data.transactions.rows| + 2
    ensures BankBalanceRepository.SampleMonthTaken(s.data.balances.rows, 7) ==>
      var r := CreateTables(s, true, clock);
      && r.result == Err(Sql(BankBalanceSchema.UniqueFailed))
      && |r.session.data.categories.rows| == |s.data.categories.rows| + 6
      && |r.session.data.budgets.rows| == |s.data.budgets.rows| + 2
    ensures (!BankBalanceRepository.SampleMonthTaken(s.data.balances.rows, 7)
             && BankBalanceRepository.SampleMonthTaken(s.data.balances.rows, 8)) ==>
      var r := CreateTables(s, true, clock);
      && r.result == Err(Sql(BankBalanceSchema.UniqueFailed))
      && |r.session.data.categories.rows| == |s.data.categories.rows| + 6
      && |r.session.data.budgets.rows| == |s.data.budgets.rows| + 2
      && |r.session.data.balances.rows| == |s.data.balances.rows| + 1
  {
    if SampleMonthsFree(s.data) { SeedingCreateTables(s, clock); }
    if BankBalanceRepository.SampleMonthTaken(s.data.balances.rows, 7) { SeedingAgainFails(s, clock); }
    if !BankBalanceRepository.SampleMonthTaken(s.data.balances.rows, 7) && BankBalanceRepository.SampleMonthTaken(s.data.balances.rows, 8) {
      SeedingAugustTakenFails(s, clock);
    }
  }

  // ---------------------------------------------------------------------------
  // initializeDatabaseFull

  const NoConnection: string := "数据库连接未初始化"

  /** What a run on a possibly absent connection leaves: the connection, and what
      the run returned or threw. */
  datatype Outcome = Outcome(db: Option<Session>, result: Result<()>)

  /** `initializeDatabaseFull`: the tables with their sample rows, then the
      indexes, then the guarded seeding step; the guard always finds the
      `categories` table, so the seeding at the end never runs. With both sample
      months free it succeeds; with either taken the bank balances' seed fails on
      UNIQUE after the categories and budgets were seeded again (and, when only
      August is taken, after July was stored). */
  function InitializeDatabaseFull(db: Option<Session>, clock: Clock): (r: Outcome)
    ensures db.None? ==> r == Outcome(None, Err(Failed(NoConnection)))
    ensures db.Some? ==> r.db.Some?
    ensures db.Some? && SampleMonthsFree(db.value.data) ==>
      && r.result.Ok?
      && (forall i | 0 <= i < |Schemas.TableNames| :: Schemas.TableNames[i] in r.db.value.data.tables)
      && r.db.value.data.indexes == db.value.data.indexes + IndexNames(Schemas.SchemasIndexes)
      && |r.db.value.data.categories.rows| == |db.value.data.categories.rows| + 6
      && |r.db.value.data.budgets.rows| == |db.value.data.budgets.rows| + 2
      && |r.db.value.data.balances.rows| == |db.value.data.balances.rows| + 2
      && |r.db.value.data.transactions.rows| == |db.value.data.transactions.rows| + 2
    ensures db.Some? && BankBalanceRepository.SampleMonthTaken(db.value.data.balances.rows, 7) ==>
      && r.result == Err(Sql(BankBalanceSchema.UniqueFailed))
      && |r.db.value.data.categories.rows| == |db.value.data.categories.rows| + 6
      && |r.db.value.data.budgets.rows| == |db.value.data.budgets.rows| + 2
    ensures (db.Some? && !BankBalanceRepository.SampleMonthTaken(db.value.data.balances.rows, 7)
             && BankBalanceRepository.SampleMonthTaken(db.value.data.balances.rows, 8)) ==>
      && r.result == Err(Sql(BankBalanceSchema.UniqueFailed))
      && |r.db.value.data.categories.rows| == |db.value.data.categories.rows| + 6
      && |r.db.value.data.budgets.rows| == |db.value.data.budgets.rows| + 2
      && |r.db.value.data.balances.rows| == |db.value.data.balances.rows| + 1
  {
    match db
    case None => Outcome(None, Err(Failed(NoConnection)))
    case Some(s) =>
      var tables := CreateTables(s, true, clock);
      SeedingOutcomes(s, clock);
      if tables.result.Err? then Outcome(Some(tables.session), tables.result)
      else
        var indexed := CreateIndex(tables.session);
        if indexed.result.Err? then Outcome(Some(indexed.session), indexed.result)
        else
          match CheckTables.CheckIfDataExists(indexed.session.data)
          case Err(e) => Outcome(Some(indexed.session), Err(e))
          case Ok(exists_) =>
            if exists_ then Outcome(Some(indexed.session), Ok(()))
            else
              var seeded := InsertSampleData(indexed.session, clock);
              Outcome(Some(seeded.session), seeded.result)
  }

  /** Running `initializeDatabaseFull` a second time on the database its first
      run produced does not find the data it already seeded: it seeds the
      categories and budgets again and then fails on the bank balances' UNIQUE
      constraint. */
  lemma InitializeTwiceFails(s: Session, clock: Clock)
    requires SampleMonthsFree(s.data)
    ensures var once := InitializeDatabaseFull(Some(s), clock);
      var twice := InitializeDatabaseFull(once.db, clock);
      && once.result.Ok?
      && twice.result == Err(Sql(BankBalanceSchema.UniqueFailed))
      && |twice.db.value.data.categories.rows| == |s.data.categories.rows| + 12
  {
    SeedingCreateTables(s, clock);
    var once := InitializeDatabaseFull(Some(s), clock);
    assert BankBalanceRepository.SampleMonthTaken(once.db.value.data.balances.rows, 7);
  }

  /** The initialization with its guard placed before any seeding: the tables
      and indexes first, then the sample rows only when `categories` is empty. */
  function InitializeDatabaseOnce(db: Option<Session>, clock: Clock): (r: Outcome)
    ensures db.None? ==> r == Outcome(None, Err(Failed(NoConnection)))
    ensures db.Some? ==> r.db.Some?
    ensures db.Some? && |db.value.data.categories.rows| > 0 ==>
      var s := db.value;
      r == Outcome(Some(s.(data := s.data.(tables := s.data.tables + SchemaTables,
                                            indexes := s.data.indexes + IndexNames(Schemas.SchemasIndexes)))),
                   Ok(()))
    ensures r.result.Ok? ==> |r.db.value.data.categories.rows| > 0
    ensures r.result.Ok? ==>
      SchemaTables <= r.db.value.data.tables && IndexNames(Schemas.SchemasIndexes) <= r.db.value.data.indexes
  {
    match db
    case None => Outcome(None, Err(Failed(NoConnection)))
    case Some(s) =>
      var tables := CreateTables(s, false, clock);
      var indexed := CreateIndex(tables.session);
      if indexed.result.Err? then Outcome(Some(indexed.session), indexed.result)
      else if |indexed.session.data.categories.rows| > 0 then Outcome(Some(indexed.session), Ok(()))
      else
        var seeded := SeedAll(indexed.session, Repositories, clock);
        SeedAllSeedsCategories(indexed.session, clock);
        Outcome(Some(seeded.session), seeded.result)
  }

  /** A successful seeding of all four repositories leaves the six categories. */
  lemma {:induction false} SeedAllSeedsCategories(s: Session, clock: Clock)
    ensures SeedAll(s, Repositories, clock).result.Ok? ==>
      |SeedAll(s, Repositories, clock).session.data.categories.rows| == |s.data.categories.rows| + 6
  {
    if SeedAll(s, Repositories, clock).result.Err? { return; }
    var r1 := SeedOf(CategoryRepo, s, clock);
    assert SeedAll(s, Repositories, clock) == SeedAll(r1.session, Repositories[1..], clock) || r1.result.Err?;
    var r2 := SeedOf(BudgetRepo, r1.session, clock);
    var r3 := SeedOf(BankBalanceRepo, r2.session, clock);
    var r4 := SeedOf(TransactionRepo, r3.session, clock);
    assert Repositories[1..][1..][1..][1..] == [];
    assert r1.result.Ok? && r2.result.Ok? && r3.result.Ok? && r4.result.Ok?;
    assert r4.session.data.categories == r1.session.data.categories;
  }

  /** The corrected initialization is idempotent: a second run finds the data
      and changes nothing. */
  lemma InitializeOnceIsIdempotent(s: Session, clock: Clock)
    requires InitializeDatabaseOnce(Some(s), clock).result.Ok?
    ensures var once := InitializeDatabaseOnce(Some(s), clock);
      var twice := InitializeDatabaseOnce(once.db, clock);
      twice.result.Ok? && twice.db == once.db
  {
    var once := InitializeDatabaseOnce(Some(s), clock);
    var s1 := once.db.value;
    assert |s1.data.categories.rows| > 0;
    assert s1.data.tables + SchemaTables == s1.data.tables;
    assert s1.data.indexes + IndexNames(Schemas.SchemasIndexes) == s1.data.indexes;
    assert s1.data.(tables := s1.data.tables + SchemaTables,
                    indexes := s1.data.indexes + IndexNames(Schemas.SchemasIndexes)) == s1.data;
    assert s1.(data := s1.data) == s1;
  }
}
