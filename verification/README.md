# Finance-Management-Web data-access core in Dafny

This project models the data-access layer of Finance-Management-Web, a browser
application for personal finances that keeps its data in an in-browser SQLite
database (sql.js). The model covers:

- **DatabaseService.** The one connection of the application: `executeQuery`
  with its read and write paths, `transaction` (BEGIN, callback, COMMIT or
  ROLLBACK), the change events, `initialize`, `checkTableExists`,
  `getDatabaseVersion`, `isDatabaseInitialized`, `resetDatabase` and
  `closeDatabase`.
- **The four schemas.** Category, Budget, Transaction and BankBalance. Each has
  its columns, CHECK and UNIQUE constraints, sample rows, indexes, and every SQL
  statement as a function over the stored rows. `generateUpdateQuery` is
  included.
- **The schema registry.** The table order, the combined index list, the version
  and the category count probe.
- **The four repositories.** Each operation works on the open connection.
- **Table helpers.** The table-existence and initialization probes, and the
  orchestrator (`createTables`, `insertSampleData`, `createIndex`,
  `initializeDatabaseFull`).
- **ImportService.** The best-effort bulk import and its report.

The database is a value, not an object:

- **`Store.Data`** holds the four tables (rows plus the AUTOINCREMENT counter),
  the table catalog, the index names and the stored version.
- **`Store.Session`** adds the snapshot taken by an open transaction and the
  last insert rowid.
- **`Connection.Service`** adds the listeners and the reset guard, around an
  optional session.

Every operation returns the new state together with a `Result` that is either
a value or the error the source would throw. Each SQL statement is modelled by
what it does to the rows: WHERE, ORDER BY, LEFT JOIN, SUM, GROUP BY. These
relational building blocks live in `Relational` and `Tables`.

The contracts pair every operation with its partner:

- create then find;
- delete then find;
- insert twice fails;
- the totals add up;
- a group summary covers every row;
- commit keeps the work and rollback restores the snapshot;
- initializing twice, and opening a year twice.

In these places the code behaves differently from what its names and comments
suggest; the model follows the code:

- **Nested transactions.** A nested `transaction` is not refused up front. Its
  BEGIN fails, and the ROLLBACK in its `catch` ends the outer transaction and
  discards the outer work (`Connection.NestedTransactionDiscardsOuterWork`).
- **Update results.** `update` and `delete` report `true` whenever the
  statement ran, because `executeQuery` always reports one change. They do not
  report `false` for an id that matches no row.
- **Budget date range.** `findByDateRange` on budgets tests containment
  (`startDate <= ? AND endDate >= ?`), not overlap.
- **Initialization order.** The orchestrator seeds while it creates the tables,
  and only creates the indexes afterwards. Its later "data exists" check always
  passes once the categories table exists. So `insertSampleData` and
  `insertSampleDataWithCheck` never seed anything.
- **Foreign keys.** They are not enforced, which is SQLite's default. An import
  of a budget with an unknown category succeeds.
- **`initialize` when already open.** It replaces the open database with a fresh
  one.

## Model

| member | source | states |
|---|---|---|
| Text.TrimStart | src/services/database/DatabaseService.ts:51 | leading white space is dropped and nothing else: the result is a suffix of the text that does not start with white space |
| Text.TrimEnd | src/services/database/DatabaseService.ts:51 | trailing white space is dropped and nothing else: the result is a prefix of the text that does not end with white space |
| Text.Upper | src/services/database/DatabaseService.ts:51 | upper-casing keeps the length and maps each character on its own |
| Text.SnakeCaseChars | src/services/database/schemas/Category.ts:136-143 | the rewrite of a field name leaves no upper-case ASCII letter; every character is an underscore, a lower-case letter or a character of the name |
| Text.SnakeCaseKeepsLowerCase | src/services/database/schemas/Category.ts:138 | a field name without capitals is left as it is, so `name`, `icon` and `type` reach the statement unchanged |
| Text.SnakeCaseMarksUpperCase | src/services/database/schemas/Category.ts:138 | a field name with a capital letter comes out with an underscore in it |
| Text.SnakeCaseOneUpper | src/services/database/schemas/Category.ts:138 | a name with one capital gets an underscore and that letter in lower case in its place, the rest unchanged |
| Text.SnakeCaseRoundTrip | src/services/database/schemas/Category.ts:138 | on names without underscores the rewrite can be undone, so it loses nothing |
| Text.UpdateStatementPlaceholders | src/services/database/schemas/Category.ts:136-143 | the generated UPDATE has one `?` per field plus one for the id, matching the parameters `update` passes |
| Text.SetClausePlaceholders | src/services/database/schemas/Category.ts:139-141 | the SET clause has exactly one `?` per field |
| Text.NatToString | src/services/import/ImportService.ts:133-135 | a count is rendered as a non-empty run of decimal digits |
| Text.NatToStringRoundTrip | src/services/import/ImportService.ts:133-135 | the count written into the import message reads back as the same number |
| Text.IntToStringRoundTrip | src/services/database/schemas/Category.ts:87-89 | a number written as text spells an integer and reads back as that number, which is what lets INTEGER affinity store such a text as the number |
| Text.StrLeTotal | src/services/database/schemas/Transaction.ts:96 | text comparison as ORDER BY uses it on dates and months relates any two strings |
| Text.StrLeTransitive | src/services/database/schemas/Transaction.ts:96 | text comparison is transitive, so ORDER BY on dates is well defined |
| Text.StrLeAntisymmetric | src/services/database/schemas/Transaction.ts:96 | two strings that compare both ways are equal |
| Relational.Where | src/services/database/schemas/Transaction.ts:98 | a WHERE keeps exactly the rows meeting its condition, each as often as stored, in table order |
| Relational.WhereKeeps | src/services/database/schemas/Transaction.ts:98 | every stored row meeting the condition appears in the result |
| Relational.WhereSingle | src/services/database/schemas/BankBalance.ts:78-81 | when at most one row can meet the condition, the result is that row or nothing |
| Relational.WhereNone | src/services/database/schemas/Transaction.ts:102 | a condition no row meets gives an empty result |
| Relational.WherePairwise | src/services/database/schemas/Transaction.ts:98 | a WHERE keeps the order of the rows it keeps |
| Relational.WhereAll | src/services/database/schemas/Transaction.ts:98 | a condition every row meets returns the table unchanged |
| Relational.Insert | src/services/database/schemas/Transaction.ts:96 | one insertion step of the ordering adds exactly the one row |
| Relational.Sort | src/services/database/schemas/Transaction.ts:96 | ORDER BY neither loses nor duplicates a row |
| Relational.SortSorted | src/services/database/schemas/Transaction.ts:96 | ORDER BY with a total comparison yields the rows in order |
| Relational.SumByAppend | src/services/database/schemas/Transaction.ts:128-132 | SUM over two batches of rows is the sum of their SUMs |
| Relational.SumByPermutation | src/services/database/schemas/Transaction.ts:128-132 | SUM does not depend on the order of the rows |
| Relational.SumBySplit | src/services/database/schemas/Transaction.ts:128-132 | splitting rows by a condition splits their SUM |
| Relational.SumByOnes | src/services/database/schemas/Transaction.ts:134-145 | COUNT(*), the SUM of one per row and the length of the row list all agree |
| Relational.WhereAgree | src/services/database/schemas/Transaction.ts:128-132 | two conditions that agree on every stored row select the same rows |
| Relational.SumGroupsCons | src/services/database/schemas/Transaction.ts:134-145 | a row adds its amount to the one GROUP BY group carrying its key |
| Relational.SumGroupsPartition | src/services/database/schemas/Transaction.ts:134-145 | summing per group over distinct keys covering every row gives the overall SUM |
| Relational.Distinct | src/services/database/schemas/Transaction.ts:143 | the GROUP BY keys are exactly the keys of the rows, each once |
| Relational.First | src/services/database/repositories/CategoryRepository.ts:28-31 | `rows[0] || null` is null exactly for an empty result and otherwise the first row |
| Tables.Empty | src/services/database/schemas/Category.ts:81-93 | a newly created table holds no rows |
| Tables.AppendKeyed | src/services/database/schemas/Category.ts:83 | an INSERT under the next AUTOINCREMENT id keeps ids unique and below the sequence counter |
| Tables.RemoveKey | src/services/database/schemas/Category.ts:118 | a DELETE by id removes exactly the rows with that id and keeps the sequence counter |
| Tables.ConsUniqueKeys | src/services/database/schemas/Category.ts:83 | a row whose id no other row has keeps ids unique |
| Tables.WhereUniqueKeys | src/services/database/schemas/Category.ts:83 | any WHERE over a table with unique ids returns rows with unique ids, each a stored row |
| Tables.RemoveKeyKeyed | src/services/database/schemas/Category.ts:118 | a DELETE keeps the primary-key invariant |
| Tables.Lookup | src/services/database/schemas/Category.ts:120 | `WHERE id = ?` returns exactly the rows carrying the id |
| Tables.LookupUnique | src/services/database/schemas/Category.ts:120 | with unique ids a lookup returns the one row carrying the id, or nothing when no row does |
| Tables.PermutationUniqueKeys | src/services/database/schemas/Transaction.ts:134-145 | reordering rows, as ORDER BY does, keeps their keys unique |
| Tables.Modify | src/services/database/schemas/Category.ts:106-116 | `UPDATE … WHERE id = ?` rewrites the rows with that id and no other row |
| Tables.TryModify | src/services/database/schemas/Category.ts:142 | an UPDATE whose rewrite of a matched row may fail: it succeeds exactly when every row with the id can be rewritten, then rewrites those rows and keeps the others; a failure is some matched row's error |
| Store.CreateTable | src/services/database/schemas/Category.ts:81-93 | `CREATE TABLE IF NOT EXISTS` lists the table and changes no rows, index or version |
| Store.CreateIndex | src/services/database/schemas/Category.ts:74-78 | `CREATE INDEX IF NOT EXISTS` succeeds exactly when its table exists, and then adds the index name |
| Store.FirstMissing | src/services/database/services/createTables.ts:53-59 | names an index whose table is missing, and is absent exactly when every table exists |
| Store.CreateIndexes | src/services/database/repositories/CategoryRepository.ts:22-26 | a run of index statements succeeds iff every table exists; otherwise it fails with SQLite's `no such table: main.<table>` for the first missing one, keeping the indexes made before it |
| Store.ExecResult | src/services/database/DatabaseService.ts:84-85 | a query yields one result set exactly when it has rows |
| Store.Begin | src/services/database/DatabaseService.ts:116 | BEGIN snapshots the contents and fails when a transaction is already open |
| Store.Commit | src/services/database/DatabaseService.ts:118 | COMMIT keeps the contents and fails without an open transaction |
| Store.Rollback | src/services/database/DatabaseService.ts:121 | ROLLBACK restores the snapshot and fails with `cannot rollback - no transaction is active` without one |
| Store.CommitKeepsRollbackDiscards | src/services/database/DatabaseService.ts:115-123 | work committed is kept; work rolled back is gone |
| Schemas.RegistryFacts | src/services/database/schemas/index.ts:7-38 | the four tables in dependency order, eleven indexes with distinct names each on one of them, and version 1.0.0 |
| Schemas.CheckTablesExists | src/services/database/schemas/index.ts:31 | the category count probe fails without the categories table and otherwise answers one row holding the count |
| CheckTables.CatalogQuery | src/services/database/services/checkTables.ts:3-6 | the catalog answers with the table's name exactly when the table exists |
| CheckTables.CheckTableExists | src/services/database/services/checkTables.ts:3-6 | true exactly when the table exists |
| CheckTables.CheckIfDataExists | src/services/database/services/checkTables.ts:8-11 | throws without the categories table and is true whenever it exists, even when it is empty |
| CheckTables.VersionQuery | src/services/database/services/checkTables.ts:22 | the version query throws without `database_info` and has rows exactly when a version is stored |
| CheckTables.CheckIsDatabaseInitialized | src/services/database/services/checkTables.ts:13-35 | true exactly when `database_info` exists, holds a version and the categories table exists; false on every error |
| CheckTables.CheckTableExistsAll | src/services/database/services/checkTables.ts:37-46 | true exactly when each of the four registry tables exists |
| Connection.FirstNonSpace | src/services/database/DatabaseService.ts:51 | trimming stops at the first character that is not white space |
| Connection.ReadHasSelect | src/services/database/DatabaseService.ts:51 | a statement on the read path has SELECT, in some letter case, right after its leading white space |
| Connection.SelectIsRead | src/services/database/DatabaseService.ts:51 | any statement with SELECT after its leading white space takes the read path |
| Connection.ReadMeansSelectFirst | src/services/database/DatabaseService.ts:51 | the read path is taken iff the statement starts, after white space, with SELECT in any letter case |
| Connection.EventFor | src/services/database/DatabaseService.ts:55-61 | a write announces transaction_updated iff its text mentions transactions, else budget_updated iff it mentions budgets, else category_updated iff it mentions categories |
| Connection.SilentWithoutTableName | src/services/database/DatabaseService.ts:55-61 | a write mentioning none of the three tables announces nothing |
| Connection.On | src/services/database/DatabaseService.ts:127-132 | `on` adds the callback to its event's set and leaves every other event's set alone |
| Connection.Off | src/services/database/DatabaseService.ts:134-139 | `off` removes the callback from its event's set and leaves every other event's set alone |
| Connection.ListenersAreSets | src/services/database/DatabaseService.ts:127-146 | registering twice is registering once; a registered callback is called; `off` undoes `on` |
| Connection.ObjectOfColumns | src/services/database/DatabaseService.ts:88-94 | a result row becomes an object whose keys are the column names, holding the value of the last column with each name |
| Connection.Objects | src/services/database/DatabaseService.ts:82-101 | the read path returns one object per row of the first result set, none when there is no result set |
| Connection.Write | src/services/database/DatabaseService.ts:53-81 | a write that succeeds reports no rows, one change and the last insert id; one that throws changes nothing and rethrows |
| Connection.Read | src/services/database/DatabaseService.ts:82-101 | a read changes nothing, returns the rows as objects and their count, and rethrows the engine's error |
| Connection.ExecuteQuery | src/services/database/DatabaseService.ts:42-107 | throws `NotInitialized` when closed; otherwise reads or writes by the statement text, emits an event only after a write that succeeded, and calls exactly that event's listeners |
| Connection.WritesAlwaysReportAChange | src/services/database/DatabaseService.ts:79 | every successful write reports one change, whatever it touched |
| Connection.Recover | src/services/database/DatabaseService.ts:120-123 | the catch branch restores the snapshot and rethrows, or fails with the ROLLBACK's own error when no transaction is open |
| Connection.AtomicallyCommitsOrRestores | src/services/database/DatabaseService.ts:110-124 | a callback that succeeds has its work committed and its value returned; one that throws leaves the contents as before and its error rethrown |
| Connection.NestedTransactionDiscardsOuterWork | src/services/database/DatabaseService.ts:115-123 | a transaction started inside another fails at BEGIN and its ROLLBACK discards the outer transaction's work |
| Connection.TransactionInsideCallback | src/services/database/DatabaseService.ts:110-124 | a callback that opens its own transaction ends with nothing kept and the error of the outer ROLLBACK |
| Connection.Transaction | src/services/database/DatabaseService.ts:110-124 | throws `NotInitialized` when closed and otherwise runs the callback atomically |
| Connection.Initialize | src/services/database/DatabaseService.ts:23-40 | opens a fresh empty database, replacing any open one, then runs the setup callback on it and passes on its result |
| Connection.CheckTableExists | src/services/database/DatabaseService.ts:154-163 | true exactly when a database is open and has the table |
| Connection.GetDatabaseVersion | src/services/database/DatabaseService.ts:166-175 | the stored version when there is one, and 1.0.0 when closed, when `database_info` is missing or has no version row |
| Connection.DefaultIsSchemaVersion | src/services/database/DatabaseService.ts:167 | the fallback version is the schema version of the registry |
| Connection.IsDatabaseInitialized | src/services/database/DatabaseService.ts:178-197 | true exactly when a database is open, all four tables exist and categories has a row |
| Connection.ResetDatabase | src/services/database/DatabaseService.ts:200-213 | ignored while a reset is under way; otherwise closes the database, keeping the listeners |
| Connection.CloseDatabase | src/services/database/DatabaseService.ts:216-221 | afterwards no database is open and the listeners are kept |
| Connection.ClosedRefusesQueries | src/services/database/DatabaseService.ts:46-48 | after closing, every query throws `NotInitialized`, no table exists and the version is the default |
| CategorySchema.DefaultCategoriesWellFormed | src/services/database/schemas/Category.ts:14-63 | six default categories, all default and active, of allowed types, exactly one of them income |
| CategorySchema.Insert | src/services/database/schemas/Category.ts:81-104 | the INSERT succeeds iff name, icon and type are given and the type passes the CHECK; the row is appended under the next id; the table invariant holds after |
| CategorySchema.CoalesceUpdate | src/services/database/schemas/Category.ts:106-116 | the UPDATE replaces the given fields of the row with the id and keeps the others; it fails only on a type the CHECK rejects; other rows are untouched |
| CategorySchema.IntegerCell | src/services/database/schemas/Category.ts:87-89 | the sort order and flag columns accept every bound value: NULL stays NULL, a text spelling an integer becomes that integer, any other text is kept as text |
| CategorySchema.NumberTextIsStoredAsNumber | src/services/database/schemas/Category.ts:87-89 | a number and its decimal text are stored as the same integer |
| CategorySchema.ColumnOf | src/services/database/schemas/Category.ts:84-89 | a SET key means a column exactly when it is one of the six assignable column names, and then that one column |
| CategorySchema.TextCellOf | src/services/database/schemas/Category.ts:84-86 | a TEXT column stores NULL exactly for NULL, never an integer, and a text as that text |
| CategorySchema.StoredAs | src/services/database/schemas/Category.ts:84-89 | a column stores NULL exactly for NULL; name, icon and type never store an integer |
| CategorySchema.Put | src/services/database/schemas/Category.ts:84-89 | writing one column of a row under construction changes that column and no other |
| CategorySchema.Assign | src/services/database/schemas/Category.ts:137-142 | one assignment `key = ?` gives the column named `key` the value its affinity makes of the parameter, NULL included, and leaves every other column as it was |
| CategorySchema.LastIndex | src/services/database/schemas/Category.ts:137-142 | the position of the rightmost assignment to a column: it names the column and no later assignment does; -1 when none does |
| CategorySchema.LastValue | src/services/database/schemas/Category.ts:137-142 | the value of the rightmost assignment to a column (a column named twice takes its last value); absent exactly when no assignment names the column |
| CategorySchema.Assigned | src/services/database/schemas/Category.ts:84-86 | a text column that held text never ends up holding an integer |
| CategorySchema.AssignAll | src/services/database/schemas/Category.ts:137-142 | applying the SET clause left to right leaves every column with the stored form of its last assignment, or its old value when none names it |
| CategorySchema.Updated | src/services/database/schemas/Category.ts:84-86 | NOT NULL is checked after all assignments, in table-column order: name, then icon, then type, each error naming its column; then the CHECK on type; on success the row keeps its id and creation time, gets the new updatedAt, and every column holds its last assigned value or its old one |
| CategorySchema.NotNullInColumnOrder | src/services/database/schemas/Category.ts:84-86 | `{icon: null, name: null}` fails on `categories.name`, the first NOT NULL column, not on the first assignment |
| CategorySchema.IntegerAssignmentsSucceed | src/services/database/schemas/Category.ts:87-89 | assignments to the sort order and flags alone always pass the constraints of a row the CHECK admits, NULL and text included |
| CategorySchema.UnknownColumn | src/services/database/schemas/Category.ts:136-143 | names a SET column the table lacks, and is absent exactly when every column exists |
| CategorySchema.SetRows | src/services/database/schemas/Category.ts:142 | succeeds exactly when every row with the id passes its constraints; then each such row becomes its updated form and every other row is kept; a failure is the error of some row with the id |
| CategorySchema.SetColumns | src/services/database/schemas/Category.ts:136-143 | a SET naming a missing column fails with `no such column`; otherwise the UPDATE succeeds exactly when every row with the id passes its constraints, each such row becomes its updated form, every other row is kept, and a failure is the error some row with the id raises; on a valid table a SET of only the sort order and flags always succeeds, NULL and text included; the invariant is kept |
| CategorySchema.GenerateUpdateQuery | src/services/database/schemas/Category.ts:136-143 | the generated statement has one placeholder per field plus one for the id |
| CategorySchema.Delete | src/services/database/schemas/Category.ts:118 | the rows after the DELETE are the stored rows with another id; the invariant holds |
| CategorySchema.FindById | src/services/database/schemas/Category.ts:120 | returns the rows with the id, at most one under unique ids |
| CategorySchema.FindByType | src/services/database/schemas/Category.ts:124 | returns exactly the active rows of the type |
| CategorySchema.FindDefault | src/services/database/schemas/Category.ts:126 | returns exactly the active default rows |
| CategorySchema.SortOrderOrder | src/services/database/schemas/Category.ts:130-134 | ORDER BY sortOrder is a total order over stored values: NULL first, then integers, then text |
| CategorySchema.FindAllOrdered | src/services/database/schemas/Category.ts:130-134 | every row, by ascending sort order |
| CategorySchema.CountAll | src/services/database/schemas/Category.ts:128 | COUNT(*) over the table (a fold adding one per row) equals the number of stored rows |
| CategorySchema.JoinOne | src/services/database/schemas/Budget.ts:145-150 | a LEFT JOIN yields at least one row per left row, all carrying that left row |
| CategorySchema.LeftJoin | src/services/database/schemas/Transaction.ts:106-111 | a LEFT JOIN keeps every left row at least once, and every result row carries a left row |
| CategorySchema.JoinCovers | src/services/database/schemas/Transaction.ts:106-111 | the first left row is matched by the head of the join and every other by its tail |
| CategorySchema.JoinOneUnique | src/services/database/schemas/Transaction.ts:106-111 | with unique category ids a left row is paired with its category, or with NULLs when there is none |
| CategorySchema.Paired | src/services/database/schemas/Transaction.ts:106-111 | the reference pairing: each left row once, with the category its id names |
| CategorySchema.LeftJoinIsPaired | src/services/database/schemas/Transaction.ts:106-111 | with unique category ids the LEFT JOIN is exactly the reference pairing |
| CategorySchema.LeftJoinUnique | src/services/database/schemas/Budget.ts:145-150 | with unique category ids a LEFT JOIN neither drops nor duplicates rows |
| BudgetSchema.SampleBudgets | src/services/database/schemas/Budget.ts:17-58 | two monthly sample budgets, for categories 1 and 2, spanning the current month |
| BudgetSchema.Insert | src/services/database/schemas/Budget.ts:74-93 | succeeds iff every NOT NULL column is given and the period passes the CHECK; otherwise fails on the first missing column; appends under the next id |
| BudgetSchema.Update | src/services/database/schemas/Budget.ts:95-106 | replaces the given fields of the row with the id and keeps the others; fails only on a period the CHECK rejects; other rows untouched |
| BudgetSchema.Delete | src/services/database/schemas/Budget.ts:108 | the rows after the DELETE are the stored rows with another id |
| BudgetSchema.GenerateUpdateQuery | src/services/database/schemas/Budget.ts:162-170 | one placeholder per field plus one for the id |
| BudgetSchema.MonthDescCategoryOrder | src/services/database/schemas/Budget.ts:112 | month descending, then category ascending, is a total order usable by ORDER BY |
| BudgetSchema.MonthDescOrder | src/services/database/schemas/Budget.ts:114 | month descending is a total order |
| BudgetSchema.JoinedOrder | src/services/database/schemas/Budget.ts:145-150 | an order on budgets orders the joined rows too |
| BudgetSchema.FindById | src/services/database/schemas/Budget.ts:110 | the rows with the id, at most one under unique ids |
| BudgetSchema.FindByCategoryId | src/services/database/schemas/Budget.ts:114 | exactly the category's budgets, latest month first |
| BudgetSchema.FindByCategoryAndMonth | src/services/database/schemas/Budget.ts:116 | exactly the budgets of the category and month, by id |
| BudgetSchema.FindByDateRange | src/services/database/schemas/Budget.ts:118-121 | exactly the budgets whose span contains the whole given range |
| BudgetSchema.FindByPeriod | src/services/database/schemas/Budget.ts:123 | exactly the budgets of the period |
| BudgetSchema.FindByMonth | src/services/database/schemas/Budget.ts:125-129 | exactly the month's budgets, by category |
| BudgetSchema.FindActive | src/services/database/schemas/Budget.ts:139-143 | exactly the budgets whose month is not before the given one, latest first |
| BudgetSchema.FindAllWithCategory | src/services/database/schemas/Budget.ts:145-150 | every budget joined with its category, latest month first |
| BudgetSchema.FindByMonthWithCategory | src/services/database/schemas/Budget.ts:131-137 | the month's budgets joined with their categories, by category |
| BudgetSchema.FindByIdWithCategory | src/services/database/schemas/Budget.ts:152-157 | under unique ids, exactly the budget with the id paired with the category its categoryId names (or NULLs); nothing when no budget has the id |
| BudgetSchema.CountAll | src/services/database/schemas/Budget.ts:159 | COUNT(*) over the table (a fold adding one per row) equals the number of stored rows |
| TransactionSchema.SampleTransactions | src/services/database/schemas/Transaction.ts:14-35 | two sample expenses against category 1 and budget 1 and against category 2 and budget 2 |
| TransactionSchema.Insert | src/services/database/schemas/Transaction.ts:53-78 | succeeds iff every NOT NULL column is given and the type passes the CHECK; the description may be NULL; appends under the next id |
| TransactionSchema.Update | src/services/database/schemas/Transaction.ts:80-90 | replaces the given fields of the row with the id and keeps the others; a stored description can never be cleared; fails only on a rejected type |
| TransactionSchema.Delete | src/services/database/schemas/Transaction.ts:92 | the rows after the DELETE are the stored rows with another id |
| TransactionSchema.GenerateUpdateQuery | src/services/database/schemas/Transaction.ts:163-170 | one placeholder per field plus one for the id |
| TransactionSchema.DateDescOrder | src/services/database/schemas/Transaction.ts:96 | date descending is a total order |
| TransactionSchema.NewestFirst | src/services/database/schemas/Transaction.ts:96 | every row, newest first |
| TransactionSchema.FindById | src/services/database/schemas/Transaction.ts:94 | the rows with the id, at most one under unique ids |
| TransactionSchema.FindAll | src/services/database/schemas/Transaction.ts:96 | every row, newest first |
| TransactionSchema.FindByCategoryId | src/services/database/schemas/Transaction.ts:98 | exactly the category's transactions, newest first |
| TransactionSchema.FindByBudgetId | src/services/database/schemas/Transaction.ts:100 | exactly the budget's transactions, newest first |
| TransactionSchema.FindByDateRange | src/services/database/schemas/Transaction.ts:102 | exactly the transactions dated within both ends inclusive, newest first |
| TransactionSchema.FindAllWithCategory | src/services/database/schemas/Transaction.ts:106-111 | every transaction joined with its category, newest first |
| TransactionSchema.FindByDateRangeWithCategory | src/services/database/schemas/Transaction.ts:120-126 | the in-range transactions joined with their categories, newest first |
| TransactionSchema.FindByIdWithCategory | src/services/database/schemas/Transaction.ts:113-118 | under unique ids, exactly the transaction with the id paired with the category its categoryId names (or NULLs); nothing when no transaction has the id |
| TransactionSchema.CountAll | src/services/database/schemas/Transaction.ts:104 | COUNT(*) over the table (a fold adding one per row) equals the number of stored rows |
| TransactionSchema.IncomePlusExpense | src/services/database/schemas/Transaction.ts:128-132 | in a valid table the income total plus the expense total is the sum of all amounts |
| TransactionSchema.NotIncomeIsExpense | src/services/database/schemas/Transaction.ts:61 | under the type CHECK, the rows that are not income are the expense rows |
| TransactionSchema.TotalIgnoresOrder | src/services/database/schemas/Transaction.ts:128-132 | a total by type does not depend on row order |
| TransactionSchema.CategoryIds | src/services/database/schemas/Transaction.ts:143 | the GROUP BY keys: each category id of the rows, once |
| TransactionSchema.CategoryGroups | src/services/database/schemas/Transaction.ts:134-145 | one summary per key, holding that key's total and count |
| TransactionSchema.CategoryGroupsDescribe | src/services/database/schemas/Transaction.ts:134-145 | over distinct keys every group row summarizes its own category and no two rows share a category id |
| TransactionSchema.CategoryGroupsSums | src/services/database/schemas/Transaction.ts:134-145 | the group totals and counts add up to the per-key sums |
| TransactionSchema.CategoryGroupsPositive | src/services/database/schemas/Transaction.ts:134-145 | every group has at least one transaction |
| TransactionSchema.CategoryGroupsCover | src/services/database/schemas/Transaction.ts:134-145 | every transaction's category has a group |
| TransactionSchema.CategoryGroupsTotals | src/services/database/schemas/Transaction.ts:134-145 | the groups' totals add up to the total amount, and their counts to the number of rows |
| TransactionSchema.InRangeGroupsCover | src/services/database/schemas/Transaction.ts:142 | every in-range transaction has its category among the groups |
| TransactionSchema.ReorderedSummaries | src/services/database/schemas/Transaction.ts:144 | ordering the summaries keeps them all and keeps their sums |
| TransactionSchema.SummaryByCategory | src/services/database/schemas/Transaction.ts:134-145 | exactly one row per category id of the in-range rows, each with that category's name, in-range total and count (at least 1); largest total first; totals and counts add up to the in-range rows |
| TransactionSchema.SummaryOf | src/services/database/schemas/Transaction.ts:147-161 | isExceeded is 1 exactly when the spending exceeds the budget amount |
| TransactionSchema.Summaries | src/services/database/schemas/Transaction.ts:147-161 | one summary per budget, in order |
| TransactionSchema.SpendingSummariesSound | src/services/database/schemas/Transaction.ts:147-161 | each summary row comes from a budget with in-range spending |
| TransactionSchema.SpendingSummariesComplete | src/services/database/schemas/Transaction.ts:147-161 | each budget with in-range spending has a summary row |
| TransactionSchema.SpendingSummaryRow | src/services/database/schemas/Transaction.ts:147-161 | gives the position of a spending budget's summary row |
| TransactionSchema.SummaryByBudget | src/services/database/schemas/Transaction.ts:147-161 | as written: each row is the summary of a stored budget with in-range spending, every such budget has a row, under unique budget ids no budget has two rows, and isExceeded iff spent exceeds amount |
| TransactionSchema.SummaryByBudgetAll | src/services/database/schemas/Transaction.ts:147-161 | corrected: one row for every budget, zero spending included |
| TransactionSchema.UnspentBudgetIsDropped | src/services/database/schemas/Transaction.ts:159 | a budget with nothing spent in the range is missing as written and present with 0 in the corrected summary |
| BankBalanceSchema.UniqueMonthsAppend | src/services/database/schemas/BankBalance.ts:46 | adding a row for a month without one keeps one row per month |
| BankBalanceSchema.Insert | src/services/database/schemas/BankBalance.ts:37-53 | succeeds iff every column is given and the month has no row; a taken month fails with the UNIQUE constraint error; appends under the next id |
| BankBalanceSchema.Update | src/services/database/schemas/BankBalance.ts:55-61 | only the two balances of the row with the id change, each kept when not given; it never fails and keeps one row per month |
| BankBalanceSchema.Delete | src/services/database/schemas/BankBalance.ts:68-71 | the rows after the DELETE are the stored rows with another id |
| BankBalanceSchema.FindById | src/services/database/schemas/BankBalance.ts:63-66 | the rows with the id, at most one under unique ids |
| BankBalanceSchema.FindAll | src/services/database/schemas/BankBalance.ts:83-86 | every row, latest month first |
| BankBalanceSchema.FindByYear | src/services/database/schemas/BankBalance.ts:88-92 | exactly the year's rows, by month |
| BankBalanceSchema.FindByYearMonth | src/services/database/schemas/BankBalance.ts:78-81 | the month's rows; under UNIQUE(year, month) that row or nothing |
| BankBalanceSchema.InsertThenFind | src/services/database/schemas/BankBalance.ts:46-53 | after an insert the month's lookup finds exactly the new row |
| BankBalanceSchema.InsertTwiceFails | src/services/database/schemas/BankBalance.ts:46 | inserting the same month twice fails with the UNIQUE constraint error |
| BankBalanceSchema.CountAll | src/services/database/schemas/BankBalance.ts:73-76 | COUNT(*) over the table (a fold adding one per row) equals the number of stored rows |
| BankBalanceSchema.YearOfZeros | src/services/database/repositories/BankBalanceRepository.ts:105-110 | twelve rows, months 1 to 12 of the year, with zero balances |
| CategoryRepository.CreateTable | src/services/database/repositories/CategoryRepository.ts:12-14 | the table exists afterwards and its rows are kept |
| CategoryRepository.CreateIndexes | src/services/database/repositories/CategoryRepository.ts:22-26 | succeeds iff the table exists, adding its three indexes |
| CategoryRepository.Create | src/services/database/repositories/CategoryRepository.ts:48-66 | succeeds iff the table exists and name, icon and a valid type are given; returns the new id with the caller's fields and the clock time; a failure changes nothing |
| CategoryRepository.CreateAll | src/services/database/repositories/CategoryRepository.ts:16-20 | creates each category in turn; succeeds iff all are insertable, adding one row each |
| CategoryRepository.InsertSampleData | src/services/database/repositories/CategoryRepository.ts:16-20 | adds the six default categories whenever the table exists |
| CategoryRepository.FindById | src/services/database/repositories/CategoryRepository.ts:28-31 | the stored row with the id, or null exactly when no row has it |
| CategoryRepository.CreateThenFindById | src/services/database/repositories/CategoryRepository.ts:28-66 | after `create`, `findById` of the returned id reads back the stored category |
| CategoryRepository.FindAll | src/services/database/repositories/CategoryRepository.ts:33-36 | every stored row |
| CategoryRepository.FindAllWithType | src/services/database/repositories/CategoryRepository.ts:38-41 | every stored row, by sort order |
| CategoryRepository.FindByType | src/services/database/repositories/CategoryRepository.ts:43-46 | exactly the active rows of the type |
| CategoryRepository.Count | src/services/database/repositories/CategoryRepository.ts:98-103 | the number of stored rows |
| CategoryRepository.Picked | src/services/database/repositories/CategoryRepository.ts:74-79 | keeps exactly the defined entries whose field is updatable |
| CategoryRepository.SnakeColumns | src/services/database/repositories/CategoryRepository.ts:83 | each kept field is renamed by the snake_case rewrite, its value unchanged |
| CategoryRepository.RunUpdate | src/services/database/repositories/CategoryRepository.ts:83-87 | the UPDATE reports true when it runs and changes nothing when it throws |
| CategoryRepository.Update | src/services/database/repositories/CategoryRepository.ts:68-88 | as written: no kept field gives false without a statement; otherwise the snake_case statement runs |
| CategoryRepository.CamelFieldIsNoColumn | src/services/database/schemas/Category.ts:138 | the rewrite of sortOrder, isDefault or isActive names no column of the table |
| CategoryRepository.NoColumnHasUnderscore | src/services/database/schemas/Category.ts:81-93 | no column of the table contains an underscore |
| CategoryRepository.UpdateOfCamelFieldFails | src/services/database/repositories/CategoryRepository.ts:68-88 | as written, an update touching sortOrder, isDefault or isActive throws and changes nothing |
| CategoryRepository.SnakeIsActive | src/services/database/schemas/Category.ts:138 | isActive is rewritten to is_active |
| CategoryRepository.SingleCamelFieldFails | src/services/database/repositories/CategoryRepository.ts:68-88 | as written, a single camelCase field fails naming its rewritten column |
| CategoryRepository.SingleUnknownFieldFails | src/services/database/repositories/CategoryRepository.ts:68-88 | a single field whose rewritten column is missing fails naming that column |
| CategoryRepository.PickedSingle | src/services/database/repositories/CategoryRepository.ts:74-79 | a single updatable, defined field is kept on its own |
| CategoryRepository.DeactivateFailsAsWritten | src/services/database/repositories/CategoryRepository.ts:68-88 | as written, deactivating a category throws `no such column: is_active` |
| CategoryRepository.UpdateCorrected | src/services/database/repositories/CategoryRepository.ts:68-88 | corrected: the field names are the columns; it succeeds exactly when every row with the id passes its constraints, NOT NULL in column order first; a success gives each such row its updated form (each column its last value), keeps every other row and the invariant; a failure is some such row's error |
| CategoryRepository.SingleAssignment | src/services/database/repositories/CategoryRepository.ts:68-88 | a single assignment to the sort order or a flag on a row the CHECK admits changes exactly that column and updatedAt |
| CategoryRepository.DeactivateSucceedsCorrected | src/services/database/repositories/CategoryRepository.ts:68-88 | corrected: deactivating a stored category succeeds and clears its isActive |
| CategoryRepository.ClearSortOrderCorrected | src/services/database/repositories/CategoryRepository.ts:68-88 | corrected: `{sortOrder: null}` on a stored category succeeds and leaves its sort order NULL |
| CategoryRepository.Delete | src/services/database/repositories/CategoryRepository.ts:90-96 | removes the rows with the id and reports true whenever the table exists |
| CategoryRepository.DeleteThenFindById | src/services/database/repositories/CategoryRepository.ts:28-31 | after `delete`, `findById` of the id finds nothing |
| BudgetRepository.JoinMissing | src/services/database/repositories/BudgetRepository.ts:172-177 | a join fails exactly when budgets or categories is missing |
| BudgetRepository.CreateTable | src/services/database/repositories/BudgetRepository.ts:18-20 | the table exists afterwards and its rows are kept |
| BudgetRepository.CreateIndexes | src/services/database/repositories/BudgetRepository.ts:28-32 | succeeds iff the table exists, adding its four indexes |
| BudgetRepository.FindById | src/services/database/repositories/BudgetRepository.ts:34-40 | the stored row with the id, or null exactly when no row has it |
| BudgetRepository.FindAllWithCategory | src/services/database/repositories/BudgetRepository.ts:42-47 | `findAll` and `findAllWithCategory`: every budget joined with its category, latest month first |
| BudgetRepository.FindAllPairsCategories | src/services/database/repositories/BudgetRepository.ts:172-177 | each listed budget is paired with the category its categoryId names |
| BudgetRepository.FindByCategoryId | src/services/database/repositories/BudgetRepository.ts:116-122 | exactly the category's budgets, latest month first |
| BudgetRepository.FindByCategoryAndMonth | src/services/database/repositories/BudgetRepository.ts:124-130 | exactly the category's budgets of the month, by id |
| BudgetRepository.FindByDateRange | src/services/database/repositories/BudgetRepository.ts:132-138 | exactly the budgets whose span contains the range |
| BudgetRepository.FindByPeriod | src/services/database/repositories/BudgetRepository.ts:140-146 | exactly the budgets of the period |
| BudgetRepository.FindByMonth | src/services/database/repositories/BudgetRepository.ts:148-154 | exactly the month's budgets, by category |
| BudgetRepository.FindByMonthWithCategory | src/services/database/repositories/BudgetRepository.ts:156-162 | the month's budgets with their categories, by category; without the tables it throws the error the join hits first |
| BudgetRepository.GetActiveBudgets | src/services/database/repositories/BudgetRepository.ts:164-170 | exactly the budgets from the given month on, latest first |
| BudgetRepository.FindByIdWithCategory | src/services/database/repositories/BudgetRepository.ts:179-185 | the budget with the id, paired with the category its categoryId names under unique category ids; null exactly when no row has the id; without the tables it throws the error the join hits first |
| BudgetRepository.Count | src/services/database/repositories/BudgetRepository.ts:109-114 | the number of stored rows |
| BudgetRepository.Create | src/services/database/repositories/BudgetRepository.ts:49-82 | succeeds iff the table exists and the budget is insertable; returns the stored row read back by its new id; a failure changes nothing |
| BudgetRepository.CreateAll | src/services/database/repositories/BudgetRepository.ts:22-26 | creates each budget in turn; succeeds iff all are insertable, adding one row each |
| BudgetRepository.InsertSampleData | src/services/database/repositories/BudgetRepository.ts:22-26 | adds the two sample budgets whenever the table exists |
| BudgetRepository.Update | src/services/database/repositories/BudgetRepository.ts:84-99 | the given fields replace the stored ones; true when it runs; fails only on a rejected period |
| BudgetRepository.EmptyUpdateKeepsRow | src/services/database/repositories/BudgetRepository.ts:84-99 | an update giving no field leaves the row's fields as they were |
| BudgetRepository.Delete | src/services/database/repositories/BudgetRepository.ts:101-107 | removes the rows with the id and reports true whenever the table exists |
| BudgetRepository.DeleteThenFindById | src/services/database/repositories/BudgetRepository.ts:34-40 | after `delete`, `findById` of the id finds nothing |
| TransactionRepository.JoinMissing | src/services/database/repositories/TransactionRepository.ts:77-89 | a join fails exactly when transactions or categories is missing |
| TransactionRepository.BudgetJoinMissing | src/services/database/repositories/TransactionRepository.ts:194-200 | the budget summary fails exactly when budgets or transactions is missing |
| TransactionRepository.CreateTable | src/services/database/repositories/TransactionRepository.ts:33-35 | the table exists afterwards and its rows are kept |
| TransactionRepository.CreateIndexes | src/services/database/repositories/TransactionRepository.ts:43-47 | succeeds iff the table exists, adding its three indexes |
| TransactionRepository.Create | src/services/database/repositories/TransactionRepository.ts:49-68 | succeeds iff the table exists and the transaction is insertable; a missing column fails naming it; returns the new id with the caller's fields |
| TransactionRepository.CreateAll | src/services/database/repositories/TransactionRepository.ts:37-41 | creates each transaction in turn; succeeds iff all are insertable, adding one row each |
| TransactionRepository.InsertSampleData | src/services/database/repositories/TransactionRepository.ts:37-41 | adds the two sample transactions whenever the table exists |
| TransactionRepository.FindAll | src/services/database/repositories/TransactionRepository.ts:70-75 | every stored transaction, newest first |
| TransactionRepository.FindAllWithCategory | src/services/database/repositories/TransactionRepository.ts:77-89 | never throws: every transaction with its category, newest first, or nothing when a table is missing |
| TransactionRepository.FindById | src/services/database/repositories/TransactionRepository.ts:91-97 | the stored row with the id, or null exactly when no row has it |
| TransactionRepository.FindByIdWithCategory | src/services/database/repositories/TransactionRepository.ts:99-105 | the transaction with the id, paired with the category its categoryId names under unique category ids; null exactly when no row has the id |
| TransactionRepository.Count | src/services/database/repositories/TransactionRepository.ts:131-136 | the number of stored rows |
| TransactionRepository.FindByCategoryId | src/services/database/repositories/TransactionRepository.ts:138-144 | exactly the category's transactions, newest first |
| TransactionRepository.FindByBudgetId | src/services/database/repositories/TransactionRepository.ts:146-152 | exactly the budget's transactions, newest first |
| TransactionRepository.FindByDateRange | src/services/database/repositories/TransactionRepository.ts:154-160 | exactly the transactions dated within both ends, newest first |
| TransactionRepository.FindByDateRangeWithCategory | src/services/database/repositories/TransactionRepository.ts:162-168 | the in-range transactions with their categories, newest first |
| TransactionRepository.GetTotalIncome | src/services/database/repositories/TransactionRepository.ts:170-176 | the sum of the income amounts, 0 when there is no income |
| TransactionRepository.GetTotalExpense | src/services/database/repositories/TransactionRepository.ts:178-184 | the sum of the expense amounts, 0 when there is no expense |
| TransactionRepository.TotalsAddUp | src/services/database/repositories/TransactionRepository.ts:170-184 | income total plus expense total is the sum of every stored amount |
| TransactionRepository.CreateAddsToTotal | src/services/database/repositories/TransactionRepository.ts:49-68 | a created transaction adds its amount to its own type's total and leaves the other's |
| TransactionRepository.GetSummaryByCategory | src/services/database/repositories/TransactionRepository.ts:186-192 | one row per in-range category id, none repeated, each with the category's name, in-range total and count; largest first; totals and counts add up to the in-range rows |
| TransactionRepository.GetSummaryByBudget | src/services/database/repositories/TransactionRepository.ts:194-200 | as written: each row is the summary (name, amount, in-range spending) of a stored budget with in-range spending, every such budget has a row, under unique budget ids no budget has two rows, and isExceeded iff spent exceeds amount |
| TransactionRepository.Update | src/services/database/repositories/TransactionRepository.ts:107-121 | the given fields replace the stored ones; true when it runs; fails only on a rejected type |
| TransactionRepository.UpdateThenFindById | src/services/database/repositories/TransactionRepository.ts:91-121 | after updating the amount, `findById` reads the new amount |
| TransactionRepository.Delete | src/services/database/repositories/TransactionRepository.ts:123-129 | removes the rows with the id and reports true whenever the table exists |
| TransactionRepository.CreateThenFindById | src/services/database/repositories/TransactionRepository.ts:49-97 | after `create`, `findById` of the returned id reads the stored row |
| TransactionRepository.DeleteThenFindById | src/services/database/repositories/TransactionRepository.ts:91-129 | after `delete`, `findById` of the id finds nothing |
| BankBalanceRepository.CreateTable | src/services/database/repositories/BankBalanceRepository.ts:12-14 | the table exists afterwards and its rows are kept |
| BankBalanceRepository.CreateIndexes | src/services/database/repositories/BankBalanceRepository.ts:22-26 | succeeds iff the table exists, adding its index |
| BankBalanceRepository.FindById | src/services/database/repositories/BankBalanceRepository.ts:28-34 | the stored row with the id, or null exactly when no row has it |
| BankBalanceRepository.FindAll | src/services/database/repositories/BankBalanceRepository.ts:36-41 | every month, latest first |
| BankBalanceRepository.FindByYear | src/services/database/repositories/BankBalanceRepository.ts:92-98 | exactly the year's months in month order, non-empty iff the year has a row |
| BankBalanceRepository.FindByYearMonth | src/services/database/repositories/BankBalanceRepository.ts:84-90 | the month's row, null exactly when the month has none |
| BankBalanceRepository.Count | src/services/database/repositories/BankBalanceRepository.ts:77-82 | the number of stored rows |
| BankBalanceRepository.Create | src/services/database/repositories/BankBalanceRepository.ts:43-59 | succeeds iff the table exists, every column is given and the month is free; a taken month fails on UNIQUE; returns the row read back by its new id |
| BankBalanceRepository.InsertedReadsBack | src/services/database/repositories/BankBalanceRepository.ts:43-59 | after the insert, reading by the insert id finds the new row |
| BankBalanceRepository.CreateAddsItsMonth | src/services/database/repositories/BankBalanceRepository.ts:43-59 | a created month is the one month that gains a row |
| BankBalanceRepository.InsertSampleData | src/services/database/repositories/BankBalanceRepository.ts:16-20 | adds July and August 2025 when both are free; fails on UNIQUE, changing nothing, when July is taken; when only August is taken it stores July and then fails on UNIQUE |
| BankBalanceRepository.InsertEach | src/services/database/repositories/BankBalanceRepository.ts:112-119 | inserts each month in turn; succeeds iff they are all new and pairwise different, storing them under consecutive ids |
| BankBalanceRepository.AppendOtherMonth | src/services/database/repositories/BankBalanceRepository.ts:112-119 | adding a row of another month does not give a month a row |
| BankBalanceRepository.InsertEachStep | src/services/database/repositories/BankBalanceRepository.ts:112-119 | after the first insert of a run, the rest of the run is new exactly when the whole run was |
| BankBalanceRepository.InitializeYear | src/services/database/repositories/BankBalanceRepository.ts:100-124 | a year that already has a row is left alone; a missing table fails |
| BankBalanceRepository.InitializeYearAddsTwelveMonths | src/services/database/repositories/BankBalanceRepository.ts:100-124 | outside a transaction a year without rows gets its twelve zero months committed |
| BankBalanceRepository.InitializeYearInsideTransaction | src/services/database/repositories/BankBalanceRepository.ts:112-119 | inside an open transaction a new year fails at BEGIN and the outer work is rolled back |
| BankBalanceRepository.InitializeYearIdempotent | src/services/database/repositories/BankBalanceRepository.ts:100-124 | opening a year twice is the same as opening it once |
| BankBalanceRepository.Update | src/services/database/repositories/BankBalanceRepository.ts:61-67 | only the balances change, true whenever the table exists |
| BankBalanceRepository.UpdateKeepsMonths | src/services/database/repositories/BankBalanceRepository.ts:61-67 | an update moves no row to another month |
| BankBalanceRepository.Delete | src/services/database/repositories/BankBalanceRepository.ts:69-75 | removes the rows with the id and reports true whenever the table exists |
| BankBalanceRepository.DeleteThenFindById | src/services/database/repositories/BankBalanceRepository.ts:28-34 | after `delete`, `findById` of the id finds nothing |
| BankBalanceRepository.CreateThenFindByYearMonth | src/services/database/repositories/BankBalanceRepository.ts:43-90 | after `create`, `findByYearMonth` of its month reads the created row |
| CreateTables.RepositoriesFollowSchemas | src/services/database/services/createTables.ts:6-11 | the repositories are visited in the order of the table registry |
| CreateTables.SeedOf | src/services/database/services/createTables.ts:20 | a repository's seeding touches only its own table, fails without it, and adds its sample rows |
| CreateTables.CreateIndexesOf | src/services/database/services/createTables.ts:57 | a repository's indexes are created iff its table exists |
| CreateTables.CreateTablesFrom | src/services/database/services/createTables.ts:16-22 | the loop lists the tables it visits and, without seeding, does nothing else |
| CreateTables.CreateTables | src/services/database/services/createTables.ts:13-23 | on success all four tables exist; without seeding nothing else changes; no index is made |
| CreateTables.SeedAll | src/services/database/services/createTables.ts:32-36 | seeding never changes the tables or indexes |
| CreateTables.InsertSampleData | src/services/database/services/createTables.ts:25-51 | `insertSampleData` and `insertSampleDataWithCheck` never seed: they return at once when categories exists and throw otherwise |
| CreateTables.CreateIndexFrom | src/services/database/services/createTables.ts:55-58 | the index loop succeeds iff every visited table exists |
| CreateTables.CreateIndex | src/services/database/services/createTables.ts:53-59 | succeeds iff all four tables exist, adding exactly the registry's indexes |
| CreateTables.AllTablesCons | src/services/database/services/createTables.ts:55-58 | all tables of a list exist iff the first does and all of the rest do |
| CreateTables.IndexNamesAppend | src/services/database/schemas/index.ts:33-38 | the index names of two lists are the union of their names |
| CreateTables.RepositoryIndexesAreSchemasIndexes | src/services/database/schemas/index.ts:33-38 | the repositories' indexes are exactly the registry's indexes |
| CreateTables.FromCons | src/services/database/services/createTables.ts:16-22 | a loop turn that succeeds hands over to the rest of the loop |
| CreateTables.FromConsFails | src/services/database/services/createTables.ts:16-22 | a loop turn that fails ends the loop |
| CreateTables.SeedingCreateTables | src/services/database/services/createTables.ts:13-23 | seeding on a database without the sample months creates all tables and adds 6 categories, 2 budgets, 2 balances and 2 transactions |
| CreateTables.VisitCategories | src/services/database/services/createTables.ts:18-21 | the first turn creates categories and adds the six defaults |
| CreateTables.VisitBudgets | src/services/database/services/createTables.ts:18-21 | the second turn creates budgets and adds the two samples |
| CreateTables.VisitBankBalances | src/services/database/services/createTables.ts:18-21 | the third turn creates bank_balances and adds the two sample months |
| CreateTables.VisitTransactions | src/services/database/services/createTables.ts:18-21 | the last turn creates transactions and adds the two samples |
| CreateTables.SeedingAgainFails | src/services/database/services/createTables.ts:13-23 | seeding again, with July 2025 taken, fails on UNIQUE after adding categories and budgets again |
| CreateTables.SeedingAugustTakenFails | src/services/database/services/createTables.ts:13-23 | seeding with only August 2025 taken adds categories, budgets and July again, then fails on UNIQUE before the transactions |
| CreateTables.SeedingOutcomes | src/services/database/services/createTables.ts:13-23 | the three outcomes of seeding together: both months free, July taken, only August taken |
| CreateTables.InitializeDatabaseFull | src/services/database/services/createTables.ts:61-78 | throws without a connection; on a database without the sample months it creates and seeds all four tables and adds every index; with July 2025 taken it adds categories and budgets again, then fails on UNIQUE; with only August taken it also stores July before failing on UNIQUE |
| CreateTables.InitializeTwiceFails | src/services/database/services/createTables.ts:61-78 | as written, a second run duplicates categories and budgets and then fails on the bank-balance UNIQUE constraint |
| CreateTables.InitializeDatabaseOnce | src/services/database/services/createTables.ts:61-78 | corrected: when categories already has rows nothing is seeded; a success leaves categories non-empty |
| CreateTables.SeedAllSeedsCategories | src/services/database/services/createTables.ts:32-36 | seeding all four repositories leaves the six default categories |
| CreateTables.InitializeOnceIsIdempotent | src/services/database/services/createTables.ts:61-78 | corrected: a second run changes nothing and succeeds |
| ImportService.ImportEach | src/services/import/ImportService.ts:82-89 | every record is either created or leaves one message, which carries the list's label |
| ImportService.ImportEachSplit | src/services/import/ImportService.ts:82-89 | importing two lists one after another is importing their concatenation |
| ImportService.ImportEachAllFail | src/services/import/ImportService.ts:82-89 | when every record fails, nothing is created and one message is left per record |
| ImportService.Group | src/services/import/ImportService.ts:80-90 | an absent or empty list is skipped; otherwise each record is created or reported |
| ImportService.CountLabelled | src/services/import/ImportService.ts:87-126 | counts the messages carrying a label, never more than there are |
| ImportService.CountLabelledAppend | src/services/import/ImportService.ts:87-126 | labelled counts add over concatenation |
| ImportService.CountLabelledUniform | src/services/import/ImportService.ts:87-126 | messages all under one label count fully under it and not under a different one |
| ImportService.LabelsDiffer | src/services/import/ImportService.ts:87-126 | the four labels are told apart by their third character |
| ImportService.CountUnderLabels | src/services/import/ImportService.ts:87-126 | a message under one of the four labels counts under that label only |
| ImportService.CountByLabel | src/services/import/ImportService.ts:87-126 | the messages of the four lists sort back into the lists by their labels |
| ImportService.ImportData | src/services/import/ImportService.ts:63-144 | throws without a connection; otherwise success iff no record failed, per-list counts plus failures equal the list lengths, and the message reports the total |
| ImportService.ImportReportsTotal | src/services/import/ImportService.ts:131-136 | the message names the number of records created |
| ImportService.SummaryReadsBack | src/services/import/ImportService.ts:131-136 | the message is its prefix, the decimal count and the suffix, and the count reads back |
| ImportService.ImportNothing | src/services/import/ImportService.ts:80-136 | an empty document imports nothing, succeeds and leaves the database as it was |
| ImportService.ImportWithoutTables | src/services/import/ImportService.ts:63-144 | without the four tables every record fails, nothing is created and the database is unchanged |
| ImportService.NoTableNoCreate | src/services/import/ImportService.ts:84-123 | without its table every repository's `create` fails and changes nothing |
| ImportService.GroupAllFail | src/services/import/ImportService.ts:80-90 | a list whose every record fails adds no count and one message per record |
| ImportService.ImportEachCategory | src/services/import/ImportService.ts:80-90 | well-formed categories into an existing table are all created with no message |
| ImportService.Failure | src/services/import/ImportService.ts:50-57 | a failure before importing reports nothing created and the one message |
| ImportService.ImportFromFile | src/services/import/ImportService.ts:45-58 | never throws: a parse error or a missing connection becomes a failed report; otherwise the import's report |

## Left out

- The sql.js engine itself, loading its WebAssembly from the CDN, and SQL text parsing are not modelled. Each statement is modelled by its effect on the rows. The engine's error messages are fixed strings in SQLite's wording.
- `getInstance` and the module-level singletons are not modelled. The service is a value passed to each operation.
- Asynchronous scheduling and `await` are not modelled: every operation runs to completion in order. Console logging is left out.
- The clock is a parameter: `CURRENT_TIMESTAMP`, `new Date().toISOString()` and the current month used by the budget samples.
- Money amounts are integers. The source uses JavaScript numbers, so floating-point rounding is not modelled.
- `importFromFile` gets the result of `file.text()` and `JSON.parse` as a parameter. File reading and JSON parsing are not modelled.
- The outer `catch` of `importData` (src/services/import/ImportService.ts:137-141) is not modelled. Every statement inside it already has its own `catch`.
- Listener callbacks are identities. What a callback does when it runs is not modelled.
- Writes made by the repositories go straight to the session (`Connection.Write`), not through the service. The change events of those writes are stated for `Connection.ExecuteQuery` only.
- Table names are assumed free of quotes. `checkTableExists` splices the name into its SQL text.
- Binding of `undefined` is an assumption of this model. A field that is absent from an entity reaches the statement as JavaScript `undefined`, and the model binds it as NULL. The COALESCE statements and the NOT NULL constraints are written for that reading. The sql.js binding code is not part of this model, and it may reject `undefined` with a thrown string instead. The members whose contracts rest on this assumption are BudgetRepository.Update, TransactionRepository.Update and BankBalanceRepository.Update (a partial patch keeps the stored values), BudgetRepository.EmptyUpdateKeepsRow, TransactionRepository.UpdateThenFindById and BankBalanceRepository.UpdateKeepsMonths. The assumption also covers the NOT NULL error of a create with a missing field in CategoryRepository.Create, BudgetRepository.Create, TransactionRepository.Create and BankBalanceRepository.Create, a transaction created without a description, and the messages ImportService.ImportData reports for such records.
- Type affinity is modelled only for the six columns of categories that an update can assign, the only columns that can receive a value of another type: TEXT affinity for `name`, `icon` and `type` (CategorySchema.TextCellOf, which stores a number or boolean as its decimal text) and INTEGER affinity for `sortOrder`, `isDefault` and `isActive` (CategorySchema.IntegerCell). In the latter a text is converted only when it is decimal digits after an optional minus sign. Other texts SQLite would also convert, such as `' 5'`, `'+5'` or `'2.0'`, are kept as text. The other columns hold values of the types the TypeScript interfaces declare. A value of another type, from an untyped import file say, is not modelled.
- `getDatabase`, the React components, hooks, forms and the Vite configuration are not part of this model.
- `insertSampleDataWithCheck` has the same body as `insertSampleData` and shares its member, `CreateTables.InsertSampleData`.
- ORDER BY ties are unspecified in SQLite. The contracts promise only the order and a permutation of the selected rows.
- Text.Upper: `toUpperCase` is modelled only for the ASCII letters and the long s; every other character is left unchanged. Among single characters that upper-case to a letter of SELECT, only those are known.
- BankBalanceRepository.InitializeYear: its contract states only the missing-table case and the case of a year that already has rows. The insertion case is stated by `InitializeYearAddsTwelveMonths`, `InitializeYearInsideTransaction` and `InitializeYearIdempotent`.
- TransactionRepository.GetTotalIncome: its contract states only the zero case. The value is related to the stored amounts by `TotalsAddUp` and `CreateAddsToTotal`.
- TransactionRepository.GetTotalExpense: its contract states only the zero case. The value is related to the stored amounts by `TotalsAddUp` and `CreateAddsToTotal`.

## Findings

| source | as written | input that shows it | evidently intended | confidence | as-written member | corrected member |
|---|---|---|---|---|---|---|
| src/services/database/services/createTables.ts:61-78 | `createTables(db, true)` seeds every table before the "data exists" guard runs. The guard only checks that the categories table exists. | Call `initializeDatabaseFull` twice on one database. The second run adds six categories and two budgets again, then throws on `UNIQUE(year, month)` for July 2025. | Seed only when no data exists, so that a second run changes nothing. | not executed | CreateTables.InitializeTwiceFails | CreateTables.InitializeOnceIsIdempotent |
| src/services/database/schemas/Category.ts:136-143 | `generateUpdateQuery` rewrites field names to snake_case. The columns are named in camelCase (`sortOrder`, `isDefault`, `isActive`). | `update(id, { isActive: false })` throws `no such column: is_active`. | Use the field names as the column names. | not executed | CategoryRepository.DeactivateFailsAsWritten | CategoryRepository.DeactivateSucceedsCorrected |
| src/services/database/schemas/Transaction.ts:147-161 | The date condition sits in the WHERE after the LEFT JOIN. This removes the NULL-extended rows. | A budget with no transaction in the range is missing from `getSummaryByBudget`, rather than showing `totalSpent = 0`. | Put the date condition in the ON clause, so that every budget gets a row. | not executed | TransactionSchema.UnspentBudgetIsDropped | TransactionSchema.SummaryByBudgetAll |
