/** The registry of the four tables: their creation order, the combined index
    list, the schema version and the statement used to probe for data. */
module Schemas {
  import opened Wrappers
  import opened Values
  import opened Tables
  import opened Store
  import CategorySchema
  import BudgetSchema
  import TransactionSchema
  import BankBalanceSchema

  /** `SCHEMA_VERSIONS.v1`. */
  const VersionOne: string := "1.0.0"

  /** `SCHEMAS_VERSION`. */
  const SchemasVersion: string := "1.0.0"

  /** The keys of `SCHEMAS`, in order: tables without foreign keys first. */
  const TableNames: seq<string> :=
    [CategorySchema.TableName, BudgetSchema.TableName, BankBalanceSchema.TableName, TransactionSchema.TableName]

  /** `SCHEMAS_INDEXES`. */
  const SchemasIndexes: seq<IndexDef> :=
    CategorySchema.Indexes + TransactionSchema.Indexes + BudgetSchema.Indexes + BankBalanceSchema.Indexes

  /** The four tables in order, the eleven indexes with distinct names, each on one
      of the four tables, and both version constants agreeing. */
  lemma RegistryFacts()
    ensures TableNames == ["categories", "budgets", "bank_balances", "transactions"]
    ensures |SchemasIndexes| == 11
    ensures forall i, j | 0 <= i < j < |SchemasIndexes| :: SchemasIndexes[i].name != SchemasIndexes[j].name
    ensures forall i | 0 <= i < |SchemasIndexes| :: SchemasIndexes[i].table in TableNames
    ensures SchemasVersion == VersionOne == "1.0.0"
  {
  }

  /** `CHECK_TABLES_EXISTS`, the Category `COUNT_ALL` statement, as sql.js `exec`
      answers it: an aggregate always yields one row, so there is one result set
      whenever the `categories` table exists, whatever it holds. */
  function CheckTablesExists(d: Data): (r: Result<seq<ResultSet>>)
    ensures r.Err? <==> CategorySchema.TableName !in d.tables
    ensures r.Err? ==> r.error == NoSuchTable(CategorySchema.TableName)
    ensures r.Ok? ==> |r.value| == 1 && r.value[0].values == [[Num(|d.categories.rows|)]]
  {
    if CategorySchema.TableName !in d.tables then Err(NoSuchTable(CategorySchema.TableName))
    else Ok(ExecResult(["count"], [[Num(CategorySchema.CountAll(d.categories.rows))]]))
  }
}
