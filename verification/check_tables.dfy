/** The probes run directly against a sql.js database: does a table exist, does
    the data probe answer, is the database initialized, do all four tables exist. */
module CheckTables {
  import opened Wrappers
  import opened Values
  import opened Store
  import Schemas
  import CategorySchema

  const InfoTable: string := "database_info"

  /** `SELECT name FROM sqlite_master WHERE type='table' AND name='<name>'` as sql.js
      `exec` answers it. The name is spliced into the text; a name containing a
      quote is not modelled. */
  function CatalogQuery(d: Data, name: string): (r: seq<ResultSet>)
    ensures |r| > 0 <==> name in d.tables
    ensures |r| > 0 ==> r[0].values == [[Str(name)]]
  {
    ExecResult(["name"], if name in d.tables then [[Str(name)]] else [])
  }

  /** sql.js answered with at least one row. */
  predicate HasRows(r: seq<ResultSet>) {
    |r| > 0 && |r[0].values| > 0
  }

  /** `checkTableExists`: the catalog lists a table of that name. */
  function CheckTableExists(d: Data, name: string): (r: bool)
    ensures r <==> name in d.tables
  {
    HasRows(CatalogQuery(d, name))
  }

  /** `checkIfDataExists`: the category count probe produced a row. Since an
      aggregate always yields one row, this holds whenever the `categories` table
      exists, even when it is empty; without the table the probe throws. */
  function CheckIfDataExists(d: Data): (r: Result<bool>)
    ensures r.Ok? <==> CategorySchema.TableName in d.tables
    ensures r.Ok? ==> r.value
    ensures r.Err? ==> r.error == NoSuchTable(CategorySchema.TableName)
  {
    match Schemas.CheckTablesExists(d)
    case Err(e) => Err(e)
    case Ok(res) => Ok(HasRows(res))
  }

  /** `SELECT value FROM database_info WHERE key='version'` as sql.js answers it. */
  function VersionQuery(d: Data): (r: Result<seq<ResultSet>>)
    ensures r.Ok? <==> InfoTable in d.tables
    ensures r.Ok? ==> (|r.value| > 0 <==> d.version.Some?)
  {
    if InfoTable !in d.tables then Err(NoSuchTable(InfoTable))
    else Ok(ExecResult(["value"], if d.version.Some? then [[Str(d.version.value)]] else []))
  }

  /** `checkIsDatabaseInitialized`: false without a `database_info` table or
      without its version row; otherwise the data probe's answer, where a thrown
      error also counts as false. */
  function CheckIsDatabaseInitialized(d: Data): (r: bool)
    ensures r <==> InfoTable in d.tables && d.version.Some? && CategorySchema.TableName in d.tables
  {
    if |CatalogQuery(d, InfoTable)| == 0 then false
    else
      match VersionQuery(d)
      case Err(_) => false
      case Ok(versions) =>
        if |versions| == 0 then false
        else
          match CheckIfDataExists(d)
          case Err(_) => false
          case Ok(b) => b
  }

  /** `checkTableExistsAll`: asks the catalog for each key of `SCHEMAS` in turn and
      stops at the first one missing. */
  method CheckTableExistsAll(d: Data) returns (r: bool)
    ensures r <==> forall i | 0 <= i < |Schemas.TableNames| :: Schemas.TableNames[i] in d.tables
  {
    var names := Schemas.TableNames;
    for i := 0 to |names|
      invariant forall k | 0 <= k < i :: names[k] in d.tables
    {
      var result := CatalogQuery(d, names[i]);
      if |result| == 0 || |result[0].values| == 0 {
        return false;
      }
    }
    return true;
  }
}
