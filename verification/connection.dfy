/** `DatabaseService`: the one connection of the application. It is open or
    closed, keeps a set of listeners per change event, classifies each statement
    as a read or a write by its text, announces writes by the table names their
    text mentions, and wraps callbacks in BEGIN/COMMIT/ROLLBACK. */
module Connection {
  import opened Wrappers
  import opened Values
  import opened Store
  import Text
  import Schemas
  import CheckTables
  import CategorySchema

  datatype Event = TransactionUpdated | BudgetUpdated | CategoryUpdated

  /** The identity of a registered callback. What a callback does when called is
      outside the model; only which callbacks are called is. */
  type Listener = int

  /** The service: the open database (None once closed or before `initialize`),
      the listeners of each event, and the guard of `resetDatabase`. */
  datatype Service = Service(session: Option<Session>, listeners: map<Event, set<Listener>>, isResetting: bool)

  const Initial: Service := Service(None, map[], false)

  /** A statement as handed to `executeQuery`: its text, and what the engine does
      with it on the write path (`run`) and on the read path (`exec`), parameters
      bound. */
  datatype Statement = Statement(text: string, run: Data -> Result<Effect>, exec: Data -> Result<seq<ResultSet>>)

  /** A result row as a JavaScript object from column name to value. */
  type Object = map<string, Value>

  /** `DatabaseQueryResult`. */
  datatype QueryResult = QueryResult(rows: seq<Object>, length: nat, changes: Option<int>, insertId: Option<int>)

  /** What one `executeQuery` call leaves: the service, the result or the thrown
      error, the event emitted, and the listeners that event called. */
  datatype Reply = Reply(service: Service, result: Result<QueryResult>, event: Option<Event>, notified: set<Listener>)

  // ---------------------------------------------------------------------------
  // Classifying statements

  /** `query.trim().toUpperCase().startsWith('SELECT')`. */
  predicate IsRead(text: string) {
    Text.StartsWith(Text.Upper(Text.Trim(text)), "SELECT")
  }

  /** The keyword SELECT, in any letter case, at position `k`. */
  predicate SelectAt(text: string, k: int)
    requires 0 <= k <= |text| - 6
  {
    forall j | 0 <= j < 6 :: Text.UpperChar(text[k + j]) == "SELECT"[j]
  }

  lemma FirstNonSpace(text: string, k: int)
    requires 0 <= k < |text| && !Text.IsSpace(text[k])
    requires forall i | 0 <= i < k :: Text.IsSpace(text[i])
    ensures Text.TrimStart(text) == text[k..]
  {
    var t := Text.TrimStart(text);
    var m := |text| - |t|;
    assert m <= k;
    assert m == k;
  }

  /** Reads take the keyword after the leading white space. */
  lemma ReadHasSelect(text: string) returns (k: int)
    requires IsRead(text)
    ensures 0 <= k <= |text| - 6 && SelectAt(text, k)
    ensures forall i | 0 <= i < k :: Text.IsSpace(text[i])
  {
    var t := Text.TrimStart(text);
    k := |text| - |t|;
    var u := Text.TrimEnd(t);
    assert Text.Upper(u)[..6] == "SELECT";
    assert forall j | 0 <= j < 6 :: Text.Upper(u)[j] == "SELECT"[j];
    assert forall j | 0 <= j < 6 :: u[j] == t[j] == text[k + j];
  }

  /** The keyword after leading white space makes a read, whatever follows it. */
  lemma SelectIsRead(text: string, k: int)
    requires 0 <= k <= |text| - 6 && SelectAt(text, k)
    requires forall i | 0 <= i < k :: Text.IsSpace(text[i])
    ensures IsRead(text)
  {
    assert Text.UpperChar(text[k + 0]) == "SELECT"[0] == 'S';
    FirstNonSpace(text, k);
    var t := text[k..];
    var u := Text.TrimEnd(t);
    assert Text.UpperChar(text[k + 5]) == "SELECT"[5] == 'T';
    assert t[5] == text[k + 5];
    assert |u| >= 6;
    var up := Text.Upper(u);
    assert forall j | 0 <= j < 6 :: up[j] == Text.UpperChar(text[k + j]) == "SELECT"[j];
    assert up[..6] == "SELECT";
  }

  /** A statement takes the read path exactly when, after leading white space,
      it begins with the six letters of SELECT in any case; trailing white space
      and what follows the keyword do not matter. */
  lemma ReadMeansSelectFirst(text: string)
    ensures IsRead(text) <==>
      exists k | 0 <= k <= |text| - 6 :: (forall i | 0 <= i < k :: Text.IsSpace(text[i])) && SelectAt(text, k)
  {
    if IsRead(text) {
      var k := ReadHasSelect(text);
    }
    if exists k | 0 <= k <= |text| - 6 :: (forall i | 0 <= i < k :: Text.IsSpace(text[i])) && SelectAt(text, k) {
      var k :| 0 <= k <= |text| - 6 && (forall i | 0 <= i < k :: Text.IsSpace(text[i])) && SelectAt(text, k);
      SelectIsRead(text, k);
    }
  }

  /** The one event a successful write announces: the first of "transactions",
      "budgets", "categories" that its text contains, in that priority. */
  function EventFor(text: string): (r: Option<Event>)
    ensures r == Some(TransactionUpdated) <==> Text.Contains(text, "transactions")
    ensures r == Some(BudgetUpdated) <==> !Text.Contains(text, "transactions") && Text.Contains(text, "budgets")
    ensures r == Some(CategoryUpdated) <==>
      !Text.Contains(text, "transactions") && !Text.Contains(text, "budgets") && Text.Contains(text, "categories")
  {
    if Text.Contains(text, "transactions") then Some(TransactionUpdated)
    else if Text.Contains(text, "budgets") then Some(BudgetUpdated)
    else if Text.Contains(text, "categories") then Some(CategoryUpdated)
    else None
  }

  /** A write whose text names none of the three tables (every `bank_balances`
      statement, for one) announces nothing. */
  lemma SilentWithoutTableName(text: string)
    requires !Text.Contains(text, "transactions") && !Text.Contains(text, "budgets") && !Text.Contains(text, "categories")
    ensures EventFor(text).None?
  {
  }

  // ---------------------------------------------------------------------------
  // Listeners

  /** The listeners registered for an event. */
  function Registered(svc: Service, e: Event): set<Listener> {
    if e in svc.listeners then svc.listeners[e] else {}
  }

  /** `on`: adds the callback to the event's set. */
  function On(svc: Service, e: Event, l: Listener): (r: Service)
    ensures Registered(r, e) == Registered(svc, e) + {l}
    ensures forall f | f != e :: Registered(r, f) == Registered(svc, f)
    ensures r.session == svc.session && r.isResetting == svc.isResetting
  {
    svc.(listeners := svc.listeners[e := Registered(svc, e) + {l}])
  }

  /** `off`: removes the callback from the event's set, if the event has one. */
  function Off(svc: Service, e: Event, l: Listener): (r: Service)
    ensures Registered(r, e) == Registered(svc, e) - {l}
    ensures forall f | f != e :: Registered(r, f) == Registered(svc, f)
    ensures r.session == svc.session && r.isResetting == svc.isResetting
  {
    if e in svc.listeners then svc.(listeners := svc.listeners[e := svc.listeners[e] - {l}]) else svc
  }

  /** `emit`: the callbacks called, each once. */
  function Emit(svc: Service, e: Option<Event>): set<Listener> {
    if e.None? then {} else Registered(svc, e.value)
  }

  /** Registering twice is registering once, and `off` undoes `on`. */
  lemma ListenersAreSets(svc: Service, e: Event, l: Listener)
    ensures Registered(On(On(svc, e, l), e, l), e) == Registered(On(svc, e, l), e)
    ensures l in Emit(On(svc, e, l), Some(e))
    ensures l !in Emit(Off(On(svc, e, l), e, l), Some(e))
    ensures l !in Registered(svc, e) ==> Registered(Off(On(svc, e, l), e, l), e) == Registered(svc, e)
  {
  }

  // ---------------------------------------------------------------------------
  // executeQuery

  /** A cell of a result row; a column beyond the row reads as `undefined`. */
  function Cell(row: seq<Value>, i: nat): Value {
    if i < |row| then row[i] else Undefined
  }

  /** No later column has the same name as column `j`. */
  predicate LastOf(columns: seq<string>, j: int)
    requires 0 <= j < |columns|
  {
    forall k | j < k < |columns| :: columns[k] != columns[j]
  }

  /** `columns.forEach((col, index) => obj[col] = row[index])`. */
  function ObjectOf(columns: seq<string>, row: seq<Value>): Object
    decreases |columns|
  {
    if |columns| == 0 then map[]
    else ObjectOf(columns[..|columns| - 1], row)[columns[|columns| - 1] := Cell(row, |columns| - 1)]
  }

  /** The object has one key per column name, and holds under each name the
      value of the last column with that name. */
  lemma {:induction false} ObjectOfColumns(columns: seq<string>, row: seq<Value>)
    ensures forall c :: c in ObjectOf(columns, row) <==> c in columns
    ensures forall j | 0 <= j < |columns| && LastOf(columns, j) :: ObjectOf(columns, row)[columns[j]] == Cell(row, j)
    decreases |columns|
  {
    if |columns| > 0 {
      var n := |columns| - 1;
      var init := columns[..n];
      ObjectOfColumns(init, row);
      assert columns == init + [columns[n]];
      forall j | 0 <= j < n && LastOf(columns, j)
        ensures ObjectOf(columns, row)[columns[j]] == Cell(row, j)
      {
        assert init[j] == columns[j];
        assert LastOf(init, j);
      }
    }
  }

  /** The rows of the read path as objects. */
  function Objects(sets: seq<ResultSet>): (r: seq<Object>)
    ensures |sets| == 0 ==> r == []
    ensures |sets| > 0 ==> |r| == |sets[0].values|
    ensures |sets| > 0 ==> forall i | 0 <= i < |r| :: r[i] == ObjectOf(sets[0].columns, sets[0].values[i])
  {
    if |sets| == 0 then []
    else seq(|sets[0].values|, i requires 0 <= i < |sets[0].values| => ObjectOf(sets[0].columns, sets[0].values[i]))
  }

  /** The write path on an open connection: the engine runs the statement; on
      success the result reports no rows, one change whether or not a row
      matched, and `last_insert_rowid()` as the insert id. A failed statement
      changes nothing. */
  function Write(s: Session, run: Data -> Result<Effect>): (r: Step<QueryResult>)
    ensures r.result.Ok? <==> run(s.data).Ok?
    ensures r.result.Err? ==> r.session == s && r.result.error == run(s.data).error
    ensures r.result.Ok? ==> r.session.data == run(s.data).value.data && r.session.saved == s.saved
    ensures r.result.Ok? ==> r.result.value.rows == [] && r.result.value.length == 0 && r.result.value.changes == Some(1)
    ensures r.result.Ok? ==> r.result.value.insertId == Some(r.session.lastRowId)
    ensures r.result.Ok? && run(s.data).value.rowid.Some? ==> r.session.lastRowId == run(s.data).value.rowid.value
    ensures r.result.Ok? && run(s.data).value.rowid.None? ==> r.session.lastRowId == s.lastRowId
  {
    match run(s.data)
    case Err(e) => Step(s, Err(e))
    case Ok(eff) =>
      var last := if eff.rowid.Some? then eff.rowid.value else s.lastRowId;
      Step(Session(eff.data, s.saved, last), Ok(QueryResult([], 0, Some(1), Some(last))))
  }

  /** The read path: the first result set's rows as objects, and their count. */
  function Read(s: Session, exec: Data -> Result<seq<ResultSet>>): (r: Step<QueryResult>)
    ensures r.session == s
    ensures r.result.Ok? <==> exec(s.data).Ok?
    ensures r.result.Err? ==> r.result.error == exec(s.data).error
    ensures r.result.Ok? ==> r.result.value.length == |r.result.value.rows|
    ensures r.result.Ok? ==> r.result.value.rows == Objects(exec(s.data).value)
    ensures r.result.Ok? ==> r.result.value.changes.None? && r.result.value.insertId.None?
  {
    match exec(s.data)
    case Err(e) => Step(s, Err(e))
    case Ok(sets) =>
      var rows := Objects(sets);
      Step(s, Ok(QueryResult(rows, |rows|, None, None)))
  }

  /** `executeQuery`: throws when no database is open; otherwise takes the read
      or the write path by the statement's text, and after a successful write
      emits the one event its text selects. */
  function ExecuteQuery(svc: Service, stmt: Statement): (r: Reply)
    ensures svc.session.None? ==> r == Reply(svc, Err(NotInitialized), None, {})
    ensures r.service.listeners == svc.listeners && r.service.isResetting == svc.isResetting
    ensures r.service.session.Some? <==> svc.session.Some?
    ensures svc.session.Some? && IsRead(stmt.text) ==>
      && r.service == svc && r.event.None?
      && r.result == Read(svc.session.value, stmt.exec).result
    ensures svc.session.Some? && !IsRead(stmt.text) ==>
      && r.result == Write(svc.session.value, stmt.run).result
      && r.service.session == Some(Write(svc.session.value, stmt.run).session)
      && r.event == (if r.result.Ok? then EventFor(stmt.text) else None)
    ensures r.notified == Emit(svc, r.event)
  {
    match svc.session
    case None => Reply(svc, Err(NotInitialized), None, {})
    case Some(s) =>
      if IsRead(stmt.text) then
        Reply(svc, Read(s, stmt.exec).result, None, {})
      else
        var w := Write(s, stmt.run);
        var event := if w.result.Ok? then EventFor(stmt.text) else None;
        Reply(svc.(session := Some(w.session)), w.result, event, Emit(svc, event))
  }

  /** Every successful write reports one change, so a caller testing
      `(changes ?? 0) > 0` always sees success; a statement that failed throws
      instead of reporting zero. */
  lemma WritesAlwaysReportAChange(svc: Service, stmt: Statement)
    requires svc.session.Some? && !IsRead(stmt.text)
    ensures ExecuteQuery(svc, stmt).result.Ok? ==> ExecuteQuery(svc, stmt).result.value.changes == Some(1)
    ensures ExecuteQuery(svc, stmt).result.Ok? <==> stmt.run(svc.session.value.data).Ok?
  {
  }

  // ---------------------------------------------------------------------------
  // transaction

  /** BEGIN, the callback, COMMIT; when any of them throws, ROLLBACK and rethrow.
      When the ROLLBACK itself throws, its error replaces the original one. */
  function Atomically<T>(s: Session, body: Session -> Step<T>): Step<T> {
    match Begin(s)
    case Err(e) => Recover(s, e)
    case Ok(s1) =>
      var b := body(s1);
      match b.result
      case Err(e) => Recover(b.session, e)
      case Ok(v) =>
        match Commit(b.session)
        case Err(e) => Recover(b.session, e)
        case Ok(s2) => Step(s2, Ok(v))
  }

  /** The `catch` branch of `transaction`. */
  function Recover<T>(s: Session, e: Error): (r: Step<T>)
    ensures s.saved.Some? ==> r == Step(Session(s.saved.value, None, s.lastRowId), Err(e))
    ensures s.saved.None? ==> r == Step(s, Err(Sql(NoRollback)))
  {
    match Rollback(s)
    case Ok(s1) => Step(s1, Err(e))
    case Err(e2) => Step(s, Err(e2))
  }

  /** A callback that neither commits nor rolls back itself. */
  predicate KeepsSnapshot<T>(s: Session, body: Session -> Step<T>) {
    body(s.(saved := Some(s.data))).session.saved == Some(s.data)
  }

  /** Outside a transaction: success commits the callback's work and returns its
      value; failure restores the contents as they were and rethrows the same error. */
  lemma AtomicallyCommitsOrRestores<T>(s: Session, body: Session -> Step<T>)
    requires s.saved.None? && KeepsSnapshot(s, body)
    ensures var b := body(s.(saved := Some(s.data)));
      && Atomically(s, body).result == b.result
      && Atomically(s, body).session.saved.None?
      && (b.result.Ok? ==> Atomically(s, body).session.data == b.session.data)
      && (b.result.Err? ==> Atomically(s, body).session.data == s.data)
  {
  }

  /** Inside an open transaction a second `transaction` cannot BEGIN; its
      ROLLBACK then ends the outer transaction and discards all the outer work. */
  lemma NestedTransactionDiscardsOuterWork<T>(s: Session, body: Session -> Step<T>)
    requires s.saved.Some?
    ensures Atomically(s, body).result == Err(Sql(NestedBegin))
    ensures Atomically(s, body).session.data == s.saved.value
    ensures Atomically(s, body).session.saved.None?
  {
  }

  /** A callback that opens a transaction of its own, after any work that keeps
      the outer snapshot: the inner BEGIN fails, the inner ROLLBACK ends the outer
      transaction and restores the contents from before it, and the outer ROLLBACK
      then fails, so the caller sees "no transaction is active" instead of the
      original error. */
  lemma TransactionInsideCallback<T>(s: Session, work: Session -> Session, inner: Session -> Step<T>)
    requires s.saved.None?
    requires work(s.(saved := Some(s.data))).saved == Some(s.data)
    ensures Atomically(s, (x: Session) => Atomically(work(x), inner)).result == Err(Sql(NoRollback))
    ensures Atomically(s, (x: Session) => Atomically(work(x), inner)).session.data == s.data
    ensures Atomically(s, (x: Session) => Atomically(work(x), inner)).session.saved.None?
  {
    var s1 := s.(saved := Some(s.data));
    NestedTransactionDiscardsOuterWork(work(s1), inner);
  }

  /** What `transaction` returns. */
  datatype Done<T> = Done(service: Service, result: Result<T>)

  /** `transaction`: throws when no database is open; otherwise runs the callback
      atomically on it. */
  function Transaction<T>(svc: Service, body: Session -> Step<T>): (r: Done<T>)
    ensures svc.session.None? ==> r == Done(svc, Err(NotInitialized))
    ensures svc.session.Some? ==>
      r == Done(svc.(session := Some(Atomically(svc.session.value, body).session)), Atomically(svc.session.value, body).result)
  {
    match svc.session
    case None => Done(svc, Err(NotInitialized))
    case Some(s) =>
      var a := Atomically(s, body);
      Done(svc.(session := Some(a.session)), a.result)
  }

  // ---------------------------------------------------------------------------
  // Lifecycle and probes

  /** `initialize`: opens a new, empty database (any previous one is dropped) and
      runs the optional setup callback on it; a failing setup leaves the database
      open with whatever the setup did, and rethrows. */
  function Initialize(svc: Service, setup: Option<Session -> Step<()>>): (r: Done<()>)
    ensures r.service.session.Some? && r.service.listeners == svc.listeners
    ensures setup.None? ==> r == Done(svc.(session := Some(Fresh)), Ok(()))
    ensures setup.Some? ==> r.service.session == Some(setup.value(Fresh).session) && r.result == setup.value(Fresh).result
  {
    match setup
    case None => Done(svc.(session := Some(Fresh)), Ok(()))
    case Some(f) =>
      var st := f(Fresh);
      Done(svc.(session := Some(st.session)), st.result)
  }

  /** `checkTableExists` on the service: false when closed; errors are swallowed. */
  function CheckTableExists(svc: Service, name: string): (r: bool)
    ensures r <==> svc.session.Some? && name in svc.session.value.data.tables
  {
    svc.session.Some? && CheckTables.CheckTableExists(svc.session.value.data, name)
  }

  const DefaultVersion: string := "1.0.0"

  /** An open database whose `database_info` table holds a version row. */
  predicate HasVersionRow(svc: Service) {
    svc.session.Some? && CheckTables.InfoTable in svc.session.value.data.tables && svc.session.value.data.version.Some?
  }

  /** `getDatabaseVersion`: the stored version, or "1.0.0" when closed, when
      `database_info` is missing (the query throws) or when it has no version row. */
  function GetDatabaseVersion(svc: Service): (r: string)
    ensures HasVersionRow(svc) ==> r == svc.session.value.data.version.value
    ensures !HasVersionRow(svc) ==> r == DefaultVersion
  {
    match svc.session
    case None => DefaultVersion
    case Some(s) =>
      match CheckTables.VersionQuery(s.data)
      case Err(_) => DefaultVersion
      case Ok(res) =>
        if |res| > 0 then
          match res[0].values[0][0]
          case Str(v) => v
          case _ => DefaultVersion
        else DefaultVersion
  }

  /** The fallback version is the schema version. */
  lemma DefaultIsSchemaVersion()
    ensures DefaultVersion == Schemas.SchemasVersion == Schemas.VersionOne
  {
  }

  /** `isDatabaseInitialized`: all four tables exist and `categories` has a row. */
  method IsDatabaseInitialized(svc: Service) returns (r: bool)
    ensures r <==> && svc.session.Some?
                   && (forall i | 0 <= i < |Schemas.TableNames| :: Schemas.TableNames[i] in svc.session.value.data.tables)
                   && |svc.session.value.data.categories.rows| > 0
  {
    if svc.session.None? {
      return false;
    }
    var d := svc.session.value.data;
    var hasTables := CheckTables.CheckTableExistsAll(d);
    if !hasTables {
      return false;
    }
    assert CategorySchema.TableName in d.tables by {
      assert Schemas.TableNames[0] == CategorySchema.TableName;
    }
    var counted := Schemas.CheckTablesExists(d);
    var count := if |counted.value| > 0 then counted.value[0].values[0][0] else Num(0);
    return count.Num? && count.n > 0;
  }

  /** `resetDatabase`: ignored while a reset is under way; otherwise closes the
      database and clears the guard. */
  function ResetDatabase(svc: Service): (r: Service)
    ensures svc.isResetting ==> r == svc
    ensures !svc.isResetting ==> r.session.None? && !r.isResetting && r.listeners == svc.listeners
  {
    if svc.isResetting then svc else svc.(session := None, isResetting := false)
  }

  /** `closeDatabase`: no database is open afterwards, and every later query throws. */
  function CloseDatabase(svc: Service): (r: Service)
    ensures r.session.None? && r.listeners == svc.listeners && r.isResetting == svc.isResetting
  {
    svc.(session := None)
  }

  lemma ClosedRefusesQueries(svc: Service, stmt: Statement)
    ensures ExecuteQuery(CloseDatabase(svc), stmt).result == Err(NotInitialized)
    ensures !CheckTableExists(CloseDatabase(svc), stmt.text)
    ensures GetDatabaseVersion(CloseDatabase(svc)) == DefaultVersion
  {
  }
}
