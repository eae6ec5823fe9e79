/** Failure-carrying results and the error taxonomy of the data-access layer. */
module Wrappers {

  datatype Option<+T> = None | Some(value: T)

  /** The outcome of an operation that may throw. */
  datatype Result<+T> = Ok(value: T) | Err(error: Error)

  /** What can be thrown: the connection manager's "not initialized" error, an error
      raised by the SQL engine, or an error a repository throws itself. */
  datatype Error =
    | NotInitialized
    | Sql(sqlMessage: string)
    | Failed(failMessage: string)

  /** The `message` of the thrown JavaScript `Error`. */
  function Message(e: Error): string {
    match e
    case NotInitialized => "数据库未初始化"
    case Sql(m) => m
    case Failed(m) => m
  }
}

/** JavaScript values as they reach the SQL layer, and the wall-clock readings the
    source takes from `new Date()` and `CURRENT_TIMESTAMP`. */
module Values {
  import opened Wrappers

  /** A JavaScript value bound as a statement parameter or read from a result row. */
  datatype Value = Undefined | Null | Num(n: int) | Str(s: string) | Bool(b: bool)

  /** One `[key, value]` pair of `Object.entries` of a partial entity. */
  datatype Entry = Entry(key: string, value: Value)

  /** The clock readings an operation needs: the engine's `CURRENT_TIMESTAMP`, the
      JavaScript `toISOString()` of now, and the current month's first instant, last
      instant and `YYYY-MM` label used by the budget sample rows. */
  datatype Clock = Clock(sqlNow: string, isoNow: string, monthStart: string, monthEnd: string, month: string)

  /** The object a `create` returns: the new id, the caller's fields as passed,
      and the JavaScript clock's ISO time as both timestamps. */
  datatype Created<T> = Created(id: int, fields: T, createdAt: string, updatedAt: string)

  /** JavaScript truthiness of an optional number, as in `if (!result.insertId)`. */
  predicate TruthyId(id: Option<int>)
  {
    id.Some? && id.value != 0
  }
}
