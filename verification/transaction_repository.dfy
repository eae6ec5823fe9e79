/** `TransactionRepository`: the transaction operations the application calls, on
    the open connection. The joined reads also need `categories`, and the budget
    summary needs `budgets`. */
module TransactionRepository {
  import opened Wrappers
  import opened Values
  import opened Tables
  import opened Store
  import Relational
  import Connection
  import CategorySchema
  import BudgetSchema
  import TransactionSchema

  type Transaction = TransactionSchema.Transaction
  type NewTransaction = TransactionSchema.NewTransaction
  type Joined = CategorySchema.Joined<Transaction>

  predicate Exists(d: Data) { TransactionSchema.TableName in d.tables }

  function Missing(): Error { NoSuchTable(TransactionSchema.TableName) }

  /** A statement over `transactions` joined with `categories`: the engine reports
      the first table missing. */
  function JoinMissing(d: Data): (r: Option<Error>)
    ensures r.None? <==> Exists(d) && CategorySchema.TableName in d.tables
  {
    if !Exists(d) then Some(Missing())
    else if CategorySchema.TableName !in d.tables then Some(NoSuchTable(CategorySchema.TableName))
    else None
  }

  /** `GET_SUMMARY_BY_BUDGET` reads `budgets` first and `transactions` second. */
  function BudgetJoinMissing(d: Data): (r: Option<Error>)
    ensures r.None? <==> BudgetSchema.TableName in d.tables && Exists(d)
  {
    if BudgetSchema.TableName !in d.tables then Some(NoSuchTable(BudgetSchema.TableName))
    else if !Exists(d) then Some(Missing())
    else None
  }

  /** `createTable`. */
  function CreateTable(s: Session): (r: Step<()>)
    ensures r.result.Ok? && Exists(r.session.data)
    ensures r.session == s.(data := Store.CreateTable(s.data, TransactionSchema.TableName))
  {
    Step(s.(data := Store.CreateTable(s.data, TransactionSchema.TableName)), Ok(()))
  }

  /** `createIndexes`: the three indexes, which need the table. */
  function CreateIndexes(s: Session): (r: Step<()>)
    ensures r.result.Ok? <==> Exists(s.data)
    ensures r.result.Ok? ==> r.session.data.indexes == s.data.indexes + IndexNames(TransactionSchema.Indexes)
    ensures r.result.Err? ==> r.session == s && r.result.error == Sql("no such table: main." + TransactionSchema.TableName)
    ensures r.session == s.(data := s.data.(indexes := r.session.data.indexes))
  {
    Store.CreateIndexes(s, TransactionSchema.Indexes)
  }

  // ---------------------------------------------------------------------------
  // create

  /** What the table's constraints require of a new transaction. */
  predicate Insertable(n: NewTransaction) {
    TransactionSchema.Complete(n) && n.kind.value in TransactionSchema.Kinds
  }

  /** The row an insert of the transaction stores under the id. */
  function Stored(n: NewTransaction, id: int, now: string): Transaction
    requires TransactionSchema.Complete(n)
  {
    TransactionSchema.Transaction(id, n.amount.value, n.categoryId.value, n.budgetId.value,
                                  n.description, n.date.value, n.kind.value, now, now)
  }

  function InsertEffect(d: Data, n: NewTransaction, now: string): Result<Effect> {
    if !Exists(d) then Err(Missing())
    else
      match TransactionSchema.Insert(d.transactions, n, now)
      case Err(e) => Err(e)
      case Ok(t) => Ok(Effect(d.(transactions := t), Some(t.lastId)))
  }

  /** `create`: inserts the transaction and returns the caller's fields with the
      insert id and the JavaScript clock's time. Unlike the other repositories it
      does not check the id. */
  function Create(s: Session, n: NewTransaction, clock: Clock): (r: Step<Created<NewTransaction>>)
    ensures r.result.Ok? <==> Exists(s.data) && Insertable(n)
    ensures r.result.Err? ==> r.session == s && r.result.error.Sql?
    ensures !Exists(s.data) ==> r.result == Err(Missing())
    ensures Exists(s.data) && !TransactionSchema.Complete(n) ==>
      r.result == Err(TransactionSchema.NotNullFailed(TransactionSchema.MissingColumn(n).value))
    ensures r.result.Ok? ==>
      var id := s.data.transactions.lastId + 1;
      && r.result.value == Created(id, n, clock.isoNow, clock.isoNow)
      && r.session == Session(s.data.(transactions := Append(s.data.transactions, Stored(n, id, clock.sqlNow))), s.saved, id)
    ensures Store.Valid(s.data) ==> Store.Valid(r.session.data)
  {
    var w := Connection.Write(s, (d: Data) => InsertEffect(d, n, clock.sqlNow));
    if w.result.Err? then Step(w.session, Err(w.result.error))
    else Step(w.session, Ok(Created(w.result.value.insertId.value, n, clock.isoNow, clock.isoNow)))
  }

  /** Inserts each transaction in turn, stopping at the first that fails. */
  function CreateAll(s: Session, ns: seq<NewTransaction>, clock: Clock): (r: Step<()>)
    ensures !Exists(s.data) && |ns| > 0 ==> r == Step(s, Err(Missing()))
    ensures r.result.Ok? <==> |ns| == 0 || (Exists(s.data) && forall i | 0 <= i < |ns| :: Insertable(ns[i]))
    ensures r.result.Ok? ==> r.session.data.transactions.lastId == s.data.transactions.lastId + |ns|
    ensures r.result.Ok? ==> |r.session.data.transactions.rows| == |s.data.transactions.rows| + |ns|
    ensures r.session.data == s.data.(transactions := r.session.data.transactions)
    ensures r.session.saved == s.saved
    ensures Store.Valid(s.data) ==> Store.Valid(r.session.data)
    decreases |ns|
  {
    if |ns| == 0 then Step(s, Ok(()))
    else
      var first := Create(s, ns[0], clock);
      if first.result.Err? then Step(first.session, Err(first.result.error))
      else
        var rest := CreateAll(first.session, ns[1..], clock);
        assert (forall i | 0 <= i < |ns| :: Insertable(ns[i])) <==>
               Insertable(ns[0]) && forall i | 0 <= i < |ns| - 1 :: Insertable(ns[1..][i]);
        rest
  }

  /** `insertSampleData`: the two sample expenses. */
  function InsertSampleData(s: Session, clock: Clock): (r: Step<()>)
    ensures Exists(s.data) ==> r.result.Ok?
    ensures !Exists(s.data) ==> r == Step(s, Err(Missing()))
    ensures r.result.Ok? ==> r.session.data.transactions.lastId == s.data.transactions.lastId + 2
    ensures r.result.Ok? ==> |r.session.data.transactions.rows| == |s.data.transactions.rows| + 2
    ensures r.session.data == s.data.(transactions := r.session.data.transactions)
    ensures Store.Valid(s.data) ==> Store.Valid(r.session.data)
  {
    var samples := TransactionSchema.SampleTransactions(clock);
    assert forall i | 0 <= i < |samples| :: Insertable(samples[i]);
    CreateAll(s, samples, clock)
  }

  // ---------------------------------------------------------------------------
  // Reads

  /** `findAll`: every transaction, newest first. */
  function FindAll(d: Data): (r: Result<seq<Transaction>>)
    ensures r.Ok? <==> Exists(d)
    ensures r.Ok? ==> multiset(r.value) == multiset(d.transactions.rows)
    ensures r.Ok? ==> Relational.Sorted(r.value, TransactionSchema.ByDateDesc)
  {
    if !Exists(d) then Err(Missing()) else Ok(TransactionSchema.FindAll(d.transactions.rows))
  }

  /** `findAllWithCategory`: every transaction with its category, newest first. A
      failed query is caught and answered with an empty list, so it never fails. */
  function FindAllWithCategory(d: Data): (r: Result<seq<Joined>>)
    ensures r.Ok?
    ensures JoinMissing(d).Some? ==> r.value == []
    ensures JoinMissing(d).None? ==>
      multiset(r.value) == multiset(TransactionSchema.Join(d.transactions.rows, d.categories.rows))
    ensures Relational.Sorted(r.value, TransactionSchema.JoinedByDateDesc)
  {
    match JoinMissing(d)
    case Some(_) => Ok([])
    case None => Ok(TransactionSchema.FindAllWithCategory(d.transactions.rows, d.categories.rows))
  }

  /** `findById`: the row with the id, or null. */
  function FindById(d: Data, id: int): (r: Result<Option<Transaction>>)
    ensures r.Ok? <==> Exists(d)
    ensures r.Ok? && r.value.Some? ==> r.value.value in d.transactions.rows && r.value.value.id == id
    ensures r.Ok? && r.value.None? ==> !HasKey(d.transactions.rows, TransactionSchema.Id, id)
  {
    if !Exists(d) then Err(Missing())
    else
      var found := TransactionSchema.FindById(d.transactions.rows, id);
      if |found| > 0 then
        assert found[0] in found;
        Ok(Some(found[0]))
      else
        assert multiset(found) == multiset{};
        Ok(None)
  }

  /** `findByIdWithCategory`: the transaction with its category, or null. */
  function FindByIdWithCategory(d: Data, id: int): (r: Result<Option<Joined>>)
    ensures r.Ok? <==> JoinMissing(d).None?
    ensures r.Err? ==> r.error == JoinMissing(d).value
    ensures r.Ok? && r.value.Some? ==> r.value.value.row in d.transactions.rows && r.value.value.row.id == id
    ensures r.Ok? && r.value.None? ==> !HasKey(d.transactions.rows, TransactionSchema.Id, id)
    ensures r.Ok? && r.value.Some? && UniqueKeys(d.categories.rows, CategorySchema.Id) ==>
      r.value.value.category == CategorySchema.CategoryOf(d.categories.rows, r.value.value.row.categoryId)
  {
    match JoinMissing(d)
    case Some(e) => Err(e)
    case None =>
      var found := TransactionSchema.FindByIdWithCategory(d.transactions.rows, d.categories.rows, id);
      if |found| > 0 then
        assert found[0] in found;
        assert UniqueKeys(d.categories.rows, CategorySchema.Id) ==>
          found[0].category == CategorySchema.CategoryOf(d.categories.rows, found[0].row.categoryId) by {
          if UniqueKeys(d.categories.rows, CategorySchema.Id) {
            var m := Lookup(d.transactions.rows, TransactionSchema.Id, id);
            CategorySchema.LeftJoinUnique(m, d.categories.rows, TransactionSchema.CategoryKey);
          }
        }
        Ok(Some(found[0]))
      else
        assert !HasKey(d.transactions.rows, TransactionSchema.Id, id) by {
          var m := Lookup(d.transactions.rows, TransactionSchema.Id, id);
          assert |TransactionSchema.Join(m, d.categories.rows)| == 0;
          assert multiset(m) == multiset{};
        }
        Ok(None)
  }

  function Count(d: Data): (r: Result<nat>)
    ensures r.Ok? <==> Exists(d)
    ensures r.Ok? ==> r.value == |d.transactions.rows|
  {
    if !Exists(d) then Err(Missing()) else Ok(TransactionSchema.CountAll(d.transactions.rows))
  }

  function FindByCategoryId(d: Data, categoryId: int): (r: Result<seq<Transaction>>)
    ensures r.Ok? <==> Exists(d)
    ensures r.Ok? ==> forall x :: multiset(r.value)[x] ==
                                  (if x.categoryId == categoryId then multiset(d.transactions.rows)[x] else 0)
    ensures r.Ok? ==> Relational.Sorted(r.value, TransactionSchema.ByDateDesc)
  {
    if !Exists(d) then Err(Missing()) else Ok(TransactionSchema.FindByCategoryId(d.transactions.rows, categoryId))
  }

  function FindByBudgetId(d: Data, budgetId: int): (r: Result<seq<Transaction>>)
    ensures r.Ok? <==> Exists(d)
    ensures r.Ok? ==> forall x :: multiset(r.value)[x] ==
                                  (if x.budgetId == budgetId then multiset(d.transactions.rows)[x] else 0)
    ensures r.Ok? ==> Relational.Sorted(r.value, TransactionSchema.ByDateDesc)
  {
    if !Exists(d) then Err(Missing()) else Ok(TransactionSchema.FindByBudgetId(d.transactions.rows, budgetId))
  }

  /** `findByDateRange`: the transactions dated within both ends, newest first. */
  function FindByDateRange(d: Data, startDate: string, endDate: string): (r: Result<seq<Transaction>>)
    ensures r.Ok? <==> Exists(d)
    ensures r.Ok? ==> forall x :: multiset(r.value)[x] == (if TransactionSchema.InRange(x, startDate, endDate)
                                                           then multiset(d.transactions.rows)[x] else 0)
    ensures r.Ok? ==> Relational.Sorted(r.value, TransactionSchema.ByDateDesc)
  {
    if !Exists(d) then Err(Missing()) else Ok(TransactionSchema.FindByDateRange(d.transactions.rows, startDate, endDate))
  }

  function FindByDateRangeWithCategory(d: Data, startDate: string, endDate: string): (r: Result<seq<Joined>>)
    ensures r.Ok? <==> JoinMissing(d).None?
    ensures r.Err? ==> r.error == JoinMissing(d).value
    ensures r.Ok? ==> forall k | 0 <= k < |r.value| :: TransactionSchema.InRange(r.value[k].row, startDate, endDate)
    ensures r.Ok? ==>
      var inRange := Relational.Where(d.transactions.rows, TransactionSchema.Between(startDate, endDate));
      multiset(r.value) == multiset(TransactionSchema.Join(inRange, d.categories.rows))
    ensures r.Ok? ==> Relational.Sorted(r.value, TransactionSchema.JoinedByDateDesc)
  {
    match JoinMissing(d)
    case Some(e) => Err(e)
    case None => Ok(TransactionSchema.FindByDateRangeWithCategory(d.transactions.rows, d.categories.rows, startDate, endDate))
  }

  // ---------------------------------------------------------------------------
  // Totals and summaries

  /** `getTotalIncome`: the sum of the income amounts, 0 when there are none. */
  function GetTotalIncome(d: Data): (r: Result<int>)
    ensures r.Ok? <==> Exists(d)
    ensures r.Ok? && (forall i | 0 <= i < |d.transactions.rows| :: d.transactions.rows[i].kind != "income") ==> r.value == 0
  {
    if !Exists(d) then Err(Missing())
    else
      if forall i | 0 <= i < |d.transactions.rows| :: d.transactions.rows[i].kind != "income" then
        Relational.WhereNone(d.transactions.rows, TransactionSchema.KindIs("income"));
        Ok(TransactionSchema.TotalByType(d.transactions.rows, "income"))
      else
      Ok(TransactionSchema.TotalByType(d.transactions.rows, "income"))
  }

  /** `getTotalExpense`: the sum of the expense amounts, 0 when there are none. */
  function GetTotalExpense(d: Data): (r: Result<int>)
    ensures r.Ok? <==> Exists(d)
    ensures r.Ok? && (forall i | 0 <= i < |d.transactions.rows| :: d.transactions.rows[i].kind != "expense") ==> r.value == 0
  {
    if !Exists(d) then Err(Missing())
    else
      if forall i | 0 <= i < |d.transactions.rows| :: d.transactions.rows[i].kind != "expense" then
        Relational.WhereNone(d.transactions.rows, TransactionSchema.KindIs("expense"));
        Ok(TransactionSchema.TotalByType(d.transactions.rows, "expense"))
      else
      Ok(TransactionSchema.TotalByType(d.transactions.rows, "expense"))
  }

  /** The two totals together account for every amount stored. */
  lemma TotalsAddUp(d: Data)
    requires Exists(d) && TransactionSchema.Valid(d.transactions)
    ensures GetTotalIncome(d).value + GetTotalExpense(d).value == Relational.SumBy(d.transactions.rows, TransactionSchema.Amount)
  {
    TransactionSchema.IncomePlusExpense(d.transactions);
  }

  /** A created transaction adds its amount to the total of its own type and
      leaves the total of the other type as it was. */
  lemma {:induction false} CreateAddsToTotal(s: Session, n: NewTransaction, clock: Clock, kind: string)
    requires Create(s, n, clock).result.Ok?
    ensures var after := Create(s, n, clock).session.data;
      TransactionSchema.TotalByType(after.transactions.rows, kind)
        == TransactionSchema.TotalByType(s.data.transactions.rows, kind) + (if n.kind.value == kind then n.amount.value else 0)
  {
    var rows := s.data.transactions.rows;
    var x := Stored(n, s.data.transactions.lastId + 1, clock.sqlNow);
    assert Create(s, n, clock).session.data.transactions.rows == rows + [x];
    assert multiset(rows + [x]) == multiset([x] + rows);
    TransactionSchema.TotalIgnoresOrder(rows + [x], [x] + rows, kind);
    Relational.WhereConsSum(x, rows, TransactionSchema.KindIs(kind), TransactionSchema.Amount);
  }

  /** `getSummaryByCategory`: per category, the in-range total and count, largest
      total first; the totals and counts account for every in-range transaction. */
  function GetSummaryByCategory(d: Data, startDate: string, endDate: string)
    : (r: Result<seq<TransactionSchema.CategorySummary>>)
    ensures r.Ok? <==> JoinMissing(d).None?
    ensures r.Err? ==> r.error == JoinMissing(d).value
    ensures r.Ok? ==> Relational.Sorted(r.value, TransactionSchema.ByTotalDesc)
    ensures r.Ok? ==> forall s | s in r.value :: s.count >= 1
    ensures r.Ok? ==>
      var inRange := Relational.Where(d.transactions.rows, TransactionSchema.Between(startDate, endDate));
      && Relational.SumBy(r.value, TransactionSchema.SummaryTotal) == Relational.SumBy(inRange, TransactionSchema.Amount)
      && Relational.SumBy(r.value, TransactionSchema.SummaryCount) == |inRange|
      && (forall s | s in r.value :: TransactionSchema.Summarizes(s, inRange, d.categories.rows))
      && (forall i, j | 0 <= i < j < |r.value| :: r.value[i].categoryId != r.value[j].categoryId)
    ensures r.Ok? ==> forall i | 0 <= i < |d.transactions.rows| && TransactionSchema.InRange(d.transactions.rows[i], startDate, endDate) ::
      exists s | s in r.value :: s.categoryId == d.transactions.rows[i].categoryId
  {
    match JoinMissing(d)
    case Some(e) => Err(e)
    case None => Ok(TransactionSchema.SummaryByCategory(d.transactions.rows, d.categories.rows, startDate, endDate))
  }

  /** `getSummaryByBudget` as written: one row per budget with in-range spending,
      flagged when the spending exceeds the budget's amount. */
  function GetSummaryByBudget(d: Data, startDate: string, endDate: string)
    : (r: Result<seq<TransactionSchema.BudgetSummary>>)
    ensures r.Ok? <==> BudgetJoinMissing(d).None?
    ensures r.Err? ==> r.error == BudgetJoinMissing(d).value
    ensures r.Ok? ==> forall i | 0 <= i < |r.value| :: r.value[i].isExceeded == 1 <==> r.value[i].totalSpent > r.value[i].budgetAmount
    ensures r.Ok? ==>
      var inRange := Relational.Where(d.transactions.rows, TransactionSchema.Between(startDate, endDate));
      forall b | b in d.budgets.rows && TransactionSchema.HasSpending(inRange, b.id) ::
        exists i | 0 <= i < |r.value| :: r.value[i].budgetId == b.id
    ensures r.Ok? ==>
      var inRange := Relational.Where(d.transactions.rows, TransactionSchema.Between(startDate, endDate));
      forall i | 0 <= i < |r.value| :: TransactionSchema.FromSpendingBudget(r.value[i], d.budgets.rows, inRange)
    ensures r.Ok? && UniqueKeys(d.budgets.rows, BudgetSchema.Id) ==>
      forall i, j | 0 <= i < j < |r.value| :: r.value[i].budgetId != r.value[j].budgetId
  {
    match BudgetJoinMissing(d)
    case Some(e) => Err(e)
    case None => Ok(TransactionSchema.SummaryByBudget(d.budgets.rows, d.transactions.rows, startDate, endDate))
  }

  // ---------------------------------------------------------------------------
  // update and delete

  function UpdateEffect(d: Data, id: int, p: TransactionSchema.TransactionPatch, now: string): Result<Effect> {
    if !Exists(d) then Err(Missing())
    else
      match TransactionSchema.Update(d.transactions, id, p, now)
      case Err(e) => Err(e)
      case Ok(t) => Ok(Effect(d.(transactions := t), None))
  }

  /** `update`: the six fields given replace the stored ones; true whenever the
      statement ran, whether or not a row had the id. */
  function Update(s: Session, id: int, p: TransactionSchema.TransactionPatch, now: string): (r: Step<bool>)
    ensures r.result.Ok? <==> Exists(s.data) && TransactionSchema.Update(s.data.transactions, id, p, now).Ok?
    ensures r.result.Ok? ==> r.result.value
    ensures r.result.Err? ==> r.session == s
    ensures r.result.Ok? ==>
      r.session == s.(data := s.data.(transactions := TransactionSchema.Update(s.data.transactions, id, p, now).value))
    ensures Store.Valid(s.data) ==> Store.Valid(r.session.data)
  {
    var w := Connection.Write(s, (d: Data) => UpdateEffect(d, id, p, now));
    if w.result.Err? then Step(w.session, Err(w.result.error)) else Step(w.session, Ok(true))
  }

  /** After an update of the amount, `findById` reads the new amount. */
  lemma UpdateThenFindById(s: Session, id: int, amount: int, now: string)
    requires Exists(s.data) && TransactionSchema.Valid(s.data.transactions)
    requires HasKey(s.data.transactions.rows, TransactionSchema.Id, id)
    ensures var p := TransactionSchema.TransactionPatch(Some(amount), None, None, None, None, None);
      var after := Update(s, id, p, now);
      && after.result == Ok(true)
      && FindById(after.session.data, id).Ok?
      && FindById(after.session.data, id).value.Some?
      && FindById(after.session.data, id).value.value.amount == amount
  {
    var p := TransactionSchema.TransactionPatch(Some(amount), None, None, None, None, None);
    var rows := Update(s, id, p, now).session.data.transactions.rows;
    var i :| 0 <= i < |s.data.transactions.rows| && s.data.transactions.rows[i].id == id;
    assert rows[i].id == id;
    assert HasKey(rows, TransactionSchema.Id, id);
    var found := FindById(Update(s, id, p, now).session.data, id).value.value;
    assert found in rows && found.id == id;
    var j :| 0 <= j < |rows| && rows[j] == found;
    assert j == i by {
      assert UniqueKeys(rows, TransactionSchema.Id);
    }
  }

  function DeleteEffect(d: Data, id: int): Result<Effect> {
    if !Exists(d) then Err(Missing())
    else Ok(Effect(d.(transactions := TransactionSchema.Delete(d.transactions, id)), None))
  }

  /** `delete`: true whenever the statement ran. */
  function Delete(s: Session, id: int): (r: Step<bool>)
    ensures r.result.Ok? <==> Exists(s.data)
    ensures r.result.Ok? ==> r.result.value
    ensures r.result.Err? ==> r.session == s
    ensures r.result.Ok? ==> r.session.data == s.data.(transactions := TransactionSchema.Delete(s.data.transactions, id))
    ensures r.result.Ok? ==> forall x :: x in r.session.data.transactions.rows <==> x in s.data.transactions.rows && x.id != id
    ensures Store.Valid(s.data) ==> Store.Valid(r.session.data)
  {
    var w := Connection.Write(s, (d: Data) => DeleteEffect(d, id));
    if w.result.Err? then Step(w.session, Err(w.result.error)) else Step(w.session, Ok(true))
  }

  /** After `create`, `findById` of the returned id reads the stored row. */
  lemma CreateThenFindById(s: Session, n: NewTransaction, clock: Clock)
    requires TransactionSchema.Valid(s.data.transactions)
    requires Create(s, n, clock).result.Ok?
    ensures var c := Create(s, n, clock);
      FindById(c.session.data, c.result.value.id) == Ok(Some(Stored(n, c.result.value.id, clock.sqlNow)))
  {
    var c := Create(s, n, clock);
    var id := c.result.value.id;
    var rows := c.session.data.transactions.rows;
    assert rows[|rows| - 1] == Stored(n, id, clock.sqlNow);
    assert TransactionSchema.Valid(c.session.data.transactions);
    LookupUnique(rows, TransactionSchema.Id, id);
  }

  /** After `delete`, `findById` of the id finds nothing. */
  lemma DeleteThenFindById(s: Session, id: int)
    requires Exists(s.data)
    ensures FindById(Delete(s, id).session.data, id) == Ok(None)
  {
    var rows := Delete(s, id).session.data.transactions.rows;
    forall i | 0 <= i < |rows| ensures rows[i].id != id {
      assert rows[i] in rows;
    }
  }
}
