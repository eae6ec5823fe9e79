/** `BudgetRepository`: the budget operations the application calls, on the open
    connection. The joined reads also need the `categories` table. */
module BudgetRepository {
  import opened Wrappers
  import opened Values
  import opened Tables
  import opened Store
  import Relational
  import Text
  import Connection
  import CategorySchema
  import BudgetSchema

  type Budget = BudgetSchema.Budget
  type NewBudget = BudgetSchema.NewBudget
  type Joined = CategorySchema.Joined<Budget>

  predicate Exists(d: Data) { BudgetSchema.TableName in d.tables }

  function Missing(): Error { NoSuchTable(BudgetSchema.TableName) }

  /** A statement over `budgets` joined with `categories` names both tables; the
      engine reports the first one missing. */
  function JoinMissing(d: Data): (r: Option<Error>)
    ensures r.None? <==> Exists(d) && CategorySchema.TableName in d.tables
  {
    if !Exists(d) then Some(Missing())
    else if CategorySchema.TableName !in d.tables then Some(NoSuchTable(CategorySchema.TableName))
    else None
  }

  /** `createTable`. */
  function CreateTable(s: Session): (r: Step<()>)
    ensures r.result.Ok? && Exists(r.session.data)
    ensures r.session == s.(data := Store.CreateTable(s.data, BudgetSchema.TableName))
  {
    Step(s.(data := Store.CreateTable(s.data, BudgetSchema.TableName)), Ok(()))
  }

  /** `createIndexes`: the four indexes, which need the table. */
  function CreateIndexes(s: Session): (r: Step<()>)
    ensures r.result.Ok? <==> Exists(s.data)
    ensures r.result.Ok? ==> r.session.data.indexes == s.data.indexes + IndexNames(BudgetSchema.Indexes)
    ensures r.result.Err? ==> r.session == s && r.result.error == Sql("no such table: main." + BudgetSchema.TableName)
    ensures r.session == s.(data := s.data.(indexes := r.session.data.indexes))
  {
    Store.CreateIndexes(s, BudgetSchema.Indexes)
  }

  // ---------------------------------------------------------------------------
  // Reads

  /** `findById`: the row with the id, or null. */
  function FindById(d: Data, id: int): (r: Result<Option<Budget>>)
    ensures r.Ok? <==> Exists(d)
    ensures r.Ok? && r.value.Some? ==> r.value.value in d.budgets.rows && r.value.value.id == id
    ensures r.Ok? && r.value.None? ==> !HasKey(d.budgets.rows, BudgetSchema.Id, id)
  {
    if !Exists(d) then Err(Missing())
    else
      var found := BudgetSchema.FindById(d.budgets.rows, id);
      if |found| > 0 then
        assert found[0] in found;
        Ok(Some(found[0]))
      else
        assert multiset(found) == multiset{};
        Ok(None)
  }

  /** `findAll` and `findAllWithCategory`: every budget with its category (none when
      the category is missing), by month descending then category id. */
  function FindAllWithCategory(d: Data): (r: Result<seq<Joined>>)
    ensures r.Ok? <==> JoinMissing(d).None?
    ensures r.Err? ==> r.error == JoinMissing(d).value
    ensures r.Ok? ==> multiset(r.value) == multiset(BudgetSchema.Join(d.budgets.rows, d.categories.rows))
    ensures r.Ok? ==> Relational.Sorted(r.value, (x, y) => BudgetSchema.JoinedBy(BudgetSchema.ByMonthDescCategory, x, y))
  {
    match JoinMissing(d)
    case Some(e) => Err(e)
    case None => Ok(BudgetSchema.FindAllWithCategory(d.budgets.rows, d.categories.rows))
  }

  /** Each budget of the listing is paired with the category its `categoryId`
      names, when there is one. */
  lemma FindAllPairsCategories(d: Data)
    requires JoinMissing(d).None? && UniqueKeys(d.categories.rows, CategorySchema.Id)
    ensures forall j | j in FindAllWithCategory(d).value ::
      j.row in d.budgets.rows && j.category == CategorySchema.CategoryOf(d.categories.rows, j.row.categoryId)
  {
    var r := FindAllWithCategory(d).value;
    var all := BudgetSchema.Join(d.budgets.rows, d.categories.rows);
    CategorySchema.LeftJoinIsPaired(d.budgets.rows, d.categories.rows, BudgetSchema.CategoryKey);
    CategorySchema.LeftJoinUnique(d.budgets.rows, d.categories.rows, BudgetSchema.CategoryKey);
    forall j | j in r
      ensures j.row in d.budgets.rows && j.category == CategorySchema.CategoryOf(d.categories.rows, j.row.categoryId)
    {
      assert j in multiset(all);
      var k :| 0 <= k < |all| && all[k] == j;
    }
  }

  function FindByCategoryId(d: Data, categoryId: int): (r: Result<seq<Budget>>)
    ensures r.Ok? <==> Exists(d)
    ensures r.Ok? ==> forall b :: multiset(r.value)[b] ==
                                  (if b.categoryId == categoryId then multiset(d.budgets.rows)[b] else 0)
    ensures r.Ok? ==> Relational.Sorted(r.value, BudgetSchema.ByMonthDesc)
  {
    if !Exists(d) then Err(Missing()) else Ok(BudgetSchema.FindByCategoryId(d.budgets.rows, categoryId))
  }

  function FindByCategoryAndMonth(d: Data, categoryId: int, month: string): (r: Result<seq<Budget>>)
    ensures r.Ok? <==> Exists(d)
    ensures r.Ok? ==> forall b :: multiset(r.value)[b] ==
                                  (if b.categoryId == categoryId && b.month == month then multiset(d.budgets.rows)[b] else 0)
    ensures r.Ok? ==> Relational.Sorted(r.value, BudgetSchema.ById)
  {
    if !Exists(d) then Err(Missing()) else Ok(BudgetSchema.FindByCategoryAndMonth(d.budgets.rows, categoryId, month))
  }

  /** `findByDateRange`: the budgets whose span covers the given one. */
  function FindByDateRange(d: Data, startDate: string, endDate: string): (r: Result<seq<Budget>>)
    ensures r.Ok? <==> Exists(d)
    ensures r.Ok? ==> forall b :: multiset(r.value)[b] ==
                                  (if Text.StrLe(b.startDate, startDate) && Text.StrLe(endDate, b.endDate)
                                   then multiset(d.budgets.rows)[b] else 0)
  {
    if !Exists(d) then Err(Missing()) else Ok(BudgetSchema.FindByDateRange(d.budgets.rows, startDate, endDate))
  }

  function FindByPeriod(d: Data, period: string): (r: Result<seq<Budget>>)
    ensures r.Ok? <==> Exists(d)
    ensures r.Ok? ==> forall b :: multiset(r.value)[b] == if b.period == period then multiset(d.budgets.rows)[b] else 0
  {
    if !Exists(d) then Err(Missing()) else Ok(BudgetSchema.FindByPeriod(d.budgets.rows, period))
  }

  function FindByMonth(d: Data, month: string): (r: Result<seq<Budget>>)
    ensures r.Ok? <==> Exists(d)
    ensures r.Ok? ==> forall b :: multiset(r.value)[b] == if b.month == month then multiset(d.budgets.rows)[b] else 0
    ensures r.Ok? ==> Relational.Sorted(r.value, BudgetSchema.ByCategory)
  {
    if !Exists(d) then Err(Missing()) else Ok(BudgetSchema.FindByMonth(d.budgets.rows, month))
  }

  function FindByMonthWithCategory(d: Data, month: string): (r: Result<seq<Joined>>)
    ensures r.Ok? <==> JoinMissing(d).None?
    ensures r.Err? ==> r.error == JoinMissing(d).value
    ensures r.Ok? ==>
      multiset(r.value) == multiset(BudgetSchema.Join(Relational.Where(d.budgets.rows, (b: Budget) => b.month == month), d.categories.rows))
    ensures r.Ok? ==> Relational.Sorted(r.value, (x, y) => BudgetSchema.JoinedBy(BudgetSchema.ByCategory, x, y))
  {
    match JoinMissing(d)
    case Some(e) => Err(e)
    case None => Ok(BudgetSchema.FindByMonthWithCategory(d.budgets.rows, d.categories.rows, month))
  }

  /** `getActiveBudgets`: the budgets whose month is not before the argument. */
  function GetActiveBudgets(d: Data, date: string): (r: Result<seq<Budget>>)
    ensures r.Ok? <==> Exists(d)
    ensures r.Ok? ==> forall b :: multiset(r.value)[b] == if Text.StrLe(date, b.month) then multiset(d.budgets.rows)[b] else 0
    ensures r.Ok? ==> Relational.Sorted(r.value, BudgetSchema.ByMonthDescCategory)
  {
    if !Exists(d) then Err(Missing()) else Ok(BudgetSchema.FindActive(d.budgets.rows, date))
  }

  /** `findByIdWithCategory`: the budget with its category, or null. */
  function FindByIdWithCategory(d: Data, id: int): (r: Result<Option<Joined>>)
    ensures r.Ok? <==> JoinMissing(d).None?
    ensures r.Err? ==> r.error == JoinMissing(d).value
    ensures r.Ok? && r.value.Some? ==> r.value.value.row in d.budgets.rows && r.value.value.row.id == id
    ensures r.Ok? && r.value.None? ==> !HasKey(d.budgets.rows, BudgetSchema.Id, id)
    ensures r.Ok? && r.value.Some? && UniqueKeys(d.categories.rows, CategorySchema.Id) ==>
      r.value.value.category == CategorySchema.CategoryOf(d.categories.rows, r.value.value.row.categoryId)
  {
    match JoinMissing(d)
    case Some(e) => Err(e)
    case None =>
      var found := BudgetSchema.FindByIdWithCategory(d.budgets.rows, d.categories.rows, id);
      if |found| > 0 then
        assert found[0] in found;
        assert UniqueKeys(d.categories.rows, CategorySchema.Id) ==>
          found[0].category == CategorySchema.CategoryOf(d.categories.rows, found[0].row.categoryId) by {
          if UniqueKeys(d.categories.rows, CategorySchema.Id) {
            var m := Lookup(d.budgets.rows, BudgetSchema.Id, id);
            CategorySchema.LeftJoinUnique(m, d.categories.rows, BudgetSchema.CategoryKey);
          }
        }
        Ok(Some(found[0]))
      else
        assert !HasKey(d.budgets.rows, BudgetSchema.Id, id) by {
          var m := Lookup(d.budgets.rows, BudgetSchema.Id, id);
          assert |BudgetSchema.Join(m, d.categories.rows)| == 0;
          assert multiset(m) == multiset{};
        }
        Ok(None)
  }

  function Count(d: Data): (r: Result<nat>)
    ensures r.Ok? <==> Exists(d)
    ensures r.Ok? ==> r.value == |d.budgets.rows|
  {
    if !Exists(d) then Err(Missing()) else Ok(BudgetSchema.CountAll(d.budgets.rows))
  }

  // ---------------------------------------------------------------------------
  // create

  const NoInsertId: string := "创建预算失败：无法获取插入的ID"
  const NoCreatedRow: string := "创建预算失败：无法获取创建的记录"

  /** The fields the table's constraints require of a new budget. */
  predicate Insertable(b: NewBudget) {
    BudgetSchema.Complete(b) && b.period.value in BudgetSchema.Periods
  }

  /** The row an insert of the budget stores under the id. */
  function Stored(b: NewBudget, id: int, now: string): Budget
    requires BudgetSchema.Complete(b)
  {
    BudgetSchema.Budget(id, b.name.value, b.categoryId.value, b.amount.value, b.period.value,
                        b.startDate.value, b.endDate.value, b.month.value, now, now)
  }

  function InsertEffect(d: Data, b: NewBudget, now: string): Result<Effect> {
    if !Exists(d) then Err(Missing())
    else
      match BudgetSchema.Insert(d.budgets, b, now)
      case Err(e) => Err(e)
      case Ok(t) => Ok(Effect(d.(budgets := t), Some(t.lastId)))
  }

  /** Reads the just-inserted row back by the insert id. */
  function ReadBack(s: Session, insertId: Option<int>): Step<Budget> {
    if !TruthyId(insertId) then Step(s, Err(Failed(NoInsertId)))
    else
      match FindById(s.data, insertId.value)
      case Err(e) => Step(s, Err(e))
      case Ok(None) => Step(s, Err(Failed(NoCreatedRow)))
      case Ok(Some(row)) => Step(s, Ok(row))
  }

  /** `create`: inserts the budget, then reads the row back by the insert id and
      returns it. Both checks on the way always pass after a successful insert,
      so the only errors are the engine's. */
  function Create(s: Session, b: NewBudget, clock: Clock): (r: Step<Budget>)
    ensures r.result.Ok? <==> Exists(s.data) && Insertable(b)
    ensures r.result.Err? ==> r.session == s && r.result.error.Sql?
    ensures !Exists(s.data) ==> r.result == Err(Missing())
    ensures r.result.Ok? ==>
      var id := s.data.budgets.lastId + 1;
      && r.result.value.id == id
      && r.session == Session(s.data.(budgets := Append(s.data.budgets, Stored(b, id, clock.sqlNow))), s.saved, id)
    ensures r.result.Ok? && BudgetSchema.Valid(s.data.budgets) ==>
      r.result.value == Stored(b, s.data.budgets.lastId + 1, clock.sqlNow)
    ensures Store.Valid(s.data) ==> Store.Valid(r.session.data)
  {
    var w := Connection.Write(s, (d: Data) => InsertEffect(d, b, clock.sqlNow));
    if w.result.Err? then Step(w.session, Err(w.result.error))
    else
      var id := s.data.budgets.lastId + 1;
      var rows := w.session.data.budgets.rows;
      assert rows[|rows| - 1] == Stored(b, id, clock.sqlNow);
      assert HasKey(rows, BudgetSchema.Id, id);
      assert BudgetSchema.Valid(s.data.budgets) ==> FindById(w.session.data, id) == Ok(Some(Stored(b, id, clock.sqlNow))) by {
        if BudgetSchema.Valid(s.data.budgets) {
          assert BudgetSchema.Valid(w.session.data.budgets);
          LookupUnique(rows, BudgetSchema.Id, id);
        }
      }
      ReadBack(w.session, w.result.value.insertId)
  }

  /** Inserts each budget in turn, stopping at the first that fails. */
  function CreateAll(s: Session, bs: seq<NewBudget>, clock: Clock): (r: Step<()>)
    ensures !Exists(s.data) && |bs| > 0 ==> r == Step(s, Err(Missing()))
    ensures r.result.Ok? <==> |bs| == 0 || (Exists(s.data) && forall i | 0 <= i < |bs| :: Insertable(bs[i]))
    ensures r.result.Ok? ==> r.session.data.budgets.lastId == s.data.budgets.lastId + |bs|
    ensures r.result.Ok? ==> |r.session.data.budgets.rows| == |s.data.budgets.rows| + |bs|
    ensures r.session.data == s.data.(budgets := r.session.data.budgets)
    ensures r.session.saved == s.saved
    ensures Store.Valid(s.data) ==> Store.Valid(r.session.data)
    decreases |bs|
  {
    if |bs| == 0 then Step(s, Ok(()))
    else
      var first := Create(s, bs[0], clock);
      if first.result.Err? then Step(first.session, Err(first.result.error))
      else
        var rest := CreateAll(first.session, bs[1..], clock);
        assert (forall i | 0 <= i < |bs| :: Insertable(bs[i])) <==>
               Insertable(bs[0]) && forall i | 0 <= i < |bs| - 1 :: Insertable(bs[1..][i]);
        rest
  }

  /** `insertSampleData`: the two sample budgets of the current month. */
  function InsertSampleData(s: Session, clock: Clock): (r: Step<()>)
    ensures Exists(s.data) ==> r.result.Ok?
    ensures !Exists(s.data) ==> r == Step(s, Err(Missing()))
    ensures r.result.Ok? ==> r.session.data.budgets.lastId == s.data.budgets.lastId + 2
    ensures r.result.Ok? ==> |r.session.data.budgets.rows| == |s.data.budgets.rows| + 2
    ensures r.session.data == s.data.(budgets := r.session.data.budgets)
    ensures Store.Valid(s.data) ==> Store.Valid(r.session.data)
  {
    var samples := BudgetSchema.SampleBudgets(clock);
    assert forall i | 0 <= i < |samples| :: Insertable(samples[i]);
    CreateAll(s, samples, clock)
  }

  // ---------------------------------------------------------------------------
  // update and delete

  function UpdateEffect(d: Data, id: int, p: BudgetSchema.BudgetPatch, now: string): Result<Effect> {
    if !Exists(d) then Err(Missing())
    else
      match BudgetSchema.Update(d.budgets, id, p, now)
      case Err(e) => Err(e)
      case Ok(t) => Ok(Effect(d.(budgets := t), None))
  }

  /** `update`: every field given replaces the stored one and every field left
      out keeps it; true whenever the statement ran, whether or not a row had the id. */
  function Update(s: Session, id: int, p: BudgetSchema.BudgetPatch, now: string): (r: Step<bool>)
    ensures r.result.Ok? <==> Exists(s.data) && BudgetSchema.Update(s.data.budgets, id, p, now).Ok?
    ensures r.result.Ok? ==> r.result.value
    ensures r.result.Err? ==> r.session == s
    ensures r.result.Ok? ==>
      r.session == s.(data := s.data.(budgets := BudgetSchema.Update(s.data.budgets, id, p, now).value))
    ensures Store.Valid(s.data) ==> Store.Valid(r.session.data)
  {
    var w := Connection.Write(s, (d: Data) => UpdateEffect(d, id, p, now));
    if w.result.Err? then Step(w.session, Err(w.result.error)) else Step(w.session, Ok(true))
  }

  /** After an update that leaves everything out, `findById` reads the row as
      before but for its `updatedAt`. */
  lemma EmptyUpdateKeepsRow(s: Session, id: int, now: string, i: int)
    requires Exists(s.data) && 0 <= i < |s.data.budgets.rows| && s.data.budgets.rows[i].id == id
    ensures var p := BudgetSchema.BudgetPatch(None, None, None, None, None, None, None);
      && Update(s, id, p, now).result == Ok(true)
      && Update(s, id, p, now).session.data.budgets.rows[i] == s.data.budgets.rows[i].(updatedAt := now)
  {
  }

  function DeleteEffect(d: Data, id: int): Result<Effect> {
    if !Exists(d) then Err(Missing())
    else Ok(Effect(d.(budgets := BudgetSchema.Delete(d.budgets, id)), None))
  }

  /** `delete`: true whenever the statement ran. Transactions that point at the
      budget keep their `budgetId`: the foreign key is not enforced. */
  function Delete(s: Session, id: int): (r: Step<bool>)
    ensures r.result.Ok? <==> Exists(s.data)
    ensures r.result.Ok? ==> r.result.value
    ensures r.result.Err? ==> r.session == s
    ensures r.result.Ok? ==> r.session.data == s.data.(budgets := BudgetSchema.Delete(s.data.budgets, id))
    ensures r.result.Ok? ==> forall b :: b in r.session.data.budgets.rows <==> b in s.data.budgets.rows && b.id != id
    ensures Store.Valid(s.data) ==> Store.Valid(r.session.data)
  {
    var w := Connection.Write(s, (d: Data) => DeleteEffect(d, id));
    if w.result.Err? then Step(w.session, Err(w.result.error)) else Step(w.session, Ok(true))
  }

  /** After `delete`, `findById` of the id finds nothing. */
  lemma DeleteThenFindById(s: Session, id: int)
    requires Exists(s.data)
    ensures FindById(Delete(s, id).session.data, id) == Ok(None)
  {
    var rows := Delete(s, id).session.data.budgets.rows;
    forall i | 0 <= i < |rows| ensures rows[i].id != id {
      assert rows[i] in rows;
    }
  }
}
