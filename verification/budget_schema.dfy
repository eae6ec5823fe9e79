/** The `budgets` table: its row shape, the two sample budgets, its indexes,
    and the effect of each statement in `BudgetQueries`. */
module BudgetSchema {
  import opened Wrappers
  import opened Values
  import opened Relational
  import opened Tables
  import Text
  import CategorySchema

  /** A stored row. `isRegular` and `isBudgetExceeded` belong to the entity
      interface but have no column, so they are never stored. */
  datatype Budget = Budget(
    id: int, name: string, categoryId: int, amount: int, period: string,
    startDate: string, endDate: string, month: string,
    createdAt: string, updatedAt: string)

  /** What a caller passes to `create`; an absent field reaches the statement as NULL. */
  datatype NewBudget = NewBudget(
    name: Option<string>, categoryId: Option<int>, amount: Option<int>, period: Option<string>,
    startDate: Option<string>, endDate: Option<string>, month: Option<string>,
    isRegular: bool, isBudgetExceeded: bool)

  const TableName: string := "budgets"

  /** The values the CHECK constraint on `period` admits. */
  const Periods: set<string> := {"daily", "weekly", "monthly", "yearly"}

  /** `BudgetFields.UPDATABLE`. */
  const Updatable: seq<string> :=
    ["name", "categoryId", "amount", "period", "startDate", "endDate", "month", "isRegular", "isBudgetExceeded"]

  const Indexes: seq<IndexDef> := [
    IndexDef("idx_budgets_category", TableName),
    IndexDef("idx_budgets_month", TableName),
    IndexDef("idx_budgets_startDate", TableName),
    IndexDef("idx_budgets_endDate", TableName)
  ]

  /** The two sample budgets: food (category 1, 2000) and transport (category 2,
      1000), monthly, spanning the current month. */
  function SampleBudgets(clock: Clock): (r: seq<NewBudget>)
    ensures |r| == 2
    ensures forall i | 0 <= i < 2 ::
      r[i].categoryId == Some(i + 1) && r[i].period == Some("monthly")
      && r[i].startDate == Some(clock.monthStart) && r[i].endDate == Some(clock.monthEnd)
      && r[i].month == Some(clock.month) && r[i].isRegular && !r[i].isBudgetExceeded
  {
    [ NewBudget(Some("餐饮"), Some(1), Some(2000), Some("monthly"),
                Some(clock.monthStart), Some(clock.monthEnd), Some(clock.month), true, false),
      NewBudget(Some("交通"), Some(2), Some(1000), Some("monthly"),
                Some(clock.monthStart), Some(clock.monthEnd), Some(clock.month), true, false) ]
  }

  function Id(b: Budget): int { b.id }

  function CategoryKey(b: Budget): int { b.categoryId }

  /** The table invariant: AUTOINCREMENT keys and the CHECK constraint on `period`. */
  predicate Valid(t: Table<Budget>) {
    && Keyed(t, Id)
    && (forall i | 0 <= i < |t.rows| :: t.rows[i].period in Periods)
  }

  const CheckFailed: string := "CHECK constraint failed: period IN ('daily', 'weekly', 'monthly', 'yearly')"

  function NotNullFailed(column: string): Error {
    Sql("NOT NULL constraint failed: budgets." + column)
  }

  /** The first NOT NULL column left without a value, in table order. */
  function MissingColumn(b: NewBudget): Option<string> {
    if b.name.None? then Some("name")
    else if b.categoryId.None? then Some("categoryId")
    else if b.amount.None? then Some("amount")
    else if b.period.None? then Some("period")
    else if b.startDate.None? then Some("startDate")
    else if b.endDate.None? then Some("endDate")
    else if b.month.None? then Some("month")
    else None
  }

  predicate Complete(b: NewBudget) {
    b.name.Some? && b.categoryId.Some? && b.amount.Some? && b.period.Some?
    && b.startDate.Some? && b.endDate.Some? && b.month.Some?
  }

  /** `INSERT INTO budgets (name, categoryId, amount, period, startDate, endDate, month)`:
      the row is stored under the next id when every column has a value and the
      period is admitted; otherwise the first violated constraint is raised (NOT
      NULL before CHECK) and nothing is stored. The referenced category is not
      checked: SQLite leaves foreign keys unenforced unless asked. */
  function Insert(t: Table<Budget>, b: NewBudget, now: string): (r: Result<Table<Budget>>)
    ensures r.Ok? <==> Complete(b) && b.period.value in Periods
    ensures !Complete(b) ==> r == Err(NotNullFailed(MissingColumn(b).value))
    ensures r.Ok? ==> r.value.lastId == t.lastId + 1
    ensures r.Ok? ==> r.value.rows == t.rows + [Budget(t.lastId + 1, b.name.value, b.categoryId.value, b.amount.value,
                                                      b.period.value, b.startDate.value, b.endDate.value,
                                                      b.month.value, now, now)]
    ensures r.Ok? && Valid(t) ==> Valid(r.value)
  {
    match MissingColumn(b)
    case Some(column) => Err(NotNullFailed(column))
    case None =>
      if b.period.value !in Periods then Err(Sql(CheckFailed))
      else
        var row := Budget(t.lastId + 1, b.name.value, b.categoryId.value, b.amount.value, b.period.value,
                          b.startDate.value, b.endDate.value, b.month.value, now, now);
        assert Valid(t) ==> Valid(Append(t, row)) by {
          if Valid(t) {
            AppendKeyed(t, row, Id);
          }
        }
        Ok(Append(t, row))
  }

  /** The seven COALESCE parameters of `BudgetQueries.UPDATE`; None binds NULL. */
  datatype BudgetPatch = BudgetPatch(
    name: Option<string>, categoryId: Option<int>, amount: Option<int>, period: Option<string>,
    startDate: Option<string>, endDate: Option<string>, month: Option<string>)

  function Coalesce<T>(p: Option<T>, v: T): T { if p.Some? then p.value else v }

  function Patched(b: Budget, p: BudgetPatch, now: string): Budget {
    Budget(b.id, Coalesce(p.name, b.name), Coalesce(p.categoryId, b.categoryId), Coalesce(p.amount, b.amount),
           Coalesce(p.period, b.period), Coalesce(p.startDate, b.startDate), Coalesce(p.endDate, b.endDate),
           Coalesce(p.month, b.month), b.createdAt, now)
  }

  /** `BudgetQueries.UPDATE`: the row with the id takes every non-NULL parameter and
      keeps every other column; it fails only when a row matches and the new
      period is not admitted. */
  function Update(t: Table<Budget>, id: int, p: BudgetPatch, now: string): (r: Result<Table<Budget>>)
    ensures r.Err? <==> HasKey(t.rows, Id, id) && p.period.Some? && p.period.value !in Periods
    ensures r.Ok? ==> r.value.lastId == t.lastId && |r.value.rows| == |t.rows|
    ensures r.Ok? ==> forall i | 0 <= i < |t.rows| && t.rows[i].id != id :: r.value.rows[i] == t.rows[i]
    ensures r.Ok? ==> forall i | 0 <= i < |t.rows| && t.rows[i].id == id ::
      var o, n := t.rows[i], r.value.rows[i];
      && n.id == o.id && n.createdAt == o.createdAt && n.updatedAt == now
      && (p.name.None? ==> n.name == o.name) && (p.name.Some? ==> n.name == p.name.value)
      && (p.categoryId.None? ==> n.categoryId == o.categoryId) && (p.categoryId.Some? ==> n.categoryId == p.categoryId.value)
      && (p.amount.None? ==> n.amount == o.amount) && (p.amount.Some? ==> n.amount == p.amount.value)
      && (p.period.None? ==> n.period == o.period) && (p.period.Some? ==> n.period == p.period.value)
      && (p.startDate.None? ==> n.startDate == o.startDate) && (p.startDate.Some? ==> n.startDate == p.startDate.value)
      && (p.endDate.None? ==> n.endDate == o.endDate) && (p.endDate.Some? ==> n.endDate == p.endDate.value)
      && (p.month.None? ==> n.month == o.month) && (p.month.Some? ==> n.month == p.month.value)
    ensures r.Ok? && Valid(t) ==> Valid(r.value)
  {
    if HasKey(t.rows, Id, id) && p.period.Some? && p.period.value !in Periods then Err(Sql(CheckFailed))
    else Ok(Table(Modify(t.rows, Id, id, b => Patched(b, p, now)), t.lastId))
  }

  /** `DELETE FROM budgets WHERE id = ?`. */
  function Delete(t: Table<Budget>, id: int): (r: Table<Budget>)
    ensures forall b :: b in r.rows <==> b in t.rows && b.id != id
    ensures Valid(t) ==> Valid(r)
  {
    var r := RemoveKey(t, Id, id);
    assert forall b :: b in r.rows <==> b in multiset(r.rows);
    if Valid(t) then
      RemoveKeyKeyed(t, Id, id);
      assert forall b | b in r.rows :: b in t.rows;
      r
    else r
  }

  /** The statement text `generateUpdateQuery` builds for a list of fields. */
  function GenerateUpdateQuery(fields: seq<string>): (r: string)
    requires forall i | 0 <= i < |fields| :: '?' !in fields[i]
    ensures Text.CountChar(r, '?') == |fields| + 1
  {
    Text.UpdateStatementPlaceholders(TableName, fields);
    Text.UpdateStatement(TableName, fields)
  }

  // ---------------------------------------------------------------------------
  // Orders

  /** `ORDER BY month DESC, categoryId ASC`. */
  predicate ByMonthDescCategory(a: Budget, b: Budget) {
    Text.StrLt(b.month, a.month) || (a.month == b.month && a.categoryId <= b.categoryId)
  }

  /** `ORDER BY month DESC`. */
  predicate ByMonthDesc(a: Budget, b: Budget) { Text.StrLe(b.month, a.month) }

  /** `ORDER BY categoryId ASC`. */
  predicate ByCategory(a: Budget, b: Budget) { a.categoryId <= b.categoryId }

  /** `ORDER BY id ASC`. */
  predicate ById(a: Budget, b: Budget) { a.id <= b.id }

  lemma MonthDescCategoryOrder()
    ensures TotalPreorder(ByMonthDescCategory)
  {
    forall a: Budget, b: Budget
      ensures ByMonthDescCategory(a, b) || ByMonthDescCategory(b, a)
    {
      Text.StrLeTotal(a.month, b.month);
    }
    forall a: Budget, b: Budget, c: Budget | ByMonthDescCategory(a, b) && ByMonthDescCategory(b, c)
      ensures ByMonthDescCategory(a, c)
    {
      if a.month != b.month && b.month != c.month {
        Text.StrLeTransitive(c.month, b.month, a.month);
        if c.month == a.month {
          Text.StrLeAntisymmetric(a.month, b.month);
        }
      }
    }
  }

  lemma MonthDescOrder()
    ensures TotalPreorder(ByMonthDesc)
  {
    forall a: Budget, b: Budget
      ensures ByMonthDesc(a, b) || ByMonthDesc(b, a)
    {
      Text.StrLeTotal(a.month, b.month);
    }
    forall a: Budget, b: Budget, c: Budget | ByMonthDesc(a, b) && ByMonthDesc(b, c)
      ensures ByMonthDesc(a, c)
    {
      Text.StrLeTransitive(c.month, b.month, a.month);
    }
  }

  /** A budget order applied to the budget part of joined rows. */
  predicate JoinedBy(le: (Budget, Budget) -> bool, x: CategorySchema.Joined<Budget>, y: CategorySchema.Joined<Budget>) {
    le(x.row, y.row)
  }

  lemma JoinedOrder(le: (Budget, Budget) -> bool)
    requires TotalPreorder(le)
    ensures TotalPreorder((x, y) => JoinedBy(le, x, y))
  {
  }

  function Join(rows: seq<Budget>, cats: seq<CategorySchema.Category>): seq<CategorySchema.Joined<Budget>> {
    CategorySchema.LeftJoin(rows, cats, CategoryKey)
  }

  // ---------------------------------------------------------------------------
  // Queries

  /** `SELECT * FROM budgets WHERE id = ?`. */
  function FindById(rows: seq<Budget>, id: int): (r: seq<Budget>)
    ensures forall b :: b in r <==> b in rows && b.id == id
    ensures UniqueKeys(rows, Id) ==> |r| <= 1
  {
    var r := Lookup(rows, Id, id);
    assert forall b :: b in r <==> b in multiset(r);
    if UniqueKeys(rows, Id) then LookupUnique(rows, Id, id); r else r
  }

  /** `WHERE categoryId = ? ORDER BY month DESC`. */
  function FindByCategoryId(rows: seq<Budget>, categoryId: int): (r: seq<Budget>)
    ensures multiset(r) == multiset(Where(rows, (b: Budget) => b.categoryId == categoryId))
    ensures Sorted(r, ByMonthDesc)
  {
    MonthDescOrder();
    SortSorted(Where(rows, (b: Budget) => b.categoryId == categoryId), ByMonthDesc);
    Sort(Where(rows, (b: Budget) => b.categoryId == categoryId), ByMonthDesc)
  }

  /** `WHERE categoryId = ? AND month = ? ORDER BY id ASC`. */
  function FindByCategoryAndMonth(rows: seq<Budget>, categoryId: int, month: string): (r: seq<Budget>)
    ensures forall b :: multiset(r)[b] == if b.categoryId == categoryId && b.month == month then multiset(rows)[b] else 0
    ensures Sorted(r, ById)
  {
    var m := Where(rows, (b: Budget) => b.categoryId == categoryId && b.month == month);
    SortSorted(m, ById);
    Sort(m, ById)
  }

  /** `WHERE startDate <= ? AND endDate >= ?`: the budgets whose span covers the
      given span, compared as text. */
  function FindByDateRange(rows: seq<Budget>, startDate: string, endDate: string): (r: seq<Budget>)
    ensures forall b :: multiset(r)[b] == (if Text.StrLe(b.startDate, startDate) && Text.StrLe(endDate, b.endDate) then multiset(rows)[b] else 0)
  {
    Where(rows, (b: Budget) => Text.StrLe(b.startDate, startDate) && Text.StrLe(endDate, b.endDate))
  }

  /** `WHERE period = ?`. */
  function FindByPeriod(rows: seq<Budget>, period: string): (r: seq<Budget>)
    ensures forall b :: multiset(r)[b] == if b.period == period then multiset(rows)[b] else 0
  {
    Where(rows, (b: Budget) => b.period == period)
  }

  /** `WHERE month = ? ORDER BY categoryId ASC`. */
  function FindByMonth(rows: seq<Budget>, month: string): (r: seq<Budget>)
    ensures forall b :: multiset(r)[b] == if b.month == month then multiset(rows)[b] else 0
    ensures Sorted(r, ByCategory)
  {
    var m := Where(rows, (b: Budget) => b.month == month);
    SortSorted(m, ByCategory);
    Sort(m, ByCategory)
  }

  /** `WHERE month >= ? ORDER BY month DESC, categoryId ASC`: the budgets of the
      given month or later. */
  function FindActive(rows: seq<Budget>, month: string): (r: seq<Budget>)
    ensures forall b :: multiset(r)[b] == if Text.StrLe(month, b.month) then multiset(rows)[b] else 0
    ensures Sorted(r, ByMonthDescCategory)
  {
    var m := Where(rows, (b: Budget) => Text.StrLe(month, b.month));
    MonthDescCategoryOrder();
    SortSorted(m, ByMonthDescCategory);
    Sort(m, ByMonthDescCategory)
  }

  /** `FIND_ALL_WITH_CATEGORY`: every budget joined with its category, by month
      descending then category id. */
  function FindAllWithCategory(rows: seq<Budget>, cats: seq<CategorySchema.Category>): (r: seq<CategorySchema.Joined<Budget>>)
    ensures multiset(r) == multiset(Join(rows, cats))
    ensures Sorted(r, (x, y) => JoinedBy(ByMonthDescCategory, x, y))
  {
    MonthDescCategoryOrder();
    JoinedOrder(ByMonthDescCategory);
    SortSorted(Join(rows, cats), (x, y) => JoinedBy(ByMonthDescCategory, x, y));
    Sort(Join(rows, cats), (x, y) => JoinedBy(ByMonthDescCategory, x, y))
  }

  /** `FIND_BY_MONTH_WITH_CATEGORY`: the month's budgets joined, by category id. */
  function FindByMonthWithCategory(rows: seq<Budget>, cats: seq<CategorySchema.Category>, month: string)
    : (r: seq<CategorySchema.Joined<Budget>>)
    ensures multiset(r) == multiset(Join(Where(rows, (b: Budget) => b.month == month), cats))
    ensures Sorted(r, (x, y) => JoinedBy(ByCategory, x, y))
  {
    var j := Join(Where(rows, (b: Budget) => b.month == month), cats);
    JoinedOrder(ByCategory);
    SortSorted(j, (x, y) => JoinedBy(ByCategory, x, y));
    Sort(j, (x, y) => JoinedBy(ByCategory, x, y))
  }

  /** `FIND_BY_ID_WITH_CATEGORY`. */
  function FindByIdWithCategory(rows: seq<Budget>, cats: seq<CategorySchema.Category>, id: int)
    : (r: seq<CategorySchema.Joined<Budget>>)
    ensures UniqueKeys(rows, Id) && UniqueKeys(cats, CategorySchema.Id) ==>
      forall i | 0 <= i < |rows| && rows[i].id == id ::
        r == [CategorySchema.Joined(rows[i], CategorySchema.CategoryOf(cats, rows[i].categoryId))]
    ensures !HasKey(rows, Id, id) ==> r == []
    ensures forall j | j in r :: j.row in rows && j.row.id == id
  {
    var m := Lookup(rows, Id, id);
    assert UniqueKeys(rows, Id) && UniqueKeys(cats, CategorySchema.Id) ==>
      forall i | 0 <= i < |rows| && rows[i].id == id ::
        Join(m, cats) == [CategorySchema.Joined(rows[i], CategorySchema.CategoryOf(cats, rows[i].categoryId))] by {
      if UniqueKeys(rows, Id) && UniqueKeys(cats, CategorySchema.Id) {
        LookupUnique(rows, Id, id);
        CategorySchema.LeftJoinUnique(m, cats, CategoryKey);
      }
    }
    assert !HasKey(rows, Id, id) ==> Join(m, cats) == [] by {
      if !HasKey(rows, Id, id) {
        assert forall x | x in multiset(m) :: x in multiset(rows) && x.id == id;
        assert m == [];
      }
    }
    Join(m, cats)
  }

  /** `SELECT COUNT(*) as count FROM budgets`. */
  function CountAll(rows: seq<Budget>): (r: nat)
    ensures r == |rows|
  {
    Relational.SumByOnes(rows);
    Relational.Count(rows)
  }
}
