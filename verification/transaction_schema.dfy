/** The `transactions` table: its row shape, the two sample transactions, its
    indexes, and the effect of each statement in `TransactionQueries`, including
    the totals and the per-category and per-budget summaries. */
module TransactionSchema {
  import opened Wrappers
  import opened Values
  import opened Relational
  import opened Tables
  import Text
  import CategorySchema
  import BudgetSchema

  /** A stored row; `description` is the one nullable column. */
  datatype Transaction = Transaction(
    id: int, amount: int, categoryId: int, budgetId: int, description: Option<string>,
    date: string, kind: string, createdAt: string, updatedAt: string)

  /** What a caller passes to `create`; an absent field reaches the statement as NULL. */
  datatype NewTransaction = NewTransaction(
    amount: Option<int>, categoryId: Option<int>, budgetId: Option<int>,
    description: Option<string>, date: Option<string>, kind: Option<string>)

  const TableName: string := "transactions"

  /** The values the CHECK constraint on `type` admits. */
  const Kinds: set<string> := {"income", "expense"}

  /** `TransactionFields.UPDATABLE`. */
  const Updatable: seq<string> := ["amount", "categoryId", "budgetId", "description", "date", "type"]

  const Indexes: seq<IndexDef> := [
    IndexDef("idx_transactions_date", TableName),
    IndexDef("idx_transactions_category", TableName),
    IndexDef("idx_transactions_budget", TableName)
  ]

  /** The two sample transactions: a 30 lunch against category 1 and budget 1, and a
      100 metro ticket against category 2 and budget 2, both expenses dated now. */
  function SampleTransactions(clock: Clock): (r: seq<NewTransaction>)
    ensures |r| == 2
    ensures forall i | 0 <= i < 2 ::
      r[i].categoryId == Some(i + 1) && r[i].budgetId == Some(i + 1)
      && r[i].kind == Some("expense") && r[i].date == Some(clock.isoNow) && r[i].description.Some?
  {
    [ NewTransaction(Some(30), Some(1), Some(1), Some("午餐"), Some(clock.isoNow), Some("expense")),
      NewTransaction(Some(100), Some(2), Some(2), Some("地铁票"), Some(clock.isoNow), Some("expense")) ]
  }

  function Id(t: Transaction): int { t.id }
  function CategoryKey(t: Transaction): int { t.categoryId }
  function BudgetKey(t: Transaction): int { t.budgetId }
  function Amount(t: Transaction): int { t.amount }
  function One(t: Transaction): int { 1 }

  /** The table invariant: AUTOINCREMENT keys and the CHECK constraint on `type`. */
  predicate Valid(t: Table<Transaction>) {
    && Keyed(t, Id)
    && (forall i | 0 <= i < |t.rows| :: t.rows[i].kind in Kinds)
  }

  const CheckFailed: string := "CHECK constraint failed: type IN ('income', 'expense')"

  function NotNullFailed(column: string): Error {
    Sql("NOT NULL constraint failed: transactions." + column)
  }

  /** The first NOT NULL column left without a value, in table order. */
  function MissingColumn(t: NewTransaction): Option<string> {
    if t.amount.None? then Some("amount")
    else if t.categoryId.None? then Some("categoryId")
    else if t.budgetId.None? then Some("budgetId")
    else if t.date.None? then Some("date")
    else if t.kind.None? then Some("type")
    else None
  }

  predicate Complete(t: NewTransaction) {
    t.amount.Some? && t.categoryId.Some? && t.budgetId.Some? && t.date.Some? && t.kind.Some?
  }

  /** `INSERT INTO transactions (amount, categoryId, budgetId, description, date, type)`:
      stored under the next id when every NOT NULL column has a value and the type
      is admitted (the description may be NULL); otherwise the first violated
      constraint is raised and nothing is stored. Foreign keys are not enforced. */
  function Insert(t: Table<Transaction>, n: NewTransaction, now: string): (r: Result<Table<Transaction>>)
    ensures r.Ok? <==> Complete(n) && n.kind.value in Kinds
    ensures !Complete(n) ==> r == Err(NotNullFailed(MissingColumn(n).value))
    ensures r.Ok? ==> r.value.lastId == t.lastId + 1
    ensures r.Ok? ==> r.value.rows == t.rows + [Transaction(t.lastId + 1, n.amount.value, n.categoryId.value,
                                                           n.budgetId.value, n.description, n.date.value,
                                                           n.kind.value, now, now)]
    ensures r.Ok? && Valid(t) ==> Valid(r.value)
  {
    match MissingColumn(n)
    case Some(column) => Err(NotNullFailed(column))
    case None =>
      if n.kind.value !in Kinds then Err(Sql(CheckFailed))
      else
        var row := Transaction(t.lastId + 1, n.amount.value, n.categoryId.value, n.budgetId.value,
                               n.description, n.date.value, n.kind.value, now, now);
        assert Valid(t) ==> Valid(Append(t, row)) by {
          if Valid(t) {
            AppendKeyed(t, row, Id);
          }
        }
        Ok(Append(t, row))
  }

  /** The six COALESCE parameters of `TransactionQueries.UPDATE`; None binds NULL. */
  datatype TransactionPatch = TransactionPatch(
    amount: Option<int>, categoryId: Option<int>, budgetId: Option<int>,
    description: Option<string>, date: Option<string>, kind: Option<string>)

  function Coalesce<T>(p: Option<T>, v: T): T { if p.Some? then p.value else v }

  function Patched(t: Transaction, p: TransactionPatch, now: string): Transaction {
    Transaction(t.id, Coalesce(p.amount, t.amount), Coalesce(p.categoryId, t.categoryId),
                Coalesce(p.budgetId, t.budgetId), if p.description.Some? then p.description else t.description,
                Coalesce(p.date, t.date), Coalesce(p.kind, t.kind), t.createdAt, now)
  }

  /** `TransactionQueries.UPDATE`: the row with the id takes every non-NULL parameter
      and keeps every other column, so a description can be replaced but never
      cleared; it fails only when a row matches and the new type is not admitted. */
  function Update(t: Table<Transaction>, id: int, p: TransactionPatch, now: string): (r: Result<Table<Transaction>>)
    ensures r.Err? <==> HasKey(t.rows, Id, id) && p.kind.Some? && p.kind.value !in Kinds
    ensures r.Ok? ==> r.value.lastId == t.lastId && |r.value.rows| == |t.rows|
    ensures r.Ok? ==> forall i | 0 <= i < |t.rows| && t.rows[i].id != id :: r.value.rows[i] == t.rows[i]
    ensures r.Ok? ==> forall i | 0 <= i < |t.rows| && t.rows[i].id == id ::
      var o, n := t.rows[i], r.value.rows[i];
      && n.id == o.id && n.createdAt == o.createdAt && n.updatedAt == now
      && (p.amount.None? ==> n.amount == o.amount) && (p.amount.Some? ==> n.amount == p.amount.value)
      && (p.categoryId.None? ==> n.categoryId == o.categoryId) && (p.categoryId.Some? ==> n.categoryId == p.categoryId.value)
      && (p.budgetId.None? ==> n.budgetId == o.budgetId) && (p.budgetId.Some? ==> n.budgetId == p.budgetId.value)
      && (p.description.None? ==> n.description == o.description) && (p.description.Some? ==> n.description == p.description)
      && (p.date.None? ==> n.date == o.date) && (p.date.Some? ==> n.date == p.date.value)
      && (p.kind.None? ==> n.kind == o.kind) && (p.kind.Some? ==> n.kind == p.kind.value)
    ensures r.Ok? ==> forall i | 0 <= i < |t.rows| :: t.rows[i].description.Some? ==> r.value.rows[i].description.Some?
    ensures r.Ok? && Valid(t) ==> Valid(r.value)
  {
    if HasKey(t.rows, Id, id) && p.kind.Some? && p.kind.value !in Kinds then Err(Sql(CheckFailed))
    else Ok(Table(Modify(t.rows, Id, id, x => Patched(x, p, now)), t.lastId))
  }

  /** `DELETE FROM transactions WHERE id = ?`. */
  function Delete(t: Table<Transaction>, id: int): (r: Table<Transaction>)
    ensures forall x :: x in r.rows <==> x in t.rows && x.id != id
    ensures Valid(t) ==> Valid(r)
  {
    var r := RemoveKey(t, Id, id);
    assert forall x :: x in r.rows <==> x in multiset(r.rows);
    if Valid(t) then
      RemoveKeyKeyed(t, Id, id);
      assert forall x | x in r.rows :: x in t.rows;
      r
    else r
  }

  /** The statement text `generateUpdateQuery` builds for a list of fields. */
  function GenerateUpdateQuery(fields: seq<string>): (r: string)
    requires forall i | 0 <= i < |fields| :: '?' !in fields[i]
    ensures Text.CountChar(r, '?') == |fields| + 1
  {
    Text.UpdateStatementPlaceholders(TableName, fields);
    Text.UpdateStatement(TableName, fields)
  }

  // ---------------------------------------------------------------------------
  // Queries

  /** `ORDER BY date DESC`, dates compared as text. */
  predicate ByDateDesc(a: Transaction, b: Transaction) { Text.StrLe(b.date, a.date) }

  lemma DateDescOrder()
    ensures TotalPreorder(ByDateDesc)
  {
    forall a: Transaction, b: Transaction
      ensures ByDateDesc(a, b) || ByDateDesc(b, a)
    {
      Text.StrLeTotal(a.date, b.date);
    }
    forall a: Transaction, b: Transaction, c: Transaction | ByDateDesc(a, b) && ByDateDesc(b, c)
      ensures ByDateDesc(a, c)
    {
      Text.StrLeTransitive(c.date, b.date, a.date);
    }
  }

  /** Newest first. */
  function NewestFirst(rows: seq<Transaction>): (r: seq<Transaction>)
    ensures multiset(r) == multiset(rows)
    ensures Sorted(r, ByDateDesc)
  {
    DateDescOrder();
    SortSorted(rows, ByDateDesc);
    Sort(rows, ByDateDesc)
  }

  /** `date BETWEEN ? AND ?`: both ends included. */
  predicate InRange(t: Transaction, startDate: string, endDate: string) {
    Text.StrLe(startDate, t.date) && Text.StrLe(t.date, endDate)
  }

  function Between(startDate: string, endDate: string): Transaction -> bool {
    (t: Transaction) => InRange(t, startDate, endDate)
  }

  /** `SELECT * FROM transactions WHERE id = ?`. */
  function FindById(rows: seq<Transaction>, id: int): (r: seq<Transaction>)
    ensures forall x :: x in r <==> x in rows && x.id == id
    ensures UniqueKeys(rows, Id) ==> |r| <= 1
  {
    var r := Lookup(rows, Id, id);
    assert forall x :: x in r <==> x in multiset(r);
    if UniqueKeys(rows, Id) then LookupUnique(rows, Id, id); r else r
  }

  /** `SELECT * FROM transactions ORDER BY date DESC`. */
  function FindAll(rows: seq<Transaction>): (r: seq<Transaction>)
    ensures multiset(r) == multiset(rows)
    ensures Sorted(r, ByDateDesc)
  {
    NewestFirst(rows)
  }

  /** `WHERE categoryId = ? ORDER BY date DESC`. */
  function FindByCategoryId(rows: seq<Transaction>, categoryId: int): (r: seq<Transaction>)
    ensures forall x :: multiset(r)[x] == if x.categoryId == categoryId then multiset(rows)[x] else 0
    ensures Sorted(r, ByDateDesc)
  {
    NewestFirst(Where(rows, (x: Transaction) => x.categoryId == categoryId))
  }

  /** `WHERE budgetId = ? ORDER BY date DESC`. */
  function FindByBudgetId(rows: seq<Transaction>, budgetId: int): (r: seq<Transaction>)
    ensures forall x :: multiset(r)[x] == if x.budgetId == budgetId then multiset(rows)[x] else 0
    ensures Sorted(r, ByDateDesc)
  {
    NewestFirst(Where(rows, (x: Transaction) => x.budgetId == budgetId))
  }

  /** `WHERE date BETWEEN ? AND ? ORDER BY date DESC`. */
  function FindByDateRange(rows: seq<Transaction>, startDate: string, endDate: string): (r: seq<Transaction>)
    ensures forall x :: multiset(r)[x] == if InRange(x, startDate, endDate) then multiset(rows)[x] else 0
    ensures Sorted(r, ByDateDesc)
  {
    NewestFirst(Where(rows, Between(startDate, endDate)))
  }

  /** A transaction order applied to the transaction part of joined rows. */
  predicate JoinedByDateDesc(x: CategorySchema.Joined<Transaction>, y: CategorySchema.Joined<Transaction>) {
    ByDateDesc(x.row, y.row)
  }

  function Join(rows: seq<Transaction>, cats: seq<CategorySchema.Category>): seq<CategorySchema.Joined<Transaction>> {
    CategorySchema.LeftJoin(rows, cats, CategoryKey)
  }

  /** `FIND_ALL_WITH_CATEGORY`: every transaction with its category, newest first. */
  function FindAllWithCategory(rows: seq<Transaction>, cats: seq<CategorySchema.Category>)
    : (r: seq<CategorySchema.Joined<Transaction>>)
    ensures multiset(r) == multiset(Join(rows, cats))
    ensures Sorted(r, JoinedByDateDesc)
  {
    DateDescOrder();
    SortSorted(Join(rows, cats), JoinedByDateDesc);
    Sort(Join(rows, cats), JoinedByDateDesc)
  }

  /** `FIND_BY_DATE_RANGE_WITH_CATEGORY`: the in-range transactions with their
      categories, newest first. */
  function FindByDateRangeWithCategory(rows: seq<Transaction>, cats: seq<CategorySchema.Category>,
                                       startDate: string, endDate: string)
    : (r: seq<CategorySchema.Joined<Transaction>>)
    ensures multiset(r) == multiset(Join(Where(rows, Between(startDate, endDate)), cats))
    ensures forall k | 0 <= k < |r| :: InRange(r[k].row, startDate, endDate)
    ensures Sorted(r, JoinedByDateDesc)
  {
    var j := Join(Where(rows, Between(startDate, endDate)), cats);
    DateDescOrder();
    SortSorted(j, JoinedByDateDesc);
    var r := Sort(j, JoinedByDateDesc);
    forall k | 0 <= k < |r|
      ensures InRange(r[k].row, startDate, endDate)
    {
      assert r[k] in multiset(j);
    }
    r
  }

  /** `FIND_BY_ID_WITH_CATEGORY`. */
  function FindByIdWithCategory(rows: seq<Transaction>, cats: seq<CategorySchema.Category>, id: int)
    : (r: seq<CategorySchema.Joined<Transaction>>)
    ensures UniqueKeys(rows, Id) && UniqueKeys(cats, CategorySchema.Id) ==>
      forall i | 0 <= i < |rows| && rows[i].id == id ::
        r == [CategorySchema.Joined(rows[i], CategorySchema.CategoryOf(cats, rows[i].categoryId))]
    ensures !HasKey(rows, Id, id) ==> r == []
    ensures forall j | j in r :: j.row in rows && j.row.id == id
  {
    var m := Lookup(rows, Id, id);
    assert UniqueKeys(rows, Id) && UniqueKeys(cats, CategorySchema.Id) ==>
      forall i | 0 <= i < |rows| && rows[i].id == id ::
        Join(m, cats) == [CategorySchema.Joined(rows[i], CategorySchema.CategoryOf(cats, rows[i].categoryId))] by {
      if UniqueKeys(rows, Id) && UniqueKeys(cats, CategorySchema.Id) {
        LookupUnique(rows, Id, id);
        CategorySchema.LeftJoinUnique(m, cats, CategoryKey);
      }
    }
    assert !HasKey(rows, Id, id) ==> Join(m, cats) == [] by {
      if !HasKey(rows, Id, id) {
        assert forall x | x in multiset(m) :: x in multiset(rows) && x.id == id;
        assert m == [];
      }
    }
    Join(m, cats)
  }

  /** `SELECT COUNT(*) as count FROM transactions`. */
  function CountAll(rows: seq<Transaction>): (r: nat)
    ensures r == |rows|
  {
    Relational.SumByOnes(rows);
    Relational.Count(rows)
  }

  // ---------------------------------------------------------------------------
  // Totals

  function KindIs(kind: string): Transaction -> bool {
    (t: Transaction) => t.kind == kind
  }

  /** `GET_TOTAL_BY_TYPE`: the sum of the amounts of one type, 0 when there are none. */
  function TotalByType(rows: seq<Transaction>, kind: string): int {
    SumBy(Where(rows, KindIs(kind)), Amount)
  }

  /** In a valid table every amount is income or expense, so the two totals add up
      to the sum of all amounts. */
  lemma IncomePlusExpense(t: Table<Transaction>)
    requires Valid(t)
    ensures TotalByType(t.rows, "income") + TotalByType(t.rows, "expense") == SumBy(t.rows, Amount)
  {
    SumBySplit(t.rows, KindIs("income"), Amount);
    NotIncomeIsExpense(t.rows);
  }

  lemma NotIncomeIsExpense(rows: seq<Transaction>)
    requires forall i | 0 <= i < |rows| :: rows[i].kind in Kinds
    ensures Where(rows, Not(KindIs("income"))) == Where(rows, KindIs("expense"))
  {
    forall i | 0 <= i < |rows|
      ensures Not(KindIs("income"))(rows[i]) == KindIs("expense")(rows[i])
    {
      assert rows[i].kind in Kinds;
    }
    WhereAgree(rows, Not(KindIs("income")), KindIs("expense"));
  }

  /** The order of the rows does not change a total. */
  lemma TotalIgnoresOrder(a: seq<Transaction>, b: seq<Transaction>, kind: string)
    requires multiset(a) == multiset(b)
    ensures TotalByType(a, kind) == TotalByType(b, kind)
  {
    var wa, wb := Where(a, KindIs(kind)), Where(b, KindIs(kind));
    assert multiset(wa) == multiset(wb) by {
      assert forall x :: multiset(wa)[x] == multiset(wb)[x];
    }
    SumByPermutation(wa, wb, Amount);
  }

  // ---------------------------------------------------------------------------
  // Summary by category

  /** One row of `GET_SUMMARY_BY_CATEGORY`. */
  datatype CategorySummary = CategorySummary(categoryId: int, categoryName: Option<string>, total: int, count: int)

  function SummaryTotal(s: CategorySummary): int { s.total }
  function SummaryCount(s: CategorySummary): int { s.count }

  /** `ORDER BY total DESC`. */
  predicate ByTotalDesc(a: CategorySummary, b: CategorySummary) { a.total >= b.total }

  /** The category ids of the rows, each once, in order of first appearance. */
  function CategoryIds(rows: seq<Transaction>): (r: seq<int>)
    ensures NoDuplicates(r)
    ensures forall k | k in r :: exists i | 0 <= i < |rows| :: rows[i].categoryId == k
    ensures forall i | 0 <= i < |rows| :: rows[i].categoryId in r
  {
    var ids := seq(|rows|, i requires 0 <= i < |rows| => rows[i].categoryId);
    assert forall i | 0 <= i < |rows| :: ids[i] == rows[i].categoryId;
    assert forall k | k in ids :: exists i | 0 <= i < |rows| :: rows[i].categoryId == k;
    Distinct(ids)
  }

  function CategoryName(cats: seq<CategorySchema.Category>, id: int): Option<string> {
    var c := CategorySchema.CategoryOf(cats, id);
    if c.Some? then Some(c.value.name) else None
  }

  /** A summary row carries its category's name and the total and number of the
      rows charged to that category. */
  predicate Summarizes(s: CategorySummary, rows: seq<Transaction>, cats: seq<CategorySchema.Category>) {
    && s.categoryName == CategoryName(cats, s.categoryId)
    && s.total == SumBy(Where(rows, KeyIs(CategoryKey, s.categoryId)), Amount)
    && s.count == |Where(rows, KeyIs(CategoryKey, s.categoryId))|
  }

  function SummaryCategory(s: CategorySummary): int { s.categoryId }

  /** One summary per key, in the order of the keys. */
  function CategoryGroups(keys: seq<int>, rows: seq<Transaction>, cats: seq<CategorySchema.Category>)
    : (r: seq<CategorySummary>)
    ensures |r| == |keys|
    ensures forall i | 0 <= i < |keys| ::
      r[i].categoryId == keys[i] && r[i].categoryName == CategoryName(cats, keys[i])
      && r[i].total == SumBy(Where(rows, KeyIs(CategoryKey, keys[i])), Amount)
      && r[i].count == |Where(rows, KeyIs(CategoryKey, keys[i]))|
  {
    if |keys| == 0 then []
    else
      var group := Where(rows, KeyIs(CategoryKey, keys[0]));
      [CategorySummary(keys[0], CategoryName(cats, keys[0]), SumBy(group, Amount), |group|)]
        + CategoryGroups(keys[1..], rows, cats)
  }

  lemma {:induction false} CategoryGroupsSums(keys: seq<int>, rows: seq<Transaction>, cats: seq<CategorySchema.Category>)
    ensures SumBy(CategoryGroups(keys, rows, cats), SummaryTotal) == SumGroups(keys, rows, CategoryKey, Amount)
    ensures SumBy(CategoryGroups(keys, rows, cats), SummaryCount) == SumGroups(keys, rows, CategoryKey, One)
  {
    if |keys| > 0 {
      CategoryGroupsSums(keys[1..], rows, cats);
      SumByOnesAt(Where(rows, KeyIs(CategoryKey, keys[0])));
    }
  }

  lemma {:induction false} SumByOnesAt(s: seq<Transaction>)
    ensures SumBy(s, One) == |s|
  {
    if |s| > 0 {
      SumByOnesAt(s[1..]);
    }
  }

  /** Every group row summarizes its key, and distinct keys give distinct rows. */
  lemma CategoryGroupsDescribe(keys: seq<int>, rows: seq<Transaction>, cats: seq<CategorySchema.Category>)
    requires NoDuplicates(keys)
    ensures forall g | g in CategoryGroups(keys, rows, cats) :: Summarizes(g, rows, cats)
    ensures UniqueKeys(CategoryGroups(keys, rows, cats), SummaryCategory)
  {
    var groups := CategoryGroups(keys, rows, cats);
    forall g | g in groups
      ensures Summarizes(g, rows, cats)
    {
      var n :| 0 <= n < |groups| && groups[n] == g;
    }
    forall i, j | 0 <= i < j < |groups|
      ensures SummaryCategory(groups[i]) != SummaryCategory(groups[j])
    {
      assert keys[i] != keys[j];
    }
  }

  lemma CategoryGroupsPositive(rows: seq<Transaction>, cats: seq<CategorySchema.Category>)
    ensures forall g | g in CategoryGroups(CategoryIds(rows), rows, cats) :: g.count >= 1
  {
    var keys := CategoryIds(rows);
    var groups := CategoryGroups(keys, rows, cats);
    forall g | g in groups
      ensures g.count >= 1
    {
      var n :| 0 <= n < |groups| && groups[n] == g;
      assert keys[n] in keys;
      var i :| 0 <= i < |rows| && rows[i].categoryId == keys[n];
      GroupNotEmpty(rows, i);
    }
  }

  lemma GroupNotEmpty(rows: seq<Transaction>, i: int)
    requires 0 <= i < |rows|
    ensures |Where(rows, KeyIs(CategoryKey, rows[i].categoryId))| >= 1
  {
    var w := Where(rows, KeyIs(CategoryKey, rows[i].categoryId));
    assert KeyIs(CategoryKey, rows[i].categoryId)(rows[i]);
    assert multiset(w)[rows[i]] == multiset(rows)[rows[i]];
    assert rows[i] in multiset(rows);
  }

  lemma CategoryGroupsCover(rows: seq<Transaction>, cats: seq<CategorySchema.Category>)
    ensures forall i | 0 <= i < |rows| :: exists g | g in CategoryGroups(CategoryIds(rows), rows, cats) :: g.categoryId == rows[i].categoryId
  {
    var keys := CategoryIds(rows);
    var groups := CategoryGroups(keys, rows, cats);
    forall i | 0 <= i < |rows|
      ensures exists g | g in groups :: g.categoryId == rows[i].categoryId
    {
      var n :| 0 <= n < |keys| && keys[n] == rows[i].categoryId;
      assert groups[n] in groups;
    }
  }

  lemma CategoryGroupsTotals(rows: seq<Transaction>, cats: seq<CategorySchema.Category>)
    ensures SumBy(CategoryGroups(CategoryIds(rows), rows, cats), SummaryTotal) == SumBy(rows, Amount)
    ensures SumBy(CategoryGroups(CategoryIds(rows), rows, cats), SummaryCount) == |rows|
  {
    var keys := CategoryIds(rows);
    forall i | 0 <= i < |rows|
      ensures CategoryKey(rows[i]) in keys
    {
    }
    CategoryGroupsSums(keys, rows, cats);
    SumGroupsPartition(keys, rows, CategoryKey, Amount);
    SumGroupsPartition(keys, rows, CategoryKey, One);
    SumByOnesAt(rows);
  }

  /** Every in-range row has a category id among the groups. */
  lemma InRangeGroupsCover(rows: seq<Transaction>, inRange: seq<Transaction>, groups: seq<CategorySummary>,
                           startDate: string, endDate: string)
    requires inRange == Where(rows, Between(startDate, endDate))
    requires forall t | t in inRange :: exists g | g in groups :: g.categoryId == t.categoryId
    ensures forall i | 0 <= i < |rows| && InRange(rows[i], startDate, endDate) ::
      exists g | g in groups :: g.categoryId == rows[i].categoryId
  {
    forall i | 0 <= i < |rows| && InRange(rows[i], startDate, endDate)
      ensures exists g | g in groups :: g.categoryId == rows[i].categoryId
    {
      WhereKeeps(rows, Between(startDate, endDate), rows[i]);
    }
  }

  /** What reordering preserves: membership and sums. */
  lemma ReorderedSummaries(groups: seq<CategorySummary>, r: seq<CategorySummary>)
    requires multiset(r) == multiset(groups)
    ensures forall s | s in r :: s in groups
    ensures forall s | s in groups :: s in r
    ensures SumBy(r, SummaryTotal) == SumBy(groups, SummaryTotal)
    ensures SumBy(r, SummaryCount) == SumBy(groups, SummaryCount)
  {
    assert forall s | s in r :: s in multiset(r);
    assert forall s | s in groups :: s in multiset(groups);
    SumByPermutation(r, groups, SummaryTotal);
    SumByPermutation(r, groups, SummaryCount);
  }

  /** `GET_SUMMARY_BY_CATEGORY`: for the transactions dated in the range, one row per
      category id with the category's name (NULL when no category has that id),
      the sum of the amounts and the number of transactions; largest total first.
      The totals add up to the in-range total and the counts to the in-range count. */
  function SummaryByCategory(rows: seq<Transaction>, cats: seq<CategorySchema.Category>,
                             startDate: string, endDate: string): (r: seq<CategorySummary>)
    ensures Sorted(r, ByTotalDesc)
    ensures forall s | s in r :: s.count >= 1
    ensures forall i | 0 <= i < |rows| && InRange(rows[i], startDate, endDate) ::
      exists s | s in r :: s.categoryId == rows[i].categoryId
    ensures SumBy(r, SummaryTotal) == SumBy(Where(rows, Between(startDate, endDate)), Amount)
    ensures SumBy(r, SummaryCount) == |Where(rows, Between(startDate, endDate))|
    ensures forall s | s in r :: Summarizes(s, Where(rows, Between(startDate, endDate)), cats)
    ensures forall i, j | 0 <= i < j < |r| :: r[i].categoryId != r[j].categoryId
  {
    var inRange := Where(rows, Between(startDate, endDate));
    var groups := CategoryGroups(CategoryIds(inRange), inRange, cats);
    CategoryGroupsDescribe(CategoryIds(inRange), inRange, cats);
    PermutationUniqueKeys(groups, Sort(groups, ByTotalDesc), SummaryCategory);
    SortSorted(groups, ByTotalDesc);
    var r := Sort(groups, ByTotalDesc);
    CategoryGroupsPositive(inRange, cats);
    CategoryGroupsCover(inRange, cats);
    CategoryGroupsTotals(inRange, cats);
    ReorderedSummaries(groups, r);
    InRangeGroupsCover(rows, inRange, r, startDate, endDate);
    r
  }

  // ---------------------------------------------------------------------------
  // Summary by budget

  /** One row of `GET_SUMMARY_BY_BUDGET`. */
  datatype BudgetSummary = BudgetSummary(budgetId: int, budgetName: string, totalSpent: int, budgetAmount: int, isExceeded: int)

  /** The in-range spending charged to a budget. */
  function Spent(inRange: seq<Transaction>, budgetId: int): int {
    SumBy(Where(inRange, KeyIs(BudgetKey, budgetId)), Amount)
  }

  /** Some in-range transaction is charged to the budget. */
  predicate HasSpending(inRange: seq<Transaction>, budgetId: int) {
    exists t | t in inRange :: t.budgetId == budgetId
  }

  function SummaryOf(b: BudgetSchema.Budget, inRange: seq<Transaction>): (s: BudgetSummary)
    ensures s.isExceeded == 1 <==> s.totalSpent > s.budgetAmount
    ensures s.isExceeded == 0 <==> s.totalSpent <= s.budgetAmount
  {
    var spent := Spent(inRange, b.id);
    BudgetSummary(b.id, b.name, spent, b.amount, if spent > b.amount then 1 else 0)
  }

  function Summaries(budgets: seq<BudgetSchema.Budget>, inRange: seq<Transaction>): (r: seq<BudgetSummary>)
    ensures |r| == |budgets|
    ensures forall i | 0 <= i < |budgets| :: r[i] == SummaryOf(budgets[i], inRange)
  {
    seq(|budgets|, i requires 0 <= i < |budgets| => SummaryOf(budgets[i], inRange))
  }

  /** The condition `t.id IS NOT NULL` left after the join: some in-range spending. */
  function Spends(inRange: seq<Transaction>): BudgetSchema.Budget -> bool {
    (b: BudgetSchema.Budget) => HasSpending(inRange, b.id)
  }

  /** The summary row of some budget with in-range spending. */
  predicate FromSpendingBudget(s: BudgetSummary, budgets: seq<BudgetSchema.Budget>, inRange: seq<Transaction>) {
    exists b | b in budgets :: s == SummaryOf(b, inRange) && HasSpending(inRange, b.id)
  }

  /** Each summary row comes from a budget with some in-range spending. */
  lemma SpendingSummariesSound(budgets: seq<BudgetSchema.Budget>, inRange: seq<Transaction>, r: seq<BudgetSummary>)
    requires r == Summaries(Where(budgets, Spends(inRange)), inRange)
    ensures forall i | 0 <= i < |r| :: FromSpendingBudget(r[i], budgets, inRange)
  {
    var spending := Where(budgets, Spends(inRange));
    forall i | 0 <= i < |r|
      ensures FromSpendingBudget(r[i], budgets, inRange)
    {
      var b := spending[i];
      assert Spends(inRange)(b) && b in budgets;
    }
  }

  /** Each budget with some in-range spending has a summary row. */
  lemma SpendingSummariesComplete(budgets: seq<BudgetSchema.Budget>, inRange: seq<Transaction>, r: seq<BudgetSummary>)
    requires r == Summaries(Where(budgets, Spends(inRange)), inRange)
    ensures forall b | b in budgets && HasSpending(inRange, b.id) :: exists i | 0 <= i < |r| :: r[i].budgetId == b.id
  {
    forall b | b in budgets && HasSpending(inRange, b.id)
      ensures exists i | 0 <= i < |r| :: r[i].budgetId == b.id
    {
      var i := SpendingSummaryRow(budgets, inRange, r, b);
    }
  }

  /** Where a budget with some in-range spending has its summary row. */
  lemma SpendingSummaryRow(budgets: seq<BudgetSchema.Budget>, inRange: seq<Transaction>, r: seq<BudgetSummary>,
                           b: BudgetSchema.Budget) returns (i: int)
    requires r == Summaries(Where(budgets, Spends(inRange)), inRange)
    requires b in budgets && HasSpending(inRange, b.id)
    ensures 0 <= i < |r| && r[i].budgetId == b.id
  {
    var spending := Where(budgets, Spends(inRange));
    assert Spends(inRange)(b);
    WhereKeeps(budgets, Spends(inRange), b);
    i :| 0 <= i < |spending| && spending[i] == b;
    assert r[i] == SummaryOf(b, inRange);
  }

  /** `GET_SUMMARY_BY_BUDGET` as written: the LEFT JOIN of budgets with
      transactions is filtered on the transaction's date, which discards the
      NULL-extended rows, so only budgets with at least one in-range transaction
      appear. Each carries its spending and whether that exceeds its amount. */
  function SummaryByBudget(budgets: seq<BudgetSchema.Budget>, rows: seq<Transaction>,
                           startDate: string, endDate: string): (r: seq<BudgetSummary>)
    ensures forall i | 0 <= i < |r| :: r[i].isExceeded == 1 <==> r[i].totalSpent > r[i].budgetAmount
    ensures forall i | 0 <= i < |r| :: FromSpendingBudget(r[i], budgets, Where(rows, Between(startDate, endDate)))
    ensures forall b | b in budgets && HasSpending(Where(rows, Between(startDate, endDate)), b.id) ::
      exists i | 0 <= i < |r| :: r[i].budgetId == b.id
    ensures UniqueKeys(budgets, BudgetSchema.Id) ==> forall i, j | 0 <= i < j < |r| :: r[i].budgetId != r[j].budgetId
  {
    var inRange := Where(rows, Between(startDate, endDate));
    var spending := Where(budgets, Spends(inRange));
    assert UniqueKeys(budgets, BudgetSchema.Id) ==> UniqueKeys(spending, BudgetSchema.Id) by {
      if UniqueKeys(budgets, BudgetSchema.Id) {
        WhereUniqueKeys(budgets, Spends(inRange), BudgetSchema.Id);
      }
    }
    var r := Summaries(spending, inRange);
    SpendingSummariesSound(budgets, inRange, r);
    SpendingSummariesComplete(budgets, inRange, r);
    r
  }

  /** The summary with the date condition in the join, so that every budget gets
      a row and one without in-range spending shows a total of 0. */
  function SummaryByBudgetAll(budgets: seq<BudgetSchema.Budget>, rows: seq<Transaction>,
                              startDate: string, endDate: string): (r: seq<BudgetSummary>)
    ensures |r| == |budgets|
    ensures forall i | 0 <= i < |budgets| ::
      && r[i].budgetId == budgets[i].id && r[i].budgetAmount == budgets[i].amount
      && r[i].totalSpent == Spent(Where(rows, Between(startDate, endDate)), budgets[i].id)
      && (r[i].isExceeded == 1 <==> r[i].totalSpent > r[i].budgetAmount)
  {
    Summaries(budgets, Where(rows, Between(startDate, endDate)))
  }

  /** A budget with nothing spent in the range is missing from the summary as
      written, while the corrected summary reports it with a total of 0. */
  lemma UnspentBudgetIsDropped(b: BudgetSchema.Budget, startDate: string, endDate: string)
    ensures SummaryByBudget([b], [], startDate, endDate) == []
    ensures SummaryByBudgetAll([b], [], startDate, endDate)
      == [BudgetSummary(b.id, b.name, 0, b.amount, if 0 > b.amount then 1 else 0)]
  {
    assert Where([], Between(startDate, endDate)) == [];
    assert Where([], KeyIs(BudgetKey, b.id)) == [];
  }
}
