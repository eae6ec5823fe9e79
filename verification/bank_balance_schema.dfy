/** The `bank_balances` table: one row per (year, month) with the opening and
    closing balance of the account, the two sample months, the index, and the
    effect of each statement in `BankBalanceQueries`. */
module BankBalanceSchema {
  import opened Wrappers
  import opened Relational
  import opened Tables

  datatype BankBalance = BankBalance(
    id: int, year: int, month: int, openingBalance: int, closingBalance: int,
    createdAt: string, updatedAt: string)

  /** What a caller passes to `create`; an absent field reaches the statement as NULL. */
  datatype NewBankBalance = NewBankBalance(
    year: Option<int>, month: Option<int>, openingBalance: Option<int>, closingBalance: Option<int>)

  const TableName: string := "bank_balances"

  /** `BankBalanceFields.UPDATABLE`. */
  const Updatable: seq<string> := ["year", "month", "openingBalance", "closingBalance"]

  const Indexes: seq<IndexDef> := [IndexDef("idx_bank_balances_year_month", TableName)]

  /** July 2025 (1000 to 1000) and August 2025 (1000 to 1200). */
  const SampleBankBalances: seq<NewBankBalance> := [
    NewBankBalance(Some(2025), Some(7), Some(1000), Some(1000)),
    NewBankBalance(Some(2025), Some(8), Some(1000), Some(1200))
  ]

  function Id(b: BankBalance): int { b.id }

  /** The condition `year = ? AND month = ?`. */
  function At(year: int, month: int): BankBalance -> bool {
    (b: BankBalance) => b.year == year && b.month == month
  }

  predicate OtherMonth(a: BankBalance, b: BankBalance) {
    !(a.year == b.year && a.month == b.month)
  }

  /** `UNIQUE(year, month)`: no two rows are for the same month. */
  predicate UniqueMonths(rows: seq<BankBalance>) {
    Pairwise(rows, OtherMonth)
  }

  /** The table invariant: AUTOINCREMENT keys and one row per month. */
  predicate Valid(t: Table<BankBalance>) {
    Keyed(t, Id) && UniqueMonths(t.rows)
  }

  predicate HasMonth(rows: seq<BankBalance>, year: int, month: int) {
    exists i | 0 <= i < |rows| :: rows[i].year == year && rows[i].month == month
  }

  const UniqueFailed: string := "UNIQUE constraint failed: bank_balances.year, bank_balances.month"

  function NotNullFailed(column: string): Error {
    Sql("NOT NULL constraint failed: bank_balances." + column)
  }

  /** The first NOT NULL column left without a value, in table order. */
  function MissingColumn(b: NewBankBalance): Option<string> {
    if b.year.None? then Some("year")
    else if b.month.None? then Some("month")
    else if b.openingBalance.None? then Some("openingBalance")
    else if b.closingBalance.None? then Some("closingBalance")
    else None
  }

  predicate Complete(b: NewBankBalance) {
    b.year.Some? && b.month.Some? && b.openingBalance.Some? && b.closingBalance.Some?
  }

  lemma UniqueMonthsAppend(rows: seq<BankBalance>, row: BankBalance)
    requires UniqueMonths(rows) && !HasMonth(rows, row.year, row.month)
    ensures UniqueMonths(rows + [row])
  {
    var r := rows + [row];
    forall i, j | 0 <= i < j < |r|
      ensures OtherMonth(r[i], r[j])
    {
      if j == |rows| {
        assert r[i] == rows[i];
      } else {
        assert r[i] == rows[i] && r[j] == rows[j];
      }
    }
  }

  /** `INSERT INTO bank_balances (year, month, openingBalance, closingBalance)`:
      stored under the next id when every column has a value and the month has
      no row yet; otherwise the first violated constraint is raised (NOT NULL
      before UNIQUE) and nothing changes. */
  function Insert(t: Table<BankBalance>, b: NewBankBalance, now: string): (r: Result<Table<BankBalance>>)
    ensures r.Ok? <==> Complete(b) && !HasMonth(t.rows, b.year.value, b.month.value)
    ensures !Complete(b) ==> r == Err(NotNullFailed(MissingColumn(b).value))
    ensures Complete(b) && HasMonth(t.rows, b.year.value, b.month.value) ==> r == Err(Sql(UniqueFailed))
    ensures r.Ok? ==> r.value.lastId == t.lastId + 1
    ensures r.Ok? ==> r.value.rows == t.rows + [BankBalance(t.lastId + 1, b.year.value, b.month.value,
                                                             b.openingBalance.value, b.closingBalance.value, now, now)]
    ensures r.Ok? && Valid(t) ==> Valid(r.value)
  {
    match MissingColumn(b)
    case Some(column) => Err(NotNullFailed(column))
    case None =>
      if HasMonth(t.rows, b.year.value, b.month.value) then Err(Sql(UniqueFailed))
      else
        var row := BankBalance(t.lastId + 1, b.year.value, b.month.value,
                               b.openingBalance.value, b.closingBalance.value, now, now);
        assert Valid(t) ==> Valid(Append(t, row)) by {
          if Valid(t) {
            AppendKeyed(t, row, Id);
            UniqueMonthsAppend(t.rows, row);
          }
        }
        Ok(Append(t, row))
  }

  /** The two COALESCE parameters of `BankBalanceQueries.UPDATE`; None binds NULL. */
  datatype BalancePatch = BalancePatch(openingBalance: Option<int>, closingBalance: Option<int>)

  function Coalesce<T>(p: Option<T>, v: T): T { if p.Some? then p.value else v }

  function Patched(b: BankBalance, p: BalancePatch, now: string): BankBalance {
    b.(openingBalance := Coalesce(p.openingBalance, b.openingBalance),
       closingBalance := Coalesce(p.closingBalance, b.closingBalance),
       updatedAt := now)
  }

  /** `BankBalanceQueries.UPDATE`: only the two balances can change (each kept
      when its parameter is NULL); the year and month stay, so the statement
      cannot break the UNIQUE constraint and never fails. */
  function Update(t: Table<BankBalance>, id: int, p: BalancePatch, now: string): (r: Table<BankBalance>)
    ensures r.lastId == t.lastId && |r.rows| == |t.rows|
    ensures forall i | 0 <= i < |t.rows| && t.rows[i].id != id :: r.rows[i] == t.rows[i]
    ensures forall i | 0 <= i < |t.rows| && t.rows[i].id == id ::
      var o, n := t.rows[i], r.rows[i];
      && n.id == o.id && n.year == o.year && n.month == o.month && n.createdAt == o.createdAt && n.updatedAt == now
      && (p.openingBalance.None? ==> n.openingBalance == o.openingBalance)
      && (p.openingBalance.Some? ==> n.openingBalance == p.openingBalance.value)
      && (p.closingBalance.None? ==> n.closingBalance == o.closingBalance)
      && (p.closingBalance.Some? ==> n.closingBalance == p.closingBalance.value)
    ensures Valid(t) ==> Valid(r)
  {
    Table(Modify(t.rows, Id, id, b => Patched(b, p, now)), t.lastId)
  }

  /** `DELETE FROM bank_balances WHERE id = ?`. */
  function Delete(t: Table<BankBalance>, id: int): (r: Table<BankBalance>)
    ensures forall b :: b in r.rows <==> b in t.rows && b.id != id
    ensures Valid(t) ==> Valid(r)
  {
    var r := RemoveKey(t, Id, id);
    assert forall b :: b in r.rows <==> b in multiset(r.rows);
    if Valid(t) then
      RemoveKeyKeyed(t, Id, id);
      WherePairwise(t.rows, Not(KeyIs(Id, id)), OtherMonth);
      r
    else r
  }

  // ---------------------------------------------------------------------------
  // Queries

  /** `ORDER BY year DESC, month DESC`: latest month first. */
  predicate LatestFirst(a: BankBalance, b: BankBalance) {
    a.year > b.year || (a.year == b.year && a.month >= b.month)
  }

  /** `ORDER BY month ASC`. */
  predicate ByMonth(a: BankBalance, b: BankBalance) { a.month <= b.month }

  /** `SELECT * FROM bank_balances WHERE id = ?`. */
  function FindById(rows: seq<BankBalance>, id: int): (r: seq<BankBalance>)
    ensures forall b :: b in r <==> b in rows && b.id == id
    ensures UniqueKeys(rows, Id) ==> |r| <= 1
  {
    var r := Lookup(rows, Id, id);
    assert forall b :: b in r <==> b in multiset(r);
    if UniqueKeys(rows, Id) then LookupUnique(rows, Id, id); r else r
  }

  /** `FIND_ALL`: every row, latest month first. */
  function FindAll(rows: seq<BankBalance>): (r: seq<BankBalance>)
    ensures multiset(r) == multiset(rows)
    ensures Sorted(r, LatestFirst)
  {
    SortSorted(rows, LatestFirst);
    Sort(rows, LatestFirst)
  }

  /** `FIND_BY_YEAR`: the year's rows in month order. */
  function FindByYear(rows: seq<BankBalance>, year: int): (r: seq<BankBalance>)
    ensures forall b :: multiset(r)[b] == if b.year == year then multiset(rows)[b] else 0
    ensures Sorted(r, ByMonth)
  {
    var m := Where(rows, (b: BankBalance) => b.year == year);
    SortSorted(m, ByMonth);
    Sort(m, ByMonth)
  }

  /** `FIND_BY_YEAR_MONTH`: under the UNIQUE constraint, the month's row or nothing. */
  function FindByYearMonth(rows: seq<BankBalance>, year: int, month: int): (r: seq<BankBalance>)
    ensures forall b :: multiset(r)[b] == if b.year == year && b.month == month then multiset(rows)[b] else 0
    ensures UniqueMonths(rows) ==> |r| <= 1
    ensures UniqueMonths(rows) ==> forall i | 0 <= i < |rows| && rows[i].year == year && rows[i].month == month ::
      r == [rows[i]]
  {
    if UniqueMonths(rows) then WhereSingle(rows, At(year, month)); Where(rows, At(year, month))
    else Where(rows, At(year, month))
  }

  /** After a successful insert the month's lookup finds exactly the new row. */
  lemma InsertThenFind(t: Table<BankBalance>, b: NewBankBalance, now: string)
    requires Valid(t)
    requires Insert(t, b, now).Ok?
    ensures FindByYearMonth(Insert(t, b, now).value.rows, b.year.value, b.month.value)
      == [BankBalance(t.lastId + 1, b.year.value, b.month.value, b.openingBalance.value, b.closingBalance.value, now, now)]
  {
    var rows := Insert(t, b, now).value.rows;
    assert rows[|rows| - 1].year == b.year.value && rows[|rows| - 1].month == b.month.value;
  }

  /** A second insert for a month that already has a row fails on UNIQUE. */
  lemma InsertTwiceFails(t: Table<BankBalance>, b: NewBankBalance, now: string, later: string)
    requires Insert(t, b, now).Ok?
    ensures Insert(Insert(t, b, now).value, b, later) == Err(Sql(UniqueFailed))
  {
    var rows := Insert(t, b, now).value.rows;
    assert rows[|rows| - 1].year == b.year.value && rows[|rows| - 1].month == b.month.value;
  }

  /** `SELECT COUNT(*) as count FROM bank_balances`. */
  function CountAll(rows: seq<BankBalance>): (r: nat)
    ensures r == |rows|
  {
    Relational.SumByOnes(rows);
    Relational.Count(rows)
  }

  /** The twelve rows `initializeYear` inserts: months 1 to 12 of the year, with
      both balances 0. */
  function YearOfZeros(year: int): (r: seq<NewBankBalance>)
    ensures |r| == 12
    ensures forall i | 0 <= i < 12 :: r[i] == NewBankBalance(Some(year), Some(i + 1), Some(0), Some(0))
  {
    seq(12, i requires 0 <= i < 12 => NewBankBalance(Some(year), Some(i + 1), Some(0), Some(0)))
  }
}
