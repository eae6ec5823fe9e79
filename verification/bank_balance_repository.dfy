/** `BankBalanceRepository`: the monthly bank balances, on the open connection,
    including the opening of a whole year at zero inside one transaction. */
module BankBalanceRepository {
  import opened Wrappers
  import opened Values
  import opened Tables
  import opened Store
  import Relational
  import Connection
  import BankBalanceSchema

  type BankBalance = BankBalanceSchema.BankBalance
  type NewBankBalance = BankBalanceSchema.NewBankBalance

  predicate Exists(d: Data) { BankBalanceSchema.TableName in d.tables }

  function Missing(): Error { NoSuchTable(BankBalanceSchema.TableName) }

  /** `createTable`. */
  function CreateTable(s: Session): (r: Step<()>)
    ensures r.result.Ok? && Exists(r.session.data)
    ensures r.session == s.(data := Store.CreateTable(s.data, BankBalanceSchema.TableName))
  {
    Step(s.(data := Store.CreateTable(s.data, BankBalanceSchema.TableName)), Ok(()))
  }

  /** `createIndexes`: the (year, month) index, which needs the table. */
  function CreateIndexes(s: Session): (r: Step<()>)
    ensures r.result.Ok? <==> Exists(s.data)
    ensures r.result.Ok? ==> r.session.data.indexes == s.data.indexes + IndexNames(BankBalanceSchema.Indexes)
    ensures r.result.Err? ==> r.session == s && r.result.error == Sql("no such table: main." + BankBalanceSchema.TableName)
    ensures r.session == s.(data := s.data.(indexes := r.session.data.indexes))
  {
    Store.CreateIndexes(s, BankBalanceSchema.Indexes)
  }

  // ---------------------------------------------------------------------------
  // Reads

  /** `findById`: the row with the id, or null. */
  function FindById(d: Data, id: int): (r: Result<Option<BankBalance>>)
    ensures r.Ok? <==> Exists(d)
    ensures r.Ok? && r.value.Some? ==> r.value.value in d.balances.rows && r.value.value.id == id
    ensures r.Ok? && r.value.None? ==> !HasKey(d.balances.rows, BankBalanceSchema.Id, id)
  {
    if !Exists(d) then Err(Missing())
    else
      var found := BankBalanceSchema.FindById(d.balances.rows, id);
      if |found| > 0 then
        assert found[0] in found;
        Ok(Some(found[0]))
      else
        assert forall i | 0 <= i < |d.balances.rows| :: d.balances.rows[i].id != id by {
          forall i | 0 <= i < |d.balances.rows| ensures d.balances.rows[i].id != id {
            assert d.balances.rows[i] in d.balances.rows;
          }
        }
        Ok(None)
  }

  /** `findAll`: every month, latest first. */
  function FindAll(d: Data): (r: Result<seq<BankBalance>>)
    ensures r.Ok? <==> Exists(d)
    ensures r.Ok? ==> multiset(r.value) == multiset(d.balances.rows)
    ensures r.Ok? ==> Relational.Sorted(r.value, BankBalanceSchema.LatestFirst)
  {
    if !Exists(d) then Err(Missing()) else Ok(BankBalanceSchema.FindAll(d.balances.rows))
  }

  /** `findByYear`: the year's months in month order. */
  function FindByYear(d: Data, year: int): (r: Result<seq<BankBalance>>)
    ensures r.Ok? <==> Exists(d)
    ensures r.Ok? ==> forall b :: multiset(r.value)[b] == if b.year == year then multiset(d.balances.rows)[b] else 0
    ensures r.Ok? ==> Relational.Sorted(r.value, BankBalanceSchema.ByMonth)
    ensures r.Ok? ==> (|r.value| > 0 <==> HasYear(d.balances.rows, year))
  {
    if !Exists(d) then Err(Missing())
    else
      var r := BankBalanceSchema.FindByYear(d.balances.rows, year);
      assert |r| > 0 <==> HasYear(d.balances.rows, year) by {
        if HasYear(d.balances.rows, year) {
          var i :| 0 <= i < |d.balances.rows| && d.balances.rows[i].year == year;
          assert multiset(r)[d.balances.rows[i]] > 0;
        }
        if |r| > 0 {
          assert r[0] in multiset(r);
          assert r[0] in multiset(d.balances.rows);
          var i :| 0 <= i < |d.balances.rows| && d.balances.rows[i] == r[0];
        }
      }
      Ok(r)
  }

  /** Some row is for the year. */
  predicate HasYear(rows: seq<BankBalance>, year: int) {
    exists i | 0 <= i < |rows| :: rows[i].year == year
  }

  /** `findByYearMonth`: the month's row, or null. */
  function FindByYearMonth(d: Data, year: int, month: int): (r: Result<Option<BankBalance>>)
    ensures r.Ok? <==> Exists(d)
    ensures r.Ok? && r.value.Some? ==> r.value.value in d.balances.rows
                                       && r.value.value.year == year && r.value.value.month == month
    ensures r.Ok? ==> (r.value.None? <==> !BankBalanceSchema.HasMonth(d.balances.rows, year, month))
  {
    if !Exists(d) then Err(Missing())
    else
      var found := BankBalanceSchema.FindByYearMonth(d.balances.rows, year, month);
      assert |found| > 0 <==> BankBalanceSchema.HasMonth(d.balances.rows, year, month) by {
        if BankBalanceSchema.HasMonth(d.balances.rows, year, month) {
          var i :| 0 <= i < |d.balances.rows| && d.balances.rows[i].year == year && d.balances.rows[i].month == month;
          assert multiset(found)[d.balances.rows[i]] > 0;
        }
        if |found| > 0 {
          assert found[0] in multiset(found);
          assert found[0] in multiset(d.balances.rows);
          var i :| 0 <= i < |d.balances.rows| && d.balances.rows[i] == found[0];
        }
      }
      if |found| > 0 then
        assert found[0] in multiset(found);
        Ok(Some(found[0]))
      else Ok(None)
  }

  function Count(d: Data): (r: Result<nat>)
    ensures r.Ok? <==> Exists(d)
    ensures r.Ok? ==> r.value == |d.balances.rows|
  {
    if !Exists(d) then Err(Missing()) else Ok(BankBalanceSchema.CountAll(d.balances.rows))
  }

  // ---------------------------------------------------------------------------
  // create

  const NoInsertId: string := "Failed to create bank balance"
  const NoCreatedRow: string := "Failed to retrieve created bank balance"

  /** What the table's constraints require of a new month: every column, and no
      row for that month yet. */
  predicate Insertable(rows: seq<BankBalance>, b: NewBankBalance) {
    BankBalanceSchema.Complete(b) && !BankBalanceSchema.HasMonth(rows, b.year.value, b.month.value)
  }

  /** The row an insert of the month stores under the id. */
  function Stored(b: NewBankBalance, id: int, now: string): BankBalance
    requires BankBalanceSchema.Complete(b)
  {
    BankBalanceSchema.BankBalance(id, b.year.value, b.month.value, b.openingBalance.value, b.closingBalance.value, now, now)
  }

  function InsertEffect(d: Data, b: NewBankBalance, now: string): Result<Effect> {
    if !Exists(d) then Err(Missing())
    else
      match BankBalanceSchema.Insert(d.balances, b, now)
      case Err(e) => Err(e)
      case Ok(t) => Ok(Effect(d.(balances := t), Some(t.lastId)))
  }

  /** Reads the just-inserted row back by the insert id. */
  function ReadBack(s: Session, insertId: Option<int>): Step<BankBalance> {
    if !TruthyId(insertId) then Step(s, Err(Failed(NoInsertId)))
    else
      match FindById(s.data, insertId.value)
      case Err(e) => Step(s, Err(e))
      case Ok(None) => Step(s, Err(Failed(NoCreatedRow)))
      case Ok(Some(row)) => Step(s, Ok(row))
  }

  /** `create`: inserts the month, reads it back by the insert id and returns it.
      A month that already has a row fails on the UNIQUE constraint. */
  function Create(s: Session, b: NewBankBalance, clock: Clock): (r: Step<BankBalance>)
    ensures r.result.Ok? <==> Exists(s.data) && Insertable(s.data.balances.rows, b)
    ensures r.result.Err? ==> r.session == s && r.result.error.Sql?
    ensures !Exists(s.data) ==> r.result == Err(Missing())
    ensures Exists(s.data) && BankBalanceSchema.Complete(b) && BankBalanceSchema.HasMonth(s.data.balances.rows, b.year.value, b.month.value)
      ==> r.result == Err(Sql(BankBalanceSchema.UniqueFailed))
    ensures r.result.Ok? ==>
      var id := s.data.balances.lastId + 1;
      && r.result.value.id == id
      && r.session == Session(s.data.(balances := Append(s.data.balances, Stored(b, id, clock.sqlNow))), s.saved, id)
    ensures r.result.Ok? && BankBalanceSchema.Valid(s.data.balances) ==>
      r.result.value == Stored(b, s.data.balances.lastId + 1, clock.sqlNow)
    ensures Store.Valid(s.data) ==> Store.Valid(r.session.data)
  {
    var w := Connection.Write(s, InsertRun(b, clock.sqlNow));
    if w.result.Err? then Step(w.session, Err(w.result.error))
    else
      InsertedReadsBack(s, b, clock);
      ReadBack(w.session, w.result.value.insertId)
  }

  function InsertRun(b: NewBankBalance, now: string): Data -> Result<Effect> {
    (d: Data) => InsertEffect(d, b, now)
  }

  /** After a successful insert the new month is read back by its id: the row
      found has that id, and it is the stored row when the table is valid. */
  lemma InsertedReadsBack(s: Session, b: NewBankBalance, clock: Clock)
    requires Connection.Write(s, InsertRun(b, clock.sqlNow)).result.Ok?
    ensures var w := Connection.Write(s, InsertRun(b, clock.sqlNow));
      var id := s.data.balances.lastId + 1;
      var r := ReadBack(w.session, w.result.value.insertId);
      && w.session == Session(s.data.(balances := Append(s.data.balances, Stored(b, id, clock.sqlNow))), s.saved, id)
      && r.session == w.session && r.result.Ok? && r.result.value.id == id
      && (BankBalanceSchema.Valid(s.data.balances) ==> r.result.value == Stored(b, id, clock.sqlNow))
  {
    var w := Connection.Write(s, InsertRun(b, clock.sqlNow));
    var id := s.data.balances.lastId + 1;
    var rows := w.session.data.balances.rows;
    assert InsertEffect(s.data, b, clock.sqlNow).Ok?;
    assert rows[|rows| - 1] == Stored(b, id, clock.sqlNow);
    assert HasKey(rows, BankBalanceSchema.Id, id);
    if BankBalanceSchema.Valid(s.data.balances) {
      assert BankBalanceSchema.Valid(w.session.data.balances);
      LookupUnique(rows, BankBalanceSchema.Id, id);
    }
  }

  /** A successful `create` adds exactly its own month to the months with rows. */
  lemma CreateAddsItsMonth(s: Session, b: NewBankBalance, clock: Clock, year: int, month: int)
    requires Create(s, b, clock).result.Ok?
    ensures BankBalanceSchema.HasMonth(Create(s, b, clock).session.data.balances.rows, year, month)
        <==> BankBalanceSchema.HasMonth(s.data.balances.rows, year, month) || (year == b.year.value && month == b.month.value)
  {
    var rows := s.data.balances.rows;
    var rows1 := Create(s, b, clock).session.data.balances.rows;
    var x := Stored(b, s.data.balances.lastId + 1, clock.sqlNow);
    assert rows1 == rows + [x];
    AppendOtherMonth(rows, x, year, month);
  }

  /** `insertSampleData`: July and August 2025, each created in turn; the first
      failure stops the rest. */
  function InsertSampleData(s: Session, clock: Clock): (r: Step<()>)
    ensures !Exists(s.data) ==> r == Step(s, Err(Missing()))
    ensures Exists(s.data) && !SampleMonthTaken(s.data.balances.rows, 7) && !SampleMonthTaken(s.data.balances.rows, 8)
      ==> r.result.Ok?
    ensures Exists(s.data) && SampleMonthTaken(s.data.balances.rows, 7) ==>
      r == Step(s, Err(Sql(BankBalanceSchema.UniqueFailed)))
    ensures Exists(s.data) && !SampleMonthTaken(s.data.balances.rows, 7) && SampleMonthTaken(s.data.balances.rows, 8) ==>
      && r.result == Err(Sql(BankBalanceSchema.UniqueFailed))
      && |r.session.data.balances.rows| == |s.data.balances.rows| + 1
      && SampleMonthTaken(r.session.data.balances.rows, 7)
    ensures r.result.Ok? ==> |r.session.data.balances.rows| == |s.data.balances.rows| + 2
    ensures r.result.Ok? ==> SampleMonthTaken(r.session.data.balances.rows, 7) && SampleMonthTaken(r.session.data.balances.rows, 8)
    ensures r.session.data == s.data.(balances := r.session.data.balances)
    ensures r.session.saved == s.saved
    ensures Store.Valid(s.data) ==> Store.Valid(r.session.data)
  {
    var july, august := BankBalanceSchema.SampleBankBalances[0], BankBalanceSchema.SampleBankBalances[1];
    assert july.year == Some(2025) && july.month == Some(7);
    assert august.year == Some(2025) && august.month == Some(8);
    var first := Create(s, july, clock);
    if first.result.Err? then Step(first.session, Err(first.result.error))
    else
      CreateAddsItsMonth(s, july, clock, 2025, 7);
      CreateAddsItsMonth(s, july, clock, 2025, 8);
      var second := Create(first.session, august, clock);
      if second.result.Err? then Step(second.session, Err(second.result.error))
      else
        CreateAddsItsMonth(first.session, august, clock, 2025, 7);
        CreateAddsItsMonth(first.session, august, clock, 2025, 8);
        Step(second.session, Ok(()))
  }

  /** The sample month of 2025 already has a row. */
  predicate SampleMonthTaken(rows: seq<BankBalance>, month: int) {
    BankBalanceSchema.HasMonth(rows, 2025, month)
  }

  // ---------------------------------------------------------------------------
  // initializeYear

  /** The months are complete, have no row yet, and are pairwise different. */
  predicate NewMonths(rows: seq<BankBalance>, bs: seq<NewBankBalance>) {
    && (forall i | 0 <= i < |bs| :: Insertable(rows, bs[i]))
    && (forall i, j | 0 <= i < j < |bs| :: bs[i].year != bs[j].year || bs[i].month != bs[j].month)
  }

  /** The rows a run of inserts stores, under consecutive ids after `lastId`. */
  predicate StoredAfter(rows: seq<BankBalance>, lastId: int, bs: seq<NewBankBalance>, now: string)
    requires forall i | 0 <= i < |bs| :: BankBalanceSchema.Complete(bs[i])
  {
    |rows| == |bs| && forall i | 0 <= i < |bs| :: rows[i] == Stored(bs[i], lastId + 1 + i, now)
  }

  /** The callback of `initializeYear`: one INSERT per month on the transaction's
      connection, without reading anything back; the first failure stops the rest. */
  function InsertEach(s: Session, bs: seq<NewBankBalance>, now: string): (r: Step<()>)
    ensures r.result.Ok? <==> |bs| == 0 || (Exists(s.data) && NewMonths(s.data.balances.rows, bs))
    ensures r.result.Ok? ==>
      var before, after := s.data.balances.rows, r.session.data.balances.rows;
      && |after| == |before| + |bs| && after[..|before|] == before
      && StoredAfter(after[|before|..], s.data.balances.lastId, bs, now)
    ensures r.session.data == s.data.(balances := r.session.data.balances)
    ensures r.session.saved == s.saved
    ensures Store.Valid(s.data) ==> Store.Valid(r.session.data)
    decreases |bs|
  {
    if |bs| == 0 then Step(s, Ok(()))
    else
      var w := Connection.Write(s, (d: Data) => InsertEffect(d, bs[0], now));
      if w.result.Err? then Step(w.session, Err(w.result.error))
      else
        var rest := InsertEach(w.session, bs[1..], now);
        InsertEachStep(s, w.session, bs, now);
        rest
  }

  /** Appending a row of another month does not give a month a row. */
  lemma AppendOtherMonth(rows: seq<BankBalance>, x: BankBalance, year: int, month: int)
    ensures BankBalanceSchema.HasMonth(rows + [x], year, month)
        <==> BankBalanceSchema.HasMonth(rows, year, month) || (x.year == year && x.month == month)
  {
    var rows1 := rows + [x];
    if BankBalanceSchema.HasMonth(rows, year, month) {
      var k :| 0 <= k < |rows| && rows[k].year == year && rows[k].month == month;
      assert rows1[k] == rows[k];
    }
    if BankBalanceSchema.HasMonth(rows1, year, month) {
      var k :| 0 <= k < |rows1| && rows1[k].year == year && rows1[k].month == month;
      if k < |rows| {
        assert rows1[k] == rows[k];
      }
    }
    assert rows1[|rows|] == x;
  }

  /** How the first insert of a run relates the whole run to the rest of it. */
  lemma InsertEachStep(s: Session, s1: Session, bs: seq<NewBankBalance>, now: string)
    requires |bs| > 0 && Exists(s.data) && Insertable(s.data.balances.rows, bs[0])
    requires s1.data == s.data.(balances := Append(s.data.balances, Stored(bs[0], s.data.balances.lastId + 1, now)))
    ensures NewMonths(s.data.balances.rows, bs) <==> NewMonths(s1.data.balances.rows, bs[1..])
  {
    var rows, rows1 := s.data.balances.rows, s1.data.balances.rows;
    var x := Stored(bs[0], s.data.balances.lastId + 1, now);
    assert rows1 == rows + [x];
    forall i | 0 <= i < |bs| - 1 && BankBalanceSchema.Complete(bs[i + 1])
      ensures Insertable(rows1, bs[1..][i]) <==>
              Insertable(rows, bs[i + 1]) && (bs[0].year != bs[i + 1].year || bs[0].month != bs[i + 1].month)
    {
      AppendOtherMonth(rows, x, bs[i + 1].year.value, bs[i + 1].month.value);
    }
    forall i, j | 0 <= i < j < |bs| - 1
      ensures bs[1..][i].year != bs[1..][j].year || bs[1..][i].month != bs[1..][j].month
          <==> bs[i + 1].year != bs[j + 1].year || bs[i + 1].month != bs[j + 1].month
    {
    }
  }

  /** `initializeYear`: when the year has no rows, inserts its twelve months at
      zero inside one transaction; when it has any, does nothing. */
  function InitializeYear(s: Session, year: int, now: string): (r: Step<()>)
    ensures !Exists(s.data) ==> r == Step(s, Err(Missing()))
    ensures Exists(s.data) && HasYear(s.data.balances.rows, year) ==> r == Step(s, Ok(()))
  {
    match FindByYear(s.data, year)
    case Err(e) => Step(s, Err(e))
    case Ok(existing) =>
      if |existing| > 0 then Step(s, Ok(()))
      else Connection.Atomically(s, (s1: Session) => InsertEach(s1, BankBalanceSchema.YearOfZeros(year), now))
  }

  /** With no transaction open and no row for the year, the year's twelve months
      are added at zero after the existing rows, in month order, and committed. */
  lemma InitializeYearAddsTwelveMonths(s: Session, year: int, now: string)
    requires Exists(s.data) && !HasYear(s.data.balances.rows, year) && s.saved.None?
    ensures var r := InitializeYear(s, year, now);
      var before, after := s.data.balances.rows, r.session.data.balances.rows;
      && r.result.Ok? && r.session.saved.None?
      && |after| == |before| + 12 && after[..|before|] == before
      && (forall i | 0 <= i < 12 ::
            after[|before|..][i] == BankBalanceSchema.BankBalance(s.data.balances.lastId + i + 1, year, i + 1, 0, 0, now, now))
      && r.session.data == s.data.(balances := r.session.data.balances)
  {
    var zeros := BankBalanceSchema.YearOfZeros(year);
    var body := (s1: Session) => InsertEach(s1, zeros, now);
    var rows := s.data.balances.rows;
    assert NewMonths(rows, zeros) by {
      forall i | 0 <= i < 12 ensures Insertable(rows, zeros[i]) {
        forall k | 0 <= k < |rows| ensures rows[k].year != year {
        }
      }
    }
    Connection.AtomicallyCommitsOrRestores(s, body);
    var after := InitializeYear(s, year, now).session.data.balances.rows;
    forall i | 0 <= i < 12
      ensures after[|rows|..][i] == BankBalanceSchema.BankBalance(s.data.balances.lastId + i + 1, year, i + 1, 0, 0, now, now)
    {
      assert after[|rows|..][i] == Stored(zeros[i], s.data.balances.lastId + 1 + i, now);
    }
  }

  /** Inside an open transaction, a year without rows cannot be opened: the BEGIN
      of its own transaction fails, and its ROLLBACK discards the outer work. */
  lemma InitializeYearInsideTransaction(s: Session, year: int, now: string)
    requires Exists(s.data) && !HasYear(s.data.balances.rows, year) && s.saved.Some?
    ensures InitializeYear(s, year, now) == Step(Session(s.saved.value, None, s.lastRowId), Err(Sql(NestedBegin)))
  {
  }

  /** Opening a year twice is the same as opening it once. */
  lemma InitializeYearIdempotent(s: Session, year: int, now: string, later: string)
    requires Exists(s.data) && s.saved.None?
    ensures var once := InitializeYear(s, year, now);
      once.result.Ok? && InitializeYear(once.session, year, later) == Step(once.session, Ok(()))
  {
    if !HasYear(s.data.balances.rows, year) {
      InitializeYearAddsTwelveMonths(s, year, now);
      var after := InitializeYear(s, year, now).session.data.balances.rows;
      assert after[|s.data.balances.rows|..][0].year == year;
    }
  }

  // ---------------------------------------------------------------------------
  // update and delete

  function UpdateEffect(d: Data, id: int, p: BankBalanceSchema.BalancePatch, now: string): Result<Effect> {
    if !Exists(d) then Err(Missing())
    else Ok(Effect(d.(balances := BankBalanceSchema.Update(d.balances, id, p, now)), None))
  }

  /** `update`: only the two balances can change, each kept when left out; true
      whenever the statement ran. */
  function Update(s: Session, id: int, p: BankBalanceSchema.BalancePatch, now: string): (r: Step<bool>)
    ensures r.result.Ok? <==> Exists(s.data)
    ensures r.result.Ok? ==> r.result.value
    ensures r.result.Err? ==> r.session == s
    ensures r.result.Ok? ==> r.session == s.(data := s.data.(balances := BankBalanceSchema.Update(s.data.balances, id, p, now)))
    ensures Store.Valid(s.data) ==> Store.Valid(r.session.data)
  {
    var w := Connection.Write(s, (d: Data) => UpdateEffect(d, id, p, now));
    if w.result.Err? then Step(w.session, Err(w.result.error)) else Step(w.session, Ok(true))
  }

  /** An update moves no row to another month: the months with rows stay the same. */
  lemma UpdateKeepsMonths(s: Session, id: int, p: BankBalanceSchema.BalancePatch, now: string, year: int, month: int)
    requires Exists(s.data)
    ensures BankBalanceSchema.HasMonth(Update(s, id, p, now).session.data.balances.rows, year, month)
        <==> BankBalanceSchema.HasMonth(s.data.balances.rows, year, month)
  {
    var before, after := s.data.balances.rows, Update(s, id, p, now).session.data.balances.rows;
    assert forall i | 0 <= i < |before| :: after[i].year == before[i].year && after[i].month == before[i].month;
  }

  function DeleteEffect(d: Data, id: int): Result<Effect> {
    if !Exists(d) then Err(Missing())
    else Ok(Effect(d.(balances := BankBalanceSchema.Delete(d.balances, id)), None))
  }

  /** `delete`: true whenever the statement ran. */
  function Delete(s: Session, id: int): (r: Step<bool>)
    ensures r.result.Ok? <==> Exists(s.data)
    ensures r.result.Ok? ==> r.result.value
    ensures r.result.Err? ==> r.session == s
    ensures r.result.Ok? ==> forall b :: b in r.session.data.balances.rows <==> b in s.data.balances.rows && b.id != id
    ensures Store.Valid(s.data) ==> Store.Valid(r.session.data)
  {
    var w := Connection.Write(s, (d: Data) => DeleteEffect(d, id));
    if w.result.Err? then Step(w.session, Err(w.result.error)) else Step(w.session, Ok(true))
  }

  /** After `delete`, `findById` of the id finds nothing. */
  lemma DeleteThenFindById(s: Session, id: int)
    requires Exists(s.data)
    ensures FindById(Delete(s, id).session.data, id) == Ok(None)
  {
    var rows := Delete(s, id).session.data.balances.rows;
    forall i | 0 <= i < |rows| ensures rows[i].id != id {
      assert rows[i] in rows;
    }
  }

  /** After `create`, `findByYearMonth` of its month reads the created row. */
  lemma CreateThenFindByYearMonth(s: Session, b: NewBankBalance, clock: Clock)
    requires BankBalanceSchema.Valid(s.data.balances)
    requires Create(s, b, clock).result.Ok?
    ensures var c := Create(s, b, clock);
      FindByYearMonth(c.session.data, b.year.value, b.month.value) == Ok(Some(c.result.value))
  {
    var c := Create(s, b, clock);
    BankBalanceSchema.InsertThenFind(s.data.balances, b, clock.sqlNow);
  }
}
