/** The import coordinator: a best-effort pass that creates every record of an
    import document through its repository, counting the records created and
    collecting one message per record that failed. */
module ImportService {
  import opened Wrappers
  import opened Values
  import opened Store
  import Text
  import CategorySchema
  import BudgetSchema
  import TransactionSchema
  import BankBalanceSchema
  import CategoryRepository
  import BudgetRepository
  import TransactionRepository
  import BankBalanceRepository

  /** The `ImportData` document: four optional lists of records without ids or timestamps. */
  datatype Payload = Payload(
    categories: Option<seq<CategorySchema.NewCategory>>,
    budgets: Option<seq<BudgetSchema.NewBudget>>,
    transactions: Option<seq<TransactionSchema.NewTransaction>>,
    bankBalances: Option<seq<BankBalanceSchema.NewBankBalance>>)

  datatype Counts = Counts(categories: nat, budgets: nat, transactions: nat, bankBalances: nat)

  /** `ImportResult`. */
  datatype ImportResult = ImportResult(success: bool, message: string, imported: Counts, errors: seq<string>)

  /** A finished `importData` on an open connection: the connection afterwards and the report. */
  datatype Imported = Imported(session: Session, result: ImportResult)

  const CategoryLabel: string := "导入类别失败: "
  const BudgetLabel: string := "导入预算失败: "
  const TransactionLabel: string := "导入交易失败: "
  const BankBalanceLabel: string := "导入银行余额失败: "
  const PartialPrefix: string := "部分导入失败，已导入 "
  const DonePrefix: string := "成功导入 "
  const RecordsSuffix: string := " 条记录"
  const FailedPrefix: string := "导入失败: "

  function Length<T>(items: Option<seq<T>>): nat {
    if items.Some? then |items.value| else 0
  }

  function Total(c: Counts): nat {
    c.categories + c.budgets + c.transactions + c.bankBalances
  }

  // ---------------------------------------------------------------------------
  // One list

  /** What is left of a create step once its return value is dropped. */
  function Done<T>(step: Step<T>): (r: Step<()>)
    ensures r.session == step.session && r.result.Ok? == step.result.Ok?
    ensures r.result.Err? ==> r.result.error == step.result.error
  {
    Step(step.session, if step.result.Ok? then Ok(()) else Err(step.result.error))
  }

  /** Where one list has got to: the connection, the records created, the messages of the failures. */
  datatype Tally = Tally(session: Session, imported: nat, errors: seq<string>)

  /** The `for … of` loop over one list: each record in turn, a failure recorded
      under the list's label and the loop carried on. */
  function ImportEach<T>(s: Session, items: seq<T>, create: (Session, T) -> Step<()>, tag: string): (r: Tally)
    ensures r.imported + |r.errors| == |items|
    ensures forall i | 0 <= i < |r.errors| :: Text.StartsWith(r.errors[i], tag)
    decreases |items|
  {
    if |items| == 0 then Tally(s, 0, [])
    else
      var step := create(s, items[0]);
      var rest := ImportEach(step.session, items[1..], create, tag);
      if step.result.Ok? then rest.(imported := rest.imported + 1)
      else
        assert Text.StartsWith(tag + Message(step.result.error), tag) by {
          assert (tag + Message(step.result.error))[..|tag|] == tag;
        }
        Tally(rest.session, rest.imported, [tag + Message(step.result.error)] + rest.errors)
  }

  /** The loop over two lists one after the other is the loop over the first
      followed by the loop over the second: records are independent. */
  lemma {:induction false} ImportEachSplit<T>(s: Session, a: seq<T>, b: seq<T>, create: (Session, T) -> Step<()>, tag: string)
    ensures var ra := ImportEach(s, a, create, tag);
      var rb := ImportEach(ra.session, b, create, tag);
      ImportEach(s, a + b, create, tag) == Tally(rb.session, ra.imported + rb.imported, ra.errors + rb.errors)
    decreases |a|
  {
    if |a| > 0 {
      assert (a + b)[0] == a[0];
      assert (a + b)[1..] == a[1..] + b;
      ImportEachSplit(create(s, a[0]).session, a[1..], b, create, tag);
    } else {
      assert a + b == b;
    }
  }

  /** When every record fails without touching the connection, nothing is
      imported and each record leaves exactly its own message, in order. */
  lemma {:induction false} ImportEachAllFail<T>(s: Session, items: seq<T>, create: (Session, T) -> Step<()>, tag: string)
    requires forall i | 0 <= i < |items| :: create(s, items[i]).result.Err? && create(s, items[i]).session == s
    ensures var r := ImportEach(s, items, create, tag);
      && r.session == s && r.imported == 0
      && |r.errors| == |items|
      && forall i | 0 <= i < |items| :: r.errors[i] == tag + Message(create(s, items[i]).result.error)
    decreases |items|
  {
    if |items| > 0 {
      assert forall i | 0 <= i < |items[1..]| :: items[1..][i] == items[i + 1];
      ImportEachAllFail(s, items[1..], create, tag);
    }
  }

  /** A list that is absent or empty is skipped. */
  function Group<T>(s: Session, items: Option<seq<T>>, create: (Session, T) -> Step<()>, tag: string): (r: Tally)
    ensures r.imported + |r.errors| == Length(items)
    ensures forall i | 0 <= i < |r.errors| :: Text.StartsWith(r.errors[i], tag)
    ensures Length(items) == 0 ==> r == Tally(s, 0, [])
  {
    if items.Some? && |items.value| > 0 then ImportEach(s, items.value, create, tag) else Tally(s, 0, [])
  }

  function CreateCategory(clock: Clock): (Session, CategorySchema.NewCategory) -> Step<()> {
    (s: Session, c: CategorySchema.NewCategory) => Done(CategoryRepository.Create(s, c, clock))
  }

  function CreateBudget(clock: Clock): (Session, BudgetSchema.NewBudget) -> Step<()> {
    (s: Session, b: BudgetSchema.NewBudget) => Done(BudgetRepository.Create(s, b, clock))
  }

  function CreateTransaction(clock: Clock): (Session, TransactionSchema.NewTransaction) -> Step<()> {
    (s: Session, t: TransactionSchema.NewTransaction) => Done(TransactionRepository.Create(s, t, clock))
  }

  function CreateBankBalance(clock: Clock): (Session, BankBalanceSchema.NewBankBalance) -> Step<()> {
    (s: Session, b: BankBalanceSchema.NewBankBalance) => Done(BankBalanceRepository.Create(s, b, clock))
  }

  // ---------------------------------------------------------------------------
  // Telling the lists' messages apart

  /** How many messages carry a label. */
  function CountLabelled(errors: seq<string>, tag: string): (n: nat)
    ensures n <= |errors|
  {
    if |errors| == 0 then 0
    else (if Text.StartsWith(errors[0], tag) then 1 else 0) + CountLabelled(errors[1..], tag)
  }

  lemma {:induction false} CountLabelledAppend(a: seq<string>, b: seq<string>, tag: string)
    ensures CountLabelled(a + b, tag) == CountLabelled(a, tag) + CountLabelled(b, tag)
  {
    if |a| > 0 {
      assert (a + b)[1..] == a[1..] + b;
      CountLabelledAppend(a[1..], b, tag);
    } else {
      assert a + b == b;
    }
  }

  /** Messages that all carry a label count fully under it and not at all
      under a label that differs from it in its third character. */
  lemma {:induction false} CountLabelledUniform(errors: seq<string>, tag: string, other: string)
    requires |tag| > 2 && |other| > 2 && tag[2] != other[2]
    requires forall i | 0 <= i < |errors| :: Text.StartsWith(errors[i], tag)
    ensures CountLabelled(errors, tag) == |errors|
    ensures CountLabelled(errors, other) == 0
  {
    if |errors| > 0 {
      assert errors[0][..|tag|] == tag;
      assert errors[0][2] == tag[2];
      if |other| <= |errors[0]| {
        assert errors[0][..|other|][2] != other[2];
      }
      CountLabelledUniform(errors[1..], tag, other);
    }
  }

  const Labels: seq<string> := [CategoryLabel, BudgetLabel, TransactionLabel, BankBalanceLabel]

  /** The four labels are told apart by their third character. */
  lemma LabelsDiffer()
    ensures forall i | 0 <= i < |Labels| :: |Labels[i]| > 2
    ensures forall i, j | 0 <= i < j < |Labels| :: Labels[i][2] != Labels[j][2]
  {
  }

  /** Messages under one of the four labels count under that label only. */
  lemma CountUnderLabels(errors: seq<string>, tag: string, other: string)
    requires tag in Labels && other in Labels
    requires forall i | 0 <= i < |errors| :: Text.StartsWith(errors[i], tag)
    ensures CountLabelled(errors, other) == if other == tag then |errors| else 0
  {
    LabelsDiffer();
    var i :| 0 <= i < |Labels| && Labels[i] == tag;
    var j :| 0 <= j < |Labels| && Labels[j] == other;
    var k := if i == 0 then 1 else 0;
    assert Labels[k][2] != tag[2];
    CountLabelledUniform(errors, tag, Labels[k]);
    if other != tag {
      assert i != j;
      CountLabelledUniform(errors, tag, other);
    }
  }

  /** The messages of four lists, each list labelled by its own label, sort back into the lists. */
  lemma CountByLabel(e1: seq<string>, e2: seq<string>, e3: seq<string>, e4: seq<string>)
    requires forall i | 0 <= i < |e1| :: Text.StartsWith(e1[i], CategoryLabel)
    requires forall i | 0 <= i < |e2| :: Text.StartsWith(e2[i], BudgetLabel)
    requires forall i | 0 <= i < |e3| :: Text.StartsWith(e3[i], TransactionLabel)
    requires forall i | 0 <= i < |e4| :: Text.StartsWith(e4[i], BankBalanceLabel)
    ensures CountLabelled(e1 + e2 + e3 + e4, CategoryLabel) == |e1|
    ensures CountLabelled(e1 + e2 + e3 + e4, BudgetLabel) == |e2|
    ensures CountLabelled(e1 + e2 + e3 + e4, TransactionLabel) == |e3|
    ensures CountLabelled(e1 + e2 + e3 + e4, BankBalanceLabel) == |e4|
  {
    forall l | l in Labels
      ensures CountLabelled(e1 + e2 + e3 + e4, l)
           == (if l == CategoryLabel then |e1| else 0) + (if l == BudgetLabel then |e2| else 0)
            + (if l == TransactionLabel then |e3| else 0) + (if l == BankBalanceLabel then |e4| else 0)
    {
      CountLabelledAppend(e1, e2, l);
      CountLabelledAppend(e1 + e2, e3, l);
      CountLabelledAppend(e1 + e2 + e3, e4, l);
      CountUnderLabels(e1, CategoryLabel, l);
      CountUnderLabels(e2, BudgetLabel, l);
      CountUnderLabels(e3, TransactionLabel, l);
      CountUnderLabels(e4, BankBalanceLabel, l);
    }
    assert CategoryLabel in Labels && BudgetLabel in Labels;
    assert TransactionLabel in Labels && BankBalanceLabel in Labels;
    LabelsDiffer();
    assert CategoryLabel != BudgetLabel && CategoryLabel != TransactionLabel && CategoryLabel != BankBalanceLabel;
    assert BudgetLabel != TransactionLabel && BudgetLabel != BankBalanceLabel && TransactionLabel != BankBalanceLabel;
  }

  // ---------------------------------------------------------------------------
  // importData and importFromFile

  /** The closing message: the number of records created, and whether any failed. */
  function Summary(imported: Counts, failed: bool): string {
    (if failed then PartialPrefix else DonePrefix) + Text.NatToString(Total(imported)) + RecordsSuffix
  }

  /** `importData`: categories, budgets, transactions and bank balances in that
      order, each record on its own; it throws when no database is open. Every
      list's length splits into its created count and its labelled messages,
      and the import succeeds exactly when no message was collected. */
  function ImportData(db: Option<Session>, data: Payload, clock: Clock): (r: Result<Imported>)
    ensures r.Err? <==> db.None?
    ensures r.Err? ==> r.error == NotInitialized
    ensures r.Ok? ==>
      var res := r.value.result;
      && (res.success <==> |res.errors| == 0)
      && res.imported.categories + CountLabelled(res.errors, CategoryLabel) == Length(data.categories)
      && res.imported.budgets + CountLabelled(res.errors, BudgetLabel) == Length(data.budgets)
      && res.imported.transactions + CountLabelled(res.errors, TransactionLabel) == Length(data.transactions)
      && res.imported.bankBalances + CountLabelled(res.errors, BankBalanceLabel) == Length(data.bankBalances)
      && |res.errors| == CountLabelled(res.errors, CategoryLabel) + CountLabelled(res.errors, BudgetLabel)
                         + CountLabelled(res.errors, TransactionLabel) + CountLabelled(res.errors, BankBalanceLabel)
      && res.message == Summary(res.imported, !res.success)
  {
    match db
    case None => Err(NotInitialized)
    case Some(s) =>
      var c := Group(s, data.categories, CreateCategory(clock), CategoryLabel);
      var b := Group(c.session, data.budgets, CreateBudget(clock), BudgetLabel);
      var t := Group(b.session, data.transactions, CreateTransaction(clock), TransactionLabel);
      var k := Group(t.session, data.bankBalances, CreateBankBalance(clock), BankBalanceLabel);
      var errors := c.errors + b.errors + t.errors + k.errors;
      var imported := Counts(c.imported, b.imported, t.imported, k.imported);
      CountByLabel(c.errors, b.errors, t.errors, k.errors);
      Ok(Imported(k.session, ImportResult(|errors| == 0, Summary(imported, |errors| > 0), imported, errors)))
  }

  /** A message made of the prefix, a decimal count and the records suffix,
      whose count reads back as `n`. */
  predicate Reports(m: string, prefix: string, n: nat) {
    && Text.StartsWith(m, prefix)
    && |m| >= |prefix| + |RecordsSuffix|
    && m[|m| - |RecordsSuffix|..] == RecordsSuffix
    && var digits := m[|prefix|..|m| - |RecordsSuffix|];
       && (forall i | 0 <= i < |digits| :: '0' <= digits[i] <= '9')
       && Text.ParseNat(digits) == n
  }

  /** The message reports the number of records created, and it can be read back. */
  lemma ImportReportsTotal(s: Session, data: Payload, clock: Clock)
    ensures var res := ImportData(Some(s), data, clock).value.result;
      Reports(res.message, if res.success then DonePrefix else PartialPrefix, Total(res.imported))
  {
    var res := ImportData(Some(s), data, clock).value.result;
    SummaryReadsBack(res.imported, !res.success);
  }

  /** The closing message is its prefix, the decimal count and the suffix; the count reads back. */
  lemma SummaryReadsBack(imported: Counts, failed: bool)
    ensures Reports(Summary(imported, failed), if failed then PartialPrefix else DonePrefix, Total(imported))
  {
    var m := Summary(imported, failed);
    var prefix := if failed then PartialPrefix else DonePrefix;
    var n := Text.NatToString(Total(imported));
    assert m == prefix + n + RecordsSuffix;
    assert m[..|prefix|] == prefix;
    assert m[|m| - |RecordsSuffix|..] == RecordsSuffix;
    assert m[|prefix|..|m| - |RecordsSuffix|] == n;
    Text.NatToStringRoundTrip(Total(imported));
  }

  /** An empty document imports nothing, succeeds, and leaves the connection as it was. */
  lemma ImportNothing(s: Session, clock: Clock)
    ensures ImportData(Some(s), Payload(None, Some([]), None, Some([])), clock)
         == Ok(Imported(s, ImportResult(true, DonePrefix + "0" + RecordsSuffix, Counts(0, 0, 0, 0), [])))
  {
  }

  /** Without any of the four tables every record fails on its own, the
      connection is left as it was, and the report lists one message per record. */
  lemma ImportWithoutTables(s: Session, data: Payload, clock: Clock)
    requires CategorySchema.TableName !in s.data.tables && BudgetSchema.TableName !in s.data.tables
    requires TransactionSchema.TableName !in s.data.tables && BankBalanceSchema.TableName !in s.data.tables
    ensures var r := ImportData(Some(s), data, clock).value;
      && r.session == s
      && r.result.imported == Counts(0, 0, 0, 0)
      && |r.result.errors| == Length(data.categories) + Length(data.budgets) + Length(data.transactions) + Length(data.bankBalances)
      && (r.result.success <==> |r.result.errors| == 0)
  {
    var c := CreateCategory(clock);
    var b := CreateBudget(clock);
    var t := CreateTransaction(clock);
    var k := CreateBankBalance(clock);
    NoTableNoCreate(s, clock);
    GroupAllFail(s, data.categories, c, CategoryLabel);
    GroupAllFail(s, data.budgets, b, BudgetLabel);
    GroupAllFail(s, data.transactions, t, TransactionLabel);
    GroupAllFail(s, data.bankBalances, k, BankBalanceLabel);
  }

  /** Without its table every repository's `create` fails and leaves the connection alone. */
  lemma NoTableNoCreate(s: Session, clock: Clock)
    requires CategorySchema.TableName !in s.data.tables && BudgetSchema.TableName !in s.data.tables
    requires TransactionSchema.TableName !in s.data.tables && BankBalanceSchema.TableName !in s.data.tables
    ensures forall x :: CreateCategory(clock)(s, x).result.Err? && CreateCategory(clock)(s, x).session == s
    ensures forall x :: CreateBudget(clock)(s, x).result.Err? && CreateBudget(clock)(s, x).session == s
    ensures forall x :: CreateTransaction(clock)(s, x).result.Err? && CreateTransaction(clock)(s, x).session == s
    ensures forall x :: CreateBankBalance(clock)(s, x).result.Err? && CreateBankBalance(clock)(s, x).session == s
  {
  }

  /** A list whose every record fails without touching the connection adds
      nothing and a message per record. */
  lemma GroupAllFail<T>(s: Session, items: Option<seq<T>>, create: (Session, T) -> Step<()>, tag: string)
    requires forall x :: create(s, x).result.Err? && create(s, x).session == s
    ensures var r := Group(s, items, create, tag);
      r.session == s && r.imported == 0 && |r.errors| == Length(items)
  {
    if items.Some? { ImportEachAllFail(s, items.value, create, tag); }
  }


  /** Categories that all have their required fields and a valid kind are all
      created, in order, with consecutive ids, and leave no message. */
  lemma {:induction false} ImportEachCategory(s: Session, items: seq<CategorySchema.NewCategory>, clock: Clock)
    requires CategoryRepository.Exists(s.data)
    requires forall i | 0 <= i < |items| :: CategoryRepository.Insertable(items[i])
    ensures var r := ImportEach(s, items, CreateCategory(clock), CategoryLabel);
      && r.imported == |items| && r.errors == []
      && r.session.data.categories.lastId == s.data.categories.lastId + |items|
      && |r.session.data.categories.rows| == |s.data.categories.rows| + |items|
      && r.session.data.categories.rows[..|s.data.categories.rows|] == s.data.categories.rows
    decreases |items|
  {
    if |items| > 0 {
      var step := CategoryRepository.Create(s, items[0], clock);
      assert CreateCategory(clock)(s, items[0]).session == step.session;
      ImportEachCategory(step.session, items[1..], clock);
      var r := ImportEach(step.session, items[1..], CreateCategory(clock), CategoryLabel);
      assert step.session.data.categories.rows == s.data.categories.rows + [step.session.data.categories.rows[|s.data.categories.rows|]];
      assert r.session.data.categories.rows[..|s.data.categories.rows|]
          == r.session.data.categories.rows[..|step.session.data.categories.rows|][..|s.data.categories.rows|];
    }
  }

  /** A failure before `importData` reports: nothing created, the one message,
      and that message behind the failure prefix. */
  function Failure(message: string): (r: ImportResult)
    ensures !r.success && r.imported == Counts(0, 0, 0, 0) && r.errors == [message]
    ensures Text.StartsWith(r.message, FailedPrefix) && r.message[|FailedPrefix|..] == message
  {
    var r := ImportResult(false, FailedPrefix + message, Counts(0, 0, 0, 0), [message]);
    assert r.message[..|FailedPrefix|] == FailedPrefix;
    r
  }

  /** A finished `importFromFile`: it never throws. */
  datatype FileImport = FileImport(db: Option<Session>, result: ImportResult)

  /** `importFromFile`, given what reading and parsing the file produced: a
      document or the error thrown on the way. Every error, including the one
      `importData` throws without a database, becomes a failure report. */
  function ImportFromFile(db: Option<Session>, parsed: Result<Payload>, clock: Clock): (r: FileImport)
    ensures parsed.Err? ==> r == FileImport(db, Failure(Message(parsed.error)))
    ensures parsed.Ok? && db.None? ==> r == FileImport(None, Failure(Message(NotInitialized)))
    ensures parsed.Ok? && db.Some? ==>
      && r.db.Some?
      && Ok(Imported(r.db.value, r.result)) == ImportData(db, parsed.value, clock)
    ensures r.result.success ==> parsed.Ok? && db.Some?
  {
    match parsed
    case Err(e) => FileImport(db, Failure(Message(e)))
    case Ok(data) =>
      match ImportData(db, data, clock)
      case Err(e) => FileImport(db, Failure(Message(e)))
      case Ok(i) => FileImport(Some(i.session), i.result)
  }
}
