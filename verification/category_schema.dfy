/** The `categories` table: its row shape, the six default categories, its
    indexes, and the effect of each statement in `CategoryQueries`. */
module CategorySchema {
  import opened Wrappers
  import opened Values
  import opened Relational
  import opened Tables
  import Text

  /** A stored row. The sort order and the two BOOLEAN flags are nullable columns
      of a table that is not STRICT, so each holds whatever it was last given. */
  datatype Category = Category(
    id: int, name: string, icon: string, kind: string,
    sortOrder: Cell, isDefault: Cell, isActive: Cell,
    createdAt: string, updatedAt: string)

  /** What an INTEGER or BOOLEAN column holds: an integer, NULL, or a text that
      does not spell an integer (one that does is stored as that integer). */
  datatype Cell = IntCell(n: int) | NullCell | TextCell(s: string)

  /** What a caller passes to `create`: the entity without id and timestamps.
      A text field that is absent reaches the statement as NULL; an absent
      optional field takes the repository's default. */
  datatype NewCategory = NewCategory(
    name: Option<string>, icon: Option<string>, kind: Option<string>,
    sortOrder: Option<int>, isDefault: Option<bool>, isActive: Option<bool>)

  const TableName: string := "categories"

  /** The values the CHECK constraint on `type` admits. */
  const Kinds: set<string> := {"income", "expense"}

  /** `CategoryFields.UPDATABLE`. */
  const Updatable: seq<string> := ["name", "icon", "type", "sortOrder", "isDefault", "isActive"]

  const Indexes: seq<IndexDef> := [
    IndexDef("idx_categories_type", TableName),
    IndexDef("idx_categories_isDefault", TableName),
    IndexDef("idx_categories_isActive", TableName)
  ]

  /** The six categories a new database is seeded with. */
  const DefaultCategories: seq<NewCategory> := [
    NewCategory(Some("餐饮"), Some("🍚"), Some("expense"), Some(1), Some(true), Some(true)),
    NewCategory(Some("交通"), Some("🚌"), Some("expense"), Some(2), Some(true), Some(true)),
    NewCategory(Some("购物"), Some("🛍️"), Some("expense"), Some(3), Some(true), Some(true)),
    NewCategory(Some("工资"), Some("💰"), Some("income"), Some(1), Some(true), Some(true)),
    NewCategory(Some("家用"), Some("🧓"), Some("expense"), Some(5), Some(true), Some(true)),
    NewCategory(Some("账单"), Some("🧾"), Some("expense"), Some(6), Some(true), Some(true))
  ]

  /** Every default category is complete, admitted by the CHECK constraint, a
      default and active; exactly one of them is an income category. */
  lemma DefaultCategoriesWellFormed()
    ensures |DefaultCategories| == 6
    ensures forall i | 0 <= i < |DefaultCategories| ::
      var c := DefaultCategories[i];
      c.name.Some? && c.icon.Some? && c.kind.Some? && c.kind.value in Kinds
      && c.isDefault == Some(true) && c.isActive == Some(true)
      && (c.kind.value == "income" <==> i == 3)
  {
  }

  function Id(c: Category): int { c.id }

  /** The table invariant: AUTOINCREMENT keys and the CHECK constraint on `type`. */
  predicate Valid(t: Table<Category>) {
    && Keyed(t, Id)
    && (forall i | 0 <= i < |t.rows| :: t.rows[i].kind in Kinds)
  }

  /** How a JavaScript boolean is bound: 1 or 0. */
  function Flag(b: bool): int { if b then 1 else 0 }

  const CheckFailed: string := "CHECK constraint failed: type IN ('income', 'expense')"

  function NotNullFailed(column: string): Error {
    Sql("NOT NULL constraint failed: categories." + column)
  }

  // ---------------------------------------------------------------------------
  // INSERT

  /** `INSERT INTO categories (name, icon, type, sortOrder, isDefault, isActive)`:
      the row is stored under the next id when name, icon and type are present and
      the type is admitted; otherwise the engine raises the first violated
      constraint, NOT NULL before CHECK, and nothing is stored. */
  function Insert(t: Table<Category>, name: Option<string>, icon: Option<string>, kind: Option<string>,
                  sortOrder: int, isDefault: int, isActive: int, now: string): (r: Result<Table<Category>>)
    ensures r.Ok? <==> name.Some? && icon.Some? && kind.Some? && kind.value in Kinds
    ensures r.Ok? ==> r.value.lastId == t.lastId + 1
    ensures r.Ok? ==> r.value.rows == t.rows + [Category(t.lastId + 1, name.value, icon.value, kind.value,
                                                          IntCell(sortOrder), IntCell(isDefault), IntCell(isActive),
                                                          now, now)]
    ensures r.Ok? && Valid(t) ==> Valid(r.value)
  {
    if name.None? then Err(NotNullFailed("name"))
    else if icon.None? then Err(NotNullFailed("icon"))
    else if kind.None? then Err(NotNullFailed("type"))
    else if kind.value !in Kinds then Err(Sql(CheckFailed))
    else
      var row := Category(t.lastId + 1, name.value, icon.value, kind.value,
                          IntCell(sortOrder), IntCell(isDefault), IntCell(isActive), now, now);
      assert Valid(t) ==> Valid(Append(t, row)) by {
        if Valid(t) {
          AppendKeyed(t, row, Id);
        }
      }
      Ok(Append(t, row))
  }

  // ---------------------------------------------------------------------------
  // UPDATE with COALESCE: a NULL parameter keeps the stored value

  datatype CategoryPatch = CategoryPatch(
    name: Option<string>, icon: Option<string>, kind: Option<string>,
    sortOrder: Option<int>, isDefault: Option<int>, isActive: Option<int>)

  function Coalesce<T>(p: Option<T>, v: T): T { if p.Some? then p.value else v }

  function CoalesceCell(p: Option<int>, v: Cell): Cell { if p.Some? then IntCell(p.value) else v }

  function Patched(c: Category, p: CategoryPatch, now: string): Category {
    Category(c.id, Coalesce(p.name, c.name), Coalesce(p.icon, c.icon), Coalesce(p.kind, c.kind),
             CoalesceCell(p.sortOrder, c.sortOrder), CoalesceCell(p.isDefault, c.isDefault),
             CoalesceCell(p.isActive, c.isActive), c.createdAt, now)
  }

  /** `CategoryQueries.UPDATE`: the row with the id takes every non-NULL parameter,
      keeps every other column and gets a fresh `updatedAt`; other rows are untouched.
      It fails only when a row matches and the new type is not admitted. */
  function CoalesceUpdate(t: Table<Category>, id: int, p: CategoryPatch, now: string): (r: Result<Table<Category>>)
    ensures r.Err? <==> HasKey(t.rows, Id, id) && p.kind.Some? && p.kind.value !in Kinds
    ensures r.Ok? ==> r.value.lastId == t.lastId && |r.value.rows| == |t.rows|
    ensures r.Ok? ==> forall i | 0 <= i < |t.rows| && t.rows[i].id != id :: r.value.rows[i] == t.rows[i]
    ensures r.Ok? ==> forall i | 0 <= i < |t.rows| && t.rows[i].id == id ::
      var o, n := t.rows[i], r.value.rows[i];
      && n.id == o.id && n.createdAt == o.createdAt && n.updatedAt == now
      && (p.name.None? ==> n.name == o.name) && (p.name.Some? ==> n.name == p.name.value)
      && (p.icon.None? ==> n.icon == o.icon) && (p.icon.Some? ==> n.icon == p.icon.value)
      && (p.kind.None? ==> n.kind == o.kind) && (p.kind.Some? ==> n.kind == p.kind.value)
      && (p.sortOrder.None? ==> n.sortOrder == o.sortOrder) && (p.sortOrder.Some? ==> n.sortOrder == IntCell(p.sortOrder.value))
      && (p.isDefault.None? ==> n.isDefault == o.isDefault) && (p.isDefault.Some? ==> n.isDefault == IntCell(p.isDefault.value))
      && (p.isActive.None? ==> n.isActive == o.isActive) && (p.isActive.Some? ==> n.isActive == IntCell(p.isActive.value))
    ensures r.Ok? && Valid(t) ==> Valid(r.value)
  {
    if HasKey(t.rows, Id, id) && p.kind.Some? && p.kind.value !in Kinds then Err(Sql(CheckFailed))
    else Ok(Table(Modify(t.rows, Id, id, c => Patched(c, p, now)), t.lastId))
  }

  // ---------------------------------------------------------------------------
  // UPDATE built by generateUpdateQuery: `SET c1 = ?, …, updatedAt = CURRENT_TIMESTAMP`

  /** The columns a SET clause may name (the id and the timestamps are never
      assigned by the data-access layer). */
  const Assignable: set<string> := {"name", "icon", "type", "sortOrder", "isDefault", "isActive"}

  const TextColumns: set<string> := {"name", "icon", "type"}
  const IntegerColumns: set<string> := {"sortOrder", "isDefault", "isActive"}

  /** The six assignable columns, in the order the table declares them. */
  datatype Column = Name | Icon | Type | SortOrder | IsDefault | IsActive

  function ColumnName(c: Column): string {
    match c
    case Name => "name"
    case Icon => "icon"
    case Type => "type"
    case SortOrder => "sortOrder"
    case IsDefault => "isDefault"
    case IsActive => "isActive"
  }

  /** The column a SET clause means by `key`, if the table has one by that name. */
  function ColumnOf(key: string): (r: Option<Column>)
    ensures r.Some? <==> key in Assignable
    ensures forall c: Column :: ColumnName(c) == key <==> r == Some(c)
  {
    if key == "name" then Some(Name)
    else if key == "icon" then Some(Icon)
    else if key == "type" then Some(Type)
    else if key == "sortOrder" then Some(SortOrder)
    else if key == "isDefault" then Some(IsDefault)
    else if key == "isActive" then Some(IsActive)
    else None
  }

  predicate IsText(c: Column) { c.Name? || c.Icon? || c.Type? }

  /** What an INTEGER or BOOLEAN column stores for a bound value: numbers as they
      are, booleans as 1 and 0, NULL as NULL, and text as the integer it spells or
      else as the text itself. The column accepts every value. */
  function IntegerCell(v: Value): (r: Cell)
    ensures r.NullCell? <==> v.Null? || v.Undefined?
    ensures r.TextCell? ==> v == Str(r.s) && !Text.SpellsInteger(r.s)
    ensures v.Str? && Text.SpellsInteger(v.s) ==> r == IntCell(Text.ParseInt(v.s))
  {
    match v
    case Num(n) => IntCell(n)
    case Bool(b) => IntCell(Flag(b))
    case Str(s) => if Text.SpellsInteger(s) then IntCell(Text.ParseInt(s)) else TextCell(s)
    case _ => NullCell
  }

  /** A number written as text is stored as that number. */
  lemma NumberTextIsStoredAsNumber(n: int)
    ensures IntegerCell(Str(Text.IntToString(n))) == IntegerCell(Num(n)) == IntCell(n)
  {
    Text.IntToStringRoundTrip(n);
  }

  /** What a TEXT column stores for a bound value: text as it is, numbers and
      booleans as their decimal text, NULL as NULL. */
  function TextCellOf(v: Value): (r: Cell)
    ensures r.NullCell? <==> v.Null? || v.Undefined?
    ensures !r.IntCell?
    ensures v.Str? ==> r == TextCell(v.s)
  {
    match v
    case Str(s) => TextCell(s)
    case Num(n) => TextCell(Text.IntToString(n))
    case Bool(b) => TextCell(if b then "1" else "0")
    case _ => NullCell
  }

  /** What column `c` stores for a bound value under its type affinity. */
  function StoredAs(c: Column, v: Value): (r: Cell)
    ensures r.NullCell? <==> v.Null? || v.Undefined?
    ensures IsText(c) ==> !r.IntCell?
  {
    if IsText(c) then TextCellOf(v) else IntegerCell(v)
  }

  /** The six assignable columns of a matched row while the UPDATE computes them,
      before any constraint is checked: each may still be NULL. */
  datatype Draft = Draft(name: Cell, icon: Cell, kind: Cell, sortOrder: Cell, isDefault: Cell, isActive: Cell)

  function Get(d: Draft, c: Column): Cell {
    match c
    case Name => d.name
    case Icon => d.icon
    case Type => d.kind
    case SortOrder => d.sortOrder
    case IsDefault => d.isDefault
    case IsActive => d.isActive
  }

  function Put(d: Draft, c: Column, x: Cell): (r: Draft)
    ensures Get(r, c) == x
    ensures forall o: Column | o != c :: Get(r, o) == Get(d, o)
  {
    match c
    case Name => d.(name := x)
    case Icon => d.(icon := x)
    case Type => d.(kind := x)
    case SortOrder => d.(sortOrder := x)
    case IsDefault => d.(isDefault := x)
    case IsActive => d.(isActive := x)
  }

  /** A stored row's assignable columns, as the UPDATE starts from them. */
  function DraftOf(row: Category): Draft {
    Draft(TextCell(row.name), TextCell(row.icon), TextCell(row.kind), row.sortOrder, row.isDefault, row.isActive)
  }

  /** One assignment `key = v`: the column named `key` takes what its affinity
      makes of the value and every other column keeps its value. Nothing is
      checked yet, so NULL goes in anywhere. */
  function Assign(d: Draft, key: string, v: Value): (r: Draft)
    requires key in Assignable
    ensures forall c: Column :: Get(r, c) == if ColumnName(c) == key then StoredAs(c, v) else Get(d, c)
  {
    var c := ColumnOf(key).value;
    Put(d, c, StoredAs(c, v))
  }

  /** The position of the rightmost assignment to column `c` in a SET clause, or
      -1 when no assignment names it. */
  function LastIndex(sets: seq<Entry>, c: Column): (k: int)
    ensures -1 <= k < |sets|
    ensures k >= 0 ==> sets[k].key == ColumnName(c)
    ensures forall j | k < j < |sets| :: sets[j].key != ColumnName(c)
  {
    if |sets| == 0 then -1
    else if sets[|sets| - 1].key == ColumnName(c) then |sets| - 1
    else
      var front := sets[..|sets| - 1];
      assert forall j | 0 <= j < |front| :: front[j] == sets[j];
      LastIndex(front, c)
  }

  /** The value of the rightmost assignment to column `c`, if any: when a SET
      clause names a column twice, the last assignment wins. */
  function LastValue(sets: seq<Entry>, c: Column): (r: Option<Value>)
    ensures r.None? <==> forall k | 0 <= k < |sets| :: sets[k].key != ColumnName(c)
    ensures r.Some? ==> exists k | 0 <= k < |sets| ::
      && sets[k] == Entry(ColumnName(c), r.value)
      && forall j | k < j < |sets| :: sets[j].key != ColumnName(c)
  {
    var k := LastIndex(sets, c);
    if k < 0 then None else Some(sets[k].value)
  }

  /** What column `c` holds after the SET clause: the stored form of the value of
      its last assignment, or the value it had when no assignment names it. */
  function Assigned(d: Draft, sets: seq<Entry>, c: Column): (r: Cell)
    ensures IsText(c) && !Get(d, c).IntCell? ==> !r.IntCell?
  {
    match LastValue(sets, c)
    case None => Get(d, c)
    case Some(v) => StoredAs(c, v)
  }

  /** The assignments of a SET clause, applied from left to right. */
  function AssignAll(d: Draft, sets: seq<Entry>): (r: Draft)
    requires forall k | 0 <= k < |sets| :: sets[k].key in Assignable
    ensures forall c: Column :: Get(r, c) == Assigned(d, sets, c)
    decreases |sets|
  {
    if |sets| == 0 then d
    else Assign(AssignAll(d, sets[..|sets| - 1]), sets[|sets| - 1].key, sets[|sets| - 1].value)
  }

  /** The text a TEXT column holds once it has passed its NOT NULL check. */
  function TextIn(x: Cell): string {
    if x.TextCell? then x.s else ""
  }

  /** The row with the id after `SET <sets>, updatedAt = CURRENT_TIMESTAMP`. Every
      assignment is applied first; then the engine checks NOT NULL column by column
      in the order the table declares them (name, icon, type), whatever the order of
      the SET clause, and raises the first violation; then the CHECK on type. The
      sort order and the flags take any value, NULL and text included. */
  function Updated(row: Category, sets: seq<Entry>, now: string): (r: Result<Category>)
    requires forall k | 0 <= k < |sets| :: sets[k].key in Assignable
    ensures Assigned(DraftOf(row), sets, Name).NullCell? ==> r == Err(NotNullFailed("name"))
    ensures !Assigned(DraftOf(row), sets, Name).NullCell? && Assigned(DraftOf(row), sets, Icon).NullCell? ==>
      r == Err(NotNullFailed("icon"))
    ensures (!Assigned(DraftOf(row), sets, Name).NullCell? && !Assigned(DraftOf(row), sets, Icon).NullCell?
             && Assigned(DraftOf(row), sets, Type).NullCell?) ==> r == Err(NotNullFailed("type"))
    ensures r.Ok? <==>
      && !Assigned(DraftOf(row), sets, Name).NullCell? && !Assigned(DraftOf(row), sets, Icon).NullCell?
      && !Assigned(DraftOf(row), sets, Type).NullCell? && TextIn(Assigned(DraftOf(row), sets, Type)) in Kinds
    ensures (r.Err? && !Assigned(DraftOf(row), sets, Name).NullCell? && !Assigned(DraftOf(row), sets, Icon).NullCell?
             && !Assigned(DraftOf(row), sets, Type).NullCell?) ==> r == Err(Sql(CheckFailed))
    ensures r.Ok? ==> r.value.id == row.id && r.value.createdAt == row.createdAt && r.value.updatedAt == now
    ensures r.Ok? ==> r.value.kind in Kinds
    ensures r.Ok? ==> forall c: Column :: Get(DraftOf(r.value), c) == Assigned(DraftOf(row), sets, c)
  {
    var d := AssignAll(DraftOf(row), sets);
    assert d.name == Get(d, Name) && d.icon == Get(d, Icon) && d.kind == Get(d, Type);
    if d.name.NullCell? then Err(NotNullFailed("name"))
    else if d.icon.NullCell? then Err(NotNullFailed("icon"))
    else if d.kind.NullCell? then Err(NotNullFailed("type"))
    else if TextIn(d.kind) !in Kinds then Err(Sql(CheckFailed))
    else
      var n := Category(row.id, TextIn(d.name), TextIn(d.icon), TextIn(d.kind),
                        d.sortOrder, d.isDefault, d.isActive, row.createdAt, now);
      assert forall c: Column :: Get(DraftOf(n), c) == Get(d, c);
      Ok(n)
  }

  /** NOT NULL is checked in the order the table declares its columns, not in the
      order of the SET clause: `{icon: null, name: null}` is reported on name. */
  lemma NotNullInColumnOrder(row: Category, now: string)
    ensures Updated(row, [Entry("icon", Null), Entry("name", Null)], now) == Err(NotNullFailed("name"))
  {
    var sets := [Entry("icon", Null), Entry("name", Null)];
    assert LastValue(sets, Name) == Some(Null);
  }

  /** Assignments to the sort order and the flags alone always pass the
      constraints of a row the CHECK admits. */
  lemma IntegerAssignmentsSucceed(row: Category, sets: seq<Entry>, now: string)
    requires row.kind in Kinds
    requires forall k | 0 <= k < |sets| :: sets[k].key in IntegerColumns
    ensures Updated(row, sets, now).Ok?
  {
    assert forall c: Column | IsText(c) :: LastValue(sets, c).None?;
  }

  /** The first assignment naming a column the table does not have. */
  function UnknownColumn(sets: seq<Entry>): (r: Option<string>)
    ensures r.None? <==> forall k | 0 <= k < |sets| :: sets[k].key in Assignable
    ensures r.Some? ==> r.value !in Assignable && exists k | 0 <= k < |sets| :: sets[k].key == r.value
  {
    if |sets| == 0 then None
    else if sets[0].key !in Assignable then Some(sets[0].key)
    else UnknownColumn(sets[1..])
  }

  /** The rewrite of every matched row, or the first error one of them raises. */
  function SetRows(rows: seq<Category>, sets: seq<Entry>, id: int, now: string): (r: Result<seq<Category>>)
    requires forall k | 0 <= k < |sets| :: sets[k].key in Assignable
    ensures r.Ok? <==> forall i | 0 <= i < |rows| && rows[i].id == id :: Updated(rows[i], sets, now).Ok?
    ensures r.Ok? ==> |r.value| == |rows|
    ensures r.Ok? ==> forall i | 0 <= i < |rows| && rows[i].id != id :: r.value[i] == rows[i]
    ensures r.Ok? ==> forall i | 0 <= i < |rows| && rows[i].id == id :: Updated(rows[i], sets, now) == Ok(r.value[i])
    ensures r.Err? ==> exists i | 0 <= i < |rows| && rows[i].id == id :: Updated(rows[i], sets, now) == Err(r.error)
  {
    TryModify(rows, Id, id, row => Updated(row, sets, now))
  }

  /** Executes `UPDATE categories SET <columns> = ?, …, updatedAt = CURRENT_TIMESTAMP
      WHERE id = ?`. A column the table lacks fails the statement before anything is
      touched ("no such column"). Otherwise the statement succeeds exactly when every
      matched row passes its constraints, and then each matched row becomes its
      `Updated` form and every other row stays as it was; on failure the error is
      the one a matched row raises. */
  function SetColumns(t: Table<Category>, sets: seq<Entry>, id: int, now: string): (r: Result<Table<Category>>)
    ensures (exists k | 0 <= k < |sets| :: sets[k].key !in Assignable) ==> r.Err?
    ensures UnknownColumn(sets).Some? ==> r == Err(Sql("no such column: " + UnknownColumn(sets).value))
    ensures r.Ok? ==> UnknownColumn(sets).None?
    ensures UnknownColumn(sets).None? ==>
      (r.Ok? <==> forall i | 0 <= i < |t.rows| && t.rows[i].id == id :: Updated(t.rows[i], sets, now).Ok?)
    ensures r.Err? && UnknownColumn(sets).None? ==>
      exists i | 0 <= i < |t.rows| && t.rows[i].id == id :: Updated(t.rows[i], sets, now) == Err(r.error)
    ensures r.Ok? ==> r.value.lastId == t.lastId && |r.value.rows| == |t.rows|
    ensures r.Ok? ==> forall i | 0 <= i < |t.rows| && t.rows[i].id != id :: r.value.rows[i] == t.rows[i]
    ensures r.Ok? ==> forall i | 0 <= i < |t.rows| && t.rows[i].id == id :: Updated(t.rows[i], sets, now) == Ok(r.value.rows[i])
    ensures r.Ok? && Valid(t) ==> Valid(r.value)
    ensures Valid(t) && (forall k | 0 <= k < |sets| :: sets[k].key in IntegerColumns) ==> r.Ok?
  {
    match UnknownColumn(sets)
    case Some(column) => Err(Sql("no such column: " + column))
    case None =>
      assert Valid(t) && (forall k | 0 <= k < |sets| :: sets[k].key in IntegerColumns) ==>
        forall i | 0 <= i < |t.rows| && t.rows[i].id == id :: Updated(t.rows[i], sets, now).Ok? by {
        if Valid(t) && (forall k | 0 <= k < |sets| :: sets[k].key in IntegerColumns) {
          forall i | 0 <= i < |t.rows| && t.rows[i].id == id ensures Updated(t.rows[i], sets, now).Ok? {
            IntegerAssignmentsSucceed(t.rows[i], sets, now);
          }
        }
      }
      match SetRows(t.rows, sets, id, now)
      case Err(e) => Err(e)
      case Ok(rows) =>
        assert forall i | 0 <= i < |rows| :: rows[i].id == t.rows[i].id;
        Ok(Table(rows, t.lastId))
  }

  /** The statement text `generateUpdateQuery` builds for a list of fields. */
  function GenerateUpdateQuery(fields: seq<string>): (r: string)
    requires forall i | 0 <= i < |fields| :: '?' !in fields[i]
    ensures Text.CountChar(r, '?') == |fields| + 1
  {
    Text.UpdateStatementPlaceholders(TableName, fields);
    Text.UpdateStatement(TableName, fields)
  }

  // ---------------------------------------------------------------------------
  // DELETE and the queries

  /** `DELETE FROM categories WHERE id = ?`. */
  function Delete(t: Table<Category>, id: int): (r: Table<Category>)
    ensures forall c :: c in r.rows <==> c in t.rows && c.id != id
    ensures Valid(t) ==> Valid(r)
  {
    var r := RemoveKey(t, Id, id);
    assert forall c :: c in r.rows <==> c in multiset(r.rows);
    if Valid(t) then
      RemoveKeyKeyed(t, Id, id);
      assert forall c | c in r.rows :: c in t.rows;
      r
    else r
  }

  /** `SELECT * FROM categories WHERE id = ?`. */
  function FindById(rows: seq<Category>, id: int): (r: seq<Category>)
    ensures forall c :: c in r <==> c in rows && c.id == id
    ensures UniqueKeys(rows, Id) ==> |r| <= 1
  {
    var r := Lookup(rows, Id, id);
    assert forall c :: c in r <==> c in multiset(r);
    if UniqueKeys(rows, Id) then LookupUnique(rows, Id, id); r else r
  }

  /** `SELECT * FROM categories WHERE type = ? AND isActive = 1`: the active rows of
      the type, each as often as stored. */
  function FindByType(rows: seq<Category>, kind: string): (r: seq<Category>)
    ensures forall c :: multiset(r)[c] == if c.kind == kind && c.isActive == IntCell(1) then multiset(rows)[c] else 0
  {
    Where(rows, (c: Category) => c.kind == kind && c.isActive == IntCell(1))
  }

  /** `SELECT * FROM categories WHERE isDefault = 1 AND isActive = 1`. */
  function FindDefault(rows: seq<Category>): (r: seq<Category>)
    ensures forall c :: multiset(r)[c] == if c.isDefault == IntCell(1) && c.isActive == IntCell(1) then multiset(rows)[c] else 0
  {
    Where(rows, (c: Category) => c.isDefault == IntCell(1) && c.isActive == IntCell(1))
  }

  /** SQLite's order of stored values: NULL first, then integers by value, then
      text in the BINARY collation. */
  function CellRank(c: Cell): int {
    match c
    case NullCell => 0
    case IntCell(_) => 1
    case TextCell(_) => 2
  }

  predicate CellLe(a: Cell, b: Cell) {
    if CellRank(a) != CellRank(b) then CellRank(a) < CellRank(b)
    else if a.IntCell? then a.n <= b.n
    else if a.TextCell? then Text.StrLe(a.s, b.s)
    else true
  }

  predicate BySortOrder(a: Category, b: Category) { CellLe(a.sortOrder, b.sortOrder) }

  lemma SortOrderOrder()
    ensures TotalPreorder(BySortOrder)
  {
    forall a: Category, b: Category
      ensures BySortOrder(a, b) || BySortOrder(b, a)
    {
      if a.sortOrder.TextCell? && b.sortOrder.TextCell? {
        Text.StrLeTotal(a.sortOrder.s, b.sortOrder.s);
      }
    }
    forall a: Category, b: Category, c: Category | BySortOrder(a, b) && BySortOrder(b, c)
      ensures BySortOrder(a, c)
    {
      if a.sortOrder.TextCell? && b.sortOrder.TextCell? && c.sortOrder.TextCell? {
        Text.StrLeTransitive(a.sortOrder.s, b.sortOrder.s, c.sortOrder.s);
      }
    }
  }

  /** `SELECT * FROM categories ORDER BY sortOrder`: every row, by ascending sortOrder. */
  function FindAllOrdered(rows: seq<Category>): (r: seq<Category>)
    ensures multiset(r) == multiset(rows)
    ensures Sorted(r, BySortOrder)
  {
    SortOrderOrder();
    SortSorted(rows, BySortOrder);
    Sort(rows, BySortOrder)
  }

  /** `SELECT COUNT(*) as count FROM categories`. */
  function CountAll(rows: seq<Category>): (r: nat)
    ensures r == |rows|
  {
    Relational.SumByOnes(rows);
    Relational.Count(rows)
  }

  // ---------------------------------------------------------------------------
  // LEFT JOIN categories c ON <row>.categoryId = c.id

  /** A row of a LEFT JOIN: the left row and the matched category, or NULLs. */
  datatype Joined<R> = Joined(row: R, category: Option<Category>)

  function JoinOne<R>(l: R, cats: seq<Category>, k: int): (r: seq<Joined<R>>)
    ensures |r| >= 1
    ensures forall i | 0 <= i < |r| :: r[i].row == l
  {
    var m := Lookup(cats, Id, k);
    if |m| == 0 then [Joined(l, None)]
    else seq(|m|, i requires 0 <= i < |m| => Joined(l, Some(m[i])))
  }

  /** Every left row paired with each category whose id it names, or with NULLs
      when none does. */
  function LeftJoin<R>(left: seq<R>, cats: seq<Category>, key: R -> int): (r: seq<Joined<R>>)
    ensures |r| >= |left|
    ensures forall i | 0 <= i < |r| :: r[i].row in left
    ensures forall i | 0 <= i < |left| :: exists k | 0 <= k < |r| :: r[k].row == left[i]
  {
    if |left| == 0 then []
    else
      var head := JoinOne(left[0], cats, key(left[0]));
      var rest := LeftJoin(left[1..], cats, key);
      JoinCovers(left, head, rest);
      head + rest
  }

  /** The step of the LEFT JOIN's coverage: the first left row is matched by the
      head of the result, the others by its tail. */
  lemma JoinCovers<R>(left: seq<R>, head: seq<Joined<R>>, rest: seq<Joined<R>>)
    requires |left| > 0 && |head| >= 1 && head[0].row == left[0]
    requires forall i | 0 <= i < |left[1..]| :: exists k | 0 <= k < |rest| :: rest[k].row == left[1..][i]
    ensures forall i | 0 <= i < |left| :: exists k | 0 <= k < |head + rest| :: (head + rest)[k].row == left[i]
  {
    var r := head + rest;
    forall i | 0 <= i < |left|
      ensures exists k | 0 <= k < |r| :: r[k].row == left[i]
    {
      if i == 0 {
        assert r[0].row == left[0];
      } else {
        assert left[i] == left[1..][i - 1];
        var k :| 0 <= k < |rest| && rest[k].row == left[1..][i - 1];
        assert r[|head| + k] == rest[k];
      }
    }
  }

  /** The category a row names, if any. */
  function CategoryOf(cats: seq<Category>, id: int): Option<Category> {
    First(Lookup(cats, Id, id))
  }

  lemma JoinOneUnique<R>(l: R, cats: seq<Category>, k: int)
    requires UniqueKeys(cats, Id)
    ensures JoinOne(l, cats, k) == [Joined(l, CategoryOf(cats, k))]
  {
    LookupUnique(cats, Id, k);
  }

  /** Each left row paired with the one category its id names, or with NULLs. */
  function Paired<R>(left: seq<R>, cats: seq<Category>, key: R -> int): (r: seq<Joined<R>>)
    ensures |r| == |left|
    ensures forall i | 0 <= i < |left| :: r[i] == Joined(left[i], CategoryOf(cats, key(left[i])))
  {
    if |left| == 0 then [] else [Joined(left[0], CategoryOf(cats, key(left[0])))] + Paired(left[1..], cats, key)
  }

  lemma {:induction false} LeftJoinIsPaired<R>(left: seq<R>, cats: seq<Category>, key: R -> int)
    requires UniqueKeys(cats, Id)
    ensures LeftJoin(left, cats, key) == Paired(left, cats, key)
  {
    if |left| > 0 {
      JoinOneUnique(left[0], cats, key(left[0]));
      LeftJoinIsPaired(left[1..], cats, key);
    }
  }

  /** With unique category ids a LEFT JOIN neither drops nor duplicates rows: row i
      of the result is left row i with the category its id names, or NULLs. */
  lemma LeftJoinUnique<R>(left: seq<R>, cats: seq<Category>, key: R -> int)
    requires UniqueKeys(cats, Id)
    ensures |LeftJoin(left, cats, key)| == |left|
    ensures forall i | 0 <= i < |left| :: LeftJoin(left, cats, key)[i] == Joined(left[i], CategoryOf(cats, key(left[i])))
  {
    LeftJoinIsPaired(left, cats, key);
  }
}
