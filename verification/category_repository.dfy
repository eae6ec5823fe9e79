/** `CategoryRepository`: the category operations the application calls, each a
    sequence of statements on the open connection. Reads leave the connection as
    it was; a write that fails changes nothing. */
module CategoryRepository {
  import opened Wrappers
  import opened Values
  import opened Tables
  import opened Store
  import Relational
  import Text
  import Connection
  import CategorySchema

  type Category = CategorySchema.Category
  type NewCategory = CategorySchema.NewCategory

  /** Every statement on the table fails while the table does not exist. */
  predicate Exists(d: Data) { CategorySchema.TableName in d.tables }

  function Missing(): Error { NoSuchTable(CategorySchema.TableName) }

  /** `createTable`: the table exists afterwards; an existing table keeps its rows. */
  function CreateTable(s: Session): (r: Step<()>)
    ensures r.result.Ok? && Exists(r.session.data)
    ensures r.session == s.(data := Store.CreateTable(s.data, CategorySchema.TableName))
  {
    Step(s.(data := Store.CreateTable(s.data, CategorySchema.TableName)), Ok(()))
  }

  /** `createIndexes`: all three indexes, which needs the table. */
  function CreateIndexes(s: Session): (r: Step<()>)
    ensures r.result.Ok? <==> Exists(s.data)
    ensures r.result.Ok? ==> r.session.data.indexes == s.data.indexes + IndexNames(CategorySchema.Indexes)
    ensures r.result.Err? ==> r.session == s && r.result.error == Sql("no such table: main." + CategorySchema.TableName)
    ensures r.session == s.(data := s.data.(indexes := r.session.data.indexes))
  {
    Store.CreateIndexes(s, CategorySchema.Indexes)
  }

  // ---------------------------------------------------------------------------
  // create

  /** The row `create` stores: the repository's defaults (sort order 0, not a
      default, active) fill the optional fields; booleans bind as 0 and 1. */
  function Stored(c: NewCategory, id: int, now: string): Category
    requires c.name.Some? && c.icon.Some? && c.kind.Some?
  {
    CategorySchema.Category(
      id, c.name.value, c.icon.value, c.kind.value,
      CategorySchema.IntCell(if c.sortOrder.Some? then c.sortOrder.value else 0),
      CategorySchema.IntCell(CategorySchema.Flag(if c.isDefault.Some? then c.isDefault.value else false)),
      CategorySchema.IntCell(CategorySchema.Flag(if c.isActive.Some? then c.isActive.value else true)),
      now, now)
  }

  /** The fields the table's constraints require of a new category. */
  predicate Insertable(c: NewCategory) {
    c.name.Some? && c.icon.Some? && c.kind.Some? && c.kind.value in CategorySchema.Kinds
  }

  function InsertEffect(d: Data, c: NewCategory, now: string): Result<Effect> {
    if !Exists(d) then Err(Missing())
    else
      match CategorySchema.Insert(
        d.categories, c.name, c.icon, c.kind,
        if c.sortOrder.Some? then c.sortOrder.value else 0,
        CategorySchema.Flag(if c.isDefault.Some? then c.isDefault.value else false),
        CategorySchema.Flag(if c.isActive.Some? then c.isActive.value else true), now)
      case Err(e) => Err(e)
      case Ok(t) => Ok(Effect(d.(categories := t), Some(t.lastId)))
  }

  /** `create`: inserts the category and returns it with the new id. The
      insert id is always non-zero after a successful insert, so the only errors
      are the engine's. */
  function Create(s: Session, c: NewCategory, clock: Clock): (r: Step<Created<NewCategory>>)
    ensures r.result.Ok? <==> Exists(s.data) && Insertable(c)
    ensures r.result.Err? ==> r.session == s && r.result.error.Sql?
    ensures !Exists(s.data) ==> r.result == Err(Missing())
    ensures r.result.Ok? ==>
      var id := s.data.categories.lastId + 1;
      && r.result.value == Created(id, c, clock.isoNow, clock.isoNow)
      && r.session == Session(s.data.(categories := Append(s.data.categories, Stored(c, id, clock.sqlNow))), s.saved, id)
    ensures Store.Valid(s.data) ==> Store.Valid(r.session.data)
  {
    var w := Connection.Write(s, (d: Data) => InsertEffect(d, c, clock.sqlNow));
    if w.result.Err? then Step(w.session, Err(w.result.error))
    else if !TruthyId(w.result.value.insertId) then Step(w.session, Err(Failed("Failed to create category")))
    else Step(w.session, Ok(Created(w.result.value.insertId.value, c, clock.isoNow, clock.isoNow)))
  }

  /** Inserts each category in turn, stopping at the first that fails; the ones
      inserted before it stay. */
  function CreateAll(s: Session, cs: seq<NewCategory>, clock: Clock): (r: Step<()>)
    ensures !Exists(s.data) && |cs| > 0 ==> r == Step(s, Err(Missing()))
    ensures r.result.Ok? <==> |cs| == 0 || (Exists(s.data) && forall i | 0 <= i < |cs| :: Insertable(cs[i]))
    ensures r.result.Ok? ==> r.session.data.categories.lastId == s.data.categories.lastId + |cs|
    ensures r.result.Ok? ==> |r.session.data.categories.rows| == |s.data.categories.rows| + |cs|
    ensures r.session.data == s.data.(categories := r.session.data.categories)
    ensures r.session.saved == s.saved
    ensures Store.Valid(s.data) ==> Store.Valid(r.session.data)
    decreases |cs|
  {
    if |cs| == 0 then Step(s, Ok(()))
    else
      var first := Create(s, cs[0], clock);
      if first.result.Err? then Step(first.session, Err(first.result.error))
      else
        var rest := CreateAll(first.session, cs[1..], clock);
        assert (forall i | 0 <= i < |cs| :: Insertable(cs[i])) <==>
               Insertable(cs[0]) && forall i | 0 <= i < |cs| - 1 :: Insertable(cs[1..][i]);
        rest
  }

  /** `insertSampleData`: the six default categories, under the next six ids. */
  function InsertSampleData(s: Session, clock: Clock): (r: Step<()>)
    ensures Exists(s.data) ==> r.result.Ok?
    ensures !Exists(s.data) ==> r == Step(s, Err(Missing()))
    ensures r.result.Ok? ==> r.session.data.categories.lastId == s.data.categories.lastId + 6
    ensures r.result.Ok? ==> |r.session.data.categories.rows| == |s.data.categories.rows| + 6
    ensures r.session.data == s.data.(categories := r.session.data.categories)
    ensures Store.Valid(s.data) ==> Store.Valid(r.session.data)
  {
    CategorySchema.DefaultCategoriesWellFormed();
    CreateAll(s, CategorySchema.DefaultCategories, clock)
  }

  // ---------------------------------------------------------------------------
  // Reads

  /** `findById`: the row with the id, or null. */
  function FindById(d: Data, id: int): (r: Result<Option<Category>>)
    ensures r.Ok? <==> Exists(d)
    ensures r.Ok? && r.value.Some? ==> r.value.value in d.categories.rows && r.value.value.id == id
    ensures r.Ok? && r.value.None? ==> !HasKey(d.categories.rows, CategorySchema.Id, id)
  {
    if !Exists(d) then Err(Missing())
    else
      var found := CategorySchema.FindById(d.categories.rows, id);
      if |found| > 0 then
        assert found[0] in found;
        Ok(Some(found[0]))
      else
        assert multiset(found) == multiset{};
        Ok(None)
  }

  /** After a successful `create`, `findById` of the returned id reads back the
      stored row. */
  lemma CreateThenFindById(s: Session, c: NewCategory, clock: Clock)
    requires CategorySchema.Valid(s.data.categories)
    requires Create(s, c, clock).result.Ok?
    ensures var r := Create(s, c, clock);
      FindById(r.session.data, r.result.value.id) == Ok(Some(Stored(c, r.result.value.id, clock.sqlNow)))
  {
    var r := Create(s, c, clock);
    var t := r.session.data.categories;
    var id := r.result.value.id;
    assert CategorySchema.Valid(t);
    LookupUnique(t.rows, CategorySchema.Id, id);
    assert t.rows[|t.rows| - 1] == Stored(c, id, clock.sqlNow);
  }

  /** `findAll`: every row. */
  function FindAll(d: Data): (r: Result<seq<Category>>)
    ensures r.Ok? <==> Exists(d)
    ensures r.Ok? ==> r.value == d.categories.rows
  {
    if !Exists(d) then Err(Missing()) else Ok(d.categories.rows)
  }

  /** `findAllWithType`: every row, by ascending sort order. */
  function FindAllWithType(d: Data): (r: Result<seq<Category>>)
    ensures r.Ok? <==> Exists(d)
    ensures r.Ok? ==> multiset(r.value) == multiset(d.categories.rows)
    ensures r.Ok? ==> Relational.Sorted(r.value, CategorySchema.BySortOrder)
  {
    if !Exists(d) then Err(Missing()) else Ok(CategorySchema.FindAllOrdered(d.categories.rows))
  }

  /** `findByType`: the active categories of the type. */
  function FindByType(d: Data, kind: string): (r: Result<seq<Category>>)
    ensures r.Ok? <==> Exists(d)
    ensures r.Ok? ==> forall c :: multiset(r.value)[c] ==
                                 if c.kind == kind && c.isActive == CategorySchema.IntCell(1) then multiset(d.categories.rows)[c] else 0
  {
    if !Exists(d) then Err(Missing()) else Ok(CategorySchema.FindByType(d.categories.rows, kind))
  }

  /** `count`. */
  function Count(d: Data): (r: Result<nat>)
    ensures r.Ok? <==> Exists(d)
    ensures r.Ok? ==> r.value == |d.categories.rows|
  {
    if !Exists(d) then Err(Missing()) else Ok(CategorySchema.CountAll(d.categories.rows))
  }

  // ---------------------------------------------------------------------------
  // update and delete

  /** A field `update` passes on: defined, and one of `CategoryFields.UPDATABLE`. */
  predicate Kept(e: Entry) {
    e.value != Undefined && e.key in CategorySchema.Updatable
  }

  /** The entries of the partial entity `update` turns into assignments, in order. */
  function Picked(entity: seq<Entry>): (r: seq<Entry>)
    ensures forall i | 0 <= i < |r| :: Kept(r[i]) && r[i] in entity
    ensures forall e | e in entity && Kept(e) :: e in r
  {
    var r := Relational.Where(entity, Kept);
    forall e | e in entity && Kept(e) ensures e in r {
      Relational.WhereKeeps(entity, Kept, e);
    }
    r
  }

  /** The assignments as `generateUpdateQuery` writes them: every field name
      rewritten to snake_case. */
  function SnakeColumns(sets: seq<Entry>): (r: seq<Entry>)
    ensures |r| == |sets|
    ensures forall i | 0 <= i < |sets| :: r[i] == Entry(Text.SnakeCase(sets[i].key), sets[i].value)
  {
    seq(|sets|, i requires 0 <= i < |sets| => Entry(Text.SnakeCase(sets[i].key), sets[i].value))
  }

  function SetEffect(d: Data, sets: seq<Entry>, id: int, now: string): Result<Effect> {
    if !Exists(d) then Err(Missing())
    else
      match CategorySchema.SetColumns(d.categories, sets, id, now)
      case Err(e) => Err(e)
      case Ok(t) => Ok(Effect(d.(categories := t), None))
  }

  /** Runs the UPDATE for a list of assignments and reports success as the write
      path does: true whenever the statement ran, whether or not a row matched. */
  function RunUpdate(s: Session, sets: seq<Entry>, id: int, now: string): (r: Step<bool>)
    ensures r.result.Ok? <==> SetEffect(s.data, sets, id, now).Ok?
    ensures r.result.Ok? ==> r.result.value && r.session.data == SetEffect(s.data, sets, id, now).value.data
    ensures r.result.Ok? ==> r.session.saved == s.saved && r.session.lastRowId == s.lastRowId
    ensures r.result.Err? ==> r.session == s && r.result.error == SetEffect(s.data, sets, id, now).error
  {
    var w := Connection.Write(s, (d: Data) => SetEffect(d, sets, id, now));
    if w.result.Err? then Step(w.session, Err(w.result.error)) else Step(w.session, Ok(true))
  }

  /** `update` as written: the defined, updatable fields become assignments whose
      column names are rewritten to snake_case by `generateUpdateQuery`; with no
      such field, false and no statement. */
  function Update(s: Session, id: int, entity: seq<Entry>, now: string): (r: Step<bool>)
    ensures |Picked(entity)| == 0 ==> r == Step(s, Ok(false))
    ensures |Picked(entity)| > 0 ==> r == RunUpdate(s, SnakeColumns(Picked(entity)), id, now)
    ensures r.result.Err? ==> r.session == s
  {
    var picked := Picked(entity);
    if |picked| == 0 then Step(s, Ok(false)) else RunUpdate(s, SnakeColumns(picked), id, now)
  }

  /** The three camelCase fields come out of the rewrite with an underscore, and
      no column of the table has one. */
  lemma CamelFieldIsNoColumn(key: string)
    requires key in {"sortOrder", "isDefault", "isActive"}
    ensures Text.SnakeCase(key) !in CategorySchema.Assignable
  {
    if key == "sortOrder" {
      assert Text.IsAsciiUpper(key[4]);
      Text.SnakeCaseMarksUpperCase(key, 4);
    } else {
      assert Text.IsAsciiUpper(key[2]);
      Text.SnakeCaseMarksUpperCase(key, 2);
    }
    NoColumnHasUnderscore(Text.SnakeCase(key));
  }

  lemma NoColumnHasUnderscore(t: string)
    requires '_' in t
    ensures t !in CategorySchema.Assignable
  {
    forall c | c in CategorySchema.Assignable ensures '_' !in c {
      assert forall i | 0 <= i < |c| :: c[i] != '_';
    }
  }

  /** As written, an update that touches the sort order or either flag always
      fails with "no such column" and changes nothing, even when the id matches no
      row. */
  lemma UpdateOfCamelFieldFails(s: Session, id: int, entity: seq<Entry>, now: string, k: int)
    requires Exists(s.data)
    requires 0 <= k < |Picked(entity)| && Picked(entity)[k].key in {"sortOrder", "isDefault", "isActive"}
    ensures Update(s, id, entity, now).result.Err?
    ensures Update(s, id, entity, now).result.error.Sql?
    ensures Update(s, id, entity, now).session == s
  {
    var picked := Picked(entity);
    CamelFieldIsNoColumn(picked[k].key);
    var sets := SnakeColumns(picked);
    assert sets[k].key !in CategorySchema.Assignable;
    var u := CategorySchema.SetColumns(s.data.categories, sets, id, now);
    assert u.Err?;
    assert SetEffect(s.data, sets, id, now).Err?;
  }

  lemma SnakeIsActive(key: string)
    requires key == "isActive"
    ensures Text.SnakeCase(key) == "is_active"
  {
    assert Text.IsAsciiUpper(key[2]);
    assert forall j | 0 <= j < |key| && j != 2 :: !Text.IsAsciiUpper(key[j]);
    Text.SnakeCaseOneUpper(key, 2);
    assert key[..2] == "is" && key[3..] == "ctive";
  }

  /** A single camelCase field, as written: the error names its rewritten column. */
  lemma SingleCamelFieldFails(s: Session, id: int, key: string, v: Value, now: string)
    requires Exists(s.data) && key in {"sortOrder", "isDefault", "isActive"} && v != Undefined
    ensures Update(s, id, [Entry(key, v)], now).result == Err(Sql("no such column: " + Text.SnakeCase(key)))
  {
    CamelFieldIsNoColumn(key);
    assert Kept(Entry(key, v));
    SingleUnknownFieldFails(s, id, Entry(key, v), now);
  }

  /** A single field whose rewritten column the table lacks: the engine names that column. */
  lemma SingleUnknownFieldFails(s: Session, id: int, e: Entry, now: string)
    requires Exists(s.data) && Kept(e) && Text.SnakeCase(e.key) !in CategorySchema.Assignable
    ensures Update(s, id, [e], now).result == Err(Sql("no such column: " + Text.SnakeCase(e.key)))
  {
    var column := Text.SnakeCase(e.key);
    PickedSingle(e);
    var sets := SnakeColumns([e]);
    assert sets == [Entry(column, e.value)];
    assert CategorySchema.UnknownColumn(sets) == Some(column);
    assert SetEffect(s.data, sets, id, now) == Err(Sql("no such column: " + column));
    var r := RunUpdate(s, sets, id, now);
    assert r.result == Err(Sql("no such column: " + column));
    assert Update(s, id, [e], now) == r;
  }

  /** A single field the statement may set is picked on its own. */
  lemma PickedSingle(e: Entry)
    requires Kept(e)
    ensures Picked([e]) == [e]
  {
    assert [e][1..] == [];
    assert Relational.Where([e], Kept) == [e] + Relational.Where([], Kept);
  }

  /** The form's "deactivate" edit, as written: the error names the column
      `is_active`, which the table does not have. */
  lemma DeactivateFailsAsWritten(s: Session, id: int, key: string, now: string)
    requires Exists(s.data) && key == "isActive"
    ensures Update(s, id, [Entry(key, Bool(false))], now).result == Err(Sql("no such column: is_active"))
  {
    SnakeIsActive(key);
    CamelFieldIsNoColumn(key);
    assert Kept(Entry(key, Bool(false)));
    SingleUnknownFieldFails(s, id, Entry(key, Bool(false)), now);
  }

  /** `update` with the field names used as the column names they are: every
      defined, updatable field is assigned to its own column. */
  function UpdateCorrected(s: Session, id: int, entity: seq<Entry>, now: string): (r: Step<bool>)
    ensures |Picked(entity)| == 0 ==> r == Step(s, Ok(false))
    ensures |Picked(entity)| > 0 ==> r == RunUpdate(s, Picked(entity), id, now)
    ensures r.result.Err? ==> r.session == s
    ensures r.result.Err? && |Picked(entity)| > 0 ==>
      r.result.error == Missing() || HasKey(s.data.categories.rows, CategorySchema.Id, id)
    ensures |Picked(entity)| > 0 && Exists(s.data) ==>
      (r.result.Ok? <==> forall i | 0 <= i < |s.data.categories.rows| && s.data.categories.rows[i].id == id ::
                           CategorySchema.Updated(s.data.categories.rows[i], Picked(entity), now).Ok?)
    ensures r.result.Err? && |Picked(entity)| > 0 && Exists(s.data) ==>
      exists i | 0 <= i < |s.data.categories.rows| && s.data.categories.rows[i].id == id ::
        CategorySchema.Updated(s.data.categories.rows[i], Picked(entity), now) == Err(r.result.error)
    ensures r.result.Ok? && |Picked(entity)| > 0 ==>
      forall i | 0 <= i < |s.data.categories.rows| && s.data.categories.rows[i].id == id ::
        CategorySchema.Updated(s.data.categories.rows[i], Picked(entity), now) == Ok(r.session.data.categories.rows[i])
    ensures r.result.Ok? ==> r.session.data == s.data.(categories := r.session.data.categories)
    ensures r.result.Ok? ==> r.session.data.categories.lastId == s.data.categories.lastId
    ensures r.result.Ok? ==> forall i | 0 <= i < |s.data.categories.rows| && s.data.categories.rows[i].id != id ::
      r.session.data.categories.rows[i] == s.data.categories.rows[i]
    ensures r.result.Ok? && Store.Valid(s.data) ==> Store.Valid(r.session.data)
  {
    var picked := Picked(entity);
    if |picked| == 0 then Step(s, Ok(false))
    else
      assert CategorySchema.UnknownColumn(picked).None?;
      RunUpdate(s, picked, id, now)
  }

  /** With the corrected update, deactivating a stored category succeeds and
      clears its active flag, leaving the other rows as they were. */
  lemma DeactivateSucceedsCorrected(s: Session, id: int, now: string, i: int)
    requires Store.Valid(s.data) && Exists(s.data)
    requires 0 <= i < |s.data.categories.rows| && s.data.categories.rows[i].id == id
    ensures var r := UpdateCorrected(s, id, [Entry("isActive", Bool(false))], now);
      && r.result == Ok(true)
      && r.session.data.categories.rows[i] == s.data.categories.rows[i].(isActive := CategorySchema.IntCell(0), updatedAt := now)
  {
    var entity := [Entry("isActive", Bool(false))];
    assert Kept(entity[0]);
    PickedSingle(entity[0]);
    var rows := s.data.categories.rows;
    assert forall j | 0 <= j < |rows| :: rows[j].kind in CategorySchema.Kinds;
    forall j | 0 <= j < |rows| && rows[j].id == id
      ensures CategorySchema.Updated(rows[j], entity, now) == Ok(rows[j].(isActive := CategorySchema.IntCell(0), updatedAt := now))
    {
      SingleAssignment(rows[j], entity[0], now);
    }
  }

  /** With the corrected update, `{sortOrder: null}` on a stored category succeeds
      and leaves its sort order NULL: the column is nullable and the table is not
      STRICT. */
  lemma ClearSortOrderCorrected(s: Session, id: int, now: string, i: int)
    requires Store.Valid(s.data) && Exists(s.data)
    requires 0 <= i < |s.data.categories.rows| && s.data.categories.rows[i].id == id
    ensures var r := UpdateCorrected(s, id, [Entry("sortOrder", Null)], now);
      && r.result == Ok(true)
      && r.session.data.categories.rows[i] == s.data.categories.rows[i].(sortOrder := CategorySchema.NullCell, updatedAt := now)
  {
    var entity := [Entry("sortOrder", Null)];
    assert Kept(entity[0]);
    PickedSingle(entity[0]);
    var rows := s.data.categories.rows;
    assert forall j | 0 <= j < |rows| :: rows[j].kind in CategorySchema.Kinds;
    forall j | 0 <= j < |rows| && rows[j].id == id
      ensures CategorySchema.Updated(rows[j], entity, now) == Ok(rows[j].(sortOrder := CategorySchema.NullCell, updatedAt := now))
    {
      SingleAssignment(rows[j], entity[0], now);
    }
  }

  /** The row a single assignment to the sort order or a flag produces. */
  lemma SingleAssignment(row: CategorySchema.Category, e: Entry, now: string)
    requires row.kind in CategorySchema.Kinds && e.key in CategorySchema.IntegerColumns
    ensures CategorySchema.Updated(row, [e], now) == Ok(
      if e.key == "sortOrder" then row.(sortOrder := CategorySchema.IntegerCell(e.value), updatedAt := now)
      else if e.key == "isDefault" then row.(isDefault := CategorySchema.IntegerCell(e.value), updatedAt := now)
      else row.(isActive := CategorySchema.IntegerCell(e.value), updatedAt := now))
  {
    var d := CategorySchema.DraftOf(row);
    assert [e][..0] == [];
    assert CategorySchema.AssignAll(d, [e]) == CategorySchema.Assign(d, e.key, e.value);
  }

  function DeleteEffect(d: Data, id: int): Result<Effect> {
    if !Exists(d) then Err(Missing())
    else Ok(Effect(d.(categories := CategorySchema.Delete(d.categories, id)), None))
  }

  /** `delete`: removes the row with the id, and reports true whenever the
      statement ran, even when no row had the id. */
  function Delete(s: Session, id: int): (r: Step<bool>)
    ensures r.result.Ok? <==> Exists(s.data)
    ensures r.result.Ok? ==> r.result.value
    ensures r.result.Err? ==> r.session == s
    ensures r.result.Ok? ==> r.session.data == s.data.(categories := CategorySchema.Delete(s.data.categories, id))
    ensures r.result.Ok? ==> forall c :: c in r.session.data.categories.rows <==> c in s.data.categories.rows && c.id != id
    ensures Store.Valid(s.data) ==> Store.Valid(r.session.data)
  {
    var w := Connection.Write(s, (d: Data) => DeleteEffect(d, id));
    if w.result.Err? then Step(w.session, Err(w.result.error)) else Step(w.session, Ok(true))
  }

  /** After `delete`, `findById` of the id finds nothing. */
  lemma DeleteThenFindById(s: Session, id: int)
    requires Exists(s.data)
    ensures FindById(Delete(s, id).session.data, id) == Ok(None)
  {
    var rows := Delete(s, id).session.data.categories.rows;
    forall i | 0 <= i < |rows| ensures rows[i].id != id {
      assert rows[i] in rows;
    }
  }
}
