/**
 * The products table that `ProductDbHelper.onCreate` creates, and the part of
 * SQLite's behaviour the provider relies on: an `INTEGER PRIMARY KEY
 * AUTOINCREMENT` id, five NOT NULL data columns, and the row sets that
 * insert, update and delete statements touch.
 */
module DbHelper {
  import opened Java
  import opened Contract

  const DatabaseName: string := "inventory.db"
  /** The only schema version; upgrading from it has nothing to do. */
  const DatabaseVersion: int := 1
  /** SQLite's largest rowid; AUTOINCREMENT fails with SQLITE_FULL beyond it. */
  const MaxRowId: int := MaxLong

  /** One stored product; `_id` is the key of the table's row map. */
  datatype Row = Row(name: Value, price: Value, quantity: Value, supplierName: Value, supplierPhone: Value)
  {
    function Get(c: Column): Value
    {
      match c
      case Name => name
      case Price => price
      case Quantity => quantity
      case SupplierName => supplierName
      case SupplierPhone => supplierPhone
    }
  }

  /**
   * The table: rows by `_id`, and the AUTOINCREMENT sequence (the largest id
   * ever handed out, kept in `sqlite_sequence` and never lowered by a delete).
   */
  datatype Table = Table(rows: map<nat, Row>, sequence: nat)

  /** The table as `onCreate` leaves it: no rows, no id used yet. */
  const EmptyTable: Table := Table(map[], 0)

  /** `onUpgrade`: there is only version 1, so the table is left as it is, rows, ids and sequence alike. */
  function OnUpgrade(t: Table, oldVersion: int, newVersion: int): (t': Table)
    ensures t'.rows == t.rows && t'.sequence == t.sequence
  {
    t
  }

  /** Every column is NOT NULL. */
  predicate RowNotNull(r: Row)
  {
    forall c: Column :: r.Get(c) != Null
  }

  /** What the schema guarantees of every table state. */
  ghost predicate TableValid(t: Table)
  {
    && t.sequence <= MaxRowId
    && forall id | id in t.rows :: 0 < id <= t.sequence && RowNotNull(t.rows[id])
  }

  /** An insert satisfies the NOT NULL constraints only when it supplies all five columns. */
  predicate NotNullOk(values: ContentValues)
  {
    forall c: Column :: c in values && values[c] != Null
  }

  /** Values that set no column to NULL (what an update needs). */
  predicate NoNulls(values: ContentValues)
  {
    forall c | c in values :: values[c] != Null
  }

  function RowOf(values: ContentValues): (r: Row)
    requires NotNullOk(values)
    ensures RowNotNull(r) && forall c: Column :: r.Get(c) == values[c]
  {
    Row(values[Name], values[Price], values[Quantity], values[SupplierName], values[SupplierPhone])
  }

  /**
   * `SQLiteDatabase.insert`: the new row and its id, or None (the -1 result)
   * when a NOT NULL column is missing or the id sequence is exhausted.
   */
  function InsertRow(t: Table, values: ContentValues): (r: Option<(nat, Table)>)
    ensures r.Some? <==> NotNullOk(values) && t.sequence < MaxRowId
  {
    if NotNullOk(values) && t.sequence < MaxRowId then
      var id := t.sequence + 1;
      Some((id, Table(t.rows[id := RowOf(values)], id)))
    else None
  }

  /** The effect of a WHERE clause: every row, the row with a given `_id`, or an arbitrary row predicate. */
  datatype Selection = AllRows | IdEquals(id: int) | Where(p: (nat, Row) -> bool)

  predicate Matches(sel: Selection, id: nat, row: Row)
  {
    match sel
    case AllRows => true
    case IdEquals(k) => id == k
    case Where(p) => p(id, row)
  }

  /** The rows a selection picks out, by id. */
  function Select(t: Table, sel: Selection): (m: map<nat, Row>)
    ensures forall id :: id in m <==> id in t.rows && Matches(sel, id, t.rows[id])
    ensures forall id | id in m :: m[id] == t.rows[id]
  {
    map id | id in t.rows && Matches(sel, id, t.rows[id]) :: t.rows[id]
  }

  /** A row after an update: columns named in the values take the new value, the others keep theirs. */
  function Apply(row: Row, values: ContentValues): (r: Row)
    ensures forall c: Column :: r.Get(c) == if c in values then values[c] else row.Get(c)
  {
    var pick := (c: Column) => if c in values then values[c] else row.Get(c);
    Row(pick(Name), pick(Price), pick(Quantity), pick(SupplierName), pick(SupplierPhone))
  }

  /** `SQLiteDatabase.update`: the number of selected rows, and the table with each of them rewritten. */
  function UpdateRows(t: Table, sel: Selection, values: ContentValues): (r: (nat, Table))
    ensures r.0 == |Select(t, sel)|
    ensures r.1.sequence == t.sequence && r.1.rows.Keys == t.rows.Keys
    ensures forall id | id in t.rows ::
      r.1.rows[id] == if Matches(sel, id, t.rows[id]) then Apply(t.rows[id], values) else t.rows[id]
  {
    var m := Select(t, sel);
    (|m|, Table(map id | id in t.rows :: if id in m then Apply(t.rows[id], values) else t.rows[id], t.sequence))
  }

  /** `SQLiteDatabase.delete`: the number of selected rows, and the table without them. */
  function DeleteRows(t: Table, sel: Selection): (r: (nat, Table))
    ensures r.1.sequence == t.sequence
    ensures forall id :: id in r.1.rows <==> id in t.rows && !Matches(sel, id, t.rows[id])
    ensures forall id | id in r.1.rows :: r.1.rows[id] == t.rows[id]
    ensures r.0 == |Select(t, sel)| && r.0 + |r.1.rows| == |t.rows|
  {
    var m := Select(t, sel);
    var kept := map id | id in t.rows && id !in m :: t.rows[id];
    assert kept.Keys == t.rows.Keys - m.Keys;
    assert m.Keys <= t.rows.Keys;
    CardinalityOfSplit(t.rows.Keys, m.Keys);
    (|m|, Table(kept, t.sequence))
  }

  lemma CardinalityOfSplit(a: set<nat>, b: set<nat>)
    requires b <= a
    ensures |a - b| + |b| == |a|
  {
    assert a == (a - b) + b;
  }

  // ---------------------------------------------------------------------
  // Properties of the schema
  // ---------------------------------------------------------------------

  /** The freshly created table satisfies the schema and is empty. */
  lemma EmptyTableValid()
    ensures TableValid(EmptyTable) && |EmptyTable.rows| == 0
  {
  }

  /**
   * AUTOINCREMENT: an inserted row gets an id above every id in the table and
   * above every id ever handed out, and the table stays valid.
   */
  lemma InsertedIdIsFresh(t: Table, values: ContentValues)
    requires TableValid(t) && InsertRow(t, values).Some?
    ensures var (id, t') := InsertRow(t, values).value;
      && id !in t.rows
      && (forall k | k in t.rows :: k < id)
      && id == t'.sequence > t.sequence
      && TableValid(t')
      && t'.rows.Keys == t.rows.Keys + {id}
      && t'.rows[id] == RowOf(values)
      && (forall k | k in t.rows :: t'.rows[k] == t.rows[k])
  {
  }

  /** A row just inserted is what a selection of its `_id` returns. */
  lemma InsertThenSelect(t: Table, values: ContentValues)
    requires InsertRow(t, values).Some?
    ensures var (id, t') := InsertRow(t, values).value;
      Select(t', IdEquals(id)) == map[id := RowOf(values)]
  {
    var (id, t') := InsertRow(t, values).value;
    var m := Select(t', IdEquals(id));
    assert m.Keys == {id};
  }

  /** `_id` is the primary key, so `_id = k` selects the row with id k if there is one, and nothing else. */
  lemma SelectById(t: Table, k: int)
    ensures Select(t, IdEquals(k)) == if k >= 0 && k in t.rows then map[k as nat := t.rows[k]] else map[]
    ensures |Select(t, IdEquals(k))| <= 1
  {
    var m := Select(t, IdEquals(k));
    if k >= 0 && k in t.rows {
      assert m.Keys == {k as nat};
    } else {
      assert m.Keys == {};
    }
  }

  /** With no WHERE clause every row is selected. */
  lemma SelectAll(t: Table)
    ensures Select(t, AllRows) == t.rows
  {
  }

  /** Deleting with no WHERE clause empties the table, reports how many rows there were, and keeps the sequence. */
  lemma DeleteAll(t: Table)
    ensures DeleteRows(t, AllRows) == (|t.rows|, Table(map[], t.sequence))
  {
    var r := DeleteRows(t, AllRows);
    assert r.1.rows.Keys == {};
    SelectAll(t);
  }

  /** Updates without NULLs and deletes keep the schema's guarantees. */
  lemma UpdateKeepsTableValid(t: Table, sel: Selection, values: ContentValues)
    requires TableValid(t) && NoNulls(values)
    ensures TableValid(UpdateRows(t, sel, values).1)
  {
    var t' := UpdateRows(t, sel, values).1;
    forall id | id in t'.rows ensures RowNotNull(t'.rows[id]) {
      assert RowNotNull(t.rows[id]);
    }
  }

  lemma DeleteKeepsTableValid(t: Table, sel: Selection)
    requires TableValid(t)
    ensures TableValid(DeleteRows(t, sel).1)
  {
  }

  // ---------------------------------------------------------------------
  // Ids are never reused
  // ---------------------------------------------------------------------

  /** A statement run against the table. */
  datatype Statement =
    | InsertStatement(values: ContentValues)
    | UpdateStatement(sel: Selection, values: ContentValues)
    | DeleteStatement(sel: Selection)

  /** One statement: the new table and the id an insert handed out. An update that would store NULL is aborted. */
  function Execute(t: Table, s: Statement): (Table, Option<nat>)
  {
    match s
    case InsertStatement(values) =>
      (match InsertRow(t, values)
       case Some((id, t')) => (t', Some(id))
       case None => (t, None))
    case UpdateStatement(sel, values) =>
      if NoNulls(values) then (UpdateRows(t, sel, values).1, None) else (t, None)
    case DeleteStatement(sel) => (DeleteRows(t, sel).1, None)
  }

  /** A run of statements: the final table and the ids handed out, in order. */
  function Run(t: Table, stmts: seq<Statement>): (Table, seq<nat>)
    decreases |stmts|
  {
    if stmts == [] then (t, [])
    else
      var (t1, id) := Execute(t, stmts[0]);
      var (t2, ids) := Run(t1, stmts[1..]);
      (t2, (if id.Some? then [id.value] else []) + ids)
  }

  /**
   * Whatever mix of inserts, updates and deletes runs, the ids handed out
   * strictly increase and lie above every id handed out before: a deleted
   * id never comes back.
   */
  lemma {:induction false} IdsNeverReused(t: Table, stmts: seq<Statement>)
    requires TableValid(t)
    ensures var (t', ids) := Run(t, stmts);
      && TableValid(t')
      && t.sequence <= t'.sequence
      && (forall i | 0 <= i < |ids| :: t.sequence < ids[i] <= t'.sequence)
      && (forall i, j | 0 <= i < j < |ids| :: ids[i] < ids[j])
    decreases |stmts|
  {
    if stmts != [] {
      var (t1, id) := Execute(t, stmts[0]);
      match stmts[0] {
        case InsertStatement(values) =>
          if InsertRow(t, values).Some? {
            InsertedIdIsFresh(t, values);
          }
        case UpdateStatement(sel, values) =>
          if NoNulls(values) {
            UpdateKeepsTableValid(t, sel, values);
          }
        case DeleteStatement(sel) =>
          DeleteKeepsTableValid(t, sel);
      }
      assert TableValid(t1) && t.sequence <= t1.sequence;
      assert id.Some? ==> t.sequence < id.value == t1.sequence;
      IdsNeverReused(t1, stmts[1..]);
    }
  }
}
