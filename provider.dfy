/**
 * `ProductProvider`: the content provider in front of the products table.
 * It classifies URIs, checks the values of inserts and updates, runs the
 * statement on the table, and notifies observers of the URI when rows changed.
 */
module Provider {
  import opened Java
  import opened Contract
  import opened DbHelper

  // ---------------------------------------------------------------------
  // URI classification
  // ---------------------------------------------------------------------

  /** The UriMatcher codes: PRODUCTS, PRODUCT_ID (with the id the URI spells), NO_MATCH. */
  datatype Match = Products | ProductId(id: nat) | NoMatch

  /**
   * UriMatcher with the patterns "products" and "products/#": the authority
   * must be the provider's, and `#` accepts a segment of decimal digits.
   */
  function Classify(uri: Uri): (m: Match)
    ensures m == Products <==> uri == ContentUri
    ensures m.ProductId? <==>
      && uri.authority == ContentAuthority && |uri.path| == 2 && uri.path[0] == PathProducts
      && uri.path[1] != [] && AllDigits(uri.path[1])
    ensures m.ProductId? ==> m.id == DigitsValue(uri.path[1])
  {
    if uri.authority != ContentAuthority then NoMatch
    else if uri.path == [PathProducts] then Products
    else if |uri.path| == 2 && uri.path[0] == PathProducts && uri.path[1] != [] && AllDigits(uri.path[1]) then
      ProductId(DigitsValue(uri.path[1]))
    else NoMatch
  }

  /** The URI of a row, as callers build it with `withAppendedId`, is an item URI for that row; a negative id matches nothing. */
  lemma ClassifyAppendedId(id: int)
    ensures Classify(WithAppendedId(ContentUri, id)) == if id >= 0 then ProductId(id) else NoMatch
  {
    var uri := WithAppendedId(ContentUri, id);
    assert uri.path == [PathProducts, DecimalString(id)];
    if id >= 0 {
      DigitsRoundTrip(id);
    } else {
      assert !IsDigit(uri.path[1][0]);
    }
  }

  // ---------------------------------------------------------------------
  // Exceptions
  // ---------------------------------------------------------------------

  datatype Op = QueryOp | InsertOp | UpdateOp | DeleteOp

  /** The exceptions that escape the provider (and the forms that call it). */
  datatype Exception =
    | UnsupportedUri(op: Op)        // IllegalArgumentException: the URI matches no pattern the operation accepts
    | UnknownUriType                // IllegalStateException from getType
    | InvalidColumn(column: Column) // IllegalArgumentException from the sanity check of that column
    | EmptyValues                   // IllegalArgumentException from SQLiteDatabase.update given no column
    | NumberFormat                  // NumberFormatException: parseId beyond a long, or parseInt on a form

  /** A Java call either returns a value or throws. */
  datatype Outcome<+T> = Returns(value: T) | Throws(exception: Exception)

  // ---------------------------------------------------------------------
  // getType and the selection an operation runs with
  // ---------------------------------------------------------------------

  /** `getType`: the list MIME type for the collection, the item type for a product. */
  function GetType(uri: Uri): (r: Outcome<string>)
    ensures r == Returns(ContentListType) <==> uri == ContentUri
    ensures r == Returns(ContentItemType) <==> Classify(uri).ProductId?
    ensures r == Throws(UnknownUriType) <==> Classify(uri) == NoMatch
  {
    assert ContentListType[19] != ContentItemType[19];
    match Classify(uri)
    case Products => Returns(ContentListType)
    case ProductId(_) => Returns(ContentItemType)
    case NoMatch => Throws(UnknownUriType)
  }

  /**
   * The selection query, update and delete run with: the caller's for the
   * collection; for an item, `_id = id` in place of whatever the caller
   * passed (ContentUris.parseId throws for an id beyond a long).
   */
  function Target(uri: Uri, op: Op, selection: Selection): (r: Outcome<Selection>)
    ensures r.Throws? <==> Classify(uri) == NoMatch || (Classify(uri).ProductId? && Classify(uri).id > MaxLong)
    ensures r.Throws? ==> r.exception == if Classify(uri) == NoMatch then UnsupportedUri(op) else NumberFormat
    ensures r.Returns? && Classify(uri).ProductId? ==> r.value == IdEquals(Classify(uri).id)
  {
    match Classify(uri)
    case Products => Returns(selection)
    case ProductId(id) => if id <= MaxLong then Returns(IdEquals(id)) else Throws(NumberFormat)
    case NoMatch => Throws(UnsupportedUri(op))
  }

  /** On the collection URI the caller's selection is used as it is. */
  lemma CollectionKeepsSelection(t: Table, op: Op, selection: Selection)
    ensures Target(ContentUri, op, selection).Returns?
    ensures Select(t, Target(ContentUri, op, selection).value) == Select(t, selection)
  {
  }

  /**
   * On an item URI the caller's selection makes no difference: any two
   * selections reach the same rows, at most the one row whose id the URI
   * names, so an item update or delete counts 0 or 1.
   */
  lemma ItemIgnoresSelection(t: Table, uri: Uri, op: Op, s1: Selection, s2: Selection, values: ContentValues)
    requires Classify(uri).ProductId? && Target(uri, op, s1).Returns?
    ensures Target(uri, op, s2).Returns?
    ensures Select(t, Target(uri, op, s1).value) == Select(t, Target(uri, op, s2).value)
    ensures Select(t, Target(uri, op, s1).value).Keys <= {Classify(uri).id}
    ensures UpdateRows(t, Target(uri, op, s1).value, values).0 <= 1
    ensures DeleteRows(t, Target(uri, op, s1).value).0 <= 1
  {
    SelectById(t, Classify(uri).id);
  }

  /** A URI that matches no pattern is refused by getType and by every operation. */
  lemma UnknownUriRefused(uri: Uri, op: Op, selection: Selection)
    requires Classify(uri) == NoMatch
    ensures GetType(uri) == Throws(UnknownUriType)
    ensures Target(uri, op, selection).Throws? && Target(uri, op, selection).exception == UnsupportedUri(op)
  {
  }

  // ---------------------------------------------------------------------
  // Sanity checks
  // ---------------------------------------------------------------------

  /** The order the sanity checks run in. */
  function Rank(c: Column): nat
  {
    match c
    case Name => 0
    case Price => 1
    case Quantity => 2
    case SupplierName => 3
    case SupplierPhone => 4
  }

  /** What the check on a column demands: a non-null text, or a non-negative integer for price and quantity. */
  predicate ColumnOk(values: ContentValues, c: Column)
  {
    match c
    case Price | Quantity => AsInteger(values, c).Some? && AsInteger(values, c).value >= 0
    case Name | SupplierName | SupplierPhone => AsString(values, c).Some?
  }

  /** The column each insert check reads: the supplier-phone check reads supplier_name. */
  function InsertCheckReads(c: Column): Column
  {
    if c == SupplierPhone then SupplierName else c
  }

  /**
   * The sanity checks of `insertProduct`, in order; the first failing check
   * names the column of the exception, None means all passed. Only null is
   * refused: an empty name passes.
   */
  function InsertCheck(values: ContentValues): (r: Option<Column>)
    ensures r.Some? ==> !ColumnOk(values, InsertCheckReads(r.value))
    ensures r.None? <==> forall c: Column :: ColumnOk(values, InsertCheckReads(c))
    ensures r.Some? ==> forall c: Column | Rank(c) < Rank(r.value) :: ColumnOk(values, InsertCheckReads(c))
  {
    var price := AsInteger(values, Price);
    var quantity := AsInteger(values, Quantity);
    if AsString(values, Name).None? then Some(Name)
    else if price.None? || price.value < 0 then Some(Price)
    else if quantity.None? || quantity.value < 0 then Some(Quantity)
    else if AsString(values, SupplierName).None? then Some(SupplierName)
    else if AsString(values, SupplierName).None? then Some(SupplierPhone)
    else None
  }

  /**
   * Because the phone check reads supplier_name, it can never be the one
   * that fails, and the phone column has no say in the checks at all.
   */
  lemma InsertCheckIgnoresPhone(values: ContentValues)
    ensures InsertCheck(values) != Some(SupplierPhone)
    ensures InsertCheck(values) == InsertCheck(values - {SupplierPhone})
  {
    var w := values - {SupplierPhone};
    assert forall c | c != SupplierPhone :: AsString(w, c) == AsString(values, c) && AsInteger(w, c) == AsInteger(values, c);
  }

  /**
   * Values that pass the insert checks still need a non-null phone for the
   * NOT NULL constraint: without one the database refuses the row.
   */
  lemma CheckedInsertNeedsPhone(values: ContentValues)
    requires InsertCheck(values).None?
    ensures NotNullOk(values) <==> SupplierPhone in values && values[SupplierPhone] != Null
  {
    if SupplierPhone in values && values[SupplierPhone] != Null {
      forall c: Column ensures c in values && values[c] != Null {
        assert ColumnOk(values, InsertCheckReads(c));
      }
    }
  }

  /**
   * The sanity checks of `updateProduct`: only the columns present are
   * checked, each against its own column, in the same order.
   */
  function UpdateCheck(values: ContentValues): (r: Option<Column>)
    ensures r.None? <==> forall c | c in values :: ColumnOk(values, c)
    ensures r.Some? ==> r.value in values && !ColumnOk(values, r.value)
    ensures r.Some? ==> forall c | c in values && Rank(c) < Rank(r.value) :: ColumnOk(values, c)
  {
    var price := AsInteger(values, Price);
    var quantity := AsInteger(values, Quantity);
    if Name in values && AsString(values, Name).None? then Some(Name)
    else if Price in values && (price.None? || price.value < 0) then Some(Price)
    else if Quantity in values && (quantity.None? || quantity.value < 0) then Some(Quantity)
    else if SupplierName in values && AsString(values, SupplierName).None? then Some(SupplierName)
    else if SupplierPhone in values && AsString(values, SupplierPhone).None? then Some(SupplierPhone)
    else None
  }

  // ---------------------------------------------------------------------
  // The store invariant
  // ---------------------------------------------------------------------

  /** Beyond the schema, the checks keep price and quantity readable as non-negative integers. */
  predicate RowChecked(row: Row)
  {
    && IntegerOf(row.price).Some? && IntegerOf(row.price).value >= 0
    && IntegerOf(row.quantity).Some? && IntegerOf(row.quantity).value >= 0
  }

  ghost predicate StoreInvariant(t: Table)
  {
    TableValid(t) && forall id | id in t.rows :: RowChecked(t.rows[id])
  }

  lemma InsertKeepsInvariant(t: Table, values: ContentValues)
    requires StoreInvariant(t) && InsertCheck(values).None? && InsertRow(t, values).Some?
    ensures StoreInvariant(InsertRow(t, values).value.1)
  {
    InsertedIdIsFresh(t, values);
    assert ColumnOk(values, Price) && ColumnOk(values, Quantity);
  }

  /** Checked update values contain no null, and rewrite rows into rows that still pass the checks. */
  lemma UpdateKeepsInvariant(t: Table, sel: Selection, values: ContentValues)
    requires StoreInvariant(t) && UpdateCheck(values).None?
    ensures NoNulls(values)
    ensures StoreInvariant(UpdateRows(t, sel, values).1)
  {
    forall c | c in values ensures values[c] != Null {
      assert ColumnOk(values, c);
    }
    UpdateKeepsTableValid(t, sel, values);
    var t' := UpdateRows(t, sel, values).1;
    forall id | id in t'.rows ensures RowChecked(t'.rows[id]) {
      assert RowChecked(t.rows[id]);
      if Price in values { assert ColumnOk(values, Price); }
      if Quantity in values { assert ColumnOk(values, Quantity); }
    }
  }

  // ---------------------------------------------------------------------
  // What update and delete do to a table
  // ---------------------------------------------------------------------

  /** `update` on a table: the count and the new table, or the exception thrown. */
  function UpdateResult(t: Table, uri: Uri, values: ContentValues, selection: Selection): Outcome<(nat, Table)>
  {
    match Target(uri, UpdateOp, selection)
    case Throws(e) => Throws(e)
    case Returns(sel) =>
      if UpdateCheck(values).Some? then Throws(InvalidColumn(UpdateCheck(values).value))
      else if |values| == 0 then Throws(EmptyValues)
      else Returns(UpdateRows(t, sel, values))
  }

  /** `delete` on a table: the count and the new table, or the exception thrown. */
  function DeleteResult(t: Table, uri: Uri, selection: Selection): Outcome<(nat, Table)>
  {
    match Target(uri, DeleteOp, selection)
    case Throws(e) => Throws(e)
    case Returns(sel) => Returns(DeleteRows(t, sel))
  }

  /**
   * Update and delete on an item URI count 0 or 1 (1 exactly when the row
   * is there), whatever selection the caller passed.
   */
  lemma ItemCountsZeroOrOne(t: Table, uri: Uri, values: ContentValues, selection: Selection)
    requires Classify(uri).ProductId?
    ensures UpdateResult(t, uri, values, selection).Returns? ==>
      UpdateResult(t, uri, values, selection).value.0 == if Classify(uri).id in t.rows then 1 else 0
    ensures DeleteResult(t, uri, selection).Returns? ==>
      DeleteResult(t, uri, selection).value.0 == if Classify(uri).id in t.rows then 1 else 0
  {
    SelectById(t, Classify(uri).id);
  }

  // ---------------------------------------------------------------------
  // The provider
  // ---------------------------------------------------------------------

  class ProductProvider {
    /** The products table of inventory.db. */
    var table: Table
    /** Every URI passed to `notifyChange`, oldest first. */
    var notified: seq<Uri>

    ghost predicate Valid()
      reads this
    {
      StoreInvariant(table)
    }

    /** `onCreate` on a device without the database: `ProductDbHelper.onCreate` creates an empty table. */
    constructor ()
      ensures Valid() && table == EmptyTable && notified == []
    {
      table := EmptyTable;
      notified := [];
    }

    /**
     * `query`: the cursor's rows by id. An item URI yields its row or nothing,
     * whatever selection the caller passed.
     */
    function Query(uri: Uri, selection: Selection): (r: Outcome<map<nat, Row>>)
      reads this
      ensures r.Throws? <==> Target(uri, QueryOp, selection).Throws?
      ensures r.Throws? ==> r.exception == Target(uri, QueryOp, selection).exception
      ensures r.Returns? && uri == ContentUri ==> r.value == Select(table, selection)
      ensures r.Returns? && Classify(uri).ProductId? ==>
        var id := Classify(uri).id;
        r.value == if id in table.rows then map[id := table.rows[id]] else map[]
    {
      match Target(uri, QueryOp, selection)
      case Throws(e) => Throws(e)
      case Returns(sel) =>
        if Classify(uri).ProductId? then SelectById(table, Classify(uri).id); Returns(Select(table, sel))
        else Returns(Select(table, sel))
    }

    /** `insert`: accepted on the collection URI only. */
    method Insert(uri: Uri, values: ContentValues) returns (r: Outcome<Option<Uri>>)
      requires Valid()
      modifies this
      ensures Valid()
      ensures Classify(uri) != Products ==> r == Throws(UnsupportedUri(InsertOp)) && unchanged(this)
      ensures Classify(uri) == Products && InsertCheck(values).Some? ==>
        r == Throws(InvalidColumn(InsertCheck(values).value)) && unchanged(this)
      ensures Classify(uri) == Products && InsertCheck(values).None? && InsertRow(old(table), values).None? ==>
        r == Returns(None) && unchanged(this)
      ensures Classify(uri) == Products && InsertCheck(values).None? && InsertRow(old(table), values).Some? ==>
        var (id, t) := InsertRow(old(table), values).value;
        && r == Returns(Some(WithAppendedId(uri, id)))
        && table == t
        && notified == old(notified) + [uri]
    {
      match Classify(uri) {
        case Products =>
          r := InsertProduct(uri, values);
        case _ =>
          r := Throws(UnsupportedUri(InsertOp));
      }
    }

    /** `insertProduct`: the checks, the database insert, and the notification of the collection. */
    method InsertProduct(uri: Uri, values: ContentValues) returns (r: Outcome<Option<Uri>>)
      requires Valid()
      modifies this
      ensures Valid()
      ensures InsertCheck(values).Some? ==> r == Throws(InvalidColumn(InsertCheck(values).value)) && unchanged(this)
      ensures InsertCheck(values).None? && InsertRow(old(table), values).None? ==> r == Returns(None) && unchanged(this)
      ensures InsertCheck(values).None? && InsertRow(old(table), values).Some? ==>
        var (id, t) := InsertRow(old(table), values).value;
        && r == Returns(Some(WithAppendedId(uri, id)))
        && table == t
        && notified == old(notified) + [uri]
    {
      var failed := InsertCheck(values);
      if failed.Some? {
        return Throws(InvalidColumn(failed.value));
      }
      var inserted := InsertRow(table, values);
      if inserted.None? {
        // the database returned -1
        return Returns(None);
      }
      InsertKeepsInvariant(table, values);
      var (id, t) := inserted.value;
      table := t;
      notified := notified + [uri];
      r := Returns(Some(WithAppendedId(uri, id)));
    }

    /** `delete`: removes the selected rows and reports how many; notifies the URI when that is not zero. */
    method Delete(uri: Uri, selection: Selection) returns (r: Outcome<nat>)
      requires Valid()
      modifies this
      ensures Valid()
      ensures var d := DeleteResult(old(table), uri, selection);
        if d.Throws? then r == Throws(d.exception) && unchanged(this)
        else
          && r == Returns(d.value.0)
          && table == d.value.1
          && notified == old(notified) + (if d.value.0 > 0 then [uri] else [])
    {
      var sel: Selection;
      match Classify(uri) {
        case Products =>
          sel := selection;
        case ProductId(id) =>
          if id > MaxLong {
            return Throws(NumberFormat);
          }
          sel := IdEquals(id);
        case NoMatch =>
          return Throws(UnsupportedUri(DeleteOp));
      }
      var (n, t) := DeleteRows(table, sel);
      table := t;
      if n > 0 {
        notified := notified + [uri];
      }
      r := Returns(n);
    }

    /** `update`: the collection with the caller's selection, or one item by its id. */
    method Update(uri: Uri, values: ContentValues, selection: Selection) returns (r: Outcome<nat>)
      requires Valid()
      modifies this
      ensures Valid()
      ensures var u := UpdateResult(old(table), uri, values, selection);
        if u.Throws? then r == Throws(u.exception) && unchanged(this)
        else
          && r == Returns(u.value.0)
          && table == u.value.1
          && notified == old(notified) + (if u.value.0 != 0 then [uri] else [])
    {
      match Classify(uri) {
        case Products =>
          r := UpdateProduct(uri, values, selection);
        case ProductId(id) =>
          if id > MaxLong {
            return Throws(NumberFormat);
          }
          r := UpdateProduct(uri, values, IdEquals(id));
        case NoMatch =>
          r := Throws(UnsupportedUri(UpdateOp));
      }
    }

    /** `updateProduct`: the checks of the columns present, the database update, and the notification. */
    method UpdateProduct(uri: Uri, values: ContentValues, sel: Selection) returns (r: Outcome<nat>)
      requires Valid()
      modifies this
      ensures Valid()
      ensures UpdateCheck(values).Some? ==> r == Throws(InvalidColumn(UpdateCheck(values).value)) && unchanged(this)
      ensures UpdateCheck(values).None? && |values| == 0 ==> r == Throws(EmptyValues) && unchanged(this)
      ensures UpdateCheck(values).None? && |values| != 0 ==>
        var (n, t) := UpdateRows(old(table), sel, values);
        && r == Returns(n)
        && table == t
        && notified == old(notified) + (if n != 0 then [uri] else [])
    {
      var failed := UpdateCheck(values);
      if failed.Some? {
        return Throws(InvalidColumn(failed.value));
      }
      if |values| == 0 {
        // SQLiteDatabase.update refuses an update that sets no column
        return Throws(EmptyValues);
      }
      UpdateKeepsInvariant(table, sel, values);
      var (n, t) := UpdateRows(table, sel, values);
      table := t;
      if n != 0 {
        notified := notified + [uri];
      }
      r := Returns(n);
    }
  }
}
