/**
 * `AddProductFragment`: the form that adds a product, its save action and
 * its unsaved-changes flag.
 */
module AddProduct {
  import opened Java
  import opened Contract
  import opened DbHelper
  import opened Provider
  import opened ProductForm

  /** The values `insertProduct` puts: all five columns, price and quantity as numbers. */
  function InsertValues(v: Verdict): (values: ContentValues)
    requires v.Accepted?
    ensures NotNullOk(values)
  {
    var values := map[Name := Text(v.name), Price := Int(v.price), Quantity := Int(v.quantity),
                      SupplierName := Text(v.supplierName), SupplierPhone := Text(v.supplierPhone)];
    assert NotNullOk(values) by {
      forall c: Column ensures c in values && values[c] != Null {
        ColumnCases(c);
      }
    }
    values
  }

  /** Whatever the form accepts passes every insert check of the provider and every NOT NULL constraint. */
  lemma AcceptedFormPassesInsertChecks(f: Fields)
    requires Check(f).Accepted?
    ensures InsertCheck(InsertValues(Check(f))).None?
    ensures NotNullOk(InsertValues(Check(f)))
  {
    var values := InsertValues(Check(f));
    assert AsInteger(values, Price) == Some(Check(f).price);
    assert AsInteger(values, Quantity) == Some(Check(f).quantity);
  }

  /** One `onTextChanged` call of a field's watcher. */
  datatype TextChange = TextChange(start: int, before: int)

  /** The change that deletes the only char of a field: it shows the error label instead of marking the form changed. */
  predicate ClearsField(c: TextChange)
  {
    c.start == 0 && c.before == 1
  }

  /** The `productHasChanged` flag after a run of text changes, starting from `changed`. */
  function ChangedAfter(changed: bool, changes: seq<TextChange>): bool
    decreases |changes|
  {
    if changes == [] then changed
    else ChangedAfter(changed || !ClearsField(changes[0]), changes[1..])
  }

  /** The form counts as changed exactly when it started so or some change was not a field-clearing one. */
  lemma {:induction false} ChangedAfterIff(changed: bool, changes: seq<TextChange>)
    ensures ChangedAfter(changed, changes) <==> changed || exists i | 0 <= i < |changes| :: !ClearsField(changes[i])
    decreases |changes|
  {
    if changes != [] {
      ChangedAfterIff(changed || !ClearsField(changes[0]), changes[1..]);
      if exists i | 0 <= i < |changes| :: !ClearsField(changes[i]) {
        var i :| 0 <= i < |changes| && !ClearsField(changes[i]);
        if i > 0 {
          assert changes[1..][i - 1] == changes[i];
        }
      }
      if exists i | 0 <= i < |changes| - 1 :: !ClearsField(changes[1..][i]) {
        var i :| 0 <= i < |changes| - 1 && !ClearsField(changes[1..][i]);
        assert changes[i + 1] == changes[1..][i];
      }
    }
  }

  class AddProductFragment {
    /** Whether the user changed any field since the form opened. */
    var productHasChanged: bool

    constructor ()
      ensures !productHasChanged
    {
      productHasChanged := false;
    }

    /** The text watcher: returns whether the field's error label is shown. */
    method OnTextChanged(change: TextChange) returns (errorShown: bool)
      modifies this
      ensures errorShown <==> ClearsField(change)
      ensures productHasChanged == ChangedAfter(old(productHasChanged), [change])
    {
      if change.start == 0 && change.before == 1 {
        errorShown := true;
      } else {
        errorShown := false;
        productHasChanged := true;
      }
    }

    /** `onBackPressed`: intercepts the back press (to ask about unsaved changes) exactly when the form changed. */
    method OnBackPressed() returns (intercepted: bool)
      ensures intercepted <==> productHasChanged
    {
      intercepted := productHasChanged;
    }

    /**
     * `insertProduct`: true exactly when the provider returned the new
     * product's URI. Refused forms never reach the provider; a price or
     * quantity that does not parse crashes with NumberFormatException.
     */
    method InsertProduct(store: ProductProvider, f: Fields) returns (r: Outcome<bool>)
      requires store.Valid()
      modifies store
      ensures store.Valid()
      ensures !Check(f).Accepted? ==>
        && r == (if Check(f) == NotANumber then Throws(NumberFormat) else Returns(false))
        && unchanged(store)
      ensures Check(f).Accepted? ==>
        var inserted := InsertRow(old(store.table), InsertValues(Check(f)));
        && r == Returns(inserted.Some?)
        && (inserted.Some? ==> store.table == inserted.value.1 && store.notified == old(store.notified) + [ContentUri])
        && (inserted.None? ==> unchanged(store))
    {
      var v := Check(f);
      match v {
        case Accepted(name, price, quantity, supplierName, supplierPhone) =>
          var values: ContentValues := map[];
          values := values[Name := Text(name)];
          values := values[Price := Int(price)];
          values := values[Quantity := Int(quantity)];
          values := values[SupplierName := Text(supplierName)];
          values := values[SupplierPhone := Text(supplierPhone)];
          assert values == InsertValues(v);
          AcceptedFormPassesInsertChecks(f);
          var result := store.Insert(ContentUri, values);
          r := Returns(result.value.Some?);
        case NotANumber =>
          r := Throws(NumberFormat);
        case _ =>
          r := Returns(false);
      }
    }
  }

  /** An accepted form is inserted unless the table has used up every id. */
  lemma AcceptedFormInserted(t: Table, f: Fields)
    requires TableValid(t) && Check(f).Accepted?
    ensures InsertRow(t, InsertValues(Check(f))).Some? <==> t.sequence < MaxRowId
  {
  }
}
