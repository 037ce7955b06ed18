/**
 * `EditProductFragment`: the form that edits a loaded product. Saving
 * checks the form as the add form does and sends only the columns whose
 * value changed.
 */
module EditProduct {
  import opened Java
  import opened Contract
  import opened DbHelper
  import opened Provider
  import opened ProductForm

  /** The first row of the loader's cursor, read with `getString` and `getInt`. */
  datatype CursorRow = CursorRow(name: string, price: Int32, quantity: Int32, supplierName: string, supplierPhone: string)

  /**
   * The product as the fragment last read it: the text fields hold null and
   * the numbers 0 until a row has been read.
   */
  datatype Loaded = Loaded(name: Option<string>, price: Int32, quantity: Int32,
                           supplierName: Option<string>, supplierPhone: Option<string>)

  const NothingLoaded: Loaded := Loaded(None, 0, 0, None, None)

  function LoadedFrom(row: CursorRow): Loaded
  {
    Loaded(Some(row.name), row.price, row.quantity, Some(row.supplierName), Some(row.supplierPhone))
  }

  /** The value the form puts for a column. */
  function Entered(v: Verdict, c: Column): Value
    requires v.Accepted?
  {
    match c
    case Name => Text(v.name)
    case Price => Int(v.price)
    case Quantity => Int(v.quantity)
    case SupplierName => Text(v.supplierName)
    case SupplierPhone => Text(v.supplierPhone)
  }

  /**
   * Whether a column's entered value differs from the loaded one: `equals`
   * on texts (never equal to a null), `!=` on numbers.
   */
  predicate Differs(v: Verdict, loaded: Loaded, c: Column)
    requires v.Accepted?
  {
    match c
    case Name => loaded.name != Some(v.name)
    case Price => v.price != loaded.price
    case Quantity => v.quantity != loaded.quantity
    case SupplierName => loaded.supplierName != Some(v.supplierName)
    case SupplierPhone => loaded.supplierPhone != Some(v.supplierPhone)
  }

  /** The update values: exactly the columns whose value changed, each with its entered value. */
  function Changes(v: Verdict, loaded: Loaded): (values: ContentValues)
    requires v.Accepted?
    ensures forall c: Column :: c in values <==> Differs(v, loaded, c)
    ensures forall c | c in values :: values[c] == Entered(v, c)
  {
    assert forall c: Column :: c in AllColumns by {
      forall c: Column ensures c in AllColumns {
        ColumnCases(c);
      }
    }
    map c | c in AllColumns && Differs(v, loaded, c) :: Entered(v, c)
  }

  /** An accepted form's changes pass the provider's update checks. */
  lemma ChangesPassUpdateCheck(v: Verdict, loaded: Loaded)
    requires v.Accepted? && v.price >= 0 && v.quantity >= 0
    ensures UpdateCheck(Changes(v, loaded)).None?
  {
    var values := Changes(v, loaded);
    forall c | c in values ensures ColumnOk(values, c) {
      assert values[c] == Entered(v, c);
    }
  }

  /**
   * Saving a form that still shows the loaded product (the numbers as
   * `String.valueOf` printed them) finds nothing to update.
   */
  lemma UntouchedFormHasNoChanges(row: CursorRow)
    requires row.name != [] && row.supplierName != [] && row.supplierPhone != []
    requires NoOuterSpace(row.name) && NoOuterSpace(row.supplierName) && NoOuterSpace(row.supplierPhone)
    requires 0 <= row.price <= 999_999_999 && 0 <= row.quantity <= 999_999_999
    ensures var shown := Fields(row.name, DecimalString(row.price), DecimalString(row.quantity), row.supplierName, row.supplierPhone);
      Check(shown).Accepted? && Changes(Check(shown), LoadedFrom(row)) == map[]
  {
    var v := Accepted(row.name, row.price, row.quantity, row.supplierName, row.supplierPhone);
    RetypedIsAccepted(v);
    var values := Changes(v, LoadedFrom(row));
    forall c: Column ensures c !in values {
      ColumnCases(c);
    }
  }

  /** The text `String.valueOf` prints for an amount of ten digits or more: nothing to trim, longer than nine units. */
  lemma LongAmountText(n: nat)
    requires n >= 1_000_000_000
    ensures Trim(DecimalString(n)) == DecimalString(n) && Length(DecimalString(n)) > 9
  {
    DigitsLength(n, 9);
    assert Pow10(9) == 1_000_000_000;
    DigitsLengthIsJavaLength(DecimalString(n));
    AmountOrLongText(n);
  }

  /**
   * The converse of UntouchedFormHasNoChanges: a loaded price or quantity of
   * ten digits (the details screen can raise a quantity up to
   * `Integer.MAX_VALUE`) makes the untouched form refuse its own values.
   */
  lemma UntouchedFormRefusesLongAmounts(row: CursorRow)
    requires row.name != [] && row.supplierName != [] && row.supplierPhone != []
    requires NoOuterSpace(row.name) && NoOuterSpace(row.supplierName) && NoOuterSpace(row.supplierPhone)
    requires row.price >= 0 && row.quantity >= 0
    ensures var shown := Fields(row.name, DecimalString(row.price), DecimalString(row.quantity), row.supplierName, row.supplierPhone);
      && (row.price >= 1_000_000_000 ==> Check(shown) == InvalidPrice)
      && (row.price < 1_000_000_000 && row.quantity >= 1_000_000_000 ==> Check(shown) == InvalidQuantity)
  {
    TrimKeepsNoOuterSpace(row.name);
    TrimKeepsNoOuterSpace(row.supplierName);
    TrimKeepsNoOuterSpace(row.supplierPhone);
    if row.price >= 1_000_000_000 {
      LongAmountText(row.price);
      assert Trim(DecimalString(row.quantity)) != [] by {
        AmountOrLongText(row.quantity);
      }
    } else if row.quantity >= 1_000_000_000 {
      AmountRoundTrip(row.price);
      LongAmountText(row.quantity);
    }
  }

  /** The printed text of any non-negative amount survives trimming, so it is never blank. */
  lemma AmountOrLongText(n: nat)
    ensures Trim(DecimalString(n)) == DecimalString(n) != []
  {
    var s := DecimalString(n);
    assert !IsTrimmed(s[0]) && !IsTrimmed(s[|s| - 1]);
    TrimKeepsNoOuterSpace(s);
  }

  class EditProductFragment {
    /** The URI of the product being edited, from the fragment's arguments. */
    var currentUri: Uri
    /** The product as last loaded. */
    var current: Loaded
    /** Whether any field changed since the form was filled. */
    var productHasChanged: bool
    /** How many sets of text watchers the fields carry: each loaded row adds one. */
    var watcherSets: nat

    constructor (uri: Uri)
      ensures currentUri == uri && current == NothingLoaded && !productHasChanged && watcherSets == 0
    {
      currentUri := uri;
      current := NothingLoaded;
      productHasChanged := false;
      watcherSets := 0;
    }

    /**
     * `onLoadFinished`: a cursor with a first row replaces the loaded values,
     * writes them into the fields and attaches one more set of watchers; an
     * empty one leaves everything. Writing the fields fires the watchers an
     * earlier load attached, so every load after the first marks the form
     * changed.
     */
    method OnLoadFinished(first: Option<CursorRow>)
      modifies this
      ensures current == if first.Some? then LoadedFrom(first.value) else old(current)
      ensures watcherSets == if first.Some? then old(watcherSets) + 1 else old(watcherSets)
      ensures productHasChanged <==> old(productHasChanged) || (first.Some? && old(watcherSets) > 0)
      ensures currentUri == old(currentUri)
    {
      if first.Some? {
        var row := first.value;
        current := Loaded(Some(row.name), row.price, row.quantity, Some(row.supplierName), Some(row.supplierPhone));
        // setText on the five fields runs every watcher already attached
        if watcherSets > 0 {
          var errorShown := AfterTextChanged(row.name);
        }
        watcherSets := watcherSets + 1;
      }
    }

    /**
     * A change to a field's text: each attached watcher marks the form
     * changed and shows the error label while the field is empty; before the
     * first load no watcher is attached and nothing happens.
     */
    method AfterTextChanged(text: string) returns (errorShown: bool)
      modifies this
      ensures productHasChanged <==> old(productHasChanged) || watcherSets > 0
      ensures errorShown <==> watcherSets > 0 && text == []
      ensures currentUri == old(currentUri) && current == old(current) && watcherSets == old(watcherSets)
    {
      if watcherSets > 0 {
        productHasChanged := true;
      }
      errorShown := watcherSets > 0 && text == [];
    }

    /** `onBackPressed`: intercepts the back press exactly when the form changed. */
    method OnBackPressed() returns (intercepted: bool)
      ensures intercepted <==> productHasChanged
    {
      intercepted := productHasChanged;
    }

    /**
     * `updateProduct`: a refused form returns false (or crashes in parseInt);
     * no change returns true without a call; otherwise the changes go to the
     * product's URI with no selection, and the result is whether exactly
     * one row was updated.
     */
    method UpdateProduct(store: ProductProvider, f: Fields) returns (r: Outcome<bool>)
      requires store.Valid()
      modifies store
      ensures store.Valid()
      ensures !Check(f).Accepted? ==>
        && r == (if Check(f) == NotANumber then Throws(NumberFormat) else Returns(false))
        && unchanged(store)
      ensures Check(f).Accepted? && |Changes(Check(f), current)| == 0 ==> r == Returns(true) && unchanged(store)
      ensures Check(f).Accepted? && |Changes(Check(f), current)| != 0 ==>
        var u := UpdateResult(old(store.table), currentUri, Changes(Check(f), current), AllRows);
        if u.Throws? then r == Throws(u.exception) && unchanged(store)
        else
          && r == Returns(u.value.0 == 1)
          && store.table == u.value.1
          && store.notified == old(store.notified) + (if u.value.0 != 0 then [currentUri] else [])
    {
      var v := Check(f);
      match v {
        case Accepted(name, price, quantity, supplierName, supplierPhone) =>
          var values := BuildChanges(v, current);
          if |values| == 0 {
            return Returns(true);
          }
          ChangesPassUpdateCheck(v, current);
          var result := store.Update(currentUri, values, AllRows);
          match result {
            case Returns(n) => r := Returns(n == 1);
            case Throws(e) => r := Throws(e);
          }
        case NotANumber =>
          r := Throws(NumberFormat);
        case _ =>
          r := Returns(false);
      }
    }
  }

  /** The changed-column diff of `updateProduct`, put column by column into an empty `ContentValues`. */
  method BuildChanges(v: Verdict, loaded: Loaded) returns (values: ContentValues)
    requires v.Accepted?
    ensures values == Changes(v, loaded)
  {
    values := map[];
    if loaded.name != Some(v.name) {
      values := values[Name := Text(v.name)];
    }
    if v.price != loaded.price {
      values := values[Price := Int(v.price)];
    }
    if v.quantity != loaded.quantity {
      values := values[Quantity := Int(v.quantity)];
    }
    if loaded.supplierName != Some(v.supplierName) {
      values := values[SupplierName := Text(v.supplierName)];
    }
    if loaded.supplierPhone != Some(v.supplierPhone) {
      values := values[SupplierPhone := Text(v.supplierPhone)];
    }
    var expected := Changes(v, loaded);
    forall c: Column ensures (c in values <==> c in expected) && (c in values ==> values[c] == expected[c]) {
      ColumnCases(c);
    }
  }
}
