/**
 * `ProductCursorAdapter`: one list row per product, with a sell button that
 * takes one item off the quantity the row shows.
 */
module CursorAdapter {
  import opened Java
  import opened Contract
  import opened DbHelper
  import opened Provider
  import opened QuantityColor
  import opened ProductDetails

  /** `quantityInt - 1` in Java `int` arithmetic: one below `Integer.MIN_VALUE` wraps to `Integer.MAX_VALUE`. */
  function SoldQuantity(q: Int32): (r: Int32)
    ensures q > MinInt ==> r == q - 1
  {
    if q == MinInt then MaxInt else q - 1
  }

  /**
   * The values a sale writes pass the provider's update checks exactly when
   * the shown quantity was positive (from any q >= 1 it writes q - 1 >= 0)
   * or was `Integer.MIN_VALUE`, whose decrement wraps around; any other
   * negative shown quantity is refused by the quantity check.
   */
  lemma SaleValuesChecked(q: Int32)
    requires q != 0
    ensures UpdateCheck(map[Quantity := Int(SoldQuantity(q))]).None? <==> q > 0 || q == MinInt
    ensures q > 0 ==> SoldQuantity(q) == q - 1 >= 0
  {
    var values := map[Quantity := Int(SoldQuantity(q))];
    assert AsInteger(values, Quantity) == Some(SoldQuantity(q));
  }

  /** The URI of a row's product, built from the `_id` on the sell button's tag. */
  function ItemUri(productId: Int32): (uri: Uri)
    ensures productId >= 0 ==> Classify(uri) == ProductId(productId)
    ensures productId < 0 ==> Classify(uri) == NoMatch
  {
    ClassifyAppendedId(productId);
    WithAppendedId(ContentUri, productId)
  }

  /** The views of one list row that the sell button reads and writes. */
  class ListItem {
    /** The row's `_id`, read with `getInt` and kept as the sell button's tag. */
    var productId: Int32
    /** The text of the row's quantity view. */
    var shownQuantity: string
    /** The colour `bindView` gave the quantity pane; only the next bind changes it. */
    var paneColor: Color

    /**
     * `bindView`: the row shows the cursor's quantity text, and the sell
     * button is tagged with `getInt` of the stored `_id`, which keeps only
     * its low 32 bits.
     */
    constructor (storedId: nat, quantityText: string)
      ensures productId == ToInt32(storedId) && shownQuantity == quantityText
      ensures storedId <= MaxInt ==> productId == storedId
      ensures paneColor == ColorOf(quantityText)
    {
      productId := ToInt32(storedId);
      shownQuantity := quantityText;
      paneColor := ColorOf(quantityText);
    }

    /**
     * The sell button: parse the shown quantity (a crash when it does not
     * parse), refuse at 0, otherwise update the row's item URI with the
     * quantity one lower, and show that quantity when exactly one row was
     * updated.
     */
    method SellClick(store: ProductProvider) returns (r: Outcome<Report>)
      requires store.Valid()
      modifies this, store
      ensures store.Valid()
      ensures productId == old(productId) && paneColor == old(paneColor)
      ensures ParseInt(old(shownQuantity)).None? ==>
        r == Throws(NumberFormat) && unchanged(store) && shownQuantity == old(shownQuantity)
      ensures ParseInt(old(shownQuantity)) == Some(0) ==>
        r == Returns(Skipped) && unchanged(store) && shownQuantity == old(shownQuantity)
      ensures ParseInt(old(shownQuantity)).Some? && ParseInt(old(shownQuantity)).value != 0 ==>
        var sold := SoldQuantity(ParseInt(old(shownQuantity)).value);
        var u := UpdateResult(old(store.table), ItemUri(productId), map[Quantity := Int(sold)], AllRows);
        if u.Throws? then r == Throws(u.exception) && unchanged(store) && shownQuantity == old(shownQuantity)
        else
          && r == Returns(ReportOf(u.value.0))
          && store.table == u.value.1
          && store.notified == old(store.notified) + (if u.value.0 != 0 then [ItemUri(productId)] else [])
          && shownQuantity == if u.value.0 == 1 then DecimalString(sold) else old(shownQuantity)
    {
      var parsed := ParseInt(shownQuantity);
      if parsed.None? {
        return Throws(NumberFormat);
      }
      var quantity := parsed.value;
      if quantity == 0 {
        return Returns(Skipped);
      }
      var newQuantity := SoldQuantity(quantity);
      var values: ContentValues := map[];
      values := values[Quantity := Int(newQuantity)];
      var uri := WithAppendedId(ContentUri, productId);
      var result := store.Update(uri, values, AllRows);
      match result {
        case Returns(n) =>
          if n == 1 {
            shownQuantity := DecimalString(newQuantity);
          }
          r := Returns(ReportOf(n));
        case Throws(e) =>
          r := Throws(e);
      }
    }
  }

  /**
   * The sell button reaches the row it sits on exactly when the row's id fits
   * an `int`. A larger id is cut to its low 32 bits: the tag is then negative
   * and the URI matches nothing, or it names a smaller id, another product.
   */
  lemma TagOfStoredId(storedId: nat)
    ensures Classify(ItemUri(ToInt32(storedId))) == ProductId(storedId) <==> storedId <= MaxInt
    ensures storedId > MaxInt ==>
      Classify(ItemUri(ToInt32(storedId))) == NoMatch || Classify(ItemUri(ToInt32(storedId))).id < storedId
  {
  }

  /**
   * A row showing the quantity stored for an existing product sells one item:
   * the stored quantity drops by one, the row shows the new quantity, and
   * the report is success.
   */
  lemma SaleOfStoredProduct(t: Table, id: Int32, q: Int32)
    requires id >= 0 && id in t.rows && t.rows[id].quantity == Int(q) && q > 0
    ensures var u := UpdateResult(t, ItemUri(id), map[Quantity := Int(SoldQuantity(q))], AllRows);
      && u.Returns? && u.value.0 == 1
      && u.value.1.rows[id] == t.rows[id].(quantity := Int(q - 1))
      && ParseInt(DecimalString(q)) == Some(q)
  {
    var values := map[Quantity := Int(SoldQuantity(q))];
    SaleValuesChecked(q);
    SelectById(t, id);
    ParseIntOfDecimalString(q);
    var row := t.rows[id];
    var updated := Apply(row, values);
    assert updated.Get(Quantity) == Int(q - 1);
    assert updated == row.(quantity := Int(q - 1)) by {
      assert updated.Get(Name) == row.name && updated.Get(Price) == row.price;
      assert updated.Get(SupplierName) == row.supplierName && updated.Get(SupplierPhone) == row.supplierPhone;
    }
  }
}
