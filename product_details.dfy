/**
 * `ProductDetailsFragment`: shows one product, lets the user move a
 * quantity tracker with two buttons, writes the new quantity back when the
 * screen is left, and deletes the product.
 */
module ProductDetails {
  import opened Java
  import opened Contract
  import opened DbHelper
  import opened Provider
  import opened QuantityColor

  /** How a screen reads a row count from the provider: 1 is success, 0 failure, anything else an error. */
  datatype Report = Skipped | Succeeded | Failed | Unexpected

  function ReportOf(count: nat): (r: Report)
    ensures r == Succeeded <==> count == 1
    ensures r == Failed <==> count == 0
    ensures r != Skipped
  {
    match count
    case 1 => Succeeded
    case 0 => Failed
    case _ => Unexpected
  }

  /** On an item URI the error report cannot happen: update and delete count 0 or 1. */
  lemma ItemNeverUnexpected(t: Table, uri: Uri, values: ContentValues)
    requires Classify(uri).ProductId?
    ensures UpdateResult(t, uri, values, AllRows).Returns? ==>
      ReportOf(UpdateResult(t, uri, values, AllRows).value.0) == if Classify(uri).id in t.rows then Succeeded else Failed
    ensures DeleteResult(t, uri, AllRows).Returns? ==>
      ReportOf(DeleteResult(t, uri, AllRows).value.0) == if Classify(uri).id in t.rows then Succeeded else Failed
  {
    ItemCountsZeroOrOne(t, uri, values, AllRows);
  }

  /** The two quantity buttons. */
  datatype Click = Decrease | Increase

  /** One button press on the tracker: never below 0 by decreasing, never past `Integer.MAX_VALUE` by increasing. */
  function Step(tracker: Int32, click: Click): Int32
  {
    match click
    case Decrease => if tracker > 0 then tracker - 1 else tracker
    case Increase => if tracker < MaxInt then tracker + 1 else tracker
  }

  /** The tracker after a run of presses. */
  function TrackerAfter(tracker: Int32, clicks: seq<Click>): Int32
    decreases |clicks|
  {
    if clicks == [] then tracker else TrackerAfter(Step(tracker, clicks[0]), clicks[1..])
  }

  /**
   * From a non-negative start the tracker stays non-negative, and each
   * press moves it by at most one.
   */
  lemma {:induction false} TrackerBounds(tracker: Int32, clicks: seq<Click>)
    ensures tracker >= 0 ==> TrackerAfter(tracker, clicks) >= 0
    ensures tracker - |clicks| <= TrackerAfter(tracker, clicks) <= tracker + |clicks|
    decreases |clicks|
  {
    if clicks != [] {
      TrackerBounds(Step(tracker, clicks[0]), clicks[1..]);
    }
  }

  /** Decreasing at 0 and increasing at `Integer.MAX_VALUE` change nothing, however often repeated. */
  lemma {:induction false} TrackerSaturates(clicks: seq<Click>)
    ensures (forall i | 0 <= i < |clicks| :: clicks[i] == Decrease) ==> TrackerAfter(0, clicks) == 0
    ensures (forall i | 0 <= i < |clicks| :: clicks[i] == Increase) ==> TrackerAfter(MaxInt, clicks) == MaxInt
    decreases |clicks|
  {
    if clicks != [] {
      TrackerSaturates(clicks[1..]);
      assert forall i | 0 <= i < |clicks| - 1 :: clicks[1..][i] == clicks[i + 1];
    }
  }

  class ProductDetailsFragment {
    /** The product's URI from the fragment's arguments; null when there were none. */
    var currentUri: Option<Uri>
    /** The stored quantity as last loaded (0 before any load). */
    var currentQuantity: Int32
    /** The quantity the user has set with the buttons. */
    var quantityTracker: Int32

    constructor (uri: Option<Uri>)
      ensures currentUri == uri && currentQuantity == 0 && quantityTracker == 0
    {
      currentUri := uri;
      currentQuantity := 0;
      quantityTracker := 0;
    }

    /**
     * `onLoadFinished`: the quantity of the cursor's first row becomes both
     * the stored quantity and the tracker, and picks the pane's colour; a
     * cursor without rows changes nothing.
     */
    method OnLoadFinished(quantity: Option<Int32>) returns (pane: Option<Color>)
      modifies this
      ensures currentUri == old(currentUri)
      ensures quantity.Some? ==>
        && currentQuantity == quantity.value && quantityTracker == quantity.value
        && pane == Some(ColorOf(DecimalString(quantity.value)))
      ensures quantity.None? ==>
        currentQuantity == old(currentQuantity) && quantityTracker == old(quantityTracker) && pane == None
    {
      pane := None;
      if quantity.Some? {
        currentQuantity := quantity.value;
        quantityTracker := currentQuantity;
        pane := Some(ColorOf(DecimalString(currentQuantity)));
      }
    }

    /** The minus button; returns whether it was refused (the "cannot be negative" toast). */
    method DecreaseQuantity() returns (refused: bool)
      modifies this
      ensures quantityTracker == Step(old(quantityTracker), Decrease)
      ensures refused <==> old(quantityTracker) <= 0
      ensures currentUri == old(currentUri) && currentQuantity == old(currentQuantity)
    {
      if quantityTracker > 0 {
        quantityTracker := quantityTracker - 1;
        refused := false;
      } else {
        refused := true;
      }
    }

    /** The plus button; returns whether it was refused (the "MAX Quantity reached" toast). */
    method IncreaseQuantity() returns (refused: bool)
      modifies this
      ensures quantityTracker == Step(old(quantityTracker), Increase)
      ensures refused <==> old(quantityTracker) == MaxInt
      ensures currentUri == old(currentUri) && currentQuantity == old(currentQuantity)
    {
      if quantityTracker < MaxInt {
        quantityTracker := quantityTracker + 1;
        refused := false;
      } else {
        refused := true;
      }
    }

    /** Whether `updateQuantity` writes: the tracker moved, is not negative, and there is a URI. */
    predicate NeedsUpdate()
      reads this
    {
      quantityTracker != currentQuantity && quantityTracker >= 0 && currentUri.Some?
    }

    /**
     * `updateQuantity`, run when the screen pauses: when needed, an update
     * of the quantity column alone, to the product's URI with no selection.
     */
    method UpdateQuantity(store: ProductProvider) returns (r: Outcome<Report>)
      requires store.Valid()
      modifies store
      ensures store.Valid()
      ensures !NeedsUpdate() ==> r == Returns(Skipped) && unchanged(store)
      ensures NeedsUpdate() ==>
        var u := UpdateResult(old(store.table), currentUri.value, map[Quantity := Int(quantityTracker)], AllRows);
        if u.Throws? then r == Throws(u.exception) && unchanged(store)
        else
          && r == Returns(ReportOf(u.value.0))
          && store.table == u.value.1
          && store.notified == old(store.notified) + (if u.value.0 != 0 then [currentUri.value] else [])
    {
      if !(quantityTracker != currentQuantity && quantityTracker >= 0 && currentUri.Some?) {
        return Returns(Skipped);
      }
      var values: ContentValues := map[];
      values := values[Quantity := Int(quantityTracker)];
      var result := store.Update(currentUri.value, values, AllRows);
      match result {
        case Returns(n) => r := Returns(ReportOf(n));
        case Throws(e) => r := Throws(e);
      }
    }

    /** `deleteProduct`: with a URI, a delete with no selection and the report of its count. */
    method DeleteProduct(store: ProductProvider) returns (r: Outcome<Report>)
      requires store.Valid()
      modifies store
      ensures store.Valid()
      ensures currentUri.None? ==> r == Returns(Skipped) && unchanged(store)
      ensures currentUri.Some? ==>
        var d := DeleteResult(old(store.table), currentUri.value, AllRows);
        if d.Throws? then r == Throws(d.exception) && unchanged(store)
        else
          && r == Returns(ReportOf(d.value.0))
          && store.table == d.value.1
          && store.notified == old(store.notified) + (if d.value.0 > 0 then [currentUri.value] else [])
    {
      if currentUri.None? {
        return Returns(Skipped);
      }
      var result := store.Delete(currentUri.value, AllRows);
      match result {
        case Returns(n) => r := Returns(ReportOf(n));
        case Throws(e) => r := Throws(e);
      }
    }
  }

  /** The quantity `updateQuantity` writes always passes the provider's update checks. */
  lemma TrackedQuantityPassesUpdateCheck(tracker: Int32)
    requires tracker >= 0
    ensures UpdateCheck(map[Quantity := Int(tracker)]).None?
  {
    var values := map[Quantity := Int(tracker)];
    assert AsInteger(values, Quantity) == Some(tracker);
  }
}
