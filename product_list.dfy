/**
 * `ProductListFragment`: the list of products, the row click that opens a
 * product, the debug action that seeds dummy products, and delete-all.
 */
module ProductList {
  import opened Java
  import opened Contract
  import opened DbHelper
  import opened Provider

  const DummyName: string := "Long Dummy Product Name Placeholder v.1.36"
  const DummyPrice: Int32 := 199
  const DummySupplierName: string := "Dummy Supplier Name"
  const DummySupplierPhone: string := "+0314159265359"
  /** The seeding loop runs while `i < 100000000`. */
  const SeedLimit: int := 100_000_000

  /** The URI a click on the row with `_id` id selects. */
  function ClickedUri(id: int): Uri
  {
    WithAppendedId(ContentUri, id)
  }

  /** Clicking a row of a valid table opens the item URI whose query yields exactly that row. */
  lemma ClickedRowIsQueried(t: Table, id: nat)
    requires TableValid(t) && id in t.rows
    ensures Classify(ClickedUri(id)) == ProductId(id)
    ensures Target(ClickedUri(id), QueryOp, AllRows).Returns?
    ensures Select(t, Target(ClickedUri(id), QueryOp, AllRows).value) == map[id := t.rows[id]]
  {
    ClassifyAppendedId(id);
    SelectById(t, id);
  }

  /** The values of one dummy product: all five columns, price 199 and the given quantity. */
  function DummyValues(quantity: Int32): (values: ContentValues)
    ensures NotNullOk(values)
    ensures values[Quantity] == Int(quantity)
  {
    var values := map[Name := Text(DummyName), Price := Int(DummyPrice), Quantity := Int(quantity),
                      SupplierName := Text(DummySupplierName), SupplierPhone := Text(DummySupplierPhone)];
    assert NotNullOk(values) by {
      forall c: Column ensures c in values && values[c] != Null {
        ColumnCases(c);
      }
    }
    values
  }

  /** A dummy product with a non-negative quantity passes every insert check. */
  lemma DummyPassesInsertCheck(quantity: Int32)
    requires quantity >= 0
    ensures InsertCheck(DummyValues(quantity)).None?
  {
    var values := DummyValues(quantity);
    assert AsInteger(values, Price) == Some(DummyPrice);
    assert AsInteger(values, Quantity) == Some(quantity);
  }

  function Pow9(k: nat): nat
  {
    if k == 0 then 1 else 9 * Pow9(k - 1)
  }

  /** 9^k stays below the loop's bound exactly for k < 9, and never leaves the `int` range on the way. */
  lemma Pow9Threshold(k: nat)
    requires k <= 9
    ensures Pow9(k) < SeedLimit <==> k < 9
    ensures 1 <= Pow9(k) <= 387_420_489
  {
    if k == 0 {
    } else if k == 1 {
    } else if k == 2 {
    } else if k == 3 {
    } else if k == 4 {
    } else if k == 5 {
    } else if k == 6 {
    } else if k == 7 {
    } else if k == 8 {
      assert Pow9(8) == 43_046_721;
    } else {
      assert Pow9(9) == 387_420_489;
    }
  }

  /** The quantity the loop inserts in round k (counting from 0): 9^k, an `int` for every round that runs. */
  function RoundQuantity(k: nat): (q: Int32)
    requires k < 9
    ensures q == Pow9(k) && q >= 1
  {
    Pow9Threshold(k);
    Pow9(k)
  }

  /** The table after one dummy insert: the new row, or the table unchanged when the database refuses it. */
  function AfterInsert(t: Table, values: ContentValues): Table
  {
    match InsertRow(t, values)
    case Some((_, t')) => t'
    case None => t
  }

  /** The table after the first k rounds of the seeding loop. */
  function Seeded(t: Table, k: nat): Table
    requires k <= 9
  {
    if k == 0 then t
    else AfterInsert(Seeded(t, k - 1), DummyValues(RoundQuantity(k - 1)))
  }

  /** The row of round j, when there was an id left for it, sits at the j-th id after the old sequence. */
  predicate SeededRowAt(s: Table, t: Table, j: nat)
    requires j < 9
  {
    t.sequence + j < MaxRowId ==>
      t.sequence + j + 1 in s.rows && s.rows[t.sequence + j + 1] == RowOf(DummyValues(RoundQuantity(j)))
  }

  /**
   * Seeding keeps every existing row and adds the row of each round under
   * the next id, until the ids run out.
   */
  lemma {:induction false} SeededTable(t: Table, k: nat)
    requires TableValid(t) && k <= 9
    ensures TableValid(Seeded(t, k))
    ensures Seeded(t, k).sequence == if t.sequence + k <= MaxRowId then t.sequence + k else MaxRowId
    ensures forall id | id in t.rows :: id in Seeded(t, k).rows && Seeded(t, k).rows[id] == t.rows[id]
    ensures forall j: nat | j < k :: SeededRowAt(Seeded(t, k), t, j)
  {
    if k != 0 {
      SeededTable(t, k - 1);
      var before := Seeded(t, k - 1);
      var values := DummyValues(RoundQuantity(k - 1));
      var s := Seeded(t, k);
      if before.sequence < MaxRowId {
        InsertedIdIsFresh(before, values);
        assert s == Table(before.rows[before.sequence + 1 := RowOf(values)], before.sequence + 1);
      } else {
        assert s == before;
      }
      forall j: nat | j < k
        ensures SeededRowAt(s, t, j)
      {
        if j < k - 1 {
          assert SeededRowAt(before, t, j);
        } else if t.sequence + j < MaxRowId {
          assert before.sequence == t.sequence + j;
        }
      }
    }
  }

  /** The change notifications of n inserts on the collection URI. */
  function Notices(n: nat): (uris: seq<Uri>)
    ensures |uris| == n && forall j | 0 <= j < n :: uris[j] == ContentUri
  {
    if n == 0 then [] else Notices(n - 1) + [ContentUri]
  }

  /** One round of `insertDummyProduct`'s loop: the dummy values with quantity `i`, inserted on the collection URI. */
  method InsertOneDummy(store: ProductProvider, i: Int32) returns (newProductUri: Option<Uri>)
    requires store.Valid() && i >= 0
    modifies store
    ensures store.Valid()
    ensures store.table == AfterInsert(old(store.table), DummyValues(i))
    ensures newProductUri.Some? <==> old(store.table).sequence < MaxRowId
    ensures store.table.sequence == if newProductUri.Some? then old(store.table).sequence + 1 else old(store.table).sequence
    ensures store.notified == old(store.notified) + if newProductUri.Some? then [ContentUri] else []
  {
    var values: ContentValues := map[];
    values := values[Name := Text(DummyName)];
    values := values[Price := Int(DummyPrice)];
    values := values[Quantity := Int(i)];
    values := values[SupplierName := Text(DummySupplierName)];
    values := values[SupplierPhone := Text(DummySupplierPhone)];
    assert values == DummyValues(i);
    DummyPassesInsertCheck(i);
    var result := store.Insert(ContentUri, values);
    newProductUri := result.value;
  }

  /**
   * `insertDummyProduct`: inserts nine dummy products with quantities
   * 1, 9, 81, ..., 43,046,721; only the last insert's result decides the
   * message, and it succeeds exactly when the table had nine ids left.
   */
  method InsertDummyProducts(store: ProductProvider) returns (succeeded: bool)
    requires store.Valid()
    modifies store
    ensures store.Valid()
    ensures store.table == Seeded(old(store.table), 9)
    ensures succeeded <==> old(store.table).sequence + 9 <= MaxRowId
    ensures old(store.table).sequence <= store.table.sequence
    ensures store.notified == old(store.notified) + Notices(store.table.sequence - old(store.table).sequence)
  {
    ghost var t0 := store.table;
    ghost var n0 := store.notified;
    ghost var k: nat := 0;
    var newProductUri: Option<Uri> := None;
    var i: Int32 := 1;
    while i < SeedLimit
      invariant k <= 9 && i == Pow9(k) && (k < 9 <==> i < SeedLimit)
      invariant store.Valid()
      invariant store.table == Seeded(t0, k)
      invariant store.table.sequence == if t0.sequence + k <= MaxRowId then t0.sequence + k else MaxRowId
      invariant t0.sequence <= store.table.sequence
      invariant store.notified == n0 + Notices(store.table.sequence - t0.sequence)
      invariant k > 0 ==> (newProductUri.Some? <==> t0.sequence + k <= MaxRowId)
      decreases 9 - k
    {
      newProductUri := InsertOneDummy(store, i);
      assert i * 9 == Pow9(k + 1) <= MaxInt && (k + 1 < 9 <==> i * 9 < SeedLimit) by {
        Pow9Threshold(k + 1);
      }
      i := i * 9;
      k := k + 1;
    }
    succeeded := newProductUri.Some?;
  }

  /**
   * `deleteAllProducts`: a delete on the collection URI with no selection
   * empties the table; the success message shows exactly when there was a
   * row to delete.
   */
  method DeleteAllProducts(store: ProductProvider) returns (reportedSuccess: bool)
    requires store.Valid()
    modifies store
    ensures store.Valid()
    ensures store.table == Table(map[], old(store.table).sequence)
    ensures reportedSuccess <==> |old(store.table).rows| != 0
    ensures store.notified == old(store.notified) + (if reportedSuccess then [ContentUri] else [])
  {
    DeleteAll(store.table);
    var result := store.Delete(ContentUri, AllRows);
    var rowsDeleted := result.value;
    reportedSuccess := rowsDeleted != 0;
  }
}
