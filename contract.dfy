/**
 * The names shared by the provider and its callers: the content authority,
 * the products path, the MIME types, the five data columns, content URIs
 * and the `ContentValues` maps the callers fill.
 */
module Contract {
  import opened Java

  const ContentAuthority: string := "com.example.android.inventoryappr.productprovider"
  /** The path of the products collection, equal to the table name. */
  const PathProducts: string := "products"
  const TableName: string := "products"

  /** MIME type of the products collection (CURSOR_DIR_BASE_TYPE + authority + path). */
  const ContentListType: string := "vnd.android.cursor.dir/" + ContentAuthority + "/" + PathProducts
  /** MIME type of a single product (CURSOR_ITEM_BASE_TYPE + authority + path). */
  const ContentItemType: string := "vnd.android.cursor.item/" + ContentAuthority + "/" + PathProducts

  /** The data columns of the products table; `_id` is assigned by the database. */
  datatype Column = Name | Price | Quantity | SupplierName | SupplierPhone

  const AllColumns: set<Column> := {Name, Price, Quantity, SupplierName, SupplierPhone}

  /** Every column is one of the five. */
  lemma ColumnCases(c: Column)
    ensures c == Name || c == Price || c == Quantity || c == SupplierName || c == SupplierPhone
  {
  }

  /** A content URI as the provider inspects it: authority and path segments. */
  datatype Uri = Uri(authority: string, path: seq<string>)

  /** content://com.example.android.inventoryappr.productprovider/products */
  const ContentUri: Uri := Uri(ContentAuthority, [PathProducts])

  /** `ContentUris.withAppendedId`: appends the decimal id as a last path segment. */
  function WithAppendedId(uri: Uri, id: int): Uri
  {
    Uri(uri.authority, uri.path + [DecimalString(id)])
  }

  /** A value held by `ContentValues`: a string, an `int`, or an explicit null. */
  datatype Value = Text(s: string) | Int(n: Int32) | Null

  /** `ContentValues`: the columns a caller put, each with its value. */
  type ContentValues = map<Column, Value>

  /** `ContentValues.getAsString`: null when the key is absent or holds null. */
  function AsString(values: ContentValues, c: Column): (r: Option<string>)
    ensures r.Some? <==> c in values && values[c] != Null
  {
    if c !in values then None
    else match values[c]
      case Text(s) => Some(s)
      case Int(n) => Some(DecimalString(n))
      case Null => None
  }

  /** How `ContentValues.getAsInteger` reads one value: a string is parsed, null when it does not parse. */
  function IntegerOf(v: Value): Option<Int32>
  {
    match v
    case Int(n) => Some(n)
    case Text(s) => ParseInt(s)
    case Null => None
  }

  /** `ContentValues.getAsInteger`. */
  function AsInteger(values: ContentValues, c: Column): Option<Int32>
  {
    if c in values then IntegerOf(values[c]) else None
  }
}
