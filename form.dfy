/**
 * The save checks the add and edit forms share: each field is trimmed, no
 * field may be blank, and price and quantity must be at most nine
 * characters naming a non-negative `int`.
 */
module ProductForm {
  import opened Java

  /** The five text fields of a product form, as typed. */
  datatype Fields = Fields(name: string, price: string, quantity: string, supplierName: string, supplierPhone: string)

  /** The outcome of the checks: the toast the user sees, the parseInt crash, or the accepted values. */
  datatype Verdict =
    | BlankFields
    | InvalidPrice
    | InvalidQuantity
    | NotANumber   // Integer.parseInt threw NumberFormatException, which no one catches
    | Accepted(name: string, price: Int32, quantity: Int32, supplierName: string, supplierPhone: string)

  /** Some field is empty once trimmed. */
  predicate AnyBlank(f: Fields)
  {
    || Trim(f.name) == []
    || Trim(f.price) == []
    || Trim(f.quantity) == []
    || Trim(f.supplierName) == []
    || Trim(f.supplierPhone) == []
  }

  /**
   * A price or quantity text the form takes: at most nine characters as
   * `length()` counts them (UTF-16 units) that parse as a non-negative `int`.
   */
  predicate ValidAmount(s: string)
  {
    Length(s) <= 9 && ParseInt(s).Some? && ParseInt(s).value >= 0
  }

  /** Whether the amount check of a text fails without a crash: too long, or negative. */
  predicate RefusedAmount(s: string)
  {
    Length(s) > 9 || (ParseInt(s).Some? && ParseInt(s).value < 0)
  }

  /**
   * The checks of `insertProduct` and `updateProduct`, first failure wins:
   * blanks, then the price's length, parse and sign, then the quantity's.
   * Accepted values are the trimmed texts and two numbers in
   * 0 .. 999,999,999.
   */
  function Check(f: Fields): (r: Verdict)
    ensures r.Accepted? <==> !AnyBlank(f) && ValidAmount(Trim(f.price)) && ValidAmount(Trim(f.quantity))
    ensures r.Accepted? ==>
      && r.name == Trim(f.name) && r.supplierName == Trim(f.supplierName) && r.supplierPhone == Trim(f.supplierPhone)
      && ParseInt(Trim(f.price)) == Some(r.price) && ParseInt(Trim(f.quantity)) == Some(r.quantity)
      && r.name != [] && r.supplierName != [] && r.supplierPhone != []
      && 0 <= r.price <= 999_999_999 && 0 <= r.quantity <= 999_999_999
    ensures r == BlankFields <==> AnyBlank(f)
    ensures r == InvalidPrice <==> !AnyBlank(f) && RefusedAmount(Trim(f.price))
    ensures r == InvalidQuantity <==> !AnyBlank(f) && ValidAmount(Trim(f.price)) && RefusedAmount(Trim(f.quantity))
    ensures r == NotANumber <==>
      && !AnyBlank(f)
      && ((Length(Trim(f.price)) <= 9 && ParseInt(Trim(f.price)).None?)
          || (ValidAmount(Trim(f.price)) && Length(Trim(f.quantity)) <= 9 && ParseInt(Trim(f.quantity)).None?))
  {
    var name := Trim(f.name);
    var price := Trim(f.price);
    var quantity := Trim(f.quantity);
    var supplierName := Trim(f.supplierName);
    var supplierPhone := Trim(f.supplierPhone);
    if name == [] || price == [] || quantity == [] || supplierName == [] || supplierPhone == [] then BlankFields
    else if Length(price) > 9 then InvalidPrice
    else match ParseInt(price)
      case None => NotANumber
      case Some(p) =>
        if p < 0 then InvalidPrice
        else if Length(quantity) > 9 then InvalidQuantity
        else match ParseInt(quantity)
          case None => NotANumber
          case Some(q) =>
            if q < 0 then InvalidQuantity
            else
              ShortParseBound(price);
              ShortParseBound(quantity);
              Accepted(name, p, q, supplierName, supplierPhone)
  }

  /** Retyping the accepted values into the form (as the edit form shows them) is accepted again with the same values. */
  lemma CheckAcceptsItsOwnValues(f: Fields)
    requires Check(f).Accepted?
    ensures var v := Check(f);
      Check(Fields(v.name, DecimalString(v.price), DecimalString(v.quantity), v.supplierName, v.supplierPhone)) == v
  {
    TrimLeavesNoOuterSpace(f.name);
    TrimLeavesNoOuterSpace(f.supplierName);
    TrimLeavesNoOuterSpace(f.supplierPhone);
    RetypedIsAccepted(Check(f));
  }

  lemma RetypedIsAccepted(v: Verdict)
    requires v.Accepted? && 0 <= v.price <= 999_999_999 && 0 <= v.quantity <= 999_999_999
    requires v.name != [] && v.supplierName != [] && v.supplierPhone != []
    requires NoOuterSpace(v.name) && NoOuterSpace(v.supplierName) && NoOuterSpace(v.supplierPhone)
    ensures Check(Fields(v.name, DecimalString(v.price), DecimalString(v.quantity), v.supplierName, v.supplierPhone)) == v
  {
    TrimKeepsNoOuterSpace(v.name);
    TrimKeepsNoOuterSpace(v.supplierName);
    TrimKeepsNoOuterSpace(v.supplierPhone);
    AmountRoundTrip(v.price);
    AmountRoundTrip(v.quantity);
    CheckOfValid(Fields(v.name, DecimalString(v.price), DecimalString(v.quantity), v.supplierName, v.supplierPhone));
  }

  /** Fields that pass every check are accepted with their trimmed texts and parsed amounts. */
  lemma CheckOfValid(g: Fields)
    requires !AnyBlank(g) && ValidAmount(Trim(g.price)) && ValidAmount(Trim(g.quantity))
    ensures Check(g) == Accepted(Trim(g.name), ParseInt(Trim(g.price)).value, ParseInt(Trim(g.quantity)).value,
                                 Trim(g.supplierName), Trim(g.supplierPhone))
  {
  }

  /** An amount the form accepted, printed back with `String.valueOf`, is a valid amount again. */
  lemma AmountRoundTrip(n: Int32)
    requires 0 <= n <= 999_999_999
    ensures Trim(DecimalString(n)) == DecimalString(n)
    ensures ValidAmount(DecimalString(n)) && ParseInt(DecimalString(n)) == Some(n)
  {
    ParseIntOfDecimalString(n);
    DigitsLength(n, 9);
    DigitsLengthIsJavaLength(DecimalString(n));
    assert Pow10(9) == 1_000_000_000;
    var s := DecimalString(n);
    assert !IsTrimmed(s[0]) && !IsTrimmed(s[|s| - 1]);
    TrimKeepsNoOuterSpace(s);
  }
}
