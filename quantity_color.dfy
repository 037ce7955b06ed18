/**
 * `getQuantityColor`, identical in the details screen and the list rows:
 * the quantity pane's colour is chosen by the length of the quantity text.
 */
module QuantityColor {
  import opened Java

  /** The colour resources of the quantity pane. */
  datatype Color = QuantityTo10 | QuantityTo100 | QuantityTo1k | QuantityTo10k | QuantityTo100k | QuantityTo1m | ColorPrimary

  /** The colour of a quantity text: one bucket per `length()` up to six, the primary colour beyond. */
  function ColorOf(quantityText: string): (r: Color)
    ensures r == QuantityTo10 <==> Length(quantityText) <= 1
    ensures r == ColorPrimary <==> Length(quantityText) > 6
  {
    match Length(quantityText)
    case 0 => QuantityTo10
    case 1 => QuantityTo10
    case 2 => QuantityTo100
    case 3 => QuantityTo1k
    case 4 => QuantityTo10k
    case 5 => QuantityTo100k
    case 6 => QuantityTo1m
    case _ => ColorPrimary
  }

  /** The bucket of a non-negative quantity by its value: below 10, 100, 1k, 10k, 100k, 1m, or more. */
  function ColorByValue(n: nat): Color
  {
    if n < 10 then QuantityTo10
    else if n < 100 then QuantityTo100
    else if n < 1_000 then QuantityTo1k
    else if n < 10_000 then QuantityTo10k
    else if n < 100_000 then QuantityTo100k
    else if n < 1_000_000 then QuantityTo1m
    else ColorPrimary
  }

  /** For the text `String.valueOf` prints, the length buckets are the value buckets. */
  lemma ColorOfQuantity(n: nat)
    ensures ColorOf(DecimalString(n)) == ColorByValue(n)
  {
    DigitsLengthIsJavaLength(DecimalString(n));
    DigitsLength(n, 1);
    DigitsLength(n, 2);
    DigitsLength(n, 3);
    DigitsLength(n, 4);
    DigitsLength(n, 5);
    DigitsLength(n, 6);
    assert Pow10(1) == 10 && Pow10(2) == 100 && Pow10(3) == 1_000;
    assert Pow10(4) == 10_000 && Pow10(5) == 100_000 && Pow10(6) == 1_000_000;
  }
}
