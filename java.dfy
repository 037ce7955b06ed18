/**
 * The few pieces of the Java runtime the inventory app leans on: the 32-bit
 * `int`, decimal rendering (`String.valueOf`), decimal parsing
 * (`Integer.parseInt`, `Long.parseLong` on digit strings) and `String.trim`.
 */
module Java {

  const MinInt: int := -0x8000_0000
  const MaxInt: int := 0x7fff_ffff
  /** Long.MAX_VALUE, also the largest SQLite rowid. */
  const MaxLong: int := 0x7fff_ffff_ffff_ffff

  /** Java's `int`. */
  type Int32 = n: int | MinInt <= n <= MaxInt

  datatype Option<+T> = None | Some(value: T)

  // ---------------------------------------------------------------------
  // Decimal digits
  // ---------------------------------------------------------------------

  predicate IsDigit(c: char) { '0' <= c <= '9' }

  predicate AllDigits(s: string) { forall i | 0 <= i < |s| :: IsDigit(s[i]) }

  function DigitValue(c: char): nat
    requires IsDigit(c)
  {
    c as int - '0' as int
  }

  function DigitChar(d: nat): char
    requires d < 10
  {
    (d + '0' as int) as char
  }

  function Pow10(k: nat): nat
  {
    if k == 0 then 1 else 10 * Pow10(k - 1)
  }

  /** The number a string of decimal digits denotes, most significant digit first. */
  function DigitsValue(s: string): nat
    requires AllDigits(s)
  {
    if s == [] then 0 else DigitsValue(s[..|s| - 1]) * 10 + DigitValue(s[|s| - 1])
  }

  /** The shortest decimal spelling of n (no leading zero). */
  function Digits(n: nat): (s: string)
    ensures |s| > 0 && AllDigits(s)
    ensures |s| > 1 ==> s[0] != '0'
    decreases n
  {
    if n < 10 then [DigitChar(n)] else Digits(n / 10) + [DigitChar(n % 10)]
  }

  /** `String.valueOf` of an `int` or a `long`. */
  function DecimalString(n: int): string
  {
    if n < 0 then "-" + Digits(-n) else Digits(n)
  }

  lemma {:induction false} DigitsRoundTrip(n: nat)
    ensures DigitsValue(Digits(n)) == n
    decreases n
  {
    if n >= 10 {
      var s := Digits(n);
      assert s[..|s| - 1] == Digits(n / 10);
      DigitsRoundTrip(n / 10);
    }
  }

  /** k digits denote a number below 10^k. */
  lemma {:induction false} DigitsValueBound(s: string)
    requires AllDigits(s)
    ensures DigitsValue(s) < Pow10(|s|)
    decreases |s|
  {
    if s != [] {
      DigitsValueBound(s[..|s| - 1]);
    }
  }

  /** The decimal spelling of n has at most k digits exactly when n < 10^k. */
  lemma {:induction false} DigitsLength(n: nat, k: nat)
    requires k >= 1
    ensures |Digits(n)| <= k <==> n < Pow10(k)
    decreases n
  {
    if n < 10 {
      Pow10AtLeast10(k);
    } else if k == 1 {
      assert Pow10(1) == 10;
    } else {
      DigitsLength(n / 10, k - 1);
    }
  }

  lemma {:induction false} Pow10AtLeast10(k: nat)
    requires k >= 1
    ensures Pow10(k) >= 10
    decreases k
  {
    if k > 1 {
      Pow10AtLeast10(k - 1);
    }
  }

  // ---------------------------------------------------------------------
  // Integer.parseInt
  // ---------------------------------------------------------------------

  /**
   * `Integer.parseInt(s)`: an optional '+' or '-' followed by at least one
   * digit, denoting a value in the `int` range; None stands for the
   * NumberFormatException thrown otherwise.
   */
  function ParseInt(s: string): (r: Option<Int32>)
    ensures r.Some? <==>
      || (|s| > 0 && AllDigits(s) && DigitsValue(s) <= MaxInt)
      || (|s| > 1 && s[0] == '+' && AllDigits(s[1..]) && DigitsValue(s[1..]) <= MaxInt)
      || (|s| > 1 && s[0] == '-' && AllDigits(s[1..]) && DigitsValue(s[1..]) <= -MinInt)
    ensures r.Some? ==> |s| > 0 && (r.value < 0 ==> s[0] == '-')
    ensures r.Some? && s[0] != '-' && s[0] != '+' ==> AllDigits(s) && r.value == DigitsValue(s)
    ensures r.Some? && s[0] == '+' ==> r.value == DigitsValue(s[1..])
    ensures r.Some? && s[0] == '-' ==> r.value == -(DigitsValue(s[1..]) as int)
  {
    if |s| == 0 then None
    else
      var body := if s[0] == '-' || s[0] == '+' then s[1..] else s;
      if |body| == 0 || !AllDigits(body) then None
      else
        var m: int := if s[0] == '-' then -(DigitsValue(body) as int) else DigitsValue(body);
        if MinInt <= m <= MaxInt then Some(m) else None
  }

  /** Parsing what `String.valueOf` printed gives the number back. */
  lemma ParseIntOfDecimalString(n: Int32)
    ensures ParseInt(DecimalString(n)) == Some(n)
  {
    var d: nat := if n < 0 then -(n as int) else n as int;
    DigitsRoundTrip(d);
    var s := DecimalString(n);
    if n < 0 {
      assert s[1..] == Digits(d);
    }
  }

  /**
   * A text of at most nine characters that parses as an `int` lies in
   * -99,999,999 .. 999,999,999: the nine-character limit of the product
   * forms keeps every accepted price and quantity far from overflow.
   */
  lemma ShortParseBound(s: string)
    requires |s| <= 9 && ParseInt(s).Some?
    ensures -99_999_999 <= ParseInt(s).value <= 999_999_999
  {
    var body := if s[0] == '-' || s[0] == '+' then s[1..] else s;
    DigitsValueBound(body);
    Pow10Monotone(|body|, 9);
    assert Pow10(9) == 1_000_000_000;
    if s[0] == '-' {
      Pow10Monotone(|body|, 8);
      assert Pow10(8) == 100_000_000;
    }
  }

  lemma {:induction false} Pow10Monotone(j: nat, k: nat)
    requires j <= k
    ensures Pow10(j) <= Pow10(k)
    decreases k
  {
    if j < k {
      Pow10Monotone(j, k - 1);
    }
  }

  // ---------------------------------------------------------------------
  // String.length and the (int) cast
  // ---------------------------------------------------------------------

  /** A char that takes one UTF-16 unit (the Basic Multilingual Plane). */
  predicate InBmp(c: char) { c as int <= 0xFFFF }

  /**
   * `String.length()`: the number of UTF-16 units, where a char beyond
   * U+FFFF takes a surrogate pair.
   */
  function Length(s: string): (n: nat)
    ensures |s| <= n <= 2 * |s|
    decreases |s|
  {
    if s == [] then 0 else Length(s[..|s| - 1]) + (if InBmp(s[|s| - 1]) then 1 else 2)
  }

  /** The length Java reports is the number of chars exactly when every char lies in the BMP. */
  lemma {:induction false} LengthOfBmp(s: string)
    ensures Length(s) == |s| <==> forall i | 0 <= i < |s| :: InBmp(s[i])
    decreases |s|
  {
    if s != [] {
      var p := s[..|s| - 1];
      LengthOfBmp(p);
      assert forall i | 0 <= i < |p| :: p[i] == s[i];
    }
  }

  /** Decimal digits are single UTF-16 units, so a digit string's Java length is its char count. */
  lemma DigitsLengthIsJavaLength(s: string)
    requires AllDigits(s)
    ensures Length(s) == |s|
  {
    LengthOfBmp(s);
  }

  /** The `(int)` cast of a `long`: the low 32 bits, read as a signed `int`. */
  function ToInt32(n: int): (r: Int32)
    ensures (r - n) % 0x1_0000_0000 == 0
    ensures MinInt <= n <= MaxInt ==> r == n
  {
    var low := n % 0x1_0000_0000;
    if low > MaxInt then low - 0x1_0000_0000 else low
  }

  // ---------------------------------------------------------------------
  // String.trim
  // ---------------------------------------------------------------------

  /** String.trim removes every char at or below U+0020 from both ends. */
  predicate IsTrimmed(c: char) { c <= ' ' }

  function TrimStart(s: string): (t: string)
    ensures |t| <= |s|
    decreases |s|
  {
    if s != [] && IsTrimmed(s[0]) then TrimStart(s[1..]) else s
  }

  function TrimEnd(s: string): (t: string)
    ensures |t| <= |s|
    decreases |s|
  {
    if s != [] && IsTrimmed(s[|s| - 1]) then TrimEnd(s[..|s| - 1]) else s
  }

  /** `String.trim`. */
  function Trim(s: string): string
  {
    TrimEnd(TrimStart(s))
  }

  /** TrimStart keeps a suffix that starts with a char it does not trim. */
  lemma {:induction false} TrimStartIsSuffix(s: string)
    ensures TrimStart(s) == s[|s| - |TrimStart(s)|..]
    ensures TrimStart(s) == [] || !IsTrimmed(TrimStart(s)[0])
    decreases |s|
  {
    if s != [] && IsTrimmed(s[0]) {
      TrimStartIsSuffix(s[1..]);
    }
  }

  /** TrimEnd keeps a prefix that ends with a char it does not trim. */
  lemma {:induction false} TrimEndIsPrefix(s: string)
    ensures TrimEnd(s) == s[..|TrimEnd(s)|]
    ensures TrimEnd(s) == [] || !IsTrimmed(TrimEnd(s)[|TrimEnd(s)| - 1])
    decreases |s|
  {
    if s != [] && IsTrimmed(s[|s| - 1]) {
      TrimEndIsPrefix(s[..|s| - 1]);
    }
  }

  /** What TrimStart drops is all trimmable. */
  lemma {:induction false} TrimStartDropsSpace(s: string)
    ensures forall i | 0 <= i < |s| - |TrimStart(s)| :: IsTrimmed(s[i])
    decreases |s|
  {
    if s != [] && IsTrimmed(s[0]) {
      TrimStartDropsSpace(s[1..]);
      forall i | 1 <= i < |s| - |TrimStart(s)| ensures IsTrimmed(s[i]) {
        assert s[i] == s[1..][i - 1];
      }
    }
  }

  /** What TrimEnd drops is all trimmable. */
  lemma {:induction false} TrimEndDropsSpace(s: string)
    ensures forall i | |TrimEnd(s)| <= i < |s| :: IsTrimmed(s[i])
    decreases |s|
  {
    if s != [] && IsTrimmed(s[|s| - 1]) {
      TrimEndDropsSpace(s[..|s| - 1]);
      forall i | |TrimEnd(s)| <= i < |s| - 1 ensures IsTrimmed(s[i]) {
        assert s[i] == s[..|s| - 1][i];
      }
    }
  }

  /** The trimmed text is empty exactly when every char of the input is trimmable. */
  lemma TrimEmptyIffBlank(s: string)
    ensures Trim(s) == [] <==> forall i | 0 <= i < |s| :: IsTrimmed(s[i])
  {
    var a := TrimStart(s);
    TrimStartIsSuffix(s);
    TrimEndIsPrefix(a);
    TrimStartDropsSpace(s);
    TrimEndDropsSpace(a);
    if Trim(s) == [] {
      // the first char TrimStart keeps would be trimmed by TrimEnd, so it keeps none
      assert a == [];
    } else {
      assert !IsTrimmed(Trim(s)[0]);
      assert Trim(s)[0] == a[0] == s[|s| - |a|];
    }
  }

  /** A text with nothing for `trim` to remove at either end. */
  predicate NoOuterSpace(s: string)
  {
    s == [] || (!IsTrimmed(s[0]) && !IsTrimmed(s[|s| - 1]))
  }

  lemma TrimLeavesNoOuterSpace(s: string)
    ensures NoOuterSpace(Trim(s))
  {
    var a := TrimStart(s);
    var t := Trim(s);
    TrimStartIsSuffix(s);
    TrimEndIsPrefix(a);
    if t != [] {
      assert t[0] == a[0];
    }
  }

  lemma TrimKeepsNoOuterSpace(s: string)
    requires NoOuterSpace(s)
    ensures Trim(s) == s
  {
    assert TrimStart(s) == s;
  }

  /** Trimming twice is trimming once. */
  lemma TrimIdempotent(s: string)
    ensures Trim(Trim(s)) == Trim(s)
  {
    TrimLeavesNoOuterSpace(s);
    TrimKeepsNoOuterSpace(Trim(s));
  }
}
