/** Amounts as bKash writes them: minor units printed as decimal taka, parsed back, and matched to an order. */
module BkashMoney {
  import opened Prelude
  import opened Text
  import opened Decimals

  const MAX_INT64 := 0x7FFF_FFFF_FFFF_FFFF
  const MIN_INT64 := -0x8000_0000_0000_0000

  predicate IsInt64(n: int) { MIN_INT64 <= n <= MAX_INT64 }

  /** 10^17: fifteen digits of taka and two of poisha. */
  const LIMIT := 100_000_000_000_000_000

  const MAX_WHOLE_DIGITS := 15

  datatype BadAmount = BadAmount

  // ---- Printing ----

  /** Go's int64 negation: the smallest value is its own negative. */
  function Negate(n: int): int
    requires IsInt64(n)
  {
    if n == MIN_INT64 then n else -n
  }

  /** Go's `/` and `%`: toward zero, the remainder with the sign of the dividend. */
  function Quotient(n: int): int {
    if n >= 0 then n / 100 else -(-n / 100)
  }

  function Remainder(n: int): int {
    if n >= 0 then n % 100 else -(-n % 100)
  }

  /** fmt's %d. */
  function Print(n: int): string {
    if n < 0 then "-" + Decimal(-n) else Decimal(n)
  }

  /** fmt's %02d: padded to two characters, the sign included. */
  function PrintTwo(n: int): string {
    if |Print(n)| < 2 then "0" + Print(n) else Print(n)
  }

  function Major(minor: int): string
    requires IsInt64(minor)
  {
    if minor < 0 then "-" + Print(Quotient(Negate(minor))) + "." + PrintTwo(Remainder(Negate(minor)))
    else Print(Quotient(minor)) + "." + PrintTwo(Remainder(minor))
  }

  // ---- Parsing ----

  /** strings.Cut(text, "."): what stands before and after the first point. */
  function Cut(text: string): (r: (string, string))
    ensures (r.0 == text && r.1 == "") || r.0 + "." + r.1 == text
    ensures '.' !in r.0
  {
    if text == "" then ("", "")
    else if text[0] == '.' then
      assert "" + "." + text[1..] == text;
      ("", text[1..])
    else
      var rest := Cut(text[1..]);
      assert text == [text[0]] + text[1..];
      ([text[0]] + rest.0, rest.1)
  }

  /** Digits, at most fifteen, and then at most two more after a point. */
  predicate AreParts(whole: string, frac: string) {
    && whole != "" && AllDigits(whole) && |whole| <= MAX_WHOLE_DIGITS
    && AllDigits(frac) && |frac| <= 2
  }

  predicate IsAmount(text: string) {
    AreParts(Cut(text).0, Cut(text).1)
  }

  /** The number a decimal numeral stands for. */
  function Denoted(text: string): real
    requires AllDigits(Cut(text).0) && AllDigits(Cut(text).1)
  {
    var (whole, frac) := Cut(text);
    Value(whole) as real + Value(frac) as real / Pow10(|frac|) as real
  }

  function FromParts(whole: string, frac: string): Result<nat, BadAmount> {
    if AreParts(whole, frac) then Ok(Value(whole) * 100 + Value(frac) * Pow10(2 - |frac|)) else Err(BadAmount)
  }

  function Minor(amount: string): Result<nat, BadAmount> {
    var (whole, frac) := Cut(TrimSpace(amount));
    FromParts(whole, frac)
  }

  /** strconv.ParseInt(text, 10, 64) on a string of digits. */
  function ParseInt(digits: string): Result<nat, BadAmount>
    requires AllDigits(digits)
  {
    if digits == "" || Value(digits) > MAX_INT64 then Err(BadAmount) else Ok(Value(digits))
  }

  method Digits(text: string) returns (ok: bool)
    ensures ok <==> text != "" && AllDigits(text)
  {
    if text == "" {
      return false;
    }
    for i := 0 to |text|
      invariant AllDigits(text[..i])
    {
      if !IsDigit(text[i]) {
        return false;
      }
      assert text[..i + 1] == text[..i] + [text[i]];
    }
    assert text[..|text|] == text;
    return true;
  }

  /** Both numbers and their sum stay within int64. */
  method ParseMinor(amount: string) returns (r: Result<nat, BadAmount>)
    ensures r == Minor(amount)
    ensures r.Ok? ==> r.value < LIMIT <= MAX_INT64
  {
    var text := TrimSpace(amount);
    if text == "" {
      return Err(BadAmount);
    }
    var (whole, given) := Cut(text);
    var frac := given;
    if |frac| > 2 {
      return Err(BadAmount);
    }
    while |frac| < 2
      invariant |given| <= |frac| <= 2
      invariant AllDigits(frac) <==> AllDigits(given)
      invariant AllDigits(given) ==> Value(frac) == Value(given) * Pow10(|frac| - |given|)
    {
      ghost var before := frac;
      frac := frac + "0";
      assert frac[..|frac| - 1] == before && forall i :: 0 <= i < |before| ==> frac[i] == before[i];
    }
    var wholeOk := Digits(whole);
    var fracOk := Digits(frac);
    if !wholeOk || !fracOk || |whole| > MAX_WHOLE_DIGITS {
      return Err(BadAmount);
    }
    ValueFits(whole);
    ValueFits(frac);
    PowersRead();
    PowGrows(|whole|, 15);
    var taka := ParseInt(whole);
    if taka.Err? {
      return taka;
    }
    var poisha := ParseInt(frac);
    if poisha.Err? {
      return poisha;
    }
    return Ok(taka.value * 100 + poisha.value);
  }

  // ---- What parsing means ----

  /** An accepted string denotes exactly the returned number of hundredths. */
  lemma AcceptedAmountIsExact(amount: string)
    requires Minor(amount).Ok?
    ensures IsAmount(TrimSpace(amount)) && Minor(amount).value as real == 100.0 * Denoted(TrimSpace(amount))
  {
    PowersRead();
    var (whole, frac) := Cut(TrimSpace(amount));
    assert Minor(amount).value == Value(whole) * 100 + Value(frac) * Pow10(2 - |frac|);
    assert |frac| == 0 || |frac| == 1 || |frac| == 2;
  }

  // ---- The round trip ----

  lemma TrimKeepsTight(s: string)
    requires s != "" && !IsSpace(s[0]) && !IsSpace(s[|s| - 1])
    ensures TrimSpace(s) == s
  {
  }

  lemma {:induction false} CutAtFirstPoint(whole: string, frac: string)
    requires '.' !in whole
    ensures Cut(whole + "." + frac) == (whole, frac)
  {
    var text := whole + "." + frac;
    if whole == "" {
      assert text[0] == '.' && text[1..] == frac;
    } else {
      assert text[1..] == whole[1..] + "." + frac;
      assert whole == [whole[0]] + whole[1..];
      CutAtFirstPoint(whole[1..], frac);
    }
  }

  lemma PrintTwoReads(n: nat)
    requires n < 100
    ensures AllDigits(PrintTwo(n)) && |PrintTwo(n)| == 2 && Value(PrintTwo(n)) == n
  {
    DecimalReads(n);
    DecimalLength(n, 1);
    DecimalLength(n, 2);
    PowersRead();
    if n < 10 {
      var s := "0" + Decimal(n);
      assert s[..1] == "0" && "0"[..0] == "";
      assert Value(s[..1]) == 0;
      assert Decimal(n)[..0] == "";
    }
  }

  lemma PrintedIsTight(whole: string, frac: string)
    requires whole != "" && AllDigits(whole) && AllDigits(frac) && frac != ""
    ensures TrimSpace(whole + "." + frac) == whole + "." + frac
    ensures Cut(whole + "." + frac) == (whole, frac)
  {
    var text := whole + "." + frac;
    assert text[0] == whole[0] && text[|text| - 1] == frac[|frac| - 1];
    TrimKeepsTight(text);
    assert '.' !in whole;
    CutAtFirstPoint(whole, frac);
  }

  lemma FromTwoDecimals(whole: string, frac: string)
    requires whole != "" && AllDigits(whole) && AllDigits(frac) && |frac| == 2
    ensures FromParts(whole, frac) ==
            if |whole| <= MAX_WHOLE_DIGITS then Ok(Value(whole) * 100 + Value(frac)) else Err(BadAmount)
  {
    assert Pow10(0) == 1;
  }

  lemma SignedIsRefused(whole: string, frac: string)
    requires frac != "" && !IsSpace(frac[|frac| - 1]) && '.' !in whole
    ensures Minor("-" + whole + "." + frac) == Err(BadAmount)
  {
    var text := "-" + whole + "." + frac;
    assert text == ("-" + whole) + "." + frac;
    assert text[0] == '-' && text[|text| - 1] == frac[|frac| - 1];
    TrimKeepsTight(text);
    CutAtFirstPoint("-" + whole, frac);
    assert !IsDigit(("-" + whole)[0]);
  }

  lemma WholeDigits(m: nat)
    ensures Value(Decimal(m / 100)) * 100 + m % 100 == m
    ensures |Decimal(m / 100)| <= MAX_WHOLE_DIGITS <==> m < LIMIT
  {
    DecimalReads(m / 100);
    DecimalLength(m / 100, MAX_WHOLE_DIGITS);
    PowersRead();
  }

  lemma PositiveRoundTrip(m: nat)
    requires IsInt64(m)
    ensures Minor(Major(m)) == if m < LIMIT then Ok(m) else Err(BadAmount)
  {
    var whole, frac := Decimal(m / 100), PrintTwo(m % 100);
    PrintTwoReads(m % 100);
    PrintedIsTight(whole, frac);
    FromTwoDecimals(whole, frac);
    assert Minor(Major(m)) == FromParts(whole, frac);
    WholeDigits(m);
  }

  /** Both signs of the smallest amount's poisha are printed, and the string is refused like any negative one. */
  lemma NegativeIsRefused(m: int)
    requires IsInt64(m) && m < 0
    ensures Minor(Major(m)) == Err(BadAmount)
  {
    var n := Negate(m);
    var frac := PrintTwo(Remainder(n));
    if m == MIN_INT64 {
      assert Remainder(n) == -8 && Decimal(8) == [Digit(8)];
      assert Print(-8) == ['-', Digit(8)];
    } else {
      PrintTwoReads(Remainder(n));
    }
    SignedIsRefused(Print(Quotient(n)), frac);
  }

  /** Printing and parsing come back to the same amount exactly below 10^17, and are refused everywhere else. */
  lemma RoundTrip(m: int)
    requires IsInt64(m)
    ensures Minor(Major(m)) == if 0 <= m < LIMIT then Ok(m) else Err(BadAmount)
  {
    if m < 0 {
      NegativeIsRefused(m);
    } else {
      PositiveRoundTrip(m);
    }
  }

  // ---- Settlement ----

  datatype Payment = Payment(invoice: string, amount: string, trxId: string)

  method Matches(orderId: string, price: int, paid: Payment) returns (ok: bool)
    ensures ok <==>
      && paid.invoice == orderId && paid.trxId != ""
      && IsAmount(TrimSpace(paid.amount)) && 100.0 * Denoted(TrimSpace(paid.amount)) == price as real
  {
    if paid.invoice != orderId {
      return false;
    }
    var minor := ParseMinor(paid.amount);
    if minor.Err? {
      return false;
    }
    AcceptedAmountIsExact(paid.amount);
    if minor.value != price {
      assert minor.value as real != price as real;
      return false;
    }
    return paid.trxId != "";
  }

  /** An amount owed is printed as the same amount with a minus sign, but for the one int64 that has no negative. */
  lemma NegativesCarryASign(n: int)
    requires MIN_INT64 < n < 0
    ensures Major(n) == "-" + Major(-n)
  {
    assert "-" + (Print(Quotient(-n)) + "." + PrintTwo(Remainder(-n))) ==
           "-" + Print(Quotient(-n)) + "." + PrintTwo(Remainder(-n));
  }

  /** Always two places after the point. */
  lemma TwoPlaces(n: int)
    requires 0 <= n <= MAX_INT64
    ensures |Major(n)| >= 4 && Major(n)[|Major(n)| - 3] == '.'
    ensures IsDigit(Major(n)[|Major(n)| - 2]) && IsDigit(Major(n)[|Major(n)| - 1])
  {
    var whole, frac := Print(Quotient(n)), PrintTwo(Remainder(n));
    DecimalLength(Remainder(n), 2);
    assert Pow10(2) == 100 by { PowersRead(); }
    assert |frac| == 2;
    assert Major(n) == whole + "." + frac;
  }
}
