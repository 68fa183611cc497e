/** Minor units: parsing without floating point, and decimal printing. */
module Money {
  import opened Prelude

  /** PostgreSQL BIGINT's largest value. */
  const MAX_BIGINT := 9223372036854775807
  const MAX_SAFE_INTEGER := 9007199254740991

  /** What an API client may send: text, a JavaScript number that may not be an integer, or a bigint. */
  datatype Amount = Decimal(text: string) | Integer(number: int) | OtherNumber | Big(value: int)

  predicate IsDigit(c: char) {
    '0' <= c <= '9'
  }

  predicate IsDigits(s: string) {
    |s| > 0 && forall c | c in s :: IsDigit(c)
  }

  function ToDecimal(n: nat): string {
    var last := ['0' as int as char + (n % 10) as char];
    if n < 10 then last else ToDecimal(n / 10) + last
  }

  function FromDecimal(s: string): nat
    requires forall c | c in s :: IsDigit(c)
  {
    if s == [] then 0
    else
      assert IsDigit(s[|s| - 1]);
      assert forall c | c in s[..|s| - 1] :: c in s;
      10 * FromDecimal(s[..|s| - 1]) + (s[|s| - 1] as int - '0' as int)
  }

  function ParseMinorUnits(value: Amount): Result<int, Error> {
    match value
    case Big(n) => if n < 0 || n > MAX_BIGINT then Failure(BadRequest) else Success(n)
    case Integer(n) =>
      if n < 0 || n > MAX_SAFE_INTEGER then Failure(BadRequest) else ParseText(ToDecimal(n))
    case OtherNumber => Failure(BadRequest)
    case Decimal(s) => ParseText(s)
  }

  function ParseText(s: string): Result<int, Error> {
    if !IsDigits(s) then Failure(BadRequest)
    else if FromDecimal(s) > MAX_BIGINT then Failure(BadRequest)
    else Success(FromDecimal(s))
  }

  function ParsePositiveMinorUnits(value: Amount): Result<int, Error> {
    var parsed :- ParseMinorUnits(value);
    if parsed == 0 then Failure(BadRequest) else Success(parsed)
  }

  function MinorUnitsToString(value: Amount): Result<string, Error> {
    var parsed :- ParseMinorUnits(value);
    if parsed < 0 then Failure(BadRequest) else Success(ToDecimal(parsed))
  }

  /** A decimal numeral as the printer writes it. */
  predicate IsCanonicalNumeral(s: string) {
    IsDigits(s) && (|s| > 1 ==> s[0] != '0')
  }

  lemma {:induction false} ToDecimalIsNumeral(n: nat)
    ensures IsCanonicalNumeral(ToDecimal(n))
    ensures n > 0 ==> ToDecimal(n)[0] != '0'
  {
    if n >= 10 { ToDecimalIsNumeral(n / 10); }
  }

  lemma {:induction false} FromToDecimal(n: nat)
    ensures IsDigits(ToDecimal(n)) && FromDecimal(ToDecimal(n)) == n
  {
    ToDecimalIsNumeral(n);
    if n >= 10 {
      FromToDecimal(n / 10);
      assert ToDecimal(n)[..|ToDecimal(n)| - 1] == ToDecimal(n / 10);
    } else {
      assert ToDecimal(n)[..0] == [];
    }
  }

  lemma {:induction false} ToFromDecimal(s: string)
    requires IsCanonicalNumeral(s)
    ensures ToDecimal(FromDecimal(s)) == s
  {
    var front, last := s[..|s| - 1], s[|s| - 1];
    assert s == front + [last];
    assert last in s;
    if front == [] {
      assert FromDecimal(front) == 0;
      OneDigit(last);
    } else {
      assert forall c | c in front :: c in s;
      assert front[0] == s[0];
      ToFromDecimal(front);
      LeadingDigit(front);
      OneMoreDigit(FromDecimal(front), last);
    }
  }

  lemma OneDigit(digit: char)
    requires IsDigit(digit)
    ensures ToDecimal(digit as int - '0' as int) == [digit]
  {
  }

  lemma OneMoreDigit(n: nat, digit: char)
    requires n > 0 && IsDigit(digit)
    ensures ToDecimal(10 * n + (digit as int - '0' as int)) == ToDecimal(n) + [digit]
  {
    var m, d := 10 * n + (digit as int - '0' as int), digit as int - '0' as int;
    assert m / 10 == n && m % 10 == d;
  }

  lemma {:induction false} LeadingDigit(s: string)
    requires IsDigits(s) && s[0] != '0'
    ensures FromDecimal(s) > 0
  {
    if |s| > 1 {
      var front := s[..|s| - 1];
      assert forall c | c in front :: c in s;
      LeadingDigit(front);
      assert IsDigit(s[|s| - 1]);
    } else {
      assert s[0] in s;
    }
  }

  /** Print then parse gives every BIGINT back; parse then print gives every numeral without leading zeros back. */
  lemma DecimalRoundTrip(n: nat, s: string)
    ensures ParseMinorUnits(Decimal(ToDecimal(n))) == if n <= MAX_BIGINT then Success(n) else Failure(BadRequest)
    ensures ParseMinorUnits(Decimal(s)).Success? ==>
      (MinorUnitsToString(Decimal(s)) == Success(s) <==> IsCanonicalNumeral(s))
  {
    FromToDecimal(n);
    if IsDigits(s) {
      ToDecimalIsNumeral(FromDecimal(s));
      if IsCanonicalNumeral(s) { ToFromDecimal(s); }
    }
  }

  /** A JavaScript number, its decimal text and the bigint of the same value are the same amount. */
  lemma SpellingsAgree(n: int)
    requires n <= MAX_SAFE_INTEGER
    ensures ParseMinorUnits(Integer(n)) == ParseMinorUnits(Big(n))
    ensures n >= 0 ==> ParseMinorUnits(Decimal(ToDecimal(n))) == ParseMinorUnits(Big(n))
  {
    if n >= 0 { FromToDecimal(n); }
  }

  lemma {:induction false} ToDecimalInjective(m: nat, n: nat)
    requires ToDecimal(m) == ToDecimal(n)
    ensures m == n
  {
    FromToDecimal(m);
    FromToDecimal(n);
  }

  // ------------------------------------------------------------------------------------------ the decimal system

  function PowerOfTen(n: nat): nat {
    if n == 0 then 1 else 10 * PowerOfTen(n - 1)
  }

  /** The value of a numeral, each digit by its place. */
  function PlaceValue(s: string): int {
    if s == [] then 0 else (s[0] as int - '0' as int) * PowerOfTen(|s| - 1) + PlaceValue(s[1..])
  }

  lemma {:induction false} PlaceValueAppend(s: string, last: char)
    ensures PlaceValue(s + [last]) == 10 * PlaceValue(s) + (last as int - '0' as int)
  {
    if s == [] {
      assert s + [last] == [last] && [last][1..] == [];
      assert PlaceValue([last]) == (last as int - '0' as int) * PowerOfTen(0);
    } else {
      assert (s + [last])[1..] == s[1..] + [last];
      PlaceValueAppend(s[1..], last);
      TenTimes(s[0] as int - '0' as int, PowerOfTen(|s| - 1));
    }
  }

  lemma TenTimes(digit: int, power: int)
    ensures digit * (10 * power) == 10 * (digit * power)
  {
  }

  lemma {:induction false} FromDecimalIsPlaceValue(s: string)
    requires forall c | c in s :: IsDigit(c)
    ensures FromDecimal(s) == PlaceValue(s)
  {
    if s != [] {
      var front, last := s[..|s| - 1], s[|s| - 1];
      assert s == front + [last] && forall c | c in front :: c in s;
      FromDecimalIsPlaceValue(front);
      PlaceValueAppend(front, last);
    }
  }

  /** What was sent stands for this number: a bigint, a safe integer, or a text of decimal digits. */
  predicate Denotes(value: Amount, n: int) {
    match value
    case Big(m) => m == n
    case Integer(m) => m == n <= MAX_SAFE_INTEGER
    case OtherNumber => false
    case Decimal(s) => IsDigits(s) && PlaceValue(s) == n
  }

  /** Accepted is exactly what stands for a number from 0 to the largest BIGINT, as that number. */
  lemma ParsesExactly(value: Amount, n: int)
    ensures ParseMinorUnits(value) == Success(n) <==> Denotes(value, n) && 0 <= n <= MAX_BIGINT
    ensures ParsePositiveMinorUnits(value) == Success(n) <==> Denotes(value, n) && 0 < n <= MAX_BIGINT
    ensures ParsePositiveMinorUnits(value).Failure? ==> ParsePositiveMinorUnits(value).error == BadRequest
  {
    match value
    case Decimal(s) => if IsDigits(s) { FromDecimalIsPlaceValue(s); }
    case Integer(m) => if m >= 0 { FromToDecimal(m); }
    case _ =>
  }
}
