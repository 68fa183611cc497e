/** The fee engine: a percentage in basis points, a flat part, two clamps, VAT and the BIGINT bound. */
module Fee {
  import opened Prelude
  import opened Money

  const BASIS_POINTS := 10_000

  datatype Rule = Rule(flat: Amount, bps: Amount, minimum: Option<Amount>, maximum: Option<Amount>, vatBps: Amount)

  /** A rule whose fields have been parsed. */
  datatype Terms = Terms(flat: int, bps: int, minimum: int, maximum: Option<int>, vatBps: int)

  datatype Calculation = Calculation(amount: int, fee: int, vat: int, total: int)

  function ParseRule(rule: Rule): Result<Terms, Error> {
    var flat :- ParseMinorUnits(rule.flat);
    var bps :- ParseMinorUnits(rule.bps);
    var minimum :- if rule.minimum.None? then Success(0) else ParseMinorUnits(rule.minimum.value);
    var maximum :- if rule.maximum.None? then Success(None) else
      var parsed :- ParseMinorUnits(rule.maximum.value); Success(Some(parsed));
    var vatBps :- ParseMinorUnits(rule.vatBps);
    if maximum.Some? && maximum.value < minimum then Failure(BadRequest)
    else Success(Terms(flat, bps, minimum, maximum, vatBps))
  }

  function Percentage(amount: int, bps: int): int {
    amount * bps / BASIS_POINTS
  }

  /** The fee with both clamps, the lower one first. */
  function FeeFor(amount: int, terms: Terms): int {
    var raw := terms.flat + Percentage(amount, terms.bps);
    var raised := if raw < terms.minimum then terms.minimum else raw;
    if terms.maximum.Some? && raised > terms.maximum.value then terms.maximum.value else raised
  }

  function Charge(amount: int, terms: Terms): Calculation {
    var fee := FeeFor(amount, terms);
    var vat := Percentage(fee, terms.vatBps);
    Calculation(amount, fee, vat, amount + fee + vat)
  }

  function Calculate(input: Amount, rule: Rule): Result<Calculation, Error> {
    var amount :- ParsePositiveMinorUnits(input);
    var terms :- ParseRule(rule);
    var charge := Charge(amount, terms);
    if charge.total > MAX_BIGINT then Failure(BadRequest) else Success(charge)
  }

  lemma ParsedAmount(value: Amount)
    ensures ParseMinorUnits(value).Success? ==> 0 <= ParseMinorUnits(value).value <= MAX_BIGINT
  {
    if value.Integer? && value.number >= 0 { FromToDecimal(value.number); }
  }

  predicate Sound(terms: Terms) {
    terms.flat >= 0 && terms.bps >= 0 && terms.minimum >= 0 && terms.vatBps >= 0
    && (terms.maximum.Some? ==> terms.minimum <= terms.maximum.value)
  }

  lemma ParsedRuleIsSound(rule: Rule)
    ensures ParseRule(rule).Success? ==> Sound(ParseRule(rule).value)
  {
    ParsedAmount(rule.flat);
    ParsedAmount(rule.bps);
    ParsedAmount(rule.vatBps);
    if rule.minimum.Some? { ParsedAmount(rule.minimum.value); }
  }

  lemma ProductMonotone(a: int, b: int, rate: int)
    requires a <= b && 0 <= rate
    ensures a * rate <= b * rate
  {
  }

  lemma PercentageMonotone(a: int, b: int, rate: int)
    requires a <= b && 0 <= rate
    ensures Percentage(a, rate) <= Percentage(b, rate)
    ensures a >= 0 ==> Percentage(a, rate) >= 0
  {
    ProductMonotone(a, b, rate);
    if a >= 0 { ProductMonotone(0, a, rate); }
  }

  /** The fee stays between its bounds; with no maximum it is only bounded below. */
  lemma FeeWithinBounds(amount: int, terms: Terms)
    requires Sound(terms)
    ensures terms.minimum <= FeeFor(amount, terms)
    ensures terms.maximum.Some? ==> FeeFor(amount, terms) <= terms.maximum.value
    ensures terms.minimum < FeeFor(amount, terms) && (terms.maximum.Some? ==> FeeFor(amount, terms) < terms.maximum.value)
      ==> FeeFor(amount, terms) == terms.flat + Percentage(amount, terms.bps)
  {
  }

  /** Through two floors and two clamps, fee and VAT are monotone and the total strictly increases. */
  lemma ChargeMonotone(a: int, b: int, terms: Terms)
    requires Sound(terms) && a < b
    ensures Charge(a, terms).fee <= Charge(b, terms).fee
    ensures Charge(a, terms).vat <= Charge(b, terms).vat
    ensures Charge(a, terms).total < Charge(b, terms).total
  {
    PercentageMonotone(a, b, terms.bps);
    PercentageMonotone(FeeFor(a, terms), FeeFor(b, terms), terms.vatBps);
  }

  /** Whatever amount is accepted, every smaller positive amount is accepted under the same rule and costs less. */
  lemma AcceptedAmountsAreDownwardClosed(a: Amount, b: Amount, rule: Rule)
    requires ParsePositiveMinorUnits(a).Success? && Calculate(b, rule).Success?
    requires ParsePositiveMinorUnits(a).value < ParsePositiveMinorUnits(b).value
    ensures Calculate(a, rule).Success? && Calculate(a, rule).value.total < Calculate(b, rule).value.total
  {
    ParsedRuleIsSound(rule);
    ChargeMonotone(ParsePositiveMinorUnits(a).value, ParsePositiveMinorUnits(b).value, ParseRule(rule).value);
  }

  /** Every figure of an accepted calculation is a BIGINT, so all of them print and parse back. */
  lemma AcceptedFiguresFit(input: Amount, rule: Rule)
    requires Calculate(input, rule).Success?
    ensures var c := Calculate(input, rule).value;
      0 < c.amount && 0 <= c.fee && 0 <= c.vat && c.total == c.amount + c.fee + c.vat <= MAX_BIGINT
  {
    ParsedRuleIsSound(rule);
    var terms := ParseRule(rule).value;
    var amount := ParsePositiveMinorUnits(input).value;
    ParsedAmount(input);
    FeeWithinBounds(amount, terms);
    PercentageMonotone(0, FeeFor(amount, terms), terms.vatBps);
  }

  /** Without clamps or a flat part, paying in two parts never costs more, and at most one unit less. */
  lemma SplittingSavesAtMostOne(a: nat, b: nat, terms: Terms)
    requires Sound(terms) && terms.flat == 0 && terms.minimum == 0 && terms.maximum.None?
    ensures FeeFor(a + b, terms) - 1 <= FeeFor(a, terms) + FeeFor(b, terms) <= FeeFor(a + b, terms)
  {
    PercentageMonotone(0, a, terms.bps);
    PercentageMonotone(0, b, terms.bps);
    PercentageMonotone(0, a + b, terms.bps);
    assert (a + b) * terms.bps == a * terms.bps + b * terms.bps;
    FloorOfSum(a * terms.bps, b * terms.bps);
  }

  lemma FloorOfSum(x: int, y: int)
    ensures (x + y) / BASIS_POINTS - 1 <= x / BASIS_POINTS + y / BASIS_POINTS <= (x + y) / BASIS_POINTS
  {
  }

  // ----------------------------------------------------------------------------------------- the figures, exactly

  /** A rate in basis points is one ten-thousandth each: the quotient by 10000, rounded down. */
  predicate IsShare(amount: int, bps: int, share: int) {
    share * 10_000 <= amount * bps < (share + 1) * 10_000
  }

  /** The flat part and the share, raised to the minimum and then lowered to the maximum. */
  ghost predicate IsFee(amount: int, terms: Terms, fee: int) {
    exists share :: IsShare(amount, terms.bps, share) && IsClamped(terms.flat + share, terms, fee)
  }

  predicate IsClamped(raw: int, terms: Terms, fee: int) {
    if terms.maximum.Some? && terms.maximum.value < raw then fee == terms.maximum.value
    else if raw < terms.minimum then fee == terms.minimum
    else fee == raw
  }

  lemma PercentageIsShare(amount: int, bps: int, share: int)
    ensures Percentage(amount, bps) == share <==> IsShare(amount, bps, share)
  {
    var product := amount * bps;
    if IsShare(amount, bps, share) { assert product / 10_000 == share; }
  }

  /** Fee, VAT and total of an amount; the VAT is a share of the fee. */
  ghost predicate IsCharge(amount: int, terms: Terms, c: Calculation) {
    && c.amount == amount && IsFee(amount, terms, c.fee) && IsShare(c.fee, terms.vatBps, c.vat)
    && c.total == amount + c.fee + c.vat
  }

  lemma ChargeExactly(amount: int, terms: Terms, c: Calculation)
    requires Sound(terms)
    ensures Charge(amount, terms) == c <==> IsCharge(amount, terms, c)
  {
    var share := Percentage(amount, terms.bps);
    PercentageIsShare(amount, terms.bps, share);
    assert IsClamped(terms.flat + share, terms, FeeFor(amount, terms));
    if other :| IsShare(amount, terms.bps, other) && IsClamped(terms.flat + other, terms, c.fee) {
      PercentageIsShare(amount, terms.bps, other);
    }
    PercentageIsShare(c.fee, terms.vatBps, c.vat);
  }

  predicate IsPart(value: Amount, n: int) {
    Denotes(value, n) && 0 <= n <= MAX_BIGINT
  }

  /** The rule's fields as numbers; no minimum is none to pay, and a maximum is not below the minimum. */
  predicate IsRule(rule: Rule, terms: Terms) {
    && IsPart(rule.flat, terms.flat) && IsPart(rule.bps, terms.bps) && IsPart(rule.vatBps, terms.vatBps)
    && (if rule.minimum.Some? then IsPart(rule.minimum.value, terms.minimum) else terms.minimum == 0)
    && (rule.maximum.Some? <==> terms.maximum.Some?)
    && (rule.maximum.Some? ==> IsPart(rule.maximum.value, terms.maximum.value) && terms.minimum <= terms.maximum.value)
  }

  lemma RuleExactly(rule: Rule, terms: Terms)
    ensures ParseRule(rule) == Success(terms) <==> IsRule(rule, terms)
  {
    ParsesExactly(rule.flat, terms.flat);
    ParsesExactly(rule.bps, terms.bps);
    ParsesExactly(rule.vatBps, terms.vatBps);
    if rule.minimum.Some? { ParsesExactly(rule.minimum.value, terms.minimum); }
    if rule.maximum.Some? && terms.maximum.Some? { ParsesExactly(rule.maximum.value, terms.maximum.value); }
  }

  /** An amount is charged under a rule exactly so, and refused exactly when the total does not fit. */
  lemma CalculatedExactly(input: Amount, rule: Rule, terms: Terms, c: Calculation)
    requires IsRule(rule, terms)
    ensures Calculate(input, rule) == Success(c) <==>
      && Denotes(input, c.amount) && 0 < c.amount <= MAX_BIGINT && IsCharge(c.amount, terms, c) && c.total <= MAX_BIGINT
  {
    RuleExactly(rule, terms);
    ParsedRuleIsSound(rule);
    ParsesExactly(input, c.amount);
    ChargeExactly(c.amount, terms, c);
  }
}
