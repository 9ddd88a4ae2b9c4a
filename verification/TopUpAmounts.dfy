/** Amounts of a top-up order when the console displays tokens: the tokens a user asks for become whole units
    when the order is placed, and units become quota when it is settled.

    Division is the decimal library's: rounded half away from zero at 16 decimal places.  A decimal with 16 places
    is held as the integer PRECISION times its value. */
module TopUpAmounts {
  const PRECISION: int := 10000000000000000

  function IntPart(x: real): int {
    if x >= 0.0 then x.Floor else -((-x).Floor)
  }

  /** The quotient of two integers at 16 decimal places, scaled. */
  function DecimalDiv(a: nat, b: int): nat
    requires b > 0
  {
    (2 * a * PRECISION + b) / (2 * b)
  }

  /** Units recorded on the order for a request of `tokens`: decimal division, then the integer part. */
  function UnitsFor(tokens: int, quotaPerUnit: int): int
    requires quotaPerUnit > 0
  {
    if tokens >= 0 then DecimalDiv(tokens, quotaPerUnit) / PRECISION else -(DecimalDiv(-tokens, quotaPerUnit) / PRECISION)
  }

  /** The smallest request accepted in token display. */
  function MinTokens(minUnits: int, quotaPerUnit: int): int {
    minUnits * quotaPerUnit
  }

  /** Quota added when an Epay order of `units` is settled, at `rate` quota per unit. */
  function EpayCredit(units: int, rate: real): int {
    IntPart(units as real * rate)
  }

  /** Quota added when a Stripe order of `money` is completed by hand. */
  function MoneyCredit(money: real, rate: real): int {
    IntPart(money * rate)
  }

  lemma CreditIsNonNegative(units: int, rate: real)
    requires units >= 0 && rate >= 0.0
    ensures EpayCredit(units, rate) >= 0
  {
    assert units as real * rate >= 0.0;
  }

  lemma IntPartBounds(x: real)
    requires x >= 0.0
    ensures IntPart(x) as real <= x < IntPart(x) as real + 1.0
  {
  }

  lemma ProductIsNonNegative(a: real, b: real)
    requires a >= 0.0 && b >= 0.0
    ensures a * b >= 0.0
  {
  }

  function Magnitude(units: int): nat {
    if units >= 0 then units else -units
  }

  lemma CreditOfMagnitude(n: nat, rate: real)
    requires rate >= 0.0
    ensures EpayCredit(n, rate) == n <==> 0.0 <= n as real * (rate - 1.0) < 1.0
  {
    ProductIsNonNegative(n as real, rate);
    IntPartBounds(n as real * rate);
    assert n as real * (rate - 1.0) == n as real * rate - n as real;
  }

  /** Converting an amount to quota leaves it as it is if and only if the rate is not below one and what it adds stays
      below one. */
  lemma CreditIsUnitsIff(units: int, rate: real)
    requires rate >= 0.0
    ensures EpayCredit(units, rate) == units <==> 0.0 <= Magnitude(units) as real * (rate - 1.0) < 1.0
  {
    var n := Magnitude(units);
    CreditOfMagnitude(n, rate);
    if units < 0 {
      ProductIsNonNegative(n as real, rate);
      assert units as real * rate == -(n as real * rate);
    }
  }

  lemma MulMonotone(a: int, b: int, d: int)
    requires a <= b && d > 0
    ensures a * d <= b * d
  {
    assert (b - a) * d >= 0;
    assert (b - a) * d == b * d - a * d;
  }

  lemma DivUnique(n: int, d: int, q: int, r: int)
    requires d > 0 && n == q * d + r && 0 <= r < d
    ensures n / d == q
  {
    var q' := n / d;
    assert n == q' * d + n % d;
    assert (q' + 1) * d == q' * d + d && (q + 1) * d == q * d + d;
    if q > q' {
      MulMonotone(q' + 1, q, d);
    } else if q < q' {
      MulMonotone(q + 1, q', d);
    }
  }

  lemma DivAdd(x: int, k: int, d: int)
    requires d > 0
    ensures (x + k * d) / d == x / d + k
  {
    assert (x / d + k) * d == (x / d) * d + k * d;
    DivUnique(x + k * d, d, x / d + k, x % d);
  }

  lemma DecimalDivSplits(k: nat, r: nat, b: int)
    requires b > 0
    ensures k * b + r >= 0
    ensures DecimalDiv(k * b + r, b) == k * PRECISION + DecimalDiv(r, b)
  {
    assert 2 * (k * b + r) * PRECISION + b == (2 * r * PRECISION + b) + (k * PRECISION) * (2 * b);
    DivAdd(2 * r * PRECISION + b, k * PRECISION, 2 * b);
  }

  /** A remainder below the divisor never rounds up to a whole unit, as long as the divisor is below twice the
      precision; at or above that, the largest remainder does. */
  lemma RemainderRoundsBelowOne(r: nat, b: int)
    requires 0 <= r < b && b < 2 * PRECISION
    ensures DecimalDiv(r, b) < PRECISION
  {
    var n := 2 * r * PRECISION + b;
    assert n < PRECISION * (2 * b);
    DivBelow(n, PRECISION, 2 * b);
  }

  lemma DivBelow(n: int, q: int, d: int)
    requires d > 0 && n < q * d
    ensures n / d < q
  {
    assert n == (n / d) * d + n % d;
    if n / d >= q { MulMonotone(q, n / d, d); }
  }

  lemma DivAtLeast(n: int, q: int, d: int)
    requires d > 0 && n >= q * d
    ensures n / d >= q
  {
    assert n == (n / d) * d + n % d;
    assert (n / d + 1) * d == (n / d) * d + d;
    if n / d < q { MulMonotone(n / d + 1, q, d); }
  }

  /** Units are the floor of tokens over quota-per-unit. */
  lemma UnitsAreFloor(tokens: nat, q: int)
    requires 0 < q < 2 * PRECISION
    ensures UnitsFor(tokens, q) == tokens / q
  {
    var k, r := tokens / q, tokens % q;
    assert tokens == k * q + r;
    DecimalDivSplits(k, r, q);
    RemainderRoundsBelowOne(r, q);
    DivUnique(DecimalDiv(tokens, q), PRECISION, k, DecimalDiv(r, q));
  }

  /** The rounding of the decimal division is invisible for every request exactly when quota-per-unit is below
      twice the precision. */
  lemma FloorExactlyBelowTwicePrecision(q: int)
    requires q > 0
    ensures (forall tokens: nat :: UnitsFor(tokens, q) == tokens / q) <==> q < 2 * PRECISION
  {
    if q < 2 * PRECISION {
      forall tokens: nat ensures UnitsFor(tokens, q) == tokens / q { UnitsAreFloor(tokens, q); }
    } else {
      var tokens: nat := q - 1;
      assert 2 * tokens * PRECISION + q >= PRECISION * (2 * q);
      DivAtLeast(2 * tokens * PRECISION + q, PRECISION, 2 * q);
      DivAtLeast(DecimalDiv(tokens, q), 1, PRECISION);
      DivUnique(tokens, q, 0, tokens);
      assert UnitsFor(tokens, q) != tokens / q;
    }
  }

  lemma UnitsCoverRequest(tokens: int, minUnits: int, q: int)
    requires 0 < q < 2 * PRECISION
    requires tokens >= MinTokens(minUnits, q)
    ensures var credit := UnitsFor(tokens, q) * q;
            && (tokens >= 0 ==> tokens - q < credit <= tokens)
            && (tokens < 0 ==> tokens <= credit < tokens + q)
            && credit >= minUnits * q
  {
    if tokens >= 0 {
      UnitsAreFloor(tokens, q);
      assert tokens == (tokens / q) * q + tokens % q;
      DivAtLeast(tokens, minUnits, q);
      MulMonotone(minUnits, tokens / q, q);
    } else {
      UnitsAreFloor(-tokens, q);
      var k := (-tokens) / q;
      assert -tokens == k * q + (-tokens) % q;
      assert (-k) * q == -(k * q);
    }
  }

  lemma CreditOfWholeUnits(units: int, q: int)
    ensures EpayCredit(units, q as real) == units * q
  {
    assert units as real * q as real == (units * q) as real;
    WholeStays(units * q);
  }

  lemma WholeStays(n: int)
    ensures IntPart(n as real) == n
  {
    if n < 0 { assert -(n as real) == (-n) as real; }
  }

  /** Every accepted request later credits a whole number of units, at most what was asked for and less than one
      unit short of it, and never less than the configured minimum. */
  lemma AcceptedRequestCredits(tokens: int, minUnits: int, q: int)
    requires 0 < q < 2 * PRECISION
    requires tokens >= MinTokens(minUnits, q)
    ensures var credit := EpayCredit(UnitsFor(tokens, q), q as real);
            && credit == UnitsFor(tokens, q) * q
            && (tokens >= 0 ==> tokens - q < credit <= tokens)
            && (tokens < 0 ==> tokens <= credit < tokens + q)
            && credit >= minUnits * q
  {
    CreditOfWholeUnits(UnitsFor(tokens, q), q);
    UnitsCoverRequest(tokens, minUnits, q);
  }
}
