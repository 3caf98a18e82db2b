/**
Exact decimal money: prices are scale-4 amounts of at most fourteen digits,
rates are arbitrary positive decimals, and a USD price is converted to MXN by
one multiplication followed by banker's rounding to scale 4.
 */
module Decimals {
  import opened Base

  const SCALE_UNIT := 10_000
  const MAX_AMOUNT := 99_999_999_999_999

  function Pow10(n: nat): (p: nat)
    ensures p > 0
  {
    if n == 0 then 1 else 10 * Pow10(n - 1)
  }

  /** n/d rounded to the nearest integer, halves up: decimal.Round on non-negative values. */
  function RoundHalfUp(n: int, d: int): int
    requires d > 0
  {
    (2 * n + d) / (2 * d)
  }

  /** decimal.RoundBank: round halves up, then step back to the even neighbour on an exact tie. */
  function RoundBank(n: int, d: int): int
    requires d > 0
  {
    var m := RoundHalfUp(n, d);
    if 2 * (m * d - n) == d && m % 2 != 0 then m - 1 else m
  }

  function Mul(a: Decimal, b: Decimal): Decimal {
    Decimal(a.coefficient * b.coefficient, a.scale + b.scale)
  }

  /** The value in ten-thousandths, rounded half up. */
  function RoundToAmount(d: Decimal): Amount {
    RoundHalfUp(d.coefficient * SCALE_UNIT, Pow10(d.scale))
  }

  /** exchange.ParsePrice, after the text has been read as a decimal. */
  function ParsePrice(d: Decimal): Option<Amount> {
    var u := RoundToAmount(d);
    if d.coefficient <= 0 then None
    else if u * Pow10(d.scale) != d.coefficient * SCALE_UNIT then None
    else if u > MAX_AMOUNT then None
    else Some(u)
  }

  /** submittedPrice.Mul(rate).RoundBank(4), in ten-thousandths. */
  function Convert(price: Decimal, rate: Decimal): Amount {
    var p := Mul(price, rate);
    RoundBank(p.coefficient * SCALE_UNIT, Pow10(p.scale))
  }

  /** The price a quote is drafted with: ParsePrice of the rounded product. */
  function QuotedPrice(price: Decimal, rate: Decimal): Option<Amount> {
    ParsePrice(Decimal(Convert(price, rate), 4))
  }

  // ---- what the rounding means --------------------------------------------

  /** `m` is a closest integer to n/d, and the even one when two are equally close. */
  ghost predicate HalfEven(n: int, d: int, m: int) {
    && -d <= 2 * (n - m * d) <= d
    && (2 * (n - m * d) == d || 2 * (n - m * d) == -d ==> m % 2 == 0)
  }

  lemma DivBounds(a: int, b: int)
    requires b > 0
    ensures (a / b) * b <= a < (a / b) * b + b
  {
  }

  lemma RoundHalfUpBounds(n: int, d: int)
    requires d > 0
    ensures -d <= 2 * (n - RoundHalfUp(n, d) * d) < d
  {
    var m := RoundHalfUp(n, d);
    DivBounds(2 * n + d, 2 * d);
    assert m * (2 * d) == 2 * (m * d);
  }

  /** Banker's rounding yields the half-even neighbour. */
  lemma RoundBankIsHalfEven(n: int, d: int)
    requires d > 0
    ensures HalfEven(n, d, RoundBank(n, d))
  {
    var m := RoundHalfUp(n, d);
    RoundHalfUpBounds(n, d);
    assert (m - 1) * d == m * d - d;
  }

  /** Rounding keeps order. */
  lemma HalfEvenMonotone(n: int, n': int, d: int, m: int, m': int)
    requires d > 0 && n <= n' && HalfEven(n, d, m) && HalfEven(n', d, m')
    ensures m <= m'
  {
    if m - m' >= 1 {
      MulMonotone(1, m - m', d);
    }
    if m - m' >= 2 {
      MulMonotone(2, m - m', d);
    }
    TiesKeepOrder(n, n', d, m, m * d, m', m' * d, (m - m') * d);
  }

  // The arithmetic of HalfEvenMonotone with every product named.
  lemma TiesKeepOrder(n: int, n': int, d: int, m: int, x: int, m': int, x': int, gap: int)
    requires d > 0 && n <= n' && gap == x - x' && (m - m' >= 1 ==> gap >= d) && (m - m' >= 2 ==> gap >= 2 * d)
    requires -d <= 2 * (n - x) && 2 * (n' - x') <= d
    requires 2 * (n - x) == -d ==> m % 2 == 0
    requires 2 * (n' - x') == d ==> m' % 2 == 0
    ensures m <= m'
  {
  }

  /** There is only one half-even neighbour. */
  lemma HalfEvenUnique(n: int, d: int, a: int, b: int)
    requires d > 0 && HalfEven(n, d, a) && HalfEven(n, d, b)
    ensures a == b
  {
    HalfEvenMonotone(n, n, d, a, b);
    HalfEvenMonotone(n, n, d, b, a);
  }

  lemma MulMonotone(a: int, b: int, d: int)
    requires a <= b && d >= 0
    ensures a * d <= b * d
  {
    assert (b - a) * d >= 0;
  }

  /** Scaling numerator and denominator by the same factor rounds to the same integer. */
  lemma HalfEvenScales(n: int, d: int, k: int, m: int)
    requires d > 0 && k > 0
    ensures HalfEven(n * k, d * k, m) <==> HalfEven(n, d, m)
  {
    var r := 2 * (n - m * d);
    assert 2 * (n * k - m * (d * k)) == r * k by { assert m * (d * k) == (m * d) * k; }
    assert -d <= r <==> (-d) * k <= r * k by { MulOrder(-d, r, k); }
    assert r <= d <==> r * k <= d * k by { MulOrder(r, d, k); }
    assert d <= r <==> d * k <= r * k by { MulOrder(d, r, k); }
    assert r <= -d <==> r * k <= (-d) * k by { MulOrder(r, -d, k); }
    assert (-d) * k == -(d * k);
  }

  lemma MulOrder(a: int, b: int, k: int)
    requires k > 0
    ensures a <= b <==> a * k <= b * k
  {
    if a <= b {
      MulMonotone(a, b, k);
    } else {
      assert (a - b) * k > 0;
    }
  }

  lemma Pow10Adds(a: nat, b: nat)
    ensures Pow10(a + b) == Pow10(a) * Pow10(b)
  {
    if a > 0 {
      Pow10Adds(a - 1, b);
    }
  }

  /** A decimal is a price exactly when it equals a positive scale-4 amount within the bound. */
  lemma ParsePriceExact(d: Decimal, u: Amount)
    ensures ParsePrice(d) == Some(u) <==> 0 < u <= MAX_AMOUNT && u * Pow10(d.scale) == d.coefficient * SCALE_UNIT
  {
    var p := Pow10(d.scale);
    if 0 < u <= MAX_AMOUNT && u * p == d.coefficient * SCALE_UNIT {
      assert u * p > 0;
      RoundHalfUpExact(u, p);
    } else if ParsePrice(d) == Some(u) {
      assert u * p > 0;
      if u <= 0 {
        MulMonotone(u, 0, p);
      }
    }
  }

  lemma RoundHalfUpExact(u: int, p: int)
    requires p > 0
    ensures RoundHalfUp(u * p, p) == u
  {
    RoundHalfUpBounds(u * p, p);
    var m := RoundHalfUp(u * p, p);
    assert 2 * (u * p - m * p) == 2 * ((u - m) * p);
    if u - m >= 1 {
      MulMonotone(1, u - m, p);
    } else if u - m <= -1 {
      MulMonotone(u - m, -1, p);
    }
  }

  /**
  The converted price is the half-even neighbour of the exact product of the
  submitted price and the rate, whatever number of digits the two decimals
  are written with.
   */
  lemma ConversionIsHalfEven(price: Decimal, rate: Decimal, u: Amount)
    requires ParsePrice(price) == Some(u)
    ensures HalfEven(u * rate.coefficient, Pow10(rate.scale), Convert(price, rate))
  {
    ParsePriceExact(price, u);
    var p, r := Pow10(price.scale), Pow10(rate.scale);
    var n := Mul(price, rate).coefficient * SCALE_UNIT;
    assert n == (u * rate.coefficient) * p by {
      ProductRescales(price.coefficient, rate.coefficient, u, p);
    }
    assert Pow10(price.scale + rate.scale) == r * p by {
      Pow10Adds(price.scale, rate.scale);
    }
    RoundBankRescaled(u * rate.coefficient, r, p);
  }

  lemma RoundBankRescaled(n: int, d: int, k: int)
    requires d > 0 && k > 0 && d * k > 0
    ensures HalfEven(n, d, RoundBank(n * k, d * k))
  {
    RoundBankIsHalfEven(n * k, d * k);
    HalfEvenScales(n, d, k, RoundBank(n * k, d * k));
  }

  lemma ProductRescales(c: int, k: int, u: int, p: int)
    requires u * p == c * SCALE_UNIT
    ensures c * k * SCALE_UNIT == (u * k) * p
  {
    assert c * k * SCALE_UNIT == (c * SCALE_UNIT) * k;
    assert (u * p) * k == (u * k) * p;
  }

  /** A dearer submission never converts to a cheaper MXN price. */
  lemma ConversionMonotone(a: Decimal, b: Decimal, rate: Decimal, ua: Amount, ub: Amount)
    requires ParsePrice(a) == Some(ua) && ParsePrice(b) == Some(ub) && rate.coefficient > 0
    requires ua <= ub
    ensures Convert(a, rate) <= Convert(b, rate)
  {
    ConversionIsHalfEven(a, rate, ua);
    ConversionIsHalfEven(b, rate, ub);
    MulMonotone(ua, ub, rate.coefficient);
    HalfEvenMonotone(
      ua * rate.coefficient, ub * rate.coefficient, Pow10(rate.scale), Convert(a, rate), Convert(b, rate));
  }

  /** The quote is accepted exactly when the rounded product is a positive amount within the bound. */
  lemma QuotedPriceExact(price: Decimal, rate: Decimal)
    ensures QuotedPrice(price, rate) ==
            (if 0 < Convert(price, rate) <= MAX_AMOUNT then Some(Convert(price, rate)) else None)
  {
    var m := Convert(price, rate);
    assert Pow10(4) == SCALE_UNIT by {
      assert Pow10(1) == 10 && Pow10(2) == 100 && Pow10(3) == 1000;
    }
    ParsePriceExact(Decimal(m, 4), m);
    if QuotedPrice(price, rate).Some? {
      var v := QuotedPrice(price, rate).value;
      ParsePriceExact(Decimal(m, 4), v);
    }
  }

  /** A positive rate can still round a valid price to nothing, and the quote is then refused. */
  lemma TinyRateRefused()
    ensures QuotedPrice(Decimal(1, 4), Decimal(1, 1)) == None
  {
    assert Pow10(5) == 100_000 by {
      assert Pow10(1) == 10 && Pow10(2) == 100 && Pow10(3) == 1000 && Pow10(4) == 10_000;
    }
  }

  /** Positive, without digits beyond the fourth decimal, and within the price bound. */
  predicate FitsPrice(rate: Decimal) {
    && rate.coefficient > 0
    && (rate.coefficient * SCALE_UNIT) % Pow10(rate.scale) == 0
    && rate.coefficient * SCALE_UNIT <= MAX_AMOUNT * Pow10(rate.scale)
  }

  /** scanConversionQuote reads the stored rate back as a price, which succeeds exactly when it fits one. */
  lemma RateReadableExactly(rate: Decimal)
    ensures ParsePrice(rate).Some? <==> FitsPrice(rate)
  {
    var p := Pow10(rate.scale);
    var n := rate.coefficient * SCALE_UNIT;
    if FitsPrice(rate) {
      var u := n / p;
      assert u * p == n;
      MulOrder(u, MAX_AMOUNT, p);
      if u <= 0 { MulMonotone(u, 0, p); }
      ParsePriceExact(rate, u);
    }
    if ParsePrice(rate).Some? {
      var u := ParsePrice(rate).value;
      ParsePriceExact(rate, u);
      assert n == u * p + 0;
      MulMod(u, p);
      MulMonotone(u, MAX_AMOUNT, p);
    }
  }

  lemma MulMod(u: int, p: int)
    requires p > 0
    ensures (u * p) % p == 0
  {
    var q, r := (u * p) / p, (u * p) % p;
    assert (u - q) * p == r by { assert (u - q) * p == u * p - q * p; }
    if u - q >= 1 { MulMonotone(1, u - q, p); }
    if u - q <= -1 { MulMonotone(u - q, -1, p); }
  }

  const FIVE_DIGIT_RATE := Decimal(1712345, 5)

  /** A five-digit rate, as Banxico may publish one, prices a quote but does not fit a price itself. */
  lemma FiveDigitRateUnreadable()
    ensures QuotedPrice(Decimal(100, 0), FIVE_DIGIT_RATE) == Some(17_123_450)
    ensures ParsePrice(FIVE_DIGIT_RATE) == None && !FitsPrice(FIVE_DIGIT_RATE)
  {
    assert Pow10(5) == 100_000 && Pow10(0) == 1 by {
      assert Pow10(1) == 10 && Pow10(2) == 100 && Pow10(3) == 1000 && Pow10(4) == 10_000;
    }
  }
}
