/**
 * Gross/net price conversion of the connector's utility class
 * (`calculateGrossPrice`, `calculateNetPrice`). Prices are exact reals; PHP's
 * `round($x * 100) / 100` is modelled as rounding half away from zero to whole cents.
 */
module Pricing {

  /** `round(x * 100)`: the nearest whole number of cents, halves away from zero. */
  function Cents(x: real): int {
    if x >= 0.0 then (x * 100.0 + 0.5).Floor else -((-x * 100.0 + 0.5).Floor)
  }

  /** `round(x * 100) / 100`: whole cents, at most half a cent away from `x`. */
  function Round2(x: real): (r: real)
    ensures r * 100.0 == Cents(x) as real
    ensures x - 0.005 <= r <= x + 0.005
  {
    Cents(x) as real / 100.0
  }

  /** `x` is a whole number of cents. */
  predicate WholeCents(x: real) {
    (x * 100.0).Floor as real == x * 100.0
  }

  /** Rounding leaves an amount of whole cents unchanged. */
  lemma Round2Exact(x: real)
    requires WholeCents(x)
    ensures Round2(x) == x
  {
    var k := (x * 100.0).Floor;
    if x >= 0.0 {
      assert (x * 100.0 + 0.5).Floor == k;
    } else {
      assert -x * 100.0 == (-k) as real;
      assert (-x * 100.0 + 0.5).Floor == -k;
    }
  }

  /** The multiplier `1 + rate / 100` that adds a tax rate given in percent. */
  function TaxFactor(taxRate: real): real { 1.0 + taxRate / 100.0 }

  /** `calculateGrossPrice`: a gross price is kept, a net price gets the tax added. */
  function GrossPrice(price: real, taxRate: real, isGross: bool): (r: real)
    ensures isGross ==> r == price
    ensures !isGross && taxRate >= 0.0 && price >= 0.0 ==> r >= price
    ensures !isGross && taxRate != -100.0 ==> r / TaxFactor(taxRate) == price
  {
    if isGross then price
    else
      var r := price * TaxFactor(taxRate);
      assert taxRate != -100.0 ==> r / TaxFactor(taxRate) == price by {
        if taxRate != -100.0 {
          MulDiv(price, TaxFactor(taxRate));
        }
      }
      r
  }

  lemma MulDiv(a: real, f: real)
    requires f != 0.0
    ensures a * f / f == a
  {
  }

  /** `calculateNetPrice`: a gross price loses its tax and is rounded to cents, a net price is kept. */
  function NetPrice(price: real, taxRate: real, isGross: bool): (r: real)
    requires taxRate != -100.0
    ensures !isGross ==> r == price
    ensures isGross ==> WholeCents(r)
    ensures isGross ==> price / TaxFactor(taxRate) - 0.005 <= r <= price / TaxFactor(taxRate) + 0.005
  {
    if isGross then
      var r := Round2(price / TaxFactor(taxRate));
      assert r * 100.0 == Cents(price / TaxFactor(taxRate)) as real;
      r
    else price
  }

  /** Adding the tax to a net price in whole cents and taking it off again gives the net price back. */
  lemma NetOfGross(net: real, taxRate: real)
    requires taxRate != -100.0 && WholeCents(net)
    ensures NetPrice(GrossPrice(net, taxRate, false), taxRate, true) == net
  {
    var f := TaxFactor(taxRate);
    assert f != 0.0;
    assert net * f / f == net;
    assert GrossPrice(net, taxRate, false) == net * f;
    Round2Exact(net);
    assert NetPrice(net * f, taxRate, true) == Round2(net * f / f);
  }

  /** A product of a non-negative and a positive factor is non-negative. */
  lemma NonNegProduct(d: real, f: real)
    requires d >= 0.0 && f > 0.0
    ensures d * f >= 0.0
  {
  }

  /** Scaling a half-cent window by a positive factor. */
  lemma ScaledWindow(q: real, n: real, f: real, g: real)
    requires f > 0.0 && q - 0.005 <= n <= q + 0.005 && q * f == g
    ensures g - 0.005 * f <= n * f <= g + 0.005 * f
  {
    NonNegProduct(n - q + 0.005, f);
    NonNegProduct(q + 0.005 - n, f);
    assert (n - q + 0.005) * f == n * f - q * f + 0.005 * f;
    assert (q + 0.005 - n) * f == q * f + 0.005 * f - n * f;
  }

  lemma DivMul(a: real, f: real)
    requires f != 0.0
    ensures a / f * f == a
  {
  }

  /** Taking the tax off a gross price and adding it again is off by at most half a cent of net. */
  lemma GrossOfNet(gross: real, taxRate: real)
    requires taxRate > -100.0
    ensures var g := GrossPrice(NetPrice(gross, taxRate, true), taxRate, false);
            gross - 0.005 * TaxFactor(taxRate) <= g <= gross + 0.005 * TaxFactor(taxRate)
  {
    var f := TaxFactor(taxRate);
    var n := NetPrice(gross, taxRate, true);
    var q := gross / f;
    assert f > 0.0;
    assert q - 0.005 <= n <= q + 0.005;
    DivMul(gross, f);
    ScaledWindow(q, n, f, gross);
    assert GrossPrice(n, taxRate, false) == n * f;
  }
}
