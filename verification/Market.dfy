// Prices and costs on a reviewed market (packages/evm-robinhood/src/market.ts:53-87; vocabulary.ts:83-85).
module Market {
  import opened Common
  import opened Core
  import opened Decimals

  datatype Market = Market(
    representation: string,
    fundingToken: string,
    adapter: string,
    venue: string,
    representationDecimals: nat,
    fundingDecimals: nat,
    assetClass: string,
    idScheme: string,
    assetValue: string,
    issuer: string,
    venueId: string,
    quantityUnit: string,
    settlementUnit: string,
    synthetic: bool,
    priceDecimals: nat,
    priceAtoms: int,
    feeBps: int)

  function CeilDiv(a: int, b: int): int
    requires b > 0
  {
    if a == 0 then 0 else (a + b - 1) / b
  }

  // Funding atoms per whole representation token; None when the typed price has more digits than the token.
  function VenuePrice(m: Market): Option<int> {
    if m.fundingDecimals >= m.priceDecimals then Some(m.priceAtoms * Pow10(m.fundingDecimals - m.priceDecimals))
    else
      var d := Pow10(m.priceDecimals - m.fundingDecimals);
      if m.priceAtoms % d == 0 then Some(m.priceAtoms / d) else None
  }

  // What the review establishes about a market's numbers.
  predicate Reviewed(m: Market) {
    && m.representation != m.fundingToken
    && m.representationDecimals <= MAX_DECIMALS && m.fundingDecimals <= MAX_DECIMALS && m.priceDecimals <= MAX_DECIMALS
    && m.priceAtoms > 0
    && 0 <= m.feeBps < 10_000
    && VenuePrice(m).Some?
  }

  function GrossCost(m: Market, quantity: nat): int
    requires Reviewed(m)
  {
    CeilDiv(quantity * VenuePrice(m).value, Pow10(m.representationDecimals))
  }

  function FeeOn(m: Market, gross: int): int {
    CeilDiv(gross * m.feeBps, 10_000)
  }

  function BuyCost(m: Market, quantity: nat): int
    requires Reviewed(m)
  {
    var gross := GrossCost(m, quantity);
    gross + FeeOn(m, gross)
  }

  // ---- Prices ----------------------------------------------------------------------------------

  // The venue price is the typed price exactly, and is missing only when no integer is.
  lemma VenuePriceIsExact(m: Market, p: int)
    ensures VenuePrice(m) == Some(p) <==> p * Pow10(m.priceDecimals) == m.priceAtoms * Pow10(m.fundingDecimals)
  {
    if m.fundingDecimals >= m.priceDecimals {
      var k := m.fundingDecimals - m.priceDecimals;
      Pow10Sum(k, m.priceDecimals);
      var scale, shift := Pow10(m.priceDecimals), Pow10(k);
      MulAssoc(m.priceAtoms, shift, scale);
      Cancel(p, m.priceAtoms * shift, scale);
    } else {
      var k := m.priceDecimals - m.fundingDecimals;
      Pow10Sum(k, m.fundingDecimals);
      var scale, d := Pow10(m.fundingDecimals), Pow10(k);
      MulAssoc(p, d, scale);
      Cancel(p * d, m.priceAtoms, scale);
      DivisionIs(m.priceAtoms, d, p);
    }
  }

  lemma Cancel(a: int, b: int, k: int)
    requires k > 0
    ensures a * k == b * k <==> a == b
  {
    if a < b {
      MulMonotone(a + 1, b, k);
    } else if b < a {
      MulMonotone(b + 1, a, k);
    }
  }

  lemma DivisionIs(a: int, d: int, p: int)
    requires d > 0
    ensures (a % d == 0 && a / d == p) <==> p * d == a
  {
    if p * d == a {
      MulDiv(p, d);
    }
  }

  // ---- Ceilings --------------------------------------------------------------------------------

  // The least integer whose multiple covers the dividend.
  lemma CeilDivIs(a: nat, b: int, c: int)
    requires b > 0
    ensures CeilDiv(a, b) >= 0 && a <= CeilDiv(a, b) * b < a + b
    ensures a <= c * b ==> CeilDiv(a, b) <= c
  {
    var q := CeilDiv(a, b);
    if a > 0 {
      assert (a + b - 1) == b * ((a + b - 1) / b) + (a + b - 1) % b;
      assert q >= 0;
    }
    if a <= c * b && c < q {
      MulMonotone(c + 1, q, b);
      assert false;
    }
  }

  lemma CeilDivMonotone(a: nat, b: nat, k: int)
    requires a <= b && k > 0
    ensures CeilDiv(a, k) <= CeilDiv(b, k)
  {
    CeilDivIs(b, k, 0);
    CeilDivIs(a, k, CeilDiv(b, k));
  }

  lemma CeilDivSubadditive(a: nat, b: nat, k: int)
    requires k > 0
    ensures CeilDiv(a + b, k) <= CeilDiv(a, k) + CeilDiv(b, k)
  {
    CeilDivIs(a, k, 0);
    CeilDivIs(b, k, 0);
    var x, y := CeilDiv(a, k), CeilDiv(b, k);
    assert (x + y) * k == x * k + y * k;
    CeilDivIs(a + b, k, x + y);
  }

  // ---- Costs -----------------------------------------------------------------------------------

  lemma PricePositive(m: Market)
    requires Reviewed(m)
    ensures VenuePrice(m).value > 0
  {
    var p := VenuePrice(m).value;
    VenuePriceIsExact(m, p);
    MulMonotone(1, m.priceAtoms, Pow10(m.fundingDecimals));
    if p <= 0 {
      MulMonotone(p, 0, Pow10(m.priceDecimals));
    }
  }

  // Nonlinear arithmetic kept to one place: q * p is a natural number, and grows with q.
  lemma ValueOf(q: nat, p: int)
    requires p > 0
    ensures q * p >= 0 && (q > 0 ==> q * p >= 1)
  {
  }

  lemma GrossIs(m: Market, quantity: nat)
    requires Reviewed(m)
    ensures var g, p, r := GrossCost(m, quantity), VenuePrice(m).value, Pow10(m.representationDecimals);
            p > 0 && quantity * p >= 0 && g >= 0 && quantity * p <= g * r < quantity * p + r && (quantity > 0 ==> g >= 1)
  {
    PricePositive(m);
    var p, r := VenuePrice(m).value, Pow10(m.representationDecimals);
    ValueOf(quantity, p);
    var value: nat := quantity * p;
    CeilDivIs(value, r, 0);
    var g := CeilDiv(value, r);
    assert g <= 0 ==> g * r <= 0 by {
      if g <= 0 {
        MulMonotone(g, 0, r);
      }
    }
  }

  // The exact cost with fee is quantity * price * (10000 + fee) / (10^decimals * 10000);
  // what is charged is never below it and less than three atoms above.
  lemma CostWithinThreeAtoms(m: Market, quantity: nat)
    requires Reviewed(m)
    ensures var exact := quantity * VenuePrice(m).value * (10_000 + m.feeBps);
            var unit := Pow10(m.representationDecimals) * 10_000;
            exact <= BuyCost(m, quantity) * unit < exact + 3 * unit
  {
    GrossIs(m, quantity);
    var g, r := GrossCost(m, quantity), Pow10(m.representationDecimals);
    var value := quantity * VenuePrice(m).value;
    ValueOfFee(g, m.feeBps);
    CeilDivIs(g * m.feeBps, 10_000, 0);
    CostBound(value, g, FeeOn(m, g), r, m.feeBps);
  }

  lemma ValueOfFee(g: nat, f: nat)
    ensures g * f >= 0
  {
  }

  lemma CostBound(value: nat, g: nat, fee: nat, r: int, f: nat)
    requires r > 0 && f < 10_000
    requires value <= g * r < value + r
    requires g * f <= fee * 10_000 < g * f + 10_000
    ensures value * (10_000 + f) <= (g + fee) * (r * 10_000) < value * (10_000 + f) + 3 * (r * 10_000)
  {
    var cost := g + fee;
    assert cost * (r * 10_000) == (cost * 10_000) * r by {
      MulAssoc(cost, 10_000, r);
      assert r * 10_000 == 10_000 * r;
    }
    var scaled := cost * 10_000;
    assert g * (10_000 + f) <= scaled < g * (10_000 + f) + 10_000;
    var all := 10_000 + f;
    MulMonotone(g * all, scaled, r);
    MulMonotone(scaled + 1, g * all + 10_000, r);
    assert (g * all) * r == (g * r) * all by {
      MulAssoc(g, all, r);
      MulAssoc(g, r, all);
      assert all * r == r * all;
    }
    MulMonotone(value, g * r, all);
    MulMonotone(g * r + 1, value + r, all);
    assert (scaled + 1) * r == scaled * r + r;
    assert (g * all + 10_000) * r == (g * all) * r + 10_000 * r;
    assert (g * r + 1) * all == (g * r) * all + all;
    assert (value + r) * all == value * all + r * all;
    MulMonotone(f, 9_999, r);
    assert all * r == 10_000 * r + f * r;
  }

  lemma CostMonotone(m: Market, a: nat, b: nat)
    requires Reviewed(m) && a <= b
    ensures BuyCost(m, a) <= BuyCost(m, b)
  {
    GrossIs(m, a);
    GrossIs(m, b);
    var p, r := VenuePrice(m).value, Pow10(m.representationDecimals);
    MulMonotone(a, b, p);
    CeilDivMonotone(a * p, b * p, r);
    FeeMonotone(m, GrossCost(m, a), GrossCost(m, b));
  }

  lemma FeeMonotone(m: Market, g: nat, h: nat)
    requires g <= h && 0 <= m.feeBps
    ensures FeeOn(m, g) <= FeeOn(m, h)
  {
    ValueOfFee(g, m.feeBps);
    ValueOfFee(h, m.feeBps);
    if m.feeBps > 0 {
      MulMonotone(g, h, m.feeBps);
    }
    CeilDivMonotone(g * m.feeBps, h * m.feeBps, 10_000);
  }

  // Splitting an order never makes it cheaper than placing it whole.
  lemma CostSubadditive(m: Market, a: nat, b: nat)
    requires Reviewed(m)
    ensures BuyCost(m, a + b) <= BuyCost(m, a) + BuyCost(m, b)
  {
    GrossIs(m, a);
    GrossIs(m, b);
    GrossIs(m, a + b);
    var p, r := VenuePrice(m).value, Pow10(m.representationDecimals);
    assert (a + b) * p == a * p + b * p;
    CeilDivSubadditive(a * p, b * p, r);
    var g, h, whole := GrossCost(m, a), GrossCost(m, b), GrossCost(m, a + b);
    FeeMonotone(m, whole, g + h);
    ValueOfFee(g, m.feeBps);
    ValueOfFee(h, m.feeBps);
    assert (g + h) * m.feeBps == g * m.feeBps + h * m.feeBps;
    CeilDivSubadditive(g * m.feeBps, h * m.feeBps, 10_000);
  }

  lemma CostPositive(m: Market, quantity: nat)
    requires Reviewed(m) && quantity > 0
    ensures BuyCost(m, quantity) >= 1
  {
    GrossIs(m, quantity);
    var g := GrossCost(m, quantity);
    ValueOfFee(g, m.feeBps);
    CeilDivIs(g * m.feeBps, 10_000, 0);
  }
}
