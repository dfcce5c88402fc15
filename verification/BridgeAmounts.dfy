/** The arithmetic of deposits and redeems (internal/crosschain/bridge_worker.go), rounding included. */
module BridgeAmounts {
  import opened Reals

  const SCALE: real := 10000000000000000.0
  /** One unit in the last of the 16 places a decimal division keeps. */
  const ULP: real := 0.0000000000000001
  /** One base unit of a token on Sui. */
  const UNIT: real := 0.000000001
  const UNITS: real := 1000000000.0
  const UINT64_LIMIT: int := 0x1_0000_0000_0000_0000

  /** Decimal division of positive numbers: 16 places, half away from zero. */
  function Div(a: real, b: real): real
    requires a >= 0.0 && b > 0.0
  {
    (a / b * SCALE + 0.5).Floor as real / SCALE
  }

  /** Half a unit at most is lost or gained, and nothing becomes negative. */
  lemma DivError(a: real, b: real)
    requires a >= 0.0 && b > 0.0
    ensures a / b - ULP / 2.0 <= Div(a, b) <= a / b + ULP / 2.0
    ensures Div(a, b) >= 0.0
  {
    var q := a / b;
    DivNonNeg(a, b);
    var n := (q * SCALE + 0.5).Floor as real;
    assert q * SCALE - 0.5 <= n <= q * SCALE + 0.5;
    assert n >= 0.0;
  }

  /** Half the deposit's dollar value as fTokens at 1 dollar, half as xTokens at the price. */
  datatype Split = Split(f: real, x: real)

  function Shares(s: Split): real {
    s.f + s.x
  }

  function SplitMint(deposit: real, price: real): Split
    requires deposit > 0.0 && price > 0.0
  {
    MulPos(deposit, price);
    var half := Div(deposit * price, 2.0);
    DivError(deposit * price, 2.0);
    Split(half, Div(half, price))
  }

  lemma SplitNonNeg(deposit: real, price: real)
    requires deposit > 0.0 && price > 0.0
    ensures var s := SplitMint(deposit, price);
      s.f >= 0.0 && s.x >= 0.0 && s.x == Div(s.f, price)
  {
    MulPos(deposit, price);
    DivError(deposit * price, 2.0);
    DivError(SplitMint(deposit, price).f, price);
  }

  lemma SplitWorth(amount: real, price: real)
    requires amount > 0.0 && price > 0.0
    ensures var s := SplitMint(amount, price);
      && amount * price / 2.0 - ULP / 2.0 <= s.f <= amount * price / 2.0 + ULP / 2.0
      && s.f - ULP / 2.0 * price <= s.x * price <= s.f + ULP / 2.0 * price
      && s.f >= 0.0 && s.x >= 0.0
  {
    var s := SplitMint(amount, price);
    MulPos(amount, price);
    SplitNonNeg(amount, price);
    DivError(amount * price, 2.0);
    DivError(s.f, price);
    QuotientWorth(s.f, s.x, price);
  }

  lemma QuotientWorth(f: real, x: real, price: real)
    requires price > 0.0 && f / price - ULP / 2.0 <= x <= f / price + ULP / 2.0
    ensures f - ULP / 2.0 * price <= x * price <= f + ULP / 2.0 * price
  {
    DivMul(f, price);
    MulMono(f / price - ULP / 2.0, x, price);
    MulMono(x, f / price + ULP / 2.0, price);
  }

  lemma SplitIsNothingIff(amount: real, price: real)
    requires amount > 0.0 && price > 0.0
    ensures Shares(SplitMint(amount, price)) > 0.0 <==> amount * price >= ULP
    ensures Shares(SplitMint(amount, price)) >= 0.0
  {
    var value := amount * price;
    MulPos(amount, price);
    SplitNonNeg(amount, price);
    RoundsToZeroIff(value / 2.0);
    var f := SplitMint(amount, price).f;
    if f == 0.0 {
      RoundsToZeroIff(f / price);
    }
  }

  lemma RoundsToZeroIff(q: real)
    requires q >= 0.0
    ensures (q * SCALE + 0.5).Floor as real / SCALE == 0.0 <==> q < ULP / 2.0
  {
  }

  lemma DivPositiveIff(a: real, b: real)
    requires a > 0.0 && b > 0.0
    ensures Div(a, b) > 0.0 <==> a / b >= ULP / 2.0
  {
    DivNonNeg(a, b);
    DivError(a, b);
    RoundsToZeroIff(a / b);
  }

  /** Truncation to base units; an amount that does not fit 64 bits becomes zero. */
  function ToUint(v: real): nat {
    if v <= 0.0 then 0
    else if (v * UNITS).Floor < UINT64_LIMIT then (v * UNITS).Floor
    else 0
  }

  predicate Fits(v: real) {
    (v * UNITS).Floor < UINT64_LIMIT
  }

  /** What the redeem listener makes of base units. */
  function FromUnits(n: nat): real {
    n as real / UNITS
  }

  /** Going to base units and back loses less than one base unit exactly when the amount fits. */
  lemma ToUintKeepsIff(v: real)
    requires v >= 0.0
    ensures v - UNIT < FromUnits(ToUint(v)) <= v <==> Fits(v)
    ensures 0.0 <= FromUnits(ToUint(v)) <= v
  {
    if v > 0.0 && !Fits(v) {
      assert v * UNITS >= UINT64_LIMIT as real;
      assert FromUnits(ToUint(v)) == 0.0;
    }
  }

  /** Twenty thousand million units of an asset are too many for 64 bits: none is minted. */
  lemma HugeAmountMintsNothing(v: real)
    requires v == 20000000000.0
    ensures !Fits(v) && ToUint(v) == 0 && FromUnits(ToUint(v)) == 0.0
  {
    ToUintKeepsIff(v);
  }

  function Payout(units: nat, price: real): real
    requires price > 0.0
  {
    Div(FromUnits(units), price)
  }

  /** What both redeems pay for all the base units a deposit minted. */
  function PaidBack(deposit: real, price: real): real
    requires deposit > 0.0 && price > 0.0
  {
    var s := SplitMint(deposit, price);
    Payout(ToUint(s.f), price) + FromUnits(ToUint(s.x))
  }

  /** Numbers that are close stay close when both are divided. */
  lemma DivClose(a: real, b: real, below: real, above: real, c: real)
    requires a - below <= b <= a + above && c > 0.0
    ensures a / c - below * (1.0 / c) <= b / c <= a / c + above * (1.0 / c)
  {
    DivMul(1.0, c);
    DivMul(a, c);
    Scaled(a / c, 1.0 / c, above, c);
    Scaled(a / c, 1.0 / c, -below, c);
    DivLeIff(b, c, a / c + above * (1.0 / c));
    DivGeIff(b, c, a / c - below * (1.0 / c));
  }

  lemma Scaled(q: real, r: real, d: real, c: real)
    requires r * c == 1.0
    ensures (q + d * r) * c == q * c + d
  {
    assert d * r * c == d * (r * c);
  }

  /** Depositing and redeeming everything returns the deposit up to rounding. */
  lemma PaidBackBounds(deposit: real, price: real)
    requires deposit > 0.0 && price > 0.0
    requires Fits(SplitMint(deposit, price).f) && Fits(SplitMint(deposit, price).x)
    ensures deposit - (UNIT + ULP) * (1.0 + 1.0 / price)
         <= PaidBack(deposit, price)
         <= deposit + ULP * (1.0 + 1.0 / price)
  {
    hide SplitMint, Div, ToUint, FromUnits, Fits;
    var s := SplitMint(deposit, price);
    var f, x := FromUnits(ToUint(s.f)), FromUnits(ToUint(s.x));
    SplitNonNeg(deposit, price);
    ToUintKeepsIff(s.f);
    ToUintKeepsIff(s.x);
    DivError(s.f, price);
    DivError(f, price);
    HalfBounds(deposit, price);
    DivClose(s.f, f, UNIT, 0.0, price);
    ErrorsAddUp(deposit, 1.0 / price, s.f / price, f / price, Div(f, price), s.x, x);
  }

  lemma ErrorsAddUp(deposit: real, r: real, half: real, kept: real, paid: real, x: real, xKept: real)
    requires deposit / 2.0 - ULP / 2.0 * r <= half <= deposit / 2.0 + ULP / 2.0 * r
    requires half - UNIT * r <= kept <= half
    requires kept - ULP / 2.0 <= paid <= kept + ULP / 2.0
    requires half - ULP / 2.0 <= x <= half + ULP / 2.0
    requires x - UNIT <= xKept <= x
    ensures deposit - (UNIT + ULP) * (1.0 + r) <= paid + xKept <= deposit + ULP * (1.0 + r)
  {
  }

  /** The fToken half, in terms of the deposited asset. */
  lemma HalfBounds(deposit: real, price: real)
    requires deposit > 0.0 && price > 0.0
    ensures var half := SplitMint(deposit, price).f / price;
      deposit / 2.0 - ULP / 2.0 * (1.0 / price) <= half <= deposit / 2.0 + ULP / 2.0 * (1.0 / price)
  {
    MulPos(deposit, price);
    DivError(deposit * price, 2.0);
    var v := deposit * price / 2.0;
    DivClose(v, SplitMint(deposit, price).f, ULP / 2.0, ULP / 2.0, price);
    HalfOfProduct(deposit, price);
  }

  lemma HalfOfProduct(deposit: real, price: real)
    requires price > 0.0
    ensures deposit * price / 2.0 / price == deposit / 2.0
  {
    var h := deposit / 2.0;
    assert deposit * price / 2.0 == h * price;
    DivMul(h * price, price);
    assert (h * price / price - h) * price == 0.0;
  }
}
