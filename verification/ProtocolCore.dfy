/** What one call of the protocol core (docs/pseudocode_stable.py) computes, on values. */
module ProtocolCore {
  import opened Reals
  import opened StabilityPool

  const PF_FIXED := 1.0
  const MAX_STALENESS_SEC := 3600
  const MAX_REL_STEP := 0.20

  datatype Core = Core(reserve: real, nf: real, nx: real, px: real, price: real, lastTs: int)

  const NEW_CORE := Core(0.0, 0.0, 0.0, 0.0, 0.0, 0)

  /** Reserve net of what the pool has promised but not paid. */
  function NetReserve(c: Core, p: Pool): real {
    Max(0.0, c.reserve - p.obligation)
  }

  function CollateralRatio(c: Core, p: Pool): real {
    NetReserve(c, p) * c.price / Max(EPS, c.nf * PF_FIXED)
  }

  function UpdatePx(c: Core): Core {
    if c.nx <= EPS then c
    else c.(px := Max(0.0, (c.reserve * c.price - c.nf * PF_FIXED) / Max(EPS, c.nx)))
  }

  function Abs(x: real): real {
    if x < 0.0 then -x else x
  }

  predicate OracleAccepts(c: Core, price: real, now: int) {
    c.lastTs != 0 ==>
      now - c.lastTs <= MAX_STALENESS_SEC && Abs(price / Max(EPS, c.price) - 1.0) <= MAX_REL_STEP
  }

  function Repriced(c: Core, price: real, now: int): Core {
    UpdatePx(c.(price := price, lastTs := now))
  }

  function IssuedF(c: Core, sui: real): real {
    sui * c.price / PF_FIXED
  }

  function Minted(c: Core, sui: real): Core {
    UpdatePx(c.(reserve := c.reserve + sui, nf := c.nf + IssuedF(c, sui)))
  }

  function SuiFor(c: Core, burnF: real): real
    requires c.price != 0.0
  {
    burnF * PF_FIXED / c.price
  }

  predicate CanRedeem(c: Core, p: Pool, burnF: real) {
    0.0 < burnF <= c.nf && c.price != 0.0 && SuiFor(c, burnF) <= NetReserve(c, p)
  }

  function Redeemed(c: Core, burnF: real): Core
    requires c.price != 0.0
  {
    UpdatePx(c.(reserve := c.reserve - SuiFor(c, burnF), nf := c.nf - burnF))
  }

  /** fTokens to burn so that the ratio reaches the target with the net reserve held constant. */
  function NeedForTarget(c: Core, p: Pool, target: real): real
    requires target > 0.0
  {
    Max(0.0, c.nf - NetReserve(c, p) * c.price / (target * PF_FIXED))
  }

  /** The L3 entry checks that raise an exception. */
  predicate L3Raises(c: Core, target: real) {
    c.price <= EPS || (c.nf > EPS && target <= 0.0)
  }

  /** The burn an L3 call asks of the pool, or 0 when one of its early returns is taken. */
  function L3Quote(c: Core, p: Pool, target: real): real
    requires !L3Raises(c, target)
  {
    if c.nf <= EPS then 0.0
    else
      var need := NeedForTarget(c, p, target);
      if need <= EPS then 0.0
      else
        var f := Max(0.0, Min(Min(need, BurnCap(p)), c.nf));
        if f <= EPS then 0.0 else f
  }

  datatype L3Result = L3Result(core: Core, pool: Pool, burned: real, indexed: real)

  function L3Rebalance(c: Core, p: Pool, target: real): L3Result
    requires !L3Raises(c, target)
  {
    var f := L3Quote(c, p, target);
    if f == 0.0 then L3Result(c, p, 0.0, 0.0)
    else
      var r := ControllerRebalance(p, f, SuiFor(c, f));
      if r.burned <= EPS then L3Result(c, r.pool, 0.0, 0.0)
      else L3Result(UpdatePx(c.(nf := c.nf - r.burned)), r.pool, r.burned, r.indexed)
  }

  predicate CanPay(c: Core, sui: real) {
    sui <= 0.0 || sui <= c.reserve + EPS
  }

  function Paid(c: Core, sui: real): Core {
    if sui <= 0.0 then c else c.(reserve := c.reserve - sui)
  }
}
