/** What one call of the stability pool (docs/rebalance_pool.py) computes, on values. */
module StabilityPool {
  import opened Reals

  const EPS := 0.000000000001
  const BPS := 10000.0
  const HARVEST_BOUNTY_BPS := 100.0
  const SP_MAX_BURN_FRAC_CALL := 0.5

  /** A depositor: free fTokens, scaled shares and the index at the last settlement. */
  datatype User = User(free: real, scaled: real, snap: real)

  /** The pool's four globals. */
  datatype Pool = Pool(scale: real, scaledTotal: real, index: real, obligation: real)

  /** What the controller hook returns, next to the pool it leaves behind. */
  datatype Rebalanced = Rebalanced(pool: Pool, burned: real, indexed: real)

  const EMPTY_POOL := Pool(1.0, 0.0, 0.0, 0.0)

  const NEW_USER := User(0.0, 0.0, 0.0)

  function TotalF(p: Pool): real {
    p.scaledTotal * p.scale
  }

  function BurnCap(p: Pool): real {
    SP_MAX_BURN_FRAC_CALL * TotalF(p)
  }

  /** fTokens a user could take out now. */
  function DepositOf(u: User, p: Pool): real {
    u.scaled * p.scale
  }

  /** SUI a user has accrued since the last settlement. */
  function PendingOf(u: User, p: Pool): real {
    u.scaled * (p.index - u.snap)
  }

  function Settled(u: User, p: Pool): User {
    u.(snap := p.index)
  }

  function ControllerRebalance(p: Pool, fBurn: real, payout: real): Rebalanced {
    var total := TotalF(p);
    if total <= EPS || fBurn <= EPS then
      Rebalanced(p, 0.0, 0.0)
    else
      var burn := Min(fBurn, SP_MAX_BURN_FRAC_CALL * total);
      if burn <= EPS || p.scaledTotal <= EPS then
        Rebalanced(p, 0.0, 0.0)
      else
        var pay := payout / fBurn * burn;
        Rebalanced(
          p.(index := p.index + pay / p.scaledTotal,
             obligation := p.obligation + pay,
             scale := p.scale * Max(0.0, 1.0 - burn / total)),
          burn, pay)
  }

  predicate CanDeposit(u: User, amount: real) {
    0.0 < amount <= u.free
  }

  function Deposited(u: User, p: Pool, amount: real): User
    requires p.scale != 0.0
  {
    User(u.free - amount, u.scaled + amount / p.scale, p.index)
  }

  /** The source accepts a request that exceeds the deposit by at most EPS. */
  predicate CanWithdraw(u: User, p: Pool, amount: real) {
    0.0 < amount <= DepositOf(u, p) + EPS
  }

  function Withdrawn(u: User, p: Pool, amount: real): User
    requires p.scale != 0.0
  {
    User(u.free + amount, u.scaled - amount / p.scale, p.index)
  }

  /** What a claim asks the core to pay: dust up to EPS is settled away, not paid. */
  function Claimable(u: User, p: Pool): real {
    var owed := Max(0.0, PendingOf(u, p));
    if owed <= EPS then 0.0 else owed
  }

  /** The obligation after paying `owed`, with the source's guard against drift. */
  function Released(p: Pool, owed: real): Pool {
    p.(obligation := Max(0.0, p.obligation - owed))
  }

  predicate CanHarvest(p: Pool, yieldSui: real) {
    yieldSui > EPS && p.scaledTotal > EPS
  }

  function Bounty(yieldSui: real): real {
    yieldSui * HARVEST_BOUNTY_BPS / BPS
  }

  function Harvested(p: Pool, yieldSui: real): Pool
    requires CanHarvest(p, yieldSui)
  {
    var toPool := yieldSui - Bounty(yieldSui);
    p.(index := p.index + toPool / p.scaledTotal, obligation := p.obligation + toPool)
  }
}
