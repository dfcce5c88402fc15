/** The protocol as a state machine: core, pool and all users, one call at a time. */
module ProtocolWorld {
  import opened Reals
  import opened StabilityPool
  import opened ProtocolCore

  /**
   * The whole state. `forfeited` is bookkeeping of this model: the SUI that deposit, withdraw and
   * dust claims settle and drop, which the source computes as `newly` and never stores.
   */
  datatype World = World(core: Core, pool: Pool, users: seq<User>, forfeited: real)

  const GENESIS := World(NEW_CORE, EMPTY_POOL, [], 0.0)

  datatype Op =
    | Join
    | Mint(user: nat, sui: real)
    | Redeem(user: nat, f: real)
    | Oracle(price: real, now: int)
    | L3(target: real)
    | Deposit(user: nat, f: real)
    | Withdraw(user: nat, f: real)
    | Claim(user: nat)
    | Harvest(yieldSui: real)

  /** What the caller sees: an aborted transaction, an amount, or an L3 result. */
  datatype Outcome = Rejected | Amount(value: real) | Burned(f: real, sui: real)

  datatype Next = Next(world: World, outcome: Outcome)

  predicate Knows(w: World, op: Op) {
    !(op.Mint? || op.Redeem? || op.Deposit? || op.Withdraw? || op.Claim?) || op.user < |w.users|
  }

  /** One call. An exception aborts the transaction and leaves the state as it was. */
  function Step(w: World, op: Op): Next {
    if !Knows(w, op) then Next(w, Rejected)
    else match op
      case Join => Next(w.(users := w.users + [NEW_USER]), Amount(0.0))
      case Mint(k, sui) => MintStep(w, k, sui)
      case Redeem(k, f) => RedeemStep(w, k, f)
      case Oracle(price, now) =>
        if OracleAccepts(w.core, price, now) then
          Next(w.(core := Repriced(w.core, price, now)), Amount(price))
        else Next(w, Rejected)
      case L3(target) =>
        if L3Raises(w.core, target) then Next(w, Rejected)
        else
          var r := L3Rebalance(w.core, w.pool, target);
          Next(w.(core := r.core, pool := r.pool), Burned(r.burned, r.indexed))
      case Deposit(k, f) => DepositStep(w, k, f)
      case Withdraw(k, f) => WithdrawStep(w, k, f)
      case Claim(k) => ClaimStep(w, k)
      case Harvest(y) =>
        if CanHarvest(w.pool, y) then Next(w.(pool := Harvested(w.pool, y)), Amount(Bounty(y)))
        else Next(w, Amount(0.0))
  }

  function MintStep(w: World, k: nat, sui: real): Next
    requires k < |w.users|
  {
    if sui <= 0.0 then Next(w, Rejected)
    else
      var f := IssuedF(w.core, sui);
      var u := w.users[k];
      Next(w.(core := Minted(w.core, sui), users := w.users[k := u.(free := u.free + f)]), Amount(f))
  }

  /** Only fTokens held outside the pool can be handed in. */
  function RedeemStep(w: World, k: nat, f: real): Next
    requires k < |w.users|
  {
    var u := w.users[k];
    if f > u.free || !CanRedeem(w.core, w.pool, f) then Next(w, Rejected)
    else Next(w.(core := Redeemed(w.core, f), users := w.users[k := u.(free := u.free - f)]),
              Amount(SuiFor(w.core, f)))
  }

  function DepositStep(w: World, k: nat, f: real): Next
    requires k < |w.users|
  {
    var u := w.users[k];
    if w.pool.scale == 0.0 || !CanDeposit(u, f) then Next(w, Rejected)
    else
      Next(w.(pool := w.pool.(scaledTotal := w.pool.scaledTotal + f / w.pool.scale),
              users := w.users[k := Deposited(u, w.pool, f)],
              forfeited := w.forfeited + PendingOf(u, w.pool)),
           Amount(f))
  }

  function WithdrawStep(w: World, k: nat, f: real): Next
    requires k < |w.users|
  {
    var u := w.users[k];
    if w.pool.scale == 0.0 || !CanWithdraw(u, w.pool, f) then Next(w, Rejected)
    else
      Next(w.(pool := w.pool.(scaledTotal := w.pool.scaledTotal - f / w.pool.scale),
              users := w.users[k := Withdrawn(u, w.pool, f)],
              forfeited := w.forfeited + PendingOf(u, w.pool)),
           Amount(f))
  }

  function ClaimStep(w: World, k: nat): Next
    requires k < |w.users|
  {
    var u := w.users[k];
    var owed := Claimable(u, w.pool);
    if owed == 0.0 then
      Next(w.(users := w.users[k := Settled(u, w.pool)],
              forfeited := w.forfeited + PendingOf(u, w.pool)),
           Amount(0.0))
    else if !CanPay(w.core, owed) then Next(w, Rejected)
    else
      Next(w.(core := Paid(w.core, owed), pool := Released(w.pool, owed),
              users := w.users[k := Settled(u, w.pool)]),
           Amount(owed))
  }

  function Run(w: World, ops: seq<Op>): World {
    if ops == [] then w else Step(Run(w, ops[..|ops| - 1]), ops[|ops| - 1]).world
  }
}
