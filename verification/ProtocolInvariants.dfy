/**
 * What every call keeps: shares, obligation and supply are the sums over the users that the
 * source never forms.
 */
module ProtocolInvariants {
  import opened Reals
  import opened StabilityPool
  import opened ProtocolCore
  import opened ProtocolWorld
  import opened UserSums

  predicate UserOk(u: User, p: Pool) {
    u.free >= 0.0 && u.scaled >= 0.0 && u.snap <= p.index
  }

  /** The bookkeeping identities. */
  predicate Inv(w: World) {
    && 0.0 < w.pool.scale <= 1.0
    && (forall i :: 0 <= i < |w.users| ==> UserOk(w.users[i], w.pool))
    && w.pool.scaledTotal == Sum(w.users, ScaledShares)
    && w.pool.obligation == Sum(w.users, Pending(w.pool.index)) + w.forfeited
    && w.forfeited >= 0.0 && w.pool.index >= 0.0
    && w.core.nf == Sum(w.users, FreeTokens) + TotalF(w.pool)
    && w.core.price >= 0.0
  }

  /**
   * What callers must respect: a withdrawal does not use the EPS tolerance, and the first price,
   * which no check guards, is not negative.
   */
  predicate Allowed(w: World, op: Op) {
    && (op.Withdraw? && op.user < |w.users| ==> op.f <= DepositOf(w.users[op.user], w.pool))
    && (op.Oracle? && w.core.lastTs == 0 ==> op.price >= 0.0)
  }

  predicate AllowedRun(w: World, ops: seq<Op>) {
    ops == [] ||
    (AllowedRun(w, ops[..|ops| - 1]) && Allowed(Run(w, ops[..|ops| - 1]), ops[|ops| - 1]))
  }

  lemma GenesisInv()
    ensures Inv(GENESIS)
  {
  }

  // ---------- The controller hook ----------

  /** Whether a burn passes the guards on the total and on the capped amount. */
  predicate Burnable(p: Pool, fBurn: real) {
    TotalF(p) > EPS && Min(fBurn, BurnCap(p)) > EPS
  }

  /** Taking burn out of a total by shrinking the price of a share. */
  lemma ScaleShrinks(scale: real, shares: real, burn: real)
    requires scale > 0.0 && shares * scale > 0.0 && 0.0 < burn <= 0.5 * (shares * scale)
    ensures var left := 1.0 - burn / (shares * scale);
      left >= 0.5 && shares * (scale * left) == shares * scale - burn && scale / 2.0 <= scale * left <= scale
  {
    var total := shares * scale;
    var q := burn / total;
    DivMul(burn, total);
    DivLeIff(burn, total, 0.5);
    DivPos(burn, total);
    var left := 1.0 - q;
    MulMono(0.5, left, scale);
    MulMono(left, 1.0, scale);
    assert shares * (scale * left) == total * left;
    assert total * left == total - q * total;
  }

  /** The part of a payout that goes with the part of the burn, spread over the shares. */
  lemma PayoutSpreads(payout: real, fBurn: real, burn: real, shares: real)
    requires payout >= 0.0 && fBurn > 0.0 && burn > 0.0 && shares > 0.0
    ensures var pay := payout / fBurn * burn;
      pay >= 0.0 && pay * fBurn == payout * burn && pay / shares >= 0.0 && pay / shares * shares == pay
  {
    var each := payout / fBurn;
    DivMul(payout, fBurn);
    DivNonNeg(payout, fBurn);
    MulNonNeg(each, burn);
    assert each * burn * fBurn == each * fBurn * burn;
    DivMul(each * burn, shares);
    DivNonNeg(each * burn, shares);
  }

  /** With at most one fToken to the share, a total above EPS means more than EPS shares. */
  lemma SharesAboveTotal(p: Pool)
    requires 0.0 < p.scale <= 1.0 && p.scaledTotal >= 0.0
    ensures TotalF(p) <= p.scaledTotal
  {
    MulMono(p.scale, 1.0, p.scaledTotal);
    assert p.scale * p.scaledTotal == p.scaledTotal * p.scale;
  }

  /** The hook without its guards, which decide nothing once the burn is possible. */
  lemma ControllerResult(p: Pool, fBurn: real, payout: real)
    requires 0.0 < p.scale <= 1.0 && p.scaledTotal >= 0.0
    ensures var r := ControllerRebalance(p, fBurn, payout);
      if !Burnable(p, fBurn) then r == Rebalanced(p, 0.0, 0.0)
      else
        var burn := Min(fBurn, BurnCap(p));
        var pay := payout / fBurn * burn;
        var left := 1.0 - burn / TotalF(p);
        r == Rebalanced(Pool(p.scale * left, p.scaledTotal, p.index + pay / p.scaledTotal, p.obligation + pay),
                        burn, pay)
  {
    hide TotalF;
    SharesAboveTotal(p);
    if Burnable(p, fBurn) {
      DivLeIff(Min(fBurn, BurnCap(p)), TotalF(p), 0.5);
    }
  }

  /**
   * A burn of b takes exactly b out of the pool, shrinks the scale at most by half, and spreads
   * exactly the indexed SUI over the shares. The source's guards on the scaled total and on a
   * negative factor never decide anything.
   */
  lemma ControllerEffect(p: Pool, fBurn: real, payout: real)
    requires 0.0 < p.scale <= 1.0 && p.scaledTotal >= 0.0 && payout >= 0.0
    ensures var r := ControllerRebalance(p, fBurn, payout);
      && TotalF(r.pool) == TotalF(p) - r.burned
      && r.pool.scaledTotal == p.scaledTotal
      && p.scale / 2.0 <= r.pool.scale <= p.scale
      && r.pool.obligation == p.obligation + r.indexed
      && (r.pool.index - p.index) * p.scaledTotal == r.indexed
      && r.pool.index >= p.index
      && 0.0 <= r.burned <= BurnCap(p)
      && (r.burned > 0.0 <==> TotalF(p) > EPS && Min(fBurn, BurnCap(p)) > EPS)
      && (r.burned > 0.0 ==> r.burned == Min(fBurn, BurnCap(p)) && r.indexed * fBurn == payout * r.burned)
      && (r.burned == 0.0 ==> r.pool == p && r.indexed == 0.0)
  {
    hide ControllerRebalance;
    ControllerResult(p, fBurn, payout);
    if Burnable(p, fBurn) {
      var burn := Min(fBurn, BurnCap(p));
      SharesAboveTotal(p);
      ScaleShrinks(p.scale, p.scaledTotal, burn);
      PayoutSpreads(payout, fBurn, burn, p.scaledTotal);
      IndexGrows(p.index, payout / fBurn * burn / p.scaledTotal, p.scaledTotal);
    }
  }

  lemma IndexGrows(index: real, d: real, shares: real)
    ensures (index + d - index) * shares == d * shares
  {
  }

  // ---------- One call ----------

  /** Every allowed call keeps the identities. */
  lemma StepKeepsInv(w: World, op: Op)
    requires Inv(w) && Allowed(w, op)
    ensures Inv(Step(w, op).world)
  {
    if Step(w, op).outcome != Rejected {
      match op
      case Join => JoinKeeps(w);
      case Mint(k, sui) => MintKeeps(w, k, sui);
      case Redeem(k, f) => RedeemKeeps(w, k, f);
      case Oracle(price, now) => OracleKeeps(w, price, now);
      case L3(target) => L3Keeps(w, target);
      case Deposit(k, f) => DepositKeeps(w, k, f);
      case Withdraw(k, f) => WithdrawKeeps(w, k, f);
      case Claim(k) => ClaimKeeps(w, k);
      case Harvest(y) => if CanHarvest(w.pool, y) { HarvestKeeps(w, y); }
    }
  }

  lemma JoinKeeps(w: World)
    requires Inv(w)
    ensures Inv(w.(users := w.users + [NEW_USER]))
  {
  }

  lemma MintKeeps(w: World, k: nat, sui: real)
    requires Inv(w) && k < |w.users| && sui > 0.0
    ensures Inv(MintStep(w, k, sui).world)
  {
    var u := w.users[k];
    var v := u.(free := u.free + IssuedF(w.core, sui));
    MulNonNeg(sui, w.core.price);
    UpdateSums(w, k, v);
  }

  lemma RedeemKeeps(w: World, k: nat, f: real)
    requires Inv(w) && k < |w.users|
    ensures Inv(RedeemStep(w, k, f).world)
  {
    var u := w.users[k];
    UpdateSums(w, k, u.(free := u.free - f));
  }

  lemma OracleKeeps(w: World, price: real, now: int)
    requires Inv(w) && OracleAccepts(w.core, price, now)
    requires w.core.lastTs == 0 ==> price >= 0.0
    ensures Inv(w.(core := Repriced(w.core, price, now)))
  {
  }

  lemma DepositKeeps(w: World, k: nat, f: real)
    requires Inv(w) && k < |w.users|
    ensures Inv(DepositStep(w, k, f).world)
  {
    var u := w.users[k];
    if CanDeposit(u, f) {
      MoveKeeps(w, k, f);
    }
  }

  lemma WithdrawKeeps(w: World, k: nat, f: real)
    requires Inv(w) && k < |w.users| && f <= DepositOf(w.users[k], w.pool)
    ensures Inv(WithdrawStep(w, k, f).world)
  {
    var u := w.users[k];
    if CanWithdraw(u, w.pool, f) {
      assert -f / w.pool.scale == -(f / w.pool.scale);
      MoveKeeps(w, k, -f);
    }
  }

  /** Moving f from a user's free balance into the pool, or out of it when f is negative. */
  lemma MoveKeeps(w: World, k: nat, f: real)
    requires Inv(w) && k < |w.users|
    requires -DepositOf(w.users[k], w.pool) <= f <= w.users[k].free
    ensures Inv(w.(pool := w.pool.(scaledTotal := w.pool.scaledTotal + f / w.pool.scale),
                   users := w.users[k := Deposited(w.users[k], w.pool, f)],
                   forfeited := w.forfeited + PendingOf(w.users[k], w.pool)))
  {
    hide Sum;
    var u := w.users[k];
    var s := f / w.pool.scale;
    assert s * w.pool.scale == f;
    assert UserOk(u, w.pool);
    MulNonNeg(u.scaled, w.pool.index - u.snap);
    DivGeIff(f, w.pool.scale, -u.scaled);
    UpdateSums(w, k, Deposited(u, w.pool, f));
    assert (w.pool.scaledTotal + s) * w.pool.scale == TotalF(w.pool) + f;
  }

  /** What replacing one user's record does to the three sums, leaving everyone else in order. */
  lemma UpdateSums(w: World, k: nat, v: User)
    requires Inv(w) && k < |w.users|
    ensures var us := w.users[k := v];
      && Sum(us, ScaledShares) == w.pool.scaledTotal - w.users[k].scaled + v.scaled
      && Sum(us, FreeTokens) == w.core.nf - TotalF(w.pool) - w.users[k].free + v.free
      && Sum(us, Pending(w.pool.index))
         == w.pool.obligation - w.forfeited - PendingOf(w.users[k], w.pool) + PendingOf(v, w.pool)
      && (UserOk(v, w.pool) ==> forall i :: 0 <= i < |us| ==> UserOk(us[i], w.pool))
  {
    SumUpdate(w.users, k, v, ScaledShares);
    SumUpdate(w.users, k, v, FreeTokens);
    SumUpdate(w.users, k, v, Pending(w.pool.index));
  }

  /** What any one user has pending never exceeds the obligation: the clamp never acts. */
  lemma PendingWithinObligation(w: World, k: nat)
    requires Inv(w) && k < |w.users|
    ensures 0.0 <= PendingOf(w.users[k], w.pool) <= w.pool.obligation - w.forfeited
    ensures Released(w.pool, Claimable(w.users[k], w.pool)).obligation
         == w.pool.obligation - Claimable(w.users[k], w.pool)
  {
    var m := Pending(w.pool.index);
    forall i | 0 <= i < |w.users| ensures Of(w.users[i], m) >= 0.0 {
      assert UserOk(w.users[i], w.pool);
      MulNonNeg(w.users[i].scaled, w.pool.index - w.users[i].snap);
    }
    EntryAtMostSum(w.users, m, k);
  }

  lemma ClaimKeeps(w: World, k: nat)
    requires Inv(w) && k < |w.users|
    ensures Inv(ClaimStep(w, k).world)
  {
    hide Sum;
    var u := w.users[k];
    PendingWithinObligation(w, k);
    assert UserOk(u, w.pool);
    UpdateSums(w, k, Settled(u, w.pool));
  }

  /** Raising index and obligation together, as a burn and a harvest both do. */
  lemma IndexRaiseKeeps(w: World, d: real, p: Pool)
    requires Inv(w) && d >= 0.0
    requires 0.0 < p.scale <= 1.0 && p.scaledTotal == w.pool.scaledTotal
    requires p.index == w.pool.index + d
    requires p.obligation == w.pool.obligation + d * w.pool.scaledTotal
    ensures p.obligation == Sum(w.users, Pending(p.index)) + w.forfeited
    ensures forall i :: 0 <= i < |w.users| ==> UserOk(w.users[i], p)
  {
    SumPending(w.users, w.pool.index, d);
    forall i | 0 <= i < |w.users| ensures UserOk(w.users[i], p) {
      assert UserOk(w.users[i], w.pool);
    }
  }

  lemma HarvestKeeps(w: World, y: real)
    requires Inv(w) && CanHarvest(w.pool, y)
    ensures Inv(w.(pool := Harvested(w.pool, y)))
  {
    var toPool := y - Bounty(y);
    assert toPool == y * 0.99;
    var d := toPool / w.pool.scaledTotal;
    DivMul(toPool, w.pool.scaledTotal);
    DivNonNeg(toPool, w.pool.scaledTotal);
    IndexRaiseKeeps(w, d, Harvested(w.pool, y));
  }

  lemma SharesNonNeg(w: World)
    requires Inv(w)
    ensures w.pool.scaledTotal >= 0.0 && TotalF(w.pool) >= 0.0
    ensures TotalF(w.pool) <= w.core.nf
  {
    forall i | 0 <= i < |w.users|
      ensures Of(w.users[i], ScaledShares) >= 0.0 && Of(w.users[i], FreeTokens) >= 0.0
    {
      assert UserOk(w.users[i], w.pool);
    }
    SumNonNeg(w.users, ScaledShares);
    SumNonNeg(w.users, FreeTokens);
    MulNonNeg(w.pool.scaledTotal, w.pool.scale);
  }

  /** What an L3 call does to supply, pool and obligation in a state that keeps the identities. */
  lemma L3Effect(w: World, target: real)
    requires Inv(w) && !L3Raises(w.core, target)
    ensures var r := L3Rebalance(w.core, w.pool, target);
      && r.burned == L3Quote(w.core, w.pool, target)
      && r.indexed * w.core.price == r.burned * PF_FIXED
      && (r.burned > 0.0 ==> r.indexed == SuiFor(w.core, r.burned))
      && r.core.nf == w.core.nf - r.burned
      && r.core.reserve == w.core.reserve && r.core.price == w.core.price
      && r.core.nx == w.core.nx && r.core.lastTs == w.core.lastTs
      && TotalF(r.pool) == TotalF(w.pool) - r.burned
      && r.pool.obligation == w.pool.obligation + r.indexed
      && w.pool.scale / 2.0 <= r.pool.scale <= w.pool.scale
      && r.pool.scaledTotal == w.pool.scaledTotal
      && (r.burned == 0.0 ==> r.core == w.core && r.pool == w.pool && r.indexed == 0.0)
      && (r.burned == 0.0 || EPS < r.burned <= BurnCap(w.pool))
  {
    if L3Quote(w.core, w.pool, target) != 0.0 {
      L3Controller(w, target);
    }
  }

  /** An L3 request is already within the pool's cap, so the pool takes it in full. */
  lemma L3Controller(w: World, target: real)
    requires Inv(w) && !L3Raises(w.core, target) && L3Quote(w.core, w.pool, target) != 0.0
    ensures var f := L3Quote(w.core, w.pool, target);
      var r := ControllerRebalance(w.pool, f, SuiFor(w.core, f));
      && EPS < f <= BurnCap(w.pool) && f <= w.core.nf
      && r.burned == f && r.indexed == SuiFor(w.core, f)
      && r.indexed * w.core.price == f * PF_FIXED
      && TotalF(r.pool) == TotalF(w.pool) - f
      && r.pool.obligation == w.pool.obligation + r.indexed
      && w.pool.scale / 2.0 <= r.pool.scale <= w.pool.scale
      && r.pool.scaledTotal == w.pool.scaledTotal
      && r.pool.index >= w.pool.index
      && (r.pool.index - w.pool.index) * w.pool.scaledTotal == r.indexed
  {
    var f := L3Quote(w.core, w.pool, target);
    SharesNonNeg(w);
    DivNonNeg(f * PF_FIXED, w.core.price);
    var payout := SuiFor(w.core, f);
    ControllerEffect(w.pool, f, payout);
    var r := ControllerRebalance(w.pool, f, payout);
    SameQuotient(r.indexed, payout, f);
    DivMul(f * PF_FIXED, w.core.price);
  }

  lemma SameQuotient(x: real, y: real, f: real)
    requires f != 0.0 && x * f == y * f
    ensures x == y
  {
  }

  lemma L3Keeps(w: World, target: real)
    requires Inv(w) && !L3Raises(w.core, target)
    ensures Inv(Step(w, L3(target)).world)
  {
    var r := L3Rebalance(w.core, w.pool, target);
    L3Effect(w, target);
    if r.burned > 0.0 {
      L3Controller(w, target);
      IndexRaiseKeeps(w, r.pool.index - w.pool.index, r.pool);
    }
  }

  // ---------- Runs ----------

  /** Every run of allowed calls keeps the identities. */
  lemma {:induction false} RunKeepsInv(w: World, ops: seq<Op>)
    requires Inv(w) && AllowedRun(w, ops)
    ensures Inv(Run(w, ops))
  {
    if ops != [] {
      var n := |ops| - 1;
      RunKeepsInv(w, ops[..n]);
      StepKeepsInv(Run(w, ops[..n]), ops[n]);
    }
  }
}
