/** The answers of the protocol's calls and what they leave behind, in amounts, dollars and SUI. */
module ProtocolCalls {
  import opened Reals
  import opened StabilityPool
  import opened ProtocolCore
  import opened ProtocolWorld
  import opened ProtocolInvariants
  import opened ProtocolSafety
  import opened UserSums

  /** A mint takes any positive deposit of a known user and issues its dollar value. */
  lemma MintAnswers(w: World, k: nat, sui: real)
    ensures var n := Step(w, Mint(k, sui));
      if k >= |w.users| || sui <= 0.0 then n == Next(w, Rejected)
      else
        && n.outcome == Amount(sui * w.core.price)
        && n.world.core.reserve == w.core.reserve + sui
        && n.world.core.nf == w.core.nf + sui * w.core.price
        && n.world.users == w.users[k := w.users[k].(free := w.users[k].free + sui * w.core.price)]
        && n.world.pool == w.pool && n.world.core.price == w.core.price
  {
    assert sui * w.core.price / PF_FIXED == sui * w.core.price;
  }

  /** A redeem is accepted exactly for fTokens the user has free and the reserve is worth after all promises. */
  lemma RedeemAnswers(w: World, k: nat, f: real)
    requires Inv(w)
    ensures var n := Step(w, Redeem(k, f));
      if k < |w.users| && 0.0 < f <= w.users[k].free && f <= (w.core.reserve - w.pool.obligation) * w.core.price
         && w.core.price > 0.0 && w.pool.obligation <= w.core.reserve then
        && n.outcome.Amount? && n.outcome.value * w.core.price == f
        && n.world.core.reserve == w.core.reserve - n.outcome.value && n.world.core.nf == w.core.nf - f
        && n.world.users == w.users[k := w.users[k].(free := w.users[k].free - f)]
        && n.world.pool == w.pool && n.world.core.price == w.core.price
      else n == Next(w, Rejected)
  {
    hide Inv;
    if k < |w.users| && 0.0 < f <= w.users[k].free {
      FreeWithinSupply(w, k);
      if w.core.price > 0.0 {
        WorthWithin(f, w.core.price, w.core.reserve - w.pool.obligation);
      } else {
        PriceNonNeg(w);
      }
    }
  }

  lemma PriceNonNeg(w: World)
    requires Inv(w)
    ensures w.core.price >= 0.0
  {
  }

  lemma FreeWithinSupply(w: World, k: nat)
    requires Inv(w) && k < |w.users|
    ensures w.users[k].free <= w.core.nf
  {
    SharesNonNeg(w);
    forall i | 0 <= i < |w.users| ensures Of(w.users[i], FreeTokens) >= 0.0 {
      assert UserOk(w.users[i], w.pool);
    }
    EntryAtMostSum(w.users, FreeTokens, k);
  }

  lemma WorthWithin(f: real, price: real, net: real)
    requires f > 0.0 && price > 0.0
    ensures f * PF_FIXED / price * price == f
    ensures f * PF_FIXED / price <= Max(0.0, net) <==> net >= 0.0 && f <= net * price
  {
    DivMul(f, price);
    DivPos(f, price);
    DivLeIff(f, price, net);
  }

  /** A claim settles dust unpaid, is refused beyond the reserve and its tolerance, and pays all else in full. */
  lemma ClaimAnswers(w: World, k: nat)
    requires Inv(w) && k < |w.users|
    ensures var owed := w.users[k].scaled * (w.pool.index - w.users[k].snap);
      var n := Step(w, Claim(k));
      if owed > 0.000000000001 && owed > w.core.reserve + 0.000000000001 then n == Next(w, Rejected)
      else
        var paid := if owed > 0.000000000001 then owed else 0.0;
        && n.outcome == Amount(paid)
        && n.world.core == w.core.(reserve := w.core.reserve - paid)
        && n.world.pool == w.pool.(obligation := w.pool.obligation - paid)
        && n.world.users == w.users[k := w.users[k].(snap := w.pool.index)]
  {
    PendingWithinObligation(w, k);
    hide Inv;
  }

  // ---------- Harvest ----------

  /** A harvest pays a hundredth to its caller and raises what is owed to each depositor by his part of the rest. */
  lemma HarvestAnswers(w: World, y: real, k: nat)
    requires k < |w.users|
    ensures var n := Step(w, Harvest(y));
      if y <= 0.000000000001 || w.pool.scaledTotal <= 0.000000000001 then n == Next(w, Amount(0.0))
      else
        && n.outcome == Amount(y / 100.0)
        && n.world.core == w.core && n.world.users == w.users
        && n.world.pool.obligation == w.pool.obligation + 0.99 * y
        && (PendingOf(w.users[k], n.world.pool) - PendingOf(w.users[k], w.pool)) * w.pool.scaledTotal
           == 0.99 * y * w.users[k].scaled
        && DepositOf(w.users[k], n.world.pool) == DepositOf(w.users[k], w.pool)
  {
    if CanHarvest(w.pool, y) {
      var d := (y - Bounty(y)) / w.pool.scaledTotal;
      DivMul(y - Bounty(y), w.pool.scaledTotal);
      var u := w.users[k];
      assert u.scaled * (w.pool.index + d - u.snap) - u.scaled * (w.pool.index - u.snap) == u.scaled * d;
      assert u.scaled * d * w.pool.scaledTotal == u.scaled * (d * w.pool.scaledTotal);
    }
  }

  // ---------- L3 ----------

  /** Half of what is in the pool. */
  function HalfPool(w: World): real {
    w.pool.scaledTotal * w.pool.scale / 2.0
  }

  /** The dollar value of the reserve after all promises. */
  function NetDollars(w: World): real {
    if w.pool.obligation <= w.core.reserve then (w.core.reserve - w.pool.obligation) * w.core.price else 0.0
  }

  /**
   * An L3 call fails without a price or, if there is supply, without a target. Otherwise it burns as
   * much as it takes for the net reserve held now to back what is left at the target, or half the pool
   * if that is less, and nothing at all where either is too little to count.
   */
  lemma L3Answers(w: World, target: real)
    requires Inv(w)
    ensures var n, nf, net, half := Step(w, L3(target)), w.core.nf, NetDollars(w), HalfPool(w);
      if w.core.price <= 0.000000000001 || (nf > 0.000000000001 && target <= 0.0) then n == Next(w, Rejected)
      else if nf <= 0.000000000001 || half <= 0.000000000001 || (nf - 0.000000000001) * target <= net then
        n == Next(w, Burned(0.0, 0.0))
      else
        && n.outcome.Burned? && 0.0 < n.outcome.f <= half
        && (n.outcome.f == half || (nf - n.outcome.f) * target == net)
        && (nf - n.outcome.f) * target >= net
        && n.outcome.sui * w.core.price == n.outcome.f
        && n.world.core.nf == nf - n.outcome.f && n.world.core.reserve == w.core.reserve
        && n.world.pool.obligation == w.pool.obligation + n.outcome.sui
        && HalfPool(n.world) == half - n.outcome.f / 2.0
        && n.world.users == w.users
  {
    hide Inv, L3Quote, L3Rebalance;
    if !L3Raises(w.core, target) {
      L3Effect(w, target);
      NetIsValue(w);
      QuoteIsNothingIff(w, target);
      if L3Quote(w.core, w.pool, target) != 0.0 {
        QuoteIsNeedOrCap(w, target);
        LeftAtTarget(w.core.nf, NetValue(w), HalfPool(w), target);
      }
    }
  }

  lemma NetIsValue(w: World)
    ensures NetDollars(w) == NetValue(w) && HalfPool(w) == BurnCap(w.pool)
  {
  }

  lemma QuoteIsNothingIff(w: World, target: real)
    requires Inv(w) && !L3Raises(w.core, target)
    ensures var nf := w.core.nf;
      L3Quote(w.core, w.pool, target) == 0.0
      <==> nf <= 0.000000000001 || BurnCap(w.pool) <= 0.000000000001
           || (nf - 0.000000000001) * target <= NetValue(w)
  {
    SharesNonNeg(w);
    hide Inv;
    if w.core.nf > EPS {
      assert target * PF_FIXED == target;
      DivGeIff(NetValue(w), target, w.core.nf - EPS);
    }
  }

  lemma LeftAtTarget(nf: real, net: real, half: real, target: real)
    requires target > 0.0
    ensures var b := Min(nf - net / target, half);
      (b == half || (nf - b) * target == net) && (nf - b) * target >= net
  {
    DivMul(net, target);
    var b := Min(nf - net / target, half);
    MulMono(net / target, nf - b, target);
  }

  /** The collateral ratio is what the net reserve is worth per fToken of debt. */
  lemma RatioMeans(w: World)
    requires w.core.nf >= EPS
    ensures CollateralRatio(w.core, w.pool) * w.core.nf == NetDollars(w)
  {
    DivMul(NetDollars(w), w.core.nf);
  }
}
