/**
 * The two source files in their own form: globals and user records updated in place. Every method
 * is proved against the step functions the invariants are about. An exception is an aborted
 * transaction: None is returned and nothing has changed.
 */
module ProtocolObjects {
  import opened Reals
  import opened Options
  import opened StabilityPool
  import opened ProtocolCore
  import opened ProtocolWorld

  class SPUser {
    var ftokenBalance: real
    var spScaled: real
    var spIndexSnap: real

    constructor ()
      ensures Value() == NEW_USER
    {
      ftokenBalance, spScaled, spIndexSnap := 0.0, 0.0, 0.0;
    }

    function Value(): User
      reads this
    {
      User(ftokenBalance, spScaled, spIndexSnap)
    }
  }

  class RebalancePool {
    var spScale: real
    var spScaledTotal: real
    var spIndexSuiScaled: real
    var spObligationSui: real

    constructor ()
      ensures Value() == EMPTY_POOL
    {
      spScale, spScaledTotal, spIndexSuiScaled, spObligationSui := 1.0, 0.0, 0.0, 0.0;
    }

    function Value(): Pool
      reads this
    {
      Pool(spScale, spScaledTotal, spIndexSuiScaled, spObligationSui)
    }

    method ControllerRebalance(fBurn: real, payoutSui: real) returns (burned: real, indexed: real)
      modifies this
      ensures Rebalanced(Value(), burned, indexed)
           == StabilityPool.ControllerRebalance(old(Value()), fBurn, payoutSui)
    {
      ghost var p := Value();
      var fTotalPre := spScaledTotal * spScale;
      assert fTotalPre == TotalF(p);
      if fTotalPre <= EPS || fBurn <= EPS {
        return 0.0, 0.0;
      }
      var allowedBurn := Min(fBurn, SP_MAX_BURN_FRAC_CALL * fTotalPre);
      if allowedBurn <= EPS {
        return 0.0, 0.0;
      }
      var suiPerF := payoutSui / fBurn;
      var allowedPayout := suiPerF * allowedBurn;
      if spScaledTotal <= EPS {
        return 0.0, 0.0;
      }
      var delta := allowedPayout / spScaledTotal;
      spIndexSuiScaled := spIndexSuiScaled + delta;
      spObligationSui := spObligationSui + allowedPayout;
      var frac := allowedBurn / fTotalPre;
      spScale := spScale * Max(0.0, 1.0 - frac);
      hide TotalF, Min, Max;
      assert allowedPayout == payoutSui / fBurn * allowedBurn;
      assert Value() == Pool(p.scale * Max(0.0, 1.0 - allowedBurn / TotalF(p)), p.scaledTotal,
                             p.index + allowedPayout / p.scaledTotal, p.obligation + allowedPayout);
      return allowedBurn, allowedPayout;
    }

    method SettleUser(user: SPUser) returns (owed: real)
      modifies user
      ensures user.Value() == Settled(old(user.Value()), Value())
      ensures owed == Max(0.0, PendingOf(old(user.Value()), Value()))
    {
      owed := user.spScaled * (spIndexSuiScaled - user.spIndexSnap);
      user.spIndexSnap := spIndexSuiScaled;
      owed := Max(0.0, owed);
    }

    /** The settled amount is computed and dropped, as in the source. */
    method Deposit(user: SPUser, fAmount: real) returns (ok: bool)
      modifies this, user
      ensures ok == (old(Value()).scale != 0.0 && CanDeposit(old(user.Value()), fAmount))
      ensures ok ==> user.Value() == Deposited(old(user.Value()), old(Value()), fAmount)
      ensures ok ==> Value() == old(Value()).(scaledTotal := old(Value()).scaledTotal + fAmount / old(Value()).scale)
      ensures !ok ==> user.Value() == old(user.Value()) && Value() == old(Value())
    {
      if fAmount <= 0.0 || user.ftokenBalance < fAmount || spScale == 0.0 {
        return false;
      }
      var newly := SettleUser(user);
      var scaled := fAmount / spScale;
      user.ftokenBalance := user.ftokenBalance - fAmount;
      user.spScaled := user.spScaled + scaled;
      spScaledTotal := spScaledTotal + scaled;
      return true;
    }

    method Withdraw(user: SPUser, fAmount: real) returns (ok: bool)
      modifies this, user
      ensures ok == (old(Value()).scale != 0.0 && CanWithdraw(old(user.Value()), old(Value()), fAmount))
      ensures ok ==> user.Value() == Withdrawn(old(user.Value()), old(Value()), fAmount)
      ensures ok ==> Value() == old(Value()).(scaledTotal := old(Value()).scaledTotal - fAmount / old(Value()).scale)
      ensures !ok ==> user.Value() == old(user.Value()) && Value() == old(Value())
    {
      if fAmount <= 0.0 || spScale == 0.0 {
        return false;
      }
      var before := user.spIndexSnap;
      var newly := SettleUser(user);
      var available := user.spScaled * spScale;
      if fAmount > available + EPS {
        user.spIndexSnap := before;
        return false;
      }
      var scaled := fAmount / spScale;
      user.spScaled := user.spScaled - scaled;
      spScaledTotal := spScaledTotal - scaled;
      user.ftokenBalance := user.ftokenBalance + fAmount;
      return true;
    }

    /** Pays through the core; the obligation falls by what was paid. */
    method Claim(user: SPUser, core: StableCore) returns (paid: Option<real>)
      requires core.pool == this
      modifies this, user, core
      ensures var owed := Claimable(old(user.Value()), old(Value()));
        if owed > 0.0 && !CanPay(old(core.Value()), owed) then
          paid == None && Value() == old(Value()) && core.Value() == old(core.Value())
          && user.Value() == old(user.Value())
        else
          && paid == Some(owed)
          && core.Value() == Paid(old(core.Value()), owed)
          && Value() == (if owed == 0.0 then old(Value()) else Released(old(Value()), owed))
          && user.Value() == Settled(old(user.Value()), old(Value()))
    {
      var before := user.spIndexSnap;
      var owed := SettleUser(user);
      if owed <= EPS {
        return Some(0.0);
      }
      var ok := core.ClaimPaySui(owed);
      if !ok {
        user.spIndexSnap := before;
        return None;
      }
      spObligationSui := spObligationSui - owed;
      if spObligationSui < 0.0 {
        spObligationSui := 0.0;
      }
      return Some(owed);
    }

    method IndexHarvest(yieldSui: real) returns (bounty: real)
      modifies this
      ensures if CanHarvest(old(Value()), yieldSui)
        then Value() == Harvested(old(Value()), yieldSui) && bounty == Bounty(yieldSui)
        else Value() == old(Value()) && bounty == 0.0
    {
      if yieldSui <= EPS || spScaledTotal <= EPS {
        return 0.0;
      }
      bounty := yieldSui * HARVEST_BOUNTY_BPS / BPS;
      var toPool := yieldSui - bounty;
      var delta := toPool / spScaledTotal;
      spIndexSuiScaled := spIndexSuiScaled + delta;
      spObligationSui := spObligationSui + toPool;
    }
  }

  class StableCore {
    const pool: RebalancePool
    var reserveSui: real
    var nf: real
    var nx: real
    var px: real
    var pSui: real
    var lastOracleTs: int

    constructor (pool: RebalancePool)
      ensures this.pool == pool && Value() == NEW_CORE
    {
      this.pool := pool;
      reserveSui, nf, nx, px, pSui, lastOracleTs := 0.0, 0.0, 0.0, 0.0, 0.0, 0;
    }

    function Value(): Core
      reads this
    {
      Core(reserveSui, nf, nx, px, pSui, lastOracleTs)
    }

    function ReserveNetSui(): real
      reads this, pool
    {
      NetReserve(Value(), pool.Value())
    }

    method RefreshPx()
      modifies this`px
      ensures Value() == UpdatePx(old(Value()))
    {
      if nx <= EPS {
        return;
      }
      px := Max(0.0, (reserveSui * pSui - nf * PF_FIXED) / Max(EPS, nx));
    }

    method UpdateFromOracle(pNew: real, nowTs: int) returns (ok: bool)
      modifies this
      ensures ok == OracleAccepts(old(Value()), pNew, nowTs)
      ensures Value() == if ok then Repriced(old(Value()), pNew, nowTs) else old(Value())
    {
      if lastOracleTs != 0 {
        if nowTs - lastOracleTs > MAX_STALENESS_SEC {
          return false;
        }
        var rel := Abs(pNew / Max(EPS, pSui) - 1.0);
        if rel > MAX_REL_STEP {
          return false;
        }
      }
      pSui, lastOracleTs := pNew, nowTs;
      RefreshPx();
      return true;
    }

    method MintFToken(depositSui: real) returns (issued: Option<real>)
      modifies this
      ensures if depositSui <= 0.0 then issued == None && Value() == old(Value())
        else issued == Some(IssuedF(old(Value()), depositSui)) && Value() == Minted(old(Value()), depositSui)
    {
      if depositSui <= 0.0 {
        return None;
      }
      reserveSui := reserveSui + depositSui;
      var issuedF := depositSui * pSui / PF_FIXED;
      assert issuedF == IssuedF(old(Value()), depositSui);
      nf := nf + issuedF;
      RefreshPx();
      return Some(issuedF);
    }

    method RedeemFToken(burnF: real) returns (out: Option<real>)
      modifies this
      ensures if CanRedeem(old(Value()), pool.Value(), burnF)
        then out == Some(SuiFor(old(Value()), burnF)) && Value() == Redeemed(old(Value()), burnF)
        else out == None && Value() == old(Value())
    {
      if burnF <= 0.0 || burnF > nf || pSui == 0.0 {
        return None;
      }
      var suiOut := burnF * PF_FIXED / pSui;
      if suiOut > ReserveNetSui() {
        return None;
      }
      reserveSui := reserveSui - suiOut;
      nf := nf - burnF;
      RefreshPx();
      return Some(suiOut);
    }

    /** None stands for the source's exceptions; the early returns give (0, 0). */
    method ProtocolRebalanceL3(targetCr: real) returns (r: Option<(real, real)>)
      modifies this, pool
      ensures if L3Raises(old(Value()), targetCr)
        then r == None && Value() == old(Value()) && pool.Value() == old(pool.Value())
        else r.Some? && L3Result(Value(), pool.Value(), r.value.0, r.value.1)
                     == L3Rebalance(old(Value()), old(pool.Value()), targetCr)
    {
      ghost var c, p := Value(), pool.Value();
      if pSui <= EPS {
        return None;
      }
      if nf <= EPS {
        return Some((0.0, 0.0));
      }
      if targetCr <= 0.0 {
        return None;
      }
      var nfTarget := ReserveNetSui() * pSui / (targetCr * PF_FIXED);
      assert nfTarget == NetReserve(c, p) * c.price / (targetCr * PF_FIXED);
      var need := Max(0.0, nf - nfTarget);
      assert need == NeedForTarget(c, p, targetCr);
      if need <= EPS {
        return Some((0.0, 0.0));
      }
      var capSp := SP_MAX_BURN_FRAC_CALL * (pool.spScaledTotal * pool.spScale);
      assert capSp == BurnCap(p);
      var fBurn := Max(0.0, Min(Min(need, capSp), nf));
      if fBurn <= EPS {
        return Some((0.0, 0.0));
      }
      assert fBurn == L3Quote(c, p, targetCr);
      var payoutSui := fBurn * PF_FIXED / pSui;
      assert payoutSui == SuiFor(c, fBurn);
      var burned, indexed := pool.ControllerRebalance(fBurn, payoutSui);
      assert Rebalanced(pool.Value(), burned, indexed) == StabilityPool.ControllerRebalance(p, fBurn, SuiFor(c, fBurn));
      assert Value() == c;
      if burned <= EPS {
        return Some((0.0, 0.0));
      }
      nf := nf - burned;
      RefreshPx();
      assert Value() == UpdatePx(c.(nf := c.nf - burned));
      return Some((burned, indexed));
    }

    method ClaimPaySui(amountSui: real) returns (ok: bool)
      modifies this
      ensures ok == CanPay(old(Value()), amountSui)
      ensures Value() == if ok then Paid(old(Value()), amountSui) else old(Value())
    {
      if amountSui <= 0.0 {
        return true;
      }
      if amountSui > reserveSui + EPS {
        return false;
      }
      reserveSui := reserveSui - amountSui;
      return true;
    }
  }
}
