/**
 * Deferring the payment changes nothing in the end: burning through the pool and letting the
 * depositors claim leaves the core exactly where redeeming the same fTokens would.
 */
module DeferredPayment {
  import opened Reals
  import opened StabilityPool
  import opened ProtocolCore
  import opened ProtocolWorld
  import opened ProtocolInvariants
  import opened ProtocolSafety
  import opened UserSums
  import opened Options

  function L3s(targets: seq<real>): (ops: seq<Op>)
    ensures |ops| == |targets|
  {
    seq(|targets|, i requires 0 <= i < |targets| => L3(targets[i]))
  }

  function Claims(users: seq<nat>): (ops: seq<Op>)
    ensures |ops| == |users|
  {
    seq(|users|, i requires 0 <= i < |users| => Claim(users[i]))
  }

  /** The fTokens each of a run of L3 calls burned. */
  function BurnsOf(w: World, targets: seq<real>): seq<real> {
    if targets == [] then []
    else
      var n := |targets| - 1;
      var o := Step(Run(w, L3s(targets[..n])), L3(targets[n])).outcome;
      BurnsOf(w, targets[..n]) + [if o.Burned? then o.f else 0.0]
  }

  /** Redeeming the same amounts one after the other; None when a redemption is refused. */
  function RedeemRun(c: Core, p: Pool, burns: seq<real>): Option<Core> {
    if burns == [] then Some(c)
    else
      var n := |burns| - 1;
      match RedeemRun(c, p, burns[..n])
      case None => None
      case Some(d) =>
        if burns[n] == 0.0 then Some(d)
        else if CanRedeem(d, p, burns[n]) then Some(Redeemed(d, burns[n]))
        else None
  }

  /** The core d of the redeeming run, seen from the world v of the L3 run that began with p. */
  predicate SameNet(v: World, d: Core, p: Pool) {
    && d.nf == v.core.nf && d.nx == v.core.nx && d.price == v.core.price && d.lastTs == v.core.lastTs
    && d.reserve - p.obligation == v.core.reserve - v.pool.obligation
    && (v.core.nx <= EPS ==> d.px == v.core.px)
  }

  /**
   * Redeeming the same amounts is accepted throughout exactly when the L3 run ends solvent, and
   * then the two cores agree on supply and on the net reserve.
   */
  lemma {:induction false} L3RunIsRedeemRun(w: World, targets: seq<real>)
    requires Inv(w) && Solvent(w)
    ensures var d := RedeemRun(w.core, w.pool, BurnsOf(w, targets));
      && (d.Some? <==> Solvent(Run(w, L3s(targets))))
      && (d.Some? ==> SameNet(Run(w, L3s(targets)), d.value, w.pool))
  {
    hide SameNet, Solvent, Step;
    if targets == [] {
      SameNetAtStart(w);
    } else {
      var n := |targets| - 1;
      var u := Run(w, L3s(targets[..n]));
      L3RunFacts(w, targets[..n]);
      LastL3(w, targets);
      L3RunIsRedeemRun(w, targets[..n]);
      StaysInsolvent(u, targets[n]);
      var d := RedeemRun(w.core, w.pool, BurnsOf(w, targets[..n]));
      LastRedeem(w, targets);
      if d.Some? {
        L3IsRedeem(u, d.value, w.pool, targets[n]);
      }
    }
  }

  lemma SameNetAtStart(w: World)
    ensures SameNet(w, w.core, w.pool)
  {
  }

  /** An L3 call never makes an insolvent state solvent. */
  lemma StaysInsolvent(u: World, target: real)
    requires Inv(u)
    ensures Solvent(Step(u, L3(target)).world) ==> Solvent(u)
  {
    L3CallGrowsObligation(u, target);
  }

  lemma LastL3(w: World, targets: seq<real>)
    requires targets != []
    ensures var n := |targets| - 1;
      Run(w, L3s(targets)) == Step(Run(w, L3s(targets[..n])), L3(targets[n])).world
  {
    assert L3s(targets)[..|targets| - 1] == L3s(targets[..|targets| - 1]);
  }

  lemma LastRedeem(w: World, targets: seq<real>)
    requires targets != []
    ensures var n := |targets| - 1;
      var o := Step(Run(w, L3s(targets[..n])), L3(targets[n])).outcome;
      var b := if o.Burned? then o.f else 0.0;
      var d := RedeemRun(w.core, w.pool, BurnsOf(w, targets[..n]));
      RedeemRun(w.core, w.pool, BurnsOf(w, targets))
      == if d.None? || b == 0.0 then d
         else if CanRedeem(d.value, w.pool, b) then Some(Redeemed(d.value, b)) else None
  {
    hide Run, Step, CanRedeem, Redeemed;
    var n := |targets| - 1;
    var burns := BurnsOf(w, targets);
    assert burns[..|burns| - 1] == BurnsOf(w, targets[..n]);
  }

  /** L3 calls only move supply, pool and Px. */
  lemma {:induction false} L3RunFacts(w: World, targets: seq<real>)
    requires Inv(w)
    ensures var v := Run(w, L3s(targets));
      Inv(v) && v.core.reserve == w.core.reserve && v.forfeited == w.forfeited && v.users == w.users
  {
    if targets != [] {
      var n := |targets| - 1;
      L3RunFacts(w, targets[..n]);
      LastL3(w, targets);
      L3CallGrowsObligation(Run(w, L3s(targets[..n])), targets[n]);
    }
  }

  lemma L3CallGrowsObligation(u: World, target: real)
    requires Inv(u)
    ensures var v := Step(u, L3(target)).world;
      && Inv(v) && v.core.reserve == u.core.reserve && v.pool.obligation >= u.pool.obligation
      && v.forfeited == u.forfeited && v.users == u.users
  {
    StepKeepsInv(u, L3(target));
    if !L3Raises(u.core, target) {
      L3Effect(u, target);
      var r := L3Rebalance(u.core, u.pool, target);
      if r.burned > 0.0 {
        DivNonNeg(r.burned * PF_FIXED, u.core.price);
      }
    }
  }

  /** One L3 call from a solvent state against one redemption of the amount it burned. */
  lemma L3IsRedeem(u: World, d: Core, p: Pool, target: real)
    requires Inv(u) && SameNet(u, d, p) && Solvent(u)
    ensures var v := Step(u, L3(target));
      var b := if v.outcome.Burned? then v.outcome.f else 0.0;
      if b == 0.0 then SameNet(v.world, d, p) && Solvent(v.world)
      else (CanRedeem(d, p, b) <==> Solvent(v.world))
           && (CanRedeem(d, p, b) ==> SameNet(v.world, Redeemed(d, b), p))
  {
    if !L3Raises(u.core, target) {
      L3Effect(u, target);
      var b := L3Quote(u.core, u.pool, target);
      if b != 0.0 {
        L3Controller(u, target);
        assert SuiFor(d, b) == SuiFor(u.core, b);
      }
    }
  }

  /** A pending amount so small that a claim settles it away unpaid. */
  predicate Dust(u: User, p: Pool) {
    0.0 < PendingOf(u, p) <= EPS
  }

  /**
   * v is w after the users in ks have claimed: they are settled, the net reserve is the same, and
   * something was forfeited exactly if one of them had dust.
   */
  predicate ClaimedBy(w: World, ks: seq<nat>, v: World) {
    && v.core == w.core.(reserve := v.core.reserve)
    && v.pool == w.pool.(obligation := v.pool.obligation)
    && v.core.reserve - v.pool.obligation == w.core.reserve - w.pool.obligation
    && |v.users| == |w.users|
    && (forall i :: 0 <= i < |w.users| ==>
          v.users[i] == if i in ks then Settled(w.users[i], w.pool) else w.users[i])
    && v.forfeited >= w.forfeited
    && (v.forfeited == w.forfeited <==> NoneDusty(w, ks))
  }

  predicate NoneDusty(w: World, ks: seq<nat>) {
    forall i :: 0 <= i < |w.users| && i in ks ==> !Dust(w.users[i], w.pool)
  }

  /** Claims by any users in any order are all accepted in a solvent state. */
  lemma {:induction false} ClaimsPay(w: World, ks: seq<nat>)
    requires Inv(w) && Solvent(w)
    ensures var v := Run(w, Claims(ks));
      Inv(v) && Solvent(v) && ClaimedBy(w, ks, v)
  {
    hide Step, Inv, Solvent, ClaimedBy;
    if ks == [] {
      NobodyClaimed(w);
    } else {
      var n := |ks| - 1;
      var u := Run(w, Claims(ks[..n]));
      ClaimsPay(w, ks[..n]);
      assert Claims(ks)[..n] == Claims(ks[..n]);
      assert Run(w, Claims(ks)) == Step(u, Claim(ks[n])).world;
      StepKeepsInv(u, Claim(ks[n]));
      ClaimPays(u, ks[n]);
      NextClaimedBy(w, ks, u, Step(u, Claim(ks[n])).world);
    }
  }

  lemma NobodyClaimed(w: World)
    ensures ClaimedBy(w, [], w)
  {
  }

  lemma NextClaimedBy(w: World, ks: seq<nat>, u: World, v: World)
    requires ks != [] && ClaimedBy(w, ks[..|ks| - 1], u)
    requires ClaimedBy(u, [ks[|ks| - 1]], v)
    ensures ClaimedBy(w, ks, v)
  {
    var n := |ks| - 1;
    var k := ks[n];
    assert ks == ks[..n] + [k];
    DustOfOneMore(w, ks[..n], k);
    DustOfOneMore(u, [], k);
    assert [] + [k] == [k];
    hide PendingOf, Settled, Dust;
    if k < |w.users| {
      SettledHasNoDust(w.users[k], w.pool, u.pool);
      assert u.users[k] == if k in ks[..n] then Settled(w.users[k], w.pool) else w.users[k];
      assert Dust(u.users[k], u.pool) <==> k !in ks[..n] && Dust(w.users[k], w.pool);
    }
  }

  lemma SettledHasNoDust(x: User, p: Pool, q: Pool)
    requires q.index == p.index
    ensures !Dust(Settled(x, p), q)
    ensures Dust(x, q) <==> Dust(x, p)
  {
    var d, z := q.index - x.snap, q.index - Settled(x, p).snap;
    assert PendingOf(x, q) == x.scaled * d;
    assert PendingOf(x, p) == x.scaled * d;
    assert z == 0.0;
    assert PendingOf(Settled(x, p), q) == x.scaled * z;
  }

  lemma DustOfOneMore(w: World, ks: seq<nat>, k: nat)
    ensures NoneDusty(w, ks + [k])
       <==> NoneDusty(w, ks) && (k < |w.users| ==> k in ks || !Dust(w.users[k], w.pool))
  {
    assert k in ks + [k];
    assert forall i :: i in ks + [k] <==> i in ks || i == k;
    if k < |w.users| && !(k in ks || !Dust(w.users[k], w.pool)) {
      assert !NoneDusty(w, ks + [k]);
    }
  }

  lemma ClaimPays(u: World, k: nat)
    requires Inv(u) && Solvent(u)
    ensures Solvent(Step(u, Claim(k)).world)
    ensures ClaimedBy(u, [k], Step(u, Claim(k)).world)
  {
    if k < |u.users| {
      PendingWithinObligation(u, k);
    }
  }

  lemma {:induction false} SettledOwesNothing(us: seq<User>, index: real)
    requires forall i :: 0 <= i < |us| ==> us[i].snap == index
    ensures Sum(us, Pending(index)) == 0.0
  {
    if us != [] {
      SettledOwesNothing(us[..|us| - 1], index);
    }
  }

  /** No user's pending amount is so small that a claim would settle it away unpaid. */
  predicate NoDust(w: World) {
    forall i :: 0 <= i < |w.users| ==> !Dust(w.users[i], w.pool)
  }

  /**
   * From a solvent state where nobody has anything pending: a run of L3 calls, followed by claims
   * of all users in any order, leaves the core as the direct redemptions would as soon as Px is
   * recomputed, exactly when the L3 calls left the state solvent and nobody with dust.
   */
  lemma DeferredEqualsDirect(w: World, targets: seq<real>, ks: seq<nat>)
    requires Inv(w) && Solvent(w) && w.pool.obligation == w.forfeited
    requires forall k :: 0 <= k < |w.users| ==> k in ks
    ensures var u := Run(w, L3s(targets));
      var v := Run(u, Claims(ks));
      var d := RedeemRun(w.core, w.pool, BurnsOf(w, targets));
      d.Some? && UpdatePx(v.core) == UpdatePx(d.value) <==> Solvent(u) && NoDust(u)
  {
    hide Inv, Run, RedeemRun, ClaimedBy, SameNet;
    var u := Run(w, L3s(targets));
    L3RunIsRedeemRun(w, targets);
    L3RunFacts(w, targets);
    if Solvent(u) {
      ClaimsPay(u, ks);
      NothingLeftToClaim(w, u, Run(u, Claims(ks)), ks, RedeemRun(w.core, w.pool, BurnsOf(w, targets)).value);
    }
  }

  /** Deposits of a and b are all there is, nothing is owed, and the price is $1. */
  predicate TwoDepositors(w: World, reserve: real, a: real, b: real) {
    && w.core == Core(reserve, a + b, 0.0, 0.0, 1.0, 1)
    && w.pool == Pool(1.0, a + b, 0.0, 0.0)
    && |w.users| == 2 && w.users[0] == User(0.0, a, 0.0) && w.users[1] == User(0.0, b, 0.0)
    && w.forfeited == 0.0
  }

  lemma TwoDepositorsSums(w: World, reserve: real, a: real, b: real)
    requires TwoDepositors(w, reserve, a, b)
    ensures Sum(w.users, ScaledShares) == a + b
    ensures Sum(w.users, FreeTokens) == 0.0
    ensures Sum(w.users, Pending(w.pool.index)) == 0.0
  {
    hide Sum;
    SumOfTwo(w.users, ScaledShares);
    SumOfTwo(w.users, FreeTokens);
    SumOfTwo(w.users, Pending(w.pool.index));
  }

  lemma TwoDepositorsInv(w: World, reserve: real, a: real, b: real)
    requires TwoDepositors(w, reserve, a, b) && a >= 0.0 && b >= 0.0 && reserve >= 0.0
    ensures Inv(w) && Solvent(w)
  {
    hide Sum;
    TwoDepositorsSums(w, reserve, a, b);
    assert TotalF(w.pool) == a + b;
    assert UserOk(w.users[0], w.pool) && UserOk(w.users[1], w.pool);
  }

  /** 200 SUI behind a deposit of 100 fTokens and one of EPS. */
  predicate TinyDeposit(w: World) {
    TwoDepositors(w, 200.0, 100.0, EPS)
  }

  lemma TinyDepositInv(w: World)
    requires TinyDeposit(w)
    ensures Inv(w) && Solvent(w) && L3Quote(w.core, w.pool, 4.0) == 50.0 + EPS / 2.0
  {
    hide Inv, L3Quote;
    TwoDepositorsInv(w, 200.0, 100.0, EPS);
    TinyDepositQuote(w);
  }

  lemma TinyDepositQuote(w: World)
    requires TinyDeposit(w)
    ensures L3Quote(w.core, w.pool, 4.0) == 50.0 + EPS / 2.0
  {
  }

  lemma SumOfTwo(us: seq<User>, m: Measure)
    requires |us| == 2
    ensures Sum(us, m) == Of(us[0], m) + Of(us[1], m)
  {
    SumOne(us[..1], m);
  }

  /** There one L3 call owes the small depositor dust, and deferring is not the same as redeeming. */
  lemma DustIsLost(w: World, targets: seq<real>, ks: seq<nat>)
    requires TinyDeposit(w) && |targets| == 1 && targets[0] == 4.0
    requires forall k :: 0 <= k < |w.users| ==> k in ks
    ensures var u := Run(w, L3s(targets));
      var v := Run(u, Claims(ks));
      var d := RedeemRun(w.core, w.pool, BurnsOf(w, targets));
      Solvent(u) && d.Some? && UpdatePx(v.core) != UpdatePx(d.value)
  {
    hide Inv, Step, Run, RedeemRun, NoDust;
    TinyDepositInv(w);
    OneL3(w, targets);
    TinyDepositDust(w, targets[0]);
    L3RunIsRedeemRun(w, targets);
    DeferredEqualsDirect(w, targets, ks);
  }

  lemma OneL3(w: World, targets: seq<real>)
    requires |targets| == 1
    ensures Run(w, L3s(targets)) == Step(w, L3(targets[0])).world
  {
    hide Step;
    LastL3(w, targets);
    assert L3s(targets[..0]) == [];
  }

  lemma TinyDepositDust(w: World, target: real)
    requires TinyDeposit(w) && target == 4.0
    ensures var u := Step(w, L3(target)).world; Solvent(u) && !NoDust(u)
  {
    hide L3Quote, Inv, Solvent, NoDust, Step;
    TinyDepositInv(w);
    TinyBurn(w, target);
  }

  lemma TinyBurn(w: World, target: real)
    requires TinyDeposit(w) && Inv(w) && !L3Raises(w.core, target)
    requires L3Quote(w.core, w.pool, target) == 50.0 + EPS / 2.0
    ensures var u := Step(w, L3(target)).world; Solvent(u) && !NoDust(u)
  {
    hide L3Quote, Inv, L3Rebalance, ControllerRebalance;
    L3Effect(w, target);
    L3Controller(w, target);
    BurnMovesIndex(w, target);
    DustAfter(w, Step(w, L3(target)).world);
  }

  lemma BurnMovesIndex(w: World, target: real)
    requires Inv(w) && !L3Raises(w.core, target) && L3Quote(w.core, w.pool, target) != 0.0
    ensures var u := Step(w, L3(target)).world;
      u.users == w.users
      && (u.pool.index - w.pool.index) * w.pool.scaledTotal * w.core.price
         == L3Quote(w.core, w.pool, target) * PF_FIXED
  {
    L3Controller(w, target);
  }

  lemma DustAfter(w: World, u: World)
    requires TinyDeposit(w) && u.users == w.users
    requires (u.pool.index - w.pool.index) * w.pool.scaledTotal == 50.0 + EPS / 2.0
    ensures !NoDust(u)
  {
    assert u.pool.index * (100.0 + EPS) == 0.5 * (100.0 + EPS);
    assert u.pool.index == 0.5;
    assert Dust(u.users[1], u.pool);
  }

  /** After all claims the two reserves differ by what was forfeited as dust. */
  lemma NothingLeftToClaim(w: World, u: World, v: World, ks: seq<nat>, d: Core)
    requires w.pool.obligation == w.forfeited == u.forfeited && |u.users| == |w.users|
    requires Inv(v) && ClaimedBy(u, ks, v) && SameNet(u, d, w.pool)
    requires forall k :: 0 <= k < |w.users| ==> k in ks
    ensures UpdatePx(v.core) == UpdatePx(d) <==> NoDust(u)
  {
    SettledOwesNothing(v.users, v.pool.index);
    assert v.pool.obligation == v.forfeited;
    assert d.reserve - v.core.reserve == u.forfeited - v.forfeited;
    if d.reserve == v.core.reserve {
      SamePx(v.core, d);
    }
  }

  lemma SamePx(c: Core, d: Core)
    requires d.nf == c.nf && d.nx == c.nx && d.price == c.price && d.lastTs == c.lastTs
    requires d.reserve == c.reserve && (c.nx <= EPS ==> d.px == c.px)
    ensures UpdatePx(c) == UpdatePx(d)
  {
  }
}
