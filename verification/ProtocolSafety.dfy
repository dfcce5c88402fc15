/**
 * Solvency, the collateral ratio and the scale over whole runs, with the exact conditions under
 * which the calls that can break them do not.
 */
module ProtocolSafety {
  import opened Reals
  import opened StabilityPool
  import opened ProtocolCore
  import opened ProtocolWorld
  import opened ProtocolInvariants
  import opened UserSums

  /** The reserve covers everything promised to depositors. */
  predicate Solvent(w: World) {
    w.core.reserve >= w.pool.obligation
  }

  function NetValue(w: World): real {
    NetReserve(w.core, w.pool) * w.core.price
  }

  /**
   * The collateral an L3 call needs on entry: enough to redeem half the pool, or a ratio of at
   * least target / (1 + target).
   */
  predicate L3Covered(w: World, target: real) {
    || NetValue(w) >= BurnCap(w.pool) * PF_FIXED
    || NetValue(w) * (1.0 + target) >= target * w.core.nf * PF_FIXED
  }

  /** Which calls keep the reserve above the obligation; only L3 and harvest can fail to. */
  predicate KeepsCover(w: World, op: Op) {
    match op
    case L3(target) =>
      || L3Raises(w.core, target)
      || L3Quote(w.core, w.pool, target) == 0.0
      || L3Covered(w, target)
    case Harvest(y) =>
      CanHarvest(w.pool, y) ==> w.core.reserve - w.pool.obligation >= y - Bounty(y)
    case _ => true
  }

  /** From a solvent state a call stays solvent exactly when it is covered on entry. */
  lemma StepSolventIff(w: World, op: Op)
    requires Inv(w) && Solvent(w)
    ensures Solvent(Step(w, op).world) <==> KeepsCover(w, op)
  {
    match op
    case L3(target) =>
      if !L3Raises(w.core, target) {
        L3SolventIff(w, target);
      }
    case Redeem(k, f) =>
    case Claim(k) =>
      if k < |w.users| {
        PendingWithinObligation(w, k);
      }
    case _ =>
  }

  lemma L3SolventIff(w: World, target: real)
    requires Inv(w) && Solvent(w) && !L3Raises(w.core, target)
    ensures Solvent(Step(w, L3(target)).world)
       <==> L3Quote(w.core, w.pool, target) == 0.0 || L3Covered(w, target)
  {
    hide Inv, Solvent, NetValue, L3Quote, Step;
    SolventIfBurnCovered(w, target);
    if L3Quote(w.core, w.pool, target) != 0.0 {
      QuoteIsNeedOrCap(w, target);
      NeedCovered(NetValue(w), w.core.nf, target);
    }
  }

  /** An L3 call stays solvent exactly when the net collateral is worth what it burns. */
  lemma SolventIfBurnCovered(w: World, target: real)
    requires Inv(w) && Solvent(w) && !L3Raises(w.core, target)
    ensures var b := L3Quote(w.core, w.pool, target);
      Solvent(Step(w, L3(target)).world) <==> b == 0.0 || b <= NetValue(w)
  {
    hide Inv, L3Quote, L3Rebalance;
    L3Effect(w, target);
    var b := L3Quote(w.core, w.pool, target);
    if b != 0.0 {
      L3Controller(w, target);
      DivLeIff(b * PF_FIXED, w.core.price, NetReserve(w.core, w.pool));
    }
  }

  lemma QuoteIsNeedOrCap(w: World, target: real)
    requires Inv(w) && !L3Raises(w.core, target) && L3Quote(w.core, w.pool, target) != 0.0
    ensures target > 0.0
    ensures L3Quote(w.core, w.pool, target)
         == Min(w.core.nf - NetValue(w) / target, BurnCap(w.pool))
  {
    SharesNonNeg(w);
    assert target * PF_FIXED == target;
    var need := NeedForTarget(w.core, w.pool, target);
    assert need == w.core.nf - NetValue(w) / target;
    assert BurnCap(w.pool) <= w.core.nf;
    assert L3Quote(w.core, w.pool, target) == Max(0.0, Min(Min(need, BurnCap(w.pool)), w.core.nf));
  }

  lemma NeedCovered(v: real, nf: real, target: real)
    requires target > 0.0
    ensures nf - v / target <= v <==> v * (1.0 + target) >= target * nf
  {
  }

  /** Net collateral worth half of the supply is always cover enough for an L3 call. */
  lemma HalfCollateralCovers(w: World, target: real)
    requires Inv(w) && NetValue(w) >= w.core.nf * PF_FIXED / 2.0
    ensures L3Covered(w, target)
  {
    SharesNonNeg(w);
  }

  /** All f fTokens are one user's deposit, nothing is owed, and the price is $1. */
  predicate OneDepositor(w: World, reserve: real, f: real) {
    && w.core == Core(reserve, f, 0.0, 0.0, 1.0, 1)
    && w.pool == Pool(1.0, f, 0.0, 0.0)
    && |w.users| == 1 && w.users[0] == User(0.0, f, 0.0) && w.forfeited == 0.0
  }

  lemma OneDepositorSums(w: World, reserve: real, f: real)
    requires OneDepositor(w, reserve, f)
    ensures Sum(w.users, ScaledShares) == f
    ensures Sum(w.users, FreeTokens) == 0.0
    ensures Sum(w.users, Pending(w.pool.index)) == 0.0
  {
    hide Sum;
    SumOne(w.users, ScaledShares);
    SumOne(w.users, FreeTokens);
    SumOne(w.users, Pending(w.pool.index));
  }

  lemma OneDepositorInv(w: World, reserve: real, f: real)
    requires OneDepositor(w, reserve, f) && f >= 0.0 && reserve >= 0.0
    ensures Inv(w) && Solvent(w) && NetValue(w) == reserve
  {
    hide Sum;
    OneDepositorSums(w, reserve, f);
    assert TotalF(w.pool) == f;
    assert UserOk(w.users[0], w.pool);
  }

  /** 100 fTokens backed by 10 SUI. */
  predicate Thin(w: World) {
    OneDepositor(w, 10.0, 100.0)
  }

  lemma ThinInv(w: World)
    requires Thin(w)
    ensures Inv(w) && Solvent(w) && NetValue(w) == 10.0
  {
    hide Inv, Solvent, NetValue;
    OneDepositorInv(w, 10.0, 100.0);
  }

  lemma ThinQuote(w: World)
    requires Thin(w)
    ensures L3Quote(w.core, w.pool, 2.0) == 50.0 && !L3Covered(w, 2.0)
  {
  }

  /** Below that, an L3 call can promise SUI the reserve does not hold, and the claim then fails. */
  lemma UncoveredL3BreaksSolvency(w: World)
    requires Thin(w)
    ensures Inv(w) && Solvent(w) && !KeepsCover(w, L3(2.0))
    ensures var v := Step(w, L3(2.0)).world;
      !Solvent(v) && Step(v, Claim(0)).outcome == Rejected
  {
    ThinInv(w);
    ThinQuote(w);
    L3SolventIff(w, 2.0);
    L3Controller(w, 2.0);
    var v := Step(w, L3(2.0)).world;
    assert v.pool.index * 100.0 == 50.0;
    OverdrawnClaim(v);
  }

  lemma OverdrawnClaim(v: World)
    requires |v.users| == 1 && PendingOf(v.users[0], v.pool) == 50.0 && v.core.reserve == 10.0
    ensures Step(v, Claim(0)).outcome == Rejected
  {
  }

  /** In the same state a harvest of 20 SUI that brings no SUI in promises more than the reserve holds. */
  lemma UnpairedHarvestBreaksSolvency(w: World)
    requires Thin(w)
    ensures Inv(w) && Solvent(w) && !Solvent(Step(w, Harvest(20.0)).world)
  {
    ThinInv(w);
    StepSolventIff(w, Harvest(20.0));
  }

  predicate CoveredRun(w: World, ops: seq<Op>) {
    ops == [] ||
    (CoveredRun(w, ops[..|ops| - 1]) && KeepsCover(Run(w, ops[..|ops| - 1]), ops[|ops| - 1]))
  }

  /** A run of covered calls ends solvent, and there every claim by a known user is honoured. */
  lemma {:induction false} CoveredRunSolvent(w: World, ops: seq<Op>, k: nat)
    requires Inv(w) && Solvent(w) && AllowedRun(w, ops) && CoveredRun(w, ops)
    ensures Solvent(Run(w, ops))
    ensures k < |Run(w, ops).users| ==>
      Step(Run(w, ops), Claim(k)).outcome == Amount(Claimable(Run(w, ops).users[k], Run(w, ops).pool))
  {
    if ops != [] {
      var n := |ops| - 1;
      CoveredRunSolvent(w, ops[..n], 0);
      RunKeepsInv(w, ops[..n]);
      StepSolventIff(Run(w, ops[..n]), ops[n]);
    }
    RunKeepsInv(w, ops);
    if k < |Run(w, ops).users| {
      PendingWithinObligation(Run(w, ops), k);
    }
  }

  // ---------- Collateral ratio ----------

  /**
   * An L3 call that burns raises the ratio, or keeps it, exactly when the ratio was at least 1 on
   * entry (or already 0); from 1 upwards it also stops at the target.
   */
  lemma L3RatioIff(w: World, target: real)
    requires Inv(w) && Solvent(w) && !L3Raises(w.core, target)
    requires L3Quote(w.core, w.pool, target) != 0.0
    ensures var before := CollateralRatio(w.core, w.pool);
      var v := Step(w, L3(target)).world;
      var after := CollateralRatio(v.core, v.pool);
      && (after >= before <==> before >= 1.0 || before == 0.0)
      && (before >= 1.0 ==> after <= target)
  {
    L3Effect(w, target);
    SharesNonNeg(w);
    QuoteIsNeedOrCap(w, target);
    L3Controller(w, target);
    var b := L3Quote(w.core, w.pool, target);
    NetValueAfterL3(w, target);
    MulNonNeg(NetReserve(w.core, w.pool), w.core.price);
    RatioAfterBurn(NetValue(w), w.core.nf, b, target);
    RatioForm(w);
    RatioForm(Step(w, L3(target)).world);
  }

  /** 100 fTokens backed by 80 SUI: ratio 0.8. */
  predicate BelowPar(w: World) {
    OneDepositor(w, 80.0, 100.0)
  }

  lemma BelowParInv(w: World)
    requires BelowPar(w)
    ensures Inv(w) && Solvent(w) && CollateralRatio(w.core, w.pool) == 0.8
    ensures L3Quote(w.core, w.pool, 2.0) == 50.0
  {
    hide Inv;
    OneDepositorInv(w, 80.0, 100.0);
  }

  /** There the call that is to raise the ratio lowers it. */
  lemma L3LowersRatioBelowPar(w: World)
    requires BelowPar(w)
    ensures Inv(w) && Solvent(w)
    ensures var v := Step(w, L3(2.0)).world;
      CollateralRatio(v.core, v.pool) < CollateralRatio(w.core, w.pool)
  {
    BelowParInv(w);
    L3RatioIff(w, 2.0);
  }

  lemma RatioForm(w: World)
    requires w.core.nf > EPS
    ensures CollateralRatio(w.core, w.pool) == NetValue(w) / w.core.nf
  {
  }

  lemma NetValueAfterL3(w: World, target: real)
    requires Inv(w) && Solvent(w) && !L3Raises(w.core, target)
    requires L3Quote(w.core, w.pool, target) != 0.0
    ensures NetValue(Step(w, L3(target)).world)
         == Max(0.0, NetValue(w) - L3Quote(w.core, w.pool, target))
  {
    hide Inv, L3Quote, L3Rebalance;
    L3Effect(w, target);
    L3Controller(w, target);
    var v := Step(w, L3(target)).world;
    NetOfPayment(NetReserve(w.core, w.pool), v.pool.obligation - w.pool.obligation, w.core.price);
  }

  lemma NetOfPayment(net: real, paid: real, price: real)
    requires price >= 0.0
    ensures Max(0.0, net - paid) * price == Max(0.0, net * price - paid * price)
  {
    assert (net - paid) * price == net * price - paid * price;
    assert (paid - net) * price == -((net - paid) * price);
    if net >= paid {
      MulNonNeg(net - paid, price);
    } else {
      MulNonNeg(paid - net, price);
    }
  }

  /** The arithmetic: taking b off collateral v and supply n. */
  lemma RatioAfterBurn(v: real, n: real, b: real, target: real)
    requires 0.0 < b < n && v >= 0.0 && target > 0.0 && b <= n - v / target
    ensures Max(0.0, v - b) / (n - b) >= v / n <==> v / n >= 1.0 || v / n == 0.0
    ensures v / n >= 1.0 ==> Max(0.0, v - b) / (n - b) <= target
  {
    DivGeIff(v, n, 1.0);
    DivLeIff(v, n, 0.0);
    DivNonNeg(v, n);
    if v >= b {
      RatioRisesIff(v, n, b);
      if v >= n {
        RatioCapped(v, n, b, target);
      }
    }
  }

  lemma RatioRisesIff(v: real, n: real, b: real)
    requires 0.0 < b < n && v >= b
    ensures (v - b) / (n - b) >= v / n <==> v >= n
  {
    DivCompare(v, n, v - b, n - b);
    assert v * (n - b) == v * n - v * b;
    assert (v - b) * n == v * n - n * b;
    if n > v {
      MulPos(n - v, b);
    } else {
      MulNonNeg(v - n, b);
    }
  }

  lemma RatioCapped(v: real, n: real, b: real, target: real)
    requires 0.0 < b < n && target > 0.0 && b <= n - v / target
    ensures (v - b) / (n - b) <= target
  {
    DivLeIff(v, target, n - b);
    DivLeIff(v - b, n - b, target);
  }

  // ---------- Scale ----------

  /** x times 2^-n. */
  function Halved(x: real, n: nat): real {
    if n == 0 then x else Halved(x, n - 1) / 2.0
  }

  predicate Burns(w: World, op: Op) {
    var o := Step(w, op).outcome;
    o.Burned? && o.f > 0.0
  }

  function BurnCount(w: World, ops: seq<Op>): nat {
    if ops == [] then 0
    else
      BurnCount(w, ops[..|ops| - 1]) + if Burns(Run(w, ops[..|ops| - 1]), ops[|ops| - 1]) then 1 else 0
  }

  /** After n burns the scale is at least 2^-n of what it was, so dividing by it is always defined. */
  lemma {:induction false} ScaleAfterBurns(w: World, ops: seq<Op>)
    requires Inv(w) && AllowedRun(w, ops)
    ensures 0.0 < Halved(w.pool.scale, BurnCount(w, ops)) <= Run(w, ops).pool.scale <= w.pool.scale
  {
    assert w.pool.scale > 0.0;
    if ops != [] {
      hide Step, Inv, Allowed, Burns, Halved;
      var n := |ops| - 1;
      var mid := Run(w, ops[..n]);
      ScaleAfterBurns(w, ops[..n]);
      RunKeepsInv(w, ops[..n]);
      ScaleAfterCall(mid, ops[n]);
      HalvedOnce(w.pool.scale, BurnCount(w, ops[..n]));
    }
  }

  lemma HalvedOnce(x: real, n: nat)
    ensures Halved(x, n + 1) == Halved(x, n) / 2.0
  {
  }

  lemma ScaleAfterCall(v: World, op: Op)
    requires Inv(v)
    ensures var after := Step(v, op).world.pool.scale;
      (if Burns(v, op) then v.pool.scale / 2.0 else v.pool.scale) <= after <= v.pool.scale
  {
    if op.L3? && !L3Raises(v.core, op.target) {
      L3Effect(v, op.target);
    }
  }

  // ---------- The withdrawal tolerance ----------

  /** An accepted withdrawal leaves a non-negative share count exactly when it asks for no more
      than the deposit; the source's tolerance admits the rest. */
  lemma WithdrawLeavesSharesIff(w: World, k: nat, f: real)
    requires Inv(w) && k < |w.users| && CanWithdraw(w.users[k], w.pool, f)
    ensures Step(w, Withdraw(k, f)).world.users[k].scaled >= 0.0
       <==> f <= DepositOf(w.users[k], w.pool)
  {
    DivLeIff(f, w.pool.scale, w.users[k].scaled);
  }

  /** A user with no deposit at all can withdraw up to EPS of fTokens. */
  lemma ToleranceOverdraws(w: World, k: nat)
    requires Inv(w) && k < |w.users| && w.users[k].scaled == 0.0
    ensures Step(w, Withdraw(k, EPS)).outcome == Amount(EPS)
    ensures Step(w, Withdraw(k, EPS)).world.users[k].scaled < 0.0
  {
  }

  /** Such a user exists: anyone who has just joined. */
  lemma NewcomerOverdraws(w: World)
    requires Inv(w)
    ensures var k := |w.users|;
      var v := Step(w, Join).world;
      Inv(v) && Step(v, Withdraw(k, EPS)).world.users[k].scaled < 0.0
  {
  }
}
