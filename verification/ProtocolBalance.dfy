/**
 * Two checks the core leaves to its callers: the sign of the first price, and the balance equation
 * between the reserve and the two tokens, which a claim moves away from.
 */
module ProtocolBalance {
  import opened Reals
  import opened StabilityPool
  import opened ProtocolCore
  import opened ProtocolWorld
  import opened ProtocolInvariants
  import opened ProtocolSafety
  import opened UserSums

  // ---------- The first price ----------

  /** An accepted price keeps the identities exactly when it is not a negative first price. */
  lemma OracleKeepsIff(w: World, price: real, now: int)
    requires Inv(w) && OracleAccepts(w.core, price, now)
    ensures Inv(Step(w, Oracle(price, now)).world) <==> !(w.core.lastTs == 0 && price < 0.0)
  {
    if w.core.lastTs != 0 {
      NoStepBelowZero(w.core, price, now);
    }
    if price >= 0.0 {
      OracleKeeps(w, price, now);
    }
  }

  /** After the first price the step limit keeps prices positive. */
  lemma NoStepBelowZero(c: Core, price: real, now: int)
    requires c.lastTs != 0 && OracleAccepts(c, price, now)
    ensures price > 0.0
  {
    var m := Max(EPS, c.price);
    assert price / m >= 0.8;
    DivMul(price, m);
    MulMono(0.8, price / m, m);
  }

  /** Any negative first price is accepted, and a deposit of 1 SUI then issues that many negative fTokens. */
  lemma NegativeFirstPriceAccepted(w: World, price: real, now: int)
    requires Inv(w) && w.core.lastTs == 0 && w.users != [] && price < 0.0
    ensures var v := Step(w, Oracle(price, now));
      v.outcome == Amount(price) && !Inv(v.world) && Step(v.world, Mint(0, 1.0)).outcome == Amount(price)
  {
    OracleKeepsIff(w, price, now);
  }

  /** The new protocol with its first user is such a state. */
  lemma NewProtocolTakesAnyFirstPrice(g: World)
    requires g == GENESIS
    ensures var w := Step(g, Join).world;
      Inv(w) && w.core.lastTs == 0 && |w.users| == 1
  {
    GenesisInv();
    FirstUser(g);
  }

  lemma FirstUser(g: World)
    requires Inv(g) && g.users == [] && g.core.lastTs == 0
    ensures var w := Step(g, Join).world;
      Inv(w) && w.core.lastTs == 0 && |w.users| == 1
  {
    hide Inv;
    StepKeepsInv(g, Join);
  }

  // ---------- The balance equation ----------

  /** What is left of the reserve's value after the fTokens. */
  function Residual(c: Core): real {
    c.reserve * c.price - c.nf * PF_FIXED
  }

  /** What is left of it after both tokens at their prices. */
  function Gap(c: Core): real {
    Residual(c) - c.nx * c.px
  }

  predicate InvariantHolds(c: Core, tolerance: real) {
    Abs(Gap(c)) <= tolerance
  }

  /**
   * Px is only refreshed while there are xTokens. Then the gap closes exactly when the reserve is
   * worth the fTokens, and is otherwise what is missing; without xTokens it stays.
   */
  lemma RefreshClosesGapIff(c: Core)
    ensures Gap(UpdatePx(c)) == 0.0 <==> if c.nx > EPS then Residual(c) >= 0.0 else Gap(c) == 0.0
    ensures Gap(UpdatePx(c)) == if c.nx > EPS then Min(0.0, Residual(c)) else Gap(c)
  {
    if c.nx > EPS {
      var x := Residual(c);
      DivMul(x, c.nx);
      if x >= 0.0 {
        DivNonNeg(x, c.nx);
      } else {
        DivGeIff(x, c.nx, 0.0);
      }
    }
  }

  /** No call issues or burns an xToken: a new protocol never has any. */
  lemma {:induction false} RunKeepsNx(w: World, ops: seq<Op>)
    ensures Run(w, ops).core.nx == w.core.nx
  {
    if ops != [] {
      RunKeepsNx(w, ops[..|ops| - 1]);
    }
  }

  predicate RefreshesPx(w: World, op: Op) {
    var o := Step(w, op).outcome;
    && (op.Mint? || op.Redeem? || op.Oracle? || op.L3?)
    && o != Rejected && (o.Burned? ==> o.f > 0.0)
  }

  /**
   * How far a call that does not refresh Px moves the gap, seen from its entry: a price revalues the
   * reserve, a burn frees the value of what it burns, and a claim takes its worth out.
   */
  function Drift(w: World, op: Op): real {
    match op
    case Oracle(price, now) =>
      if OracleAccepts(w.core, price, now) then w.core.reserve * (price - w.core.price) else 0.0
    case L3(target) => if L3Raises(w.core, target) then 0.0 else L3Quote(w.core, w.pool, target) * PF_FIXED
    case Claim(k) =>
      if k < |w.users| && CanPay(w.core, Claimable(w.users[k], w.pool)) then
        -(Claimable(w.users[k], w.pool) * w.core.price)
      else 0.0
    case _ => 0.0
  }

  /**
   * What every call does to the gap. With xTokens, a call that refreshes Px closes it as far as the
   * reserve reaches; every other call, and without xTokens every call, moves it by its drift.
   */
  lemma StepGap(w: World, op: Op)
    requires Inv(w)
    ensures var c := Step(w, op).world.core;
      if w.core.nx > EPS && RefreshesPx(w, op) then Gap(c) == Min(0.0, Residual(c))
      else Gap(c) == Gap(w.core) + Drift(w, op)
  {
    if RefreshesPx(w, op) {
      hide Gap, Residual, Inv, UpdatePx, RefreshesPx, Drift, Step;
      var c := BeforeRefresh(w, op);
      GapAfterRefresh(c);
    } else {
      GapWithoutRefresh(w, op);
    }
  }

  lemma GapWithoutRefresh(w: World, op: Op)
    requires Inv(w) && !RefreshesPx(w, op)
    ensures Gap(Step(w, op).world.core) == Gap(w.core) + Drift(w, op)
  {
    hide Gap, Inv, UpdatePx, IssuedF, SuiFor, NetReserve, L3Quote;
    if op.L3? && !L3Raises(w.core, op.target) {
      L3Effect(w, op.target);
    } else if op.Claim? {
      ClaimGap(w, op.user);
    }
  }

  /** The core just before it refreshes Px, with the whole drift in it. */
  lemma BeforeRefresh(w: World, op: Op) returns (c: Core)
    requires Inv(w) && RefreshesPx(w, op)
    ensures Step(w, op).world.core == UpdatePx(c) && c.nx == w.core.nx
    ensures Gap(c) == Gap(w.core) + Drift(w, op)
  {
    hide UpdatePx, Inv, Gap, IssuedF, SuiFor, OracleAccepts, NetReserve, L3Quote;
    var d := w.core;
    match op
    case Mint(k, sui) =>
      c := d.(reserve := d.reserve + sui, nf := d.nf + IssuedF(d, sui));
      MintGap(d, sui);
    case Redeem(k, f) =>
      c := d.(reserve := d.reserve - SuiFor(d, f), nf := d.nf - f);
      RedeemGap(d, f);
    case Oracle(price, now) =>
      c := d.(price := price, lastTs := now);
      PriceGap(d, price, now);
    case L3(target) =>
      L3Effect(w, target);
      c := d.(nf := d.nf - L3Rebalance(d, w.pool, target).burned);
      BurnGap(d, L3Quote(d, w.pool, target));
  }

  lemma MintGap(d: Core, sui: real)
    ensures Gap(d.(reserve := d.reserve + sui, nf := d.nf + IssuedF(d, sui))) == Gap(d)
  {
    assert (d.reserve + sui) * d.price == d.reserve * d.price + sui * d.price;
  }

  lemma RedeemGap(d: Core, f: real)
    requires d.price != 0.0
    ensures Gap(d.(reserve := d.reserve - SuiFor(d, f), nf := d.nf - f)) == Gap(d)
  {
    DivMul(f * PF_FIXED, d.price);
    var sui := SuiFor(d, f);
    assert (d.reserve - sui) * d.price == d.reserve * d.price - sui * d.price;
  }

  lemma PriceGap(d: Core, price: real, now: int)
    ensures Gap(d.(price := price, lastTs := now)) == Gap(d) + d.reserve * (price - d.price)
  {
    assert d.reserve * (price - d.price) == d.reserve * price - d.reserve * d.price;
  }

  lemma BurnGap(d: Core, burned: real)
    ensures Gap(d.(nf := d.nf - burned)) == Gap(d) + burned * PF_FIXED
  {
  }

  lemma GapAfterRefresh(c: Core)
    ensures var d := UpdatePx(c);
      Residual(d) == Residual(c) && Gap(d) == if c.nx > EPS then Min(0.0, Residual(c)) else Gap(c)
  {
    RefreshClosesGapIff(c);
  }

  lemma ClaimGap(w: World, k: nat)
    ensures Gap(Step(w, Claim(k)).world.core) == Gap(w.core) + Drift(w, Claim(k))
  {
  }

  function TotalDrift(w: World, ops: seq<Op>): real {
    if ops == [] then 0.0
    else TotalDrift(w, ops[..|ops| - 1]) + Drift(Run(w, ops[..|ops| - 1]), ops[|ops| - 1])
  }

  /** Without xTokens no call refreshes Px, and after any run the gap is the sum of all drifts. */
  lemma {:induction false} RunGap(w: World, ops: seq<Op>)
    requires Inv(w) && AllowedRun(w, ops) && w.core.nx <= EPS
    ensures Gap(Run(w, ops).core) == Gap(w.core) + TotalDrift(w, ops)
  {
    if ops != [] {
      hide Inv, Gap, Drift, Step;
      var n := |ops| - 1;
      RunGap(w, ops[..n]);
      RunKeepsInv(w, ops[..n]);
      RunKeepsNx(w, ops[..n]);
      StepGap(Run(w, ops[..n]), ops[n]);
    }
  }

  // ---------- When check_invariant holds ----------

  /** From a balanced state a claim keeps the check exactly when what it pays is worth no more than the tolerance. */
  lemma ClaimKeepsInvariantIff(w: World, k: nat, tolerance: real)
    requires Inv(w) && Gap(w.core) == 0.0 && tolerance >= 0.0 && k < |w.users|
    ensures var owed := Claimable(w.users[k], w.pool);
      InvariantHolds(Step(w, Claim(k)).world.core, tolerance)
      <==> (CanPay(w.core, owed) ==> owed * w.core.price <= tolerance)
  {
    MulNonNeg(Claimable(w.users[k], w.pool), w.core.price);
    ClaimGap(w, k);
    hide Inv, Gap, Step, Claimable;
  }

  /**
   * From a balanced state an L3 call keeps the check exactly when it burns no more than the tolerance
   * or, with xTokens, when the reserve falls short of the fTokens left by no more than that.
   */
  lemma L3KeepsInvariantIff(w: World, target: real, tolerance: real)
    requires Inv(w) && Gap(w.core) == 0.0 && tolerance >= 0.0 && !L3Raises(w.core, target)
    ensures var burn := L3Quote(w.core, w.pool, target);
      InvariantHolds(Step(w, L3(target)).world.core, tolerance)
      <==> if w.core.nx <= EPS then burn <= tolerance
           else burn == 0.0 || (w.core.nf - burn) * PF_FIXED - w.core.reserve * w.core.price <= tolerance
  {
    hide Inv, Gap, L3Quote, L3Rebalance;
    StepGap(w, L3(target));
    L3Effect(w, target);
  }

  // ---------- The balance net of promises ----------

  /** The gap of the net reserve: what has been promised to depositors counts as paid. */
  function NetGap(w: World): real {
    Gap(w.core) - w.pool.obligation * w.core.price
  }

  /** Only a price and a harvest that brings no SUI in move the net gap. */
  function NetDrift(w: World, op: Op): real {
    match op
    case Oracle(price, now) =>
      if OracleAccepts(w.core, price, now) then (w.core.reserve - w.pool.obligation) * (price - w.core.price)
      else 0.0
    case Harvest(y) => if CanHarvest(w.pool, y) then -((y - Bounty(y)) * w.core.price) else 0.0
    case _ => 0.0
  }

  lemma StepNetGap(w: World, op: Op)
    requires Inv(w) && w.core.nx <= EPS
    ensures NetGap(Step(w, op).world) == NetGap(w) + NetDrift(w, op)
  {
    hide Gap, Inv, Step, L3Quote, L3Rebalance, Claimable, OracleAccepts, CanPay;
    StepGap(w, op);
    PriceAfter(w, op);
    PromisesAfter(w, op);
  }

  lemma PriceAfter(w: World, op: Op)
    requires Inv(w)
    ensures Step(w, op).world.core.price
         == if op.Oracle? && OracleAccepts(w.core, op.price, op.now) then op.price else w.core.price
  {
    if op.L3? && !L3Raises(w.core, op.target) {
      hide Inv;
      L3Effect(w, op.target);
    }
  }

  /** What is promised after a call: a burn adds its worth, a harvest its SUI, a claim takes off what it pays. */
  lemma PromisesAfter(w: World, op: Op)
    requires Inv(w)
    ensures var d := Step(w, op).world.pool.obligation - w.pool.obligation;
      match op
      case L3(target) =>
        d * w.core.price == if L3Raises(w.core, target) then 0.0 else L3Quote(w.core, w.pool, target) * PF_FIXED
      case Claim(k) =>
        d == if k < |w.users| && CanPay(w.core, Claimable(w.users[k], w.pool))
             then -Claimable(w.users[k], w.pool) else 0.0
      case Harvest(y) => d == if CanHarvest(w.pool, y) then y - Bounty(y) else 0.0
      case _ => d == 0.0
  {
    hide Inv, L3Quote, L3Rebalance, OracleAccepts;
    match op
    case L3(target) =>
      if !L3Raises(w.core, target) {
        L3Effect(w, target);
      }
    case Claim(k) =>
      if k < |w.users| {
        PendingWithinObligation(w, k);
      }
    case _ =>
  }

  predicate AtOnePrice(ops: seq<Op>) {
    forall i :: 0 <= i < |ops| ==> !ops[i].Oracle? && !ops[i].Harvest?
  }

  /**
   * Between two prices the net reserve stays balanced over any run of mints, redeems, burns, claims
   * and moves in and out of the pool, in any order and by anyone.
   */
  lemma {:induction false} RunKeepsNetGap(w: World, ops: seq<Op>)
    requires Inv(w) && AllowedRun(w, ops) && w.core.nx <= EPS && AtOnePrice(ops)
    ensures NetGap(Run(w, ops)) == NetGap(w)
  {
    if ops != [] {
      hide Inv, NetGap, Step;
      var n := |ops| - 1;
      RunKeepsNetGap(w, ops[..n]);
      RunKeepsInv(w, ops[..n]);
      RunKeepsNx(w, ops[..n]);
      StepNetGap(Run(w, ops[..n]), ops[n]);
    }
  }

  /**
   * Over such a run from a state with balanced net reserve, the source's check, which leaves promises
   * out, holds exactly when what is promised and not yet paid is worth no more than the tolerance.
   */
  lemma RunInvariantIff(w: World, ops: seq<Op>, tolerance: real)
    requires Inv(w) && AllowedRun(w, ops) && w.core.nx <= EPS && AtOnePrice(ops)
    requires NetGap(w) == 0.0 && tolerance >= 0.0
    ensures var v := Run(w, ops);
      InvariantHolds(v.core, tolerance) <==> v.pool.obligation * v.core.price <= tolerance
  {
    hide Gap, Run;
    RunKeepsNetGap(w, ops);
    RunKeepsInv(w, ops);
    var v := Run(w, ops);
    PromisesNonNeg(v);
    hide Inv;
  }

  lemma PromisesNonNeg(w: World)
    requires Inv(w)
    ensures w.pool.obligation * w.core.price >= 0.0
  {
    SumNonNegPending(w);
    MulNonNeg(w.pool.obligation, w.core.price);
  }

  lemma SumNonNegPending(w: World)
    requires Inv(w)
    ensures w.pool.obligation >= 0.0
  {
    hide Sum;
    forall i | 0 <= i < |w.users| ensures Of(w.users[i], Pending(w.pool.index)) >= 0.0 {
      assert UserOk(w.users[i], w.pool);
      MulNonNeg(w.users[i].scaled, w.pool.index - w.users[i].snap);
    }
    SumNonNeg(w.users, Pending(w.pool.index));
  }

  // ---------- Two states the new protocol reaches ----------

  /** Four calls by one user lead from the new protocol to 100 SUI at $1 and 100 deposited fTokens. */
  lemma OneDepositorReachable(g: World) returns (w: World)
    requires g == GENESIS
    ensures w == Step(Step(Step(Step(g, Join).world, Oracle(1.0, 1)).world, Mint(0, 100.0)).world,
                      Deposit(0, 100.0)).world
    ensures OneDepositor(w, 100.0, 100.0)
  {
    var joined := Step(g, Join).world;
    assert joined.users == [NEW_USER];
    var priced := Step(joined, Oracle(1.0, 1)).world;
    assert priced == World(Core(0.0, 0.0, 0.0, 0.0, 1.0, 1), EMPTY_POOL, [NEW_USER], 0.0);
    w := OneUserMints(priced);
  }

  lemma OneUserMints(p: World) returns (w: World)
    requires p.core == Core(0.0, 0.0, 0.0, 0.0, 1.0, 1) && p.pool == EMPTY_POOL
    requires |p.users| == 1 && p.users[0] == NEW_USER && p.forfeited == 0.0
    ensures w == Step(Step(p, Mint(0, 100.0)).world, Deposit(0, 100.0)).world
    ensures OneDepositor(w, 100.0, 100.0)
  {
    var minted := Step(p, Mint(0, 100.0)).world;
    assert minted.core == Core(100.0, 100.0, 0.0, 0.0, 1.0, 1) && minted.pool == p.pool;
    assert minted.users[0] == User(100.0, 0.0, 0.0);
    w := Step(minted, Deposit(0, 100.0)).world;
  }

  /** There an L3 call with target 2 opens a gap of 50, and the depositor's claim closes it. */
  lemma BurnOpensGapClaimCloses(w: World, burn: Op, claim: Op)
    requires OneDepositor(w, 100.0, 100.0) && burn == L3(2.0) && claim == Claim(0)
    ensures var v := Step(w, burn).world;
      && Gap(w.core) == 0.0 && Gap(v.core) == 50.0 && !InvariantHolds(v.core, 1.0)
      && Step(v, claim).outcome == Amount(50.0) && Gap(Step(v, claim).world.core) == 0.0
  {
    hide Inv, Gap, Step, L3Quote, L3Raises;
    HundredFacts(w);
    FiftyQuoted(w, burn.target);
    StepGap(w, burn);
    var v := BurnFifty(w, burn);
    ClaimPaysPending(v, claim, 50.0);
  }

  lemma HundredFacts(w: World)
    requires OneDepositor(w, 100.0, 100.0)
    ensures Inv(w) && Gap(w.core) == 0.0
  {
    hide Inv, Solvent, NetValue;
    OneDepositorInv(w, 100.0, 100.0);
  }

  lemma FiftyQuoted(w: World, target: real)
    requires OneDepositor(w, 100.0, 100.0) && target == 2.0
    ensures !L3Raises(w.core, target) && L3Quote(w.core, w.pool, target) == 50.0
  {
  }

  lemma BurnFifty(w: World, burn: Op) returns (v: World)
    requires OneDepositor(w, 100.0, 100.0) && burn == L3(2.0)
    ensures v == Step(w, burn).world
    ensures v.core.reserve == 100.0 && v.core.price == 1.0
    ensures |v.users| == 1 && PendingOf(v.users[0], v.pool) == 50.0
  {
    hide Inv, Gap, L3Quote, L3Raises, ControllerRebalance, UpdatePx;
    HundredFacts(w);
    FiftyQuoted(w, burn.target);
    v := Step(w, burn).world;
    L3Effect(w, burn.target);
    L3Controller(w, burn.target);
    IndexAfterBurn(w, v);
  }

  lemma IndexAfterBurn(w: World, v: World)
    requires OneDepositor(w, 100.0, 100.0) && v.users == w.users
    requires (v.pool.index - w.pool.index) * w.pool.scaledTotal == 50.0
    ensures PendingOf(v.users[0], v.pool) == 50.0
  {
    assert v.pool.index * 100.0 == 50.0;
  }

  lemma ClaimPaysPending(v: World, claim: Op, owed: real)
    requires claim == Claim(0) && |v.users| == 1 && v.core.price == 1.0
    requires PendingOf(v.users[0], v.pool) == owed && EPS < owed <= v.core.reserve
    ensures Step(v, claim).outcome == Amount(owed)
    ensures Gap(Step(v, claim).world.core) == Gap(v.core) - owed
  {
    ClaimGap(v, 0);
    hide Gap;
  }

  /** And there a harvest of 20 SUI leaves the gap closed, and the depositor's claim of 19.8 opens it. */
  lemma ClaimAfterHarvestOpensGap(w: World, harvest: Op, claim: Op)
    requires OneDepositor(w, 100.0, 100.0) && harvest == Harvest(20.0) && claim == Claim(0)
    ensures var v := Step(w, harvest).world;
      && Inv(v) && Gap(v.core) == 0.0 && InvariantHolds(v.core, 1.0)
      && Step(v, claim).outcome == Amount(19.8) && !InvariantHolds(Step(v, claim).world.core, 1.0)
  {
    hide Inv, Gap, Step;
    HundredFacts(w);
    StepKeepsInv(w, harvest);
    var v := HarvestTwenty(w, harvest);
    ClaimPaysPending(v, claim, 19.8);
  }

  lemma HarvestTwenty(w: World, harvest: Op) returns (v: World)
    requires OneDepositor(w, 100.0, 100.0) && harvest == Harvest(20.0)
    ensures v == Step(w, harvest).world && v.core == w.core && |v.users| == 1
    ensures PendingOf(v.users[0], v.pool) == 19.8
  {
    v := Step(w, harvest).world;
    assert v.pool.index == 0.198;
  }
}
