/** Which prices the core accepts, and how far any run of accepted prices can move. */
module PriceLimits {
  import opened Reals
  import opened StabilityPool
  import opened ProtocolCore
  import opened ProtocolWorld

  /**
   * The first price is free. A later one is accepted exactly when it is at most an hour late and
   * within a fifth of the price before, or of the smallest price that counts if that is below it.
   */
  lemma PriceAcceptedIff(w: World, price: real, now: int)
    ensures var n := Step(w, Oracle(price, now));
      && (n.outcome == Amount(price) || n.outcome == Rejected)
      && (w.core.lastTs == 0 ==> n.outcome == Amount(price))
      && (w.core.lastTs != 0 && w.core.price >= 0.000000000001 ==>
            (n.outcome == Amount(price)
             <==> now - w.core.lastTs <= 3600 && 0.8 * w.core.price <= price <= 1.2 * w.core.price))
      && (w.core.lastTs != 0 && w.core.price < 0.000000000001 ==>
            (n.outcome == Amount(price)
             <==> now - w.core.lastTs <= 3600 && 0.0000000000008 <= price <= 0.0000000000012))
    ensures var n := Step(w, Oracle(price, now));
      if n.outcome == Rejected then n.world == w
      else n.world.core.price == price && n.world.core.lastTs == now
           && n.world.core.reserve == w.core.reserve && n.world.core.nf == w.core.nf
  {
    var m := Max(EPS, w.core.price);
    DivLeIff(price, m, 1.2);
    DivGeIff(price, m, 0.8);
  }

  // ---------- Runs ----------

  predicate TakesPrice(w: World, op: Op) {
    op.Oracle? && Step(w, op).outcome != Rejected
  }

  /** How many prices a run takes. */
  function PriceCount(w: World, ops: seq<Op>): nat {
    if ops == [] then 0
    else
      var n := |ops| - 1;
      PriceCount(w, ops[..n]) + if TakesPrice(Run(w, ops[..n]), ops[n]) then 1 else 0
  }

  /** Each call of the run finds a price that counts, and no price is stamped 0. */
  predicate Watched(w: World, ops: seq<Op>) {
    ops == [] ||
    var n := |ops| - 1;
    && Watched(w, ops[..n])
    && Run(w, ops[..n]).core.price >= EPS
    && (ops[n].Oracle? ==> ops[n].now != 0)
  }

  /** p after n changes by the factor. */
  function Compounded(p: real, factor: real, n: nat): real {
    if n == 0 then p else factor * Compounded(p, factor, n - 1)
  }

  lemma OnlyOraclePrices(w: World, op: Op)
    ensures !TakesPrice(w, op) ==> Step(w, op).world.core.price == w.core.price
    ensures !TakesPrice(w, op) ==> Step(w, op).world.core.lastTs == w.core.lastTs
    ensures TakesPrice(w, op) ==> Step(w, op).outcome == Amount(op.price)
  {
  }

  /** n accepted prices after one of p, stamped other than 0, stay between p * 0.8^n and p * 1.2^n. */
  lemma {:induction false} PriceWithinSteps(w: World, ops: seq<Op>)
    requires w.core.lastTs != 0 && Watched(w, ops)
    ensures var n := PriceCount(w, ops);
      Compounded(w.core.price, 0.8, n) <= Run(w, ops).core.price <= Compounded(w.core.price, 1.2, n)
    ensures Run(w, ops).core.lastTs != 0
  {
    if ops != [] {
      hide Step, TakesPrice;
      var n := |ops| - 1;
      var v := Run(w, ops[..n]);
      PriceWithinSteps(w, ops[..n]);
      OnlyOraclePrices(v, ops[n]);
      if TakesPrice(v, ops[n]) {
        IsOracle(v, ops[n]);
        PriceAcceptedIff(v, ops[n].price, ops[n].now);
      }
    }
  }

  lemma IsOracle(w: World, op: Op)
    ensures TakesPrice(w, op) ==> op.Oracle?
  {
  }

  /** A price stamped 0 is accepted and lifts both limits: whatever comes next is taken for the first. */
  lemma ZeroStampLiftsLimits(w: World, price: real, now: int)
    requires w.core.lastTs == 1 && w.core.price == 1.0
    ensures var v := Step(w, Oracle(1.0, 0));
      v.outcome == Amount(1.0) && Step(v.world, Oracle(price, now)).outcome == Amount(price)
  {
    PriceAcceptedIff(w, 1.0, 0);
    PriceAcceptedIff(Step(w, Oracle(1.0, 0)).world, price, now);
  }
}
