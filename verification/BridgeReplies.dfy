/** What deposits and redeems answer, and what they leave in the ledger, in the terms of their callers. */
module BridgeReplies {
  import opened Options
  import opened BridgeAmounts
  import opened BridgeLedger
  import opened BridgeFlows

  // ---------- What a deposit answers ----------

  /**
   * A deposit answers with half its dollar value in fTokens, the same value in xTokens, and exactly
   * the shares by which the holder's balance and the tracked total have grown.
   */
  lemma MintedAmounts(b: Bridge, r: Request)
    requires r.Deposit? && DepositStep(b, r).reply.Minted?
    ensures var m, after := DepositStep(b, r).reply, DepositStep(b, r).bridge;
      && r.quote.Some? && r.quote.value > 0.0
      && r.amount * r.quote.value / 2.0 - ULP / 2.0 <= m.f <= r.amount * r.quote.value / 2.0 + ULP / 2.0
      && m.f - ULP / 2.0 * r.quote.value <= m.x * r.quote.value <= m.f + ULP / 2.0 * r.quote.value
      && BalanceOf(after.ledger, r.holder).shares == BalanceOf(b.ledger, r.holder).shares + m.f + m.x
      && Tracked(after.ledger, r.holder.asset) == Tracked(b.ledger, r.holder.asset) + m.f + m.x
      && m.receipt == after.counter == b.counter + 1
      && m.updateId == after.ledger.updateCounter == b.ledger.updateCounter + 1
  {
    hide DepositStep, SplitMint, NextDraft, Submitted, Credited, BalanceOf, Tracked;
    MintedIsSplit(b, r);
    SplitWorth(r.amount, r.quote.value);
    DepositGrows(b.ledger, r.holder, r.txHash, Shares(SplitMint(r.amount, r.quote.value)));
  }

  lemma MintedIsSplit(b: Bridge, r: Request)
    requires r.Deposit? && DepositStep(b, r).reply.Minted?
    ensures Named(r.holder) && r.amount > 0.0 && Priced(r.quote)
    ensures var m, after, a := DepositStep(b, r).reply, DepositStep(b, r).bridge, r.holder.asset;
      var shares := Shares(SplitMint(r.amount, r.quote.value));
      && Split(m.f, m.x) == SplitMint(r.amount, r.quote.value)
      && m.receipt == after.counter == b.counter + 1
      && m.updateId == after.ledger.updateCounter == b.ledger.updateCounter + 1
      && after.ledger == Credited(Submitted(b.ledger, NextDraft(b.ledger, a, r.txHash, Tracked(b.ledger, a) + shares)),
                                  r.holder, shares)
  {
    hide SplitMint, NextDraft, Settled;
  }

  lemma DepositGrows(l: Ledger, h: Holder, hash: string, shares: real)
    ensures var d := NextDraft(l, h.asset, hash, Tracked(l, h.asset) + shares);
      var after := Credited(Submitted(l, d), h, shares);
      && BalanceOf(after, h).shares == BalanceOf(l, h).shares + shares
      && Tracked(after, h.asset) == Tracked(l, h.asset) + shares
  {
    var d := NextDraft(l, h.asset, hash, Tracked(l, h.asset) + shares);
    hide Credited, Submitted, BalanceOf, Tracked, TotalHeld;
    SubmittedUntracked(l, d, h.asset);
    SubmittedShares(l, d, h);
    CreditedUntracked(Submitted(l, d), h, shares, h.asset);
  }

  /** The answer to a deposit: only one worth less than a unit in the last place is refused by the credit. */
  lemma DepositAnswers(b: Bridge, r: Request)
    requires r.Deposit?
    ensures var reply := DepositStep(b, r).reply;
      if r.holder.owner == "" || r.holder.asset.chain == "" || r.holder.asset.name == "" || r.amount <= 0.0 then
        reply == InvalidRequest
      else if r.quote == None || r.quote.value <= 0.0 then reply == NoPrice
      else if r.amount * r.quote.value < ULP then reply == CreditRefused
      else if r.handlerFails then reply == HandlerFailed
      else reply.Minted?
  {
    hide DepositStep, SplitMint, Shares;
    AnswerByShares(b, r);
    if Named(r.holder) && r.amount > 0.0 && Priced(r.quote) {
      SplitIsNothingIff(r.amount, r.quote.value);
    }
  }

  lemma AnswerByShares(b: Bridge, r: Request)
    requires r.Deposit?
    ensures var reply := DepositStep(b, r).reply;
      if !Named(r.holder) || r.amount <= 0.0 then reply == InvalidRequest
      else if !Priced(r.quote) then reply == NoPrice
      else if Shares(SplitMint(r.amount, r.quote.value)) <= 0.0 then reply == CreditRefused
      else if r.handlerFails then reply == HandlerFailed
      else reply.Minted?
  {
    hide SplitMint, Shares, Submitted, Credited, NextDraft;
  }

  // ---------- A handler that fails ----------

  /** A failing handler changes the answer and undoes nothing; the receipt number is used up. */
  lemma FailedHandlerStands(b: Bridge, r: Request)
    ensures Serve(b, r).bridge == Serve(b, r.(handlerFails := !r.handlerFails)).bridge
    ensures var n := Serve(b, r);
      n.bridge.counter == b.counter + if n.reply.Minted? || n.reply.Paid? || n.reply == HandlerFailed then 1 else 0
  {
    hide SplitMint, Div, Submitted, Credited, Debited, NextDraft, AfterBurn;
  }

  // ---------- The checkpoint a request submits ----------

  /** next follows prev: one block on, at the same index, with the hash it came with or the one before. */
  predicate Follows(prev: Option<Checkpoint>, next: Draft, hash: string) {
    match prev
    case None => next.blockNumber == 1 && next.index == 1.0 && next.blockHash == hash
    case Some(cp) =>
      && next.blockNumber == cp.draft.blockNumber + 1
      && (cp.draft.index != 0.0 ==> next.index == cp.draft.index)
      && (cp.draft.index == 0.0 ==> next.index == 1.0)
      && (hash != "" ==> next.blockHash == hash)
      && (hash == "" ==> next.blockHash == cp.draft.blockHash)
  }

  predicate Refused(reply: Reply) {
    reply == InvalidRequest || reply == NoPrice || reply == NothingToPay || reply == ExceedsTracked
  }

  /** Every request that gets past its first checks, credited or debited or not, appends one such checkpoint. */
  lemma CheckpointFollows(b: Bridge, r: Request)
    ensures var a, n := r.holder.asset, Serve(b, r);
      var hash := if r.Deposit? then r.txHash else r.digest;
      if Refused(n.reply) then n.bridge == b
      else
        var cp := Latest(n.bridge.ledger, a);
        && cp.Some? && cp.value.updateId == b.ledger.updateCounter + 1
        && History(n.bridge.ledger, a) == History(b.ledger, a) + [cp.value]
        && cp.value.draft.asset == a && Follows(Latest(b.ledger, a), cp.value.draft, hash)
  {
    hide SplitMint, Div, Settled, Submitted;
    var a := r.holder.asset;
    forall hash: string, total: real
      ensures var d := NextDraft(b.ledger, a, hash, total);
        var cp := Checkpoint(b.ledger.updateCounter + 1, d);
        && History(Submitted(b.ledger, d), a) == History(b.ledger, a) + [cp]
        && d.asset == a && Follows(Latest(b.ledger, a), d, hash)
    {
      DraftFollows(b.ledger, a, hash, total);
    }
  }

  lemma DraftFollows(l: Ledger, a: Asset, hash: string, total: real)
    ensures var d := NextDraft(l, a, hash, total);
      && History(Submitted(l, d), a) == History(l, a) + [Checkpoint(l.updateCounter + 1, d)]
      && d.asset == a && Follows(Latest(l, a), d, hash)
  {
  }

  /** No request changes the index at which an asset's shares are valued. */
  lemma {:induction false} RequestsKeepIndex(b: Bridge, rs: seq<Request>, a: Asset)
    ensures IndexFor(ServeAll(b, rs).bridge.ledger, a) == IndexFor(b.ledger, a)
  {
    if rs != [] {
      var n := |rs| - 1;
      RequestsKeepIndex(b, rs[..n], a);
      RequestKeepsIndex(ServeAll(b, rs[..n]).bridge, rs[n], a);
    }
  }

  lemma RequestKeepsIndex(b: Bridge, r: Request, a: Asset)
    ensures IndexFor(Serve(b, r).bridge.ledger, a) == IndexFor(b.ledger, a)
  {
    if r.holder.asset == a {
      CheckpointFollows(b, r);
      hide Serve;
    } else {
      OtherAssetsKept(b, r, a);
      hide Serve;
    }
  }

  lemma OtherAssetsKept(b: Bridge, r: Request, a: Asset)
    requires r.holder.asset != a
    ensures History(Serve(b, r).bridge.ledger, a) == History(b.ledger, a)
  {
    hide SplitMint, Div, Settled;
  }

  // ---------- Direct calls on the ledger ----------

  /** A credit or a debit moves one balance by its shares, and nothing else; the ones refused move nothing. */
  lemma BalanceCalls(l: Ledger, h: Holder, x: real, other: Holder)
    ensures var after := Step(l, Credit(h, x));
      && BalanceOf(after, h).shares == BalanceOf(l, h).shares + (if h.owner != "" && x > 0.0 then x else 0.0)
      && (other != h ==> BalanceOf(after, other) == BalanceOf(l, other))
      && after.checkpoints == l.checkpoints && after.updateCounter == l.updateCounter
    ensures var after := Step(l, Debit(h, x));
      && BalanceOf(after, h).shares
         == BalanceOf(l, h).shares
            - (if h.owner != "" && x > 0.0 && h in l.balances && x <= l.balances[h].shares then x else 0.0)
      && (other != h ==> BalanceOf(after, other) == BalanceOf(l, other))
      && after.checkpoints == l.checkpoints && after.updateCounter == l.updateCounter
  {
  }

  /** A checkpoint of a named asset becomes its latest, under the next id; it moves no shares. */
  lemma SubmitCall(l: Ledger, d: Draft, h: Holder, a: Asset)
    ensures var after := Step(l, Submit(d));
      if d.asset.chain == "" || d.asset.name == "" then after == l
      else
        && Latest(after, d.asset) == Some(Checkpoint(l.updateCounter + 1, d))
        && after.updateCounter == l.updateCounter + 1
        && BalanceOf(after, h).shares == BalanceOf(l, h).shares
        && (a != d.asset ==> History(after, a) == History(l, a))
  {
  }

  // ---------- What a redeem answers ----------

  /** A redeem pays fTokens at the price and xTokens one for one, and takes what it burned off balance and total. */
  lemma PaidAmounts(b: Bridge, r: Request)
    requires r.Redeem? && RedeemStep(b, r).reply.Paid?
    ensures var m, after := RedeemStep(b, r).reply, RedeemStep(b, r).bridge;
      && r.quote.Some? && r.quote.value > 0.0 && r.token != OtherToken
      && (r.token == FToken ==>
            r.amount - ULP / 2.0 * r.quote.value <= m.payout * r.quote.value <= r.amount + ULP / 2.0 * r.quote.value)
      && (r.token == XToken ==> m.payout == r.amount)
      && BalanceOf(after.ledger, r.holder).shares == BalanceOf(b.ledger, r.holder).shares - r.amount
      && (Latest(b.ledger, r.holder.asset).Some? ==>
            Tracked(after.ledger, r.holder.asset) == Tracked(b.ledger, r.holder.asset) - r.amount)
      && m.receipt == after.counter == b.counter + 1
      && m.updateId == after.ledger.updateCounter == b.ledger.updateCounter + 1
  {
    hide RedeemStep, Div, NextDraft, Submitted, Debited, BalanceOf, Tracked;
    PaidIsRedeemed(b, r);
    if r.token == FToken {
      DivError(r.amount, r.quote.value);
      QuotientWorth(r.amount, Div(r.amount, r.quote.value), r.quote.value);
    }
    RedeemShrinks(b.ledger, r.holder, r.digest, r.amount);
  }

  lemma PaidIsRedeemed(b: Bridge, r: Request)
    requires r.Redeem? && RedeemStep(b, r).reply.Paid?
    ensures Named(r.holder) && r.amount > 0.0 && Priced(r.quote) && r.token != OtherToken
    ensures var m, after, a := RedeemStep(b, r).reply, RedeemStep(b, r).bridge, r.holder.asset;
      && m.payout == (if r.token == FToken then Div(r.amount, r.quote.value) else r.amount)
      && m.receipt == after.counter == b.counter + 1
      && m.updateId == after.ledger.updateCounter == b.ledger.updateCounter + 1
      && var d := NextDraft(b.ledger, a, r.digest, AfterBurn(b.ledger, a, r.amount));
         after.ledger == Debited(Submitted(b.ledger, d), r.holder, r.amount)
  {
    hide Div, NextDraft, AfterBurn, Settled;
  }

  lemma RedeemShrinks(l: Ledger, h: Holder, hash: string, burned: real)
    ensures var d := NextDraft(l, h.asset, hash, AfterBurn(l, h.asset, burned));
      var after := Debited(Submitted(l, d), h, burned);
      && BalanceOf(after, h).shares == BalanceOf(l, h).shares - burned
      && (Latest(l, h.asset).Some? ==> Tracked(after, h.asset) == Tracked(l, h.asset) - burned)
  {
    var d := NextDraft(l, h.asset, hash, AfterBurn(l, h.asset, burned));
    assert d.totalShares == AfterBurn(l, h.asset, burned);
    hide Debited, Submitted, BalanceOf, Tracked, TotalHeld, Latest;
    SubmittedUntracked(l, d, h.asset);
    SubmittedShares(l, d, h);
    DebitedUntracked(Submitted(l, d), h, burned, h.asset);
  }

  /** The answer to a redeem, the first objection counting. */
  lemma RedeemAnswers(b: Bridge, r: Request)
    requires r.Redeem?
    ensures var l, h, reply := b.ledger, r.holder, RedeemStep(b, r).reply;
      if h.owner == "" || h.asset.chain == "" || h.asset.name == "" || r.recipient == "" || r.amount <= 0.0
         || r.token == OtherToken then reply == InvalidRequest
      else if r.quote == None || r.quote.value <= 0.0 then reply == NoPrice
      else if r.token == FToken && r.amount / r.quote.value < ULP / 2.0 then reply == NothingToPay
      else if Latest(l, h.asset).Some? && Latest(l, h.asset).value.draft.totalShares < r.amount then
        reply == ExceedsTracked
      else if h !in l.balances || l.balances[h].shares < r.amount then reply == DebitRefused
      else if r.handlerFails then reply == HandlerFailed
      else reply.Paid?
  {
    if Named(r.holder) && r.amount > 0.0 && Priced(r.quote) {
      DivPositiveIff(r.amount, r.quote.value);
    }
    hide Div, NextDraft, Settled;
    var d := NextDraft(b.ledger, r.holder.asset, r.digest, AfterBurn(b.ledger, r.holder.asset, r.amount));
    DebitSeesShares(b.ledger, d, r.holder, r.amount);
    hide Submitted, Debited;
  }

  lemma DebitSeesShares(l: Ledger, d: Draft, h: Holder, shares: real)
    ensures Debitable(Submitted(l, d), h, shares) <==> Debitable(l, h, shares)
  {
  }

  // ---------- Deposit, then redeem everything ----------

  /** The redeem of all base units of one token that a deposit minted. */
  function RedeemAll(dep: Request, token: Token, units: nat, recipient: string, digest: string): Request
    requires dep.Deposit?
  {
    Redeem(dep.holder, recipient, digest, token, FromUnits(units), dep.quote, false)
  }

  /**
   * A deposit followed by redeeming the base units of both amounts it answered with, at one price:
   * the redeems are never refused for lack of shares and pay back the deposit up to rounding.
   */
  lemma DepositThenRedeem(b: Bridge, dep: Request, recipient: string, digest: string)
    requires dep.Deposit? && BridgeInv(b.ledger) && recipient != ""
    requires var m := DepositStep(b, dep).reply;
      m.Minted? && Fits(m.f) && Fits(m.x)
    ensures var minted := DepositStep(b, dep);
      var f := RedeemStep(minted.bridge, RedeemAll(dep, FToken, ToUint(minted.reply.f), recipient, digest));
      var x := RedeemStep(f.bridge, RedeemAll(dep, XToken, ToUint(minted.reply.x), recipient, digest));
      && dep.quote.Some? && dep.quote.value > 0.0
      && f.reply != ExceedsTracked && f.reply != DebitRefused
      && x.reply != ExceedsTracked && x.reply != DebitRefused
      && dep.amount - (UNIT + ULP) * (1.0 + 1.0 / dep.quote.value)
         <= PaidBy(f.reply) + PaidBy(x.reply)
         <= dep.amount + ULP * (1.0 + 1.0 / dep.quote.value)
  {
    hide Covered, Div, ToUint, FromUnits, SplitMint, Fits, DepositStep, RedeemStep;
    MintedIsSplit(b, dep);
    var price := dep.quote.value;
    var split := SplitMint(dep.amount, price);
    SplitNonNeg(dep.amount, price);
    ToUintKeepsIff(split.f);
    ToUintKeepsIff(split.x);
    var b1 := DepositStep(b, dep).bridge;
    var rf := RedeemAll(dep, FToken, ToUint(split.f), recipient, digest);
    var rx := RedeemAll(dep, XToken, ToUint(split.x), recipient, digest);
    DepositCovers(b, dep);
    CoveredRedeem(b1, rf, Shares(split));
    CoveredRedeem(RedeemStep(b1, rf).bridge, rx, Shares(split) - rf.amount);
    PaidBackBounds(dep.amount, price);
  }
}
