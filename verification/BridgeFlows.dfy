/** Deposits and redeems of the bridge worker (internal/crosschain/bridge_worker.go), one at a time. */
module BridgeFlows {
  import opened Options
  import opened BridgeAmounts
  import opened BridgeLedger

  datatype Bridge = Bridge(ledger: Ledger, counter: nat)

  datatype Token = FToken | XToken | OtherToken

  /** A request with what its surroundings answer: the quoted price, and whether the handler fails. */
  datatype Request =
    | Deposit(holder: Holder, txHash: string, amount: real, quote: Option<real>, handlerFails: bool)
    | Redeem(holder: Holder, recipient: string, digest: string, token: Token, amount: real,
             quote: Option<real>, handlerFails: bool)

  datatype Reply =
    | Minted(receipt: nat, updateId: nat, f: real, x: real)
    | Paid(receipt: nat, updateId: nat, payout: real)
    | InvalidRequest
    | NoPrice
    | NothingToPay
    | ExceedsTracked
    | CreditRefused
    | DebitRefused
    | HandlerFailed

  datatype Next = Next(bridge: Bridge, reply: Reply)

  predicate Priced(quote: Option<real>) {
    quote.Some? && quote.value > 0.0
  }

  predicate Named(h: Holder) {
    h.owner != "" && h.asset.chain != "" && h.asset.name != ""
  }

  function Tracked(l: Ledger, a: Asset): real {
    var cp := Latest(l, a);
    if cp.Some? then cp.value.draft.totalShares else 0.0
  }

  /** The checkpoint that follows the latest one. */
  function NextDraft(l: Ledger, a: Asset, hash: string, totalShares: real): Draft {
    match Latest(l, a)
    case None => Draft(a, 1, hash, totalShares, 1.0)
    case Some(last) =>
      Draft(a, last.draft.blockNumber + 1, if hash == "" then last.draft.blockHash else hash,
            totalShares, IndexFor(l, a))
  }

  function DepositStep(b: Bridge, r: Request): Next
    requires r.Deposit?
  {
    var l := b.ledger;
    if !Named(r.holder) || r.amount <= 0.0 then Next(b, InvalidRequest)
    else if !Priced(r.quote) then Next(b, NoPrice)
    else
      var split := SplitMint(r.amount, r.quote.value);
      var shares := Shares(split);
      var d := NextDraft(l, r.holder.asset, r.txHash, Tracked(l, r.holder.asset) + shares);
      var l1 := Submitted(l, d);
      if !Creditable(r.holder, shares) then Next(b.(ledger := l1), CreditRefused)
      else
        var b2 := Bridge(Credited(l1, r.holder, shares), b.counter + 1);
        Next(b2, if r.handlerFails then HandlerFailed
                 else Minted(b2.counter, l1.updateCounter, split.f, split.x))
  }

  /** Without any checkpoint the source starts from a total of zero and lets the debit decide. */
  function AfterBurn(l: Ledger, a: Asset, burned: real): real {
    if Latest(l, a).Some? then Tracked(l, a) - burned else 0.0
  }

  function RedeemStep(b: Bridge, r: Request): Next
    requires r.Redeem?
  {
    var l, h := b.ledger, r.holder;
    if !Named(h) || r.recipient == "" || r.amount <= 0.0 || r.token == OtherToken then Next(b, InvalidRequest)
    else if !Priced(r.quote) then Next(b, NoPrice)
    else
      var payout := if r.token == FToken then Div(r.amount, r.quote.value) else r.amount;
      var total := AfterBurn(l, h.asset, r.amount);
      if payout <= 0.0 then Next(b, NothingToPay)
      else if total < 0.0 then Next(b, ExceedsTracked)
      else
        var l1 := Submitted(l, NextDraft(l, h.asset, r.digest, total));
        if !Debitable(l1, h, r.amount) then Next(b.(ledger := l1), DebitRefused)
        else
          var b2 := Bridge(Debited(l1, h, r.amount), b.counter + 1);
          Next(b2, if r.handlerFails then HandlerFailed else Paid(b2.counter, l1.updateCounter, payout))
  }

  function Serve(b: Bridge, r: Request): Next {
    if r.Deposit? then DepositStep(b, r) else RedeemStep(b, r)
  }

  // ---------- The tracked total against what is held ----------

  /** What a request loses: the burn of a redeem refused only after its checkpoint was submitted. */
  function LostBy(r: Request, reply: Reply, a: Asset): real {
    if r.Redeem? && reply == DebitRefused && r.holder.asset == a then r.amount else 0.0
  }

  ghost function Untracked(l: Ledger, a: Asset): real {
    TotalHeld(l, a) - Tracked(l, a)
  }

  predicate HoldersHaveCheckpoints(l: Ledger) {
    forall h :: h in l.balances ==> Latest(l, h.asset).Some?
  }

  ghost predicate TotalsNonNeg(l: Ledger) {
    forall a :: Tracked(l, a) >= 0.0
  }

  ghost predicate BridgeInv(l: Ledger) {
    Inv(l) && HoldersHaveCheckpoints(l) && TotalsNonNeg(l)
  }

  /** One checkpoint, then one change of shares: how the difference moves. */
  lemma SubmittedUntracked(l: Ledger, d: Draft, a: Asset)
    ensures Tracked(Submitted(l, d), a) == if a == d.asset then d.totalShares else Tracked(l, a)
    ensures TotalHeld(Submitted(l, d), a) == TotalHeld(l, a)
  {
    SubmittedTotal(l, d, a);
    assert a != d.asset ==> History(Submitted(l, d), a) == History(l, a);
  }

  lemma SubmittedShares(l: Ledger, d: Draft, h: Holder)
    ensures h in Submitted(l, d).balances <==> h in l.balances
    ensures BalanceOf(Submitted(l, d), h).shares == BalanceOf(l, h).shares
  {
  }

  lemma NextDraftTotal(l: Ledger, a: Asset, hash: string, total: real)
    ensures NextDraft(l, a, hash, total).asset == a && NextDraft(l, a, hash, total).totalShares == total
  {
  }

  lemma CreditedUntracked(l: Ledger, h: Holder, x: real, a: Asset)
    ensures Latest(Credited(l, h, x), a) == Latest(l, a) && Tracked(Credited(l, h, x), a) == Tracked(l, a)
    ensures TotalHeld(Credited(l, h, x), a) == TotalHeld(l, a) + if h.asset == a then x else 0.0
    ensures BalanceOf(Credited(l, h, x), h).shares == BalanceOf(l, h).shares + x
  {
    SettledTotal(l, h, BalanceOf(l, h).shares + x, a);
  }

  lemma DebitedUntracked(l: Ledger, h: Holder, x: real, a: Asset)
    ensures Latest(Debited(l, h, x), a) == Latest(l, a) && Tracked(Debited(l, h, x), a) == Tracked(l, a)
    ensures TotalHeld(Debited(l, h, x), a) == TotalHeld(l, a) - if h.asset == a then x else 0.0
    ensures BalanceOf(Debited(l, h, x), h).shares == BalanceOf(l, h).shares - x
  {
    SettledTotal(l, h, BalanceOf(l, h).shares - x, a);
  }

  lemma ServeUntracked(b: Bridge, r: Request, a: Asset)
    requires BridgeInv(b.ledger)
    ensures var n := Serve(b, r);
      Untracked(n.bridge.ledger, a) == Untracked(b.ledger, a)
        + if Latest(b.ledger, a).Some? then LostBy(r, n.reply, a) else 0.0
  {
    if r.Deposit? {
      DepositUntracked(b, r, a);
    } else {
      RedeemUntracked(b, r, a);
    }
  }

  lemma CreditAfterCheckpoint(l: Ledger, d: Draft, h: Holder, x: real, a: Asset)
    requires d.asset == h.asset && d.totalShares == Tracked(l, d.asset) + x
    ensures Untracked(Credited(Submitted(l, d), h, x), a) == Untracked(l, a)
    ensures x == 0.0 ==> Untracked(Submitted(l, d), a) == Untracked(l, a)
  {
    hide Submitted, Credited, Tracked, TotalHeld;
    SubmittedUntracked(l, d, a);
    CreditedUntracked(Submitted(l, d), h, x, a);
  }

  lemma DepositUntracked(b: Bridge, r: Request, a: Asset)
    requires r.Deposit?
    ensures Untracked(DepositStep(b, r).bridge.ledger, a) == Untracked(b.ledger, a)
  {
    hide Submitted, Credited, NextDraft, Tracked, Untracked, SplitMint;
    if Named(r.holder) && r.amount > 0.0 && Priced(r.quote) {
      var shares := Shares(SplitMint(r.amount, r.quote.value));
      SplitNonNeg(r.amount, r.quote.value);
      var total := Tracked(b.ledger, r.holder.asset) + shares;
      var d := NextDraft(b.ledger, r.holder.asset, r.txHash, total);
      NextDraftTotal(b.ledger, r.holder.asset, r.txHash, total);
      CreditAfterCheckpoint(b.ledger, d, r.holder, shares, a);
      assert !Creditable(r.holder, shares) ==> shares == 0.0;
    }
  }

  lemma RedeemUntracked(b: Bridge, r: Request, a: Asset)
    requires r.Redeem? && HoldersHaveCheckpoints(b.ledger)
    ensures var n := RedeemStep(b, r);
      Untracked(n.bridge.ledger, a) == Untracked(b.ledger, a)
        + if Latest(b.ledger, a).Some? then LostBy(r, n.reply, a) else 0.0
  {
    hide Submitted, Debited, NextDraft, TotalHeld, Div;
    var l, h := b.ledger, r.holder;
    var total := AfterBurn(l, h.asset, r.amount);
    var d := NextDraft(l, h.asset, r.digest, total);
    NextDraftTotal(l, h.asset, r.digest, total);
    SubmittedUntracked(l, d, a);
    SubmittedShares(l, d, h);
    DebitedUntracked(Submitted(l, d), h, r.amount, a);
  }

  // ---------- What every request keeps ----------

  lemma SubmittedBridgeInv(l: Ledger, d: Draft)
    requires BridgeInv(l) && d.totalShares >= 0.0
    ensures BridgeInv(Submitted(l, d))
  {
    var r := Submitted(l, d);
    SubmittedInv(l, d);
    SubmittedBalances(l, d);
    forall a
      ensures Tracked(r, a) >= 0.0
    {
      SubmittedUntracked(l, d, a);
    }
  }

  lemma SettledBridgeInv(l: Ledger, h: Holder, shares: real)
    requires BridgeInv(l) && shares >= 0.0 && Latest(l, h.asset).Some?
    ensures BridgeInv(l.(balances := l.balances[h := Settled(l, h, shares)]))
  {
    hide Inv, Settled;
    var r := l.(balances := l.balances[h := Settled(l, h, shares)]);
    SettledInv(l, h, shares);
    assert forall a :: Latest(r, a) == Latest(l, a);
    forall a
      ensures Tracked(r, a) >= 0.0
    {
      assert Tracked(l, a) >= 0.0;
    }
  }

  lemma ServeKeepsInv(b: Bridge, r: Request)
    requires BridgeInv(b.ledger)
    ensures BridgeInv(Serve(b, r).bridge.ledger)
  {
    if r.Deposit? {
      DepositKeepsInv(b, r);
    } else {
      RedeemKeepsInv(b, r);
    }
  }

  lemma DepositKeepsInv(b: Bridge, r: Request)
    requires r.Deposit? && BridgeInv(b.ledger)
    ensures BridgeInv(DepositStep(b, r).bridge.ledger)
  {
    hide BridgeInv, Settled, Submitted, NextDraft, Tracked, SplitMint;
    var l, h := b.ledger, r.holder;
    if Named(h) && r.amount > 0.0 && Priced(r.quote) {
      var shares := Shares(SplitMint(r.amount, r.quote.value));
      SplitNonNeg(r.amount, r.quote.value);
      TrackedNonNeg(l, h.asset);
      var total := Tracked(l, h.asset) + shares;
      var d := NextDraft(l, h.asset, r.txHash, total);
      NextDraftTotal(l, h.asset, r.txHash, total);
      SubmittedBridgeInv(l, d);
      var l1 := Submitted(l, d);
      SharesNonNeg(l1, h);
      if Creditable(h, shares) {
        SubmittedLatest(l, d);
        SettledBridgeInv(l1, h, BalanceOf(l1, h).shares + shares);
      }
    }
  }

  lemma SubmittedLatest(l: Ledger, d: Draft)
    ensures Latest(Submitted(l, d), d.asset) == Some(Checkpoint(Submitted(l, d).updateCounter, d))
    ensures Submitted(l, d).updateCounter == l.updateCounter + 1
  {
  }

  lemma RedeemKeepsInv(b: Bridge, r: Request)
    requires r.Redeem? && BridgeInv(b.ledger)
    ensures BridgeInv(RedeemStep(b, r).bridge.ledger)
  {
    hide BridgeInv, Settled, Submitted, NextDraft, AfterBurn, Div;
    var l, h := b.ledger, r.holder;
    var total := AfterBurn(l, h.asset, r.amount);
    if total >= 0.0 {
      var d := NextDraft(l, h.asset, r.digest, total);
      NextDraftTotal(l, h.asset, r.digest, total);
      SubmittedBridgeInv(l, d);
      SubmittedLatest(l, d);
      var l1 := Submitted(l, d);
      if Debitable(l1, h, r.amount) {
        SettledBridgeInv(l1, h, BalanceOf(l1, h).shares - r.amount);
      }
    }
  }

  lemma TrackedNonNeg(l: Ledger, a: Asset)
    requires BridgeInv(l)
    ensures Tracked(l, a) >= 0.0
  {
  }

  lemma SharesNonNeg(l: Ledger, h: Holder)
    requires BridgeInv(l)
    ensures BalanceOf(l, h).shares >= 0.0
  {
  }

  // ---------- Runs ----------

  datatype Trace = Trace(bridge: Bridge, replies: seq<Reply>)

  function ServeAll(b: Bridge, rs: seq<Request>): (t: Trace)
    ensures |t.replies| == |rs|
  {
    if rs == [] then Trace(b, [])
    else
      var n := |rs| - 1;
      var t := ServeAll(b, rs[..n]);
      var next := Serve(t.bridge, rs[n]);
      Trace(next.bridge, t.replies + [next.reply])
  }

  /** What one request loses to tracking; without a checkpoint there is nothing to be untracked from. */
  function Loss(b: Bridge, r: Request, a: Asset): real {
    if Latest(b.ledger, a).Some? then LostBy(r, Serve(b, r).reply, a) else 0.0
  }

  function Lost(b: Bridge, rs: seq<Request>, a: Asset): real {
    if rs == [] then 0.0
    else
      var n := |rs| - 1;
      Lost(b, rs[..n], a) + Loss(ServeAll(b, rs[..n]).bridge, rs[n], a)
  }

  /**
   * After any requests, an asset's holders hold exactly what its latest checkpoint tracks plus the
   * burns of redeems that were refused only after their checkpoint went out.
   */
  lemma {:induction false} RunUntracked(b: Bridge, rs: seq<Request>, a: Asset)
    requires BridgeInv(b.ledger)
    ensures var l := ServeAll(b, rs).bridge.ledger;
      BridgeInv(l) && Untracked(l, a) == Untracked(b.ledger, a) + Lost(b, rs, a)
  {
    hide BridgeInv, Untracked, Serve;
    if rs != [] {
      var n := |rs| - 1;
      var t := ServeAll(b, rs[..n]);
      RunUntracked(b, rs[..n], a);
      ServeKeepsInv(t.bridge, rs[n]);
      ServeUntracked(t.bridge, rs[n], a);
    }
  }

  function LossAt(b: Bridge, rs: seq<Request>, i: nat, a: Asset): real
    requires i < |rs|
  {
    Loss(ServeAll(b, rs[..i]).bridge, rs[i], a)
  }

  predicate LateRefusal(b: Bridge, rs: seq<Request>, a: Asset) {
    exists i: nat :: i < |rs| && LossAt(b, rs, i, a) > 0.0
  }

  lemma LossAtPrefix(b: Bridge, rs: seq<Request>, n: nat, i: nat, a: Asset)
    requires i < n <= |rs|
    ensures LossAt(b, rs[..n], i, a) == LossAt(b, rs, i, a)
  {
    assert rs[..n][..i] == rs[..i];
  }

  lemma LossNonNeg(b: Bridge, r: Request, a: Asset)
    ensures Loss(b, r, a) >= 0.0
  {
  }

  lemma {:induction false} LostIff(b: Bridge, rs: seq<Request>, a: Asset)
    ensures Lost(b, rs, a) >= 0.0
    ensures Lost(b, rs, a) == 0.0 <==> !LateRefusal(b, rs, a)
  {
    hide Loss, ServeAll, LossAt;
    if rs != [] {
      var n := |rs| - 1;
      LostIff(b, rs[..n], a);
      LossNonNeg(ServeAll(b, rs[..n]).bridge, rs[n], a);
      LastLoss(b, rs, a);
      forall i: nat | i < n
        ensures LossAt(b, rs[..n], i, a) == LossAt(b, rs, i, a)
      {
        LossAtPrefix(b, rs, n, i, a);
      }
    }
  }

  lemma LastLoss(b: Bridge, rs: seq<Request>, a: Asset)
    requires rs != []
    ensures LossAt(b, rs, |rs| - 1, a) == Loss(ServeAll(b, rs[..|rs| - 1]).bridge, rs[|rs| - 1], a)
  {
  }

  /** From a state that tracks what is held: never more than held, and exactly that iff nothing was refused late. */
  lemma RunTracksHoldings(b: Bridge, rs: seq<Request>, a: Asset)
    requires BridgeInv(b.ledger) && Untracked(b.ledger, a) == 0.0
    ensures var l := ServeAll(b, rs).bridge.ledger;
      0.0 <= Tracked(l, a) <= TotalHeld(l, a)
      && (Tracked(l, a) == TotalHeld(l, a) <==> !LateRefusal(b, rs, a))
  {
    hide BridgeInv, Tracked, TotalHeld, LateRefusal, Lost;
    RunUntracked(b, rs, a);
    TrackedNonNeg(ServeAll(b, rs).bridge.ledger, a);
    LostIff(b, rs, a);
  }

  /** Every run of the bridge from its seed, for every asset. */
  lemma SeedRunTracksHoldings(rs: seq<Request>, a: Asset)
    ensures var b := Bridge(Seed(), 0);
      var l := ServeAll(b, rs).bridge.ledger;
      0.0 <= Tracked(l, a) <= TotalHeld(l, a)
      && (Tracked(l, a) == TotalHeld(l, a) <==> !LateRefusal(b, rs, a))
  {
    hide Tracked, TotalHeld, LateRefusal, ServeAll, Seed, BridgeInv;
    SeedTracksHoldings();
    UnseededUntracked(a);
    RunTracksHoldings(Bridge(Seed(), 0), rs, a);
  }

  lemma UnseededUntracked(a: Asset)
    ensures a != Asset("ethereum", "ETH") ==> Untracked(Seed(), a) == 0.0
  {
  }

  lemma SeedTracksHoldings()
    ensures BridgeInv(Seed())
    ensures var eth := Asset("ethereum", "ETH");
      Latest(Seed(), eth).Some? && Untracked(Seed(), eth) == 0.0
  {
    var eth := Asset("ethereum", "ETH");
    var h := Holder("0x123", eth);
    SeedInv();
    assert forall a :: a in Seed().checkpoints ==> a == eth;
    assert forall k :: k in Seed().balances ==> k == h;
    assert Latest(Seed(), eth) == Some(Checkpoint(1, Draft(eth, 100, "0xmockblock", 0.5, 1.0001)));
    var m := SharesIn(Seed(), eth);
    assert m == map[h := 0.5];
    SumWithout(m, h);
    assert m - {h} == map[];
  }

  // ---------- Refusals ----------

  predicate WellFormed(r: Request) {
    r.Redeem? && Named(r.holder) && r.recipient != "" && r.amount > 0.0 && r.token != OtherToken
    && Priced(r.quote) && (r.token == FToken ==> Div(r.amount, r.quote.value) > 0.0)
  }

  predicate Served(reply: Reply) {
    reply.Paid? || reply == HandlerFailed
  }

  /**
   * A redeem goes through exactly when its owner holds the shares and the latest checkpoint still
   * tracks as many. While nothing has been lost the second follows from the first.
   */
  lemma RedeemServedIff(b: Bridge, r: Request)
    requires BridgeInv(b.ledger) && WellFormed(r)
    ensures Served(RedeemStep(b, r).reply)
       <==> BalanceOf(b.ledger, r.holder).shares >= r.amount && Tracked(b.ledger, r.holder.asset) >= r.amount
    ensures Untracked(b.ledger, r.holder.asset) == 0.0 ==>
      (Served(RedeemStep(b, r).reply) <==> BalanceOf(b.ledger, r.holder).shares >= r.amount)
  {
    hide BridgeInv, Inv, TotalHeld;
    var l, h := b.ledger, r.holder;
    SharesNeedCheckpoint(l, h);
    HoldingAtMostTotal(l, h);
    SubmittedShares(l, NextDraft(l, h.asset, r.digest, AfterBurn(l, h.asset, r.amount)), h);
  }

  lemma SharesNeedCheckpoint(l: Ledger, h: Holder)
    requires BridgeInv(l)
    ensures BalancesInStep(l)
    ensures BalanceOf(l, h).shares > 0.0 ==> Latest(l, h.asset).Some?
  {
  }

  /** Half a token of ETH, redeemed as xTokens by some owner. */
  predicate RedeemsHalf(r: Request, owner: string) {
    && r.Redeem? && r.holder == Holder(owner, Asset("ethereum", "ETH")) && r.recipient != ""
    && r.token == XToken && r.amount == 0.5 && Priced(r.quote)
  }

  /**
   * From the seed, a redeem by someone who holds nothing is refused only after its checkpoint has
   * taken the tracked total to zero; the one owner, who still holds it all, is then refused too.
   */
  lemma StrangerLocksOutHolder(stranger: Request, owner: Request)
    requires RedeemsHalf(stranger, "0xabc") && RedeemsHalf(owner, "0x123")
    ensures var first := RedeemStep(Bridge(Seed(), 0), stranger);
      && first.reply == DebitRefused
      && BalanceOf(first.bridge.ledger, owner.holder).shares == 0.5
      && Tracked(first.bridge.ledger, owner.holder.asset) == 0.0
      && RedeemStep(first.bridge, owner).reply == ExceedsTracked
  {
    var b := Bridge(Seed(), 0);
    var eth := Asset("ethereum", "ETH");
    SeedLatest();
    var d := NextDraft(b.ledger, eth, stranger.digest, 0.0);
    NextDraftTotal(b.ledger, eth, stranger.digest, 0.0);
    SubmittedShares(b.ledger, d, stranger.holder);
    SubmittedShares(b.ledger, d, owner.holder);
    SubmittedLatest(b.ledger, d);
    RefusedAfterCheckpoint(b, stranger, d);
  }

  lemma RefusedAfterCheckpoint(b: Bridge, r: Request, d: Draft)
    requires WellFormed(r)
    requires d == NextDraft(b.ledger, r.holder.asset, r.digest, AfterBurn(b.ledger, r.holder.asset, r.amount))
    requires AfterBurn(b.ledger, r.holder.asset, r.amount) >= 0.0 && r.holder !in b.ledger.balances
    ensures RedeemStep(b, r) == Next(b.(ledger := Submitted(b.ledger, d)), DebitRefused)
  {
  }

  lemma SeedLatest()
    ensures var eth := Asset("ethereum", "ETH");
      && Latest(Seed(), eth) == Some(Checkpoint(1, Draft(eth, 100, "0xmockblock", 0.5, 1.0001)))
      && Tracked(Seed(), eth) == 0.5
      && BalanceOf(Seed(), Holder("0x123", eth)).shares == 0.5
      && Holder("0xabc", eth) !in Seed().balances
  {
  }

  /** The late refusals: the checkpoint's total covers the burn and the owner's shares do not. */
  lemma LateRefusalIff(b: Bridge, r: Request)
    requires WellFormed(r) && Latest(b.ledger, r.holder.asset).Some?
    ensures RedeemStep(b, r).reply == DebitRefused
       <==> BalanceOf(b.ledger, r.holder).shares < r.amount <= Tracked(b.ledger, r.holder.asset)
  {
  }

  // ---------- Covered redeems ----------

  function PaidBy(reply: Reply): real {
    if reply.Paid? then reply.payout else 0.0
  }

  predicate Covered(l: Ledger, h: Holder, amount: real) {
    BalanceOf(l, h).shares >= amount && Tracked(l, h.asset) >= amount && Latest(l, h.asset).Some?
  }

  lemma DepositCovers(b: Bridge, r: Request)
    requires r.Deposit? && BridgeInv(b.ledger) && Named(r.holder) && r.amount > 0.0 && Priced(r.quote)
    ensures Covered(DepositStep(b, r).bridge.ledger, r.holder, Shares(SplitMint(r.amount, r.quote.value)))
  {
  }

  /** A covered redeem is never refused for lack of shares, pays what it should, and uses only its part of the cover. */
  lemma CoveredRedeem(b: Bridge, r: Request, cover: real)
    requires r.Redeem? && Named(r.holder) && r.recipient != "" && r.token != OtherToken
    requires Priced(r.quote) && !r.handlerFails
    requires Covered(b.ledger, r.holder, cover) && 0.0 <= r.amount <= cover
    ensures var n := RedeemStep(b, r);
      n.reply != ExceedsTracked && n.reply != DebitRefused
      && PaidBy(n.reply) == (if r.token == FToken then Div(r.amount, r.quote.value) else r.amount)
      && Covered(n.bridge.ledger, r.holder, cover - r.amount)
  {
  }
}
