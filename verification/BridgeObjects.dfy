/** The ledger service and the bridge worker as objects, each call proved against the steps above. */
module BridgeObjects {
  import opened Options
  import opened BridgeAmounts
  import opened BridgeLedger
  import opened BridgeFlows

  class Service {
    var checkpoints: map<Asset, seq<Checkpoint>>
    var balances: map<Holder, Balance>
    var updateCounter: nat

    ghost function Value(): Ledger
      reads this
    {
      Ledger(checkpoints, balances, updateCounter)
    }

    constructor ()
      ensures Value() == Seed()
    {
      var key := Asset("ethereum", "ETH");
      checkpoints := map[key := [Checkpoint(1, Draft(key, 100, "0xmockblock", 0.5, 1.0001))]];
      balances := map[Holder("0x123", key) := Balance(0.5, 1.0001, 0.50005, 1)];
      updateCounter := 1;
    }

    method LatestCheckpoint(a: Asset) returns (cp: Option<Checkpoint>)
      ensures cp == Latest(Value(), a)
    {
      var cps := if a in checkpoints then checkpoints[a] else [];
      if |cps| == 0 {
        return None;
      }
      cp := Some(cps[|cps| - 1]);
    }

    method ValuationIndex(a: Asset) returns (index: real)
      ensures index == IndexFor(Value(), a)
    {
      index := 1.0;
      var cp := LatestCheckpoint(a);
      if cp.Some? && cp.value.draft.index != 0.0 {
        index := cp.value.draft.index;
      }
    }

    method CreditDeposit(h: Holder, shares: real) returns (b: Option<Balance>)
      modifies this
      ensures Value() == Step(old(Value()), Credit(h, shares))
      ensures b == if Creditable(h, shares) then Some(balances[h]) else None
      ensures Creditable(h, shares) ==> h in balances
    {
      if h.owner == "" || shares <= 0.0 {
        return None;
      }
      var index := ValuationIndex(h.asset);
      var bal := NOTHING;
      if h in balances {
        bal := balances[h];
      }
      var held := bal.shares + shares;
      bal := bal.(shares := held, index := index, value := held * index);
      var cp := LatestCheckpoint(h.asset);
      if cp.Some? {
        bal := bal.(lastCheckpoint := cp.value.updateId);
      }
      assert bal == Settled(old(Value()), h, BalanceOf(old(Value()), h).shares + shares);
      balances := balances[h := bal];
      b := Some(bal);
    }

    method DebitWithdrawal(h: Holder, shares: real) returns (b: Option<Balance>)
      modifies this
      ensures Value() == Step(old(Value()), Debit(h, shares))
      ensures b.Some? <==> Debitable(old(Value()), h, shares)
      ensures b.Some? ==> h in balances && b.value == balances[h]
    {
      if h.owner == "" || shares <= 0.0 {
        return None;
      }
      var index := ValuationIndex(h.asset);
      if h !in balances || balances[h].shares < shares {
        return None;
      }
      var bal := balances[h];
      var held := bal.shares - shares;
      bal := bal.(shares := held, index := index, value := held * index);
      var cp := LatestCheckpoint(h.asset);
      if cp.Some? {
        bal := bal.(lastCheckpoint := cp.value.updateId);
      }
      assert bal == Settled(old(Value()), h, BalanceOf(old(Value()), h).shares - shares);
      balances := balances[h := bal];
      b := Some(bal);
    }

    method SubmitCheckpoint(d: Draft) returns (cp: Option<Checkpoint>)
      modifies this
      ensures Value() == Step(old(Value()), Submit(d))
      ensures cp == if Submittable(d) then Latest(Value(), d.asset) else None
    {
      if d.asset.chain == "" || d.asset.name == "" {
        return None;
      }
      updateCounter := updateCounter + 1;
      var created := Checkpoint(updateCounter, d);
      var list := if d.asset in checkpoints then checkpoints[d.asset] else [];
      checkpoints := checkpoints[d.asset := list + [created]];
      RevalueBalances(created);
      cp := Some(created);
    }

    /** Moves every balance of the checkpoint's asset to its index. */
    method RevalueBalances(cp: Checkpoint)
      modifies `balances
      ensures balances == map h | h in old(balances) ::
        if h.asset == cp.draft.asset then Revalued(old(balances)[h], cp.draft.index, cp.updateId)
        else old(balances)[h]
    {
      ghost var was := balances;
      var pending := balances.Keys;
      while pending != {}
        invariant pending <= was.Keys && balances.Keys == was.Keys
        invariant forall h :: h in pending ==> balances[h] == was[h]
        invariant forall h :: h in was && h !in pending ==>
          balances[h] == if h.asset == cp.draft.asset then Revalued(was[h], cp.draft.index, cp.updateId) else was[h]
        decreases |pending|
      {
        var h :| h in pending;
        if h.asset == cp.draft.asset {
          var bal := balances[h];
          balances := balances[h := Balance(bal.shares, cp.draft.index, bal.shares * cp.draft.index, cp.updateId)];
        }
        pending := pending - {h};
      }
    }

    /** An owner without a balance sees zero shares at the latest checkpoint. */
    method GetBalance(h: Holder) returns (b: Option<Balance>)
      requires BalancesInStep(Value())
      ensures b.None? <==> h.owner == ""
      ensures b.Some? ==> b.value.shares == BalanceOf(Value(), h).shares
                          && b.value.value == b.value.shares * b.value.index
      ensures b.Some? && Latest(Value(), h.asset).Some? ==>
        b.value.lastCheckpoint == Latest(Value(), h.asset).value.updateId
      ensures b.Some? && h in balances ==> b.value == balances[h]
      ensures b.Some? && h !in balances ==> b.value == match Latest(Value(), h.asset)
        case None => NOTHING
        case Some(cp) => Balance(0.0, cp.draft.index, 0.0, cp.updateId)
    {
      if h.owner == "" {
        return None;
      }
      if h in balances {
        assert BalanceInStep(Value(), h, Value().balances[h]);
        return Some(balances[h]);
      }
      var cp := LatestCheckpoint(h.asset);
      var index, id := 0.0, 0;
      if cp.Some? {
        index, id := cp.value.draft.index, cp.value.updateId;
      }
      assert 0.0 * index == 0.0;
      b := Some(Balance(0.0, index, 0.0, id));
    }
  }

  class BridgeWorker {
    const svc: Service
    var counter: nat

    ghost function Value(): Bridge
      reads this, svc
    {
      Bridge(svc.Value(), counter)
    }

    constructor (service: Service)
      ensures svc == service && counter == 0
    {
      svc, counter := service, 0;
    }

    /** Submit and handle: the queue between them is not modelled. */
    method HandleDeposit(r: Request) returns (reply: Reply)
      requires r.Deposit?
      modifies this, svc
      ensures Next(Value(), reply) == DepositStep(old(Value()), r)
    {
      hide SplitMint, Submitted, Credited, Settled;
      if r.holder.owner == "" || r.holder.asset.name == "" || r.holder.asset.chain == "" || r.amount <= 0.0 {
        return InvalidRequest;
      }
      if r.quote.None? || r.quote.value <= 0.0 {
        return NoPrice;
      }
      var split := SplitMint(r.amount, r.quote.value);
      var shares := split.f + split.x;
      var last := svc.LatestCheckpoint(r.holder.asset);
      var total, index, block, hash := shares, 1.0, 1, r.txHash;
      if last.Some? {
        var d := last.value.draft;
        total := d.totalShares + shares;
        block := d.blockNumber + 1;
        if d.index != 0.0 {
          index := d.index;
        }
        if hash == "" {
          hash := d.blockHash;
        }
      }
      var next := Draft(r.holder.asset, block, hash, total, index);
      ghost var was := svc.Value();
      assert next == NextDraft(was, r.holder.asset, r.txHash, Tracked(was, r.holder.asset) + shares);
      hide Latest, NextDraft, IndexFor, Tracked;
      var cp := svc.SubmitCheckpoint(next);
      SubmittedLatest(old(svc.Value()), next);
      var bal := svc.CreditDeposit(r.holder, shares);
      if bal.None? {
        return CreditRefused;
      }
      counter := counter + 1;
      if r.handlerFails {
        return HandlerFailed;
      }
      reply := Minted(counter, cp.value.updateId, split.f, split.x);
    }

    method HandleRedeem(r: Request) returns (reply: Reply)
      requires r.Redeem?
      modifies this, svc
      ensures Next(Value(), reply) == RedeemStep(old(Value()), r)
    {
      hide Div, Submitted, Debited, Settled;
      if r.holder.owner == "" || r.holder.asset.name == "" || r.holder.asset.chain == ""
         || r.recipient == "" || r.amount <= 0.0 || r.token == OtherToken {
        return InvalidRequest;
      }
      if r.quote.None? || r.quote.value <= 0.0 {
        return NoPrice;
      }
      var payout := r.amount;
      if r.token == FToken {
        payout := Div(r.amount, r.quote.value);
      }
      if payout <= 0.0 {
        return NothingToPay;
      }
      var last := svc.LatestCheckpoint(r.holder.asset);
      var total, index, block, hash := 0.0, 1.0, 1, r.digest;
      if last.Some? {
        var d := last.value.draft;
        block := d.blockNumber + 1;
        if d.index != 0.0 {
          index := d.index;
        }
        if hash == "" {
          hash := d.blockHash;
        }
        total := d.totalShares - r.amount;
        if total < 0.0 {
          return ExceedsTracked;
        }
      }
      var next := Draft(r.holder.asset, block, hash, total, index);
      ghost var was := svc.Value();
      assert next == NextDraft(was, r.holder.asset, r.digest, AfterBurn(was, r.holder.asset, r.amount));
      hide Latest, NextDraft, IndexFor, Tracked, AfterBurn;
      var cp := svc.SubmitCheckpoint(next);
      SubmittedLatest(old(svc.Value()), next);
      var bal := svc.DebitWithdrawal(r.holder, r.amount);
      if bal.None? {
        return DebitRefused;
      }
      counter := counter + 1;
      if r.handlerFails {
        return HandlerFailed;
      }
      reply := Paid(counter, cp.value.updateId, payout);
    }
  }
}
