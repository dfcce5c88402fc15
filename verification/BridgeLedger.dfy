/** The cross-chain ledger (internal/crosschain/service.go): checkpoints, balances, and what every call keeps. */
module BridgeLedger {
  import opened Options

  /** The two joined string keys of the source, as tuples. */
  datatype Asset = Asset(chain: string, name: string)
  datatype Holder = Holder(owner: string, asset: Asset)

  /** What a caller submits; the service adds the update id. */
  datatype Draft = Draft(asset: Asset, blockNumber: nat, blockHash: string, totalShares: real, index: real)
  datatype Checkpoint = Checkpoint(updateId: nat, draft: Draft)

  datatype Balance = Balance(shares: real, index: real, value: real, lastCheckpoint: nat)

  datatype Ledger = Ledger(
    checkpoints: map<Asset, seq<Checkpoint>>,
    balances: map<Holder, Balance>,
    updateCounter: nat)

  function History(l: Ledger, a: Asset): seq<Checkpoint> {
    if a in l.checkpoints then l.checkpoints[a] else []
  }

  function Latest(l: Ledger, a: Asset): Option<Checkpoint> {
    var cps := History(l, a);
    if cps == [] then None else Some(cps[|cps| - 1])
  }

  /** The index shares are valued at: that of the latest checkpoint, or 1 without a usable one. */
  function IndexFor(l: Ledger, a: Asset): real {
    var cp := Latest(l, a);
    if cp.Some? && cp.value.draft.index != 0.0 then cp.value.draft.index else 1.0
  }

  const NOTHING: Balance := Balance(0.0, 0.0, 0.0, 0)

  function BalanceOf(l: Ledger, h: Holder): Balance {
    if h in l.balances then l.balances[h] else NOTHING
  }

  // ---------- The three writes ----------

  function Revalued(b: Balance, index: real, updateId: nat): Balance {
    Balance(b.shares, index, b.shares * index, updateId)
  }

  function Submitted(l: Ledger, d: Draft): Ledger {
    var id := l.updateCounter + 1;
    Ledger(
      l.checkpoints[d.asset := History(l, d.asset) + [Checkpoint(id, d)]],
      map h | h in l.balances ::
        if h.asset == d.asset then Revalued(l.balances[h], d.index, id) else l.balances[h],
      id)
  }

  predicate Submittable(d: Draft) {
    d.asset.chain != "" && d.asset.name != ""
  }

  /** A balance after its shares changed to the given number. */
  function Settled(l: Ledger, h: Holder, shares: real): Balance {
    var cp := Latest(l, h.asset);
    Balance(shares, IndexFor(l, h.asset), shares * IndexFor(l, h.asset),
            if cp.Some? then cp.value.updateId else BalanceOf(l, h).lastCheckpoint)
  }

  predicate Creditable(h: Holder, shares: real) {
    h.owner != "" && shares > 0.0
  }

  function Credited(l: Ledger, h: Holder, shares: real): Ledger {
    l.(balances := l.balances[h := Settled(l, h, BalanceOf(l, h).shares + shares)])
  }

  predicate Debitable(l: Ledger, h: Holder, shares: real) {
    h.owner != "" && shares > 0.0 && h in l.balances && l.balances[h].shares >= shares
  }

  function Debited(l: Ledger, h: Holder, shares: real): Ledger {
    l.(balances := l.balances[h := Settled(l, h, BalanceOf(l, h).shares - shares)])
  }

  /** One locked call; a refused one changes nothing. Reads change nothing either. */
  datatype Op =
    | Submit(draft: Draft)
    | Credit(holder: Holder, shares: real)
    | Debit(holder: Holder, shares: real)
    | Read

  function Step(l: Ledger, op: Op): Ledger {
    match op
    case Submit(d) => if Submittable(d) then Submitted(l, d) else l
    case Credit(h, x) => if Creditable(h, x) then Credited(l, h, x) else l
    case Debit(h, x) => if Debitable(l, h, x) then Debited(l, h, x) else l
    case Read => l
  }

  function Run(l: Ledger, ops: seq<Op>): Ledger {
    if ops == [] then l else Step(Run(l, ops[..|ops| - 1]), ops[|ops| - 1])
  }

  // ---------- The invariant ----------

  predicate Increasing(cps: seq<Checkpoint>) {
    forall i, j :: 0 <= i < j < |cps| ==> cps[i].updateId < cps[j].updateId
  }

  predicate IdsGrow(l: Ledger) {
    forall a :: a in l.checkpoints ==> Increasing(l.checkpoints[a])
  }

  predicate IdWithin(l: Ledger, a: Asset, cp: Checkpoint) {
    0 < cp.updateId <= l.updateCounter && cp.draft.asset == a
  }

  predicate IdsWithin(l: Ledger) {
    forall a, i :: a in l.checkpoints && 0 <= i < |l.checkpoints[a]| ==> IdWithin(l, a, l.checkpoints[a][i])
  }

  /** No two lists share an id. */
  predicate Apart(s: seq<Checkpoint>, t: seq<Checkpoint>) {
    forall i, j :: 0 <= i < |s| && 0 <= j < |t| ==> s[i].updateId != t[j].updateId
  }

  predicate IdsApart(l: Ledger) {
    forall a, b :: a in l.checkpoints && b in l.checkpoints && a != b ==>
      Apart(l.checkpoints[a], l.checkpoints[b])
  }

  /** Ids grow along every list, stay within the counter, and are never shared between assets. */
  predicate IdsInOrder(l: Ledger) {
    IdsGrow(l) && IdsWithin(l) && IdsApart(l)
  }

  /**
   * A balance is worth its shares at its index, and follows the latest checkpoint of its asset.
   * A checkpoint with index 0 leaves balances at 0 until their next change, and at 1 from then on.
   */
  predicate BalanceInStep(l: Ledger, h: Holder, b: Balance) {
    && b.shares >= 0.0
    && b.value == b.shares * b.index
    && match Latest(l, h.asset)
       case None => b.lastCheckpoint == 0 && b.index == 1.0
       case Some(cp) =>
         && b.lastCheckpoint == cp.updateId
         && if cp.draft.index != 0.0 then b.index == cp.draft.index else b.index == 0.0 || b.index == 1.0
  }

  predicate BalancesInStep(l: Ledger) {
    forall h :: h in l.balances ==> BalanceInStep(l, h, l.balances[h])
  }

  predicate Inv(l: Ledger) {
    IdsInOrder(l) && BalancesInStep(l)
  }

  /** The seed: one vault with half a share, all of it held by one owner. */
  function Seed(): Ledger {
    var eth := Asset("ethereum", "ETH");
    Ledger(
      map[eth := [Checkpoint(1, Draft(eth, 100, "0xmockblock", 0.5, 1.0001))]],
      map[Holder("0x123", eth) := Balance(0.5, 1.0001, 0.50005, 1)],
      1)
  }

  lemma SeedInv()
    ensures Inv(Seed())
  {
  }

  lemma SubmittedIds(l: Ledger, d: Draft)
    requires IdsInOrder(l)
    ensures IdsInOrder(Submitted(l, d))
  {
    SubmittedIdsWithin(l, d);
    SubmittedIdsGrow(l, d);
    SubmittedIdsApart(l, d);
  }

  lemma SubmittedIdsWithin(l: Ledger, d: Draft)
    requires IdsWithin(l)
    ensures IdsWithin(Submitted(l, d))
  {
  }

  lemma SubmittedIdsGrow(l: Ledger, d: Draft)
    requires IdsGrow(l) && IdsWithin(l)
    ensures IdsGrow(Submitted(l, d))
  {
  }

  lemma SubmittedIdsApart(l: Ledger, d: Draft)
    requires IdsApart(l) && IdsWithin(l)
    ensures IdsApart(Submitted(l, d))
  {
  }

  lemma SubmittedBalances(l: Ledger, d: Draft)
    requires BalancesInStep(l)
    ensures BalancesInStep(Submitted(l, d))
    ensures Latest(Submitted(l, d), d.asset) == Some(Checkpoint(l.updateCounter + 1, d))
    ensures forall a :: a != d.asset ==> Latest(Submitted(l, d), a) == Latest(l, a)
  {
    var r := Submitted(l, d);
    assert forall a :: a != d.asset ==> History(r, a) == History(l, a);
    forall h | h in r.balances
      ensures BalanceInStep(r, h, r.balances[h])
    {
      assert BalanceInStep(l, h, l.balances[h]);
    }
  }

  lemma SettledInStep(l: Ledger, h: Holder, shares: real)
    requires BalancesInStep(l) && shares >= 0.0
    ensures BalanceInStep(l, h, Settled(l, h, shares))
    ensures BalancesInStep(l.(balances := l.balances[h := Settled(l, h, shares)]))
  {
  }

  lemma SameIds(l: Ledger, r: Ledger)
    requires IdsInOrder(l) && r.checkpoints == l.checkpoints && r.updateCounter == l.updateCounter
    ensures IdsInOrder(r)
  {
  }

  lemma SettledInv(l: Ledger, h: Holder, shares: real)
    requires Inv(l) && shares >= 0.0
    ensures Inv(l.(balances := l.balances[h := Settled(l, h, shares)]))
  {
    SettledInStep(l, h, shares);
    SameIds(l, l.(balances := l.balances[h := Settled(l, h, shares)]));
  }

  lemma SubmittedInv(l: Ledger, d: Draft)
    requires Inv(l)
    ensures Inv(Submitted(l, d))
  {
    SubmittedIds(l, d);
    SubmittedBalances(l, d);
  }

  lemma CreditedInv(l: Ledger, h: Holder, x: real)
    requires Inv(l) && Creditable(h, x)
    ensures Inv(Credited(l, h, x))
  {
    HeldNonNeg(l, h);
    hide Inv, Settled;
    SettledInv(l, h, BalanceOf(l, h).shares + x);
  }

  lemma DebitedInv(l: Ledger, h: Holder, x: real)
    requires Inv(l) && Debitable(l, h, x)
    ensures Inv(Debited(l, h, x))
  {
    hide Inv, Settled;
    SettledInv(l, h, BalanceOf(l, h).shares - x);
  }

  lemma StepKeepsInv(l: Ledger, op: Op)
    requires Inv(l)
    ensures Inv(Step(l, op))
  {
    hide Inv, Submitted, Credited, Debited;
    match op
    case Submit(d) => SubmittedInv(l, d);
    case Credit(h, x) =>
      if Creditable(h, x) {
        CreditedInv(l, h, x);
      }
    case Debit(h, x) =>
      if Debitable(l, h, x) {
        DebitedInv(l, h, x);
      }
    case Read =>
  }

  lemma HeldNonNeg(l: Ledger, h: Holder)
    requires BalancesInStep(l)
    ensures BalanceOf(l, h).shares >= 0.0
  {
  }

  /** Whatever order the calls take the lock in. */
  lemma {:induction false} RunKeepsInv(l: Ledger, ops: seq<Op>)
    requires Inv(l)
    ensures Inv(Run(l, ops))
  {
    if ops != [] {
      RunKeepsInv(l, ops[..|ops| - 1]);
      StepKeepsInv(Run(l, ops[..|ops| - 1]), ops[|ops| - 1]);
    }
  }

  /** A run only appends to the checkpoint lists. */
  lemma {:induction false} HistoryOnlyGrows(l: Ledger, ops: seq<Op>, a: Asset)
    ensures History(l, a) <= History(Run(l, ops), a)
  {
    if ops != [] {
      HistoryOnlyGrows(l, ops[..|ops| - 1], a);
    }
  }

  // ---------- Shares in total ----------

  function SharesIn(l: Ledger, a: Asset): map<Holder, real> {
    map h | h in l.balances && h.asset == a :: l.balances[h].shares
  }

  ghost function Sum(m: map<Holder, real>): real
    decreases |m|
  {
    if m == map[] then 0.0
    else
      var h :| h in m;
      m[h] + Sum(m - {h})
  }

  ghost function TotalHeld(l: Ledger, a: Asset): real {
    Sum(SharesIn(l, a))
  }

  /** The sum does not depend on the order the entries are taken in. */
  lemma {:induction false} SumWithout(m: map<Holder, real>, h: Holder)
    requires h in m
    ensures Sum(m) == m[h] + Sum(m - {h})
    decreases |m|
  {
    var k :| k in m && Sum(m) == m[k] + Sum(m - {k});
    if k != h {
      SumWithout(m - {k}, h);
      SumWithout(m - {h}, k);
      assert m - {k} - {h} == m - {h} - {k};
    }
  }

  lemma SumUpdate(m: map<Holder, real>, h: Holder, x: real)
    ensures Sum(m[h := x]) == Sum(m) + x - if h in m then m[h] else 0.0
  {
    var r := m[h := x];
    SumWithout(r, h);
    assert r - {h} == m - {h};
    if h in m {
      SumWithout(m, h);
    } else {
      assert m - {h} == m;
    }
  }

  lemma {:induction false} EntryAtMostSum(m: map<Holder, real>, h: Holder)
    requires forall k :: k in m ==> m[k] >= 0.0
    ensures 0.0 <= Sum(m)
    ensures h in m ==> m[h] <= Sum(m)
    decreases |m|
  {
    if h in m {
      SumWithout(m, h);
      EntryAtMostSum(m - {h}, h);
    } else if m != map[] {
      var k :| k in m;
      SumWithout(m, k);
      EntryAtMostSum(m - {k}, h);
    }
  }

  lemma SubmittedTotal(l: Ledger, d: Draft, a: Asset)
    ensures TotalHeld(Submitted(l, d), a) == TotalHeld(l, a)
  {
    assert SharesIn(Submitted(l, d), a) == SharesIn(l, a);
  }

  lemma SettledTotal(l: Ledger, h: Holder, shares: real, a: Asset)
    ensures TotalHeld(l.(balances := l.balances[h := Settled(l, h, shares)]), a)
         == TotalHeld(l, a) + if h.asset == a then shares - BalanceOf(l, h).shares else 0.0
  {
    var r := l.(balances := l.balances[h := Settled(l, h, shares)]);
    if h.asset == a {
      assert SharesIn(r, a) == SharesIn(l, a)[h := shares];
      SumUpdate(SharesIn(l, a), h, shares);
    } else {
      assert SharesIn(r, a) == SharesIn(l, a);
    }
  }

  lemma HoldingAtMostTotal(l: Ledger, h: Holder)
    requires BalancesInStep(l)
    ensures 0.0 <= BalanceOf(l, h).shares <= TotalHeld(l, h.asset)
  {
    forall k | k in SharesIn(l, h.asset)
      ensures SharesIn(l, h.asset)[k] >= 0.0
    {
      assert BalanceInStep(l, k, l.balances[k]);
    }
    EntryAtMostSum(SharesIn(l, h.asset), h);
  }
}
