/**
 * The reference design the pool speeds up: books that store every user's deposit and owed SUI and
 * walk all users at every burn, payout and total. The O(1) pool is shown to refine them: same
 * books, and the same answer to every call.
 */
module NaiveLedger {
  import opened Reals
  import opened StabilityPool
  import opened ProtocolCore
  import opened ProtocolWorld
  import opened ProtocolInvariants
  import opened ProtocolSafety
  import opened UserSums

  datatype Account = Account(free: real, deposit: real, owed: real)

  type Ledger = seq<Account>

  function Total(l: Ledger): real {
    if l == [] then 0.0 else Total(l[..|l| - 1]) + l[|l| - 1].deposit
  }

  /** One account's part of burning `burned` from and paying `sui` to all deposits, pro rata. */
  function Shared(a: Account, total: real, burned: real, sui: real): Account
    requires total != 0.0
  {
    Account(a.free, a.deposit - burned * a.deposit / total, a.owed + sui * a.deposit / total)
  }

  function Distribute(l: Ledger, burned: real, sui: real): (r: Ledger)
    requires Total(l) != 0.0
    ensures |r| == |l|
    ensures forall i :: 0 <= i < |l| ==> r[i] == Shared(l[i], Total(l), burned, sui)
  {
    seq(|l|, i requires 0 <= i < |l| => Shared(l[i], Total(l), burned, sui))
  }

  function Owed(l: Ledger): real {
    if l == [] then 0.0 else Owed(l[..|l| - 1]) + l[|l| - 1].owed
  }

  /**
   * The books: the core, the accounts, what settlements dropped, and what one share handed out at
   * the start would be worth by now. The last is only needed for the source's dust guard on harvests,
   * which counts shares.
   */
  datatype Books = Books(core: Core, accounts: Ledger, forfeited: real, unit: real)

  datatype Entry = Entry(books: Books, outcome: Outcome)

  /** The pool's aggregates, formed by walking all accounts: all the core ever asks of a pool. */
  function Aggregates(b: Books): Pool {
    Pool(1.0, Total(b.accounts), 0.0, Owed(b.accounts) + b.forfeited)
  }

  /** One call on the books; whether it is accepted and what it returns is decided here. */
  function NaiveStep(b: Books, op: Op): Entry {
    match op
    case Join => Entry(b.(accounts := b.accounts + [Account(0.0, 0.0, 0.0)]), Amount(0.0))
    case Oracle(price, now) =>
      if OracleAccepts(b.core, price, now) then Entry(b.(core := Repriced(b.core, price, now)), Amount(price))
      else Entry(b, Rejected)
    case L3(target) => NaiveL3(b, target)
    case Harvest(y) => NaiveHarvest(b, y)
    case _ => if op.user < |b.accounts| then NaiveUserCall(b, op) else Entry(b, Rejected)
  }

  function NaiveUserCall(b: Books, op: Op): Entry
    requires op.Mint? || op.Redeem? || op.Deposit? || op.Withdraw? || op.Claim?
    requires op.user < |b.accounts|
  {
    var k, a := op.user, b.accounts[op.user];
    match op
    case Mint(_, sui) =>
      if sui <= 0.0 then Entry(b, Rejected)
      else
        var f := IssuedF(b.core, sui);
        Entry(b.(core := Minted(b.core, sui), accounts := b.accounts[k := a.(free := a.free + f)]), Amount(f))
    case Redeem(_, f) =>
      if f > a.free || !CanRedeem(b.core, Aggregates(b), f) then Entry(b, Rejected)
      else
        Entry(b.(core := Redeemed(b.core, f), accounts := b.accounts[k := a.(free := a.free - f)]),
              Amount(SuiFor(b.core, f)))
    case Deposit(_, f) =>
      if !(0.0 < f <= a.free) then Entry(b, Rejected)
      else
        Entry(b.(accounts := b.accounts[k := Account(a.free - f, a.deposit + f, 0.0)],
                 forfeited := b.forfeited + a.owed), Amount(f))
    case Withdraw(_, f) =>
      if !(0.0 < f <= a.deposit + EPS) then Entry(b, Rejected)
      else
        Entry(b.(accounts := b.accounts[k := Account(a.free + f, a.deposit - f, 0.0)],
                 forfeited := b.forfeited + a.owed), Amount(f))
    case Claim(_) =>
      if a.owed <= EPS then
        Entry(b.(accounts := b.accounts[k := a.(owed := 0.0)], forfeited := b.forfeited + a.owed), Amount(0.0))
      else if !CanPay(b.core, a.owed) then Entry(b, Rejected)
      else Entry(b.(core := Paid(b.core, a.owed), accounts := b.accounts[k := a.(owed := 0.0)]), Amount(a.owed))
  }

  /** Burns what the core asks for from all deposits pro rata and owes everyone the worth of their part. */
  function NaiveL3(b: Books, target: real): Entry {
    if L3Raises(b.core, target) then Entry(b, Rejected)
    else
      var f := L3Quote(b.core, Aggregates(b), target);
      if f == 0.0 || Total(b.accounts) == 0.0 then Entry(b, Burned(0.0, 0.0))
      else
        var sui := SuiFor(b.core, f);
        Entry(b.(core := UpdatePx(b.core.(nf := b.core.nf - f)),
                 accounts := Distribute(b.accounts, f, sui),
                 unit := b.unit * (1.0 - f / Total(b.accounts))),
              Burned(f, sui))
  }

  function NaiveHarvest(b: Books, y: real): Entry {
    if y <= EPS || b.unit == 0.0 || Total(b.accounts) / b.unit <= EPS || Total(b.accounts) == 0.0
    then Entry(b, Amount(0.0))
    else Entry(b.(accounts := Distribute(b.accounts, 0.0, y - Bounty(y))), Amount(Bounty(y)))
  }

  function AccountOf(u: User, p: Pool): Account {
    Account(u.free, DepositOf(u, p), PendingOf(u, p))
  }

  /** The ledger a pool state stands for. */
  function View(us: seq<User>, p: Pool): (l: Ledger)
    ensures |l| == |us|
    ensures forall i :: 0 <= i < |us| ==> l[i] == AccountOf(us[i], p)
  {
    seq(|us|, i requires 0 <= i < |us| => AccountOf(us[i], p))
  }

  function LedgerOf(w: World): Ledger {
    View(w.users, w.pool)
  }

  /** The books a state stands for. */
  function BooksOf(w: World): Books {
    Books(w.core, LedgerOf(w), w.forfeited, w.pool.scale)
  }

  lemma {:induction false} OwedIsPending(us: seq<User>, p: Pool)
    ensures Owed(View(us, p)) == Sum(us, Pending(p.index))
  {
    if us != [] {
      var n := |us| - 1;
      OwedIsPending(us[..n], p);
      assert View(us, p)[..n] == View(us[..n], p);
    }
  }

  /** Total and obligation of the pool are the sums over the accounts. */
  lemma AggregatesAreThePools(w: World)
    requires Inv(w)
    ensures var a := Aggregates(BooksOf(w));
      TotalF(a) == TotalF(w.pool) && a.obligation == w.pool.obligation
      && Total(LedgerOf(w)) == TotalF(w.pool)
  {
    TotalIsTotalF(w);
    OwedIsPending(w.users, w.pool);
  }

  lemma {:induction false} TotalIsDeposits(us: seq<User>, p: Pool)
    ensures Total(View(us, p)) == Sum(us, Deposits(p.scale))
  {
    if us != [] {
      var n := |us| - 1;
      TotalIsDeposits(us[..n], p);
      assert View(us, p)[..n] == View(us[..n], p);
    }
  }

  /** The sum the ledger forms by walking all users is the pool's one multiplication. */
  lemma TotalIsTotalF(w: World)
    requires Inv(w)
    ensures Total(LedgerOf(w)) == TotalF(w.pool)
  {
    TotalIsDeposits(w.users, w.pool);
    SumDeposits(w.users, w.pool.scale);
  }

  /** Moving scale and index together walks every account at once. */
  lemma PoolMoveDistributes(w: World, p: Pool, burned: real, sui: real)
    requires Inv(w) && TotalF(w.pool) > 0.0 && w.pool.scaledTotal > 0.0
    requires p.scaledTotal == w.pool.scaledTotal
    requires TotalF(p) == TotalF(w.pool) - burned
    requires (p.index - w.pool.index) * w.pool.scaledTotal == sui
    ensures Total(LedgerOf(w)) == TotalF(w.pool)
    ensures View(w.users, p) == Distribute(LedgerOf(w), burned, sui)
  {
    TotalIsTotalF(w);
    var d := Distribute(LedgerOf(w), burned, sui);
    forall i | 0 <= i < |w.users| ensures AccountOf(w.users[i], p) == d[i] {
      AccountMove(w.users[i], w.pool, p, burned, sui);
    }
  }

  lemma AccountMove(u: User, p: Pool, q: Pool, burned: real, sui: real)
    requires p.scale > 0.0 && p.scaledTotal > 0.0 && TotalF(p) > 0.0
    requires q.scaledTotal == p.scaledTotal && TotalF(q) == TotalF(p) - burned
    requires (q.index - p.index) * p.scaledTotal == sui
    ensures AccountOf(u, q) == Shared(AccountOf(u, p), TotalF(p), burned, sui)
  {
  }

  /** One call on the pool is one call on the books, with the same answer. */
  lemma StepRefines(w: World, op: Op)
    requires Inv(w)
    ensures Entry(BooksOf(Step(w, op).world), Step(w, op).outcome) == NaiveStep(BooksOf(w), op)
  {
    hide Inv;
    match op
    case Join => assert View(w.users + [NEW_USER], w.pool) == LedgerOf(w) + [AccountOf(NEW_USER, w.pool)];
    case Oracle(price, now) =>
    case L3(target) => L3Refines(w, target);
    case Harvest(y) => HarvestRefines(w, y);
    case _ =>
      if op.user < |w.users| {
        UserCallRefines(w, op);
      }
  }

  /** What callers are told is what the books would tell them. */
  lemma OutcomesAreTheLedgers(w: World, op: Op)
    requires Inv(w)
    ensures Step(w, op).outcome == NaiveStep(BooksOf(w), op).outcome
  {
    StepRefines(w, op);
  }

  /** Replacing one user's record changes that account only. */
  lemma ViewUpdate(us: seq<User>, k: nat, u: User, p: Pool, q: Pool)
    requires k < |us| && q.scale == p.scale && q.index == p.index
    ensures View(us[k := u], q) == View(us, p)[k := AccountOf(u, p)]
  {
    var vs := us[k := u];
    forall i | 0 <= i < |us|
      ensures View(vs, q)[i] == View(us, p)[k := AccountOf(u, p)][i]
    {
      assert AccountOf(vs[i], q) == AccountOf(vs[i], p);
    }
  }

  lemma UserCallRefines(w: World, op: Op)
    requires Inv(w) && (op.Mint? || op.Redeem? || op.Deposit? || op.Withdraw? || op.Claim?)
    requires op.user < |w.users|
    ensures Entry(BooksOf(Step(w, op).world), Step(w, op).outcome) == NaiveUserCall(BooksOf(w), op)
  {
    var k := op.user;
    var v := Step(w, op).world;
    AnswerAgrees(w, op);
    if Step(w, op).outcome != Rejected {
      assert v.users == w.users[k := v.users[k]];
      ViewUpdate(w.users, k, v.users[k], w.pool, v.pool);
      AccountAfter(w, op);
    }
  }

  /** Acceptance, amount, core and dropped SUI of one user's call. */
  lemma AnswerAgrees(w: World, op: Op)
    requires Inv(w) && (op.Mint? || op.Redeem? || op.Deposit? || op.Withdraw? || op.Claim?)
    requires op.user < |w.users|
    ensures var n, e := Step(w, op), NaiveUserCall(BooksOf(w), op);
      && n.outcome == e.outcome && n.world.core == e.books.core && n.world.forfeited == e.books.forfeited
      && n.world.pool.scale == e.books.unit && n.world.pool.index == w.pool.index
      && (n.outcome == Rejected ==> n.world == w && e.books == BooksOf(w))
  {
    AggregatesAreThePools(w);
    PendingWithinObligation(w, op.user);
  }

  lemma AccountAfter(w: World, op: Op)
    requires Inv(w) && (op.Mint? || op.Redeem? || op.Deposit? || op.Withdraw? || op.Claim?)
    requires op.user < |w.users| && Step(w, op).outcome != Rejected
    ensures var n := Step(w, op);
      var a := AccountOf(w.users[op.user], w.pool);
      AccountOf(n.world.users[op.user], w.pool)
      == match op
         case Mint(k, sui) => a.(free := a.free + n.outcome.value)
         case Redeem(k, f) => a.(free := a.free - f)
         case Deposit(k, f) => Account(a.free - f, a.deposit + f, 0.0)
         case Withdraw(k, f) => Account(a.free + f, a.deposit - f, 0.0)
         case _ => a.(owed := 0.0)
  {
    hide Inv;
    var u := w.users[op.user];
    match op
    case Deposit(k, f) => Moved(u, w.pool, f);
    case Withdraw(k, f) => Moved(u, w.pool, f);
    case Claim(k) => assert PendingOf(Settled(u, w.pool), w.pool) == 0.0;
    case _ =>
  }

  lemma Moved(u: User, p: Pool, f: real)
    requires p.scale != 0.0
    ensures AccountOf(Deposited(u, p, f), p) == Account(u.free - f, DepositOf(u, p) + f, 0.0)
    ensures AccountOf(Withdrawn(u, p, f), p) == Account(u.free + f, DepositOf(u, p) - f, 0.0)
  {
    var s := f / p.scale;
    assert s * p.scale == f;
    assert (u.scaled + s) * p.scale == u.scaled * p.scale + s * p.scale;
    assert (u.scaled - s) * p.scale == u.scaled * p.scale - s * p.scale;
  }

  lemma L3Refines(w: World, target: real)
    requires Inv(w)
    ensures Entry(BooksOf(Step(w, L3(target)).world), Step(w, L3(target)).outcome) == NaiveL3(BooksOf(w), target)
  {
    hide Inv, L3Quote, L3Rebalance, Total, Distribute, TotalF;
    if !L3Raises(w.core, target) {
      QuoteAgrees(w, target);
      BurnAgrees(w, target);
    }
  }

  lemma QuoteAgrees(w: World, target: real)
    requires Inv(w) && !L3Raises(w.core, target)
    ensures L3Quote(w.core, Aggregates(BooksOf(w)), target) == L3Quote(w.core, w.pool, target)
  {
    AggregatesAreThePools(w);
    QuoteFromAggregates(w.core, Aggregates(BooksOf(w)), w.pool, target);
  }

  /** All the core asks of a pool is its total and its obligation. */
  lemma QuoteFromAggregates(c: Core, p: Pool, q: Pool, target: real)
    requires TotalF(p) == TotalF(q) && p.obligation == q.obligation && !L3Raises(c, target)
    ensures L3Quote(c, p, target) == L3Quote(c, q, target)
  {
    hide TotalF;
  }

  /** What an L3 call does to core, accounts and scale, in terms of its quote. */
  lemma BurnAgrees(w: World, target: real)
    requires Inv(w) && !L3Raises(w.core, target)
    ensures var r, f := L3Rebalance(w.core, w.pool, target), L3Quote(w.core, w.pool, target);
      if f == 0.0 then r == L3Result(w.core, w.pool, 0.0, 0.0)
      else
        && Total(LedgerOf(w)) != 0.0
        && r.burned == f && r.indexed == SuiFor(w.core, f) && r.core == UpdatePx(w.core.(nf := w.core.nf - f))
        && View(w.users, r.pool) == Distribute(LedgerOf(w), f, SuiFor(w.core, f))
        && r.pool.scale == w.pool.scale * (1.0 - f / Total(LedgerOf(w)))
  {
    hide Inv, L3Quote;
    var f := L3Quote(w.core, w.pool, target);
    if f != 0.0 {
      L3Controller(w, target);
      SharesNonNeg(w);
      var r := L3Rebalance(w.core, w.pool, target);
      assert w.pool.scaledTotal != 0.0;
      PoolMoveDistributes(w, r.pool, f, SuiFor(w.core, f));
      ScaleIsUnit(w.pool, f, SuiFor(w.core, f));
    }
  }

  /** A burn shrinks the scale by the burned fraction of the total. */
  lemma ScaleIsUnit(p: Pool, f: real, sui: real)
    requires 0.0 < p.scale && TotalF(p) > 0.0
    requires EPS < f <= BurnCap(p) && ControllerRebalance(p, f, sui).burned == f
    ensures ControllerRebalance(p, f, sui).pool.scale == p.scale * (1.0 - f / TotalF(p))
  {
    DivLeIff(f, TotalF(p), 1.0);
  }

  lemma HarvestRefines(w: World, y: real)
    requires Inv(w)
    ensures Entry(BooksOf(Step(w, Harvest(y)).world), Step(w, Harvest(y)).outcome) == NaiveHarvest(BooksOf(w), y)
  {
    AggregatesAreThePools(w);
    SharesNonNeg(w);
    SharesFromTotal(w.pool);
    if CanHarvest(w.pool, y) {
      var toPool := y - Bounty(y);
      MulPos(w.pool.scaledTotal, w.pool.scale);
      DivMul(toPool, w.pool.scaledTotal);
      PoolMoveDistributes(w, Harvested(w.pool, y), 0.0, toPool);
    }
  }

  lemma SharesFromTotal(p: Pool)
    requires p.scale > 0.0
    ensures TotalF(p) / p.scale == p.scaledTotal
    ensures TotalF(p) == 0.0 ==> p.scaledTotal == 0.0
  {
  }

  // ---------- Runs ----------

  datatype History = History(books: Books, outcomes: seq<Outcome>)

  /** A whole run on the books alone. */
  function NaiveRun(b: Books, ops: seq<Op>): History {
    if ops == [] then History(b, [])
    else
      var n := |ops| - 1;
      var h := NaiveRun(b, ops[..n]);
      var e := NaiveStep(h.books, ops[n]);
      History(e.books, h.outcomes + [e.outcome])
  }

  /** What the callers of a run are told. */
  function Outcomes(w: World, ops: seq<Op>): seq<Outcome> {
    if ops == [] then []
    else
      var n := |ops| - 1;
      Outcomes(w, ops[..n]) + [Step(Run(w, ops[..n]), ops[n]).outcome]
  }

  /** Every run of the pool is the run the books make of the same calls, answer by answer. */
  lemma {:induction false} RunRefines(w: World, ops: seq<Op>)
    requires Inv(w) && AllowedRun(w, ops)
    ensures History(BooksOf(Run(w, ops)), Outcomes(w, ops)) == NaiveRun(BooksOf(w), ops)
  {
    hide Inv, Step, NaiveStep, BooksOf, Allowed;
    if ops != [] {
      var n := |ops| - 1;
      RunRefines(w, ops[..n]);
      RunKeepsInv(w, ops[..n]);
      StepRefines(Run(w, ops[..n]), ops[n]);
    }
  }
}
