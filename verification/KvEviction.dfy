/** When eviction can be noticed: exactly in which calls, and in no others. */
module KvEviction {
  import opened Options
  import opened Decimals
  import opened KvSpec

  predicate IsRead(op: Op) {
    op.Get? || op.Exists? || op.MGet? || op.HGet? || op.HGetAll? || op.SMembers? || op.SIsMember? || op.LRange?
  }

  /** No expired entry is in the way of the calls that never look at deadlines. */
  predicate Undisturbed(kv: Kv, op: Op, now: int) {
    match op
    case Set(k, _, ttl) => ttl <= 0 ==> !Expired(kv, k, now)
    case MSet(values, ttl) => ttl <= 0 ==> forall k :: k in values ==> !Expired(kv, k, now)
    case Del(keys) => forall i :: 0 <= i < |keys| ==> keys[i] in kv.data ==> !Expired(kv, keys[i], now)
    case TTL(k) => !Expired(kv, k, now)
    case _ => true
  }

  /** s is u without some of its entries; whatever is missing has expired. */
  predicate Trimmed(s: Kv, u: Kv, now: int) {
    && (forall k :: k in s.data ==> k in u.data && s.data[k] == u.data[k])
    && (forall k :: k in s.deadlines ==> k in u.deadlines && s.deadlines[k] == u.deadlines[k])
    && (forall k :: k in u.data && k !in s.data ==> Expired(u, k, now))
    && (forall k :: k in u.deadlines && k !in s.deadlines ==> Expired(u, k, now) && k !in s.data)
  }

  /** Trimming stays trimming as time passes, and a sweep of the trimmed state trims further. */
  lemma TrimmedLater(s: Kv, u: Kv, now: int, later: int)
    requires Trimmed(s, u, now) && now <= later
    ensures Trimmed(s, u, later) && Trimmed(Evict(s, later), u, later)
  {
  }

  lemma SweepTrims(kv: Kv, now: int)
    ensures Trimmed(Evict(kv, now), kv, now)
  {
  }

  lemma FreshTrimmed(s: Kv, u: Kv, key: Key, now: int)
    requires Trimmed(s, u, now)
    ensures Trimmed(Fresh(s, key, now), Fresh(u, key, now), now)
    ensures Lookup(Fresh(s, key, now), key) == Lookup(Fresh(u, key, now), key)
    ensures !Expired(Fresh(u, key, now), key, now)
  {
  }

  /** What a call on one key does depends on the value there, and changes that key only. */
  lemma KeyStepTrimmed(s: Kv, u: Kv, op: Op, now: int)
    requires OnOneKey(op) && Trimmed(s, u, now)
    requires Lookup(s, op.key) == Lookup(u, op.key) && !Expired(u, op.key, now)
    ensures KeyStep(s, op, now).reply == KeyStep(u, op, now).reply
    ensures Trimmed(KeyStep(s, op, now).kv, KeyStep(u, op, now).kv, now)
  {
    if !op.Expire? {
      StoreTrimmed(s, u, op.key, OnValue(op, Lookup(u, op.key)).value, now);
    }
  }

  lemma StoreTrimmed(s: Kv, u: Kv, key: Key, v: Option<Cell>, now: int)
    requires Trimmed(s, u, now) && !Expired(u, key, now)
    ensures Trimmed(Store(s, key, v), Store(u, key, v), now)
  {
  }

  // ---------- Calls that take several keys ----------

  lemma {:induction false} CountsTrimmed(s: Kv, u: Kv, keys: seq<Key>, now: int)
    requires Trimmed(s, u, now)
    ensures PresentCount(s, keys, now) == PresentCount(u, keys, now)
    ensures StringsAt(s, keys, now) == StringsAt(u, keys, now)
  {
    if keys != [] {
      CountsTrimmed(s, u, keys[..|keys| - 1], now);
    }
  }

  lemma {:induction false} DeletedContents(kv: Kv, keys: seq<Key>)
    ensures Deleted(kv, keys).data == kv.data - Elements(keys)
    ensures Deleted(kv, keys).deadlines == kv.deadlines - Elements(keys)
  {
    if keys != [] {
      var n := |keys| - 1;
      DeletedContents(kv, keys[..n]);
      assert Elements(keys) == Elements(keys[..n]) + {keys[n]};
    }
  }

  lemma DeletedTrimmed(s: Kv, u: Kv, keys: seq<Key>, now: int)
    requires Trimmed(s, u, now)
    ensures Trimmed(Deleted(s, keys), Deleted(u, keys), now)
  {
  }

  /** Whether the last of the keys was still there to be deleted. */
  predicate Counts(kv: Kv, keys: seq<Key>) {
    keys != [] && keys[|keys| - 1] in kv.data && keys[|keys| - 1] !in keys[..|keys| - 1]
  }

  lemma DeletedCountLast(kv: Kv, keys: seq<Key>)
    requires keys != []
    ensures DeletedCount(kv, keys)
         == DeletedCount(kv, keys[..|keys| - 1]) + if Counts(kv, keys) then 1 else 0
  {
    DeletedContents(kv, keys[..|keys| - 1]);
  }

  /** A trimmed state counts fewer deletions exactly when a key is stored in only one of the two. */
  lemma {:induction false} DeletedCountIff(s: Kv, u: Kv, keys: seq<Key>, now: int)
    requires Trimmed(s, u, now)
    ensures DeletedCount(s, keys) <= DeletedCount(u, keys)
    ensures DeletedCount(s, keys) == DeletedCount(u, keys)
       <==> forall k :: k in keys && k in u.data ==> k in s.data
  {
    if keys != [] {
      var n := |keys| - 1;
      DeletedCountIff(s, u, keys[..n], now);
      DeletedCountLast(s, keys);
      DeletedCountLast(u, keys);
      assert forall k :: k in keys <==> k in keys[..n] || k == keys[n];
    }
  }

  lemma SetTrimmed(s: Kv, u: Kv, k: Key, v: Cell, ttl: int, now: int)
    requires Trimmed(s, u, now) && (ttl <= 0 ==> !Expired(u, k, now))
    ensures Trimmed(WithDeadline(Put(s, k, v), k, ttl, now), WithDeadline(Put(u, k, v), k, ttl, now), now)
  {
  }

  lemma SetAllTrimmed(s: Kv, u: Kv, values: map<Key, Bytes>, ttl: int, now: int)
    requires Trimmed(s, u, now)
    requires ttl <= 0 ==> forall k :: k in values ==> !Expired(u, k, now)
    ensures Trimmed(SetAll(s, values, ttl, now), SetAll(u, values, ttl, now), now)
  {
  }

  lemma TtlTrimmed(s: Kv, u: Kv, k: Key, now: int)
    requires Trimmed(s, u, now) && !Expired(u, k, now)
    ensures TtlReply(s, k, now) == TtlReply(u, k, now)
  {
  }

  // ---------- One call ----------

  lemma StepOnKey(kv: Kv, op: Op, now: int)
    requires OnOneKey(op)
    ensures Step(kv, op, now) == KeyStep(Fresh(kv, op.key, now), op, now)
  {
  }

  /** Two states of which one is the other trimmed serve an undisturbed call alike. */
  lemma StepTrimmed(s: Kv, u: Kv, op: Op, now: int)
    requires Trimmed(s, u, now) && Undisturbed(u, op, now)
    ensures Step(s, op, now).reply == Step(u, op, now).reply
    ensures Trimmed(Step(s, op, now).kv, Step(u, op, now).kv, now)
  {
    if OnOneKey(op) {
      hide Step, KeyStep, Fresh, Trimmed;
      StepOnKey(s, op, now);
      StepOnKey(u, op, now);
      FreshTrimmed(s, u, op.key, now);
      KeyStepTrimmed(Fresh(s, op.key, now), Fresh(u, op.key, now), op, now);
    } else {
      OtherStepTrimmed(s, u, op, now);
    }
  }

  lemma OtherStepTrimmed(s: Kv, u: Kv, op: Op, now: int)
    requires Trimmed(s, u, now) && Undisturbed(u, op, now) && !OnOneKey(op)
    ensures Step(s, op, now).reply == Step(u, op, now).reply
    ensures Trimmed(Step(s, op, now).kv, Step(u, op, now).kv, now)
  {
    hide KeyStep, Trimmed, SetAll, Deleted, DeletedCount, PresentCount, StringsAt, TtlReply, WithDeadline, Put;
    match op
    case Set(k, v, ttl) => SetTrimmed(s, u, k, StrCell(v), ttl, now);
    case MSet(values, ttl) => SetAllTrimmed(s, u, values, ttl, now);
    case Del(keys) => DelTrimmed(s, u, keys, now);
    case Exists(keys) => CountsTrimmed(s, u, keys, now);
    case MGet(keys) => CountsTrimmed(s, u, keys, now);
    case TTL(k) => TtlTrimmed(s, u, k, now);
  }

  lemma DelTrimmed(s: Kv, u: Kv, keys: seq<Key>, now: int)
    requires Trimmed(s, u, now) && Undisturbed(u, Del(keys), now)
    ensures DeletedCount(s, keys) == DeletedCount(u, keys)
    ensures Trimmed(Deleted(s, keys), Deleted(u, keys), now)
  {
    DeletedCountIff(s, u, keys, now);
    DeletedTrimmed(s, u, keys, now);
  }

  /** Every read, TTL aside, answers the same from both, now and at any later time. */
  ghost predicate ReadsAlike(a: Kv, b: Kv, now: int) {
    forall r: Op, later: int | IsRead(r) && now <= later :: Step(a, r, later).reply == Step(b, r, later).reply
  }

  lemma TrimmedReadsAlike(s: Kv, u: Kv, now: int)
    requires Trimmed(s, u, now)
    ensures ReadsAlike(u, s, now)
  {
    hide Step, Trimmed;
    forall r: Op, later: int | IsRead(r) && now <= later
      ensures Step(u, r, later).reply == Step(s, r, later).reply
    {
      TrimmedLater(s, u, now, later);
      StepTrimmed(s, u, r, later);
    }
  }

  /**
   * A sweep just before a call goes unnoticed, by the caller and by every read from then on, exactly
   * when the call is undisturbed. Every read but TTL always is.
   */
  lemma SweepInvisibleIff(kv: Kv, op: Op, now: int)
    ensures var a, b := Step(kv, op, now), Step(Evict(kv, now), op, now);
      && (a.reply == b.reply && ReadsAlike(a.kv, b.kv, now) <==> Undisturbed(kv, op, now))
      && (Undisturbed(kv, op, now) ==> Trimmed(b.kv, a.kv, now))
    ensures IsRead(op) ==> Undisturbed(kv, op, now)
  {
    hide Step, Trimmed, ReadsAlike, Evict;
    var s := Evict(kv, now);
    if Undisturbed(kv, op, now) {
      SweepTrims(kv, now);
      StepTrimmed(s, kv, op, now);
      TrimmedReadsAlike(Step(s, op, now).kv, Step(kv, op, now).kv, now);
    } else {
      DisturbedIsNoticed(kv, op, now);
    }
  }

  /** Set and MSet revive an old deadline, Del counts an expired key, TTL reports one. */
  lemma DisturbedIsNoticed(kv: Kv, op: Op, now: int)
    requires !Undisturbed(kv, op, now)
    ensures var a, b := Step(kv, op, now), Step(Evict(kv, now), op, now);
      a.reply == b.reply ==> !ReadsAlike(a.kv, b.kv, now)
  {
    var s := Evict(kv, now);
    match op
    case Set(k, v, ttl) => StaleDeadlineShows(Step(kv, op, now).kv, Step(s, op, now).kv, k, v, now);
    case MSet(values, ttl) =>
      var k :| k in values && Expired(kv, k, now);
      StaleDeadlineShows(Step(kv, op, now).kv, Step(s, op, now).kv, k, values[k], now);
    case Del(keys) =>
      SweepTrims(kv, now);
      DeletedCountIff(s, kv, keys, now);
    case TTL(k) =>
  }

  lemma StaleDeadlineShows(a: Kv, b: Kv, k: Key, v: Bytes, now: int)
    requires k in a.data && Expired(a, k, now)
    requires k in b.data && k !in b.deadlines && b.data[k] == StrCell(v)
    ensures !ReadsAlike(a, b, now)
  {
    var r := Get(k);
    assert IsRead(r);
    assert Step(a, r, now).reply == NotFound && Step(b, r, now).reply == Data(v);
  }

  /** The store keeps an old deadline on Set without a TTL, so what was set may not be readable. */
  lemma SetThenGetIff(kv: Kv, k: Key, v: Bytes, now: int, later: int)
    requires now <= later
    ensures Step(Step(kv, Set(k, v, 0), now).kv, Get(k), later).reply == Data(v)
       <==> !Expired(kv, k, later)
  {
  }

  /** Reads return the same after a sweep at any earlier time. */
  lemma ReadsAfterSweep(kv: Kv, op: Op, swept: int, now: int)
    requires IsRead(op) && swept <= now
    ensures Step(Evict(kv, swept), op, now).reply == Step(kv, op, now).reply
  {
    SweepTrims(kv, swept);
    TrimmedLater(Evict(kv, swept), kv, swept, now);
    StepTrimmed(Evict(kv, swept), kv, op, now);
  }

  lemma LazyEvictionTrims(kv: Kv, key: Key, swept: int, now: int)
    requires swept <= now
    ensures Trimmed(Fresh(kv, key, swept), kv, now)
  {
  }

  /** Reads return the same after a lazy eviction of any key at any earlier time. */
  lemma ReadsAfterLazyEviction(kv: Kv, key: Key, op: Op, swept: int, now: int)
    requires IsRead(op) && swept <= now
    ensures Step(Fresh(kv, key, swept), op, now).reply == Step(kv, op, now).reply
  {
    LazyEvictionTrims(kv, key, swept, now);
    StepTrimmed(Fresh(kv, key, swept), kv, op, now);
  }

  /** All a read ever does to the store is evict its key. */
  lemma ReadOnlyEvicts(kv: Kv, op: Op, now: int)
    requires IsRead(op)
    ensures Step(kv, op, now).kv == if OnOneKey(op) then Fresh(kv, op.key, now) else kv
  {
    if OnOneKey(op) {
      hide Fresh;
      var live := Fresh(kv, op.key, now);
      ReadKeepsValue(op, Lookup(live, op.key));
      PutBackWhatIsThere(live, op.key);
    }
  }

  lemma ReadKeepsValue(op: Op, v: Option<Cell>)
    requires IsRead(op) && OnOneKey(op)
    ensures OnValue(op, v).value == v
  {
  }

  lemma PutBackWhatIsThere(kv: Kv, key: Key)
    ensures Store(kv, key, Lookup(kv, key)) == kv
  {
    assert Store(kv, key, Lookup(kv, key)).data == kv.data;
  }

  lemma ReadTrims(s: Kv, u: Kv, op: Op, now: int)
    requires IsRead(op) && Trimmed(s, u, now)
    ensures Trimmed(Step(s, op, now).kv, u, now)
  {
    hide Step;
    ReadOnlyEvicts(s, op, now);
  }

  // ---------- Runs ----------

  /** A call, its clock reading, and whether the janitor sweeps just before it. */
  datatype Event = Event(op: Op, now: int, sweep: bool)

  datatype Trace = Trace(kv: Kv, replies: seq<Reply>)

  function Run(kv: Kv, events: seq<Event>): Trace {
    if events == [] then Trace(kv, [])
    else
      var n := |events| - 1;
      var t := Run(kv, events[..n]);
      var e := events[n];
      var next := Step(if e.sweep then Evict(t.kv, e.now) else t.kv, e.op, e.now);
      Trace(next.kv, t.replies + [next.reply])
  }

  predicate Chronological(events: seq<Event>) {
    forall i, j :: 0 <= i < j < |events| ==> events[i].now <= events[j].now
  }

  /** The same calls with a janitor that never runs. */
  function Unswept(events: seq<Event>): (r: seq<Event>)
    ensures |r| == |events|
    ensures forall i :: 0 <= i < |events| ==> r[i] == events[i].(sweep := false)
  {
    seq(|events|, i requires 0 <= i < |events| => events[i].(sweep := false))
  }

  /** Every call is undisturbed in the run without a janitor. */
  predicate UndisturbedRun(kv: Kv, events: seq<Event>) {
    events == [] ||
    var n := |events| - 1;
    UndisturbedRun(kv, events[..n])
    && Undisturbed(Run(kv, Unswept(events[..n])).kv, events[n].op, events[n].now)
  }

  /** Whenever the janitor sweeps, every call of an undisturbed run replies the same. */
  lemma {:induction false} JanitorInvisible(kv: Kv, events: seq<Event>, now: int)
    requires Chronological(events) && UndisturbedRun(kv, events)
    requires forall i :: 0 <= i < |events| ==> events[i].now <= now
    ensures Run(kv, events).replies == Run(kv, Unswept(events)).replies
    ensures Trimmed(Run(kv, events).kv, Run(kv, Unswept(events)).kv, now)
  {
    if events != [] {
      var n := |events| - 1;
      var e := events[n];
      JanitorInvisible(kv, events[..n], e.now);
      assert Unswept(events)[..n] == Unswept(events[..n]);
      var s, u := Run(kv, events[..n]).kv, Run(kv, Unswept(events[..n])).kv;
      TrimmedLater(s, u, e.now, e.now);
      var swept := if e.sweep then Evict(s, e.now) else s;
      StepTrimmed(swept, u, e.op, e.now);
      TrimmedLater(Step(swept, e.op, e.now).kv, Step(u, e.op, e.now).kv, e.now, now);
    }
  }

  predicate OnlyReads(events: seq<Event>) {
    forall i :: 0 <= i < |events| ==> IsRead(events[i].op)
  }

  /** Whatever was read or swept before, every read of a run answers from the state before the run. */
  lemma {:induction false} ReadsDoNotDisturb(kv: Kv, events: seq<Event>, now: int)
    requires Chronological(events) && OnlyReads(events)
    requires forall i :: 0 <= i < |events| ==> events[i].now <= now
    ensures Trimmed(Run(kv, events).kv, kv, now) && |Run(kv, events).replies| == |events|
    ensures forall i :: 0 <= i < |events| ==>
      Run(kv, events).replies[i] == Step(kv, events[i].op, events[i].now).reply
  {
    hide Trimmed, Step, IsRead;
    if events == [] {
      NothingTrimmed(kv, now);
    } else {
      var n := |events| - 1;
      var e := events[n];
      ReadsDoNotDisturb(kv, events[..n], e.now);
      var s := Run(kv, events[..n]).kv;
      TrimmedLater(s, kv, e.now, e.now);
      var swept := if e.sweep then Evict(s, e.now) else s;
      ReadsAreUndisturbed(kv, e.op, e.now);
      StepTrimmed(swept, kv, e.op, e.now);
      ReadTrims(swept, kv, e.op, e.now);
      TrimmedLater(Step(swept, e.op, e.now).kv, kv, e.now, now);
    }
  }

  lemma NothingTrimmed(kv: Kv, now: int)
    ensures Trimmed(kv, kv, now)
  {
  }

  lemma ReadsAreUndisturbed(kv: Kv, op: Op, now: int)
    requires IsRead(op)
    ensures Undisturbed(kv, op, now)
  {
  }

  // ---------- Counters ----------

  /** Two increments are one increment by the sum, as long as the first finds a number or nothing. */
  lemma IncrementsAdd(kv: Kv, k: Key, m: int, n: int, now: int)
    requires Step(kv, IncrBy(k, m), now).reply.Num?
    ensures Step(Step(kv, IncrBy(k, m), now).kv, IncrBy(k, n), now)
         == Step(kv, IncrBy(k, m + n), now)
  {
    hide Step, Fresh, Lookup, Store, Incremented, Wrap64;
    var live := Fresh(kv, k, now);
    var v := Lookup(live, k);
    var w := Incremented(v, m).value;
    FreshIsLive(kv, k, now);
    IncrementStep(kv, k, m, now);
    IncrementStep(kv, k, m + n, now);
    StoredStaysFresh(live, k, w, now);
    IncrementStep(Store(live, k, w), k, n, now);
    IncrementedTwice(v, m, n);
    StoreTwice(live, k, w, Incremented(v, m + n).value);
  }

  lemma FreshIsLive(kv: Kv, k: Key, now: int)
    ensures !Expired(Fresh(kv, k, now), k, now)
  {
  }

  lemma IncrementStep(kv: Kv, k: Key, m: int, now: int)
    ensures var live := Fresh(kv, k, now);
      var e := Incremented(Lookup(live, k), m);
      Step(kv, IncrBy(k, m), now) == Next(Store(live, k, e.value), e.reply)
  {
  }

  lemma StoredStaysFresh(kv: Kv, k: Key, v: Option<Cell>, now: int)
    requires !Expired(kv, k, now)
    ensures Fresh(Store(kv, k, v), k, now) == Store(kv, k, v) && Lookup(Store(kv, k, v), k) == v
  {
  }

  lemma StoreTwice(kv: Kv, k: Key, v: Option<Cell>, w: Option<Cell>)
    ensures Store(Store(kv, k, v), k, w) == Store(kv, k, w)
  {
  }

  lemma IncrementedTwice(v: Option<Cell>, m: int, n: int)
    requires Incremented(v, m).reply.Num?
    ensures Incremented(Incremented(v, m).value, n) == Incremented(v, m + n)
  {
    hide ParseInt, FormatInt;
    var k := NumberAt(v).value;
    var x := Wrap64(k + m);
    NumberAtCounted(v, x);
    CountFrom(v, k, m);
    CountFrom(Counted(v, x).value, x, n);
    CountFrom(v, k, m + n);
    WrapAdd(k + m, n);
    assert k + (m + n) == k + m + n;
  }

  lemma CountFrom(v: Option<Cell>, k: int, m: int)
    requires NumberAt(v) == Some(k)
    ensures Incremented(v, m) == Counted(v, Wrap64(k + m))
  {
  }

  lemma NumberAtCounted(v: Option<Cell>, n: int)
    requires INT64_MIN <= n <= INT64_MAX
    ensures NumberAt(Counted(v, n).value) == Some(n)
  {
    ParseFormat(n);
  }
}
