/** What a write is read back as, through the replies of later calls alone. */
module KvLaws {
  import opened Options
  import opened Decimals
  import opened KvSpec
  import opened KvEviction
  import opened KvTypes

  /** The key's deadline, if it has one, has not passed. */
  predicate InTime(kv: Kv, k: Key, t: int) {
    k in kv.deadlines ==> t <= kv.deadlines[k]
  }

  function After(kv: Kv, op: Op, now: int): Kv {
    Step(kv, op, now).kv
  }

  function Ask(kv: Kv, op: Op, now: int): Reply {
    Step(kv, op, now).reply
  }

  // ---------- Other keys ----------

  function KeysOf(op: Op): set<Key> {
    match op
    case Del(keys) => Elements(keys)
    case Exists(keys) => Elements(keys)
    case MGet(keys) => Elements(keys)
    case MSet(values, _) => values.Keys
    case _ => {op.key}
  }

  /** The two stores hold the same under the given keys. */
  ghost predicate SameAt(a: Kv, b: Kv, keys: set<Key>) {
    forall k :: k in keys ==>
      && (k in a.data <==> k in b.data) && (k in a.data && k in b.data ==> a.data[k] == b.data[k])
      && (k in a.deadlines <==> k in b.deadlines)
      && (k in a.deadlines && k in b.deadlines ==> a.deadlines[k] == b.deadlines[k])
  }

  lemma OnlyItsKeys(kv: Kv, op: Op, now: int, keys: set<Key>)
    requires KeysOf(op) !! keys
    ensures SameAt(After(kv, op, now), kv, keys)
  {
    hide SameAt, KeysOf, OnValue;
    if OnOneKey(op) {
      StepOnKey(kv, op, now);
      KeyStepElsewhere(kv, op, now, keys);
    } else {
      SeveralKeysElsewhere(kv, op, now, keys);
    }
  }

  lemma KeyStepElsewhere(kv: Kv, op: Op, now: int, keys: set<Key>)
    requires OnOneKey(op) && KeysOf(op) !! keys
    ensures SameAt(KeyStep(Fresh(kv, op.key, now), op, now).kv, kv, keys)
  {
    hide OnValue;
    var live := Fresh(kv, op.key, now);
    assert forall k :: k in keys ==> k != op.key;
    assert SameAt(live, kv, keys);
  }

  lemma SeveralKeysElsewhere(kv: Kv, op: Op, now: int, keys: set<Key>)
    requires !OnOneKey(op) && KeysOf(op) !! keys
    ensures SameAt(After(kv, op, now), kv, keys)
  {
    hide Deleted, DeletedCount, PresentCount, StringsAt;
    if op.Del? {
      DeletedContents(kv, op.keys);
    }
  }

  lemma {:induction false} SameCounts(a: Kv, b: Kv, keys: seq<Key>, now: int)
    requires SameAt(a, b, Elements(keys))
    ensures PresentCount(a, keys, now) == PresentCount(b, keys, now)
    ensures StringsAt(a, keys, now) == StringsAt(b, keys, now)
    ensures DeletedCount(a, keys) == DeletedCount(b, keys)
  {
    if keys != [] {
      var n := |keys| - 1;
      assert Elements(keys) == Elements(keys[..n]) + {keys[n]};
      SameCounts(a, b, keys[..n], now);
      DeletedContents(a, keys[..n]);
      DeletedContents(b, keys[..n]);
    }
  }

  lemma SameReplies(a: Kv, b: Kv, op: Op, now: int)
    requires SameAt(a, b, KeysOf(op))
    ensures Ask(a, op, now) == Ask(b, op, now)
  {
    if OnOneKey(op) {
      hide OnValue;
      StepOnKey(a, op, now);
      StepOnKey(b, op, now);
    } else if op.Del? || op.Exists? || op.MGet? {
      hide DeletedCount, PresentCount, StringsAt;
      SameCounts(a, b, op.keys, now);
    }
  }

  /** Whatever a call does, calls on other keys answer as if it had not been made. */
  lemma OtherKeysUntouched(kv: Kv, op: Op, now: int, other: Op, later: int)
    requires KeysOf(op) !! KeysOf(other)
    ensures Ask(After(kv, op, now), other, later) == Ask(kv, other, later)
  {
    hide Step, KeysOf, SameAt;
    OnlyItsKeys(kv, op, now, KeysOf(other));
    SameReplies(After(kv, op, now), kv, other, later);
  }

  // ---------- One key ----------

  /** What a call on one key leaves there, and what a later call on it then finds. */
  lemma FoundLater(kv: Kv, op: Op, now: int, next: Op, later: int)
    requires OnOneKey(op) && !op.Expire? && OnOneKey(next) && !next.Expire? && next.key == op.key && now <= later
    ensures var found := Lookup(Fresh(kv, op.key, now), op.key);
      var left := OnValue(op, found);
      && Ask(kv, op, now) == left.reply
      && Ask(After(kv, op, now), next, later)
         == OnValue(next, if InTime(After(kv, op, now), op.key, later) then left.value else None).reply
  {
    hide OnValue;
    StepOnKey(kv, op, now);
    StepOnKey(After(kv, op, now), next, later);
  }

  lemma FoundNow(kv: Kv, op: Op, now: int)
    requires OnOneKey(op) && !op.Expire?
    ensures Ask(kv, op, now) == OnValue(op, Lookup(Fresh(kv, op.key, now), op.key)).reply
  {
  }

  lemma HGetEffect(k: Key, f: Bytes, v: Option<Cell>)
    ensures OnValue(HGet(k, f), v).reply == if f in HashOf(v) then Data(HashOf(v)[f]) else NotFound
  {
  }

  lemma HGetAllEffect(k: Key, v: Option<Cell>)
    ensures OnValue(HGetAll(k), v).reply == if HoldsHash(v) then Hash(HashOf(v)) else NotFound
    ensures !HoldsHash(v) ==> HashOf(v) == map[]
  {
  }

  lemma SMembersEffect(k: Key, v: Option<Cell>)
    ensures OnValue(SMembers(k), v).reply == if HoldsSet(v) then Members(SetOf(v)) else NotFound
    ensures !HoldsSet(v) ==> SetOf(v) == {}
  {
  }

  lemma HSetEffect(k: Key, f: Bytes, x: Bytes, v: Option<Cell>)
    ensures HashOf(OnValue(HSet(k, f, x), v).value) == HashOf(v)[f := x]
  {
  }

  lemma HDelEffect(k: Key, fields: seq<Bytes>, v: Option<Cell>)
    ensures HashOf(OnValue(HDel(k, fields), v).value) == HashOf(v) - Elements(fields)
    ensures OnValue(HDel(k, fields), v).reply == Num(|HashOf(v)| - |HashOf(v) - Elements(fields)|)
  {
  }

  lemma SIsMemberEffect(k: Key, m: Bytes, v: Option<Cell>)
    ensures OnValue(SIsMember(k, m), v).reply == Flag(m in SetOf(v))
  {
  }

  lemma SAddEffect(k: Key, ms: seq<Bytes>, v: Option<Cell>)
    ensures SetOf(OnValue(SAdd(k, ms), v).value) == SetOf(v) + Elements(ms)
    ensures OnValue(SAdd(k, ms), v).reply == Num(|SetOf(v) + Elements(ms)| - |SetOf(v)|)
  {
  }

  lemma SRemEffect(k: Key, ms: seq<Bytes>, v: Option<Cell>)
    ensures SetOf(OnValue(SRem(k, ms), v).value) == SetOf(v) - Elements(ms)
    ensures OnValue(SRem(k, ms), v).reply == Num(|SetOf(v)| - |SetOf(v) - Elements(ms)|)
  {
  }

  lemma LRangeEffect(k: Key, start: int, stop: int, v: Option<Cell>)
    ensures OnValue(LRange(k, start, stop), v).reply
         == if HoldsList(v) then Items(Range(ListOf(v), start, stop)) else NotFound
    ensures !HoldsList(v) ==> ListOf(v) == []
  {
  }

  lemma RPushEffect(k: Key, vs: seq<Bytes>, v: Option<Cell>)
    ensures ListOf(OnValue(RPush(k, vs), v).value) == ListOf(v) + vs
    ensures OnValue(RPush(k, vs), v).reply == Num(|ListOf(v) + vs|)
  {
  }

  lemma LPushEffect(k: Key, vs: seq<Bytes>, v: Option<Cell>)
    ensures ListOf(OnValue(LPush(k, vs), v).value) == Reversed(vs) + ListOf(v)
    ensures OnValue(LPush(k, vs), v).reply == Num(|Reversed(vs) + ListOf(v)|)
  {
  }

  lemma LPopEffect(k: Key, v: Option<Cell>)
    ensures var l := ListOf(v);
      && ListOf(OnValue(LPop(k), v).value) == (if l == [] then [] else l[1..])
      && OnValue(LPop(k), v).reply == (if l == [] then NotFound else Data(l[0]))
  {
  }

  lemma RPopEffect(k: Key, v: Option<Cell>)
    ensures var l := ListOf(v);
      && ListOf(OnValue(RPop(k), v).value) == (if l == [] then [] else l[..|l| - 1])
      && OnValue(RPop(k), v).reply == (if l == [] then NotFound else Data(l[|l| - 1]))
  {
  }

  // ---------- Strings ----------

  /** What Set stored is what Get returns: with a TTL until then, without one until the old deadline. */
  lemma SetReadsBack(kv: Kv, k: Key, v: Bytes, ttl: int, now: int, later: int)
    requires now <= later
    ensures Ask(After(kv, Set(k, v, ttl), now), Get(k), later)
         == if (if ttl > 0 then later <= now + ttl else InTime(kv, k, later)) then Data(v) else NotFound
  {
  }

  /** MSet is Set for each of its keys. */
  lemma MSetReadsBack(kv: Kv, values: map<Key, Bytes>, ttl: int, k: Key, now: int, later: int)
    requires k in values && now <= later
    ensures Ask(After(kv, MSet(values, ttl), now), Get(k), later)
         == Ask(After(kv, Set(k, values[k], ttl), now), Get(k), later)
  {
  }

  /** MGet returns for each key what Get returns for it, in order. */
  lemma MGetIsGets(kv: Kv, keys: seq<Key>, now: int)
    ensures var reply := Ask(kv, MGet(keys), now);
      && reply.Many? && |reply.values| == |keys|
      && forall i :: 0 <= i < |keys| ==>
           Ask(kv, Get(keys[i]), now) == if reply.values[i].Some? then Data(reply.values[i].value) else NotFound
  {
    StringsInOrder(kv, keys, now);
    hide StringAt, StringsAt;
    forall i | 0 <= i < |keys|
      ensures var s := StringAt(kv, keys[i], now);
        Ask(kv, Get(keys[i]), now) == if s.Some? then Data(s.value) else NotFound
    {
      GetReply(kv, keys[i], now);
    }
  }

  lemma {:induction false} StringsInOrder(kv: Kv, keys: seq<Key>, now: int)
    ensures |StringsAt(kv, keys, now)| == |keys|
    ensures forall i :: 0 <= i < |keys| ==> StringsAt(kv, keys, now)[i] == StringAt(kv, keys[i], now)
  {
    hide StringAt;
    if keys != [] {
      StringsInOrder(kv, keys[..|keys| - 1], now);
    }
  }

  lemma GetReply(kv: Kv, k: Key, now: int)
    ensures var s := StringAt(kv, k, now);
      Ask(kv, Get(k), now) == if s.Some? then Data(s.value) else NotFound
  {
  }

  /** The count of an increment is what Get returns afterwards, printed; a missing key counts from zero. */
  lemma IncrReadsBack(kv: Kv, k: Key, delta: int, now: int, later: int)
    requires now <= later
    ensures var reply, after := Ask(kv, IncrBy(k, delta), now), After(kv, IncrBy(k, delta), now);
      && (reply.Num? || reply == Fault)
      && (reply.Num? && InTime(after, k, later) ==> Ask(after, Get(k), later) == Data(FormatInt(reply.n)))
      && (reply == Fault ==> Ask(after, Get(k), now) == Ask(kv, Get(k), now))
      && (Ask(kv, Get(k), now) == NotFound && INT64_MIN <= delta <= INT64_MAX ==> reply == Num(delta))
  {
    FoundLater(kv, IncrBy(k, delta), now, Get(k), later);
    FoundLater(kv, IncrBy(k, delta), now, Get(k), now);
    FoundNow(kv, Get(k), now);
    hide Step;
  }

  /** Counting up what Get returns: an error unless it is a 64-bit number, and a sum that wraps around. */
  lemma IncrAnswers(kv: Kv, k: Key, delta: int, now: int)
    requires Ask(kv, Get(k), now).Data?
    ensures var text := Ask(kv, Get(k), now).value;
      Ask(kv, IncrBy(k, delta), now)
      == if ParseInt(text).Some? then Num(Wrap64(ParseInt(text).value + delta)) else Fault
  {
    FoundNow(kv, Get(k), now);
    FoundNow(kv, IncrBy(k, delta), now);
    hide Step, ParseInt, Wrap64, FormatInt;
  }

  // ---------- Hashes ----------

  /** The field set reads back, and every other field as before. */
  lemma HSetReadsBack(kv: Kv, k: Key, f: Bytes, x: Bytes, g: Bytes, now: int, later: int)
    requires now <= later
    ensures var after := After(kv, HSet(k, f, x), now);
      if !InTime(after, k, later) then Ask(after, HGet(k, g), later) == NotFound
      else Ask(after, HGet(k, g), later) == if g == f then Data(x) else Ask(kv, HGet(k, g), now)
  {
    hide Step, OnValue, Fresh, HashOf;
    var found := Lookup(Fresh(kv, k, now), k);
    FoundLater(kv, HSet(k, f, x), now, HGet(k, g), later);
    FoundNow(kv, HGet(k, g), now);
    HSetEffect(k, f, x, found);
    HGetEffect(k, g, found);
    HGetEffect(k, g, OnValue(HSet(k, f, x), found).value);
    HGetEffect(k, g, None);
    NoHash();
  }

  lemma NoHash()
    ensures HashOf(None) == map[] && SetOf(None) == {} && ListOf(None) == []
  {
  }

  /** The fields deleted are gone, the others read as before, and the count is that of those that were there. */
  lemma HDelReadsBack(kv: Kv, k: Key, fields: seq<Bytes>, g: Bytes, now: int, later: int)
    requires now <= later
    ensures var after := After(kv, HDel(k, fields), now);
      && Ask(kv, HDel(k, fields), now) == Num(|set f | f in fields && Ask(kv, HGet(k, f), now) != NotFound|)
      && Ask(after, HGet(k, g), later)
         == if g in fields || !InTime(after, k, later) then NotFound else Ask(kv, HGet(k, g), now)
  {
    hide Step, OnValue, Fresh, HashOf, Elements;
    var found := Lookup(Fresh(kv, k, now), k);
    FoundLater(kv, HDel(k, fields), now, HGet(k, g), later);
    FoundNow(kv, HGet(k, g), now);
    HDelEffect(k, fields, found);
    HGetEffect(k, g, found);
    HGetEffect(k, g, OnValue(HDel(k, fields), found).value);
    HGetEffect(k, g, None);
    NoHash();
    InElements(fields, g);
    FieldsFound(kv, k, fields, now);
    KeysRemoved(HashOf(found), fields);
  }

  lemma InElements(s: seq<Bytes>, x: Bytes)
    ensures x in Elements(s) <==> x in s
  {
  }

  lemma FieldsFound(kv: Kv, k: Key, fields: seq<Bytes>, now: int)
    ensures (set f | f in fields && Ask(kv, HGet(k, f), now) != NotFound)
         == HashOf(Lookup(Fresh(kv, k, now), k)).Keys * Elements(fields)
  {
    var found := Lookup(Fresh(kv, k, now), k);
    forall f
      ensures Ask(kv, HGet(k, f), now) != NotFound <==> f in HashOf(found)
    {
      FoundNow(kv, HGet(k, f), now);
      HGetEffect(k, f, found);
    }
    hide Ask;
  }

  lemma KeysRemoved(m: map<Bytes, Bytes>, fields: seq<Bytes>)
    ensures |m| - |m - Elements(fields)| == |m.Keys * Elements(fields)|
  {
    assert (m - Elements(fields)).Keys == m.Keys - Elements(fields);
    RemovedCount(m.Keys, fields);
  }

  lemma RemovedCount(s: set<Bytes>, removed: seq<Bytes>)
    ensures |s| - |s - Elements(removed)| == |s * Elements(removed)|
  {
    assert s == (s - Elements(removed)) + (s * Elements(removed));
  }

  /** HGetAll returns exactly the fields HGet finds, and nothing when there is no hash. */
  lemma HGetAllIsHGets(kv: Kv, k: Key, f: Bytes, now: int)
    ensures var all := Ask(kv, HGetAll(k), now);
      && (all == NotFound || all.Hash?)
      && Ask(kv, HGet(k, f), now)
         == if all.Hash? && f in all.fields then Data(all.fields[f]) else NotFound
  {
    hide Step, Fresh, OnValue, HashOf;
    FoundNow(kv, HGetAll(k), now);
    FoundNow(kv, HGet(k, f), now);
    HGetEffect(k, f, Lookup(Fresh(kv, k, now), k));
    HGetAllEffect(k, Lookup(Fresh(kv, k, now), k));
  }

  // ---------- Sets ----------

  /** The members added are in, the others as before, and the count is that of those that were not. */
  lemma SAddReadsBack(kv: Kv, k: Key, ms: seq<Bytes>, x: Bytes, now: int, later: int)
    requires now <= later
    ensures var after := After(kv, SAdd(k, ms), now);
      && Ask(kv, SAdd(k, ms), now) == Num(|set m | m in ms && Ask(kv, SIsMember(k, m), now) == Flag(false)|)
      && Ask(after, SIsMember(k, x), later)
         == if !InTime(after, k, later) then Flag(false)
            else if x in ms then Flag(true)
            else Ask(kv, SIsMember(k, x), now)
  {
    hide Step, OnValue, Fresh, SetOf, Elements;
    var found := Lookup(Fresh(kv, k, now), k);
    FoundLater(kv, SAdd(k, ms), now, SIsMember(k, x), later);
    FoundNow(kv, SIsMember(k, x), now);
    SAddEffect(k, ms, found);
    SIsMemberEffect(k, x, found);
    SIsMemberEffect(k, x, OnValue(SAdd(k, ms), found).value);
    SIsMemberEffect(k, x, None);
    NoHash();
    InElements(ms, x);
    MembersFound(kv, k, ms, now);
    AddedCount(SetOf(found), ms);
  }

  lemma MembersFound(kv: Kv, k: Key, ms: seq<Bytes>, now: int)
    ensures var there := SetOf(Lookup(Fresh(kv, k, now), k));
      && (set m | m in ms && Ask(kv, SIsMember(k, m), now) == Flag(false)) == Elements(ms) - there
      && (set m | m in ms && Ask(kv, SIsMember(k, m), now) == Flag(true)) == there * Elements(ms)
  {
    var found := Lookup(Fresh(kv, k, now), k);
    forall m
      ensures Ask(kv, SIsMember(k, m), now) == Flag(m in SetOf(found))
    {
      FoundNow(kv, SIsMember(k, m), now);
      SIsMemberEffect(k, m, found);
    }
    hide Ask;
  }

  lemma AddedCount(s: set<Bytes>, added: seq<Bytes>)
    ensures |s + Elements(added)| - |s| == |Elements(added) - s|
  {
    assert s + Elements(added) == s + (Elements(added) - s);
  }

  /** The members removed are out, the others as before, and the count is that of those that were in. */
  lemma SRemReadsBack(kv: Kv, k: Key, ms: seq<Bytes>, x: Bytes, now: int, later: int)
    requires now <= later
    ensures var after := After(kv, SRem(k, ms), now);
      && Ask(kv, SRem(k, ms), now) == Num(|set m | m in ms && Ask(kv, SIsMember(k, m), now) == Flag(true)|)
      && Ask(after, SIsMember(k, x), later)
         == if x in ms || !InTime(after, k, later) then Flag(false) else Ask(kv, SIsMember(k, x), now)
  {
    hide Step, OnValue, Fresh, SetOf, Elements;
    var found := Lookup(Fresh(kv, k, now), k);
    FoundLater(kv, SRem(k, ms), now, SIsMember(k, x), later);
    FoundNow(kv, SIsMember(k, x), now);
    SRemEffect(k, ms, found);
    SIsMemberEffect(k, x, found);
    SIsMemberEffect(k, x, OnValue(SRem(k, ms), found).value);
    SIsMemberEffect(k, x, None);
    NoHash();
    InElements(ms, x);
    MembersFound(kv, k, ms, now);
    RemovedCount(SetOf(found), ms);
  }

  /** SMembers returns exactly the members SIsMember confirms. */
  lemma SMembersIsMembers(kv: Kv, k: Key, x: Bytes, now: int)
    ensures var all := Ask(kv, SMembers(k), now);
      && (all == NotFound || all.Members?)
      && Ask(kv, SIsMember(k, x), now) == Flag(all.Members? && x in all.members)
  {
    hide Step, Fresh, OnValue, SetOf;
    FoundNow(kv, SMembers(k), now);
    FoundNow(kv, SIsMember(k, x), now);
    SIsMemberEffect(k, x, Lookup(Fresh(kv, k, now), k));
    SMembersEffect(k, Lookup(Fresh(kv, k, now), k));
  }

  // ---------- Lists ----------

  /** The whole list, as LRange from 0 to -1 returns it. */
  function Listed(kv: Kv, k: Key, now: int): seq<Bytes> {
    var reply := Ask(kv, LRange(k, 0, -1), now);
    if reply.Items? then reply.items else []
  }

  lemma WholeRange(s: seq<Bytes>)
    ensures Range(s, 0, -1) == s
  {
  }

  lemma ListedLater(kv: Kv, op: Op, now: int, later: int)
    requires OnOneKey(op) && !op.Expire? && now <= later
    ensures var found := Lookup(Fresh(kv, op.key, now), op.key);
      && Listed(kv, op.key, now) == ListOf(found)
      && Ask(kv, op, now) == OnValue(op, found).reply
      && Listed(After(kv, op, now), op.key, later)
         == if InTime(After(kv, op, now), op.key, later) then ListOf(OnValue(op, found).value) else []
  {
    hide Step, OnValue, Fresh, ListOf, Range;
    var found := Lookup(Fresh(kv, op.key, now), op.key);
    FoundNow(kv, LRange(op.key, 0, -1), now);
    FoundLater(kv, op, now, LRange(op.key, 0, -1), later);
    ListRead(op.key, found);
    ListRead(op.key, OnValue(op, found).value);
    ListRead(op.key, None);
    NoHash();
  }

  lemma ListRead(k: Key, v: Option<Cell>)
    ensures var reply := OnValue(LRange(k, 0, -1), v).reply;
      ListOf(v) == if reply.Items? then reply.items else []
  {
    hide OnValue;
    LRangeEffect(k, 0, -1, v);
    WholeRange(ListOf(v));
  }

  /** RPush appends its values as given, LPush puts them before the list, the last one first. */
  lemma PushesReadBack(kv: Kv, k: Key, vs: seq<Bytes>, now: int, later: int)
    requires now <= later
    ensures var was, after := Listed(kv, k, now), After(kv, RPush(k, vs), now);
      && Ask(kv, RPush(k, vs), now) == Num(|was| + |vs|)
      && Listed(after, k, later) == if InTime(after, k, later) then was + vs else []
    ensures var was, after := Listed(kv, k, now), After(kv, LPush(k, vs), now);
      && Ask(kv, LPush(k, vs), now) == Num(|was| + |vs|)
      && (!InTime(after, k, later) ==> Listed(after, k, later) == [])
      && (InTime(after, k, later) ==>
            var all := Listed(after, k, later);
            && |all| == |vs| + |was|
            && (forall i :: 0 <= i < |vs| ==> all[i] == vs[|vs| - 1 - i])
            && (forall i :: 0 <= i < |was| ==> all[|vs| + i] == was[i]))
  {
    hide Step, Listed, OnValue, Fresh, ListOf, Reversed, InTime;
    var found := Lookup(Fresh(kv, k, now), k);
    ListedLater(kv, RPush(k, vs), now, later);
    ListedLater(kv, LPush(k, vs), now, later);
    RPushEffect(k, vs, found);
    LPushEffect(k, vs, found);
    ReversedAt(vs);
  }

  /** A pop answers with the end it takes away and leaves the rest; an empty list answers NotFound and stays. */
  lemma PopsReadBack(kv: Kv, k: Key, now: int, later: int)
    requires now <= later
    ensures var was, after := Listed(kv, k, now), After(kv, LPop(k), now);
      && Ask(kv, LPop(k), now) == (if was == [] then NotFound else Data(was[0]))
      && Listed(after, k, later) == if was == [] || !InTime(after, k, later) then [] else was[1..]
    ensures var was, after := Listed(kv, k, now), After(kv, RPop(k), now);
      && Ask(kv, RPop(k), now) == (if was == [] then NotFound else Data(was[|was| - 1]))
      && Listed(after, k, later) == if was == [] || !InTime(after, k, later) then [] else was[..|was| - 1]
  {
    hide Step, Listed, OnValue, Fresh, ListOf, InTime;
    ListedLater(kv, LPop(k), now, later);
    ListedLater(kv, RPop(k), now, later);
    LPopEffect(k, Lookup(Fresh(kv, k, now), k));
    RPopEffect(k, Lookup(Fresh(kv, k, now), k));
  }

  /** LRange returns, in order, the stretch of the list whose positions lie between start and stop. */
  lemma LRangeIsTheSlice(kv: Kv, k: Key, start: int, stop: int, now: int) returns (a: nat, b: nat)
    ensures var all, reply := Listed(kv, k, now), Ask(kv, LRange(k, start, stop), now);
      && a <= b <= |all|
      && (reply.Items? ==> reply.items == all[a..b])
      && (reply.Items? || (reply == NotFound && all == []))
      && forall p :: 0 <= p < |all| ==> (a <= p < b <==> From(p, start, |all|) && UpTo(p, stop, |all|))
  {
    hide Step, Listed, Range, OnValue, Fresh, ListOf;
    ListedLater(kv, LRange(k, start, stop), now, now);
    LRangeEffect(k, start, stop, Lookup(Fresh(kv, k, now), k));
    a, b := RangeIsTheSlice(Listed(kv, k, now), start, stop);
  }

  /** In a store without empty containers the three listings answer NotFound exactly when there is nothing to list. */
  lemma ListingsNotFoundIff(kv: Kv, k: Key, now: int)
    requires NoEmptyContainers(kv)
    ensures Ask(kv, HGetAll(k), now) == NotFound <==> forall f :: Ask(kv, HGet(k, f), now) == NotFound
    ensures Ask(kv, SMembers(k), now) == NotFound <==> forall m :: Ask(kv, SIsMember(k, m), now) == Flag(false)
    ensures Ask(kv, LRange(k, 0, -1), now) == NotFound <==> Ask(kv, LPop(k), now) == NotFound
  {
    var found := Lookup(Fresh(kv, k, now), k);
    assert found.Some? ==> !Hollow(found.value);
    FoundNow(kv, HGetAll(k), now);
    FoundNow(kv, SMembers(k), now);
    FoundNow(kv, LRange(k, 0, -1), now);
    FoundNow(kv, LPop(k), now);
    HGetAllEffect(k, found);
    SMembersEffect(k, found);
    LRangeEffect(k, 0, -1, found);
    LPopEffect(k, found);
    NothingHollow(found);
    forall f
      ensures Ask(kv, HGet(k, f), now) == NotFound <==> f !in HashOf(found)
    {
      FoundNow(kv, HGet(k, f), now);
      HGetEffect(k, f, found);
    }
    forall m
      ensures Ask(kv, SIsMember(k, m), now) == Flag(m in SetOf(found))
    {
      FoundNow(kv, SIsMember(k, m), now);
      SIsMemberEffect(k, m, found);
    }
    hide Ask, OnValue, Fresh, HashOf, SetOf, ListOf, Range;
    NoneThere(found);
  }

  lemma NothingHollow(v: Option<Cell>)
    requires v.Some? ==> !Hollow(v.value)
    ensures HoldsHash(v) <==> HashOf(v) != map[]
    ensures HoldsSet(v) <==> SetOf(v) != {}
    ensures HoldsList(v) <==> ListOf(v) != []
  {
  }

  lemma NoneThere(v: Option<Cell>)
    ensures HashOf(v) == map[] <==> forall f :: f !in HashOf(v)
    ensures SetOf(v) == {} <==> forall m :: m !in SetOf(v)
  {
  }

  // ---------- Keys ----------

  /** Exists counts, repetitions included, the keys that hold something and are in time. */
  lemma {:induction false} ExistsCounts(kv: Kv, keys: seq<Key>, now: int)
    ensures Ask(kv, Exists(keys), now)
         == Num(|set i | 0 <= i < |keys| && keys[i] in kv.data && InTime(kv, keys[i], now)|)
  {
    if keys != [] {
      ExistsCounts(kv, keys[..|keys| - 1], now);
      OneMoreThere(kv, keys, now);
    }
  }

  lemma OneMoreThere(kv: Kv, keys: seq<Key>, now: int)
    requires keys != []
    ensures var n := |keys| - 1;
      |set i | 0 <= i < |keys| && keys[i] in kv.data && InTime(kv, keys[i], now)|
      == |set i | 0 <= i < |keys[..n]| && keys[..n][i] in kv.data && InTime(kv, keys[..n][i], now)|
         + if keys[n] in kv.data && InTime(kv, keys[n], now) then 1 else 0
  {
    var n := |keys| - 1;
    var before := set i | 0 <= i < |keys[..n]| && keys[..n][i] in kv.data && InTime(kv, keys[..n][i], now);
    assert n !in before;
    assert (set i | 0 <= i < |keys| && keys[i] in kv.data && InTime(kv, keys[i], now))
        == before + if keys[n] in kv.data && InTime(kv, keys[n], now) then {n} else {};
  }

  lemma ExistsOne(kv: Kv, k: Key, now: int)
    ensures Ask(kv, Exists([k]), now) == Num(if k in kv.data && InTime(kv, k, now) then 1 else 0)
  {
    assert [k][..0] == [];
    assert PresentCount(kv, [k][..0], now) == 0;
    assert Present(kv, k, now) <==> k in kv.data && InTime(kv, k, now);
  }

  /** Del answers with the number of different keys that were stored, and afterwards none of them is. */
  lemma DelCounts(kv: Kv, keys: seq<Key>, k: Key, now: int, later: int)
    requires k in keys
    ensures Ask(kv, Del(keys), now) == Num(|set x | x in keys && x in kv.data|)
    ensures Ask(After(kv, Del(keys), now), Exists([k]), later) == Num(0)
    ensures Ask(After(kv, Del(keys), now), Get(k), later) == NotFound
    ensures Ask(After(kv, Del(keys), now), TTL(k), later) == NotFound
  {
    DeletedContents(kv, keys);
    DeletedSize(kv, keys);
    ExistsOne(After(kv, Del(keys), now), k, later);
    hide DeletedCount, Deleted, PresentCount;
  }

  lemma {:induction false} DeletedSize(kv: Kv, keys: seq<Key>)
    ensures DeletedCount(kv, keys) == |set x | x in keys && x in kv.data|
  {
    if keys != [] {
      var n := |keys| - 1;
      DeletedSize(kv, keys[..n]);
      DeletedContents(kv, keys[..n]);
      var before := set x | x in keys[..n] && x in kv.data;
      assert (set x | x in keys && x in kv.data)
          == before + if keys[n] in kv.data then {keys[n]} else {};
    }
  }

  /**
   * Expire answers whether the key is there. With a positive time TTL counts down from it, and after
   * it the key is gone; otherwise the key has no deadline from then on.
   */
  lemma ExpireThenTTL(kv: Kv, k: Key, ttl: int, now: int, later: int)
    requires now <= later
    ensures var reply, after := Ask(kv, Expire(k, ttl), now), After(kv, Expire(k, ttl), now);
      && reply == Flag(k in kv.data && InTime(kv, k, now))
      && (reply == Flag(true) && ttl > 0 ==>
            && Ask(after, TTL(k), later) == Num(if later < now + ttl then now + ttl - later else 0)
            && (Ask(after, Exists([k]), later) == Num(1) <==> later <= now + ttl))
      && (reply == Flag(true) && ttl <= 0 ==>
            Ask(after, TTL(k), later) == Num(-1) && Ask(after, Exists([k]), later) == Num(1))
      && (reply == Flag(false) ==> Ask(after, Exists([k]), later) == Num(0))
  {
    ExistsOne(After(kv, Expire(k, ttl), now), k, later);
    hide PresentCount;
  }
}
