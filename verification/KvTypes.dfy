/** What the cells promise: no container is empty, no key is in two maps, lists behave as sequences. */
module KvTypes {
  import opened Options
  import opened Decimals
  import opened KvSpec
  import opened KvEviction

  predicate EmptyContainer(c: Container) {
    match c
    case HashVal(fields) => fields == map[]
    case SetVal(members) => members == {}
    case ListVal(items) => items == []
  }

  /** Nothing at all, or a container with nothing in it. */
  predicate Hollow(c: Cell) {
    if c.container.Some? then EmptyContainer(c.container.value) else c.str.None?
  }

  predicate NoEmptyContainers(kv: Kv) {
    forall k :: k in kv.data ==> !Hollow(kv.data[k])
  }

  /** A call that adds nothing to a set or list that is not there yet. */
  predicate AddsNothingTo(op: Op, v: Option<Cell>) {
    match op
    case SAdd(_, ms) => ms == [] && SetOf(v) == {}
    case LPush(_, vs) => vs == [] && ListOf(v) == []
    case RPush(_, vs) => vs == [] && ListOf(v) == []
    case _ => false
  }

  predicate AddsNothing(kv: Kv, op: Op, now: int) {
    (op.SAdd? || op.LPush? || op.RPush?) && AddsNothingTo(op, Lookup(Fresh(kv, op.key, now), op.key))
  }

  /** Exactly an empty SAdd, LPush or RPush on a missing key leaves an empty container behind. */
  lemma StepKeepsContainersIff(kv: Kv, op: Op, now: int)
    requires NoEmptyContainers(kv)
    ensures NoEmptyContainers(Step(kv, op, now).kv) <==> !AddsNothing(kv, op, now)
  {
    hide Step, KeyStep, Fresh, NoEmptyContainers, AddsNothingTo, Lookup;
    if OnOneKey(op) {
      StepOnKey(kv, op, now);
      FreshTwice(kv, op.key, now);
      FreshKeepsContainers(kv, op.key, now);
      if op.Expire? {
        ExpireKeepsCells(Fresh(kv, op.key, now), op, now);
      } else {
        OneKeyContainersIff(Fresh(kv, op.key, now), op, now);
      }
    } else {
      OthersKeepContainers(kv, op, now);
    }
  }

  lemma OthersKeepContainers(kv: Kv, op: Op, now: int)
    requires !OnOneKey(op) && NoEmptyContainers(kv)
    ensures NoEmptyContainers(Step(kv, op, now).kv) && !AddsNothing(kv, op, now)
  {
    if op.Del? {
      DeletedShrinks(kv, op.keys);
    }
  }

  lemma FreshTwice(kv: Kv, key: Key, now: int)
    ensures Fresh(Fresh(kv, key, now), key, now) == Fresh(kv, key, now)
  {
  }

  lemma FreshKeepsContainers(kv: Kv, key: Key, now: int)
    requires NoEmptyContainers(kv)
    ensures NoEmptyContainers(Fresh(kv, key, now))
  {
  }

  lemma ExpireKeepsCells(kv: Kv, op: Op, now: int)
    requires op.Expire?
    ensures NoEmptyContainers(kv) ==> NoEmptyContainers(KeyStep(kv, op, now).kv) && !AddsNothing(kv, op, now)
    ensures OneMapPerKey(kv) ==> OneMapPerKey(KeyStep(kv, op, now).kv)
  {
  }

  lemma {:induction false} DeletedShrinks(kv: Kv, keys: seq<Key>)
    ensures forall k :: k in Deleted(kv, keys).data ==> k in kv.data && Deleted(kv, keys).data[k] == kv.data[k]
  {
    if keys != [] {
      DeletedShrinks(kv, keys[..|keys| - 1]);
    }
  }

  lemma OneKeyContainersIff(kv: Kv, op: Op, now: int)
    requires OnOneKey(op) && !op.Expire? && NoEmptyContainers(kv) && Fresh(kv, op.key, now) == kv
    ensures NoEmptyContainers(KeyStep(kv, op, now).kv) <==> !AddsNothing(kv, op, now)
  {
    hide OnValue, Hollow;
    EffectContainersIff(op, Lookup(kv, op.key));
    var next := KeyStep(kv, op, now).kv;
    var v := OnValue(op, Lookup(kv, op.key)).value;
    assert Lookup(next, op.key) == v;
    assert v.Some? ==> op.key in next.data && next.data[op.key] == v.value;
    assert forall k :: k in next.data && k != op.key ==> k in kv.data && next.data[k] == kv.data[k];
  }

  lemma EffectContainersIff(op: Op, v: Option<Cell>)
    requires OnOneKey(op) && !op.Expire? && (v.Some? ==> !Hollow(v.value))
    ensures var e := OnValue(op, v);
      (e.value.Some? && Hollow(e.value.value)) <==> AddsNothingTo(op, v)
  {
    hide OnValue, AddsNothingTo, Hollow;
    if op.Get? || op.IncrBy? {
      StringEffect(op, v);
    } else if op.HSet? || op.HGet? || op.HDel? || op.HGetAll? {
      HashEffect(op, v);
    } else if op.SAdd? || op.SRem? || op.SMembers? || op.SIsMember? {
      SetEffect(op, v);
    } else {
      ListEffect(op, v);
    }
  }

  lemma StringEffect(op: Op, v: Option<Cell>)
    requires op.Get? || op.IncrBy?
    requires v.Some? ==> !Hollow(v.value)
    ensures var e := OnValue(op, v);
      (e.value.Some? && Hollow(e.value.value)) <==> AddsNothingTo(op, v)
  {
  }

  lemma HashEffect(op: Op, v: Option<Cell>)
    requires op.HSet? || op.HGet? || op.HDel? || op.HGetAll?
    requires v.Some? ==> !Hollow(v.value)
    ensures var e := OnValue(op, v);
      (e.value.Some? && Hollow(e.value.value)) <==> AddsNothingTo(op, v)
  {
    if op.HSet? {
      assert op.field in HashOf(v)[op.field := op.value];
    }
  }

  lemma UnionEmptyIff(was: set<Bytes>, added: seq<Bytes>)
    ensures was + Elements(added) == {} <==> was == {} && added == []
  {
    assert added != [] ==> added[0] in was + Elements(added);
    assert added == [] ==> was + Elements(added) == was;
  }

  lemma SetEffect(op: Op, v: Option<Cell>)
    requires op.SAdd? || op.SRem? || op.SMembers? || op.SIsMember?
    requires v.Some? ==> !Hollow(v.value)
    ensures var e := OnValue(op, v);
      (e.value.Some? && Hollow(e.value.value)) <==> AddsNothingTo(op, v)
  {
    if op.SAdd? {
      UnionEmptyIff(SetOf(v), op.members);
    }
  }

  lemma ListEffect(op: Op, v: Option<Cell>)
    requires op.LPush? || op.RPush? || op.LPop? || op.RPop? || op.LRange?
    requires v.Some? ==> !Hollow(v.value)
    ensures var e := OnValue(op, v);
      (e.value.Some? && Hollow(e.value.value)) <==> AddsNothingTo(op, v)
  {
    if op.LPush? {
      ReversedAt(op.values);
    }
  }

  lemma SweepKeepsContainers(kv: Kv, now: int)
    requires NoEmptyContainers(kv)
    ensures NoEmptyContainers(Evict(kv, now))
  {
  }

  /** The state an event's call finds: after the sweep, if there is one. */
  function Met(kv: Kv, e: Event): Kv {
    if e.sweep then Evict(kv, e.now) else kv
  }

  predicate NeverAddsNothing(kv: Kv, events: seq<Event>) {
    events == [] ||
    var n := |events| - 1;
    NeverAddsNothing(kv, events[..n])
    && !AddsNothing(Met(Run(kv, events[..n]).kv, events[n]), events[n].op, events[n].now)
  }

  predicate AlwaysFilled(kv: Kv, events: seq<Event>) {
    NoEmptyContainers(Run(kv, events).kv) && (events == [] || AlwaysFilled(kv, events[..|events| - 1]))
  }

  /** No state of a run, swept or not, has an empty container exactly when no call adds nothing to a missing key. */
  lemma {:induction false} RunKeepsContainersIff(kv: Kv, events: seq<Event>)
    requires NoEmptyContainers(kv)
    ensures AlwaysFilled(kv, events) <==> NeverAddsNothing(kv, events)
  {
    hide NoEmptyContainers, Step, AddsNothing;
    if events != [] {
      var n := |events| - 1;
      var t := Run(kv, events[..n]).kv;
      RunKeepsContainersIff(kv, events[..n]);
      if AlwaysFilled(kv, events[..n]) {
        FilledAtEnd(kv, events[..n]);
        SweepKeepsContainers(t, events[n].now);
        StepKeepsContainersIff(Met(t, events[n]), events[n].op, events[n].now);
      }
    }
  }

  lemma FilledAtEnd(kv: Kv, events: seq<Event>)
    requires AlwaysFilled(kv, events)
    ensures NoEmptyContainers(Run(kv, events).kv)
  {
  }

  // ---------- One map per key ----------

  /** No key holds a string and a container at once. */
  predicate OneMapPerKey(kv: Kv) {
    forall k :: k in kv.data ==> kv.data[k].str.None? || kv.data[k].container.None?
  }

  /** A counter call on a live container, which is left where it is. */
  predicate CountsContainer(kv: Kv, op: Op, now: int) {
    op.IncrBy? && CellOf(Lookup(Fresh(kv, op.key, now), op.key)).container.Some?
  }

  /** Exactly a counter call on a live container puts a key into two maps. */
  lemma StepKeepsOneMapIff(kv: Kv, op: Op, now: int)
    requires OneMapPerKey(kv)
    ensures OneMapPerKey(Step(kv, op, now).kv) <==> !CountsContainer(kv, op, now)
  {
    hide Step, KeyStep, Fresh, OneMapPerKey, Lookup;
    if OnOneKey(op) {
      StepOnKey(kv, op, now);
      FreshTwice(kv, op.key, now);
      FreshKeepsOneMap(kv, op.key, now);
      if op.Expire? {
        ExpireKeepsCells(Fresh(kv, op.key, now), op, now);
      } else {
        OneKeyOneMapIff(Fresh(kv, op.key, now), op, now);
      }
    } else {
      OthersKeepOneMap(kv, op, now);
    }
  }

  lemma OthersKeepOneMap(kv: Kv, op: Op, now: int)
    requires !OnOneKey(op) && OneMapPerKey(kv)
    ensures OneMapPerKey(Step(kv, op, now).kv)
  {
    if op.Del? {
      DeletedShrinks(kv, op.keys);
    }
  }

  lemma FreshKeepsOneMap(kv: Kv, key: Key, now: int)
    requires OneMapPerKey(kv)
    ensures OneMapPerKey(Fresh(kv, key, now))
  {
  }

  lemma OneKeyOneMapIff(kv: Kv, op: Op, now: int)
    requires OnOneKey(op) && !op.Expire? && OneMapPerKey(kv) && Fresh(kv, op.key, now) == kv
    ensures OneMapPerKey(KeyStep(kv, op, now).kv) <==> !CountsContainer(kv, op, now)
  {
    hide OnValue;
    var next := KeyStep(kv, op, now).kv;
    var v := OnValue(op, Lookup(kv, op.key)).value;
    EffectOneMapIff(op, Lookup(kv, op.key));
    assert Lookup(next, op.key) == v;
    assert v.Some? ==> op.key in next.data && next.data[op.key] == v.value;
    assert forall k :: k in next.data && k != op.key ==> k in kv.data && next.data[k] == kv.data[k];
  }

  lemma EffectOneMapIff(op: Op, v: Option<Cell>)
    requires OnOneKey(op) && !op.Expire?
    requires CellOf(v).str.None? || CellOf(v).container.None?
    ensures var w := CellOf(OnValue(op, v).value);
      w.str.None? || w.container.None? <==> !(op.IncrBy? && CellOf(v).container.Some?)
  {
  }

  /** A counter call on a hash succeeds, and the key is a string and a hash from then on. */
  lemma CounterOnHash(kv: Kv, k: Key, now: int)
    requires kv == Kv(map[k := BoxCell(HashVal(map["f" := "v"]))], map[])
    ensures var n := Step(kv, IncrBy(k, 1), now);
      && OneMapPerKey(kv) && n.reply == Num(1) && !OneMapPerKey(n.kv)
      && Step(n.kv, Get(k), now).reply == Data("1") && Step(n.kv, HGet(k, "f"), now).reply == Data("v")
  {
    StepKeepsOneMapIff(kv, IncrBy(k, 1), now);
    var n := Step(kv, IncrBy(k, 1), now);
    assert n.kv.data[k] == Cell(Some("1"), Some(HashVal(map["f" := "v"])));
  }

  predicate NeverCountsContainer(kv: Kv, events: seq<Event>) {
    events == [] ||
    var n := |events| - 1;
    NeverCountsContainer(kv, events[..n])
    && !CountsContainer(Met(Run(kv, events[..n]).kv, events[n]), events[n].op, events[n].now)
  }

  predicate AlwaysOneMap(kv: Kv, events: seq<Event>) {
    OneMapPerKey(Run(kv, events).kv) && (events == [] || AlwaysOneMap(kv, events[..|events| - 1]))
  }

  lemma SweepKeepsOneMap(kv: Kv, now: int)
    requires OneMapPerKey(kv)
    ensures OneMapPerKey(Evict(kv, now))
  {
  }

  /** In every state of a run each key lives in one map exactly when no counter call met a container. */
  lemma {:induction false} RunKeepsOneMapIff(kv: Kv, events: seq<Event>)
    requires OneMapPerKey(kv)
    ensures AlwaysOneMap(kv, events) <==> NeverCountsContainer(kv, events)
  {
    hide OneMapPerKey, Step, CountsContainer;
    if events != [] {
      var n := |events| - 1;
      var t := Run(kv, events[..n]).kv;
      RunKeepsOneMapIff(kv, events[..n]);
      if AlwaysOneMap(kv, events[..n]) {
        OneMapAtEnd(kv, events[..n]);
        SweepKeepsOneMap(t, events[n].now);
        StepKeepsOneMapIff(Met(t, events[n]), events[n].op, events[n].now);
      }
    }
  }

  lemma OneMapAtEnd(kv: Kv, events: seq<Event>)
    requires AlwaysOneMap(kv, events)
    ensures OneMapPerKey(Run(kv, events).kv)
  {
  }

  // ---------- Lists ----------

  lemma {:induction false} ReversedAt(s: seq<Bytes>)
    ensures |Reversed(s)| == |s|
    ensures forall i :: 0 <= i < |s| ==> Reversed(s)[i] == s[|s| - 1 - i]
  {
    if s != [] {
      ReversedAt(s[..|s| - 1]);
    }
  }

  lemma ReversedOfPushed(s: seq<Bytes>, x: Bytes)
    ensures Reversed(s + [x]) == [x] + Reversed(s)
  {
    assert (s + [x])[..|s|] == s;
  }

  lemma OneMorePushed(a: seq<Bytes>, b: seq<Bytes>, x: Bytes)
    requires Reversed(a + b) == Reversed(b) + Reversed(a)
    ensures Reversed(a + (b + [x])) == Reversed(b + [x]) + Reversed(a)
  {
    hide Reversed;
    ReversedOfPushed(a + b, x);
    ReversedOfPushed(b, x);
    assert a + (b + [x]) == a + b + [x];
    assert [x] + (Reversed(b) + Reversed(a)) == [x] + Reversed(b) + Reversed(a);
  }

  /** Pushing one by one, in two calls or in one, gives the same list. */
  lemma {:induction false} ReversedConcat(a: seq<Bytes>, b: seq<Bytes>)
    ensures Reversed(a + b) == Reversed(b) + Reversed(a)
  {
    if b == [] {
      assert a + b == a;
    } else {
      var n := |b| - 1;
      ReversedConcat(a, b[..n]);
      hide Reversed;
      assert b == b[..n] + [b[n]];
      OneMorePushed(a, b[..n], b[n]);
    }
  }

  /** Whether position p of a list of this length lies at or after start, counted from either end. */
  predicate From(p: int, start: int, length: int) {
    if start < 0 then length + start <= p else start <= p
  }

  predicate UpTo(p: int, stop: int, length: int) {
    if stop < 0 then p <= length + stop else p <= stop
  }

  /** LRange returns, in order, exactly the positions between start and stop. */
  lemma RangeIsTheSlice(s: seq<Bytes>, start: int, stop: int) returns (a: nat, b: nat)
    ensures a <= b <= |s| && Range(s, start, stop) == s[a..b]
    ensures forall p :: 0 <= p < |s| ==> (a <= p < b <==> From(p, start, |s|) && UpTo(p, stop, |s|))
  {
    var from0 := if start < 0 then |s| + start else start;
    var to0 := if stop < 0 then |s| + stop else stop;
    var from := if from0 < 0 then 0 else from0;
    var to := if to0 >= |s| then |s| - 1 else to0;
    if from > to {
      a, b := 0, 0;
    } else {
      a, b := from, to + 1;
    }
  }

  /** Cutting a list anywhere and reading both parts gives back the whole list. */
  lemma RangesJoin(s: seq<Bytes>, m: nat)
    ensures Range(s, 0, m) + Range(s, m + 1, -1) == s
  {
  }

  /** A pop takes back what a push of one value did, unless the push cleared something else at the key. */
  lemma PopUndoesPushIff(kv: Kv, k: Key, v: Bytes, now: int)
    ensures Step(Step(kv, LPush(k, [v]), now).kv, LPop(k), now) == Next(Fresh(kv, k, now), Data(v))
       <==> var was := Lookup(Fresh(kv, k, now), k);
            was.None? || ListOf(was) != []
  {
    hide Step, Fresh, Store;
    var live := Fresh(kv, k, now);
    var was := Lookup(live, k);
    var cell := PushedCell(was, v);
    var pushed := PushStores(kv, k, v, now);
    PopStores(pushed, k, now, cell, [v] + ListOf(was));
    var rest := Reboxed(Some(cell), if ListOf(was) == [] then None else Some(ListVal(ListOf(was))));
    assert ([v] + ListOf(was))[1..] == ListOf(was);
    StoredOver(live, k, cell, rest);
    assert rest == was <==> was.None? || ListOf(was) != [];
  }

  function PushedCell(was: Option<Cell>, v: Bytes): Cell {
    var items := ListVal([v] + ListOf(was));
    if HoldsList(was) then was.value.(container := Some(items)) else BoxCell(items)
  }

  lemma PushStores(kv: Kv, k: Key, v: Bytes, now: int) returns (pushed: Kv)
    ensures pushed == Step(kv, LPush(k, [v]), now).kv
    ensures var live := Fresh(kv, k, now);
      pushed == Put(live, k, PushedCell(Lookup(live, k), v)) && Fresh(pushed, k, now) == pushed
  {
    ReversedAt([v]);
    assert Reversed([v]) == [v];
    pushed := Step(kv, LPush(k, [v]), now).kv;
  }

  lemma PopStores(kv: Kv, k: Key, now: int, cell: Cell, items: seq<Bytes>)
    requires Lookup(kv, k) == Some(cell) && Fresh(kv, k, now) == kv
    requires cell.container == Some(ListVal(items)) && items != []
    ensures var rest := if |items| == 1 then None else Some(ListVal(items[1..]));
      Step(kv, LPop(k), now) == Next(Store(kv, k, Reboxed(Some(cell), rest)), Data(items[0]))
  {
  }

  /** Storing over a value put at the key restores the state exactly when it is what was there before. */
  lemma StoredOver(live: Kv, k: Key, cell: Cell, rest: Option<Cell>)
    ensures Store(Put(live, k, cell), k, rest) == live <==> rest == Lookup(live, k)
  {
    var after := Store(Put(live, k, cell), k, rest);
    assert Lookup(after, k) == rest;
    if rest == Lookup(live, k) {
      assert after.data == live.data;
    }
  }
}
