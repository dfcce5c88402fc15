/** The four typed maps and the deadlines of pkg/kv/memory/store.go, updated in place. */
module MemoryStore {
  import opened Options
  import opened Decimals
  import opened KvSpec

  /** What a key of three maps of containers holds there. */
  function ContainerAt(hashes: map<Key, map<Bytes, Bytes>>, sets: map<Key, set<Bytes>>,
                       lists: map<Key, seq<Bytes>>, key: Key): Option<Container> {
    if key in hashes then Some(HashVal(hashes[key]))
    else if key in sets then Some(SetVal(sets[key]))
    else if key in lists then Some(ListVal(lists[key]))
    else None
  }

  function StringAtKey(strings: map<Key, Bytes>, key: Key): Option<Bytes> {
    if key in strings then Some(strings[key]) else None
  }

  function CellIn(strings: map<Key, Bytes>, hashes: map<Key, map<Bytes, Bytes>>,
                  sets: map<Key, set<Bytes>>, lists: map<Key, seq<Bytes>>, key: Key): Cell {
    Cell(StringAtKey(strings, key), ContainerAt(hashes, sets, lists, key))
  }

  /** The single map of cells that the four maps stand for. */
  function Merged(strings: map<Key, Bytes>, hashes: map<Key, map<Bytes, Bytes>>,
                  sets: map<Key, set<Bytes>>, lists: map<Key, seq<Bytes>>): map<Key, Cell> {
    map k | k in strings.Keys + hashes.Keys + sets.Keys + lists.Keys :: CellIn(strings, hashes, sets, lists, k)
  }

  predicate OneContainerPerKey(hashes: map<Key, map<Bytes, Bytes>>, sets: map<Key, set<Bytes>>,
                               lists: map<Key, seq<Bytes>>) {
    && (forall k :: k in hashes ==> k !in sets && k !in lists)
    && (forall k :: k in sets ==> k !in lists)
  }

  /** Two maps of cells that agree everywhere but at one key. */
  lemma SameElsewhere(before: map<Key, Cell>, after: map<Key, Cell>, key: Key)
    requires forall k :: k != key ==> (k in before <==> k in after)
    requires forall k :: k != key && k in before && k in after ==> before[k] == after[k]
    ensures after == if key in after then before[key := after[key]] else before - {key}
  {
  }

  lemma MergedWithout(strings: map<Key, Bytes>, hashes: map<Key, map<Bytes, Bytes>>,
                      sets: map<Key, set<Bytes>>, lists: map<Key, seq<Bytes>>, key: Key)
    ensures Merged(strings - {key}, hashes - {key}, sets - {key}, lists - {key})
         == Merged(strings, hashes, sets, lists) - {key}
  {
    SameElsewhere(Merged(strings, hashes, sets, lists),
                  Merged(strings - {key}, hashes - {key}, sets - {key}, lists - {key}), key);
  }

  lemma MergedString(strings: map<Key, Bytes>, hashes: map<Key, map<Bytes, Bytes>>,
                     sets: map<Key, set<Bytes>>, lists: map<Key, seq<Bytes>>, key: Key, s: Bytes)
    ensures Merged(strings[key := s], hashes, sets, lists)
         == Merged(strings, hashes, sets, lists)[key := Cell(Some(s), ContainerAt(hashes, sets, lists, key))]
  {
    SameElsewhere(Merged(strings, hashes, sets, lists), Merged(strings[key := s], hashes, sets, lists), key);
  }

  lemma MergedHash(strings: map<Key, Bytes>, hashes: map<Key, map<Bytes, Bytes>>,
                   sets: map<Key, set<Bytes>>, lists: map<Key, seq<Bytes>>, key: Key, h: map<Bytes, Bytes>)
    ensures Merged(strings, hashes[key := h], sets, lists)
         == Merged(strings, hashes, sets, lists)[key := Cell(StringAtKey(strings, key), Some(HashVal(h)))]
  {
    SameElsewhere(Merged(strings, hashes, sets, lists), Merged(strings, hashes[key := h], sets, lists), key);
  }

  lemma MergedSet(strings: map<Key, Bytes>, hashes: map<Key, map<Bytes, Bytes>>,
                  sets: map<Key, set<Bytes>>, lists: map<Key, seq<Bytes>>, key: Key, m: set<Bytes>)
    requires key !in hashes
    ensures Merged(strings, hashes, sets[key := m], lists)
         == Merged(strings, hashes, sets, lists)[key := Cell(StringAtKey(strings, key), Some(SetVal(m)))]
  {
    SameElsewhere(Merged(strings, hashes, sets, lists), Merged(strings, hashes, sets[key := m], lists), key);
  }

  lemma MergedList(strings: map<Key, Bytes>, hashes: map<Key, map<Bytes, Bytes>>,
                   sets: map<Key, set<Bytes>>, lists: map<Key, seq<Bytes>>, key: Key, l: seq<Bytes>)
    requires key !in hashes && key !in sets
    ensures Merged(strings, hashes, sets, lists[key := l])
         == Merged(strings, hashes, sets, lists)[key := Cell(StringAtKey(strings, key), Some(ListVal(l)))]
  {
    SameElsewhere(Merged(strings, hashes, sets, lists), Merged(strings, hashes, sets, lists[key := l]), key);
  }

  /** Taking the one container away leaves the string, if there is one. */
  lemma MergedUnboxed(strings: map<Key, Bytes>, hashes: map<Key, map<Bytes, Bytes>>,
                      sets: map<Key, set<Bytes>>, lists: map<Key, seq<Bytes>>, key: Key)
    ensures Merged(strings, hashes - {key}, sets - {key}, lists - {key})
         == if key in strings then Merged(strings, hashes, sets, lists)[key := StrCell(strings[key])]
            else Merged(strings, hashes, sets, lists) - {key}
  {
    SameElsewhere(Merged(strings, hashes, sets, lists),
                  Merged(strings, hashes - {key}, sets - {key}, lists - {key}), key);
  }

  class Store {
    var strings: map<Key, Bytes>
    var hashes: map<Key, map<Bytes, Bytes>>
    var sets: map<Key, set<Bytes>>
    var lists: map<Key, seq<Bytes>>
    var expirations: map<Key, int>

    /** Each key lives in at most one of the three maps of containers. */
    ghost predicate Valid()
      reads this
    {
      OneContainerPerKey(hashes, sets, lists)
    }

    ghost function Value(): Kv
      reads this
    {
      Kv(Merged(strings, hashes, sets, lists), expirations)
    }

    constructor ()
      ensures Valid() && Value() == Kv(map[], map[])
    {
      strings, hashes, sets, lists, expirations := map[], map[], map[], map[], map[];
    }

    predicate Holds(key: Key)
      reads this
    {
      key in strings || key in hashes || key in sets || key in lists
    }

    lemma HoldsIs(key: Key)
      ensures Holds(key) <==> key in Value().data
    {
    }

    predicate IsExpired(key: Key, now: int)
      reads this
      ensures IsExpired(key, now) == Expired(Value(), key, now)
    {
      key in expirations && now > expirations[key]
    }

    method SetExpiration(key: Key, ttl: int, now: int)
      modifies `expirations
      ensures expirations == if ttl > 0 then old(expirations)[key := now + ttl] else old(expirations) - {key}
    {
      if ttl > 0 {
        expirations := expirations[key := now + ttl];
      } else {
        expirations := expirations - {key};
      }
    }

    method DeleteKey(key: Key)
      requires Valid()
      modifies `strings, `hashes, `sets, `lists
      ensures Valid() && !Holds(key)
      ensures Value() == Kv(old(Value()).data - {key}, old(expirations))
      ensures strings == old(strings) - {key} && hashes == old(hashes) - {key}
      ensures sets == old(sets) - {key} && lists == old(lists) - {key}
    {
      MergedWithout(strings, hashes, sets, lists, key);
      strings := strings - {key};
      hashes := hashes - {key};
      sets := sets - {key};
      lists := lists - {key};
    }

    /** The cell of a key with another container in it. */
    ghost function With(key: Key, c: Container): Cell
      reads this
    {
      Cell(StringAtKey(strings, key), Some(c))
    }

    /** What the specification sees at a key, in terms of the four maps. */
    lemma LookupIs(key: Key)
      requires Valid()
      ensures var v := Lookup(Value(), key);
        && v == (if Holds(key) then Some(CellIn(strings, hashes, sets, lists, key)) else None)
        && CellOf(v) == CellIn(strings, hashes, sets, lists, key)
        && (HoldsHash(v) <==> key in hashes) && (HoldsSet(v) <==> key in sets) && (HoldsList(v) <==> key in lists)
        && HashOf(v) == (if key in hashes then hashes[key] else map[])
        && SetOf(v) == (if key in sets then sets[key] else {})
        && ListOf(v) == (if key in lists then lists[key] else [])
    {
    }

    method PutHash(key: Key, h: map<Bytes, Bytes>)
      requires Valid() && key !in sets && key !in lists
      modifies `hashes
      ensures Valid() && Value() == Put(old(Value()), key, With(key, HashVal(h)))
      ensures hashes == old(hashes)[key := h]
    {
      MergedHash(strings, hashes, sets, lists, key, h);
      hashes := hashes[key := h];
    }

    method PutSet(key: Key, m: set<Bytes>)
      requires Valid() && key !in hashes && key !in lists
      modifies `sets
      ensures Valid() && Value() == Put(old(Value()), key, With(key, SetVal(m)))
      ensures sets == old(sets)[key := m]
    {
      MergedSet(strings, hashes, sets, lists, key, m);
      sets := sets[key := m];
    }

    method PutList(key: Key, l: seq<Bytes>)
      requires Valid() && key !in hashes && key !in sets
      modifies `lists
      ensures Valid() && Value() == Put(old(Value()), key, With(key, ListVal(l)))
      ensures lists == old(lists)[key := l]
    {
      MergedList(strings, hashes, sets, lists, key, l);
      lists := lists[key := l];
    }

    method RemoveHash(key: Key)
      requires Valid() && key in hashes
      modifies `hashes
      ensures Valid()
      ensures Value() == KvSpec.Store(old(Value()), key, Remaining(Cell(StringAtKey(strings, key), None)))
    {
      MergedUnboxed(strings, hashes, sets, lists, key);
      assert sets - {key} == sets && lists - {key} == lists;
      hashes := hashes - {key};
    }

    method RemoveSet(key: Key)
      requires Valid() && key in sets
      modifies `sets
      ensures Valid()
      ensures Value() == KvSpec.Store(old(Value()), key, Remaining(Cell(StringAtKey(strings, key), None)))
    {
      MergedUnboxed(strings, hashes, sets, lists, key);
      assert hashes - {key} == hashes && lists - {key} == lists;
      sets := sets - {key};
    }

    method RemoveList(key: Key)
      requires Valid() && key in lists
      modifies `lists
      ensures Valid()
      ensures Value() == KvSpec.Store(old(Value()), key, Remaining(Cell(StringAtKey(strings, key), None)))
    {
      MergedUnboxed(strings, hashes, sets, lists, key);
      assert hashes - {key} == hashes && sets - {key} == sets;
      lists := lists - {key};
    }

    method Drop(key: Key)
      requires Valid()
      modifies this
      ensures Valid() && !Holds(key)
      ensures Value() == Without(old(Value()), key)
    {
      hide Merged, OneContainerPerKey;
      DeleteKey(key);
      expirations := expirations - {key};
    }

    /** The lazy eviction that opens most calls. */
    method EvictIfExpired(key: Key, now: int) returns (expired: bool)
      requires Valid()
      modifies this
      ensures Valid() && Value() == Fresh(old(Value()), key, now)
      ensures expired == Expired(old(Value()), key, now)
      ensures expired ==> !Holds(key)
      ensures !expired ==> unchanged(this)
    {
      hide Merged, OneContainerPerKey;
      expired := IsExpired(key, now);
      if expired {
        Drop(key);
      }
    }

    /** The janitor. */
    method EvictExpired(now: int)
      requires Valid()
      modifies this
      ensures Valid() && Value() == Evict(old(Value()), now)
    {
      hide Merged, OneContainerPerKey;
      ghost var was := Value();
      var pending := expirations.Keys;
      ghost var done: set<Key> := {};
      SweptNone(was, now);
      while pending != {}
        invariant Valid() && Value() == Swept(was, done, now)
        invariant pending !! done && pending + done == was.deadlines.Keys
        decreases |pending|
      {
        var key :| key in pending;
        SweptMore(was, done, key, now);
        assert key in Value().deadlines;
        if now > expirations[key] {
          Drop(key);
        }
        pending := pending - {key};
        done := done + {key};
      }
      assert done == was.deadlines.Keys;
      SweptAll(was, now);
    }

    // ---------- Strings ----------

    method Set(key: Key, value: Bytes, ttl: int, now: int)
      requires Valid()
      modifies this
      ensures Valid() && Next(Value(), Done) == Step(old(Value()), Op.Set(key, value, ttl), now)
      ensures Value() == WithDeadline(Put(old(Value()), key, StrCell(value)), key, ttl, now)
    {
      hide Merged, OneContainerPerKey;
      DeleteKey(key);
      MergedString(strings, hashes, sets, lists, key, value);
      PutOver(old(Value()), key, StrCell(value), StrCell(value));
      strings := strings[key := value];
      if ttl > 0 {
        SetExpiration(key, ttl, now);
      }
    }

    method Get(key: Key, now: int) returns (reply: Reply)
      requires Valid()
      modifies this
      ensures Valid() && Next(Value(), reply) == Step(old(Value()), Op.Get(key), now)
    {
      hide Merged, OneContainerPerKey;
      var expired := EvictIfExpired(key, now);
      LookupIs(key);
      if expired || key !in strings {
        reply := NotFound;
      } else {
        reply := Data(strings[key]);
      }
      Unchanged(Value(), key);
    }

    // ---------- Keys ----------

    method Del(keys: seq<Key>) returns (reply: Reply)
      requires Valid()
      modifies this
      ensures Valid()
      ensures forall now :: Next(Value(), reply) == Step(old(Value()), Op.Del(keys), now)
    {
      hide Merged, OneContainerPerKey;
      var deleted := 0;
      for i := 0 to |keys|
        invariant Valid() && Value() == Deleted(old(Value()), keys[..i])
        invariant deleted == DeletedCount(old(Value()), keys[..i])
      {
        assert keys[..i + 1][..i] == keys[..i];
        HoldsIs(keys[i]);
        if Holds(keys[i]) {
          deleted := deleted + 1;
        }
        Drop(keys[i]);
      }
      assert keys[..|keys|] == keys;
      reply := Num(deleted);
    }

    method Exists(keys: seq<Key>, now: int) returns (reply: Reply)
      ensures Next(Value(), reply) == Step(Value(), Op.Exists(keys), now)
    {
      hide Merged, OneContainerPerKey;
      var found := 0;
      for i := 0 to |keys|
        invariant found == PresentCount(Value(), keys[..i], now)
      {
        assert keys[..i + 1][..i] == keys[..i];
        HoldsIs(keys[i]);
        if !IsExpired(keys[i], now) && Holds(keys[i]) {
          found := found + 1;
        }
      }
      assert keys[..|keys|] == keys;
      reply := Num(found);
    }

    method Expire(key: Key, ttl: int, now: int) returns (reply: Reply)
      requires Valid()
      modifies this
      ensures Valid() && Next(Value(), reply) == Step(old(Value()), Op.Expire(key, ttl), now)
    {
      hide Merged, OneContainerPerKey;
      var expired := EvictIfExpired(key, now);
      HoldsIs(key);
      if expired || !Holds(key) {
        return Flag(false);
      }
      SetExpiration(key, ttl, now);
      reply := Flag(true);
    }

    method TTL(key: Key, now: int) returns (reply: Reply)
      ensures Next(Value(), reply) == Step(Value(), Op.TTL(key), now)
    {
      hide Merged, OneContainerPerKey;
      HoldsIs(key);
      if key !in expirations {
        reply := if Holds(key) then Num(-1) else NotFound;
      } else {
        var remaining := expirations[key] - now;
        reply := if remaining <= 0 then Num(0) else Num(remaining);
      }
    }

    /** A container at the key is not cleared here as it is in every other write. */
    method IncrBy(key: Key, n: int, now: int) returns (reply: Reply)
      requires Valid()
      modifies this
      ensures Valid() && Next(Value(), reply) == Step(old(Value()), Op.IncrBy(key, n), now)
    {
      hide Merged, OneContainerPerKey, Step, ParseInt, FormatInt, Wrap64;
      var expired := EvictIfExpired(key, now);
      LookupIs(key);
      KeyCall(old(Value()), Op.IncrBy(key, n), now);
      var current := 0;
      if key in strings {
        var parsed := ParseInt(strings[key]);
        if parsed.None? {
          Unchanged(Value(), key);
          return Fault;
        }
        current := parsed.value;
      }
      var value := Wrap64(current + n);
      MergedString(strings, hashes, sets, lists, key, FormatInt(value));
      strings := strings[key := FormatInt(value)];
      reply := Num(value);
    }

    // ---------- Hashes ----------

    method HSet(key: Key, field: Bytes, value: Bytes, now: int)
      requires Valid()
      modifies this
      ensures Valid() && Next(Value(), Done) == Step(old(Value()), Op.HSet(key, field, value), now)
    {
      hide Merged, OneContainerPerKey;
      var expired := EvictIfExpired(key, now);
      ghost var live := Value();
      LookupIs(key);
      if key !in hashes {
        DeleteKey(key);
        PutHash(key, map[]);
      }
      PutHash(key, hashes[key][field := value]);
      PutOver(live, key, BoxCell(HashVal(map[])), With(key, HashVal(hashes[key])));
      KeyCall(old(Value()), Op.HSet(key, field, value), now);
    }

    method HGet(key: Key, field: Bytes, now: int) returns (reply: Reply)
      requires Valid()
      modifies this
      ensures Valid() && Next(Value(), reply) == Step(old(Value()), Op.HGet(key, field), now)
    {
      hide Merged, OneContainerPerKey;
      var expired := EvictIfExpired(key, now);
      LookupIs(key);
      if expired || key !in hashes || field !in hashes[key] {
        reply := NotFound;
      } else {
        reply := Data(hashes[key][field]);
      }
      Unchanged(Value(), key);
    }

    method HDel(key: Key, fields: seq<Bytes>, now: int) returns (reply: Reply)
      requires Valid()
      modifies this
      ensures Valid() && Next(Value(), reply) == Step(old(Value()), Op.HDel(key, fields), now)
    {
      hide Merged, OneContainerPerKey, Step;
      var expired := EvictIfExpired(key, now);
      ghost var live := Value();
      LookupIs(key);
      KeyCall(old(Value()), Op.HDel(key, fields), now);
      Unchanged(live, key);
      if expired || key !in hashes {
        return Num(0);
      }
      ghost var was := hashes[key];
      var deleted := DeleteFields(key, fields);
      if |hashes[key]| == 0 {
        RemoveOver(live, key, With(key, HashVal(hashes[key])), Remaining(Cell(StringAtKey(strings, key), None)));
        RemoveHash(key);
      }
      reply := Num(deleted);
    }

    method DeleteFields(key: Key, fields: seq<Bytes>) returns (deleted: int)
      requires Valid() && key in hashes
      modifies `hashes
      ensures Valid() && key in hashes && hashes[key] == old(hashes[key]) - Elements(fields)
      ensures Value() == Put(old(Value()), key, With(key, HashVal(hashes[key])))
      ensures deleted == |old(hashes[key])| - |hashes[key]|
    {
      hide Merged, OneContainerPerKey, Put, Elements;
      ghost var was, live := hashes[key], Value();
      LookupIs(key);
      NoElements(fields);
      PutBack(live, key, With(key, HashVal(was)));
      MapMinusNothing(was);
      deleted := 0;
      for i := 0 to |fields|
        invariant Valid() && key in hashes && Value() == Put(live, key, With(key, HashVal(hashes[key])))
        invariant hashes[key] == was - Elements(fields[..i])
        invariant deleted == |was| - |hashes[key]|
      {
        ghost var before := hashes[key];
        ElementsOneMore(fields, i);
        MapMinusMore(was, Elements(fields[..i]), fields[i]);
        if fields[i] in hashes[key] {
          MapLosesOne(before, fields[i]);
          PutHash(key, hashes[key] - {fields[i]});
          deleted := deleted + 1;
          PutOver(live, key, With(key, HashVal(before)), With(key, HashVal(hashes[key])));
        }
      }
      assert fields[..|fields|] == fields;
    }

    method HGetAll(key: Key, now: int) returns (reply: Reply)
      requires Valid()
      modifies this
      ensures Valid() && Next(Value(), reply) == Step(old(Value()), Op.HGetAll(key), now)
    {
      hide Merged, OneContainerPerKey;
      var expired := EvictIfExpired(key, now);
      Unchanged(Value(), key);
      LookupIs(key);
      if expired || key !in hashes {
        return NotFound;
      }
      var copy := CopyOf(hashes[key]);
      reply := Hash(copy);
    }

    static method CopyOf(hash: map<Bytes, Bytes>) returns (copy: map<Bytes, Bytes>)
      ensures copy == hash
    {
      var pending := hash.Keys;
      copy := map[];
      while pending != {}
        invariant pending <= hash.Keys && copy == hash - pending
        decreases |pending|
      {
        var field :| field in pending;
        copy := copy[field := hash[field]];
        pending := pending - {field};
      }
      assert hash - {} == hash;
    }

    // ---------- Sets ----------

    method SAdd(key: Key, members: seq<Bytes>, now: int) returns (reply: Reply)
      requires Valid()
      modifies this
      ensures Valid() && Next(Value(), reply) == Step(old(Value()), Op.SAdd(key, members), now)
    {
      hide Merged, OneContainerPerKey, Step;
      var expired := EvictIfExpired(key, now);
      ghost var live := Value();
      LookupIs(key);
      ghost var was := SetOf(Lookup(live, key));
      Unchanged(live, key);
      if key !in sets {
        DeleteKey(key);
        PutSet(key, {});
        PutOver(live, key, With(key, SetVal({})), With(key, SetVal({})));
      }
      var added := AddMembers(key, members);
      PutOver(live, key, With(key, SetVal(was)), With(key, SetVal(sets[key])));
      reply := Num(added);
      KeyCall(old(Value()), Op.SAdd(key, members), now);
    }

    method AddMembers(key: Key, members: seq<Bytes>) returns (added: int)
      requires Valid() && key in sets
      modifies `sets
      ensures Valid() && key in sets && sets[key] == old(sets[key]) + Elements(members)
      ensures Value() == Put(old(Value()), key, With(key, SetVal(sets[key])))
      ensures added == |sets[key]| - |old(sets[key])|
    {
      hide Merged, OneContainerPerKey, Put, Elements;
      ghost var was, live := sets[key], Value();
      LookupIs(key);
      NoElements(members);
      PutBack(live, key, With(key, SetVal(was)));
      assert was + {} == was;
      added := 0;
      for i := 0 to |members|
        invariant Valid() && key in sets && Value() == Put(live, key, With(key, SetVal(sets[key])))
        invariant sets[key] == was + Elements(members[..i])
        invariant added == |sets[key]| - |was|
      {
        ghost var before := sets[key];
        ElementsOneMore(members, i);
        if members[i] !in sets[key] {
          PutSet(key, sets[key] + {members[i]});
          added := added + 1;
          PutOver(live, key, With(key, SetVal(before)), With(key, SetVal(sets[key])));
        }
      }
      assert members[..|members|] == members;
    }

    method SRem(key: Key, members: seq<Bytes>, now: int) returns (reply: Reply)
      requires Valid()
      modifies this
      ensures Valid() && Next(Value(), reply) == Step(old(Value()), Op.SRem(key, members), now)
    {
      hide Merged, OneContainerPerKey, Step;
      var expired := EvictIfExpired(key, now);
      ghost var live := Value();
      LookupIs(key);
      KeyCall(old(Value()), Op.SRem(key, members), now);
      Unchanged(live, key);
      if expired || key !in sets {
        return Num(0);
      }
      ghost var was := sets[key];
      var removed := RemoveMembers(key, members);
      if |sets[key]| == 0 {
        RemoveOver(live, key, With(key, SetVal(sets[key])), Remaining(Cell(StringAtKey(strings, key), None)));
        RemoveSet(key);
      }
      reply := Num(removed);
    }

    method RemoveMembers(key: Key, members: seq<Bytes>) returns (removed: int)
      requires Valid() && key in sets
      modifies `sets
      ensures Valid() && key in sets && sets[key] == old(sets[key]) - Elements(members)
      ensures Value() == Put(old(Value()), key, With(key, SetVal(sets[key])))
      ensures removed == |old(sets[key])| - |sets[key]|
    {
      hide Merged, OneContainerPerKey, Put, Elements;
      ghost var was, live := sets[key], Value();
      LookupIs(key);
      NoElements(members);
      PutBack(live, key, With(key, SetVal(was)));
      assert was - {} == was;
      removed := 0;
      for i := 0 to |members|
        invariant Valid() && key in sets && Value() == Put(live, key, With(key, SetVal(sets[key])))
        invariant sets[key] == was - Elements(members[..i])
        invariant removed == |was| - |sets[key]|
      {
        ghost var before := sets[key];
        ElementsOneMore(members, i);
        if members[i] in sets[key] {
          PutSet(key, sets[key] - {members[i]});
          removed := removed + 1;
          PutOver(live, key, With(key, SetVal(before)), With(key, SetVal(sets[key])));
        }
      }
      assert members[..|members|] == members;
    }

    method SMembers(key: Key, now: int) returns (reply: Reply)
      requires Valid()
      modifies this
      ensures Valid() && Next(Value(), reply) == Step(old(Value()), Op.SMembers(key), now)
    {
      hide Merged, OneContainerPerKey;
      var expired := EvictIfExpired(key, now);
      LookupIs(key);
      reply := if expired || key !in sets then NotFound else Members(sets[key]);
      Unchanged(Value(), key);
    }

    method SIsMember(key: Key, member: Bytes, now: int) returns (reply: Reply)
      requires Valid()
      modifies this
      ensures Valid() && Next(Value(), reply) == Step(old(Value()), Op.SIsMember(key, member), now)
    {
      hide Merged, OneContainerPerKey;
      var expired := EvictIfExpired(key, now);
      LookupIs(key);
      reply := Flag(!expired && key in sets && member in sets[key]);
      Unchanged(Value(), key);
    }

    // ---------- Lists ----------

    /** Each value becomes the new head, so the arguments end up reversed. */
    method LPush(key: Key, values: seq<Bytes>, now: int) returns (reply: Reply)
      requires Valid()
      modifies this
      ensures Valid() && Next(Value(), reply) == Step(old(Value()), Op.LPush(key, values), now)
    {
      hide Merged, OneContainerPerKey;
      var expired := EvictIfExpired(key, now);
      ghost var live := Value();
      LookupIs(key);
      ghost var was := ListOf(Lookup(live, key));
      Unchanged(live, key);
      if key !in lists {
        DeleteKey(key);
        PutList(key, []);
        PutOver(live, key, With(key, ListVal([])), With(key, ListVal([])));
      }
      Prepend(key, values);
      PutOver(live, key, With(key, ListVal(was)), With(key, ListVal(lists[key])));
      reply := Num(|lists[key]|);
      KeyCall(old(Value()), Op.LPush(key, values), now);
    }

    method Prepend(key: Key, values: seq<Bytes>)
      requires Valid() && key in lists
      modifies `lists
      ensures Valid() && key in lists && lists[key] == Reversed(values) + old(lists[key])
      ensures Value() == Put(old(Value()), key, With(key, ListVal(lists[key])))
    {
      hide Merged, OneContainerPerKey;
      ghost var was, live := lists[key], Value();
      LookupIs(key);
      PutBack(live, key, With(key, ListVal(was)));
      for i := 0 to |values|
        invariant Valid() && key in lists && Value() == Put(live, key, With(key, ListVal(lists[key])))
        invariant lists[key] == Reversed(values[..i]) + was
      {
        ghost var before := lists[key];
        assert values[..i + 1][..i] == values[..i];
        PutList(key, [values[i]] + lists[key]);
        PutOver(live, key, With(key, ListVal(before)), With(key, ListVal(lists[key])));
      }
      assert values[..|values|] == values;
    }

    method RPush(key: Key, values: seq<Bytes>, now: int) returns (reply: Reply)
      requires Valid()
      modifies this
      ensures Valid() && Next(Value(), reply) == Step(old(Value()), Op.RPush(key, values), now)
    {
      hide Merged, OneContainerPerKey;
      var expired := EvictIfExpired(key, now);
      ghost var live := Value();
      LookupIs(key);
      if key !in lists {
        DeleteKey(key);
        PutList(key, []);
      }
      PutList(key, lists[key] + values);
      PutOver(live, key, With(key, ListVal([])), With(key, ListVal(lists[key])));
      reply := Num(|lists[key]|);
      KeyCall(old(Value()), Op.RPush(key, values), now);
    }

    method LPop(key: Key, now: int) returns (reply: Reply)
      requires Valid()
      modifies this
      ensures Valid() && Next(Value(), reply) == Step(old(Value()), Op.LPop(key), now)
    {
      hide Merged, OneContainerPerKey, Step;
      var expired := EvictIfExpired(key, now);
      LookupIs(key);
      KeyCall(old(Value()), Op.LPop(key), now);
      if expired || key !in lists || |lists[key]| == 0 {
        Unchanged(Value(), key);
        return NotFound;
      }
      var value := lists[key][0];
      KeepTail(key, lists[key][1..]);
      reply := Data(value);
    }

    method RPop(key: Key, now: int) returns (reply: Reply)
      requires Valid()
      modifies this
      ensures Valid() && Next(Value(), reply) == Step(old(Value()), Op.RPop(key), now)
    {
      hide Merged, OneContainerPerKey, Step;
      var expired := EvictIfExpired(key, now);
      LookupIs(key);
      KeyCall(old(Value()), Op.RPop(key), now);
      if expired || key !in lists || |lists[key]| == 0 {
        Unchanged(Value(), key);
        return NotFound;
      }
      var last := |lists[key]| - 1;
      var value := lists[key][last];
      KeepTail(key, lists[key][..last]);
      reply := Data(value);
    }

    /** Stores what is left of a list after a pop; an empty list is taken away. */
    method KeepTail(key: Key, rest: seq<Bytes>)
      requires Valid() && key in lists
      modifies `lists
      ensures Valid()
      ensures Value() == KvSpec.Store(old(Value()), key,
        Remaining(Cell(StringAtKey(strings, key), if rest == [] then None else Some(ListVal(rest)))))
    {
      hide Merged, OneContainerPerKey;
      LookupIs(key);
      RemoveOver(Value(), key, With(key, ListVal(rest)), Remaining(Cell(StringAtKey(strings, key), None)));
      PutList(key, rest);
      if |lists[key]| == 0 {
        RemoveList(key);
      }
    }

    method LRange(key: Key, start: int, stop: int, now: int) returns (reply: Reply)
      requires Valid()
      modifies this
      ensures Valid() && Next(Value(), reply) == Step(old(Value()), Op.LRange(key, start, stop), now)
    {
      hide Merged, OneContainerPerKey, Step, Range, OnValue;
      var expired := EvictIfExpired(key, now);
      LookupIs(key);
      KeyCall(old(Value()), Op.LRange(key, start, stop), now);
      RangeRead(key, start, stop, Lookup(Value(), key));
      Unchanged(Value(), key);
      if expired || key !in lists {
        return NotFound;
      }
      var result := SliceOf(lists[key], start, stop);
      reply := Items(result);
    }

    static method SliceOf(list: seq<Bytes>, start: int, stop: int) returns (result: seq<Bytes>)
      ensures result == Range(list, start, stop)
    {
      if |list| == 0 {
        return [];
      }
      var from, to := start, stop;
      if from < 0 {
        from := |list| + from;
      }
      if to < 0 {
        to := |list| + to;
      }
      if from < 0 {
        from := 0;
      }
      if to >= |list| {
        to := |list| - 1;
      }
      if from > to || from >= |list| {
        return [];
      }
      result := CopyOfSlice(list, from, to);
    }

    static method CopyOfSlice(list: seq<Bytes>, start: nat, stop: nat) returns (result: seq<Bytes>)
      requires start <= stop < |list|
      ensures result == list[start..stop + 1]
    {
      result := [];
      for i := start to stop + 1
        invariant result == list[start..i]
      {
        result := result + [list[i]];
      }
    }

    // ---------- Several keys ----------

    method MGet(keys: seq<Key>, now: int) returns (reply: Reply)
      requires Valid()
      ensures Next(Value(), reply) == Step(Value(), Op.MGet(keys), now)
    {
      hide Merged, OneContainerPerKey;
      var result := [];
      for i := 0 to |keys|
        invariant result == StringsAt(Value(), keys[..i], now)
      {
        assert keys[..i + 1][..i] == keys[..i];
        LookupIs(keys[i]);
        if !IsExpired(keys[i], now) && keys[i] in strings {
          result := result + [Some(strings[keys[i]])];
        } else {
          result := result + [None];
        }
      }
      assert keys[..|keys|] == keys;
      reply := Many(result);
    }

    method MSet(values: map<Key, Bytes>, ttl: int, now: int)
      requires Valid()
      modifies this
      ensures Valid() && Next(Value(), Done) == Step(old(Value()), Op.MSet(values, ttl), now)
    {
      hide Merged, OneContainerPerKey, SetAll, Step;
      ghost var was := Value();
      var pending := values.Keys;
      ghost var done: map<Key, Bytes> := map[];
      SetNone(was, ttl, now);
      while pending != {}
        invariant Valid() && pending <= values.Keys && done == values - pending
        invariant Value() == SetAll(was, done, ttl, now)
        decreases |pending|
      {
        var key :| key in pending;
        Set(key, values[key], ttl, now);
        SetOneMore(was, done, key, values[key], ttl, now);
        pending := pending - {key};
        done := done[key := values[key]];
      }
      assert done == values;
      MSetStep(was, values, ttl, now);
    }
  }

  /** A sweep that has looked at some of the deadlines so far. */
  ghost function Swept(kv: Kv, seen: set<Key>, now: int): Kv {
    Kv(map k | k in kv.data && !(k in seen && Expired(kv, k, now)) :: kv.data[k],
       map k | k in kv.deadlines && !(k in seen && Expired(kv, k, now)) :: kv.deadlines[k])
  }

  lemma SweptNone(kv: Kv, now: int)
    ensures Swept(kv, {}, now) == kv
  {
  }

  lemma SweptMore(kv: Kv, seen: set<Key>, key: Key, now: int)
    requires key !in seen && key in kv.deadlines
    ensures key in Swept(kv, seen, now).deadlines
    ensures Swept(kv, seen + {key}, now) == Fresh(Swept(kv, seen, now), key, now)
  {
  }

  lemma SweptAll(kv: Kv, now: int)
    ensures Swept(kv, kv.deadlines.Keys, now) == Evict(kv, now)
  {
  }

  lemma RemoveOver(kv: Kv, key: Key, v: Cell, w: Option<Cell>)
    ensures KvSpec.Store(Put(kv, key, v), key, w) == KvSpec.Store(kv, key, w)
  {
  }

  /** A value put where another was, or where one was just removed. */
  lemma PutOver(kv: Kv, key: Key, v: Cell, w: Cell)
    ensures Put(Put(kv, key, v), key, w) == Put(kv, key, w)
    ensures Put(Put(Kv(kv.data - {key}, kv.deadlines), key, v), key, w) == Put(kv, key, w)
    ensures Put(Kv(kv.data - {key}, kv.deadlines), key, w) == Put(kv, key, w)
  {
  }

  /** Putting back the value that is there changes nothing. */
  lemma Unchanged(kv: Kv, key: Key)
    ensures KvSpec.Store(kv, key, Lookup(kv, key)) == kv
  {
  }

  lemma PutBack(kv: Kv, key: Key, v: Cell)
    requires Lookup(kv, key) == Some(v)
    ensures Put(kv, key, v) == kv
  {
  }

  /** A call on one key, other than Expire, in terms of the value found there. */
  lemma KeyCall(kv: Kv, op: Op, now: int)
    requires OnOneKey(op) && !op.Expire?
    ensures var live := Fresh(kv, op.key, now);
      var e := OnValue(op, Lookup(live, op.key));
      Step(kv, op, now) == Next(KvSpec.Store(live, op.key, e.value), e.reply)
  {
  }

  lemma RangeRead(key: Key, start: int, stop: int, v: Option<Cell>)
    ensures OnValue(Op.LRange(key, start, stop), v)
         == Effect(v, if HoldsList(v) then Items(Range(ListOf(v), start, stop)) else NotFound)
  {
  }

  lemma ElementsOneMore(s: seq<Bytes>, i: nat)
    requires i < |s|
    ensures Elements(s[..i + 1]) == Elements(s[..i]) + {s[i]}
  {
  }

  lemma NoElements(s: seq<Bytes>)
    ensures Elements(s[..0]) == {}
  {
  }

  lemma MapMinusNothing(m: map<Bytes, Bytes>)
    ensures m - {} == m
  {
  }

  lemma MapMinusMore(m: map<Bytes, Bytes>, gone: set<Bytes>, f: Bytes)
    ensures m - gone - {f} == m - (gone + {f})
    ensures f !in m - gone ==> m - (gone + {f}) == m - gone
  {
  }

  lemma MapLosesOne(m: map<Bytes, Bytes>, f: Bytes)
    requires f in m
    ensures |m - {f}| == |m| - 1
  {
  }

  lemma MSetStep(kv: Kv, values: map<Key, Bytes>, ttl: int, now: int)
    ensures Step(kv, Op.MSet(values, ttl), now) == Next(SetAll(kv, values, ttl, now), Done)
  {
  }

  lemma SetNone(kv: Kv, ttl: int, now: int)
    ensures SetAll(kv, map[], ttl, now) == kv
  {
  }

  lemma SetOneMore(kv: Kv, values: map<Key, Bytes>, key: Key, value: Bytes, ttl: int, now: int)
    ensures WithDeadline(Put(SetAll(kv, values, ttl, now), key, StrCell(value)), key, ttl, now)
         == SetAll(kv, values[key := value], ttl, now)
  {
    DataOneMore(kv, values, key, value, ttl, now);
    DeadlineOneMore(kv, values, key, value, ttl, now);
  }

  lemma DataOneMore(kv: Kv, values: map<Key, Bytes>, key: Key, value: Bytes, ttl: int, now: int)
    ensures SetAll(kv, values[key := value], ttl, now).data
         == SetAll(kv, values, ttl, now).data[key := StrCell(value)]
  {
  }

  lemma DeadlineOneMore(kv: Kv, values: map<Key, Bytes>, key: Key, value: Bytes, ttl: int, now: int)
    ensures SetAll(kv, values[key := value], ttl, now).deadlines
         == if ttl > 0 then SetAll(kv, values, ttl, now).deadlines[key := now + ttl] else kv.deadlines
  {
    if ttl > 0 {
      StampsOneMore(values, key, value, now + ttl);
      OverlayOneMore(kv.deadlines, Stamps(values, now + ttl), key, now + ttl);
      DeadlinesAre(kv, values, ttl, now);
      DeadlinesAre(kv, values[key := value], ttl, now);
    }
  }

  ghost function Stamps(values: map<Key, Bytes>, t: int): map<Key, int> {
    map k | k in values :: t
  }

  lemma DeadlinesAre(kv: Kv, values: map<Key, Bytes>, ttl: int, now: int)
    requires ttl > 0
    ensures SetAll(kv, values, ttl, now).deadlines == kv.deadlines + Stamps(values, now + ttl)
  {
  }

  lemma StampsOneMore(values: map<Key, Bytes>, key: Key, value: Bytes, t: int)
    ensures Stamps(values[key := value], t) == Stamps(values, t)[key := t]
  {
  }

  lemma OverlayOneMore(under: map<Key, int>, over: map<Key, int>, key: Key, t: int)
    ensures under + over[key := t] == (under + over)[key := t]
  {
  }
}
