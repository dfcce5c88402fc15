/** The in-memory key-value store (pkg/kv/memory/store.go) as one map of cells. */
module KvSpec {
  import opened Options
  import opened Decimals

  type Key = string
  type Bytes = string

  datatype Container =
    | HashVal(fields: map<Bytes, Bytes>)
    | SetVal(members: set<Bytes>)
    | ListVal(items: seq<Bytes>)

  /** What a key holds: a string, a container, or, after a counter call on a container, both. */
  datatype Cell = Cell(str: Option<Bytes>, container: Option<Container>)

  function StrCell(s: Bytes): Cell {
    Cell(Some(s), None)
  }

  function BoxCell(c: Container): Cell {
    Cell(None, Some(c))
  }

  const NO_CELL := Cell(None, None)

  /** A key whose cell has become empty is gone. */
  function Remaining(c: Cell): Option<Cell> {
    if c == NO_CELL then None else Some(c)
  }

  function CellOf(v: Option<Cell>): Cell {
    if v.Some? then v.value else NO_CELL
  }

  /** A deadline can outlive its key: the source only drops it in some calls. */
  datatype Kv = Kv(data: map<Key, Cell>, deadlines: map<Key, int>)

  datatype Reply =
    | Done
    | NotFound
    | Fault
    | Data(value: Bytes)
    | Num(n: int)
    | Flag(b: bool)
    | Many(values: seq<Option<Bytes>>)
    | Hash(fields: map<Bytes, Bytes>)
    | Members(members: set<Bytes>)
    | Items(items: seq<Bytes>)

  datatype Next = Next(kv: Kv, reply: Reply)

  datatype Op =
    | Set(key: Key, value: Bytes, ttl: int)
    | Get(key: Key)
    | Del(keys: seq<Key>)
    | Exists(keys: seq<Key>)
    | Expire(key: Key, ttl: int)
    | TTL(key: Key)
    | IncrBy(key: Key, delta: int)
    | HSet(key: Key, field: Bytes, value: Bytes)
    | HGet(key: Key, field: Bytes)
    | HDel(key: Key, fields: seq<Bytes>)
    | HGetAll(key: Key)
    | SAdd(key: Key, members: seq<Bytes>)
    | SRem(key: Key, members: seq<Bytes>)
    | SMembers(key: Key)
    | SIsMember(key: Key, member: Bytes)
    | LPush(key: Key, values: seq<Bytes>)
    | RPush(key: Key, values: seq<Bytes>)
    | LPop(key: Key)
    | RPop(key: Key)
    | LRange(key: Key, start: int, stop: int)
    | MGet(keys: seq<Key>)
    | MSet(pairs: map<Key, Bytes>, ttl: int)

  predicate Expired(kv: Kv, key: Key, now: int) {
    key in kv.deadlines && now > kv.deadlines[key]
  }

  function Without(kv: Kv, key: Key): Kv {
    Kv(kv.data - {key}, kv.deadlines - {key})
  }

  /** The lazy eviction most calls begin with. */
  function Fresh(kv: Kv, key: Key, now: int): Kv {
    if Expired(kv, key, now) then Without(kv, key) else kv
  }

  /** The janitor's sweep. */
  function Evict(kv: Kv, now: int): Kv {
    Kv(map k | k in kv.data && !Expired(kv, k, now) :: kv.data[k],
       map k | k in kv.deadlines && !Expired(kv, k, now) :: kv.deadlines[k])
  }

  function WithDeadline(kv: Kv, key: Key, ttl: int, now: int): Kv {
    if ttl > 0 then kv.(deadlines := kv.deadlines[key := now + ttl]) else kv
  }

  function Put(kv: Kv, key: Key, v: Cell): Kv {
    kv.(data := kv.data[key := v])
  }

  function Lookup(kv: Kv, key: Key): Option<Cell> {
    if key in kv.data then Some(kv.data[key]) else None
  }

  /** Stores a value or removes it; the deadline stays either way. */
  function Store(kv: Kv, key: Key, v: Option<Cell>): Kv {
    if v.Some? then Put(kv, key, v.value) else kv.(data := kv.data - {key})
  }

  function Deleted(kv: Kv, keys: seq<Key>): Kv {
    if keys == [] then kv else Without(Deleted(kv, keys[..|keys| - 1]), keys[|keys| - 1])
  }

  /** How many of the keys are there when their turn comes; a repeated key counts once. */
  function DeletedCount(kv: Kv, keys: seq<Key>): nat {
    if keys == [] then 0
    else
      var n := |keys| - 1;
      DeletedCount(kv, keys[..n]) + if keys[n] in Deleted(kv, keys[..n]).data then 1 else 0
  }

  predicate Present(kv: Kv, key: Key, now: int) {
    key in kv.data && !Expired(kv, key, now)
  }

  function PresentCount(kv: Kv, keys: seq<Key>, now: int): nat {
    if keys == [] then 0
    else
      PresentCount(kv, keys[..|keys| - 1], now) + if Present(kv, keys[|keys| - 1], now) then 1 else 0
  }

  function StringAt(kv: Kv, key: Key, now: int): Option<Bytes> {
    if Present(kv, key, now) then kv.data[key].str else None
  }

  function StringsAt(kv: Kv, keys: seq<Key>, now: int): seq<Option<Bytes>> {
    if keys == [] then []
    else StringsAt(kv, keys[..|keys| - 1], now) + [StringAt(kv, keys[|keys| - 1], now)]
  }

  function Reversed(s: seq<Bytes>): seq<Bytes> {
    if s == [] then [] else [s[|s| - 1]] + Reversed(s[..|s| - 1])
  }

  function Elements(s: seq<Bytes>): set<Bytes> {
    set x | x in s
  }

  /** Negative positions count from the end; the slice is clamped to the list. */
  function Range(s: seq<Bytes>, start: int, stop: int): seq<Bytes> {
    var from0 := if start < 0 then |s| + start else start;
    var from := if from0 < 0 then 0 else from0;
    var to0 := if stop < 0 then |s| + stop else stop;
    var to := if to0 >= |s| then |s| - 1 else to0;
    if from > to then [] else s[from..to + 1]
  }

  function SetAll(kv: Kv, values: map<Key, Bytes>, ttl: int, now: int): Kv {
    Kv(kv.data + (map k | k in values :: StrCell(values[k])),
       if ttl > 0 then kv.deadlines + (map k | k in values :: now + ttl) else kv.deadlines)
  }

  function Step(kv: Kv, op: Op, now: int): Next {
    match op
    case Set(k, v, ttl) => Next(WithDeadline(Put(kv, k, StrCell(v)), k, ttl, now), Done)
    case Del(keys) => Next(Deleted(kv, keys), Num(DeletedCount(kv, keys)))
    case Exists(keys) => Next(kv, Num(PresentCount(kv, keys, now)))
    case MGet(keys) => Next(kv, Many(StringsAt(kv, keys, now)))
    case MSet(values, ttl) => Next(SetAll(kv, values, ttl, now), Done)
    case TTL(k) => Next(kv, TtlReply(kv, k, now))
    case _ => KeyStep(Fresh(kv, op.key, now), op, now)
  }

  function TtlReply(kv: Kv, k: Key, now: int): Reply {
    if k !in kv.deadlines then (if k in kv.data then Num(-1) else NotFound)
    else if kv.deadlines[k] - now <= 0 then Num(0)
    else Num(kv.deadlines[k] - now)
  }

  predicate OnOneKey(op: Op) {
    !(op.Set? || op.Del? || op.Exists? || op.MGet? || op.MSet? || op.TTL?)
  }

  /** The calls that first evict their key if it has expired. */
  function KeyStep(kv: Kv, op: Op, now: int): Next
    requires OnOneKey(op)
  {
    if op.Expire? then
      if op.key !in kv.data then Next(kv, Flag(false))
      else if op.ttl > 0 then Next(WithDeadline(kv, op.key, op.ttl, now), Flag(true))
      else Next(kv.(deadlines := kv.deadlines - {op.key}), Flag(true))
    else
      var e := OnValue(op, Lookup(kv, op.key));
      Next(Store(kv, op.key, e.value), e.reply)
  }

  /** What a call makes of the value at its key. */
  datatype Effect = Effect(value: Option<Cell>, reply: Reply)

  function HashOf(v: Option<Cell>): map<Bytes, Bytes> {
    var c := CellOf(v).container;
    if c.Some? && c.value.HashVal? then c.value.fields else map[]
  }

  function SetOf(v: Option<Cell>): set<Bytes> {
    var c := CellOf(v).container;
    if c.Some? && c.value.SetVal? then c.value.members else {}
  }

  function ListOf(v: Option<Cell>): seq<Bytes> {
    var c := CellOf(v).container;
    if c.Some? && c.value.ListVal? then c.value.items else []
  }

  predicate HoldsHash(v: Option<Cell>) {
    CellOf(v).container.Some? && CellOf(v).container.value.HashVal?
  }

  predicate HoldsSet(v: Option<Cell>) {
    CellOf(v).container.Some? && CellOf(v).container.value.SetVal?
  }

  predicate HoldsList(v: Option<Cell>) {
    CellOf(v).container.Some? && CellOf(v).container.value.ListVal?
  }

  /** A container put where one of the same type was; anything else at the key is cleared. */
  function Boxed(v: Option<Cell>, same: bool, c: Container): Option<Cell> {
    Some(if same then CellOf(v).(container := Some(c)) else BoxCell(c))
  }

  /** The cell with its container replaced, or taken away when nothing is left in it. */
  function Reboxed(v: Option<Cell>, c: Option<Container>): Option<Cell> {
    Remaining(CellOf(v).(container := c))
  }

  function OnValue(op: Op, v: Option<Cell>): Effect
    requires OnOneKey(op) && !op.Expire?
  {
    match op
    case Get(_) => Effect(v, if CellOf(v).str.Some? then Data(CellOf(v).str.value) else NotFound)
    case IncrBy(_, delta) => Incremented(v, delta)
    case HSet(_, f, x) => Effect(Boxed(v, HoldsHash(v), HashVal(HashOf(v)[f := x])), Done)
    case HGet(_, f) => Effect(v, if f in HashOf(v) then Data(HashOf(v)[f]) else NotFound)
    case HDel(_, fields) =>
      if !HoldsHash(v) then Effect(v, Num(0))
      else
        var kept := HashOf(v) - Elements(fields);
        Effect(Reboxed(v, if kept == map[] then None else Some(HashVal(kept))), Num(|HashOf(v)| - |kept|))
    case HGetAll(_) => Effect(v, if HoldsHash(v) then Hash(HashOf(v)) else NotFound)
    case SAdd(_, ms) =>
      var all := SetOf(v) + Elements(ms);
      Effect(Boxed(v, HoldsSet(v), SetVal(all)), Num(|all| - |SetOf(v)|))
    case SRem(_, ms) =>
      if !HoldsSet(v) then Effect(v, Num(0))
      else
        var kept := SetOf(v) - Elements(ms);
        Effect(Reboxed(v, if kept == {} then None else Some(SetVal(kept))), Num(|SetOf(v)| - |kept|))
    case SMembers(_) => Effect(v, if HoldsSet(v) then Members(SetOf(v)) else NotFound)
    case SIsMember(_, m) => Effect(v, Flag(m in SetOf(v)))
    case LPush(_, vs) =>
      Effect(Boxed(v, HoldsList(v), ListVal(Reversed(vs) + ListOf(v))), Num(|Reversed(vs) + ListOf(v)|))
    case RPush(_, vs) =>
      Effect(Boxed(v, HoldsList(v), ListVal(ListOf(v) + vs)), Num(|ListOf(v) + vs|))
    case LPop(_) =>
      var l := ListOf(v);
      if l == [] then Effect(v, NotFound)
      else Effect(Reboxed(v, if |l| == 1 then None else Some(ListVal(l[1..]))), Data(l[0]))
    case RPop(_) =>
      var l := ListOf(v);
      if l == [] then Effect(v, NotFound)
      else Effect(Reboxed(v, if |l| == 1 then None else Some(ListVal(l[..|l| - 1]))), Data(l[|l| - 1]))
    case LRange(_, start, stop) =>
      Effect(v, if HoldsList(v) then Items(Range(ListOf(v), start, stop)) else NotFound)
  }

  /** The number a counter starts from: a key without a string counts as zero. */
  function NumberAt(v: Option<Cell>): Option<int> {
    var s := CellOf(v).str;
    if s.Some? then ParseInt(s.value) else Some(0)
  }

  /** Only the string is written: a container at the same key stays. */
  function Counted(v: Option<Cell>, n: int): Effect {
    Effect(Some(CellOf(v).(str := Some(FormatInt(n)))), Num(n))
  }

  /** The sum wraps around. */
  function Incremented(v: Option<Cell>, delta: int): Effect {
    match NumberAt(v)
    case None => Effect(v, Fault)
    case Some(n) => Counted(v, Wrap64(n + delta))
  }
}
