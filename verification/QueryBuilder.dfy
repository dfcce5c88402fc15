/** Ordering and paging of query results (internal/db/query/builder.go). */
module QueryBuilder {
  import opened Options
  import opened Records

  datatype OrderBy = OrderBy(field: string, descending: bool)

  // ---------- Comparison ----------

  /** Three-way comparison of strings, character by character, a prefix coming first. */
  function CompareStrings(a: string, b: string): int {
    if a == [] then (if b == [] then 0 else -1)
    else if b == [] then 1
    else if a[0] < b[0] then -1
    else if b[0] < a[0] then 1
    else CompareStrings(a[1..], b[1..])
  }

  /** Values of different types, and of types without an order, compare as equal. */
  function Compare(a: Value, b: Value): int {
    match (a, b)
    case (Int(x), Int(y)) => if x < y then -1 else if x > y then 1 else 0
    case (Int64(x), Int64(y)) => if x < y then -1 else if x > y then 1 else 0
    case (Float(x), Float(y)) => if x < y then -1 else if x > y then 1 else 0
    case (Str(x), Str(y)) => CompareStrings(x, y)
    case _ => 0
  }

  function Directed(o: OrderBy, a: Record, b: Record): int {
    var c := Compare(Get(a, o.field), Get(b, o.field));
    if o.descending then -c else c
  }

  /** Lexicographic comparison by the whole ordering. */
  function CompareRecords(a: Record, b: Record, order: seq<OrderBy>): int {
    if order == [] then 0
    else if Directed(order[0], a, b) != 0 then Directed(order[0], a, b)
    else CompareRecords(a, b, order[1..])
  }

  /** The columns ordered by hold one comparable type each, or one that has no order at all. */
  datatype Kind = IntKind | Int64Kind | FloatKind | StrKind | Unordered

  function KindOf(v: Value): Kind {
    match v
    case Int(_) => IntKind
    case Int64(_) => Int64Kind
    case Float(_) => FloatKind
    case Str(_) => StrKind
    case _ => Unordered
  }

  ghost predicate OneKindEach(records: seq<Record>, order: seq<OrderBy>) {
    forall i, j, o :: 0 <= i < |records| && 0 <= j < |records| && 0 <= o < |order| ==>
      KindOf(Get(records[i], order[o].field)) == KindOf(Get(records[j], order[o].field))
  }

  ghost predicate SameKinds(a: Record, b: Record, order: seq<OrderBy>) {
    forall o :: 0 <= o < |order| ==> KindOf(Get(a, order[o].field)) == KindOf(Get(b, order[o].field))
  }

  lemma {:induction false} StringsAntisymmetric(a: string, b: string)
    ensures CompareStrings(a, b) == -CompareStrings(b, a)
    ensures CompareStrings(a, b) == 0 <==> a == b
    ensures -1 <= CompareStrings(a, b) <= 1
  {
    if a != [] && b != [] && a[0] == b[0] {
      StringsAntisymmetric(a[1..], b[1..]);
      assert a == [a[0]] + a[1..] && b == [b[0]] + b[1..];
    }
  }

  lemma {:induction false} StringsTransitive(a: string, b: string, c: string)
    requires CompareStrings(a, b) <= 0 && CompareStrings(b, c) <= 0
    ensures CompareStrings(a, c) <= 0
    ensures CompareStrings(a, b) < 0 || CompareStrings(b, c) < 0 ==> CompareStrings(a, c) < 0
  {
    if a != [] && b != [] && c != [] && a[0] == b[0] == c[0] {
      StringsTransitive(a[1..], b[1..], c[1..]);
    }
  }

  lemma CompareAntisymmetric(a: Value, b: Value)
    ensures Compare(a, b) == -Compare(b, a) && -1 <= Compare(a, b) <= 1
  {
    if a.Str? && b.Str? {
      StringsAntisymmetric(a.s, b.s);
    }
  }

  lemma CompareTransitive(a: Value, b: Value, c: Value)
    requires KindOf(a) == KindOf(b) == KindOf(c)
    requires Compare(a, b) <= 0 && Compare(b, c) <= 0
    ensures Compare(a, c) <= 0
    ensures Compare(a, b) < 0 || Compare(b, c) < 0 ==> Compare(a, c) < 0
  {
    if a.Str? && b.Str? && c.Str? {
      StringsTransitive(a.s, b.s, c.s);
    }
  }

  lemma {:induction false} RecordsAntisymmetric(a: Record, b: Record, order: seq<OrderBy>)
    ensures CompareRecords(a, b, order) == -CompareRecords(b, a, order)
  {
    if order != [] {
      CompareAntisymmetric(Get(a, order[0].field), Get(b, order[0].field));
      RecordsAntisymmetric(a, b, order[1..]);
    }
  }

  lemma DirectedTransitive(o: OrderBy, a: Record, b: Record, c: Record)
    requires KindOf(Get(a, o.field)) == KindOf(Get(b, o.field)) == KindOf(Get(c, o.field))
    requires Directed(o, a, b) <= 0 && Directed(o, b, c) <= 0
    ensures Directed(o, a, c) <= 0
    ensures Directed(o, a, b) < 0 || Directed(o, b, c) < 0 ==> Directed(o, a, c) < 0
  {
    var x, y, z := Get(a, o.field), Get(b, o.field), Get(c, o.field);
    CompareAntisymmetric(x, y);
    CompareAntisymmetric(y, z);
    CompareAntisymmetric(x, z);
    if o.descending {
      CompareTransitive(z, y, x);
    } else {
      CompareTransitive(x, y, z);
    }
  }

  lemma {:induction false} RecordsTransitive(a: Record, b: Record, c: Record, order: seq<OrderBy>)
    requires SameKinds(a, b, order) && SameKinds(b, c, order)
    requires CompareRecords(a, b, order) <= 0 && CompareRecords(b, c, order) <= 0
    ensures CompareRecords(a, c, order) <= 0
  {
    if order != [] {
      DirectedTransitive(order[0], a, b, c);
      if Directed(order[0], a, b) == 0 && Directed(order[0], b, c) == 0 {
        DirectedZero(order[0], a, b, c);
        RecordsTransitive(a, b, c, order[1..]);
      }
    }
  }

  lemma DirectedZero(o: OrderBy, a: Record, b: Record, c: Record)
    requires KindOf(Get(a, o.field)) == KindOf(Get(b, o.field)) == KindOf(Get(c, o.field))
    requires Directed(o, a, b) == 0 && Directed(o, b, c) == 0
    ensures Directed(o, a, c) == 0
  {
    var x, y, z := Get(a, o.field), Get(b, o.field), Get(c, o.field);
    CompareAntisymmetric(x, y);
    CompareAntisymmetric(y, z);
    CompareAntisymmetric(x, z);
    CompareTransitive(x, y, z);
    CompareTransitive(z, y, x);
  }

  // ---------- Sorting ----------

  /** The source's loop over the ordering: swap exactly when a belongs after b. */
  method ShouldSwap(a: Record, b: Record, order: seq<OrderBy>) returns (swap: bool)
    ensures swap == (CompareRecords(a, b, order) > 0)
  {
    for i := 0 to |order|
      invariant CompareRecords(a, b, order) == CompareRecords(a, b, order[i..])
    {
      var cmp := Compare(Get(a, order[i].field), Get(b, order[i].field));
      if cmp != 0 {
        return if order[i].descending then cmp < 0 else cmp > 0;
      }
      assert order[i..][1..] == order[i + 1..];
    }
    return false;
  }

  /** perm lists each input position once. */
  ghost predicate Permutation(perm: seq<nat>, n: nat) {
    && |perm| == n
    && (forall i :: 0 <= i < n ==> perm[i] < n)
    && (forall i, j :: 0 <= i < j < n ==> perm[i] != perm[j])
  }

  /** sorted is records rearranged by perm. */
  ghost predicate Rearranged(records: seq<Record>, sorted: seq<Record>, perm: seq<nat>) {
    && |sorted| == |records| && Permutation(perm, |records|)
    && forall i :: 0 <= i < |sorted| ==> sorted[i] == records[perm[i]]
  }

  /** Records that compare equal keep the order they came in. */
  ghost predicate Stable(sorted: seq<Record>, perm: seq<nat>, order: seq<OrderBy>)
    requires |sorted| == |perm|
  {
    forall i, j :: 0 <= i < j < |sorted| && CompareRecords(sorted[i], sorted[j], order) == 0 ==>
      perm[i] < perm[j]
  }

  ghost predicate Sorted(s: seq<Record>, order: seq<OrderBy>) {
    forall i, j :: 0 <= i < j < |s| ==> CompareRecords(s[i], s[j], order) <= 0
  }

  /** In a stable rearrangement sorted by the ordering, x can only stand before y if it precedes it. */
  ghost predicate Precedes(records: seq<Record>, x: nat, y: nat, order: seq<OrderBy>)
    requires x < |records| && y < |records|
  {
    var c := CompareRecords(records[x], records[y], order);
    c < 0 || (c == 0 && x < y)
  }

  /** The comparison, with ties broken by position, puts these records in one consistent order. */
  ghost predicate Consistent(records: seq<Record>, order: seq<OrderBy>) {
    forall x, y, z | 0 <= x < |records| && 0 <= y < |records| && 0 <= z < |records|
      && Precedes(records, x, y, order) && Precedes(records, y, z, order) :: Precedes(records, x, z, order)
  }

  lemma PrecedesAsymmetric(records: seq<Record>, x: nat, y: nat, order: seq<OrderBy>)
    requires x < |records| && y < |records|
    ensures !(Precedes(records, x, y, order) && Precedes(records, y, x, order))
    ensures x != y ==> Precedes(records, x, y, order) || Precedes(records, y, x, order)
  {
    RecordsAntisymmetric(records[x], records[y], order);
  }

  lemma EarlierPrecedes(records: seq<Record>, s: seq<Record>, p: seq<nat>, i: nat, j: nat, order: seq<OrderBy>)
    requires Rearranged(records, s, p) && Stable(s, p, order) && i < |s| && j < |s|
    ensures i < j ==> (CompareRecords(s[i], s[j], order) <= 0 <==> Precedes(records, p[i], p[j], order))
  {
  }

  /** Columns that hold one kind of value each are always consistent. */
  lemma OneKindIsConsistent(records: seq<Record>, order: seq<OrderBy>)
    requires OneKindEach(records, order)
    ensures Consistent(records, order)
  {
    forall x, y, z | 0 <= x < |records| && 0 <= y < |records| && 0 <= z < |records|
      && Precedes(records, x, y, order) && Precedes(records, y, z, order)
      ensures Precedes(records, x, z, order)
    {
      var a, b, c := records[x], records[y], records[z];
      RecordsTransitive(a, b, c, order);
      RecordsAntisymmetric(a, b, order);
      RecordsAntisymmetric(b, c, order);
      RecordsAntisymmetric(a, c, order);
      if CompareRecords(a, c, order) == 0 {
        RecordsTransitive(b, c, a, order);
        RecordsTransitive(c, a, b, order);
      }
    }
  }

  // ---------- The bubble sort as a function ----------

  function Swapped<T>(s: seq<T>, j: nat): (r: seq<T>)
    requires j + 1 < |s|
    ensures |r| == |s|
  {
    s[j := s[j + 1]][j + 1 := s[j]]
  }

  /** The list after the first j comparisons of a pass. */
  function Carried(s: seq<Record>, j: nat, order: seq<OrderBy>): (r: seq<Record>)
    requires j == 0 || j < |s|
    ensures |r| == |s|
  {
    if j == 0 then s
    else
      var t := Carried(s, j - 1, order);
      if CompareRecords(t[j - 1], t[j], order) > 0 then Swapped(t, j - 1) else t
  }

  /** The list after i passes, each one comparison shorter than the one before. */
  function Passes(s: seq<Record>, i: nat, order: seq<OrderBy>): (r: seq<Record>)
    requires i <= |s|
    ensures |r| == |s|
  {
    if i == 0 then s else Carried(Passes(s, i - 1, order), |s| - i, order)
  }

  function Ordered(s: seq<Record>, order: seq<OrderBy>): (r: seq<Record>)
    ensures |r| == |s|
  {
    if s == [] then s else Passes(s, |s| - 1, order)
  }

  /** All of s[..k] comes no later than all of s[k..], and s[k..] is sorted. */
  ghost predicate TailSettled(s: seq<Record>, k: nat, order: seq<OrderBy>) {
    forall i, j :: 0 <= i < j < |s| && k <= j ==> CompareRecords(s[i], s[j], order) <= 0
  }

  /** The state of the sort: a stable rearrangement whose part from k on is settled. */
  ghost predicate Settled(records: seq<Record>, s: seq<Record>, perm: seq<nat>, k: nat, order: seq<OrderBy>) {
    && Rearranged(records, s, perm) && Stable(s, perm, order)
    && (Consistent(records, order) ==> TailSettled(s, k, order))
  }

  /** No earlier record belongs after the one the pass is carrying. */
  ghost predicate Carries(records: seq<Record>, s: seq<Record>, j: nat, order: seq<OrderBy>)
    requires j < |s|
  {
    Consistent(records, order) ==> forall i :: 0 <= i < j ==> CompareRecords(s[i], s[j], order) <= 0
  }

  ghost function Origin(i: nat, j: nat): nat {
    if i == j then j + 1 else if i == j + 1 then j else i
  }

  /** Swapping two neighbours that belong the other way round keeps everything already settled. */
  lemma SwapKeeps(records: seq<Record>, s: seq<Record>, perm: seq<nat>, j: nat, k: nat, order: seq<OrderBy>)
    requires Settled(records, s, perm, k, order) && j + 1 < k <= |s|
    requires CompareRecords(s[j], s[j + 1], order) > 0
    ensures Settled(records, Swapped(s, j), Swapped(perm, j), k, order)
  {
    hide CompareRecords, Consistent;
    var t, p := Swapped(s, j), Swapped(perm, j);
    RecordsAntisymmetric(s[j], s[j + 1], order);
    forall a, b | 0 <= a < b < |t| && CompareRecords(t[a], t[b], order) == 0
      ensures p[a] < p[b]
    {
      assert t[a] == s[Origin(a, j)] && t[b] == s[Origin(b, j)];
      assert Origin(a, j) < Origin(b, j);
    }
    if Consistent(records, order) {
      forall a, b | 0 <= a < b < |t| && k <= b
        ensures CompareRecords(t[a], t[b], order) <= 0
      {
        assert t[a] == s[Origin(a, j)] && t[b] == s[b];
      }
    }
  }

  /** One comparison of the inner loop, whichever way it goes. */
  lemma CarryOn(records: seq<Record>, s: seq<Record>, perm: seq<nat>, j: nat, k: nat, order: seq<OrderBy>)
    requires Settled(records, s, perm, k, order) && j + 1 < k <= |s| && Carries(records, s, j, order)
    ensures if CompareRecords(s[j], s[j + 1], order) > 0
      then Settled(records, Swapped(s, j), Swapped(perm, j), k, order)
           && Carries(records, Swapped(s, j), j + 1, order)
      else Carries(records, s, j + 1, order)
  {
    hide Consistent;
    if Consistent(records, order) {
      BubbleUp(records, s, perm, j, order);
    }
    if CompareRecords(s[j], s[j + 1], order) > 0 {
      SwapKeeps(records, s, perm, j, k, order);
    }
  }

  lemma BubbleUp(records: seq<Record>, s: seq<Record>, perm: seq<nat>, j: nat, order: seq<OrderBy>)
    requires Rearranged(records, s, perm) && Stable(s, perm, order) && Consistent(records, order) && j + 1 < |s|
    requires forall a :: 0 <= a < j ==> CompareRecords(s[a], s[j], order) <= 0
    ensures CompareRecords(s[j], s[j + 1], order) <= 0 ==>
      forall a :: 0 <= a < j + 1 ==> CompareRecords(s[a], s[j + 1], order) <= 0
    ensures CompareRecords(s[j], s[j + 1], order) > 0 ==> CompareRecords(s[j + 1], s[j], order) <= 0
  {
    RecordsAntisymmetric(s[j], s[j + 1], order);
    if CompareRecords(s[j], s[j + 1], order) <= 0 {
      forall a | 0 <= a < j ensures CompareRecords(s[a], s[j + 1], order) <= 0 {
        EarlierPrecedes(records, s, perm, a, j, order);
        EarlierPrecedes(records, s, perm, j, j + 1, order);
        EarlierPrecedes(records, s, perm, a, j + 1, order);
      }
    }
  }

  lemma {:induction false} CarriedSettled(records: seq<Record>, s: seq<Record>, perm: seq<nat>, j: nat, k: nat,
                                          order: seq<OrderBy>)
    returns (p: seq<nat>)
    requires Settled(records, s, perm, k, order) && j < k <= |s|
    ensures Settled(records, Carried(s, j, order), p, k, order)
    ensures Carries(records, Carried(s, j, order), j, order)
  {
    hide Settled, Carries;
    if j == 0 {
      p := perm;
      CarriesFirst(records, s, order);
    } else {
      p := CarriedSettled(records, s, perm, j - 1, k, order);
      var t := Carried(s, j - 1, order);
      CarryOn(records, t, p, j - 1, k, order);
      if CompareRecords(t[j - 1], t[j], order) > 0 {
        SettledSizes(records, t, p, k, order);
        p := Swapped(p, j - 1);
      }
    }
  }

  lemma SettledSizes(records: seq<Record>, s: seq<Record>, perm: seq<nat>, k: nat, order: seq<OrderBy>)
    requires Settled(records, s, perm, k, order)
    ensures |s| == |perm| == |records|
  {
  }

  lemma CarriesFirst(records: seq<Record>, s: seq<Record>, order: seq<OrderBy>)
    requires s != []
    ensures Carries(records, s, 0, order)
  {
  }

  lemma PassSettles(records: seq<Record>, s: seq<Record>, perm: seq<nat>, k: nat, order: seq<OrderBy>)
    returns (p: seq<nat>)
    requires Settled(records, s, perm, k, order) && 0 < k <= |s|
    ensures Settled(records, Carried(s, k - 1, order), p, k - 1, order)
  {
    p := CarriedSettled(records, s, perm, k - 1, k, order);
  }

  lemma UntouchedSettled(records: seq<Record>, order: seq<OrderBy>) returns (p: seq<nat>)
    ensures Settled(records, records, p, |records|, order)
  {
    hide CompareRecords, Consistent;
    p := seq(|records|, n requires 0 <= n < |records| => n);
  }

  lemma {:induction false} PassesSettled(records: seq<Record>, i: nat, order: seq<OrderBy>) returns (p: seq<nat>)
    requires i <= |records|
    ensures Settled(records, Passes(records, i, order), p, |records| - i, order)
  {
    hide Settled, Carried;
    if i == 0 {
      p := UntouchedSettled(records, order);
    } else {
      p := PassesSettled(records, i - 1, order);
      p := PassSettles(records, Passes(records, i - 1, order), p, |records| - i + 1, order);
    }
  }

  /**
   * The result is the input rearranged, records that compare equal keep their order, and it is
   * sorted by the whole ordering exactly when the ordering is consistent on the input.
   */
  lemma OrderedIsStableSort(records: seq<Record>, order: seq<OrderBy>) returns (perm: seq<nat>)
    ensures Rearranged(records, Ordered(records, order), perm) && Stable(Ordered(records, order), perm, order)
    ensures Sorted(Ordered(records, order), order) <==> Consistent(records, order)
    ensures OneKindEach(records, order) ==> Sorted(Ordered(records, order), order)
  {
    if records == [] {
      perm := [];
    } else {
      perm := PassesSettled(records, |records| - 1, order);
      if Sorted(Ordered(records, order), order) {
        SortedIsConsistent(records, Ordered(records, order), perm, order);
      }
      if OneKindEach(records, order) {
        OneKindIsConsistent(records, order);
      }
    }
  }

  /** Any stable sorted rearrangement makes the ordering consistent: it is an order of positions. */
  lemma SortedIsConsistent(records: seq<Record>, s: seq<Record>, perm: seq<nat>, order: seq<OrderBy>)
    requires Rearranged(records, s, perm) && Stable(s, perm, order) && Sorted(s, order)
    ensures Consistent(records, order)
  {
    forall x, y, z | 0 <= x < |records| && 0 <= y < |records| && 0 <= z < |records|
      && Precedes(records, x, y, order) && Precedes(records, y, z, order)
      ensures Precedes(records, x, z, order)
    {
      var i := PlaceOf(records, s, perm, x, y, order);
      var j := PlaceOf(records, s, perm, y, z, order);
      var k := PermutationReaches(perm, |records|, z);
      assert j < k && i < j;
      EarlierPrecedes(records, s, perm, i, k, order);
    }
  }

  /** The place of x, which lies before every place of y. */
  lemma PlaceOf(records: seq<Record>, s: seq<Record>, perm: seq<nat>, x: nat, y: nat, order: seq<OrderBy>)
    returns (i: nat)
    requires Rearranged(records, s, perm) && Stable(s, perm, order) && Sorted(s, order)
    requires x < |records| && y < |records| && Precedes(records, x, y, order)
    ensures i < |s| && perm[i] == x && forall j :: 0 <= j < |s| && perm[j] == y ==> i < j
  {
    i := PermutationReaches(perm, |records|, x);
    forall j | 0 <= j < |s| && perm[j] == y
      ensures i < j
    {
      PrecedesAsymmetric(records, x, y, order);
      EarlierPrecedes(records, s, perm, j, i, order);
    }
  }

  /**
   * With mixed kinds in a column 2 and "x" compare equal, "x" and 1 too, and 2 still comes after 1:
   * no stable rearrangement of the three is sorted, and so the sort's result is not.
   */
  lemma MixedKindsStayUnsorted(records: seq<Record>, s: seq<Record>, perm: seq<nat>, order: seq<OrderBy>)
    requires |records| == 3 && order == [OrderBy("v", false)]
    requires Get(records[0], "v") == Int(2) && Get(records[1], "v") == Str("x") && Get(records[2], "v") == Int(1)
    requires Rearranged(records, s, perm) && Stable(s, perm, order)
    ensures !Sorted(s, order) && !Sorted(Ordered(records, order), order)
  {
    hide CompareRecords, Precedes, Sorted, Stable, Rearranged;
    var sorted := OrderedIsStableSort(records, order);
    ByOneColumn(records[0], records[1], order);
    ByOneColumn(records[1], records[2], order);
    ByOneColumn(records[0], records[2], order);
    NotConsistent(records, order);
    if Sorted(s, order) {
      SortedIsConsistent(records, s, perm, order);
    }
  }

  lemma ByOneColumn(a: Record, b: Record, order: seq<OrderBy>)
    requires order == [OrderBy("v", false)]
    ensures CompareRecords(a, b, order) == Compare(Get(a, "v"), Get(b, "v"))
  {
    assert order[1..] == [];
  }

  lemma NotConsistent(records: seq<Record>, order: seq<OrderBy>)
    requires |records| == 3
    requires CompareRecords(records[0], records[1], order) == 0 && CompareRecords(records[1], records[2], order) == 0
    requires CompareRecords(records[0], records[2], order) > 0
    ensures !Consistent(records, order)
  {
    hide CompareRecords;
    assert Precedes(records, 0, 1, order) && Precedes(records, 1, 2, order) && !Precedes(records, 0, 2, order);
  }

  // ---------- The bubble sort in place ----------

  /** Bubble sort on a copy. */
  method ApplySort(records: seq<Record>, order: seq<OrderBy>) returns (result: seq<Record>)
    ensures result == Ordered(records, order)
  {
    if |order| == 0 {
      UnorderedStays(records, if records == [] then 0 else |records| - 1);
      return records;
    }
    var sorted := new Record[|records|](i requires 0 <= i < |records| => records[i]);
    assert sorted[..] == records;
    SortInPlace(sorted, order);
    result := sorted[..];
  }

  method SortInPlace(a: array<Record>, order: seq<OrderBy>)
    modifies a
    ensures a[..] == Ordered(old(a[..]), order)
  {
    hide Carried, CompareRecords;
    ghost var was := a[..];
    var n := a.Length;
    var i := 0;
    while i < n - 1
      invariant 0 <= i <= n && (n > 0 ==> i < n)
      invariant a[..] == Passes(was, i, order)
    {
      BubblePass(a, n - i, order);
      OnePassMore(was, i, order);
      i := i + 1;
    }
  }

  lemma OnePassMore(s: seq<Record>, i: nat, order: seq<OrderBy>)
    requires i < |s|
    ensures Passes(s, i + 1, order) == Carried(Passes(s, i, order), |s| - i - 1, order)
  {
  }

  lemma {:induction false} UnorderedStays(s: seq<Record>, i: nat)
    requires i <= |s|
    ensures Passes(s, i, []) == s
  {
    if i > 0 {
      UnorderedStays(s, i - 1);
      UncarriedStays(s, |s| - i);
    }
  }

  lemma {:induction false} UncarriedStays(s: seq<Record>, j: nat)
    requires j == 0 || j < |s|
    ensures Carried(s, j, []) == s
  {
    if j > 0 {
      UncarriedStays(s, j - 1);
    }
  }

  method SwapNext(a: array<Record>, j: nat)
    requires j + 1 < a.Length
    modifies a
    ensures a[..] == Swapped(old(a[..]), j)
  {
    a[j], a[j + 1] := a[j + 1], a[j];
  }

  /** The inner loop: carries the latest of the first k records to place k - 1. */
  method BubblePass(a: array<Record>, k: nat, order: seq<OrderBy>)
    requires 1 <= k <= a.Length
    modifies a
    ensures a[..] == Carried(old(a[..]), k - 1, order)
  {
    var j := 0;
    hide CompareRecords, Swapped;
    while j < k - 1
      invariant 0 <= j <= k - 1
      invariant a[..] == Carried(old(a[..]), j, order)
    {
      var swap := ShouldSwap(a[j], a[j + 1], order);
      if swap {
        SwapNext(a, j);
      }
      j := j + 1;
    }
  }

  // ---------- The result is determined ----------

  lemma {:induction false} RangeSize(s: set<nat>, n: nat)
    requires forall x :: x in s ==> x < n
    ensures |s| <= n
  {
    if n == 0 {
      assert s == {};
    } else {
      RangeSize(s - {n - 1}, n - 1);
    }
  }

  lemma {:induction false} PrefixSize(perm: seq<nat>, k: nat)
    requires k <= |perm| && forall i, j :: 0 <= i < j < |perm| ==> perm[i] != perm[j]
    ensures |set i | 0 <= i < k :: perm[i]| == k
  {
    if k > 0 {
      PrefixSize(perm, k - 1);
      var before := set i | 0 <= i < k - 1 :: perm[i];
      assert (set i | 0 <= i < k :: perm[i]) == before + {perm[k - 1]};
      assert perm[k - 1] !in before;
    }
  }

  /** A permutation reaches every position. */
  lemma PermutationReaches(perm: seq<nat>, n: nat, v: nat) returns (i: nat)
    requires Permutation(perm, n) && v < n
    ensures i < n && perm[i] == v
  {
    if forall i :: 0 <= i < n ==> perm[i] != v {
      PrefixSize(perm, n);
      var hit := set i | 0 <= i < n :: perm[i];
      RangeSize(hit + {v}, n);
    }
    i :| 0 <= i < n && perm[i] == v;
  }

  lemma {:induction false} SamePrefix(records: seq<Record>, order: seq<OrderBy>, s: seq<Record>, p: seq<nat>,
                                      t: seq<Record>, q: seq<nat>, k: nat)
    requires Rearranged(records, s, p) && Stable(s, p, order) && Sorted(s, order)
    requires Rearranged(records, t, q) && Stable(t, q, order) && Sorted(t, order)
    requires k <= |records|
    ensures p[..k] == q[..k]
  {
    if k > 0 {
      SamePrefix(records, order, s, p, t, q, k - 1);
      var n := k - 1;
      var i := PermutationReaches(p, |records|, q[n]);
      var j := PermutationReaches(q, |records|, p[n]);
      PrefixAt(p, q, n, i);
      PrefixAt(q, p, n, j);
      if p[n] != q[n] {
        PrecedesAsymmetric(records, p[n], q[n], order);
        EarlierPrecedes(records, s, p, n, i, order);
        EarlierPrecedes(records, t, q, n, j, order);
      }
    }
  }

  lemma PrefixAt(p: seq<nat>, q: seq<nat>, n: nat, i: nat)
    requires n <= |p| && n <= |q| && p[..n] == q[..n]
    ensures i < n ==> p[i] == q[i]
  {
  }

  /** Permutation, stability and order leave exactly one possible result. */
  lemma StableSortUnique(records: seq<Record>, order: seq<OrderBy>, s: seq<Record>, p: seq<nat>,
                         t: seq<Record>, q: seq<nat>)
    requires Rearranged(records, s, p) && Stable(s, p, order) && Sorted(s, order)
    requires Rearranged(records, t, q) && Stable(t, q, order) && Sorted(t, order)
    ensures s == t && p == q
  {
    SamePrefix(records, order, s, p, t, q, |records|);
    assert p[..|records|] == p && q[..|records|] == q;
  }
}
