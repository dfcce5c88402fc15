/** What a sorted result looks like, cell by cell: smallest first, or largest first where the column says so. */
module SortMeaning {
  import opened Options
  import opened Records
  import opened QueryBuilder

  // ---------- The order of cells ----------

  /** a is a prefix of b, or has the smaller character where they first differ. */
  ghost predicate Alphabetic(a: string, b: string) {
    || (|a| <= |b| && b[..|a|] == a)
    || (exists k :: DifferAt(a, b, k) && a[k] < b[k])
  }

  predicate DifferAt(a: string, b: string, k: int) {
    0 <= k < |a| && k < |b| && a[..k] == b[..k] && a[k] != b[k]
  }

  /** The order of two cells of one column. Cells without an order are all alike. */
  ghost predicate NotAfter(a: Value, b: Value) {
    match (a, b)
    case (Int(x), Int(y)) => x <= y
    case (Int64(x), Int64(y)) => x <= y
    case (Float(x), Float(y)) => x <= y
    case (Str(x), Str(y)) => Alphabetic(x, y)
    case _ => true
  }

  predicate HasOrder(v: Value) {
    v.Int? || v.Int64? || v.Float? || v.Str?
  }

  /** The cells do not decide between two rows. */
  predicate Alike(a: Value, b: Value) {
    HasOrder(a) && HasOrder(b) ==> a == b
  }

  /** The cells of one column are all integers, all strings and so on, or none of them has an order. */
  ghost predicate OneType(a: Value, b: Value) {
    || (a.Int? && b.Int?) || (a.Int64? && b.Int64?) || (a.Float? && b.Float?) || (a.Str? && b.Str?)
    || (!HasOrder(a) && !HasOrder(b))
  }

  ghost predicate Typed(records: seq<Record>, order: seq<OrderBy>) {
    forall i, j, c :: 0 <= i < |records| && 0 <= j < |records| && 0 <= c < |order| ==>
      OneType(Get(records[i], order[c].field), Get(records[j], order[c].field))
  }

  ghost predicate AlikeBefore(a: Record, b: Record, order: seq<OrderBy>, n: nat)
    requires n <= |order|
  {
    forall c :: 0 <= c < n ==> Alike(Get(a, order[c].field), Get(b, order[c].field))
  }

  // ---------- The comparison by that order ----------

  lemma {:induction false} StringsByAlphabet(a: string, b: string)
    ensures CompareStrings(a, b) <= 0 <==> Alphabetic(a, b)
  {
    if a == [] {
      assert b[..0] == a;
    } else if b != [] && a[0] == b[0] {
      StringsByAlphabet(a[1..], b[1..]);
      AlphabeticTail(a, b);
    } else if b != [] {
      assert DifferAt(a, b, 0);
      forall k | DifferAt(a, b, k)
        ensures k == 0
      {
        SameHead(a, b, k);
      }
      SameHead(a, b, |a|);
    }
  }

  lemma SameHead(a: string, b: string, k: int)
    requires a != [] && b != []
    ensures 0 < k <= |a| && k <= |b| && a[..k] == b[..k] ==> a[0] == b[0]
  {
    if 0 < k <= |a| && k <= |b| {
      assert a[..k][0] == a[0] && b[..k][0] == b[0];
    }
  }

  lemma AlphabeticTail(a: string, b: string)
    requires a != [] && b != [] && a[0] == b[0]
    ensures Alphabetic(a, b) <==> Alphabetic(a[1..], b[1..])
  {
    if |a| <= |b| {
      assert b[..|a|] == [b[0]] + b[1..][..|a| - 1];
      assert a == [a[0]] + a[1..];
      assert b[1..][..|a| - 1] == b[..|a|][1..];
    }
    forall k | DifferAt(a, b, k)
      ensures k > 0 && DifferAt(a[1..], b[1..], k - 1)
    {
      assert a[1..][..k - 1] == a[..k][1..] && b[1..][..k - 1] == b[..k][1..];
    }
    forall k | DifferAt(a[1..], b[1..], k)
      ensures DifferAt(a, b, k + 1)
    {
      assert a[..k + 1] == [a[0]] + a[1..][..k] && b[..k + 1] == [b[0]] + b[1..][..k];
    }
    if exists k :: DifferAt(a, b, k) && a[k] < b[k] {
      var k :| DifferAt(a, b, k) && a[k] < b[k];
      assert DifferAt(a[1..], b[1..], k - 1) && a[1..][k - 1] < b[1..][k - 1];
    }
    if exists k :: DifferAt(a[1..], b[1..], k) && a[1..][k] < b[1..][k] {
      var k :| DifferAt(a[1..], b[1..], k) && a[1..][k] < b[1..][k];
      assert DifferAt(a, b, k + 1) && a[k + 1] < b[k + 1];
    }
  }

  lemma CellsByOrder(a: Value, b: Value)
    requires OneType(a, b)
    ensures Compare(a, b) <= 0 <==> NotAfter(a, b)
    ensures Compare(a, b) == 0 <==> Alike(a, b)
  {
    hide CompareStrings, Alphabetic;
    if a.Str? && b.Str? {
      StringsByAlphabet(a.s, b.s);
      StringsAntisymmetric(a.s, b.s);
    }
  }

  /** Rows that are alike in the first columns are compared by the next one. */
  lemma {:induction false} ComparedByColumn(a: Record, b: Record, order: seq<OrderBy>, n: nat)
    requires n < |order|
    requires forall c :: 0 <= c < |order| ==> OneType(Get(a, order[c].field), Get(b, order[c].field))
    requires AlikeBefore(a, b, order, n) && CompareRecords(a, b, order) <= 0
    ensures Directed(order[n], a, b) <= 0
  {
    CellsByOrder(Get(a, order[0].field), Get(b, order[0].field));
    if n > 0 {
      assert AlikeBefore(a, b, order[1..], n - 1);
      ComparedByColumn(a, b, order[1..], n - 1);
    }
  }

  lemma {:induction false} AlikeCompareEqual(a: Record, b: Record, order: seq<OrderBy>)
    requires forall c :: 0 <= c < |order| ==> OneType(Get(a, order[c].field), Get(b, order[c].field))
    requires AlikeBefore(a, b, order, |order|)
    ensures CompareRecords(a, b, order) == 0
  {
    if order != [] {
      CellsByOrder(Get(a, order[0].field), Get(b, order[0].field));
      assert AlikeBefore(a, b, order[1..], |order| - 1);
      AlikeCompareEqual(a, b, order[1..]);
    }
  }

  // ---------- The result ----------

  /** Row a may stand before row b: a column up to which they are alike does not decrease, or increase if descending. */
  ghost predicate InOrder(a: Record, b: Record, order: seq<OrderBy>) {
    forall n :: 0 <= n < |order| && AlikeBefore(a, b, order, n) ==> ColumnInOrder(a, b, order[n])
  }

  ghost predicate ColumnInOrder(a: Record, b: Record, o: OrderBy) {
    var x, y := Get(a, o.field), Get(b, o.field);
    if o.descending then NotAfter(y, x) else NotAfter(x, y)
  }

  /**
   * The sort returns the input rearranged, each column ascending or descending as asked among rows
   * that are alike in the columns before it, and rows alike in all columns as they came.
   */
  lemma OrderedByColumns(records: seq<Record>, order: seq<OrderBy>) returns (perm: seq<nat>)
    requires Typed(records, order)
    ensures var out := Ordered(records, order);
      && Rearranged(records, out, perm)
      && (forall i, j :: 0 <= i < j < |out| ==> InOrder(out[i], out[j], order))
      && (forall i, j :: 0 <= i < j < |out| && AlikeBefore(out[i], out[j], order, |order|) ==> perm[i] < perm[j])
  {
    hide Ordered, CompareRecords, Alike, OneType;
    TypedIsOneKind(records, order);
    perm := OrderedIsStableSort(records, order);
    var out := Ordered(records, order);
    forall i, j | 0 <= i < j < |out|
      ensures InOrder(out[i], out[j], order)
      ensures AlikeBefore(out[i], out[j], order, |order|) ==> perm[i] < perm[j]
    {
      SortedPair(out[i], out[j], order);
    }
  }

  lemma TypedIsOneKind(records: seq<Record>, order: seq<OrderBy>)
    requires Typed(records, order)
    ensures OneKindEach(records, order)
  {
  }

  lemma SortedPair(a: Record, b: Record, order: seq<OrderBy>)
    requires forall c :: 0 <= c < |order| ==> OneType(Get(a, order[c].field), Get(b, order[c].field))
    requires CompareRecords(a, b, order) <= 0
    ensures InOrder(a, b, order)
    ensures AlikeBefore(a, b, order, |order|) ==> CompareRecords(a, b, order) == 0
  {
    hide CompareRecords, Compare, NotAfter, AlikeBefore, OneType;
    forall n | 0 <= n < |order| && AlikeBefore(a, b, order, n)
      ensures ColumnInOrder(a, b, order[n])
    {
      var x, y := Get(a, order[n].field), Get(b, order[n].field);
      ComparedByColumn(a, b, order, n);
      CompareAntisymmetric(x, y);
      CellsByOrder(x, y);
      OneTypeSymmetric(x, y);
      CellsByOrder(y, x);
    }
    if AlikeBefore(a, b, order, |order|) {
      AlikeCompareEqual(a, b, order);
    }
  }

  lemma OneTypeSymmetric(a: Value, b: Value)
    ensures OneType(a, b) == OneType(b, a)
  {
  }

  /** Ages 25 and 30, ordered descending: the larger comes first. */
  lemma DescendingPutsLargerFirst(records: seq<Record>, order: seq<OrderBy>)
    requires |records| == 2 && Get(records[0], "age") == Int(25) && Get(records[1], "age") == Int(30)
    requires order == [OrderBy("age", true)]
    ensures Ordered(records, order) == [records[1], records[0]]
  {
    hide Ordered, Stable;
    var perm := OrderedByColumns(records, order);
    var out := Ordered(records, order);
    assert AlikeBefore(out[0], out[1], order, 0);
    assert ColumnInOrder(out[0], out[1], order[0]);
    assert perm[0] != perm[1];
    assert out == [out[0], out[1]];
  }
}
