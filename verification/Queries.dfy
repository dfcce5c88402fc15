/** Queries over a table's rows (backends/memory/repository.go, FindMany): filter, sort, page, select. */
module Queries {
  import opened Options
  import opened Records
  import opened QueryBuilder
  import opened Filters

  datatype Query = Query(where: Filter, select: seq<string>, order: seq<OrderBy>,
                         limit: Option<int>, offset: Option<int>)

  const EVERYTHING := Query(NO_FILTER, [], [], None, None)

  datatype ResultPage = ResultPage(data: seq<Record>, total: nat, page: int, pageSize: int)

  // ---------- The parts ----------

  function Kept(records: seq<Record>, where: Filter): seq<Record> {
    if records == [] then []
    else
      var n := |records| - 1;
      Kept(records[..n], where) + if Holds(records[n], where) then [records[n]] else []
  }

  /** None stands for the slice-bounds panic of a negative offset or limit. */
  function ApplyPagination(records: seq<Record>, limit: Option<int>, offset: Option<int>): Option<seq<Record>> {
    var start := if offset.Some? then offset.value else 0;
    if start >= |records| then Some([])
    else
      var end := if limit.Some? && start + limit.value <= |records| then start + limit.value else |records|;
      if 0 <= start <= end then Some(records[start..end]) else None
  }

  function Projection(r: Record, select: seq<string>): Record {
    map f | f in r && f in select :: r[f]
  }

  /** No selection means all columns. */
  function Selected(records: seq<Record>, select: seq<string>): (s: seq<Record>)
    ensures |s| == |records|
    ensures forall i :: 0 <= i < |records| ==>
      s[i] == if select == [] then records[i] else Projection(records[i], select)
  {
    seq(|records|, i requires 0 <= i < |records| =>
      if select == [] then records[i] else Projection(records[i], select))
  }

  /** All rows of the result, before paging. */
  function Result(records: seq<Record>, q: Query): seq<Record> {
    Selected(Ordered(Kept(records, q.where), q.order), q.select)
  }

  function PageOf(records: seq<Record>, q: Query): Option<ResultPage> {
    var sorted := Ordered(Kept(records, q.where), q.order);
    match ApplyPagination(sorted, q.limit, q.offset)
    case None => None
    case Some(rows) =>
      var offset := if q.offset.Some? then q.offset.value else 0;
      var pageSize := if q.limit.Some? then q.limit.value else |sorted|;
      Some(ResultPage(Selected(rows, q.select), |sorted|, if pageSize > 0 then offset / pageSize + 1 else 1, pageSize))
  }

  /** The rows come in in the order the table yields them. */
  method FindRows(records: seq<Record>, q: Query) returns (r: Option<ResultPage>)
    ensures r == PageOf(records, q)
  {
    var kept := [];
    for i := 0 to |records|
      invariant kept == Kept(records[..i], q.where)
    {
      assert records[..i + 1][..i] == records[..i];
      var matches := MatchesFilters(records[i], q.where);
      if matches {
        kept := kept + [records[i]];
      }
    }
    assert records[..|records|] == records;
    var sorted := ApplySort(kept, q.order);
    var offset := 0;
    if q.offset.Some? {
      offset := q.offset.value;
    }
    var pageSize := |sorted|;
    if q.limit.Some? {
      pageSize := q.limit.value;
    }
    var rows := ApplyPagination(sorted, q.limit, q.offset);
    if rows.None? {
      return None;
    }
    var data := rows.value;
    if |q.select| > 0 {
      data := SelectColumns(data, q.select);
    }
    assert data == Selected(rows.value, q.select);
    var page := 1;
    if pageSize > 0 {
      page := offset / pageSize + 1;
    }
    r := Some(ResultPage(data, |sorted|, page, pageSize));
  }

  method SelectColumns(records: seq<Record>, select: seq<string>) returns (projected: seq<Record>)
    requires select != []
    ensures projected == Selected(records, select)
  {
    projected := [];
    for i := 0 to |records|
      invariant |projected| == i
      invariant forall j :: 0 <= j < i ==> projected[j] == Projection(records[j], select)
    {
      var row := map[];
      for j := 0 to |select|
        invariant row == Projection(records[i], select[..j])
      {
        assert select[..j + 1] == select[..j] + [select[j]];
        if select[j] in records[i] {
          row := row[select[j] := records[i][select[j]]];
        }
      }
      assert select[..|select|] == select;
      projected := projected + [row];
    }
  }

  // ---------- Pages ----------

  /** The query for the k-th page of the given size. */
  function PageQuery(q: Query, size: int, k: nat): Query {
    q.(limit := Some(size), offset := Some(k * size))
  }

  /** The first pages of a query, one request after the other on the same rows. */
  function Pages(records: seq<Record>, q: Query, size: int, count: nat): seq<Record> {
    if count == 0 then []
    else
      var page := PageOf(records, PageQuery(q, size, count - 1));
      Pages(records, q, size, count - 1) + if page.Some? then page.value.data else []
  }

  /**
   * The pages at offsets 0, L, 2L, ... concatenate to a prefix of the whole filtered, sorted and
   * selected result, and once there are enough of them to the result itself.
   */
  lemma {:induction false} PagesConcatenate(records: seq<Record>, q: Query, size: int, count: nat)
    requires size > 0
    ensures var all := Result(records, q);
      Pages(records, q, size, count) == all[..if count * size <= |all| then count * size else |all|]
  {
    hide ApplyPagination, Selected, Ordered, Kept;
    if count > 0 {
      var sorted := Ordered(Kept(records, q.where), q.order);
      PagesConcatenate(records, q, size, count - 1);
      var lo, hi := (count - 1) * size, count * size;
      assert hi == lo + size;
      assert lo >= 0;
      OnePage(sorted, q.select, size, lo);
    }
  }

  lemma OnePage(sorted: seq<Record>, select: seq<string>, size: int, lo: nat)
    requires size > 0
    ensures var rows := ApplyPagination(sorted, Some(size), Some(lo));
      var all := Selected(sorted, select);
      var upTo := if lo + size <= |all| then lo + size else |all|;
      rows.Some? && all[..if lo <= |all| then lo else |all|] + Selected(rows.value, select) == all[..upTo]
  {
  }

  /** What a page is a page of: exactly the matching rows, stably sorted. */
  lemma ResultMeans(records: seq<Record>, q: Query) returns (perm: seq<nat>)
    ensures var kept, sorted := Kept(records, q.where), Ordered(Kept(records, q.where), q.order);
      Rearranged(kept, sorted, perm) && Stable(sorted, perm, q.order)
      && (Sorted(sorted, q.order) <==> Consistent(kept, q.order))
    ensures multiset(Kept(records, q.where)) <= multiset(records)
    ensures forall r :: r in Kept(records, q.where) <==> r in records && Holds(r, q.where)
  {
    perm := OrderedIsStableSort(Kept(records, q.where), q.order);
    KeptMeans(records, q.where);
  }

  lemma {:induction false} KeptMeans(records: seq<Record>, where: Filter)
    ensures multiset(Kept(records, where)) <= multiset(records)
    ensures forall r :: r in Kept(records, where) <==> r in records && Holds(r, where)
  {
    if records != [] {
      hide Holds, Kept;
      var before, last := records[..|records| - 1], records[|records| - 1];
      KeptMeans(before, where);
      KeptWithLast(Kept(before, where), before, last, where);
      KeptLast(records, where);
      assert records == before + [last];
    }
  }

  lemma KeptLast(records: seq<Record>, where: Filter)
    requires records != []
    ensures var n := |records| - 1;
      Kept(records, where) == Kept(records[..n], where) + if Holds(records[n], where) then [records[n]] else []
  {
  }

  lemma KeptWithLast(kept: seq<Record>, before: seq<Record>, last: Record, where: Filter)
    requires multiset(kept) <= multiset(before)
    requires forall r :: r in kept <==> r in before && Holds(r, where)
    ensures var k := kept + if Holds(last, where) then [last] else [];
      && multiset(k) <= multiset(before + [last])
      && forall r :: r in k <==> r in before + [last] && Holds(r, where)
  {
    hide Holds;
    assert multiset(before + [last]) == multiset(before) + multiset{last};
    assert multiset(kept + [last]) == multiset(kept) + multiset{last};
  }

  // ---------- Ranges ----------

  lemma {:induction false} KeptSame(records: seq<Record>, f: Filter, g: Filter)
    requires forall r :: r in records ==> (Holds(r, f) <==> Holds(r, g))
    ensures Kept(records, f) == Kept(records, g)
  {
    hide Holds;
    if records != [] {
      KeptSame(records[..|records| - 1], f, g);
    }
  }

  /** Two filters keep the same rows exactly when they agree on each of them. */
  lemma KeptSameIff(records: seq<Record>, f: Filter, g: Filter)
    ensures Kept(records, f) == Kept(records, g)
       <==> forall r :: r in records ==> (Holds(r, f) <==> Holds(r, g))
  {
    hide Holds, Kept;
    if Kept(records, f) == Kept(records, g) {
      KeptMeans(records, f);
      KeptMeans(records, g);
    } else if forall r :: r in records ==> (Holds(r, f) <==> Holds(r, g)) {
      KeptSame(records, f, g);
    }
  }

  /**
   * A query whose range is written as one condition returns what the two conditions return exactly
   * when no row lies above the lower end and at or above the higher one.
   */
  lemma RangeQueriesAgreeIff(records: seq<Record>, field: string, low: Value, high: Value)
    requires low != Null && high != Null
    ensures Kept(records, RangeInOne(field, low, high)) == Kept(records, RangeInTwo(field, low, high))
       <==> forall r :: r in records && field in r && Compare(r[field], low) > 0 ==> Compare(r[field], high) < 0
  {
    hide Holds, Kept;
    KeptSameIff(records, RangeInOne(field, low, high), RangeInTwo(field, low, high));
    forall r | r in records
      ensures Holds(r, RangeInOne(field, low, high)) <==> field in r && Compare(r[field], low) > 0
      ensures Holds(r, RangeInTwo(field, low, high))
         <==> field in r && Compare(r[field], low) > 0 && Compare(r[field], high) < 0
    {
      RangeInOneCondition(r, field, low, high);
      RangeInTwoConditions(r, field, low, high);
    }
  }

  lemma KeptOfOne(row: Record, f: Filter)
    ensures Kept([row], f) == if Holds(row, f) then [row] else []
  {
    assert [row][..0] == [];
  }

  /** The range from 1 to 3 in one condition returns a row with 5. */
  lemma RangeReturnsFive(row: Record)
    requires Get(row, "v") == Int(5)
    ensures Kept([row], RangeInOne("v", Int(1), Int(3))) == [row]
    ensures Kept([row], RangeInTwo("v", Int(1), Int(3))) == []
  {
    hide Holds, Kept;
    RangeInOneCondition(row, "v", Int(1), Int(3));
    RangeInTwoConditions(row, "v", Int(1), Int(3));
    KeptOfOne(row, RangeInOne("v", Int(1), Int(3)));
    KeptOfOne(row, RangeInTwo("v", Int(1), Int(3)));
  }
}
