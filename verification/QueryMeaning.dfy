/** What the rows of a page are: which rows a test lets through, and which cells of which rows a page shows. */
module QueryMeaning {
  import opened Options
  import opened Records
  import opened QueryBuilder
  import opened SortMeaning
  import opened Filters
  import opened Queries

  // ---------- Tests ----------

  function Only(field: string, test: Operator): Filter {
    Filter([Condition(field, Null, Some(test))], [], [])
  }

  lemma HoldsOnly(r: Record, field: string, test: Operator)
    ensures Holds(r, Only(field, test)) <==> TestHolds(Get(r, field), field in r, test)
  {
    assert Only(field, test).conditions[0] == Condition(field, Null, Some(test));
  }

  /** Equality, inequality and membership, of rows that have the column. */
  lemma EqualityTests(records: seq<Record>, r: Record, field: string, v: Value, vs: seq<Value>)
    requires r in records && v != Null && vs != []
    ensures r in Kept(records, Only(field, NO_TEST.(eq := v))) <==> field in r && r[field] == v
    ensures r in Kept(records, Only(field, NO_TEST.(ne := v))) <==> field in r && r[field] != v
    ensures r in Kept(records, Only(field, NO_TEST.(oneOf := vs))) <==> field in r && r[field] in vs
    ensures r in Kept(records, Only(field, NO_TEST.(noneOf := vs))) <==> field in r && r[field] !in vs
  {
    KeptOnly(records, r, field, NO_TEST.(eq := v));
    KeptOnly(records, r, field, NO_TEST.(ne := v));
    KeptOnly(records, r, field, NO_TEST.(oneOf := vs));
    KeptOnly(records, r, field, NO_TEST.(noneOf := vs));
    hide Kept;
  }

  lemma KeptOnly(records: seq<Record>, r: Record, field: string, test: Operator)
    requires r in records
    ensures r in Kept(records, Only(field, test)) <==> TestHolds(Get(r, field), field in r, test)
  {
    hide Kept, TestHolds;
    KeptMeans(records, Only(field, test));
    HoldsOnly(r, field, test);
  }

  /** A null test looks at the value and does not ask whether the column is there. */
  lemma NullTests(records: seq<Record>, r: Record, field: string)
    requires r in records
    ensures r in Kept(records, Only(field, NO_TEST.(isNull := true))) <==> Get(r, field) == Null
    ensures r in Kept(records, Only(field, NO_TEST.(isNotNull := true))) <==> Get(r, field) != Null
    ensures forall v :: r in Kept(records, Filter([Condition(field, v, None)], [], [])) <==> Get(r, field) == v
  {
    KeptOnly(records, r, field, NO_TEST.(isNull := true));
    KeptOnly(records, r, field, NO_TEST.(isNotNull := true));
    forall v
      ensures r in Kept(records, Filter([Condition(field, v, None)], [], [])) <==> Get(r, field) == v
    {
      var f := Filter([Condition(field, v, None)], [], []);
      KeptMeans(records, f);
      assert f.conditions[0] == Condition(field, v, None);
    }
    hide Kept;
  }

  /** Bounds, by the order of numbers and of the alphabet. */
  lemma BoundTests(records: seq<Record>, r: Record, field: string, bound: Value)
    requires r in records && field in r && HasOrder(bound) && OneType(r[field], bound)
    ensures r in Kept(records, Only(field, NO_TEST.(gt := bound))) <==> !NotAfter(r[field], bound)
    ensures r in Kept(records, Only(field, NO_TEST.(gte := bound))) <==> NotAfter(bound, r[field])
    ensures r in Kept(records, Only(field, NO_TEST.(lt := bound))) <==> !NotAfter(bound, r[field])
    ensures r in Kept(records, Only(field, NO_TEST.(lte := bound))) <==> NotAfter(r[field], bound)
  {
    hide Kept, NotAfter, Compare;
    KeptOnly(records, r, field, NO_TEST.(gt := bound));
    KeptOnly(records, r, field, NO_TEST.(gte := bound));
    KeptOnly(records, r, field, NO_TEST.(lt := bound));
    KeptOnly(records, r, field, NO_TEST.(lte := bound));
    CompareAntisymmetric(r[field], bound);
    CellsByOrder(r[field], bound);
    CellsByOrder(bound, r[field]);
  }

  predicate Around(s: string, before: string, part: string, after: string) {
    s == before + part + after
  }

  /** s is something, then part, then something. */
  ghost predicate Includes(s: string, part: string) {
    exists before, after :: Around(s, before, part, after)
  }

  lemma ContainsIncludes(s: string, part: string)
    ensures Contains(s, part) <==> Includes(s, part)
  {
    if Contains(s, part) {
      var i :| 0 <= i <= |s| && OccursAt(s, part, i);
      assert s == s[..i] + s[i..i + |part|] + s[i + |part|..];
      assert Around(s, s[..i], part, s[i + |part|..]);
    }
    if Includes(s, part) {
      var before, after :| Around(s, before, part, after);
      assert s[|before|..|before| + |part|] == part;
      assert OccursAt(s, part, |before|);
    }
  }

  lemma {:induction false} PercentsGone(part: string)
    requires '%' !in part
    ensures WithoutPercent(part) == part && WithoutPercent(part + "%") == part
  {
    if part == [] {
      assert part + "%" == "%" && "%"[1..] == "";
    } else {
      PercentsGone(part[1..]);
      assert (part + "%")[1..] == part[1..] + "%";
    }
  }

  /** a and b are the same but for the case of ASCII letters. */
  predicate SameButCase(a: string, b: string) {
    |a| == |b| && forall i :: 0 <= i < |a| ==> a[i] == b[i] || SameLetter(a[i], b[i]) || SameLetter(b[i], a[i])
  }

  predicate SameLetter(upper: char, lower: char) {
    'A' <= upper <= 'Z' && lower as int == upper as int + 32
  }

  lemma LowerIgnoresCase(a: string, b: string)
    ensures Lower(a) == Lower(b) <==> SameButCase(a, b)
  {
    if Lower(a) == Lower(b) {
      forall i | 0 <= i < |a|
        ensures a[i] == b[i] || SameLetter(a[i], b[i]) || SameLetter(b[i], a[i])
      {
        assert Lower(a)[i] == Lower(b)[i];
      }
    }
  }

  /** Some stretch of s is part, up to case. */
  ghost predicate IncludesAnyCase(s: string, part: string) {
    exists stretch :: Includes(s, stretch) && SameButCase(stretch, part)
  }

  lemma LowerIncludes(s: string, part: string)
    ensures Includes(Lower(s), Lower(part)) <==> IncludesAnyCase(s, part)
  {
    hide Lower, Includes, SameButCase;
    if Includes(Lower(s), Lower(part)) {
      LowerFound(s, part);
    }
    if IncludesAnyCase(s, part) {
      var stretch :| Includes(s, stretch) && SameButCase(stretch, part);
      LowerIgnoresCase(stretch, part);
      LowerKeepsIncluded(s, stretch);
    }
  }

  lemma LowerFound(s: string, part: string)
    requires Includes(Lower(s), Lower(part))
    ensures IncludesAnyCase(s, part)
  {
    hide SameButCase, Lower;
    ContainsIncludes(Lower(s), Lower(part));
    var i :| 0 <= i <= |s| && OccursAt(Lower(s), Lower(part), i);
    var stretch := s[i..i + |part|];
    LowerSlice(s, i, i + |part|);
    LowerIgnoresCase(stretch, part);
    SliceIncluded(s, i, i + |part|);
  }

  lemma LowerSlice(s: string, i: nat, j: nat)
    requires i <= j <= |s|
    ensures Lower(s[i..j]) == Lower(s)[i..j]
  {
  }

  lemma SliceIncluded(s: string, i: nat, j: nat)
    requires i <= j <= |s|
    ensures Includes(s, s[i..j])
  {
    assert s == s[..i] + s[i..j] + s[j..];
    assert Around(s, s[..i], s[i..j], s[j..]);
  }

  lemma LowerKeepsIncluded(s: string, part: string)
    requires Includes(s, part)
    ensures Includes(Lower(s), Lower(part))
  {
    var before, after :| Around(s, before, part, after);
    assert Lower(s) == Lower(before) + Lower(part) + Lower(after);
    assert Around(Lower(s), Lower(before), Lower(part), Lower(after));
  }

  /** %part% finds the strings that include part, in any case if asked to; not like is everything else. */
  lemma LikeTests(records: seq<Record>, r: Record, field: string, part: string, anyCase: bool)
    requires r in records && field in r && '%' !in part
    ensures var found := r[field].Str?
                         && if anyCase then IncludesAnyCase(r[field].s, part) else Includes(r[field].s, part);
      var caseSensitive := if anyCase then Some(false) else None;
      && (r in Kept(records, Only(field, NO_TEST.(like := "%" + part + "%", caseSensitive := caseSensitive)))
          <==> found)
      && (r in Kept(records, Only(field, NO_TEST.(notLike := "%" + part + "%", caseSensitive := caseSensitive)))
          <==> !found)
  {
    hide Kept, Contains, Includes, IncludesAnyCase, Lower;
    var pattern := "%" + part + "%";
    var caseSensitive := if anyCase then Some(false) else None;
    KeptOnly(records, r, field, NO_TEST.(like := pattern, caseSensitive := caseSensitive));
    KeptOnly(records, r, field, NO_TEST.(notLike := pattern, caseSensitive := caseSensitive));
    PatternPart(part);
    if r[field].Str? {
      ContainsIncludes(r[field].s, part);
      ContainsIncludes(Lower(r[field].s), Lower(part));
      LowerIncludes(r[field].s, part);
    }
  }

  lemma PatternPart(part: string)
    requires '%' !in part
    ensures WithoutPercent("%" + part + "%") == part
  {
    PercentsGone(part);
    assert ("%" + part + "%")[1..] == part + "%";
  }

  /** The first test of a condition that is set, in the order the source asks, and no other. */
  function FirstSet(op: Operator): Operator {
    if op.isNull then NO_TEST.(isNull := true)
    else if op.isNotNull then NO_TEST.(isNotNull := true)
    else if op.eq != Null then NO_TEST.(eq := op.eq)
    else if op.ne != Null then NO_TEST.(ne := op.ne)
    else if op.gt != Null then NO_TEST.(gt := op.gt)
    else if op.gte != Null then NO_TEST.(gte := op.gte)
    else if op.lt != Null then NO_TEST.(lt := op.lt)
    else if op.lte != Null then NO_TEST.(lte := op.lte)
    else if op.oneOf != [] then NO_TEST.(oneOf := op.oneOf)
    else if op.noneOf != [] then NO_TEST.(noneOf := op.noneOf)
    else if op.like != "" then NO_TEST.(like := op.like, caseSensitive := op.caseSensitive)
    else NO_TEST.(notLike := op.notLike, caseSensitive := op.caseSensitive)
  }

  /** A condition with several tests set returns what its first one alone returns. */
  lemma OnlyTheFirstTestCounts(records: seq<Record>, field: string, op: Operator)
    ensures Kept(records, Only(field, op)) == Kept(records, Only(field, FirstSet(op)))
  {
    forall r | r in records
      ensures Holds(r, Only(field, op)) <==> Holds(r, Only(field, FirstSet(op)))
    {
      HoldsOnly(r, field, op);
      HoldsOnly(r, field, FirstSet(op));
      SameTest(Get(r, field), field in r, op);
    }
    hide Holds, Kept;
    KeptSame(records, Only(field, op), Only(field, FirstSet(op)));
  }

  lemma SameTest(v: Value, present: bool, op: Operator)
    ensures TestHolds(v, present, op) == TestHolds(v, present, FirstSet(op))
  {
    hide LikeMatches, Compare;
  }

  // ---------- Groups ----------

  /** An AND group returns the rows all its filters return, an OR group those any returns; parts intersect. */
  lemma GroupsMean(records: seq<Record>, r: Record, f: Filter)
    requires r in records
    ensures r in Kept(records, Filter([], f.all, [])) <==> forall g :: g in f.all ==> r in Kept(records, g)
    ensures r in Kept(records, Filter([], [], f.any))
       <==> f.any == [] || exists g :: g in f.any && r in Kept(records, g)
    ensures r in Kept(records, Filter(f.conditions, [], []))
       <==> forall c :: c in f.conditions ==> r in Kept(records, Filter([c], [], []))
    ensures r in Kept(records, f)
       <==> r in Kept(records, Filter(f.conditions, [], [])) && r in Kept(records, Filter([], f.all, []))
            && r in Kept(records, Filter([], [], f.any))
  {
    hide Kept;
    forall g
      ensures r in Kept(records, g) <==> Holds(r, g)
    {
      KeptMeans(records, g);
    }
    AllMeans(r, f.all);
    AnyMeans(r, f.any);
    ConditionsMean(r, f.conditions);
    PartsMean(r, f);
    hide Holds;
  }

  lemma AllMeans(r: Record, all: seq<Filter>)
    ensures Holds(r, Filter([], all, [])) <==> forall g :: g in all ==> Holds(r, g)
  {
    if Holds(r, Filter([], all, [])) {
      forall g | g in all
        ensures Holds(r, g)
      {
        var i :| 0 <= i < |all| && all[i] == g;
        assert Holds(r, all[i]);
      }
    } else {
      var i :| 0 <= i < |all| && !Holds(r, all[i]);
      assert all[i] in all;
    }
  }

  lemma AnyMeans(r: Record, any: seq<Filter>)
    ensures Holds(r, Filter([], [], any)) <==> any == [] || exists g :: g in any && Holds(r, g)
  {
    if Holds(r, Filter([], [], any)) && any != [] {
      var i :| 0 <= i < |any| && Holds(r, any[i]);
      assert any[i] in any;
    }
  }

  lemma ConditionsMean(r: Record, conditions: seq<Condition>)
    ensures Holds(r, Filter(conditions, [], [])) <==> forall c :: c in conditions ==> Holds(r, Filter([c], [], []))
  {
    forall c
      ensures Holds(r, Filter([c], [], [])) <==> ConditionHolds(r, c)
    {
      assert Filter([c], [], []).conditions[0] == c;
    }
  }

  lemma PartsMean(r: Record, f: Filter)
    ensures Holds(r, f)
       <==> Holds(r, Filter(f.conditions, [], [])) && Holds(r, Filter([], f.all, [])) && Holds(r, Filter([], [], f.any))
  {
  }

  // ---------- Pages ----------

  /** The positions of the rows that match. */
  function Matching(records: seq<Record>, where: Filter): set<nat> {
    set i: nat | i < |records| && Holds(records[i], where)
  }

  lemma {:induction false} KeptCount(records: seq<Record>, where: Filter)
    ensures |Kept(records, where)| == |Matching(records, where)|
  {
    if records != [] {
      hide Holds, Kept, Matching;
      var n := |records| - 1;
      KeptCount(records[..n], where);
      KeptLast(records, where);
      MatchingLast(records, where);
    }
  }

  lemma MatchingLast(records: seq<Record>, where: Filter)
    requires records != []
    ensures var n := |records| - 1;
      |Matching(records, where)| == |Matching(records[..n], where)| + if Holds(records[n], where) then 1 else 0
  {
    hide Holds;
    var n := |records| - 1;
    var before := Matching(records[..n], where);
    assert n !in before;
    assert Matching(records, where) == before + if Holds(records[n], where) then {n} else {};
  }

  /** A page is refused exactly when there are rows to slice and an offset or a limit is negative. */
  lemma PageRefusedIff(records: seq<Record>, q: Query)
    ensures PageOf(records, q).None?
       <==> (q.offset.Some? && q.offset.value < 0)
            || (q.limit.Some? && q.limit.value < 0
                && (if q.offset.Some? then q.offset.value else 0) < |Matching(records, q.where)|)
  {
    KeptCount(records, q.where);
    hide Kept, Ordered, Selected;
  }

  /** Row i of a page shows row offset + i of the sorted matches, in the selected columns only. */
  ghost predicate Shows(shown: Record, row: Record, select: seq<string>) {
    && (forall f :: f in shown <==> f in row && (select == [] || f in select))
    && (forall f :: f in shown ==> shown[f] == row[f])
  }

  /**
   * What a page holds: how many rows match in all, its number and size, and the rows from its offset
   * on, as many as the limit allows, cut to the selected columns.
   */
  lemma PageHolds(records: seq<Record>, q: Query)
    requires PageOf(records, q).Some?
    ensures var page := PageOf(records, q).value;
      var out := Ordered(Kept(records, q.where), q.order);
      var total := |Matching(records, q.where)|;
      var offset := if q.offset.Some? then q.offset.value else 0;
      && page.total == total == |out|
      && page.pageSize == (if q.limit.Some? then q.limit.value else total)
      && (if page.pageSize > 0 then (page.page - 1) * page.pageSize <= offset < page.page * page.pageSize
          else page.page == 1)
      && |page.data| == (if offset >= total then 0
                         else if q.limit.Some? && q.limit.value <= total - offset then q.limit.value
                         else total - offset)
      && offset >= 0
      && forall i :: 0 <= i < |page.data| ==> Shows(page.data[i], out[offset + i], q.select)
  {
    hide Kept, Ordered, Matching, Selected, Shows, ApplyPagination;
    PageRefusedIff(records, q);
    KeptCount(records, q.where);
    var out := Ordered(Kept(records, q.where), q.order);
    var page := PageOf(records, q).value;
    var offset := if q.offset.Some? then q.offset.value else 0;
    if page.pageSize > 0 {
      PageNumber(offset, page.pageSize);
    }
    PageRows(out, q.limit, q.offset, q.select);
  }

  lemma PageRows(out: seq<Record>, limit: Option<int>, offset: Option<int>, select: seq<string>)
    requires ApplyPagination(out, limit, offset).Some?
    ensures var rows := Selected(ApplyPagination(out, limit, offset).value, select);
      var start := if offset.Some? then offset.value else 0;
      && start >= 0
      && |rows| == (if start >= |out| then 0
                    else if limit.Some? && limit.value <= |out| - start then limit.value
                    else |out| - start)
      && forall i :: 0 <= i < |rows| ==> Shows(rows[i], out[start + i], select)
  {
  }

  lemma PageNumber(offset: nat, size: int)
    requires size > 0
    ensures offset / size * size <= offset < (offset / size + 1) * size
  {
    assert offset == offset / size * size + offset % size;
  }
}
