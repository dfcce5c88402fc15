/** Query conditions (internal/db/query/builder.go): nested AND and OR groups over tests on one field. */
module Filters {
  import opened Options
  import opened Records
  import opened QueryBuilder

  /** The tests of one condition; Null, [] and "" stand for a test that is not set. */
  datatype Operator = Operator(
    eq: Value, ne: Value, gt: Value, gte: Value, lt: Value, lte: Value,
    oneOf: seq<Value>, noneOf: seq<Value>, like: string, notLike: string,
    isNull: bool, isNotNull: bool, caseSensitive: Option<bool>)

  const NO_TEST := Operator(Null, Null, Null, Null, Null, Null, [], [], "", "", false, false, None)

  datatype Condition = Condition(field: string, value: Value, operator: Option<Operator>)

  datatype Filter = Filter(conditions: seq<Condition>, all: seq<Filter>, any: seq<Filter>)

  const NO_FILTER := Filter([], [], [])

  // ---------- One condition ----------

  function WithoutPercent(s: string): string {
    if s == [] then []
    else (if s[0] == '%' then [] else [s[0]]) + WithoutPercent(s[1..])
  }

  function Lower(s: string): (r: string)
    ensures |r| == |s|
  {
    seq(|s|, i requires 0 <= i < |s| => if 'A' <= s[i] <= 'Z' then s[i] - 'A' + 'a' else s[i])
  }

  predicate OccursAt(s: string, part: string, i: nat) {
    i + |part| <= |s| && s[i..i + |part|] == part
  }

  predicate Contains(s: string, part: string) {
    exists i | 0 <= i <= |s| :: OccursAt(s, part, i)
  }

  predicate LikeMatches(s: string, pattern: string, caseSensitive: Option<bool>) {
    var part := WithoutPercent(pattern);
    if caseSensitive == Some(false) then Contains(Lower(s), Lower(part)) else Contains(s, part)
  }

  /** The source looks at the tests in this order and decides by the first that is set. */
  predicate TestHolds(v: Value, exists_: bool, op: Operator) {
    if op.isNull then v == Null
    else if op.isNotNull then v != Null
    else if !exists_ then false
    else if op.eq != Null then v == op.eq
    else if op.ne != Null then v != op.ne
    else if op.gt != Null then Compare(v, op.gt) > 0
    else if op.gte != Null then Compare(v, op.gte) >= 0
    else if op.lt != Null then Compare(v, op.lt) < 0
    else if op.lte != Null then Compare(v, op.lte) <= 0
    else if op.oneOf != [] then v in op.oneOf
    else if op.noneOf != [] then v !in op.noneOf
    else if op.like != "" then v.Str? && LikeMatches(v.s, op.like, op.caseSensitive)
    else if op.notLike != "" then v.Str? ==> !LikeMatches(v.s, op.notLike, op.caseSensitive)
    else true
  }

  predicate ConditionHolds(r: Record, c: Condition) {
    match c.operator
    case None => Get(r, c.field) == c.value
    case Some(op) => TestHolds(Get(r, c.field), c.field in r, op)
  }

  // ---------- Groups ----------

  /** All AND groups, one OR group if there are any, and all conditions. */
  predicate Holds(r: Record, f: Filter) {
    && (forall i :: 0 <= i < |f.all| ==> Holds(r, f.all[i]))
    && (f.any == [] || exists i :: 0 <= i < |f.any| && Holds(r, f.any[i]))
    && (forall i :: 0 <= i < |f.conditions| ==> ConditionHolds(r, f.conditions[i]))
  }

  method MatchesFilters(r: Record, f: Filter) returns (matches: bool)
    ensures matches == Holds(r, f)
    decreases f
  {
    for i := 0 to |f.all|
      invariant forall j :: 0 <= j < i ==> Holds(r, f.all[j])
    {
      var ok := MatchesFilters(r, f.all[i]);
      if !ok {
        return false;
      }
    }
    if |f.any| > 0 {
      var hasMatch := false;
      var i := 0;
      while i < |f.any| && !hasMatch
        invariant 0 <= i <= |f.any|
        invariant hasMatch <==> exists j :: 0 <= j < i && Holds(r, f.any[j])
      {
        hasMatch := MatchesFilters(r, f.any[i]);
        i := i + 1;
      }
      if !hasMatch {
        return false;
      }
    }
    for i := 0 to |f.conditions|
      invariant forall j :: 0 <= j < i ==> ConditionHolds(r, f.conditions[j])
    {
      if !ConditionHolds(r, f.conditions[i]) {
        return false;
      }
    }
    return true;
  }

  // ---------- What the tests amount to ----------

  /** An open range of values, written as one condition with both tests. */
  function RangeInOne(field: string, low: Value, high: Value): Filter {
    Filter([Condition(field, Null, Some(NO_TEST.(gt := low, lt := high)))], [], [])
  }

  /** The same range with one condition for either end. */
  function RangeInTwo(field: string, low: Value, high: Value): Filter {
    Filter([Condition(field, Null, Some(NO_TEST.(gt := low))), Condition(field, Null, Some(NO_TEST.(lt := high)))],
           [], [])
  }

  /** A range written as one condition checks its lower end only. */
  lemma RangeInOneCondition(r: Record, field: string, low: Value, high: Value)
    requires low != Null && high != Null
    ensures Holds(r, RangeInOne(field, low, high)) <==> field in r && Compare(r[field], low) > 0
  {
    var f := RangeInOne(field, low, high);
    assert ConditionHolds(r, f.conditions[0]) <==> field in r && Compare(r[field], low) > 0;
  }

  /** Written as two conditions it is the range. */
  lemma RangeInTwoConditions(r: Record, field: string, low: Value, high: Value)
    requires low != Null && high != Null
    ensures Holds(r, RangeInTwo(field, low, high))
       <==> field in r && Compare(r[field], low) > 0 && Compare(r[field], high) < 0
  {
    var f := RangeInTwo(field, low, high);
    assert ConditionHolds(r, f.conditions[0]) <==> field in r && Compare(r[field], low) > 0;
    assert ConditionHolds(r, f.conditions[1]) <==> field in r && Compare(r[field], high) < 0;
  }

  /** A value of another kind is never outside an inclusive bound and never inside a strict one. */
  lemma OtherKindsMeetInclusiveBounds(r: Record, field: string, bound: Value)
    requires bound != Null && field in r && KindOf(r[field]) != KindOf(bound)
    ensures ConditionHolds(r, Condition(field, Null, Some(NO_TEST.(gte := bound))))
    ensures ConditionHolds(r, Condition(field, Null, Some(NO_TEST.(lte := bound))))
    ensures !ConditionHolds(r, Condition(field, Null, Some(NO_TEST.(gt := bound))))
    ensures !ConditionHolds(r, Condition(field, Null, Some(NO_TEST.(lt := bound))))
  {
  }

  /** The equality conditions of a record of wanted cells, in any order, mean all of them. */
  lemma WantedCells(r: Record, wanted: Record, fields: seq<string>, conditions: seq<Condition>)
    requires |conditions| == |fields| && (forall f :: f in fields <==> f in wanted)
    requires forall i :: 0 <= i < |fields| ==>
      fields[i] in wanted && conditions[i] == Condition(fields[i], wanted[fields[i]], None)
    ensures Holds(r, Filter(conditions, [], [])) <==> forall f :: f in wanted ==> Get(r, f) == wanted[f]
  {
    if Holds(r, Filter(conditions, [], [])) {
      forall f | f in wanted
        ensures Get(r, f) == wanted[f]
      {
        var i :| 0 <= i < |fields| && fields[i] == f;
        assert ConditionHolds(r, conditions[i]);
      }
    }
  }
}
