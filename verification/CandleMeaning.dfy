/** What a candle says about the ticks, in the ticks' own terms, and which candle the browser hands over. */
module CandleMeaning {
  import opened Options
  import opened Candles

  /** The length of an interval in milliseconds. */
  function Length(i: Interval): int {
    match i
    case M1 => 60000
    case M5 => 300000
    case M15 => 900000
    case H1 => 3600000
    case H4 => 14400000
    case D1 => 86400000
  }

  /** A bucket holds the times from its start, a multiple of the length, up to the next one. */
  lemma BucketSpans(ts: int, i: Interval)
    ensures var start := BrowserStart(ts, i);
      start <= ts < start + Length(i) && start % Length(i) == 0 && start % 1000 == 0
  {
    StartsBefore(ts, i);
    WholeLengths(ts / Millis(i), i);
    hide BrowserStart, Length;
    assert BrowserStart(ts, i) == ts / Millis(i) * Millis(i);
  }

  lemma StartsBefore(ts: int, i: Interval)
    ensures BrowserStart(ts, i) <= ts < BrowserStart(ts, i) + Length(i)
  {
  }

  lemma WholeLengths(q: int, i: Interval)
    ensures q * Millis(i) % Length(i) == 0 && q * Millis(i) % 1000 == 0
  {
    SameLength(i);
    Times(q, Millis(i));
    Times(q * Seconds(i), 1000);
    assert q * Millis(i) == q * Seconds(i) * 1000;
    hide Millis, Seconds, Length;
  }

  lemma Times(q: int, m: int)
    requires m > 0
    ensures q * m % m == 0
  {
    QuotientIs(q * m, m, q, 0);
    assert q * m == m * (q * m / m) + q * m % m;
  }

  lemma OneBucket(ts: int, start: int, i: Interval)
    requires start % Length(i) == 0 && start <= ts < start + Length(i)
    ensures BrowserStart(ts, i) == start
  {
  }

  /** Tick x belongs to the candle of e's series that starts at the given second. */
  predicate Within(x: Event, e: Event, time: int) {
    x.symbol == e.symbol && x.interval == e.interval
    && 1000 * time <= x.tick.ts < 1000 * time + Length(e.interval)
  }

  lemma WithinIsBucket(x: Event, e: Event)
    ensures BucketOf(x) == BucketOf(e) <==> Within(x, e, BucketOf(e).start / 1000)
  {
    hide BrowserStart, Length;
    var start := BucketOf(e).start;
    BucketSpans(e.tick.ts, e.interval);
    BucketSpans(x.tick.ts, x.interval);
    assert 1000 * (start / 1000) == start;
    if Within(x, e, start / 1000) {
      OneBucket(x.tick.ts, start, e.interval);
    }
  }

  // ---------- The prices of a bucket ----------

  lemma {:induction false} PriceOfTick(events: seq<Event>, b: Bucket, i: nat)
    requires i < |events| && BucketOf(events[i]) == b
    ensures events[i].tick.price in PricesIn(events, b)
  {
    hide BucketOf;
    if i < |events| - 1 {
      PriceOfTick(events[..|events| - 1], b, i);
    }
  }

  lemma {:induction false} TickOfPrice(events: seq<Event>, b: Bucket, price: real) returns (i: nat)
    requires price in PricesIn(events, b)
    ensures i < |events| && BucketOf(events[i]) == b && events[i].tick.price == price
  {
    hide BucketOf;
    i := |events| - 1;
    if BucketOf(events[i]) != b || events[i].tick.price != price {
      i := TickOfPrice(events[..|events| - 1], b, price);
    }
  }

  lemma {:induction false} FirstTick(events: seq<Event>, b: Bucket) returns (i: nat)
    requires PricesIn(events, b) != []
    ensures i < |events| && BucketOf(events[i]) == b && PricesIn(events, b)[0] == events[i].tick.price
    ensures forall j :: 0 <= j < i ==> BucketOf(events[j]) != b
  {
    hide BucketOf;
    var n := |events| - 1;
    if PricesIn(events[..n], b) != [] {
      i := FirstTick(events[..n], b);
    } else {
      i := n;
      NoTicks(events[..n], b);
    }
  }

  lemma NoTicks(events: seq<Event>, b: Bucket)
    requires PricesIn(events, b) == []
    ensures forall j :: 0 <= j < |events| ==> BucketOf(events[j]) != b
  {
    hide BucketOf, PricesIn;
    forall j | 0 <= j < |events|
      ensures BucketOf(events[j]) != b
    {
      if BucketOf(events[j]) == b {
        PriceOfTick(events, b, j);
      }
    }
  }

  // ---------- The candle both sides hold ----------

  /** c opens at the first tick within it and closes at the last; high and low are reached and bound them all. */
  ghost predicate Describes(c: Candle, events: seq<Event>)
    requires events != []
  {
    var e := events[|events| - 1];
    && Within(e, e, c.time) && c.close == e.tick.price
    && (exists i :: 0 <= i < |events| && Within(events[i], e, c.time) && c.open == events[i].tick.price
                    && forall j :: 0 <= j < i ==> !Within(events[j], e, c.time))
    && (exists i :: 0 <= i < |events| && Within(events[i], e, c.time) && c.high == events[i].tick.price)
    && (exists i :: 0 <= i < |events| && Within(events[i], e, c.time) && c.low == events[i].tick.price)
    && forall i :: 0 <= i < |events| && Within(events[i], e, c.time) ==> c.low <= events[i].tick.price <= c.high
  }

  /** After every tick, on both sides. */
  lemma CandleDescribesTicks(events: seq<Event>)
    requires InOrder(events) && events != []
    ensures var e := events[|events| - 1];
      && SeriesOf(e) in BackendRun(events)
      && Describes(BackendRun(events)[SeriesOf(e)], events)
      && Describes(BrowserStep(BrowserRun(events[..|events| - 1]), e).result.candle, events)
  {
    hide InOrder, BucketOf, BrowserStep, Describes, PricesIn;
    BothAreTheFold(events);
    FoldDescribes(events);
  }

  lemma FoldDescribes(events: seq<Event>)
    requires events != [] && PricesIn(events, BucketOf(events[|events| - 1])) != []
    ensures var b := BucketOf(events[|events| - 1]);
      Describes(CandleOf(PricesIn(events, b), b.start), events)
  {
    hide BucketOf, PricesIn, Within, Highest, Lowest;
    var n := |events| - 1;
    var e := events[n];
    var b := BucketOf(e);
    var prices := PricesIn(events, b);
    forall i | 0 <= i < |events|
      ensures Within(events[i], e, b.start / 1000) <==> BucketOf(events[i]) == b
    {
      WithinIsBucket(events[i], e);
    }
    ExtremesMean(prices);
    PricesGrow(events);
    var first := FirstTick(events, b);
    var high := TickOfPrice(events, b, Highest(prices));
    var low := TickOfPrice(events, b, Lowest(prices));
    forall i | 0 <= i < |events| && BucketOf(events[i]) == b
      ensures Lowest(prices) <= events[i].tick.price <= Highest(prices)
    {
      PriceOfTick(events, b, i);
    }
  }

  // ---------- The candle the browser hands over ----------

  function Next(b: Bucket): Bucket {
    Bucket(b.series, b.start + Length(b.series.interval))
  }

  /** A bucket that has seen prices keeps its candle until the next one has. */
  ghost predicate KeptUntilNext(events: seq<Event>, candles: map<Bucket, Candle>) {
    forall b :: PricesIn(events, b) != [] && PricesIn(events, Next(b)) == [] ==> b in candles
  }

  lemma {:induction false} BrowserKeepsUntilNext(events: seq<Event>)
    ensures KeptUntilNext(events, BrowserRun(events))
  {
    if events != [] {
      BrowserKeepsUntilNext(events[..|events| - 1]);
      StepKeepsUntilNext(events, BrowserRun(events[..|events| - 1]));
    }
  }

  lemma StepKeepsUntilNext(events: seq<Event>, candles: map<Bucket, Candle>)
    requires events != [] && KeptUntilNext(events[..|events| - 1], candles)
    ensures KeptUntilNext(events, BrowserStep(candles, events[|events| - 1]).candles)
  {
    hide BucketOf, PricesIn, Next, Updated, Started;
    var was, e := events[..|events| - 1], events[|events| - 1];
    var here := BucketOf(e);
    PricesGrow(events);
    forall b | PricesIn(events, b) != [] && PricesIn(events, Next(b)) == []
      ensures b in BrowserStep(candles, e).candles
    {
      if b != here {
        PricesElsewhere(events, b);
        PricesElsewhere(events, Next(b));
        NextIsNotHere(b, e);
      }
    }
  }

  lemma NextIsNotHere(b: Bucket, e: Event)
    requires Next(b) != BucketOf(e)
    ensures b != Bucket(BucketOf(e).series, BucketOf(e).start - Millis(e.interval))
  {
  }

  /**
   * The browser hands over a candle exactly when a tick opens a bucket right after one that has seen
   * ticks: the candle of that bucket, which it then forgets.
   */
  lemma PreviousIsTheOneBefore(events: seq<Event>)
    requires InOrder(events) && events != []
    ensures var was, e := events[..|events| - 1], events[|events| - 1];
      var before := Bucket(SeriesOf(e), BucketOf(e).start - Length(e.interval));
      var step := BrowserStep(BrowserRun(was), e);
      && (step.result.previous.Some? <==> PricesIn(was, BucketOf(e)) == [] && PricesIn(was, before) != [])
      && (step.result.previous.Some? ==>
            step.result.previous.value == CandleOf(PricesIn(was, before), before.start)
            && before !in step.candles)
  {
    hide InOrder, PricesIn, BrowserStart, CandleOf, Updated, Started, BrowserRun;
    var was, e := events[..|events| - 1], events[|events| - 1];
    var candles := BrowserRun(was);
    var before := Bucket(SeriesOf(e), BucketOf(e).start - Length(e.interval));
    InOrderPrefix(events);
    BrowserKeeps(was);
    BrowserKeepsUntilNext(was);
    BrowserCandle(events, candles);
    assert Next(before) == BucketOf(e);
    SameLength(e.interval);
    hide Millis, Length;
  }

  lemma SameLength(i: Interval)
    ensures Millis(i) == Length(i) > 0
  {
  }
}
