/**
 * Candle aggregation, written once in the backend (internal/jobs/price_publisher.go) and once in the
 * browser (utils/candles.ts): both are the same fold over the ticks of a bucket.
 */
module Candles {
  import opened Options

  datatype Interval = M1 | M5 | M15 | H1 | H4 | D1

  function Seconds(i: Interval): (r: int)
    ensures r > 0
  {
    match i
    case M1 => 60
    case M5 => 5 * 60
    case M15 => 15 * 60
    case H1 => 60 * 60
    case H4 => 4 * 60 * 60
    case D1 => 24 * 60 * 60
  }

  function Millis(i: Interval): (r: int)
    ensures r > 0
  {
    1000 * Seconds(i)
  }

  /** A price at a time in milliseconds. */
  datatype Tick = Tick(price: real, ts: int)

  /** Time is the start of the bucket, in seconds. */
  datatype Candle = Candle(time: int, open: real, high: real, low: real, close: real)

  // ---------- Alignment ----------

  /** The browser rounds down in milliseconds. */
  function BrowserStart(ts: int, i: Interval): int {
    ts / Millis(i) * Millis(i)
  }

  /** Go's integer division drops the fraction, whatever the sign. */
  function GoDiv(a: int, b: int): int
    requires b > 0
  {
    if a >= 0 then a / b else -(-a / b)
  }

  /** The backend rounds to whole seconds first, then towards zero. */
  function BackendTime(ts: int, i: Interval): int {
    GoDiv(ts / 1000, Seconds(i)) * Seconds(i)
  }

  /** Rounding down to seconds and then to the bucket is rounding down once. */
  lemma NestedFloor(ts: int, i: Interval)
    ensures ts / 1000 / Seconds(i) == ts / Millis(i)
  {
  }

  lemma QuotientIs(a: int, b: int, q: int, r: int)
    requires b > 0 && a == b * q + r && 0 <= r < b
    ensures a / b == q
  {
    var d := a / b - q;
    assert b * (a / b) == b * q + b * d;
    assert a == b * (a / b) + a % b;
    OutsideOne(b, d);
  }

  /** A non-zero multiple of b is at least b away from zero. */
  lemma OutsideOne(b: int, d: int)
    requires b > 0
    ensures d >= 1 ==> b * d >= b
    ensures d <= -1 ==> b * d <= -b
  {
  }

  /**
   * The two alignments name the same bucket for every time from 1970 on; before it, exactly when the
   * second is a bucket boundary.
   */
  lemma AlignmentsAgreeIff(ts: int, i: Interval)
    ensures BackendTime(ts, i) == BrowserStart(ts, i) / 1000 <==> ts >= 0 || ts / 1000 % Seconds(i) == 0
  {
    hide Seconds, Millis;
    NestedFloor(ts, i);
    BrowserSeconds(ts, i);
    GoDivRoundsDownIff(ts / 1000, Seconds(i));
  }

  /** A millisecond before 1970 the backend is already in the first bucket, the browser in the one before. */
  lemma AlignmentsDifferAtMinusOne(i: Interval)
    ensures BackendTime(-1, i) == 0 && BrowserStart(-1, i) / 1000 == -Seconds(i)
    ensures BackendTime(-1, i) != BrowserStart(-1, i) / 1000
  {
    QuotientIs(-1, 1000, -1, 999);
    QuotientIs(1, Seconds(i), 0, 1);
    QuotientIs(-1, Millis(i), -1, Millis(i) - 1);
    BrowserSeconds(-1, i);
  }

  lemma GoDivRoundsDownIff(u: int, b: int)
    requires b > 0
    ensures GoDiv(u, b) * b == u / b * b <==> u >= 0 || u % b == 0
  {
    var q, r := u / b, u % b;
    assert u == b * q + r;
    if u < 0 {
      assert b * -q == -(b * q);
      if r == 0 {
        QuotientIs(-u, b, -q, 0);
      } else {
        assert b * (-q - 1) == -(b * q) - b;
        QuotientIs(-u, b, -q - 1, b - r);
        assert (q + 1) * b == q * b + b;
      }
    }
  }

  /** A bucket starts on a whole second. */
  lemma BrowserSeconds(ts: int, i: Interval)
    ensures BrowserStart(ts, i) / 1000 == ts / Millis(i) * Seconds(i)
    ensures BrowserStart(ts, i) == 1000 * (BrowserStart(ts, i) / 1000)
  {
  }

  lemma BrowserStartMono(s: int, t: int, i: Interval)
    requires s <= t
    ensures BrowserStart(s, i) <= BrowserStart(t, i)
  {
  }

  lemma MulMono(a: int, b: int, m: int)
    requires a <= b && m > 0
    ensures a * m <= b * m
  {
  }

  // ---------- What a candle should be ----------

  function Highest(prices: seq<real>): real
    requires prices != []
  {
    var n := |prices| - 1;
    if n == 0 then prices[0]
    else if prices[n] > Highest(prices[..n]) then prices[n] else Highest(prices[..n])
  }

  function Lowest(prices: seq<real>): real
    requires prices != []
  {
    var n := |prices| - 1;
    if n == 0 then prices[0]
    else if prices[n] < Lowest(prices[..n]) then prices[n] else Lowest(prices[..n])
  }

  /** High and low are reached, and bound every price. */
  lemma {:induction false} ExtremesMean(prices: seq<real>)
    requires prices != []
    ensures Highest(prices) in prices && Lowest(prices) in prices
    ensures forall p :: p in prices ==> Lowest(prices) <= p <= Highest(prices)
  {
    var n := |prices| - 1;
    if n > 0 {
      ExtremesMean(prices[..n]);
      assert prices == prices[..n] + [prices[n]];
    }
  }

  /** The candle of the prices seen in one bucket. */
  function CandleOf(prices: seq<real>, start: int): Candle
    requires prices != []
  {
    Candle(start / 1000, prices[0], Highest(prices), Lowest(prices), prices[|prices| - 1])
  }

  function Started(time: int, price: real): Candle {
    Candle(time, price, price, price, price)
  }

  function Updated(c: Candle, price: real): Candle {
    c.(high := if price > c.high then price else c.high,
       low := if price < c.low then price else c.low,
       close := price)
  }

  lemma CandleGrows(prices: seq<real>, start: int, price: real)
    ensures prices == [] ==> CandleOf(prices + [price], start) == Started(start / 1000, price)
    ensures prices != [] ==> CandleOf(prices + [price], start) == Updated(CandleOf(prices, start), price)
  {
  }

  // ---------- Both aggregators ----------

  datatype Event = Event(symbol: string, interval: Interval, tick: Tick)

  datatype Series = Series(symbol: string, interval: Interval)
  datatype Bucket = Bucket(series: Series, start: int)

  function SeriesOf(e: Event): Series {
    Series(e.symbol, e.interval)
  }

  function BucketOf(e: Event): Bucket {
    Bucket(SeriesOf(e), BrowserStart(e.tick.ts, e.interval))
  }

  datatype Processed = Processed(candle: Candle, isNew: bool, previous: Option<Candle>)
  datatype BrowserNext = BrowserNext(candles: map<Bucket, Candle>, result: Processed)

  /** The browser keeps a candle per bucket and forgets the one just before a new one. */
  function BrowserStep(candles: map<Bucket, Candle>, e: Event): BrowserNext {
    var b := BucketOf(e);
    if b !in candles then
      var before := Bucket(b.series, b.start - Millis(e.interval));
      var previous := if before in candles then Some(candles[before]) else None;
      var c := Started(b.start / 1000, e.tick.price);
      BrowserNext((candles - {before})[b := c], Processed(c, true, previous))
    else
      var c := Updated(candles[b], e.tick.price);
      BrowserNext(candles[b := c], Processed(c, false, None))
  }

  /** The backend keeps one candle per series. */
  function BackendStep(current: map<Series, Candle>, e: Event): map<Series, Candle> {
    var s, time := SeriesOf(e), BackendTime(e.tick.ts, e.interval);
    if s !in current || current[s].time != time then current[s := Started(time, e.tick.price)]
    else current[s := Updated(current[s], e.tick.price)]
  }

  function BrowserRun(events: seq<Event>): map<Bucket, Candle> {
    if events == [] then map[]
    else BrowserStep(BrowserRun(events[..|events| - 1]), events[|events| - 1]).candles
  }

  function BackendRun(events: seq<Event>): map<Series, Candle> {
    if events == [] then map[]
    else BackendStep(BackendRun(events[..|events| - 1]), events[|events| - 1])
  }

  /** The prices seen so far in one bucket, in order. */
  function PricesIn(events: seq<Event>, b: Bucket): seq<real> {
    if events == [] then []
    else
      var n := |events| - 1;
      PricesIn(events[..n], b) + if BucketOf(events[n]) == b then [events[n].tick.price] else []
  }

  /** The bucket a series is in: that of its last tick. */
  function CurrentStart(events: seq<Event>, s: Series): Option<int> {
    if events == [] then None
    else
      var n := |events| - 1;
      if SeriesOf(events[n]) == s then Some(BucketOf(events[n]).start) else CurrentStart(events[..n], s)
  }

  /** Within each series, times are from 1970 on and do not go back. */
  predicate InOrder(events: seq<Event>) {
    && (forall j :: 0 <= j < |events| ==> events[j].tick.ts >= 0)
    && (forall j, k :: 0 <= j < k < |events| && SeriesOf(events[j]) == SeriesOf(events[k]) ==>
          events[j].tick.ts <= events[k].tick.ts)
  }

  lemma InOrderPrefix(events: seq<Event>)
    requires InOrder(events) && events != []
    ensures InOrder(events[..|events| - 1])
  {
  }

  lemma {:induction false} CurrentIsAnEvent(events: seq<Event>, s: Series) returns (k: nat)
    requires CurrentStart(events, s).Some?
    ensures k < |events| && SeriesOf(events[k]) == s && BucketOf(events[k]).start == CurrentStart(events, s).value
  {
    k := |events| - 1;
    if SeriesOf(events[k]) != s {
      k := CurrentIsAnEvent(events[..|events| - 1], s);
    }
  }

  /** The next tick of a series never falls before its current bucket. */
  lemma NextNotBefore(events: seq<Event>)
    requires InOrder(events) && events != []
    ensures var n := |events| - 1;
      var cur := CurrentStart(events[..n], SeriesOf(events[n]));
      cur.Some? ==> cur.value <= BucketOf(events[n]).start
  {
    var n := |events| - 1;
    var s := SeriesOf(events[n]);
    if CurrentStart(events[..n], s).Some? {
      var k := CurrentIsAnEvent(events[..n], s);
      assert SeriesOf(events[k]) == SeriesOf(events[n]);
      BrowserStartMono(events[k].tick.ts, events[n].tick.ts, events[n].interval);
    }
  }

  /** No bucket after the current one has seen a price. */
  lemma {:induction false} NothingAhead(events: seq<Event>, b: Bucket)
    requires InOrder(events)
    ensures PricesIn(events, b) != [] ==>
      CurrentStart(events, b.series).Some? && b.start <= CurrentStart(events, b.series).value
  {
    if events != [] {
      InOrderPrefix(events);
      NothingAhead(events[..|events| - 1], b);
      NextNotBefore(events);
    }
  }

  ghost predicate BrowserInv(events: seq<Event>, candles: map<Bucket, Candle>) {
    && (forall b :: b in candles ==>
          PricesIn(events, b) != [] && candles[b] == CandleOf(PricesIn(events, b), b.start))
    && (forall s :: CurrentStart(events, s).Some? ==> Bucket(s, CurrentStart(events, s).value) in candles)
  }

  ghost predicate BackendInv(events: seq<Event>, current: map<Series, Candle>) {
    forall s ::
      if CurrentStart(events, s).None? then s !in current
      else
        var b := Bucket(s, CurrentStart(events, s).value);
        s in current && PricesIn(events, b) != [] && current[s] == CandleOf(PricesIn(events, b), b.start)
  }

  lemma {:induction false} BrowserKeeps(events: seq<Event>)
    requires InOrder(events)
    ensures BrowserInv(events, BrowserRun(events))
  {
    if events != [] {
      var n := |events| - 1;
      var e := events[n];
      InOrderPrefix(events);
      BrowserKeeps(events[..n]);
      BrowserStepKeeps(events, BrowserRun(events[..n]));
    }
  }

  /** A bucket without a candle has seen no price: it lies ahead. */
  lemma BrowserStepKeeps(events: seq<Event>, candles: map<Bucket, Candle>)
    requires InOrder(events) && events != [] && BrowserInv(events[..|events| - 1], candles)
    ensures var e := events[|events| - 1];
      var r := BrowserStep(candles, e);
      BrowserInv(events, r.candles)
      && r.result.candle == CandleOf(PricesIn(events, BucketOf(e)), BucketOf(e).start)
  {
    hide BucketOf, InOrder, CandleOf, PricesIn, CurrentStart, Updated, Started;
    var was, e := events[..|events| - 1], events[|events| - 1];
    var b := BucketOf(e);
    BrowserCandle(events, candles);
    var next := BrowserStep(candles, e).candles;
    forall c | c in next && c != b
      ensures PricesIn(events, c) != [] && next[c] == CandleOf(PricesIn(events, c), c.start)
    {
      PricesElsewhere(events, c);
    }
    forall s | CurrentStart(events, s).Some?
      ensures Bucket(s, CurrentStart(events, s).value) in next
    {
      StartElsewhere(events, s);
      BucketHere(e);
    }
  }

  lemma PricesElsewhere(events: seq<Event>, c: Bucket)
    requires events != [] && c != BucketOf(events[|events| - 1])
    ensures PricesIn(events, c) == PricesIn(events[..|events| - 1], c)
  {
  }

  lemma StartElsewhere(events: seq<Event>, s: Series)
    requires events != []
    ensures var n := |events| - 1;
      CurrentStart(events, s)
      == if SeriesOf(events[n]) == s then Some(BucketOf(events[n]).start) else CurrentStart(events[..n], s)
  {
  }

  lemma BucketHere(e: Event)
    ensures BucketOf(e).series == SeriesOf(e)
  {
  }

  lemma BrowserCandle(events: seq<Event>, candles: map<Bucket, Candle>)
    requires InOrder(events) && events != [] && BrowserInv(events[..|events| - 1], candles)
    ensures var e := events[|events| - 1];
      var b := BucketOf(e);
      var r := BrowserStep(candles, e);
      PricesIn(events, b) != [] && b in r.candles
      && r.result.candle == r.candles[b] == CandleOf(PricesIn(events, b), b.start)
      && (r.result.isNew <==> PricesIn(events[..|events| - 1], b) == [])
  {
    hide BrowserInv, InOrder, BucketOf, PricesIn, CandleOf, Updated, Started;
    var n := |events| - 1;
    var b := BucketOf(events[n]);
    KnownBucket(events, candles);
    PricesGrow(events);
    CandleGrows(PricesIn(events[..n], b), b.start, events[n].tick.price);
  }

  /** The browser has a candle for the next tick's bucket exactly when that has seen a price. */
  lemma KnownBucket(events: seq<Event>, candles: map<Bucket, Candle>)
    requires InOrder(events) && events != [] && BrowserInv(events[..|events| - 1], candles)
    ensures var was, b := events[..|events| - 1], BucketOf(events[|events| - 1]);
      if PricesIn(was, b) == [] then b !in candles
      else b in candles && candles[b] == CandleOf(PricesIn(was, b), b.start)
  {
    hide BrowserStart, InOrder, CandleOf;
    var b := BucketOf(events[|events| - 1]);
    InOrderPrefix(events);
    NextNotBefore(events);
    NothingAhead(events[..|events| - 1], b);
  }

  lemma PricesGrow(events: seq<Event>)
    requires events != []
    ensures var n := |events| - 1;
      var b := BucketOf(events[n]);
      PricesIn(events, b) == PricesIn(events[..n], b) + [events[n].tick.price]
  {
  }

  lemma {:induction false} BackendKeeps(events: seq<Event>)
    requires InOrder(events)
    ensures BackendInv(events, BackendRun(events))
  {
    if events != [] {
      InOrderPrefix(events);
      BackendKeeps(events[..|events| - 1]);
      BackendStepKeeps(events, BackendRun(events[..|events| - 1]));
    }
  }

  lemma BackendStepKeeps(events: seq<Event>, current: map<Series, Candle>)
    requires InOrder(events) && events != [] && BackendInv(events[..|events| - 1], current)
    ensures BackendInv(events, BackendStep(current, events[|events| - 1]))
  {
    hide BrowserStart, Millis, Seconds, BackendTime, InOrder, CandleOf, Updated, Started;
    var n := |events| - 1;
    var was, e := events[..n], events[n];
    var s := SeriesOf(e);
    var next := BackendStep(current, e);
    BackendCandle(events, current);
    forall t: Series
      ensures
        if CurrentStart(events, t).None? then t !in next
        else
          var b := Bucket(t, CurrentStart(events, t).value);
          t in next && PricesIn(events, b) != [] && next[t] == CandleOf(PricesIn(events, b), b.start)
    {
      if t != s {
        assert CurrentStart(events, t) == CurrentStart(was, t);
        if CurrentStart(was, t).Some? {
          var b := Bucket(t, CurrentStart(was, t).value);
          assert PricesIn(events, b) == PricesIn(was, b);
        }
      }
    }
  }

  lemma BackendCandle(events: seq<Event>, current: map<Series, Candle>)
    requires InOrder(events) && events != [] && BackendInv(events[..|events| - 1], current)
    ensures var e := events[|events| - 1];
      var b := BucketOf(e);
      PricesIn(events, b) != []
      && BackendStep(current, e)[SeriesOf(e)] == CandleOf(PricesIn(events, b), b.start)
  {
    hide BrowserStart, Millis, Seconds, BackendTime, InOrder, CandleOf, Updated, Started;
    var n := |events| - 1;
    var was, e := events[..n], events[n];
    var b := BucketOf(e);
    InOrderPrefix(events);
    NextNotBefore(events);
    NothingAhead(was, b);
    BackendTimeOf(events);
    CandleGrows(PricesIn(was, b), b.start, e.tick.price);
    var cur := CurrentStart(was, b.series);
    if cur.Some? {
      var k := CurrentIsAnEvent(was, b.series);
      BrowserSeconds(was[k].tick.ts, e.interval);
      BrowserSeconds(e.tick.ts, e.interval);
      assert was[k].interval == e.interval;
      assert cur.value / 1000 == b.start / 1000 <==> cur.value == b.start;
      CandleTime(PricesIn(was, Bucket(b.series, cur.value)), cur.value);
    }
  }

  lemma BackendTimeOf(events: seq<Event>)
    requires InOrder(events) && events != []
    ensures var e := events[|events| - 1];
      BackendTime(e.tick.ts, e.interval) == BucketOf(e).start / 1000
  {
    var e := events[|events| - 1];
    AlignmentsAgreeIff(e.tick.ts, e.interval);
  }

  lemma CandleTime(prices: seq<real>, start: int)
    requires prices != []
    ensures CandleOf(prices, start).time == start / 1000
  {
  }

  /** After every tick both sides hold the same candle: the fold of that bucket's prices so far. */
  lemma BothAreTheFold(events: seq<Event>)
    requires InOrder(events) && events != []
    ensures var e := events[|events| - 1];
      var b := BucketOf(e);
      var browser := BrowserStep(BrowserRun(events[..|events| - 1]), e).result;
      PricesIn(events, b) != []
      && SeriesOf(e) in BackendRun(events)
      && BackendRun(events)[SeriesOf(e)] == browser.candle == CandleOf(PricesIn(events, b), b.start)
      && (browser.isNew <==> PricesIn(events[..|events| - 1], b) == [])
  {
    hide BrowserInv, BackendInv, InOrder, BucketOf, BrowserStep, CandleOf, PricesIn;
    var n := |events| - 1;
    InOrderPrefix(events);
    BrowserKeeps(events[..n]);
    BrowserCandle(events, BrowserRun(events[..n]));
    BackendKeeps(events[..n]);
    BackendCandle(events, BackendRun(events[..n]));
  }

  // ---------- As objects ----------

  class BrowserAggregator {
    var currentCandles: map<Bucket, Candle>

    constructor ()
      ensures currentCandles == BrowserRun([])
    {
      currentCandles := map[];
    }

    method ProcessTick(symbol: string, tick: Tick, interval: Interval) returns (r: Processed)
      modifies this
      ensures BrowserNext(currentCandles, r) == BrowserStep(old(currentCandles), Event(symbol, interval, tick))
    {
      var start := tick.ts / Millis(interval) * Millis(interval);
      var key := Bucket(Series(symbol, interval), start);
      if key !in currentCandles {
        var before := Bucket(key.series, start - Millis(interval));
        var previous := None;
        if before in currentCandles {
          previous := Some(currentCandles[before]);
          currentCandles := currentCandles - {before};
        }
        var candle := Candle(start / 1000, tick.price, tick.price, tick.price, tick.price);
        currentCandles := currentCandles[key := candle];
        assert currentCandles == (old(currentCandles) - {before})[key := candle];
        return Processed(candle, true, previous);
      }
      var candle := currentCandles[key];
      candle := candle.(high := if tick.price > candle.high then tick.price else candle.high);
      candle := candle.(low := if tick.price < candle.low then tick.price else candle.low);
      candle := candle.(close := tick.price);
      currentCandles := currentCandles[key := candle];
      r := Processed(candle, false, None);
    }
  }

  class BackendAggregator {
    const series: Series
    var currentCandle: Option<Candle>

    constructor (s: Series)
      ensures series == s && currentCandle == None
    {
      series, currentCandle := s, None;
    }

    /** This aggregator's candle, as one entry of the candles of all series. */
    ghost function Value(): map<Series, Candle>
      reads this
    {
      if currentCandle.Some? then map[series := currentCandle.value] else map[]
    }

    method AddTick(tick: Tick) returns (candle: Candle)
      modifies this
      ensures Value() == BackendStep(old(Value()), Event(series.symbol, series.interval, tick))
      ensures currentCandle == Some(candle)
    {
      var time := GoDiv(tick.ts / 1000, Seconds(series.interval)) * Seconds(series.interval);
      if currentCandle.None? || currentCandle.value.time != time {
        currentCandle := Some(Candle(time, tick.price, tick.price, tick.price, tick.price));
      } else {
        var c := currentCandle.value;
        if tick.price > c.high {
          c := c.(high := tick.price);
        }
        if tick.price < c.low {
          c := c.(low := tick.price);
        }
        currentCandle := Some(c.(close := tick.price));
      }
      candle := currentCandle.value;
    }
  }
}
