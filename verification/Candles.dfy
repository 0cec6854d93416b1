/** Candles built one trade at a time, and their roll-up into longer ones. */
module Candles {
  import opened SortedEntries

  /** Minutes of each candle length, shortest first; each divides the next. */
  const INTERVALS := [1, 5, 15, 30, 60, 240, 1440]

  datatype Tick = Tick(market: string, price: int, quantity: int, time: int)

  datatype CandleKey = CandleKey(market: string, interval: int, openTime: int)

  datatype Candle = Candle(closeTime: int, open: int, high: int, low: int, close: int, volume: int)

  function Millis(interval: int): int { interval * 60 * 1000 }

  function BucketTime(time: int, interval: int): int
    requires interval > 0
  {
    time / Millis(interval) * Millis(interval)
  }

  // ---- what a candle stands for

  /** The trades of a market from lo up to, but not including, hi, in order of arrival. */
  ghost function Window(ticks: seq<Tick>, market: string, lo: int, hi: int): seq<Tick> {
    if ticks == [] then []
    else
      var t := ticks[|ticks| - 1];
      Window(ticks[..|ticks| - 1], market, lo, hi) + if t.market == market && lo <= t.time < hi then [t] else []
  }

  function Max(a: int, b: int): int { if a >= b then a else b }

  function Min(a: int, b: int): int { if a <= b then a else b }

  ghost function High(ts: seq<Tick>): int
    requires ts != []
  {
    if |ts| == 1 then ts[0].price else Max(High(ts[..|ts| - 1]), ts[|ts| - 1].price)
  }

  ghost function Low(ts: seq<Tick>): int
    requires ts != []
  {
    if |ts| == 1 then ts[0].price else Min(Low(ts[..|ts| - 1]), ts[|ts| - 1].price)
  }

  ghost function Volume(ts: seq<Tick>): int {
    if ts == [] then 0 else Volume(ts[..|ts| - 1]) + ts[|ts| - 1].quantity
  }

  /** First, highest, lowest and last price and total quantity of some trades. */
  ghost function Summary(ts: seq<Tick>, closeTime: int): Candle
    requires ts != []
  {
    Candle(closeTime, ts[0].price, High(ts), Low(ts), ts[|ts| - 1].price, Volume(ts))
  }

  ghost function TradesOf(ticks: seq<Tick>, key: CandleKey): seq<Tick> {
    Window(ticks, key.market, key.openTime, key.openTime + Millis(key.interval))
  }

  ghost predicate IsKey(key: CandleKey) {
    key.interval in INTERVALS && key.openTime % Millis(key.interval) == 0
  }

  /** The stored candle of a key is the summary of its trades, and there is none without trades. */
  ghost predicate Right(candles: map<CandleKey, Candle>, ticks: seq<Tick>, key: CandleKey) {
    var ts := TradesOf(ticks, key);
    if IsKey(key) && ts != [] then key in candles && candles[key] == Summary(ts, key.openTime + Millis(key.interval) - 1)
    else key !in candles
  }

  ghost predicate Reflects(candles: map<CandleKey, Candle>, ticks: seq<Tick>) {
    forall key :: Right(candles, ticks, key)
  }

  lemma {:induction false} MillisPositive(interval: int)
    requires interval in INTERVALS
    ensures Millis(interval) >= 60000
  {
  }

  /** A trade falls into exactly one bucket of each length. */
  lemma {:induction false} BucketIff(time: int, ms: int, openTime: int)
    requires ms > 0
    ensures time / ms * ms == openTime <==> openTime % ms == 0 && openTime <= time < openTime + ms
  {
    if openTime % ms == 0 && openTime <= time < openTime + ms {
      var k := openTime / ms;
      assert openTime == k * ms;
      QuotientIs(time, ms, k);
    } else if time / ms * ms == openTime {
      MultipleMod(time / ms, ms);
    }
  }

  lemma {:induction false} QuotientIs(x: int, m: int, k: int)
    requires m > 0 && k * m <= x < (k + 1) * m
    ensures x / m == k
  {
    var q := x / m;
    if q > k {
      TimesKeepsOrder(k + 1, q, m);
    } else if q < k {
      TimesKeepsOrder(q + 1, k, m);
    }
  }

  lemma {:induction false} TimesKeepsOrder(a: int, b: int, m: int)
    requires m > 0 && a <= b
    ensures a * m <= b * m
  {
  }

  lemma {:induction false} MultipleMod(k: int, m: int)
    requires m > 0
    ensures (k * m) % m == 0
  {
    QuotientIs(k * m, m, k);
  }

  /** One more trade: its own buckets take it in, all others stay. */
  lemma {:induction false} OneMoreTrade(ticks: seq<Tick>, t: Tick, key: CandleKey)
    requires IsKey(key)
    ensures TradesOf(ticks + [t], key) == TradesOf(ticks, key)
              + if t.market == key.market && BucketTime(t.time, key.interval) == key.openTime then [t] else []
  {
    MillisPositive(key.interval);
    BucketIff(t.time, Millis(key.interval), key.openTime);
    assert (ticks + [t])[..|ticks|] == ticks;
  }

  // ---- what a candle tells, trade by trade

  /** The trade is one of the candle's: of its market, from its opening time on and before the next candle's. */
  predicate IsOf(t: Tick, key: CandleKey) {
    t.market == key.market && key.openTime <= t.time < key.openTime + key.interval * 60 * 1000
  }

  /** What changed hands in the candle's time. */
  ghost function Traded(ticks: seq<Tick>, key: CandleKey): int {
    if ticks == [] then 0 else (if IsOf(ticks[0], key) then ticks[0].quantity else 0) + Traded(ticks[1..], key)
  }

  /** Read off all trades so far: no trade of the candle is above its high or below its low, and each of the two was traded at;
      it opens with the first of them and closes with the last; its volume is all their quantities. */
  ghost predicate Tells(c: Candle, ticks: seq<Tick>, key: CandleKey) {
    && (forall i :: 0 <= i < |ticks| && IsOf(ticks[i], key) ==> c.low <= ticks[i].price <= c.high)
    && (exists i :: 0 <= i < |ticks| && IsOf(ticks[i], key) && ticks[i].price == c.high)
    && (exists i :: 0 <= i < |ticks| && IsOf(ticks[i], key) && ticks[i].price == c.low)
    && (exists i :: FirstOf(ticks, key, i) && ticks[i].price == c.open)
    && (exists i :: LastOf(ticks, key, i) && ticks[i].price == c.close)
    && c.volume == Traded(ticks, key) && c.closeTime == key.openTime + key.interval * 60 * 1000 - 1
  }

  ghost predicate FirstOf(ticks: seq<Tick>, key: CandleKey, i: int) {
    0 <= i < |ticks| && IsOf(ticks[i], key) && forall j :: 0 <= j < i ==> !IsOf(ticks[j], key)
  }

  ghost predicate LastOf(ticks: seq<Tick>, key: CandleKey, i: int) {
    0 <= i < |ticks| && IsOf(ticks[i], key) && forall j :: i < j < |ticks| ==> !IsOf(ticks[j], key)
  }

  /** There is a candle exactly where there was a trade. */
  ghost predicate AnyOf(ticks: seq<Tick>, key: CandleKey) {
    exists i :: 0 <= i < |ticks| && IsOf(ticks[i], key)
  }

  /** The highest and the lowest price of some trades. */
  lemma {:induction false} HighLowBound(ts: seq<Tick>)
    requires ts != []
    ensures forall i :: 0 <= i < |ts| ==> Low(ts) <= ts[i].price <= High(ts)
    ensures exists i :: 0 <= i < |ts| && ts[i].price == High(ts)
    ensures exists i :: 0 <= i < |ts| && ts[i].price == Low(ts)
  {
    var n := |ts| - 1;
    if n > 0 {
      HighLowBound(ts[..n]);
      var i :| 0 <= i < n && ts[..n][i].price == High(ts[..n]);
      var j :| 0 <= j < n && ts[..n][j].price == Low(ts[..n]);
      assert ts[i].price == High(ts[..n]) && ts[j].price == Low(ts[..n]) && ts[n].price == ts[|ts| - 1].price;
      forall k | 0 <= k < |ts| ensures Low(ts) <= ts[k].price <= High(ts) {
        assert k < n ==> ts[..n][k] == ts[k];
      }
    } else {
      assert ts[0].price == High(ts);
    }
  }

  lemma {:induction false} TradedAppend(ticks: seq<Tick>, t: Tick, key: CandleKey)
    ensures Traded(ticks + [t], key) == Traded(ticks, key) + if IsOf(t, key) then t.quantity else 0
  {
    if ticks == [] {
      assert ticks + [t] == [t] && [t][1..] == [];
    } else {
      assert (ticks + [t])[1..] == ticks[1..] + [t];
      TradedAppend(ticks[1..], t, key);
    }
  }

  /** The trades of a candle are those of all trades that are of it. */
  lemma {:induction false} WindowHas(ticks: seq<Tick>, key: CandleKey)
    ensures forall i :: 0 <= i < |ticks| && IsOf(ticks[i], key) ==> ticks[i] in TradesOf(ticks, key)
    ensures forall t :: t in TradesOf(ticks, key) ==> IsOf(t, key) && t in ticks
  {
    if ticks != [] {
      var before, t := ticks[..|ticks| - 1], ticks[|ticks| - 1];
      WindowGrows(before, t, key);
      assert ticks == before + [t];
      hide TradesOf, IsOf;
      WindowHas(before, key);
      forall i | 0 <= i < |ticks| && IsOf(ticks[i], key) ensures ticks[i] in TradesOf(ticks, key) {
        assert i < |before| ==> before[i] == ticks[i];
      }
    }
  }

  lemma {:induction false} WindowVolume(ticks: seq<Tick>, key: CandleKey)
    ensures Volume(TradesOf(ticks, key)) == Traded(ticks, key)
  {
    if ticks != [] {
      var before, t := ticks[..|ticks| - 1], ticks[|ticks| - 1];
      WindowGrows(before, t, key);
      assert ticks == before + [t];
      hide TradesOf, IsOf, Volume, Traded;
      WindowVolume(before, key);
      TradedAppend(before, t, key);
      VolumeAppend(TradesOf(before, key), t);
      assert TradesOf(before, key) + [] == TradesOf(before, key);
    }
  }

  lemma {:induction false} VolumeAppend(ts: seq<Tick>, t: Tick)
    ensures Volume(ts + [t]) == Volume(ts) + t.quantity
  {
    assert (ts + [t])[..|ts|] == ts;
  }

  lemma {:induction false} WindowGrows(before: seq<Tick>, t: Tick, key: CandleKey)
    ensures TradesOf(before + [t], key) == TradesOf(before, key) + if IsOf(t, key) then [t] else []
  {
    assert (before + [t])[..|before|] == before;
  }

  /** They start with the first of all trades that is of the candle, and end with the last. */
  lemma {:induction false} WindowEnds(ticks: seq<Tick>, key: CandleKey) returns (i: nat, j: nat)
    requires TradesOf(ticks, key) != []
    ensures FirstOf(ticks, key, i) && ticks[i] == TradesOf(ticks, key)[0]
    ensures LastOf(ticks, key, j) && ticks[j] == TradesOf(ticks, key)[|TradesOf(ticks, key)| - 1]
  {
    var n := |ticks| - 1;
    var before, t := ticks[..n], ticks[n];
    var ws := TradesOf(before, key);
    WindowGrows(before, t, key);
    assert ticks == before + [t];
    hide TradesOf, IsOf, FirstOf, LastOf;
    if ws == [] {
      FirstToCome(before, t, key);
      i, j := n, n;
    } else {
      i, j := WindowEnds(before, key);
      FirstStays(before, t, key, i);
      LastStays(before, t, key, j);
      j := if IsOf(t, key) then n else j;
    }
  }

  lemma {:induction false} FirstToCome(before: seq<Tick>, t: Tick, key: CandleKey)
    requires TradesOf(before, key) == [] && IsOf(t, key)
    ensures FirstOf(before + [t], key, |before|) && LastOf(before + [t], key, |before|)
  {
    hide TradesOf, IsOf;
    WindowHas(before, key);
    assert forall i :: 0 <= i < |before| ==> before[i] !in TradesOf(before, key);
  }

  lemma {:induction false} FirstStays(before: seq<Tick>, t: Tick, key: CandleKey, i: nat)
    requires FirstOf(before, key, i)
    ensures FirstOf(before + [t], key, i) && (before + [t])[i] == before[i]
  {
    hide IsOf;
  }

  lemma {:induction false} LastStays(before: seq<Tick>, t: Tick, key: CandleKey, j: nat)
    requires LastOf(before, key, j)
    ensures LastOf(before + [t], key, if IsOf(t, key) then |before| else j)
    ensures (before + [t])[j] == before[j]
  {
    hide IsOf;
  }

  lemma {:induction false} SummaryTells(ticks: seq<Tick>, key: CandleKey)
    requires TradesOf(ticks, key) != []
    ensures Tells(Summary(TradesOf(ticks, key), key.openTime + Millis(key.interval) - 1), ticks, key) && AnyOf(ticks, key)
  {
    hide TradesOf, High, Low, Volume, Traded, IsOf, FirstOf, LastOf;
    var ts := TradesOf(ticks, key);
    var c := Summary(ts, key.openTime + Millis(key.interval) - 1);
    HighLowBound(ts);
    WindowHas(ticks, key);
    WindowVolume(ticks, key);
    var first, last := WindowEnds(ticks, key);
    forall i | 0 <= i < |ticks| && IsOf(ticks[i], key) ensures c.low <= ticks[i].price <= c.high {
      var k :| 0 <= k < |ts| && ts[k] == ticks[i];
    }
    var h :| 0 <= h < |ts| && ts[h].price == c.high;
    var l :| 0 <= l < |ts| && ts[l].price == c.low;
    assert ts[h] in ts && ts[l] in ts;
  }

  /** So every stored candle tells of its trades, and there is one of every length for every time with a trade, and no other. */
  lemma {:induction false} StoredTells(candles: map<CandleKey, Candle>, ticks: seq<Tick>)
    requires Reflects(candles, ticks)
    ensures forall key :: key in candles <==> IsKey(key) && AnyOf(ticks, key)
    ensures forall key :: key in candles ==> Tells(candles[key], ticks, key)
  {
    hide TradesOf, Tells, Summary, Millis, IsKey;
    forall key ensures (key in candles <==> IsKey(key) && AnyOf(ticks, key)) && (key in candles ==> Tells(candles[key], ticks, key)) {
      assert Right(candles, ticks, key);
      if TradesOf(ticks, key) != [] {
        SummaryTells(ticks, key);
      } else {
        WindowHas(ticks, key);
      }
    }
  }

  lemma {:induction false} AllReflected(candles: map<CandleKey, Candle>, before: seq<Tick>, ticks: seq<Tick>)
    requires forall key: CandleKey :: Right(candles, if key.interval in INTERVALS[..|INTERVALS|] then ticks else before, key)
    ensures Reflects(candles, ticks)
  {
    hide TradesOf, Summary;
    assert INTERVALS[..|INTERVALS|] == INTERVALS;
    forall key ensures Right(candles, ticks, key) {
      assert Right(candles, if key.interval in INTERVALS[..|INTERVALS|] then ticks else before, key);
    }
  }

  class CandleStore {
    var candles: map<CandleKey, Candle>
    ghost var ticks: seq<Tick>

    ghost predicate Valid()
      reads this
    {
      Reflects(candles, ticks)
    }

    constructor ()
      ensures Valid() && candles == map[] && ticks == []
    {
      candles, ticks := map[], [];
    }

    /** Counts one trade in the candle of each length. */
    method UpdateFromTrade(t: Tick)
      requires Valid()
      modifies this
      ensures Valid() && ticks == old(ticks) + [t]
      ensures forall key :: key in candles <==> IsKey(key) && AnyOf(ticks, key)
      ensures forall key :: key in candles ==> Tells(candles[key], ticks, key)
    {
      ghost var before := ticks;
      assert forall key: CandleKey :: Right(candles, before, key);
      hide Tells, AnyOf, IsKey, Reflects, Right;
      ticks := ticks + [t];
      for i := 0 to |INTERVALS|
        invariant ticks == before + [t]
        invariant forall key: CandleKey :: Right(candles, if key.interval in INTERVALS[..i] then ticks else before, key)
      {
        UpdateOne(t, i, before);
      }
      AllReflected(candles, before, ticks);
      StoredTells(candles, ticks);
    }

    method UpdateOne(t: Tick, i: nat, ghost before: seq<Tick>)
      requires i < |INTERVALS| && ticks == before + [t]
      requires forall key: CandleKey :: Right(candles, if key.interval in INTERVALS[..i] then ticks else before, key)
      modifies this`candles
      ensures forall key: CandleKey :: Right(candles, if key.interval in INTERVALS[..i + 1] then ticks else before, key)
    {
      var interval := INTERVALS[i];
      var openTime := BucketTime(t.time, interval);
      var closeTime := openTime + interval * 60 * 1000 - 1;
      var key := CandleKey(t.market, interval, openTime);
      ghost var was := candles;
      BucketIff(t.time, Millis(interval), openTime);
      IntervalsDiffer(i);
      assert Right(was, before, key) && IsKey(key);
      hide Right, BucketTime;
      if key !in candles {
        candles := candles[key := Candle(closeTime, t.price, t.price, t.price, t.price, t.quantity)];
      } else {
        var c := candles[key];
        candles := candles[key := c.(high := Max(c.high, t.price), low := Min(c.low, t.price), close := t.price,
                                     volume := c.volume + t.quantity)];
      }
      TakesIn(was, candles, before, t, key);
      AllRight(was, candles, before, t, key, i);
    }

    static lemma {:induction false} AllRight(was: map<CandleKey, Candle>, now: map<CandleKey, Candle>, ticks: seq<Tick>, t: Tick, key: CandleKey, i: nat)
      requires i < |INTERVALS| && key == CandleKey(t.market, INTERVALS[i], BucketTime(t.time, INTERVALS[i]))
      requires forall k: CandleKey :: Right(was, if k.interval in INTERVALS[..i] then ticks + [t] else ticks, k)
      requires Right(now, ticks + [t], key) && key in now && now == was[key := now[key]]
      ensures forall k: CandleKey :: Right(now, if k.interval in INTERVALS[..i + 1] then ticks + [t] else ticks, k)
    {
      hide Right, BucketTime;
      forall k: CandleKey ensures Right(now, if k.interval in INTERVALS[..i + 1] then ticks + [t] else ticks, k) {
        if k == key {
          IntervalsDiffer(i);
        } else {
          StaysRight(was, now, ticks, t, k, i);
        }
      }
    }

    static lemma {:induction false} IntervalsDiffer(i: nat)
      requires i < |INTERVALS|
      ensures INTERVALS[i] !in INTERVALS[..i] && INTERVALS[i] in INTERVALS[..i + 1] && INTERVALS[i] in INTERVALS
    {
      assert INTERVALS[..i + 1][i] == INTERVALS[i];
    }

    static lemma {:induction false} TakesIn(was: map<CandleKey, Candle>, now: map<CandleKey, Candle>, ticks: seq<Tick>, t: Tick, key: CandleKey)
      requires IsKey(key) && key.market == t.market && BucketTime(t.time, key.interval) == key.openTime
      requires Right(was, ticks, key) && key in now
      requires key !in was ==> now[key] == Candle(key.openTime + Millis(key.interval) - 1, t.price, t.price, t.price, t.price, t.quantity)
      requires key in was ==> now[key] == was[key].(high := Max(was[key].high, t.price), low := Min(was[key].low, t.price),
                                                    close := t.price, volume := was[key].volume + t.quantity)
      ensures Right(now, ticks + [t], key)
    {
      OneMoreTrade(ticks, t, key);
      var ts := TradesOf(ticks, key);
      assert (ts + [t])[..|ts|] == ts;
    }

    static lemma {:induction false} StaysRight(was: map<CandleKey, Candle>, now: map<CandleKey, Candle>, ticks: seq<Tick>, t: Tick, k: CandleKey, i: nat)
      requires i < |INTERVALS| && k != CandleKey(t.market, INTERVALS[i], BucketTime(t.time, INTERVALS[i]))
      requires k in was <==> k in now
      requires k in was ==> now[k] == was[k]
      requires Right(was, if k.interval in INTERVALS[..i] then ticks + [t] else ticks, k)
      ensures Right(now, if k.interval in INTERVALS[..i + 1] then ticks + [t] else ticks, k)
    {
      assert INTERVALS[..i + 1] == INTERVALS[..i] + [INTERVALS[i]];
      if k.interval == INTERVALS[i] && IsKey(k) {
        OneMoreTrade(ticks, t, k);
        assert k == CandleKey(k.market, k.interval, k.openTime);
        assert TradesOf(ticks, k) + [] == TradesOf(ticks, k);
      }
      hide TradesOf, Summary;
    }
  }

  // ---- roll-up

  ghost predicate InOrder(ticks: seq<Tick>) {
    forall i, j :: 0 <= i < j < |ticks| ==> ticks[i].time <= ticks[j].time
  }

  /** In order of time a window is one half after the other. */
  lemma {:induction false} WindowSplits(ticks: seq<Tick>, market: string, lo: int, mid: int, hi: int)
    requires InOrder(ticks) && lo <= mid <= hi
    ensures Window(ticks, market, lo, hi) == Window(ticks, market, lo, mid) + Window(ticks, market, mid, hi)
  {
    if ticks != [] {
      var before, t := ticks[..|ticks| - 1], ticks[|ticks| - 1];
      WindowSplits(before, market, lo, mid, hi);
      if t.time < mid {
        WindowEmpty(before, market, mid, hi);
      }
    }
  }

  lemma {:induction false} WindowEmpty(ticks: seq<Tick>, market: string, lo: int, hi: int)
    requires forall i :: 0 <= i < |ticks| ==> ticks[i].time <= lo - 1
    ensures Window(ticks, market, lo, hi) == []
  {
    if ticks != [] {
      WindowEmpty(ticks[..|ticks| - 1], market, lo, hi);
    }
  }

  /** The roll-up of two neighbouring candles, either of which may be missing. */
  ghost function Merge(a: Option<Candle>, b: Option<Candle>, closeTime: int): Option<Candle> {
    match (a, b)
    case (None, None) => None
    case (Some(c), None) => Some(c.(closeTime := closeTime))
    case (None, Some(d)) => Some(d.(closeTime := closeTime))
    case (Some(c), Some(d)) => Some(Candle(closeTime, c.open, Max(c.high, d.high), Min(c.low, d.low), d.close, c.volume + d.volume))
  }

  ghost function MaybeSummary(ts: seq<Tick>, closeTime: int): Option<Candle> {
    if ts == [] then None else Some(Summary(ts, closeTime))
  }

  lemma {:induction false} HighLowVolume(a: seq<Tick>, b: seq<Tick>)
    requires a != [] && b != []
    ensures High(a + b) == Max(High(a), High(b)) && Low(a + b) == Min(Low(a), Low(b)) && Volume(a + b) == Volume(a) + Volume(b)
    decreases |b|
  {
    var ab, n := a + b, |b| - 1;
    assert ab[..|ab| - 1] == a + b[..n] && ab[|ab| - 1] == b[n];
    if n == 0 {
      assert a + b[..n] == a && Volume(b) == Volume([]) + b[0].quantity;
    } else {
      HighLowVolume(a, b[..n]);
    }
  }

  lemma {:induction false} SummaryMerges(a: seq<Tick>, b: seq<Tick>, x: int, y: int, closeTime: int)
    ensures MaybeSummary(a + b, closeTime) == Merge(MaybeSummary(a, x), MaybeSummary(b, y), closeTime)
  {
    if a == [] {
      assert a + b == b;
    } else if b == [] {
      assert a + b == a;
    } else {
      HighLowVolume(a, b);
    }
    hide High, Low, Volume;
  }

  ghost function Stored(candles: map<CandleKey, Candle>, key: CandleKey): Option<Candle> {
    if key in candles then Some(candles[key]) else None
  }

  /** The roll-up of the first n candles of one length from a time on. */
  ghost function RollUp(candles: map<CandleKey, Candle>, market: string, interval: int, from: int, n: nat): Option<Candle> {
    if n == 0 then None
    else
      var at := from + (n - 1) * Millis(interval);
      Merge(RollUp(candles, market, interval, from, n - 1), Stored(candles, CandleKey(market, interval, at)),
            at + Millis(interval) - 1)
  }

  /** The trades of n candles side by side: bucket after bucket, each in order of arrival. */
  ghost function Tiles(ticks: seq<Tick>, market: string, ms: int, from: int, n: nat): seq<Tick> {
    if n == 0 then []
    else
      var at := from + (n - 1) * ms;
      Tiles(ticks, market, ms, from, n - 1) + Window(ticks, market, at, at + ms)
  }

  /** Whatever the order of arrival, the roll-up sums up the trades bucket by bucket. */
  lemma {:induction false} RollUpIsTiles(candles: map<CandleKey, Candle>, ticks: seq<Tick>, market: string, interval: int,
                                        from: int, n: nat)
    requires Reflects(candles, ticks) && interval in INTERVALS && from % Millis(interval) == 0
    ensures RollUp(candles, market, interval, from, n)
         == MaybeSummary(Tiles(ticks, market, Millis(interval), from, n), from + n * Millis(interval) - 1)
  {
    hide Window, Summary, Reflects, Millis, Merge, Stored;
    var ms := Millis(interval);
    if n > 0 {
      var at := from + (n - 1) * ms;
      RollUpIsTiles(candles, ticks, market, interval, from, n - 1);
      MillisPositive(interval);
      StepsAlign(from, n, ms);
      StoredIsSummary(candles, ticks, CandleKey(market, interval, at));
      SummaryMerges(Tiles(ticks, market, ms, from, n - 1), Window(ticks, market, at, at + ms), at - 1, at + ms - 1, at + ms - 1);
    }
  }

  /** w has the trades of a and b, in some order. */
  ghost predicate Mixes(w: seq<Tick>, a: seq<Tick>, b: seq<Tick>) {
    && (a == [] ==> w == b) && (b == [] ==> w == a) && Volume(w) == Volume(a) + Volume(b)
    && (a != [] && b != [] ==> w != [] && High(w) == Max(High(a), High(b)) && Low(w) == Min(Low(a), Low(b)))
  }

  /** Joining two neighbouring windows keeps highest, lowest and total, in whatever order the trades arrived. */
  lemma {:induction false} WindowsJoin(ticks: seq<Tick>, market: string, lo: int, mid: int, hi: int)
    requires lo <= mid <= hi
    ensures Mixes(Window(ticks, market, lo, hi), Window(ticks, market, lo, mid), Window(ticks, market, mid, hi))
  {
    if ticks == [] {
      assert Volume([]) == 0;
    } else {
      var before, t := ticks[..|ticks| - 1], ticks[|ticks| - 1];
      WindowsJoin(before, market, lo, mid, hi);
      MixOne(Window(before, market, lo, hi), Window(before, market, lo, mid), Window(before, market, mid, hi), t);
      hide Mixes;
    }
  }

  lemma {:induction false} MixOne(w: seq<Tick>, a: seq<Tick>, b: seq<Tick>, t: Tick)
    requires Mixes(w, a, b)
    ensures Mixes(w + [], a + [], b + []) && Mixes(w + [t], a + [t], b + []) && Mixes(w + [t], a + [], b + [t])
  {
    hide High, Low, Volume;
    OneMore(w, t);
    OneMore(a, t);
    OneMore(b, t);
  }

  lemma {:induction false} OneMore(ts: seq<Tick>, t: Tick)
    ensures Volume(ts + [t]) == Volume(ts) + t.quantity && ts + [] == ts
    ensures High(ts + [t]) == (if ts == [] then t.price else Max(High(ts), t.price))
    ensures Low(ts + [t]) == (if ts == [] then t.price else Min(Low(ts), t.price))
  {
    assert (ts + [t])[..|ts|] == ts;
  }

  lemma {:induction false} TilesAgree(ticks: seq<Tick>, market: string, ms: int, from: int, n: nat)
    requires ms > 0
    ensures var w, ts := Window(ticks, market, from, from + n * ms), Tiles(ticks, market, ms, from, n);
            (w == [] <==> ts == []) && Volume(w) == Volume(ts) && (w != [] ==> High(w) == High(ts) && Low(w) == Low(ts))
  {
    hide Window, High, Low, Volume;
    if n == 0 {
      WindowNone(ticks, market, from);
    } else {
      var at := from + (n - 1) * ms;
      TilesAgree(ticks, market, ms, from, n - 1);
      TimesKeepsOrder(0, n - 1, ms);
      WindowsJoin(ticks, market, from, at, at + ms);
      Joined(Tiles(ticks, market, ms, from, n - 1), Window(ticks, market, at, at + ms));
      assert at + ms == from + n * ms;
    }
  }

  lemma {:induction false} Joined(a: seq<Tick>, b: seq<Tick>)
    ensures (a == [] ==> a + b == b) && (b == [] ==> a + b == a) && Volume(a + b) == Volume(a) + Volume(b)
    ensures a != [] && b != [] ==> High(a + b) == Max(High(a), High(b)) && Low(a + b) == Min(Low(a), Low(b))
  {
    if a == [] {
      assert a + b == b;
    } else if b == [] {
      assert a + b == a;
    } else {
      HighLowVolume(a, b);
    }
    hide High, Low;
  }

  lemma {:induction false} StoredIsSummary(candles: map<CandleKey, Candle>, ticks: seq<Tick>, key: CandleKey)
    requires Reflects(candles, ticks) && IsKey(key)
    ensures Stored(candles, key) == MaybeSummary(Window(ticks, key.market, key.openTime, key.openTime + Millis(key.interval)),
                                                 key.openTime + Millis(key.interval) - 1)
  {
    assert Right(candles, ticks, key);
  }

  lemma {:induction false} StepsAlign(from: int, n: nat, ms: int)
    requires ms > 0 && from % ms == 0 && n > 0
    ensures var at := from + (n - 1) * ms; at % ms == 0 && at + ms == from + n * ms && from <= at
  {
    MultipleMod(from / ms + (n - 1), ms);
    assert from + (n - 1) * ms == (from / ms + (n - 1)) * ms;
    TimesKeepsOrder(0, n - 1, ms);
  }

  lemma {:induction false} WindowNone(ticks: seq<Tick>, market: string, at: int)
    ensures Window(ticks, market, at, at) == []
  {
    if ticks != [] {
      WindowNone(ticks[..|ticks| - 1], market, at);
    }
  }

  lemma {:induction false} IntervalsDivide(i: nat, j: nat)
    requires i <= j < |INTERVALS|
    ensures INTERVALS[j] % INTERVALS[i] == 0 && INTERVALS[i] * (INTERVALS[j] / INTERVALS[i]) == INTERVALS[j]
  {
  }

  /** In whatever order trades arrive, a candle and the roll-up of the shorter candles inside it exist together and have
      the same high, low, volume and closing time; they are equal exactly if the first arrival of the long window has the
      price of the first arrival in its first traded bucket, and the last that of the last arrival in its last one. */
  lemma {:induction false} RollUpIff(candles: map<CandleKey, Candle>, ticks: seq<Tick>, market: string, i: nat, j: nat, openTime: int)
    requires Reflects(candles, ticks) && i <= j < |INTERVALS| && openTime % Millis(INTERVALS[j]) == 0
    ensures var n, ms := INTERVALS[j] / INTERVALS[i], Millis(INTERVALS[i]);
            var c, r := Stored(candles, CandleKey(market, INTERVALS[j], openTime)), RollUp(candles, market, INTERVALS[i], openTime, n);
            var w, ts := Window(ticks, market, openTime, openTime + n * ms), Tiles(ticks, market, ms, openTime, n);
            && (c.None? <==> w == []) && (r.None? <==> w == []) && (ts == [] <==> w == [])
            && (w != [] ==> c.value.(open := r.value.open, close := r.value.close) == r.value
                            && (c == r <==> w[0].price == ts[0].price && w[|w| - 1].price == ts[|ts| - 1].price))
  {
    hide Window, RollUp, Reflects, Stored, Tiles, High, Low, Volume, Millis;
    var d, n := INTERVALS[i], INTERVALS[j] / INTERVALS[i];
    IntervalsDivide(i, j);
    MillisPositive(d);
    MillisTimes(d, n);
    StepsTile(openTime, n, Millis(d), Millis(INTERVALS[j]));
    RollUpIsTiles(candles, ticks, market, d, openTime, n);
    TilesAgree(ticks, market, Millis(d), openTime, n);
    StoredIsSummary(candles, ticks, CandleKey(market, INTERVALS[j], openTime));
  }

  lemma {:induction false} MillisTimes(interval: int, n: int)
    ensures Millis(interval * n) == n * Millis(interval)
  {
  }

  /** The window opens in its first traded bucket if no other arrival lies in an earlier one. */
  lemma {:induction false} OpensInPlace(ticks: seq<Tick>, market: string, ms: int, from: int, n: nat, m: nat)
    requires ms > 0 && m < n && Window(ticks, market, from, from + m * ms) == []
    requires var w := Window(ticks, market, from, from + n * ms); w != [] && from + m * ms <= w[0].time < from + m * ms + ms
    ensures var ts := Tiles(ticks, market, ms, from, n); ts != [] && ts[0] == Window(ticks, market, from, from + n * ms)[0]
  {
    hide Window;
    var at := from + m * ms;
    TimesKeepsOrder(0, m, ms);
    TimesKeepsOrder(m + 1, n, ms);
    FirstWithin(ticks, market, from, from + n * ms, at, at + ms);
    TilesAgree(ticks, market, ms, from, m);
    hide High, Low, Volume;
    TilesStart(ticks, market, ms, from, m, n);
  }

  lemma {:induction false} TilesStart(ticks: seq<Tick>, market: string, ms: int, from: int, m: nat, n: nat)
    requires m < n && Tiles(ticks, market, ms, from, m) == [] && Window(ticks, market, from + m * ms, from + m * ms + ms) != []
    ensures var ts := Tiles(ticks, market, ms, from, n);
            ts != [] && ts[0] == Window(ticks, market, from + m * ms, from + m * ms + ms)[0]
  {
    hide Window;
    if n > m + 1 {
      TilesStart(ticks, market, ms, from, m, n - 1);
    } else {
      var w := Window(ticks, market, from + m * ms, from + m * ms + ms);
      assert [] + w == w;
    }
  }

  lemma {:induction false} FirstWithin(ticks: seq<Tick>, market: string, lo: int, hi: int, lo2: int, hi2: int)
    requires lo <= lo2 && hi2 <= hi
    requires var w := Window(ticks, market, lo, hi); w != [] && lo2 <= w[0].time < hi2
    ensures var v := Window(ticks, market, lo2, hi2); v != [] && v[0] == Window(ticks, market, lo, hi)[0]
  {
    var before := ticks[..|ticks| - 1];
    if Window(before, market, lo, hi) != [] {
      FirstWithin(before, market, lo, hi, lo2, hi2);
    } else {
      WindowWithin(before, market, lo, hi, lo2, hi2);
    }
  }

  lemma {:induction false} WindowWithin(ticks: seq<Tick>, market: string, lo: int, hi: int, lo2: int, hi2: int)
    requires lo <= lo2 && hi2 <= hi && Window(ticks, market, lo, hi) == []
    ensures Window(ticks, market, lo2, hi2) == []
  {
    if ticks != [] {
      WindowWithin(ticks[..|ticks| - 1], market, lo, hi, lo2, hi2);
    }
  }

  /** And it closes in its last traded bucket if the last arrival lies there. */
  lemma {:induction false} ClosesInPlace(ticks: seq<Tick>, market: string, ms: int, from: int, n: nat, m: nat)
    requires ms > 0 && m < n && Window(ticks, market, from + m * ms + ms, from + n * ms) == []
    requires var w := Window(ticks, market, from, from + n * ms); w != [] && from + m * ms <= w[|w| - 1].time < from + m * ms + ms
    ensures var w, ts := Window(ticks, market, from, from + n * ms), Tiles(ticks, market, ms, from, n);
            ts != [] && ts[|ts| - 1] == w[|w| - 1]
  {
    hide Window;
    var at, k := from + m * ms, m + 1;
    TimesKeepsOrder(0, m, ms);
    TimesKeepsOrder(k, n, ms);
    assert from + k * ms == at + ms;
    LastWithin(ticks, market, from, from + n * ms, at, at + ms);
    TilesEnd(ticks, market, ms, from, k, n);
  }

  lemma {:induction false} TilesEnd(ticks: seq<Tick>, market: string, ms: int, from: int, k: nat, n: nat)
    requires ms > 0 && k <= n && Window(ticks, market, from + k * ms, from + n * ms) == []
    ensures Tiles(ticks, market, ms, from, n) == Tiles(ticks, market, ms, from, k)
  {
    hide Window;
    if k < n {
      var at := from + (n - 1) * ms;
      TimesKeepsOrder(k, n - 1, ms);
      assert at + ms == from + n * ms;
      WindowWithin(ticks, market, from + k * ms, from + n * ms, at, at + ms);
      WindowWithin(ticks, market, from + k * ms, from + n * ms, from + k * ms, at);
      TilesEnd(ticks, market, ms, from, k, n - 1);
      assert Tiles(ticks, market, ms, from, n - 1) + [] == Tiles(ticks, market, ms, from, n - 1);
    }
  }

  lemma {:induction false} LastWithin(ticks: seq<Tick>, market: string, lo: int, hi: int, lo2: int, hi2: int)
    requires lo <= lo2 && hi2 <= hi
    requires var w := Window(ticks, market, lo, hi); w != [] && lo2 <= w[|w| - 1].time < hi2
    ensures var w, v := Window(ticks, market, lo, hi), Window(ticks, market, lo2, hi2); v != [] && v[|v| - 1] == w[|w| - 1]
  {
    var before, t := ticks[..|ticks| - 1], ticks[|ticks| - 1];
    if !(t.market == market && lo <= t.time < hi) {
      assert Window(ticks, market, lo, hi) == Window(before, market, lo, hi) + [];
      LastWithin(before, market, lo, hi, lo2, hi2);
      assert Window(ticks, market, lo2, hi2) == Window(before, market, lo2, hi2) + [];
    }
  }

  /** With trades in order of time, every candle is the roll-up of the shorter candles inside it. */
  lemma {:induction false} CoarserIsRollUp(candles: map<CandleKey, Candle>, ticks: seq<Tick>, market: string, i: nat, j: nat, openTime: int)
    requires Reflects(candles, ticks) && InOrder(ticks) && i <= j < |INTERVALS| && openTime % Millis(INTERVALS[j]) == 0
    ensures Stored(candles, CandleKey(market, INTERVALS[j], openTime))
         == RollUp(candles, market, INTERVALS[i], openTime, INTERVALS[j] / INTERVALS[i])
  {
    hide Window, RollUp, Reflects, InOrder, Stored, Tiles, High, Low, Volume;
    MillisPositive(INTERVALS[i]);
    TilesInOrder(ticks, market, Millis(INTERVALS[i]), openTime, INTERVALS[j] / INTERVALS[i]);
    RollUpIff(candles, ticks, market, i, j, openTime);
  }

  lemma {:induction false} TilesInOrder(ticks: seq<Tick>, market: string, ms: int, from: int, n: nat)
    requires InOrder(ticks) && ms > 0
    ensures Tiles(ticks, market, ms, from, n) == Window(ticks, market, from, from + n * ms)
  {
    hide Window, InOrder;
    if n == 0 {
      WindowNone(ticks, market, from);
    } else {
      var at := from + (n - 1) * ms;
      TilesInOrder(ticks, market, ms, from, n - 1);
      TimesKeepsOrder(0, n - 1, ms);
      WindowSplits(ticks, market, from, at, at + ms);
      assert at + ms == from + n * ms;
    }
  }

  lemma {:induction false} StepsTile(openTime: int, n: nat, fine: int, coarse: int)
    requires fine > 0 && n > 0 && coarse == n * fine && openTime % coarse == 0
    ensures openTime % fine == 0
  {
    var k := openTime / coarse;
    assert openTime == k * coarse == k * n * fine;
    MultipleMod(k * n, fine);
  }

  const LATE := Tick("m", 7, 1, 60000)
  const EARLY := Tick("m", 5, 1, 0)

  lemma {:induction false} LateWindows(lo: int, hi: int)
    requires 0 <= lo < hi
    ensures Window([LATE, EARLY], "m", lo, hi) == (if lo <= 60000 < hi then [LATE] else []) + (if lo == 0 then [EARLY] else [])
  {
    assert [LATE, EARLY][..1] == [LATE] && [LATE][..0] == [];
    assert Window([LATE], "m", lo, hi) == [] + if lo <= 60000 < hi then [LATE] else [];
  }

  /** An input where the condition fails: when a trade of the first minute arrives after one of the second, the five-minute
      candle opens at the price that arrived first, its minutes at the price that was traded first. A trade is filed under
      the time its row was written, and handlers wait for several other writes in between, so this can happen. */
  lemma {:induction false} LateTradeBreaksRollUp(candles: map<CandleKey, Candle>)
    requires Reflects(candles, [LATE, EARLY])
    ensures var five := Stored(candles, CandleKey("m", 5, 0)); five.Some? && five.value.open == 7
    ensures var rolled := RollUp(candles, "m", 1, 0, 5); rolled.Some? && rolled.value.open == 5
  {
    LateWindows(0, 300000);
    StoredIsSummary(candles, [LATE, EARLY], CandleKey("m", 5, 0));
    LateWindows(0, 60000);
    StoredIsSummary(candles, [LATE, EARLY], CandleKey("m", 1, 0));
    assert RollUp(candles, "m", 1, 0, 0).None?;
    var first := RollUp(candles, "m", 1, 0, 1);
    assert first.Some? && first.value.open == 5;
    MergeKeepsOpen(candles, 1);
    MergeKeepsOpen(candles, 2);
    MergeKeepsOpen(candles, 3);
    MergeKeepsOpen(candles, 4);
  }

  lemma {:induction false} MergeKeepsOpen(candles: map<CandleKey, Candle>, n: nat)
    requires RollUp(candles, "m", 1, 0, n).Some?
    ensures RollUp(candles, "m", 1, 0, n + 1).Some?
    ensures RollUp(candles, "m", 1, 0, n + 1).value.open == RollUp(candles, "m", 1, 0, n).value.open
  {
  }
}
