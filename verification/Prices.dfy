/**
 Fiat prices for timestamps (GetPrices and GetPrice in fiat/prices.go), over the candles that paging
 collected from the exchange.
 */
module Prices {
  import opened Wrappers
  import opened StableSort
  import opened CandlePaging

  datatype PriceError = EndBeforeStart | FutureRange | NoPrices | OutOfRange

  // utils.ValidateTimeRange with DisallowFutureRange, at the time now.
  function ValidateTimeRange(start: int, end: int, now: int): Option<PriceError> {
    if end < start then Some(EndBeforeStart)
    else if start > now || end > now then Some(FutureRange)
    else None
  }

  predicate Earlier(p: Price, q: Price) {
    p.timestamp < q.timestamp
  }

  // PriceSource.GetPrices validates, fetches and sorts. The candles arrive sorted already.
  method GetPriceRange(m: Market, g: Granularity, start: int, end: int, now: int)
    returns (r: Result<seq<Price>, PriceError>)
    ensures match ValidateTimeRange(start, end, now)
            case Some(e) => r == Err(e)
            case None => r == Ok(Collected(m, g, start, end))
    ensures r == Err(EndBeforeStart) <==> end < start
    ensures r == Err(FutureRange) <==> start <= end && end > now
    ensures r.Ok? <==> start <= end <= now
  {
    hide Collected, Sorted;
    var invalid := ValidateTimeRange(start, end, now);
    if invalid.Some? {
      return Err(invalid.value);
    }
    var records := RawPriceData(m, g, start, end);
    CollectedSorted(m, g, start, end);
    SortOfSorted(records, Earlier);
    r := Ok(Sort(records, Earlier));
  }

  lemma CollectedSorted(m: Market, g: Granularity, start: int, end: int)
    ensures Order(Earlier) && Sorted(Collected(m, g, start, end), Earlier)
  {
    if start / g * g < end {
      CandlesSorted(m, g, start / g, Reached(m, g, start / g, end));
    }
  }

  lemma {:induction false} CandlesSorted(m: Market, g: Granularity, first: int, last: int)
    ensures Sorted(Candles(m, g, first, last), Earlier)
    ensures forall p :: p in Candles(m, g, first, last) ==> first * g <= p.timestamp
    decreases last + 1 - first
  {
    if first <= last {
      CandlesSorted(m, g, first + 1, last);
      MulStep(first, first + 1, g);
      if first in m {
        SortedCons(Price(first * g, m[first]), Candles(m, g, first + 1, last), Earlier);
      }
    }
  }

  // The last price before the series passes the timestamp.
  ghost function LastPrice(prices: seq<Price>, timestamp: int): Option<Price> {
    if prices == [] || timestamp < prices[0].timestamp then None
    else
      var later := LastPrice(prices[1..], timestamp);
      if later.Some? then later else Some(prices[0])
  }

  ghost function Lookup(prices: seq<Price>, timestamp: int): Result<Price, PriceError> {
    if prices == [] then Err(NoPrices)
    else
      match LastPrice(prices, timestamp)
      case None => Err(OutOfRange)
      case Some(p) => Ok(p)
  }

  method GetPrice(prices: seq<Price>, timestamp: int) returns (r: Result<Price, PriceError>)
    ensures r == Lookup(prices, timestamp)
  {
    if |prices| == 0 {
      return Err(NoPrices);
    }
    var lastPrice: Option<Price> := None;
    var i := 0;
    while i < |prices|
      invariant 0 <= i <= |prices|
      invariant var later := LastPrice(prices[i..], timestamp);
        LastPrice(prices, timestamp) == if later.Some? then later else lastPrice
    {
      var price := prices[i];
      assert prices[i..][0] == price && prices[i..][1..] == prices[i + 1..];
      if timestamp < price.timestamp {
        break;
      }
      lastPrice := Some(price);
      i := i + 1;
    }
    match lastPrice {
      case None => r := Err(OutOfRange);
      case Some(p) => r := Ok(p);
    }
  }

  // The price found is the one before the first that lies after the timestamp, or the very last.
  lemma {:induction false} LastPriceMeans(prices: seq<Price>, timestamp: int)
    ensures match LastPrice(prices, timestamp)
            case None => prices == [] || timestamp < prices[0].timestamp
            case Some(p) => exists k :: 0 < k <= |prices| && Passed(prices, k, timestamp) && p == prices[k - 1]
  {
    if prices != [] && prices[0].timestamp <= timestamp {
      LastPriceMeans(prices[1..], timestamp);
      var later := LastPrice(prices[1..], timestamp);
      if later.Some? {
        var k :| 0 < k <= |prices| - 1 && Passed(prices[1..], k, timestamp) && later.value == prices[1..][k - 1];
        assert forall j :: 0 < j <= k ==> prices[j] == prices[1..][j - 1];
        assert Passed(prices, k + 1, timestamp);
      } else {
        assert Passed(prices, 1, timestamp);
      }
    }
  }

  // Exactly k prices come before the first one after the timestamp.
  predicate Passed(prices: seq<Price>, k: nat, timestamp: int)
    requires k <= |prices|
  {
    (forall j :: 0 <= j < k ==> prices[j].timestamp <= timestamp) &&
    (k < |prices| ==> timestamp < prices[k].timestamp)
  }

  // The latest bucket of first..last that the exchange holds.
  ghost function LatestHeld(m: Market, first: int, last: int): (r: Option<int>)
    ensures r.Some? ==>
      first <= r.value <= last && r.value in m && forall k :: r.value < k <= last ==> k !in m
    ensures r.None? ==> forall k :: first <= k <= last ==> k !in m
    decreases last + 1 - first
  {
    if first > last then None
    else if last in m then Some(last)
    else LatestHeld(m, first, last - 1)
  }

  ghost function CandleOf(m: Market, g: Granularity, bucket: int): Price
    requires bucket in m
  {
    Price(bucket * g, m[bucket])
  }

  // Looking a timestamp up among candles finds the latest held one up to its own bucket.
  lemma {:induction false} LookupLatest(m: Market, g: Granularity, first: int, last: int, timestamp: int)
    ensures LastPrice(Candles(m, g, first, last), timestamp)
         == LatestCandle(m, g, first, if timestamp / g < last then timestamp / g else last)
    decreases last + 1 - first
  {
    hide LastPrice, LatestCandle;
    var end := if timestamp / g < last then timestamp / g else last;
    BucketOf(first, timestamp, g);
    LatestFirst(m, g, first, end);
    if first <= last {
      LookupLatest(m, g, first + 1, last, timestamp);
      if first in m {
        LastPriceFirst(CandleOf(m, g, first), Candles(m, g, first + 1, last), timestamp);
      } else if first > end {
        LatestFirst(m, g, first + 1, end);
      }
    } else {
      NoPriceOfNone(timestamp);
    }
  }

  // The candle of that bucket.
  ghost function LatestCandle(m: Market, g: Granularity, first: int, last: int): Option<Price> {
    var held := LatestHeld(m, first, last);
    if held.Some? then Some(CandleOf(m, g, held.value)) else None
  }

  lemma LatestFirst(m: Market, g: Granularity, first: int, last: int)
    ensures first > last ==> LatestCandle(m, g, first, last) == None
    ensures first <= last ==>
      var later := LatestCandle(m, g, first + 1, last);
      LatestCandle(m, g, first, last)
      == if later.Some? then later else if first in m then Some(CandleOf(m, g, first)) else None
  {
    var later := LatestHeld(m, first + 1, last);
    var held := LatestHeld(m, first, last);
    if first <= last && later.Some? {
      assert held.Some? && !(held.value < later.value) && !(later.value < held.value);
    }
  }

  lemma LastPriceFirst(p: Price, rest: seq<Price>, timestamp: int)
    ensures LastPrice([p] + rest, timestamp)
         == if timestamp < p.timestamp then None
            else if LastPrice(rest, timestamp).Some? then LastPrice(rest, timestamp) else Some(p)
  {
    assert ([p] + rest)[1..] == rest;
  }

  // Every timestamp from the start up to, but not including, the end of the range is priced by the
  // latest candle the exchange holds for it, back to the bucket of the start.
  lemma PricesWithin(m: Market, g: Granularity, start: int, end: int, timestamp: int)
    requires start <= timestamp < end
    ensures var held := LatestHeld(m, start / g, timestamp / g);
      var r := Lookup(Collected(m, g, start, end), timestamp);
      if held.Some? then r == Ok(CandleOf(m, g, held.value)) else r.Err?
  {
    hide LastPrice, Candles, LatestHeld;
    var first := start / g;
    BucketOf(first, end - 1, g);
    DivMonotone(start, end - 1, g);
    ReachedExactly(m, g, first, end);
    BeforeEnd(m, g, first, timestamp, end);
    LookupLatest(m, g, first, Reached(m, g, first, end), timestamp);
    NoPriceOfNone(timestamp);
  }

  lemma NoPriceOfNone(timestamp: int)
    ensures LastPrice([], timestamp) == None
  {
  }

  // The bucket of an earlier timestamp is never cut off.
  lemma BeforeEnd(m: Market, g: Granularity, first: int, timestamp: int, end: int)
    requires timestamp < end
    ensures timestamp / g <= end / g - if EndCutOff(m, g, first, end) then 1 else 0
  {
    DivMonotone(timestamp, end, g);
    BucketOf(end / g, timestamp, g);
  }

  // With its candle held, a timestamp before the end gets the price of its own bucket.
  lemma OwnBucket(m: Market, g: Granularity, start: int, end: int, timestamp: int)
    requires start <= timestamp < end && timestamp / g in m
    ensures Lookup(Collected(m, g, start, end), timestamp) == Ok(CandleOf(m, g, timestamp / g))
  {
    PricesWithin(m, g, start, end, timestamp);
    DivMonotone(start, timestamp, g);
  }

  // The end itself gets its own bucket exactly when the range is not a single bucket opening and the
  // last candle is not cut off.
  lemma OwnBucketAtEnd(m: Market, g: Granularity, start: int, end: int)
    requires start <= end && end / g in m
    ensures Lookup(Collected(m, g, start, end), end) == Ok(CandleOf(m, g, end / g))
       <==> start / g * g < end && !EndCutOff(m, g, start / g, end)
  {
    hide LastPrice, Candles;
    var first := start / g;
    DivMonotone(start, end, g);
    if first * g < end {
      ReachedExactly(m, g, first, end);
      var last := Reached(m, g, first, end);
      LookupLatest(m, g, first, last, end);
      NoPriceOfNone(end);
      var held := LatestHeld(m, first, last);
      if held.Some? && held.value < end / g {
        MulStep(held.value, end / g, g);
      }
    }
  }

  // A single timestamp that opens a bucket finds no prices, even when its candle is held.
  lemma LoneOpening(m: Market, g: Granularity, k: int)
    ensures Lookup(Collected(m, g, k * g, k * g), k * g) == Err(NoPrices)
  {
    DivMul(k, g);
  }

  // A range of exactly one page whose candles are all held prices its end by the bucket before.
  lemma FullPageCutsEnd(m: Market, g: Granularity, first: int)
    requires AllHeld(m, first, first + CANDLE_CAP)
    ensures var end := (first + CANDLE_CAP) * g;
      Lookup(Collected(m, g, first * g, end), end) == Ok(CandleOf(m, g, first + CANDLE_CAP - 1))
  {
    hide LastPrice, Candles;
    var last := first + CANDLE_CAP;
    PageEnd(first, g);
    DivMul(first, g);
    DivMul(last, g);
    ReachedExactly(m, g, first, last * g);
    LookupLatest(m, g, first, last - 1, last * g);
    NoPriceOfNone(last * g);
  }

  predicate Less(s: int, t: int) {
    s < t
  }

  // GetPrices for a list of timestamps: one query from the first to the last of them, one lookup each.
  method GetPrices(m: Market, g: Granularity, timestamps: seq<int>, now: int)
    returns (r: Result<map<int, Price>, PriceError>)
    ensures timestamps == [] ==> r == Ok(map[])
    ensures timestamps != [] ==> exists start, end ::
      Spans(timestamps, start, end) && PricesFor(m, g, timestamps, start, end, now, r)
  {
    hide Collected, Lookup, Order, Sorted, Spans, PricesFor, Less, ValidateTimeRange;
    if |timestamps| == 0 {
      return Ok(map[]);
    }
    LessIsOrder();
    var sorted := Sort(timestamps, Less);
    SortedSpan(timestamps, sorted);
    var start, end := sorted[0], sorted[|sorted| - 1];
    var priceData := GetPriceRange(m, g, start, end, now);
    if priceData.Err? {
      Refused(m, g, timestamps, start, end, now);
      return Err(priceData.error);
    }
    r := PriceEach(priceData.value, sorted);
    Priced(m, g, timestamps, start, end, now, r);
  }

  // The loop over the timestamps.
  method PriceEach(candles: seq<Price>, timestamps: seq<int>) returns (r: Result<map<int, Price>, PriceError>)
    ensures EachPriced(candles, ToSet(timestamps), r)
  {
    hide Lookup;
    var prices: map<int, Price> := map[];
    for i := 0 to |timestamps|
      invariant prices.Keys == ToSet(timestamps[..i])
      invariant forall t :: t in prices ==> Lookup(candles, t) == Ok(prices[t])
    {
      var price := GetPrice(candles, timestamps[i]);
      if price.Err? {
        return Err(price.error);
      }
      assert timestamps[..i + 1] == timestamps[..i] + [timestamps[i]];
      prices := prices[timestamps[i] := price.value];
    }
    assert timestamps[..|timestamps|] == timestamps;
    r := Ok(prices);
  }

  // A price for each timestamp, unless one of them has none.
  ghost predicate EachPriced(candles: seq<Price>, timestamps: set<int>, r: Result<map<int, Price>, PriceError>) {
    match r
    case Ok(prices) =>
      prices.Keys == timestamps && forall t :: t in prices ==> Lookup(candles, t) == Ok(prices[t])
    case Err(e) => exists t :: t in timestamps && Lookup(candles, t) == Err(e)
  }

  // The earliest and the latest of some timestamps.
  ghost predicate Spans(timestamps: seq<int>, start: int, end: int) {
    start in timestamps && end in timestamps && forall t :: t in timestamps ==> start <= t <= end
  }

  lemma SortedSpan(timestamps: seq<int>, sorted: seq<int>)
    requires timestamps != [] && multiset(sorted) == multiset(timestamps) && |sorted| == |timestamps|
    requires Sorted(sorted, Less)
    ensures Spans(timestamps, sorted[0], sorted[|sorted| - 1])
    ensures ToSet(sorted) == ToSet(timestamps)
  {
    forall t
      ensures t in sorted <==> t in timestamps
    {
      assert t in multiset(sorted) <==> t in multiset(timestamps);
    }
    forall t | t in timestamps
      ensures sorted[0] <= t <= sorted[|sorted| - 1]
    {
      var i :| 0 <= i < |sorted| && sorted[i] == t;
      assert i > 0 ==> !Less(sorted[i], sorted[0]);
      assert i < |sorted| - 1 ==> !Less(sorted[|sorted| - 1], sorted[i]);
    }
  }

  // The result for timestamps from start to end.
  ghost predicate PricesFor(m: Market, g: Granularity, timestamps: seq<int>, start: int, end: int, now: int,
                            r: Result<map<int, Price>, PriceError>) {
    if end > now then r == Err(FutureRange)
    else EachPriced(Collected(m, g, start, end), ToSet(timestamps), r)
  }

  lemma LessIsOrder()
    ensures Order(Less)
  {
  }

  lemma Refused(m: Market, g: Granularity, timestamps: seq<int>, start: int, end: int, now: int)
    requires end > now
    ensures PricesFor(m, g, timestamps, start, end, now, Err(FutureRange))
  {
  }

  lemma Priced(m: Market, g: Granularity, timestamps: seq<int>, start: int, end: int, now: int,
               r: Result<map<int, Price>, PriceError>)
    requires end <= now && EachPriced(Collected(m, g, start, end), ToSet(timestamps), r)
    ensures PricesFor(m, g, timestamps, start, end, now, r)
  {
  }

  // A timestamp is priced by its own bucket.
  ghost predicate Exact(m: Market, g: Granularity, timestamp: int, r: Result<Price, PriceError>) {
    timestamp / g in m && r == Ok(CandleOf(m, g, timestamp / g))
  }

  ghost predicate AllExact(m: Market, g: Granularity, timestamps: seq<int>, r: Result<map<int, Price>, PriceError>) {
    r.Ok? && forall t :: t in timestamps ==> t in r.value && Exact(m, g, t, Ok(r.value[t]))
  }

  // When the exchange holds every candle of the range, each timestamp is priced by its own bucket, unless
  // all of them are the opening of one bucket, or the candle of the latest is cut off.
  lemma PricesAreExact(m: Market, g: Granularity, timestamps: seq<int>, start: int, end: int, now: int,
                       r: Result<map<int, Price>, PriceError>)
    requires Spans(timestamps, start, end) && PricesFor(m, g, timestamps, start, end, now, r)
    requires end <= now && AllHeld(m, start / g, end / g)
    ensures AllExact(m, g, timestamps, r) <==> start / g * g < end && !EndCutOff(m, g, start / g, end)
  {
    hide Collected, Lookup, EndCutOff, CandleOf;
    var candles := Collected(m, g, start, end);
    DivMonotone(start, end, g);
    OwnBucketAtEnd(m, g, start, end);
    forall t | t in timestamps
      ensures t < end ==> Exact(m, g, t, Lookup(candles, t))
    {
      DivMonotone(start, t, g);
      DivMonotone(t, end, g);
      if t < end {
        OwnBucket(m, g, start, end, t);
      }
    }
    assert Exact(m, g, end, Lookup(candles, end)) <==> start / g * g < end && !EndCutOff(m, g, start / g, end);
    ExactlyWhenEnd(m, g, timestamps, end, candles, r);
  }

  lemma ExactlyWhenEnd(m: Market, g: Granularity, timestamps: seq<int>, end: int, candles: seq<Price>,
                       r: Result<map<int, Price>, PriceError>)
    requires end in timestamps && forall t :: t in timestamps ==> t <= end
    requires EachPriced(candles, ToSet(timestamps), r)
    requires forall t :: t in timestamps && t < end ==> Exact(m, g, t, Lookup(candles, t))
    ensures AllExact(m, g, timestamps, r) <==> Exact(m, g, end, Lookup(candles, end))
  {
    hide Lookup;
    if Exact(m, g, end, Lookup(candles, end)) {
      forall t | t in timestamps
        ensures Exact(m, g, t, Lookup(candles, t))
      {
        assert t < end || t == end;
      }
    }
  }
}
