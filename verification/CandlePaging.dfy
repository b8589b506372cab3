/**
 Paging through the candles of an exchange (rawPriceData in fiat/bitfinex_api.go): windows that share
 their boundaries, a cap on each answer, and a filter for candles already seen.
 */
module CandlePaging {
  import opened Wrappers

  // bitfinexCandleCap
  const CANDLE_CAP := 10000

  datatype Price = Price(timestamp: int, price: real)

  // The length of a bucket.
  type Granularity = g: int | g > 0 witness 1

  // The closing price of every bucket the exchange holds a candle for, by bucket number: bucket k of
  // granularity g opens at k * g.
  type Market = map<int, real>

  // The held candles of the buckets first..last, in ascending order.
  function Candles(m: Market, g: Granularity, first: int, last: int): seq<Price>
    decreases last + 1 - first
  {
    if first > last then []
    else
      var rest := Candles(m, g, first + 1, last);
      if first in m then [Price(first * g, m[first])] + rest else rest
  }

  // A candle opens on a bucket of the range and closes at the price that the exchange holds for it.
  lemma {:induction false} CandleMembers(m: Market, g: Granularity, first: int, last: int)
    ensures forall p :: p in Candles(m, g, first, last) <==>
      exists k :: first <= k <= last && k in m && p == Price(k * g, m[k])
    decreases last + 1 - first
  {
    if first <= last {
      CandleMembers(m, g, first + 1, last);
    }
  }

  // An answer holds the first candles of the window, 10,000 at most.
  lemma QuerySays(m: Market, g: Granularity, start: int, end: int)
    ensures Query(m, g, start, end) <= Candles(m, g, CeilDiv(start, g), end / g)
    ensures |Query(m, g, start, end)| <= 10_000
    ensures |Query(m, g, start, end)| < 10_000 ==> Query(m, g, start, end) == Candles(m, g, CeilDiv(start, g), end / g)
    ensures forall k :: CeilDiv(start, g) <= k <= end / g <==> start <= k * g <= end
  {
    forall k
      ensures CeilDiv(start, g) <= k <==> start <= k * g
      ensures k <= end / g <==> k * g <= end
    {
      BucketOf(k, end, g);
      BucketOf(-k, -start, g);
      assert -k * g == -(k * g);
    }
  }

  lemma BucketOf(k: int, t: int, g: Granularity)
    ensures k <= t / g <==> k * g <= t
  {
    var q := t / g;
    assert t == q * g + t % g;
    if k < q {
      MulStep(k, q, g);
    } else if k > q {
      MulStep(q, k, g);
    }
  }

  // Rounds up.
  function CeilDiv(t: int, g: Granularity): int {
    -(-t / g)
  }

  // An answer of the exchange: the first candles that open in the window, both ends included.
  function Query(m: Market, g: Granularity, start: int, end: int): seq<Price> {
    var held := Candles(m, g, CeilDiv(start, g), end / g);
    if |held| <= CANDLE_CAP then held else held[..CANDLE_CAP]
  }

  ghost function Times(prices: seq<Price>): set<int> {
    set p | p in prices :: p.timestamp
  }

  // The records whose time was not seen before.
  function Unseen(records: seq<Price>, seen: set<int>): seq<Price> {
    if records == [] then []
    else if records[0].timestamp in seen then Unseen(records[1..], seen)
    else [records[0]] + Unseen(records[1..], seen + {records[0].timestamp})
  }

  // The inner loop over the records of a page.
  method AddUnseen(before: seq<Price>, seenBefore: set<int>, records: seq<Price>)
    returns (all: seq<Price>, seen: set<int>)
    requires seenBefore == Times(before)
    ensures all == before + Unseen(records, seenBefore)
    ensures seen == Times(all)
  {
    all, seen := before, seenBefore;
    for i := 0 to |records|
      invariant all + Unseen(records[i..], seen) == before + Unseen(records, seenBefore)
      invariant seen == Times(all)
    {
      var record := records[i];
      assert records[i..][0] == record && records[i..][1..] == records[i + 1..];
      if record.timestamp in seen {
        continue;
      }
      seen := seen + {record.timestamp};
      TimesAppend(all, record);
      all := all + [record];
    }
  }

  lemma TimesAppend(prices: seq<Price>, p: Price)
    ensures Times(prices + [p]) == Times(prices) + {p.timestamp}
  {
    assert forall q :: q in prices + [p] <==> q in prices || q == p;
  }

  // The last bucket that paging from bucket a to endTime collects: every page but the last is followed
  // by one that starts on its end.
  ghost function Reached(m: Market, g: Granularity, a: int, endTime: int): int
    decreases endTime - a * g
  {
    PageEnd(a, g);
    if (a + CANDLE_CAP) * g < endTime then Reached(m, g, a + CANDLE_CAP, endTime)
    else Capped(m, g, a, endTime / g)
  }

  // A window has one bucket more than the cap; when all are held the last is cut off.
  ghost function Capped(m: Market, g: Granularity, first: int, last: int): int {
    if |Candles(m, g, first, last)| > CANDLE_CAP then last - 1 else last
  }

  ghost function Collected(m: Market, g: Granularity, startTime: int, endTime: int): seq<Price> {
    var a := startTime / g;
    if a * g >= endTime then [] else Candles(m, g, a, Reached(m, g, a, endTime))
  }

  // rawPriceData
  method RawPriceData(m: Market, g: Granularity, startTime: int, endTime: int) returns (all: seq<Price>)
    ensures all == Collected(m, g, startTime, endTime)
  {
    hide Candles, Capped, Reached, Times, Query;
    var chunk := g * CANDLE_CAP;
    var start := startTime / g * g;
    var end := start + chunk;
    if end > endTime {
      end := endTime;
    }
    all := [];
    var seen: set<int> := {};
    ghost var first := startTime / g;
    ghost var a := first;
    NothingYet(m, g, a);
    while start < endTime
      invariant end == if start + chunk > endTime then endTime else start + chunk
      invariant seen == Times(all)
      invariant start < endTime ==> Paged(m, g, first, endTime, all, start, a)
      invariant start >= endTime ==> all == Collected(m, g, startTime, endTime)
      decreases endTime - start
    {
      var records := Query(m, g, start, end);
      PageEnd(a, g);
      NextPage(m, g, first, endTime, all, seen, start, end, a);
      all, seen := AddUnseen(all, seen, records);
      start := end;
      end := start + chunk;
      if end > endTime {
        end := endTime;
      }
      a := a + CANDLE_CAP;
    }
  }

  // Before a page that starts at bucket a: all earlier candles are collected, and the one of bucket a
  // itself may be.
  ghost predicate Paged(m: Market, g: Granularity, first: int, endTime: int, all: seq<Price>, start: int, a: int) {
    start == a * g && first <= a &&
    Reached(m, g, first, endTime) == Reached(m, g, a, endTime) &&
    (all == Candles(m, g, first, a - 1) || all == Candles(m, g, first, a))
  }

  lemma NothingYet(m: Market, g: Granularity, a: int)
    ensures Candles(m, g, a, a - 1) == [] && Times([]) == {}
  {
  }

  lemma PageEnd(a: int, g: Granularity)
    ensures (a + CANDLE_CAP) * g == a * g + g * CANDLE_CAP > a * g
  {
  }

  lemma NextPage(m: Market, g: Granularity, first: int, endTime: int, all: seq<Price>, seen: set<int>,
                 start: int, end: int, a: int)
    requires start < endTime && Paged(m, g, first, endTime, all, start, a) && seen == Times(all)
    requires end == if (a + CANDLE_CAP) * g > endTime then endTime else (a + CANDLE_CAP) * g
    ensures var next := all + Unseen(Query(m, g, start, end), seen);
      if end < endTime then Paged(m, g, first, endTime, next, end, a + CANDLE_CAP)
      else next == Candles(m, g, first, Reached(m, g, first, endTime))
  {
    hide Candles, Times, Unseen;
    Buckets(a, g, end);
    var last := end / g;
    PageOfBuckets(m, g, a, end);
    var done := if all == Candles(m, g, first, a) then a else a - 1;
    CapBound(m, g, a, last);
    UnseenOfPage(m, g, first, done, a, Capped(m, g, a, last));
    CandlesSplit(m, g, first, done, Capped(m, g, a, last));
  }

  // A window from bucket a of at most one page reaches some bucket from a to a + CANDLE_CAP.
  lemma Buckets(a: int, g: Granularity, end: int)
    requires a * g < end <= (a + CANDLE_CAP) * g
    ensures CeilDiv(a * g, g) == a
    ensures a <= end / g <= a + CANDLE_CAP
    ensures end == (a + CANDLE_CAP) * g ==> end / g == a + CANDLE_CAP
  {
    DivMul(a, g);
    DivMul(-a, g);
    DivMul(a + CANDLE_CAP, g);
    DivMonotone(a * g, end, g);
    DivMonotone(end, (a + CANDLE_CAP) * g, g);
    assert -(a * g) == -a * g;
  }

  lemma DivMul(k: int, g: Granularity)
    ensures k * g / g == k
  {
    var t := k * g;
    var q := t / g;
    assert t == q * g + t % g;
    if q < k {
      MulStep(q, k, g);
    } else if q > k {
      MulStep(k, q, g);
    }
  }

  lemma DivMonotone(s: int, t: int, g: Granularity)
    requires s <= t
    ensures s / g <= t / g
  {
    var p, q := s / g, t / g;
    assert s == p * g + s % g && t == q * g + t % g;
    if p > q {
      MulStep(q, p, g);
    }
  }

  lemma {:induction false} MulStep(j: int, k: int, g: Granularity)
    requires j < k
    ensures j * g + g <= k * g
    decreases k - j
  {
    assert k * g == (k - 1) * g + g;
    if j < k - 1 {
      MulStep(j, k - 1, g);
    }
  }

  lemma {:induction false} CandleCount(m: Market, g: Granularity, first: int, last: int)
    requires first <= last + 1
    ensures |Candles(m, g, first, last)| <= last + 1 - first
    ensures |Candles(m, g, first, last)| == last + 1 - first <==> forall k :: first <= k <= last ==> k in m
    decreases last + 1 - first
  {
    if first <= last {
      CandleCount(m, g, first + 1, last);
    }
  }

  lemma {:induction false} CandlesSplit(m: Market, g: Granularity, a: int, b: int, c: int)
    requires a <= b + 1 <= c + 1
    ensures Candles(m, g, a, c) == Candles(m, g, a, b) + Candles(m, g, b + 1, c)
    decreases b + 1 - a
  {
    if a <= b {
      CandlesSplit(m, g, a + 1, b, c);
    }
  }

  // What a window of at most one page more than the cap answers.
  lemma PageOfBuckets(m: Market, g: Granularity, a: int, end: int)
    requires CeilDiv(a * g, g) == a <= end / g <= a + CANDLE_CAP
    ensures Query(m, g, a * g, end) == Candles(m, g, a, Capped(m, g, a, end / g))
  {
    var last := end / g;
    CandleCount(m, g, a, last);
    if |Candles(m, g, a, last)| > CANDLE_CAP {
      CandlesSplit(m, g, a, last - 1, last);
      assert |Candles(m, g, last, last)| == 1;
    }
  }

  lemma CapBound(m: Market, g: Granularity, a: int, last: int)
    requires a <= last <= a + CANDLE_CAP
    ensures a <= Capped(m, g, a, last) <= last
    ensures Capped(m, g, a, last) < last <==> last == a + CANDLE_CAP && forall k :: a <= k <= last ==> k in m
  {
    CandleCount(m, g, a, last);
  }

  // Everything collected lies before the buckets still to come.
  lemma {:induction false} TimesBelow(m: Market, g: Granularity, first: int, last: int)
    ensures forall t :: t in Times(Candles(m, g, first, last)) ==> t < (last + 1) * g
    ensures first <= last && last in m ==> last * g in Times(Candles(m, g, first, last))
    decreases last + 1 - first
  {
    var here := Candles(m, g, first, last);
    if first <= last {
      TimesBelow(m, g, first + 1, last);
      MulStep(first, last + 1, g);
      var rest := Candles(m, g, first + 1, last);
      assert here == if first in m then [Price(first * g, m[first])] + rest else rest;
      if first == last && last in m {
        assert here[0] in here;
      }
      assert forall p :: p in rest ==> p in here;
      forall p | p in here
        ensures p.timestamp < (last + 1) * g
      {
        assert p in rest ==> p.timestamp in Times(rest);
      }
    } else {
      assert here == [];
    }
  }

  lemma {:induction false} AllUnseen(m: Market, g: Granularity, first: int, last: int, seen: set<int>)
    requires forall t :: t in seen ==> t < first * g
    ensures Unseen(Candles(m, g, first, last), seen) == Candles(m, g, first, last)
    decreases last + 1 - first
  {
    if first <= last {
      MulStep(first, first + 1, g);
      AllUnseen(m, g, first + 1, last, if first in m then seen + {first * g} else seen);
    }
  }

  // A page adds what lies beyond the candles collected so far; the shared boundary is added once.
  lemma UnseenOfPage(m: Market, g: Granularity, first: int, done: int, a: int, last: int)
    requires first <= a <= last && a - 1 <= done <= a
    ensures Unseen(Candles(m, g, a, last), Times(Candles(m, g, first, done))) == Candles(m, g, done + 1, last)
  {
    hide Times;
    var seen := Times(Candles(m, g, first, done));
    TimesBelow(m, g, first, done);
    AllUnseen(m, g, done + 1, last, seen);
  }

  ghost predicate AllHeld(m: Market, first: int, last: int) {
    forall k :: first <= k <= last ==> k in m
  }

  // The range ends on the opening of a bucket, a whole number of pages away, and the last page is full.
  ghost predicate EndCutOff(m: Market, g: Granularity, a: int, endTime: int) {
    var b := endTime / g;
    b * g == endTime && b > a && (b - a) % CANDLE_CAP == 0 && AllHeld(m, b - CANDLE_CAP, b)
  }

  // Paging collects everything up to the end of the range, except for a candle that opens exactly there
  // and is cut off by the cap.
  lemma {:induction false} ReachedExactly(m: Market, g: Granularity, a: int, endTime: int)
    requires a * g < endTime
    ensures Reached(m, g, a, endTime) == endTime / g - if EndCutOff(m, g, a, endTime) then 1 else 0
    decreases endTime - a * g
  {
    hide Candles, AllHeld, Capped, CeilDiv;
    var b, next := endTime / g, a + CANDLE_CAP;
    PageEnd(a, g);
    if next * g < endTime {
      DivMul(next, g);
      DivMonotone(next * g, endTime, g);
      ReachedExactly(m, g, next, endTime);
      Pages(b - a);
    } else {
      Buckets(a, g, endTime);
      LastPage(m, g, a, endTime);
    }
  }

  lemma Pages(n: int)
    ensures n % CANDLE_CAP == (n - CANDLE_CAP) % CANDLE_CAP
  {
  }

  lemma LastPage(m: Market, g: Granularity, a: int, endTime: int)
    requires a * g < endTime <= (a + CANDLE_CAP) * g && a <= endTime / g <= a + CANDLE_CAP
    ensures Capped(m, g, a, endTime / g) == endTime / g - if EndCutOff(m, g, a, endTime) then 1 else 0
  {
    hide Candles;
    var b := endTime / g;
    CandleCount(m, g, a, b);
    assert endTime == b * g + endTime % g;
    assert b == a + CANDLE_CAP ==> b * g == endTime;
  }
}
