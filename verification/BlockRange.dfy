/**
 Finding the block heights of a report (findFirstBlockBeforeTimestamp and resolveBlockHeightRange in
 frdrpcserver/node_audit.go, with the fallback of accounting/config.go): a binary search over block
 times that are not sorted, repaired by a 24 hour buffer.
 */
module BlockRange {
  import opened Wrappers

  const DAY := 86_400

  // blockTimeRangeBuffer, in nanoseconds.
  const BUFFER := DAY * NANOS

  // Half of the uint32 range; a search that wraps below genesis probes exactly this height.
  const LOOKUP_BOUND := 0x7FFF_FFFF

  // The header times of the chain in whole seconds, by height. Looking up any other height fails.
  type Chain = seq<int>

  // A uint32 result: what wraps round at the ends of the range.
  function Uint32(x: int): (y: nat)
    ensures 0 <= x < TWO_TO_THE_32 ==> y == x
    ensures x == -1 ==> y == TWO_TO_THE_32 - 1
  {
    x % TWO_TO_THE_32
  }

  function Midpoint(low: nat, high: nat): nat {
    Uint32(low + high) / 2
  }

  // time.Unix: whole seconds, rounded down.
  function Seconds(nanos: int): int {
    nanos / NANOS
  }

  function Pow2(n: nat): (p: nat)
    ensures p > 0
  {
    if n == 0 then 1 else 2 * Pow2(n - 1)
  }

  // Bisection of low..high over the integers; None is a search that leaves the range below genesis.
  ghost function Search(chain: Chain, target: int, low: nat, high: int): (r: Option<nat>)
    requires high < |chain|
    decreases high + 1 - low
  {
    if low > high then
      if high < 0 then None else Some(high)
    else
      var mid := (low + high) / 2;
      if chain[mid] < target then Search(chain, target, mid + 1, high)
      else if chain[mid] > target then Search(chain, target, low, mid - 1)
      else Some(mid)
  }

  // What a search for a target establishes although the times are not sorted: it stops at a block at
  // or before the target whose successor, if any, lies beyond it, or at a block exactly at the target.
  predicate Found(chain: Chain, latest: nat, target: int, h: nat) {
    h <= latest < |chain| &&
    (chain[h] == target || (chain[h] < target && (h < latest ==> chain[h + 1] > target)))
  }

  // A search of a range with the target between its two ends finds it; none fails unless the target
  // lies before genesis.
  lemma {:induction false} SearchFinds(chain: Chain, latest: nat, target: int, low: nat, high: int)
    requires low <= high + 1 <= latest + 1 <= |chain|
    requires low > 0 ==> chain[low - 1] < target
    requires high < latest ==> chain[high + 1] > target
    ensures var r := Search(chain, target, low, high);
            if r.Some? then Found(chain, latest, target, r.value) else target < chain[0]
    decreases high + 1 - low
  {
    if low <= high {
      var mid := (low + high) / 2;
      if chain[mid] < target {
        SearchFinds(chain, latest, target, mid + 1, high);
      } else if chain[mid] > target {
        SearchFinds(chain, latest, target, low, mid - 1);
      }
    }
  }

  // The probes made so far stayed in 0..latest and each halved the range, of which width remains.
  ghost predicate Halved(probes: seq<nat>, latest: nat, width: nat) {
    (forall k :: 0 <= k < |probes| ==> probes[k] <= latest) &&
    (|probes| > 0 ==> Pow2(|probes| - 1) <= latest + 1) &&
    Pow2(|probes|) * width <= latest + 1
  }

  // findFirstBlockBeforeTimestamp, in uint32 arithmetic; None is a failed lookup. A search that
  // succeeds probes heights of the range only, at most floor(log2(latest + 1)) + 1 of them.
  method FindFirstBlockBeforeTimestamp(chain: Chain, latest: nat, target: int)
    returns (r: Option<nat>, probes: seq<nat>)
    requires latest < |chain| <= LOOKUP_BOUND
    ensures r == Search(chain, target, 0, latest)
    ensures r.Some? ==> Found(chain, latest, target, r.value)
    ensures r.None? ==> target < chain[0]
    ensures r.Some? ==> forall k :: 0 <= k < |probes| ==> probes[k] <= latest
    ensures r.Some? ==> |probes| >= 1 && Pow2(|probes| - 1) <= latest + 1
  {
    hide Search, Found, Halved, Pow2, Uint32, Midpoint;
    probes := [];
    var low: nat, high: nat := 0, latest;
    ghost var wrapped := false;
    NoProbes(latest);
    SearchFinds(chain, latest, target, 0, latest);
    while low <= high
      invariant !wrapped ==> low <= high + 1 <= latest + 1 && Halved(probes, latest, high + 1 - low)
      invariant !wrapped ==> Search(chain, target, 0, latest) == Search(chain, target, low, high)
      invariant !wrapped && low > high ==> |probes| > 0
      invariant wrapped ==> low == 0 && high == TWO_TO_THE_32 - 1
      invariant wrapped ==> Search(chain, target, 0, latest) == None
      decreases !wrapped, high + 1 - low
    {
      MidpointOf(low, high);
      var mid := Midpoint(low, high);
      ghost var before := probes;
      probes := probes + [mid];
      if mid >= |chain| {
        return None, probes;
      }
      Bisect(chain, target, low, high, mid);
      Halve(before, latest, low, high, mid);
      if chain[mid] < target {
        low := Uint32(mid + 1);
      } else if chain[mid] > target {
        wrapped := mid == 0;
        high := Uint32(mid - 1);
      } else {
        r := Some(mid);
        Counted(probes, latest, high - mid);
        return;
      }
    }
    r := Some(high);
    Exhausted(chain, target, low, high);
    Counted(probes, latest, high + 1 - low);
  }

  lemma MidpointOf(low: nat, high: nat)
    ensures low <= high && low + high < TWO_TO_THE_32 ==> low <= Midpoint(low, high) == (low + high) / 2 <= high
    ensures low == 0 && high == TWO_TO_THE_32 - 1 ==> Midpoint(low, high) == LOOKUP_BOUND
  {
  }

  lemma Bisect(chain: Chain, target: int, low: nat, high: nat, mid: nat)
    requires low <= mid <= high < |chain| && mid == (low + high) / 2
    ensures chain[mid] < target ==> Search(chain, target, low, high) == Search(chain, target, mid + 1, high)
    ensures chain[mid] > target ==> Search(chain, target, low, high) == Search(chain, target, low, mid - 1)
    ensures chain[mid] == target ==> Search(chain, target, low, high) == Some(mid)
    ensures Search(chain, target, 0, -1) == None
  {
  }

  lemma Exhausted(chain: Chain, target: int, low: nat, high: nat)
    requires high < low && high < |chain|
    ensures Search(chain, target, low, high) == Some(high)
  {
  }

  // Up to that height, and no further, no midpoint of a search overflows.
  lemma MidpointFits(latest: nat)
    requires latest < TWO_TO_THE_32
    ensures (forall low, high :: 0 <= low <= high <= latest ==> Midpoint(low, high) == (low + high) / 2)
       <==> latest <= LOOKUP_BOUND
  {
    if latest > LOOKUP_BOUND {
      assert Uint32(latest + latest) == latest + latest - TWO_TO_THE_32;
      assert Midpoint(latest, latest) < latest;
    }
  }

  lemma NoProbes(latest: nat)
    ensures Halved([], latest, latest + 1)
  {
  }

  // One probe in the middle: both ways of narrowing the range at least halve it.
  lemma Halve(probes: seq<nat>, latest: nat, low: nat, high: nat, mid: nat)
    requires low <= mid <= high <= latest && mid == (low + high) / 2
    requires Halved(probes, latest, high + 1 - low)
    ensures Halved(probes + [mid], latest, high - mid)
    ensures Halved(probes + [mid], latest, mid - low)
  {
    var p, n := Pow2(|probes|), |probes| + 1;
    assert Pow2(n) == 2 * p && p > 0;
    MulLe(1, high + 1 - low, p);
    HalfLe(p, high - mid, high + 1 - low, latest + 1);
    HalfLe(p, mid - low, high + 1 - low, latest + 1);
    assert forall k :: 0 <= k < n ==> (probes + [mid])[k] <= latest;
  }

  lemma HalfLe(p: nat, half: int, whole: int, bound: int)
    requires 2 * half <= whole && p * whole <= bound
    ensures (2 * p) * half <= bound
  {
    MulLe(2 * half, whole, p);
    assert (2 * p) * half == p * (2 * half);
  }

  lemma MulLe(a: int, b: int, c: nat)
    requires a <= b
    ensures c * a <= c * b
  {
  }

  lemma Counted(probes: seq<nat>, latest: nat, width: nat)
    requires Halved(probes, latest, width) && |probes| > 0
    ensures forall k :: 0 <= k < |probes| ==> probes[k] <= latest
    ensures Pow2(|probes| - 1) <= latest + 1
  {
  }

  // resolveBlockHeightRange for a report over [start, end) in nanoseconds; None is its error.
  method ResolveBlockHeightRange(chain: Chain, latest: nat, start: int, end: int)
    returns (r: Option<(nat, nat)>)
    requires latest < |chain| <= LOOKUP_BOUND
    ensures Resolves(chain, latest, start, end, r)
  {
    hide Search, Found;
    var bufferedStart := start - BUFFER;
    if bufferedStart < 0 {
      bufferedStart := 0;
    }
    var startHeight, _ := FindFirstBlockBeforeTimestamp(chain, latest, Seconds(bufferedStart));
    if startHeight.None? {
      return None;
    }
    var bufferedEnd := end + BUFFER;
    var endHeight, _ := FindFirstBlockBeforeTimestamp(chain, latest, Seconds(bufferedEnd));
    if endHeight.None? {
      return None;
    }
    var lo, hi := startHeight.value, endHeight.value;
    if lo > hi {
      lo, hi := 0, 0;
    }
    r := Some((lo, hi));
  }

  // The two searches whose results make up the answer.
  ghost predicate Resolves(chain: Chain, latest: nat, start: int, end: int, r: Option<(nat, nat)>)
    requires latest < |chain|
  {
    var lo := Search(chain, Seconds(if start < BUFFER then 0 else start - BUFFER), 0, latest);
    var hi := Search(chain, Seconds(end + BUFFER), 0, latest);
    if lo.None? || hi.None? then r == None
    else if lo.value > hi.value then r == Some((0, 0))
    else r == Some((lo.value, hi.value))
  }

  // A block at or before an instant that no block follows at or before it, unless it opens the very second.
  predicate StopsAt(chain: Chain, latest: nat, instant: int, h: nat) {
    h <= latest < |chain| && chain[h] * 1_000_000_000 <= instant &&
    (instant < (chain[h] + 1) * 1_000_000_000 || h == latest || instant < chain[h + 1] * 1_000_000_000)
  }

  // Both ends of a range in nanoseconds: it is bounded by a block where the chain passes the start less
  // 24 hours (but not before 1970) and one where it passes the end plus 24 hours, or it is (0, 0) when
  // these come in the wrong order. It is an error only when genesis lies after one of the two instants.
  lemma ResolvedEnds(chain: Chain, latest: nat, start: int, end: int, from: int, to: int, r: Option<(nat, nat)>)
    requires latest < |chain| && Resolves(chain, latest, start, end, r)
    requires from == if start < 86_400_000_000_000 then 0 else start - 86_400_000_000_000
    requires to == end + 86_400_000_000_000
    ensures if r.None? then from < chain[0] * 1_000_000_000 || to < chain[0] * 1_000_000_000
            else exists lo: nat, hi: nat ::
              Bounds(chain, latest, from, to, lo, hi) && r.value == if lo > hi then (0, 0) else (lo, hi)
  {
    hide Search, Found, StopsAt;
    SearchFinds(chain, latest, Seconds(from), 0, latest);
    SearchFinds(chain, latest, Seconds(to), 0, latest);
    var lo, hi := Search(chain, Seconds(from), 0, latest), Search(chain, Seconds(to), 0, latest);
    if r.Some? {
      FoundStops(chain, latest, from, lo.value);
      FoundStops(chain, latest, to, hi.value);
      assert Bounds(chain, latest, from, to, lo.value, hi.value);
    }
  }

  predicate Bounds(chain: Chain, latest: nat, from: int, to: int, lo: nat, hi: nat) {
    StopsAt(chain, latest, from, lo) && StopsAt(chain, latest, to, hi)
  }

  lemma FoundStops(chain: Chain, latest: nat, instant: int, h: nat)
    requires Found(chain, latest, Seconds(instant), h)
    ensures StopsAt(chain, latest, instant, h)
  {
  }

  // On a chain in order of time a range holds exactly its own ends: the last block up to the start less
  // 24 hours, and the last block up to the end plus 24 hours.
  lemma StopsOnce(chain: Chain, latest: nat, instant: int, h: nat, k: nat)
    requires latest < |chain| && forall i, j :: 0 <= i < j <= latest ==> chain[i] < chain[j]
    requires StopsAt(chain, latest, instant, h) && k <= latest
    ensures chain[k] * 1_000_000_000 <= instant <==> k <= h
  {
    if k < h {
      assert chain[k] < chain[h];
    } else if k > h {
      assert chain[h] < chain[k];
      if h + 1 < k {
        assert chain[h + 1] < chain[k];
      }
    }
  }

  // The heights a report queries between: those of the lookup, or (0, 0), all on-chain history, when
  // there is none or it fails.
  method OnChainHeights(chain: Chain, latest: nat, start: int, end: int, lookup: bool)
    returns (lo: nat, hi: nat)
    requires latest < |chain| <= LOOKUP_BOUND
    ensures !lookup ==> lo == hi == 0
    ensures lookup ==> exists r :: Resolves(chain, latest, start, end, r) && (lo, hi) == r.GetOr((0, 0))
    ensures lo <= hi <= latest
    ensures Orderly(chain, latest) ==> Covers(chain, latest, start, end, lo, hi)
  {
    hide Resolves, Orderly, Covers;
    lo, hi := 0, 0;
    AllHistory(chain, latest, start, end);
    if lookup {
      var r := ResolveBlockHeightRange(chain, latest, start, end);
      if r.Some? {
        lo, hi := r.value.0, r.value.1;
      }
      ResolvedBounds(chain, latest, start, end, r);
      if Orderly(chain, latest) {
        ResolvedCovers(chain, latest, start, end, r);
      }
    }
  }

  // Block times are positive, and no block is earlier than one before it by d seconds or more.
  ghost predicate Disordered(chain: Chain, latest: nat, d: int)
    requires latest < |chain|
  {
    (forall h :: 0 <= h <= latest ==> chain[h] > 0) &&
    (forall i, j :: 0 <= i < j <= latest ==> chain[i] - chain[j] < d)
  }

  ghost predicate Orderly(chain: Chain, latest: nat)
    requires latest < |chain|
  {
    Disordered(chain, latest, DAY)
  }

  // No block of the report is missed.
  ghost predicate Covers(chain: Chain, latest: nat, start: int, end: int, lo: nat, hi: nat)
    requires latest < |chain|
  {
    (lo, hi) == (0, 0) ||
    forall h :: 0 <= h <= latest && start <= chain[h] * NANOS < end ==> lo <= h <= hi
  }

  lemma AllHistory(chain: Chain, latest: nat, start: int, end: int)
    requires latest < |chain|
    ensures Covers(chain, latest, start, end, 0, 0)
  {
  }

  lemma ResolvedBounds(chain: Chain, latest: nat, start: int, end: int, r: Option<(nat, nat)>)
    requires latest < |chain| && Resolves(chain, latest, start, end, r)
    ensures r.Some? ==> r.value.0 <= r.value.1 <= latest
  {
    SearchFinds(chain, latest, Seconds(end + BUFFER), 0, latest);
  }

  // The day's buffer on both sides makes up for a day's disorder.
  lemma ResolvedCovers(chain: Chain, latest: nat, start: int, end: int, r: Option<(nat, nat)>)
    requires latest < |chain| && Orderly(chain, latest)
    requires Resolves(chain, latest, start, end, r)
    ensures r.Some? ==> Covers(chain, latest, start, end, r.value.0, r.value.1)
  {
    hide Search;
    var from, to := Seconds(if start < BUFFER then 0 else start - BUFFER), Seconds(end + BUFFER);
    SearchFinds(chain, latest, from, 0, latest);
    SearchFinds(chain, latest, to, 0, latest);
    if r.Some? && r.value != (0, 0) {
      forall h | 0 <= h <= latest && start <= chain[h] * NANOS < end ensures r.value.0 <= h <= r.value.1 {
        StartsEarly(chain, latest, start, r.value.0, h);
        EndsLate(chain, latest, end, r.value.1, h);
      }
    }
  }

  lemma Disorder(chain: Chain, latest: nat, i: nat, j: nat)
    requires latest < |chain| && Orderly(chain, latest) && i <= latest && j <= latest
    ensures i < j ==> chain[i] - chain[j] < DAY
  {
  }

  lemma StartsEarly(chain: Chain, latest: nat, start: int, lo: nat, h: nat)
    requires latest < |chain| && Orderly(chain, latest) && h <= latest
    requires Found(chain, latest, Seconds(if start < BUFFER then 0 else start - BUFFER), lo)
    requires start <= chain[h] * NANOS
    ensures lo <= h
  {
    assert start >= BUFFER && chain[lo] * NANOS <= start - BUFFER;
    Disorder(chain, latest, h, lo);
  }

  lemma EndsLate(chain: Chain, latest: nat, end: int, hi: nat, h: nat)
    requires latest < |chain| && Orderly(chain, latest) && h <= latest
    requires Found(chain, latest, Seconds(end + BUFFER), hi)
    requires chain[h] * NANOS < end
    ensures h <= hi
  {
    var to := Seconds(end + BUFFER);
    assert chain[h] + DAY <= to;
    Disorder(chain, latest, hi, h);
    if hi < latest {
      Disorder(chain, latest, hi + 1, h);
    }
  }

  // With one block exactly a day earlier than the one before it, the first block of a report can fall
  // outside the range.
  lemma DisorderOfADay()
    ensures var chain := [DAY + 100, 100, DAY + 100];
            var start := (DAY + 100) * NANOS;
            Resolves(chain, 2, start, start + 1, Some((1, 2))) && !Covers(chain, 2, start, start + 1, 1, 2)
  {
    var chain := [DAY + 100, 100, DAY + 100];
    var start := (DAY + 100) * NANOS;
    assert Seconds(start - BUFFER) == 100;
    assert Search(chain, 100, 0, 2) == Some(1);
    var to := Seconds(start + 1 + BUFFER);
    assert to > DAY + 100;
    assert Search(chain, to, 2, 2) == Search(chain, to, 3, 2) == Some(2);
    assert Search(chain, to, 0, 2) == Some(2);
    assert start <= chain[0] * NANOS < start + 1;
  }

  // Whatever a chain of disorder d and a report are, the resolved range misses no block.
  ghost predicate Repaired(d: int) {
    forall chain: Chain, latest: nat, start: int, end: int, r: Option<(nat, nat)> ::
      latest < |chain| && Disordered(chain, latest, d) && Resolves(chain, latest, start, end, r) && r.Some? ==>
        Covers(chain, latest, start, end, r.value.0, r.value.1)
  }

  // The buffer repairs every chain of a given disorder exactly when that is at most a day.
  lemma BufferRepairsADay(d: int)
    ensures Repaired(d) <==> d <= DAY
  {
    hide Search, Covers, Resolves;
    if d <= DAY {
      forall chain: Chain, latest: nat, start: int, end: int, r: Option<(nat, nat)> |
        latest < |chain| && Disordered(chain, latest, d) && Resolves(chain, latest, start, end, r) && r.Some?
        ensures Covers(chain, latest, start, end, r.value.0, r.value.1)
      {
        ResolvedCovers(chain, latest, start, end, r);
      }
    } else {
      var chain, start := [DAY + 100, 100, DAY + 100], (DAY + 100) * NANOS;
      var r := Some((1 as nat, 2 as nat));
      DisorderOfADay();
      assert Disordered(chain, 2, d) && r.Some?;
      assert !Covers(chain, 2, start, start + 1, r.value.0, r.value.1);
    }
  }
}
