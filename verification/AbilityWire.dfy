/**
 The sparse wire form of forwarding abilities (frdrpc/forwarding_ability_codec.go): three tiers, the
 facts a response carries, what a response means, and the laws that tie the two together.
 */
module AbilityWire {
  import opened Wrappers
  import opened Hex
  import opened Bitmask

  // maxPackedPeers
  const MAX_PACKED_PEERS := 0xFFFF

  // math.MaxInt64
  const MAX_INT64 := 0x7FFF_FFFF_FFFF_FFFF

  datatype Ability = Ability(uptime: int, forwarded: int)

  datatype Pair = Pair(inPeer: string, outPeer: string)

  // The nested maps of the API and the pairs they hold.
  type Nested = map<string, map<string, Ability>>
  type Flat = map<Pair, Ability>

  function Flatten(m: Nested): Flat {
    map a, b | a in m && b in m[a] :: Pair(a, b) := m[a][b]
  }

  datatype Tier = Absent | Bit | Entry

  function TierOf(a: Ability, minUptime: int): Tier {
    if a.forwarded > 0 then Entry else if a.uptime >= minUptime then Bit else Absent
  }

  function Ceil(x: real): int {
    -((-x).Floor)
  }

  function MinQualifyingUptime(threshold: real, window: int): int {
    if window <= 0 then MAX_INT64
    else
      var v := Ceil(threshold * window as real);
      if v < 1 then 1 else v
  }

  // A whole-second uptime qualifies exactly when it is positive and at least the threshold fraction
  // of the window; for a threshold of at most one the whole window always qualifies.
  lemma QualifyingUptime(threshold: real, window: int, uptime: int)
    requires window > 0
    ensures uptime >= MinQualifyingUptime(threshold, window)
       <==> uptime >= 1 && uptime as real >= threshold * window as real
    ensures threshold <= 1.0 ==> 1 <= MinQualifyingUptime(threshold, window) <= window
  {
    var x := threshold * window as real;
    assert uptime >= Ceil(x) <==> uptime as real >= x;
    if threshold <= 1.0 {
      assert x <= window as real;
    }
  }

  // Over an empty window no uptime short of the largest int64 qualifies.
  lemma NothingQualifies(threshold: real, window: int, uptime: int)
    requires window <= 0
    ensures uptime >= MinQualifyingUptime(threshold, window) <==> uptime >= 9_223_372_036_854_775_807
  {
  }

  /* The facts worth sending. */

  predicate Relevant(f: Flat, minUptime: int, p: Pair) {
    p in f && TierOf(f[p], minUptime) != Absent
  }

  function LowerPair(p: Pair): Pair {
    Pair(ToLower(p.inPeer), ToLower(p.outPeer))
  }

  // Two relevant pairs that differ only by hex case.
  ghost predicate Collides(f: Flat, minUptime: int) {
    exists p, q :: Relevant(f, minUptime, p) && Relevant(f, minUptime, q) && p != q && LowerPair(p) == LowerPair(q)
  }

  // The relevant facts under lower-cased keys.
  ghost function Facts(f: Flat, minUptime: int): Flat
    requires !Collides(f, minUptime)
  {
    map p | p in f && Relevant(f, minUptime, p) :: LowerPair(p) := f[p]
  }

  function Endpoints(ps: set<Pair>): set<string> {
    (set p | p in ps :: p.inPeer) + (set p | p in ps :: p.outPeer)
  }

  // The lower-cased peers of relevant pairs.
  ghost function PeersNeeded(f: Flat, minUptime: int): set<string> {
    Endpoints(set p | p in f && Relevant(f, minUptime, p) :: LowerPair(p))
  }

  datatype CodecError = BadHex | TooManyPeers | DuplicatePair | BadIndex | BadMaskLength

  // Why encoding fails, if it does.
  ghost function Failure(f: Flat, minUptime: int): Option<CodecError> {
    if exists s :: s in PeersNeeded(f, minUptime) && Decode(s).None? then Some(BadHex)
    else if |PeersNeeded(f, minUptime)| > MAX_PACKED_PEERS then Some(TooManyPeers)
    else if Collides(f, minUptime) then Some(DuplicatePair)
    else None
  }

  /* Responses. */

  datatype WireEntry = WireEntry(packed: nat, uptime: int, forwarded: int)

  datatype Response = Response(peers: seq<seq<byte>>, entries: seq<WireEntry>, start: int, end: int,
                               mask: seq<bv8>, threshold: real)

  function NameAt(peers: seq<seq<byte>>, i: nat): string
    requires i < |peers|
  {
    Encode(peers[i])
  }

  function PairAt(peers: seq<seq<byte>>, i: nat, j: nat): Pair
    requires i < |peers| && j < |peers|
  {
    Pair(NameAt(peers, i), NameAt(peers, j))
  }

  // The in-peer index sits in the high 16 bits, the out-peer index in the low 16.
  function Pack(i: nat, j: nat): nat {
    i * 0x1_0000 + j
  }

  predicate InBounds(packed: nat, n: nat) {
    packed / 0x1_0000 < n && packed % 0x1_0000 < n
  }

  function PairOf(peers: seq<seq<byte>>, packed: nat): Pair
    requires InBounds(packed, |peers|)
  {
    PairAt(peers, packed / 0x1_0000, packed % 0x1_0000)
  }

  lemma PackInverse(i: nat, j: nat)
    requires j < 0x1_0000
    ensures Pack(i, j) / 0x1_0000 == i && Pack(i, j) % 0x1_0000 == j
    ensures i < 0x1_0000 ==> Pack(i, j) < 0x1_0000_0000
  {
  }

  predicate SortedPeers(peers: seq<seq<byte>>) {
    forall i, j :: 0 <= i < j < |peers| ==> Less(peers[i], peers[j])
  }

  predicate SortedEntries(es: seq<WireEntry>) {
    forall i, j :: 0 <= i < j < |es| ==> es[i].packed < es[j].packed
  }

  predicate IsEntryOf(facts: Flat, minUptime: int, peers: seq<seq<byte>>, e: WireEntry) {
    InBounds(e.packed, |peers|) && var p := PairOf(peers, e.packed);
    p in facts && TierOf(facts[p], minUptime) == Entry && e.uptime == facts[p].uptime && e.forwarded == facts[p].forwarded
  }

  predicate HasBit(facts: Flat, minUptime: int, p: Pair) {
    p in facts && TierOf(facts[p], minUptime) == Bit
  }

  // The number of bytes that hold n * n bits.
  function MaskLength(n: nat): nat {
    (n * n + 7) / 8
  }

  ghost predicate IsMask(facts: Flat, minUptime: int, peers: seq<seq<byte>>, mask: seq<bv8>) {
    if exists p :: HasBit(facts, minUptime, p) then
      var n := |peers|;
      |mask| == MaskLength(n) &&
      forall k: nat :: k < 8 * |mask| ==>
        (GetBit(mask, k) <==> k < n * n && HasBit(facts, minUptime, PairAtBit(peers, k)))
    else mask == []
  }

  // The pair a bit stands for: its index is in-peer times n plus out-peer.
  function PairAtBit(peers: seq<seq<byte>>, k: nat): Pair
    requires k < |peers| * |peers|
  {
    var n := |peers|;
    BitIndices(n, k);
    PairAt(peers, k / n, k % n)
  }

  lemma BitIndices(n: nat, k: nat)
    requires k < n * n
    ensures n > 0 && k / n < n && k % n < n && (k / n) * n + k % n == k
  {
    if n > 0 {
      LessFromMul(k / n, n, n);
    }
  }

  lemma LessFromMul(a: nat, b: nat, n: nat)
    requires a * n < b * n
    ensures a < b
  {
    if b <= a {
      MulMonotone(b, a, n);
    }
  }

  lemma MulMonotone(a: nat, b: nat, n: nat)
    requires a <= b
    ensures a * n <= b * n
  {
  }

  lemma DivUnique(x: nat, n: nat, q: nat, r: nat)
    requires r < n && x == q * n + r
    ensures x / n == q && x % n == r
  {
    var q' := x / n;
    assert x == q' * n + x % n && (q + 1) * n == q * n + n && (q' + 1) * n == q' * n + n;
    if q' > q {
      MulMonotone(q + 1, q', n);
    } else if q' < q {
      MulMonotone(q' + 1, q, n);
    }
  }

  lemma BitInverse(n: nat, i: nat, j: nat)
    requires i < n && j < n
    ensures i * n + j < n * n && (i * n + j) / n == i && (i * n + j) % n == j
  {
    MulMonotone(i + 1, n, n);
    assert (i + 1) * n == i * n + n;
    DivUnique(i * n + j, n, i, j);
  }

  predicate HasName(peers: seq<seq<byte>>, s: string) {
    exists i :: 0 <= i < |peers| && NameAt(peers, i) == s
  }

  ghost predicate IsResponse(facts: Flat, minUptime: int, start: int, end: int, threshold: real, r: Response) {
    r.start == start && r.end == end && r.threshold == threshold &&
    |r.peers| <= MAX_PACKED_PEERS && SortedPeers(r.peers) &&
    (forall s :: HasName(r.peers, s) <==> s in Endpoints(facts.Keys)) &&
    SortedEntries(r.entries) &&
    (forall e :: e in r.entries <==> IsEntryOf(facts, minUptime, r.peers, e)) &&
    IsMask(facts, minUptime, r.peers, r.mask)
  }

  /* There is one response for given facts: nothing is left to the iteration order of a map. */

  lemma NameInjective(peers: seq<seq<byte>>, i: nat, j: nat)
    requires SortedPeers(peers) && i < |peers| && j < |peers| && NameAt(peers, i) == NameAt(peers, j)
    ensures i == j
  {
    EncodeInjective(peers[i], peers[j]);
    LessTotal(peers[i], peers[j]);
  }

  lemma {:induction false} PeersUnique(a: seq<seq<byte>>, b: seq<seq<byte>>)
    requires SortedPeers(a) && SortedPeers(b)
    requires forall x :: x in a <==> x in b
    ensures a == b
    decreases |a|
  {
    if a == [] {
      SomeMember(b);
    } else {
      assert a[0] in b && b[0] in a;
      var i :| 0 <= i < |b| && b[i] == a[0];
      var j :| 0 <= j < |a| && a[j] == b[0];
      LessTotal(a[0], b[0]);
      assert a[0] == b[0];
      forall x
        ensures x in a[1..] <==> x in b[1..]
      {
        TailMember(a, x);
        TailMember(b, x);
      }
      PeersUnique(a[1..], b[1..]);
      assert a == [a[0]] + a[1..] && b == [b[0]] + b[1..];
    }
  }

  lemma TailMember(a: seq<seq<byte>>, x: seq<byte>)
    requires SortedPeers(a) && a != []
    ensures x in a[1..] <==> x in a && x != a[0]
  {
    if x in a[1..] {
      var k :| 0 <= k < |a[1..]| && a[1..][k] == x;
      LessTotal(a[0], a[k + 1]);
    }
    assert a == [a[0]] + a[1..];
  }

  lemma SameFirstEntry(a: seq<WireEntry>, b: seq<WireEntry>)
    requires SortedEntries(a) && SortedEntries(b) && a != [] && b != []
    requires a[0] in b && b[0] in a
    ensures a[0] == b[0]
  {
    var i :| 0 <= i < |b| && b[i] == a[0];
    var j :| 0 <= j < |a| && a[j] == b[0];
  }

  lemma {:induction false} EntriesUnique(a: seq<WireEntry>, b: seq<WireEntry>)
    requires SortedEntries(a) && SortedEntries(b)
    requires forall x :: x in a <==> x in b
    ensures a == b
    decreases |a|
  {
    if a == [] {
      SomeMember(b);
    } else {
      assert a[0] in b && b[0] in a;
      SameFirstEntry(a, b);
      var a', b' := a[1..], b[1..];
      forall x
        ensures x in a' <==> x in b'
      {
        EntryTailMember(a, x);
        EntryTailMember(b, x);
      }
      EntriesUnique(a', b');
      assert a == [a[0]] + a' && b == [b[0]] + b';
    }
  }

  lemma EntryTailMember(a: seq<WireEntry>, x: WireEntry)
    requires SortedEntries(a) && a != []
    ensures x in a[1..] <==> x in a && x != a[0]
  {
    if x in a[1..] {
      var k :| 0 <= k < |a[1..]| && a[1..][k] == x;
      assert a[0].packed < a[k + 1].packed;
    }
    assert a == [a[0]] + a[1..];
  }

  lemma ResponseUnique(facts: Flat, minUptime: int, start: int, end: int, threshold: real, r: Response, r': Response)
    requires IsResponse(facts, minUptime, start, end, threshold, r)
    requires IsResponse(facts, minUptime, start, end, threshold, r')
    ensures r == r'
  {
    forall x
      ensures x in r.peers <==> x in r'.peers
    {
      SameMembers(r.peers, r'.peers, x);
      SameMembers(r'.peers, r.peers, x);
    }
    PeersUnique(r.peers, r'.peers);
    EntriesUnique(r.entries, r'.entries);
    if exists p :: HasBit(facts, minUptime, p) {
      MaskOfBits(r.mask, r'.mask);
    }
  }

  lemma SameMembers(a: seq<seq<byte>>, b: seq<seq<byte>>, x: seq<byte>)
    requires forall s :: HasName(a, s) ==> HasName(b, s)
    ensures x in a ==> x in b
  {
    if x in a {
      var i :| 0 <= i < |a| && a[i] == x;
      assert NameAt(a, i) == Encode(x);
      assert HasName(a, Encode(x));
      var j :| 0 <= j < |b| && NameAt(b, j) == Encode(x);
      EncodeInjective(b[j], x);
    }
  }
}
