/**
 What the wire form says, read off its bytes: the laws of the codec in terms of the peers' keys, packed
 indices and bits, without the tiers and lookups that it is computed with.
 */
module AbilityMeaning {
  import opened Wrappers
  import opened Hex
  import opened Bitmask
  import opened AbilityWire
  import opened AbilityLaws
  import opened AbilityCodec

  // The pair that two positions in the peer list stand for.
  predicate Names(peers: seq<seq<byte>>, i: nat, j: nat, p: Pair)
    requires i < |peers| && j < |peers|
  {
    Encode(peers[i]) == ToLower(p.inPeer) && Encode(peers[j]) == ToLower(p.outPeer)
  }

  // Worth sending: with forwarded volume, or up long enough.
  predicate Sent(a: Ability, minUptime: int) {
    a.forwarded > 0 || a.uptime >= minUptime
  }

  // What a client learns of an encoded map: forwarded pairs keep their facts, idle pairs that were up
  // long enough were up all the time, and nothing else is there.
  lemma ClientLearns(f: Flat, minUptime: int, start: int, end: int, threshold: real, r: Response)
    requires !Collides(f, minUptime) && IsResponse(Facts(f, minUptime), minUptime, start, end, threshold, r)
    ensures Decoded(r).Ok?
    ensures var d := Decoded(r).value;
      (forall p :: p in f && f[p].forwarded > 0 ==>
        var q := Pair(ToLower(p.inPeer), ToLower(p.outPeer)); q in d && d[q] == f[p]) &&
      (forall p :: p in f && f[p].forwarded <= 0 && f[p].uptime >= minUptime ==>
        var q := Pair(ToLower(p.inPeer), ToLower(p.outPeer)); q in d && d[q] == Ability(end - start, 0)) &&
      (forall q :: q in d ==>
        exists p :: p in f && Sent(f[p], minUptime) && q == Pair(ToLower(p.inPeer), ToLower(p.outPeer)))
  {
    hide Collides, Facts, IsResponse, Decoded;
    FactsAreRelevant(f, minUptime);
    RoundTrip(Facts(f, minUptime), minUptime, start, end, threshold, r);
    forall p | p in f && (f[p].forwarded > 0 || f[p].uptime >= minUptime)
      ensures LowerPair(p) in Decoded(r).value
      ensures Decoded(r).value[LowerPair(p)] == if f[p].forwarded > 0 then f[p] else Ability(end - start, 0)
    {
      FactOf(f, minUptime, p);
    }
    forall q | q in Decoded(r).value
      ensures exists p :: p in f && Sent(f[p], minUptime) && q == LowerPair(p)
    {
      var p := FactFrom(f, minUptime, q);
    }
  }

  // Which pairs an entry stands for: exactly those with forwarded volume, by their positions.
  lemma EntriesSay(f: Flat, minUptime: int, start: int, end: int, threshold: real, r: Response, i: nat, j: nat)
    requires !Collides(f, minUptime) && IsResponse(Facts(f, minUptime), minUptime, start, end, threshold, r)
    requires i < |r.peers| && j < |r.peers|
    ensures forall e :: e in r.entries && e.packed == i * 65536 + j ==>
      exists p :: p in f && f[p].forwarded > 0 && Names(r.peers, i, j, p) && f[p] == Ability(e.uptime, e.forwarded)
    ensures forall p :: p in f && f[p].forwarded > 0 && Names(r.peers, i, j, p) ==>
      WireEntry(i * 65536 + j, f[p].uptime, f[p].forwarded) in r.entries
  {
    hide Collides, Facts, SortedPeers, IsMask;
    PackInverse(i, j);
    forall e | e in r.entries && e.packed == i * 65536 + j
      ensures exists p :: p in f && f[p].forwarded > 0 && Names(r.peers, i, j, p) && f[p] == Ability(e.uptime, e.forwarded)
    {
      assert IsEntryOf(Facts(f, minUptime), minUptime, r.peers, e);
      var p := FactFrom(f, minUptime, PairAt(r.peers, i, j));
      assert Names(r.peers, i, j, p);
    }
    forall p | p in f && f[p].forwarded > 0 && Names(r.peers, i, j, p)
      ensures WireEntry(i * 65536 + j, f[p].uptime, f[p].forwarded) in r.entries
    {
      FactOf(f, minUptime, p);
      assert LowerPair(p) == PairAt(r.peers, i, j);
      assert IsEntryOf(Facts(f, minUptime), minUptime, r.peers, WireEntry(i * 65536 + j, f[p].uptime, f[p].forwarded));
    }
  }

  // Which pairs a bit stands for: exactly those without volume that were up long enough. Without any
  // there is no mask.
  lemma BitsSay(f: Flat, minUptime: int, start: int, end: int, threshold: real, r: Response, i: nat, j: nat)
    requires !Collides(f, minUptime) && IsResponse(Facts(f, minUptime), minUptime, start, end, threshold, r)
    requires i < |r.peers| && j < |r.peers|
    ensures r.mask == [] || |r.mask| == (|r.peers| * |r.peers| + 7) / 8
    ensures r.mask == [] ==> forall p :: p in f && f[p].forwarded <= 0 ==> f[p].uptime < minUptime
    ensures r.mask != [] ==> (i * |r.peers| + j) / 8 < |r.mask|
    ensures r.mask != [] ==>
      (GetBit(r.mask, i * |r.peers| + j) <==>
        exists p :: p in f && f[p].forwarded <= 0 && f[p].uptime >= minUptime && Names(r.peers, i, j, p))
  {
    hide Collides, Facts, SortedPeers, SortedEntries, IsEntryOf, GetBit;
    var facts, n := Facts(f, minUptime), |r.peers|;
    BitInverse(n, i, j);
    var k := i * n + j;
    forall p | p in f && f[p].forwarded <= 0 && f[p].uptime >= minUptime
      ensures HasBit(facts, minUptime, LowerPair(p))
    {
      FactOf(f, minUptime, p);
    }
    if r.mask != [] {
      assert PairAtBit(r.peers, k) == PairAt(r.peers, i, j);
      assert GetBit(r.mask, k) <==> HasBit(facts, minUptime, PairAt(r.peers, i, j));
      if HasBit(facts, minUptime, PairAt(r.peers, i, j)) {
        var p := FactFrom(f, minUptime, PairAt(r.peers, i, j));
        assert Names(r.peers, i, j, p);
      }
      forall p | p in f && f[p].forwarded <= 0 && f[p].uptime >= minUptime && Names(r.peers, i, j, p)
        ensures HasBit(facts, minUptime, PairAt(r.peers, i, j))
      {
        assert LowerPair(p) == PairAt(r.peers, i, j);
      }
    } else {
      MaskIsEmpty(facts, minUptime, r.peers, r.mask);
    }
  }

  lemma NeededSays(f: Flat, minUptime: int, s: string)
    ensures s in PeersNeeded(f, minUptime)
       <==> exists p :: p in f && Sent(f[p], minUptime) && (s == ToLower(p.inPeer) || s == ToLower(p.outPeer))
  {
    var ps := set p | p in f && Relevant(f, minUptime, p) :: LowerPair(p);
    forall p | p in f && Sent(f[p], minUptime)
      ensures ToLower(p.inPeer) in PeersNeeded(f, minUptime) && ToLower(p.outPeer) in PeersNeeded(f, minUptime)
    {
      assert LowerPair(p) in ps;
    }
    if s in PeersNeeded(f, minUptime) {
      var q :| q in ps && (s == q.inPeer || s == q.outPeer);
      var p :| p in f && Relevant(f, minUptime, p) && LowerPair(p) == q;
    }
  }

  // The peer list is strictly ascending and names exactly the ends of the pairs worth sending.
  lemma PeersSay(f: Flat, minUptime: int, start: int, end: int, threshold: real, r: Response, s: string)
    requires !Collides(f, minUptime) && IsResponse(Facts(f, minUptime), minUptime, start, end, threshold, r)
    ensures (exists i :: 0 <= i < |r.peers| && Encode(r.peers[i]) == s)
       <==> exists p :: p in f && Sent(f[p], minUptime) && (s == ToLower(p.inPeer) || s == ToLower(p.outPeer))
    ensures forall i, j :: 0 <= i < j < |r.peers| ==> Less(r.peers[i], r.peers[j])
  {
    hide Collides, Facts, IsMask, IsEntryOf, SortedEntries, PeersNeeded;
    FactsAreRelevant(f, minUptime);
    NeededSays(f, minUptime, s);
    assert HasName(r.peers, s) <==> s in PeersNeeded(f, minUptime);
    if i :| 0 <= i < |r.peers| && Encode(r.peers[i]) == s {
      assert NameAt(r.peers, i) == s;
    }
  }

  // Two pairs worth sending that are one in lower case.
  lemma CollidesSays(f: Flat, minUptime: int)
    ensures Collides(f, minUptime) <==> exists p, q :: p in f && q in f && p != q && SameInLowerCase(f, minUptime, p, q)
  {
    if p, q :| p in f && q in f && p != q && SameInLowerCase(f, minUptime, p, q) {
      assert Relevant(f, minUptime, p) && Relevant(f, minUptime, q) && LowerPair(p) == LowerPair(q);
    }
    if Collides(f, minUptime) {
      var p, q :| Relevant(f, minUptime, p) && Relevant(f, minUptime, q) && p != q && LowerPair(p) == LowerPair(q);
      assert SameInLowerCase(f, minUptime, p, q);
    }
  }

  predicate SameInLowerCase(f: Flat, minUptime: int, p: Pair, q: Pair)
    requires p in f && q in f
  {
    Sent(f[p], minUptime) && Sent(f[q], minUptime) &&
    ToLower(p.inPeer) == ToLower(q.inPeer) && ToLower(p.outPeer) == ToLower(q.outPeer)
  }

  predicate HasBadName(p: Pair) {
    Decode(ToLower(p.inPeer)).None? || Decode(ToLower(p.outPeer)).None?
  }

  // Why encoding fails: a pair worth sending has a name that is not hexadecimal, there are more than
  // 65535 peers, or two such pairs are one in lower case.
  lemma FailureSays(f: Flat, minUptime: int)
    ensures var bad := exists p :: p in f && Sent(f[p], minUptime) && HasBadName(p);
      var many := |PeersNeeded(f, minUptime)| > 65535;
      var twice := exists p, q :: p in f && q in f && p != q && SameInLowerCase(f, minUptime, p, q);
      Failure(f, minUptime) ==
        if bad then Some(BadHex) else if many then Some(TooManyPeers) else if twice then Some(DuplicatePair) else None
  {
    hide PeersNeeded, Collides;
    CollidesSays(f, minUptime);
    forall p | p in f && Sent(f[p], minUptime)
      ensures ToLower(p.inPeer) in PeersNeeded(f, minUptime) && ToLower(p.outPeer) in PeersNeeded(f, minUptime)
    {
      NeededSays(f, minUptime, ToLower(p.inPeer));
      NeededSays(f, minUptime, ToLower(p.outPeer));
    }
    if s :| s in PeersNeeded(f, minUptime) && Decode(s).None? {
      NeededSays(f, minUptime, s);
      var p :| p in f && Sent(f[p], minUptime) && (s == ToLower(p.inPeer) || s == ToLower(p.outPeer));
      assert HasBadName(p);
    }
  }

  /* Decoding any response. */

  // An entry that stands for a pair.
  predicate EntryNames(peers: seq<seq<byte>>, e: WireEntry, p: Pair) {
    e.packed / 65536 < |peers| && e.packed % 65536 < |peers| &&
    p == Pair(Encode(peers[e.packed / 65536]), Encode(peers[e.packed % 65536]))
  }

  predicate BitNames(peers: seq<seq<byte>>, mask: seq<bv8>, i: nat, j: nat, p: Pair)
    requires i < |peers| && j < |peers|
  {
    var k := i * |peers| + j;
    k / 8 < |mask| && GetBit(mask, k) && p == Pair(Encode(peers[i]), Encode(peers[j]))
  }

  // What is refused, and which pairs any other response decodes to: those of entries, the last one of a
  // pair winning, and those of bits, with the whole window, unless an entry names them.
  lemma DecodedSays(r: Response, p: Pair)
    ensures Decoded(r).Err? <==>
      |r.peers| > 65535 ||
      (exists e :: e in r.entries && (e.packed / 65536 >= |r.peers| || e.packed % 65536 >= |r.peers|)) ||
      (r.mask != [] && |r.mask| != (|r.peers| * |r.peers| + 7) / 8)
    ensures Decoded(r).Ok? ==>
      var d := Decoded(r).value;
      (p in d <==> (exists e :: e in r.entries && EntryNames(r.peers, e, p)) ||
                   (exists i: nat, j: nat :: i < |r.peers| && j < |r.peers| && BitNames(r.peers, r.mask, i, j, p))) &&
      (forall k :: 0 <= k < |r.entries| && EntryNames(r.peers, r.entries[k], p) &&
                   (forall l :: k < l < |r.entries| ==> !EntryNames(r.peers, r.entries[l], p)) ==>
        d[p] == Ability(r.entries[k].uptime, r.entries[k].forwarded)) &&
      (p in d && (forall e :: e in r.entries ==> !EntryNames(r.peers, e, p)) ==> d[p] == Ability(r.end - r.start, 0))
  {
    hide GetBit, DecodeEntries, DecodeBits;
    if Decoded(r).Ok? {
      EntriesDecode(r.peers, r.entries, p);
      if r.mask != [] {
        var known := DecodeEntries(r.peers, r.entries);
        BitsMean(r.peers, r.mask, r.end - r.start, known, 8 * |r.mask|, p);
        FlagsAreBits(r.peers, r.mask, p);
      }
    }
  }

  lemma FlagsAreBits(peers: seq<seq<byte>>, mask: seq<bv8>, p: Pair)
    ensures HasFlag(peers, mask, 8 * |mask|, p)
       <==> exists i: nat, j: nat :: i < |peers| && j < |peers| && BitNames(peers, mask, i, j, p)
  {
    hide IsFlag, BitNames, HasFlag;
    if HasFlag(peers, mask, 8 * |mask|, p) {
      FlagIsBit(peers, mask, p);
    }
    if i: nat, j: nat :| i < |peers| && j < |peers| && BitNames(peers, mask, i, j, p) {
      BitIsFlag(peers, mask, i, j, p);
    }
  }

  lemma FlagIsBit(peers: seq<seq<byte>>, mask: seq<bv8>, p: Pair)
    requires HasFlag(peers, mask, 8 * |mask|, p)
    ensures exists i: nat, j: nat :: i < |peers| && j < |peers| && BitNames(peers, mask, i, j, p)
  {
    hide GetBit;
    var k: nat :| k < 8 * |mask| && IsFlag(peers, mask, k, p);
    BitIndices(|peers|, k);
    var i: nat, j: nat := k / |peers|, k % |peers|;
    assert BitNames(peers, mask, i, j, p);
  }

  lemma BitIsFlag(peers: seq<seq<byte>>, mask: seq<bv8>, i: nat, j: nat, p: Pair)
    requires i < |peers| && j < |peers| && BitNames(peers, mask, i, j, p)
    ensures HasFlag(peers, mask, 8 * |mask|, p)
  {
    hide GetBit;
    BitInverse(|peers|, i, j);
    var k: nat := i * |peers| + j;
    assert IsFlag(peers, mask, k, p);
  }

  lemma {:induction false} EntriesDecode(peers: seq<seq<byte>>, es: seq<WireEntry>, p: Pair)
    requires forall e :: e in es ==> InBounds(e.packed, |peers|)
    ensures p in DecodeEntries(peers, es) <==> exists e :: e in es && EntryNames(peers, e, p)
    ensures forall k :: 0 <= k < |es| && EntryNames(peers, es[k], p) &&
                        (forall l :: k < l < |es| ==> !EntryNames(peers, es[l], p)) ==>
      DecodeEntries(peers, es)[p] == Ability(es[k].uptime, es[k].forwarded)
    decreases |es|
  {
    hide EntryNames;
    if es != [] {
      var n := |es| - 1;
      var e := es[n];
      assert es == es[..n] + [e];
      EntriesDecode(peers, es[..n], p);
      EntryNamesPair(peers, e, p);
    }
  }

  lemma EntryNamesPair(peers: seq<seq<byte>>, e: WireEntry, p: Pair)
    requires InBounds(e.packed, |peers|)
    ensures EntryNames(peers, e, p) <==> PairOf(peers, e.packed) == p
  {
  }
}
