/**
 What decoding makes of a response, and the laws of the codec: an exact round trip up to the
 intended loss, and a canonical wire form.
 */
module AbilityLaws {
  import opened Wrappers
  import opened Hex
  import opened Bitmask
  import opened AbilityWire

  /* The meaning of an arbitrary response, well-formed or not. */

  // Entries in order; a later entry for the same pair replaces an earlier one.
  function DecodeEntries(peers: seq<seq<byte>>, es: seq<WireEntry>): Flat
    requires forall e :: e in es ==> InBounds(e.packed, |peers|)
  {
    if es == [] then map[]
    else
      var e := es[|es| - 1];
      DecodeEntries(peers, es[..|es| - 1])[PairOf(peers, e.packed) := Ability(e.uptime, e.forwarded)]
  }

  // The first k bits; a bit never overrides a pair that is already known.
  function DecodeBits(peers: seq<seq<byte>>, mask: seq<bv8>, window: int, known: Flat, k: nat): Flat
    requires k <= 8 * |mask|
  {
    if k == 0 then known
    else
      var before := DecodeBits(peers, mask, window, known, k - 1);
      if k - 1 < |peers| * |peers| && GetBit(mask, k - 1) && PairAtBit(peers, k - 1) !in before
      then before[PairAtBit(peers, k - 1) := Ability(window, 0)]
      else before
  }

  function Decoded(r: Response): Result<Flat, CodecError> {
    var n := |r.peers|;
    if n > MAX_PACKED_PEERS then Err(TooManyPeers)
    else if exists e :: e in r.entries && !InBounds(e.packed, n) then Err(BadIndex)
    else
      var known := DecodeEntries(r.peers, r.entries);
      if r.mask == [] then Ok(known)
      else if |r.mask| != MaskLength(n) then Err(BadMaskLength)
      else Ok(DecodeBits(r.peers, r.mask, r.end - r.start, known, 8 * |r.mask|))
  }

  // What the wire form keeps of the facts: forwarded pairs exactly, idle ones at full window.
  ghost function Lossy(facts: Flat, minUptime: int, window: int): Flat {
    map p | p in facts :: if TierOf(facts[p], minUptime) == Entry then facts[p] else Ability(window, 0)
  }

  /* Round trip. */

  ghost predicate AllRelevant(facts: Flat, minUptime: int) {
    forall p :: p in facts ==> TierOf(facts[p], minUptime) != Absent
  }

  ghost predicate HasEntry(peers: seq<seq<byte>>, es: seq<WireEntry>, p: Pair) {
    exists e :: e in es && InBounds(e.packed, |peers|) && PairOf(peers, e.packed) == p
  }

  lemma {:induction false} EntriesMean(facts: Flat, minUptime: int, peers: seq<seq<byte>>, es: seq<WireEntry>)
    requires SortedPeers(peers)
    requires forall e :: e in es ==> InBounds(e.packed, |peers|) && IsEntryOf(facts, minUptime, peers, e)
    ensures forall p :: p in DecodeEntries(peers, es) <==> HasEntry(peers, es, p)
    ensures forall p :: p in DecodeEntries(peers, es) ==> p in facts && DecodeEntries(peers, es)[p] == facts[p]
    decreases |es|
  {
    if es != [] {
      var n := |es| - 1;
      var e := es[n];
      EntriesMean(facts, minUptime, peers, es[..n]);
      assert es == es[..n] + [e];
      assert IsEntryOf(facts, minUptime, peers, e) && facts[PairOf(peers, e.packed)] == Ability(e.uptime, e.forwarded);
      forall p
        ensures HasEntry(peers, es, p) <==> HasEntry(peers, es[..n], p) || PairOf(peers, e.packed) == p
      {
        assert forall x :: x in es <==> x in es[..n] || x == e;
      }
    }
  }

  // One of the first k bits flags the pair.
  ghost predicate HasFlag(peers: seq<seq<byte>>, mask: seq<bv8>, k: nat, p: Pair)
    requires k <= 8 * |mask|
  {
    exists j: nat :: j < k && IsFlag(peers, mask, j, p)
  }

  predicate IsFlag(peers: seq<seq<byte>>, mask: seq<bv8>, j: nat, p: Pair)
    requires j < 8 * |mask|
  {
    j < |peers| * |peers| && GetBit(mask, j) && PairAtBit(peers, j) == p
  }

  lemma {:induction false} BitsMean(peers: seq<seq<byte>>, mask: seq<bv8>, window: int, known: Flat, k: nat, p: Pair)
    requires k <= 8 * |mask|
    ensures var all := DecodeBits(peers, mask, window, known, k);
      (p in all <==> p in known || HasFlag(peers, mask, k, p)) &&
      (p in all ==> all[p] == if p in known then known[p] else Ability(window, 0))
    decreases k
  {
    hide GetBit, PairAtBit, HasFlag;
    if k > 0 {
      BitsMean(peers, mask, window, known, k - 1, p);
      FlagNext(peers, mask, k, p);
    } else {
      NoFlags(peers, mask, p);
    }
  }

  lemma NoFlags(peers: seq<seq<byte>>, mask: seq<bv8>, p: Pair)
    ensures !HasFlag(peers, mask, 0, p)
  {
  }

  lemma FlagNext(peers: seq<seq<byte>>, mask: seq<bv8>, k: nat, p: Pair)
    requires 0 < k <= 8 * |mask|
    ensures HasFlag(peers, mask, k, p) <==> HasFlag(peers, mask, k - 1, p) || IsFlag(peers, mask, k - 1, p)
  {
    hide IsFlag;
  }

  // A pair of facts has a position among the peers of a response for them.
  lemma Position(facts: Flat, minUptime: int, start: int, end: int, threshold: real, r: Response, p: Pair)
    returns (i: nat, j: nat)
    requires IsResponse(facts, minUptime, start, end, threshold, r) && p in facts
    ensures i < |r.peers| && j < |r.peers| && PairAt(r.peers, i, j) == p
    ensures InBounds(Pack(i, j), |r.peers|) && PairOf(r.peers, Pack(i, j)) == p
  {
    assert p.inPeer in Endpoints(facts.Keys) && p.outPeer in Endpoints(facts.Keys);
    assert HasName(r.peers, p.inPeer) && HasName(r.peers, p.outPeer);
    i :| 0 <= i < |r.peers| && NameAt(r.peers, i) == p.inPeer;
    j :| 0 <= j < |r.peers| && NameAt(r.peers, j) == p.outPeer;
    PackInverse(i, j);
  }

  lemma EntryPairs(facts: Flat, minUptime: int, start: int, end: int, threshold: real, r: Response, p: Pair)
    requires IsResponse(facts, minUptime, start, end, threshold, r)
    ensures HasEntry(r.peers, r.entries, p)
       <==> p in facts && TierOf(facts[p], minUptime) == Entry
  {
    if p in facts && TierOf(facts[p], minUptime) == Entry {
      var i, j := Position(facts, minUptime, start, end, threshold, r, p);
      var e := WireEntry(Pack(i, j), facts[p].uptime, facts[p].forwarded);
      assert IsEntryOf(facts, minUptime, r.peers, e);
      assert e in r.entries;
    }
  }

  lemma BitPairs(facts: Flat, minUptime: int, start: int, end: int, threshold: real, r: Response, p: Pair)
    requires IsResponse(facts, minUptime, start, end, threshold, r) && r.mask != []
    ensures HasFlag(r.peers, r.mask, 8 * |r.mask|, p)
       <==> HasBit(facts, minUptime, p)
  {
    if HasBit(facts, minUptime, p) {
      var i, j := Position(facts, minUptime, start, end, threshold, r, p);
      var n := |r.peers|;
      BitInverse(n, i, j);
      var k := i * n + j;
      assert PairAtBit(r.peers, k) == p && k < 8 * |r.mask|;
      assert IsFlag(r.peers, r.mask, k, p);
    }
  }

  // Decoding a response gives back exactly the facts it was made from, idle pairs at full window.
  lemma RoundTrip(facts: Flat, minUptime: int, start: int, end: int, threshold: real, r: Response)
    requires IsResponse(facts, minUptime, start, end, threshold, r) && AllRelevant(facts, minUptime)
    ensures Decoded(r) == Ok(Lossy(facts, minUptime, end - start))
  {
    hide SortedPeers, SortedEntries, IsMask, DecodeEntries, DecodeBits, GetBit;
    KnownEntries(facts, minUptime, start, end, threshold, r);
    var known, lossy := DecodeEntries(r.peers, r.entries), Lossy(facts, minUptime, end - start);
    if r.mask == [] {
      MaskIsEmpty(facts, minUptime, r.peers, r.mask);
      forall p
        ensures p in known <==> p in lossy
        ensures p in known ==> known[p] == lossy[p]
      {
        assert !HasBit(facts, minUptime, p);
      }
      assert known == lossy;
    } else {
      var all := DecodeBits(r.peers, r.mask, end - start, known, 8 * |r.mask|);
      forall p
        ensures p in all <==> p in lossy
        ensures p in all ==> all[p] == lossy[p]
      {
        BitsMean(r.peers, r.mask, end - start, known, 8 * |r.mask|, p);
        BitPairs(facts, minUptime, start, end, threshold, r, p);
      }
      assert all == lossy;
      MaskSize(facts, minUptime, r.peers, r.mask);
    }
  }

  lemma MaskSize(facts: Flat, minUptime: int, peers: seq<seq<byte>>, mask: seq<bv8>)
    requires IsMask(facts, minUptime, peers, mask) && mask != []
    ensures |mask| == MaskLength(|peers|)
  {
  }

  // The entries decode to exactly the forwarded facts.
  lemma KnownEntries(facts: Flat, minUptime: int, start: int, end: int, threshold: real, r: Response)
    requires IsResponse(facts, minUptime, start, end, threshold, r)
    ensures forall e :: e in r.entries ==> InBounds(e.packed, |r.peers|)
    ensures var known := DecodeEntries(r.peers, r.entries);
      (forall p :: p in known <==> p in facts && TierOf(facts[p], minUptime) == Entry) &&
      (forall p :: p in known ==> known[p] == facts[p])
  {
    assert forall e :: e in r.entries ==> IsEntryOf(facts, minUptime, r.peers, e);
    EntriesMean(facts, minUptime, r.peers, r.entries);
    var known := DecodeEntries(r.peers, r.entries);
    forall p
      ensures p in known <==> p in facts && TierOf(facts[p], minUptime) == Entry
    {
      EntryPairs(facts, minUptime, start, end, threshold, r, p);
    }
  }

  // An empty mask flags nobody: a response with a flagged pair has a peer and so at least one byte.
  lemma MaskIsEmpty(facts: Flat, minUptime: int, peers: seq<seq<byte>>, mask: seq<bv8>)
    requires IsMask(facts, minUptime, peers, mask) && mask == []
    requires forall s :: HasName(peers, s) <==> s in Endpoints(facts.Keys)
    ensures forall p :: !HasBit(facts, minUptime, p)
  {
    if p :| HasBit(facts, minUptime, p) {
      assert p.inPeer in Endpoints(facts.Keys);
      assert HasName(peers, p.inPeer);
      MulMonotone(1, |peers|, |peers|);
    }
  }

  /* Canonical form. */

  // What one trip over the wire leaves is a fixed point of the trip: it keeps keys and tiers.
  lemma LossyIsStable(facts: Flat, minUptime: int, window: int)
    requires AllRelevant(facts, minUptime) && minUptime <= window
    ensures AllRelevant(Lossy(facts, minUptime, window), minUptime)
    ensures forall p :: p in facts ==>
      TierOf(Lossy(facts, minUptime, window)[p], minUptime) == TierOf(facts[p], minUptime)
    ensures Lossy(Lossy(facts, minUptime, window), minUptime, window) == Lossy(facts, minUptime, window)
  {
  }

  // The facts' response is also the response of what is left of them.
  lemma SameResponse(facts: Flat, minUptime: int, start: int, end: int, threshold: real, r: Response)
    requires AllRelevant(facts, minUptime) && minUptime <= end - start
    requires IsResponse(facts, minUptime, start, end, threshold, r)
    ensures IsResponse(Lossy(facts, minUptime, end - start), minUptime, start, end, threshold, r)
  {
    var lossy := Lossy(facts, minUptime, end - start);
    LossyIsStable(facts, minUptime, end - start);
    assert lossy.Keys == facts.Keys;
    forall e
      ensures IsEntryOf(lossy, minUptime, r.peers, e) <==> IsEntryOf(facts, minUptime, r.peers, e)
    {
    }
    forall p
      ensures HasBit(lossy, minUptime, p) <==> HasBit(facts, minUptime, p)
    {
    }
  }

  lemma FactsAreRelevant(f: Flat, minUptime: int)
    requires !Collides(f, minUptime)
    ensures AllRelevant(Facts(f, minUptime), minUptime)
    ensures forall p :: p in Facts(f, minUptime) ==> LowerPair(p) == p
    ensures Endpoints(Facts(f, minUptime).Keys) == PeersNeeded(f, minUptime)
  {
    var facts := Facts(f, minUptime);
    assert facts.Keys == set p | p in f && Relevant(f, minUptime, p) :: LowerPair(p);
    forall p | p in facts
      ensures LowerPair(p) == p
    {
      var q :| q in f && Relevant(f, minUptime, q) && LowerPair(q) == p;
      LowerIsLower(q.inPeer);
      LowerIsLower(q.outPeer);
      LowerIsLower(p.inPeer);
      LowerIsLower(p.outPeer);
    }
  }

  // Relevant facts under lower-case keys are their own facts.
  lemma FactsOfFacts(facts: Flat, minUptime: int)
    requires AllRelevant(facts, minUptime)
    requires forall p :: p in facts ==> LowerPair(p) == p
    ensures !Collides(facts, minUptime) && Facts(facts, minUptime) == facts
  {
    assert forall p :: p in facts ==> Relevant(facts, minUptime, p);
    assert !Collides(facts, minUptime);
    var again := Facts(facts, minUptime);
    forall p
      ensures p in again <==> p in facts
      ensures p in facts ==> again[p] == facts[p]
    {
      if p in facts {
        assert LowerPair(p) == p;
      }
    }
  }

  // What decoding leaves of encodable facts is encodable, under its own keys.
  lemma LossyEncodes(f: Flat, minUptime: int, window: int)
    requires !Collides(f, minUptime) && minUptime <= window
    ensures var d := Lossy(Facts(f, minUptime), minUptime, window);
      !Collides(d, minUptime) && Facts(d, minUptime) == d && PeersNeeded(d, minUptime) == PeersNeeded(f, minUptime)
  {
    var facts := Facts(f, minUptime);
    var d := Lossy(facts, minUptime, window);
    FactsAreRelevant(f, minUptime);
    LossyIsStable(facts, minUptime, window);
    assert d.Keys == facts.Keys;
    FactsOfFacts(d, minUptime);
    FactsAreRelevant(d, minUptime);
  }

  lemma Recoded(facts: Flat, minUptime: int, start: int, end: int, threshold: real, r: Response, r': Response)
    requires minUptime <= end - start && AllRelevant(facts, minUptime)
    requires IsResponse(facts, minUptime, start, end, threshold, r)
    ensures Decoded(r) == Ok(Lossy(facts, minUptime, end - start))
    ensures IsResponse(Lossy(facts, minUptime, end - start), minUptime, start, end, threshold, r') <==> r' == r
  {
    hide IsResponse, Decoded, Lossy, AllRelevant;
    RoundTrip(facts, minUptime, start, end, threshold, r);
    SameResponse(facts, minUptime, start, end, threshold, r);
    var d := Lossy(facts, minUptime, end - start);
    if IsResponse(d, minUptime, start, end, threshold, r') {
      ResponseUnique(d, minUptime, start, end, threshold, r, r');
    }
  }

  // Encode(Decode(Encode(m))) == Encode(m): for a threshold of at most one and a positive window, the
  // decoded map encodes without error, and to the same response.
  lemma CanonicalForm(f: Flat, minUptime: int, start: int, end: int, threshold: real, r: Response, r': Response)
    requires end > start && 0.0 <= threshold <= 1.0 && minUptime == MinQualifyingUptime(threshold, end - start)
    requires Failure(f, minUptime) == None && !Collides(f, minUptime)
    requires IsResponse(Facts(f, minUptime), minUptime, start, end, threshold, r)
    ensures Decoded(r).Ok?
    ensures Failure(Decoded(r).value, minUptime) == None && !Collides(Decoded(r).value, minUptime)
    ensures IsResponse(Facts(Decoded(r).value, minUptime), minUptime, start, end, threshold, r') <==> r' == r
  {
    hide IsResponse, Decoded, MinQualifyingUptime, Collides, Facts, Lossy, PeersNeeded, AllRelevant;
    QualifyingUptime(threshold, end - start, 0);
    FactsAreRelevant(f, minUptime);
    LossyEncodes(f, minUptime, end - start);
    Recoded(Facts(f, minUptime), minUptime, start, end, threshold, r, r');
  }
}
