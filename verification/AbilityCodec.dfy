/**
 The codec itself (EncodeForwardingAbility and DecodeForwardingAbility in
 frdrpc/forwarding_ability_codec.go), with its maps, slices and bitmask filled step by step, proved
 against the wire form. A nested range over the input is taken as one range over its pairs in any
 order, which every nested order is.
 */
module AbilityCodec {
  import opened Wrappers
  import opened Hex
  import opened Bitmask
  import opened AbilityWire
  import opened AbilityLaws
  import StableSort

  /* Peers. */

  // The lower-cased endpoints of the relevant pairs among some pairs.
  ghost function NamesOf(f: Flat, minUptime: int, ps: set<Pair>): set<string> {
    Endpoints(set p | p in ps && Relevant(f, minUptime, p) :: LowerPair(p))
  }

  lemma NamesNext(f: Flat, minUptime: int, ps: set<Pair>, p: Pair)
    ensures NamesOf(f, minUptime, ps + {p}) ==
      if Relevant(f, minUptime, p) then NamesOf(f, minUptime, ps) + {ToLower(p.inPeer), ToLower(p.outPeer)}
      else NamesOf(f, minUptime, ps)
  {
    var before := set q | q in ps && Relevant(f, minUptime, q) :: LowerPair(q);
    var after := set q | q in ps + {p} && Relevant(f, minUptime, q) :: LowerPair(q);
    if Relevant(f, minUptime, p) {
      assert after == before + {LowerPair(p)};
      EndpointsAdd(before, LowerPair(p));
    } else {
      assert after == before;
    }
  }

  lemma EndpointsAdd(ps: set<Pair>, p: Pair)
    ensures Endpoints(ps + {p}) == Endpoints(ps) + {p.inPeer, p.outPeer}
  {
  }

  method CollectPeers(f: Flat, minUptime: int) returns (peerSet: set<string>)
    ensures peerSet == PeersNeeded(f, minUptime)
  {
    peerSet := {};
    ghost var done: set<Pair> := {};
    var left := f.Keys;
    while left != {}
      invariant left <= f.Keys && done == f.Keys - left
      invariant peerSet == NamesOf(f, minUptime, done)
      decreases left
    {
      hide NamesOf;
      var p := NextKey(left);
      NamesNext(f, minUptime, done, p);
      if TierOf(f[p], minUptime) != Absent {
        peerSet := peerSet + {ToLower(p.inPeer), ToLower(p.outPeer)};
      }
      left, done := left - {p}, done + {p};
    }
    assert done == f.Keys;
    assert (set p | p in f && Relevant(f, minUptime, p) :: LowerPair(p))
        == (set p | p in f.Keys && Relevant(f, minUptime, p) :: LowerPair(p));
  }

  // The raw keys of a set of lower-case names, each once.
  ghost predicate RawOf(names: set<string>, raw: seq<seq<byte>>) {
    |raw| == |names| && NoRepeats(raw) && forall x :: x in raw <==> Encode(x) in names
  }

  method DecodePeers(names: set<string>) returns (raw: Option<seq<seq<byte>>>)
    requires forall s :: s in names ==> IsLower(s)
    ensures raw.None? <==> exists s :: s in names && Decode(s).None?
    ensures raw.Some? ==> RawOf(names, raw.value)
  {
    var peers: seq<seq<byte>> := [];
    var left := names;
    while left != {}
      invariant left <= names && RawOf(names - left, peers)
      invariant forall s :: s in names - left ==> Decode(s).Some?
      decreases left
    {
      var s := NextKey(left);
      var b := Decode(s);
      if b.None? {
        return None;
      }
      RawNext(names - left, peers, s, b.value);
      assert names - (left - {s}) == names - left + {s};
      peers := peers + [b.value];
      left := left - {s};
    }
    assert names - left == names;
    raw := Some(peers);
  }

  lemma RawNext(names: set<string>, raw: seq<seq<byte>>, s: string, b: seq<byte>)
    requires RawOf(names, raw) && s !in names && IsLower(s) && Decode(s) == Some(b)
    ensures RawOf(names + {s}, raw + [b])
  {
    EncodeDecode(s);
    assert Encode(b) == s && b !in raw;
    forall x
      ensures x in raw + [b] <==> Encode(x) in names + {s}
    {
      if Encode(x) == s {
        EncodeInjective(x, b);
      }
    }
  }

  lemma LessIsOrder()
    ensures StableSort.Order(Less)
  {
    forall x, y
      ensures Less(x, y) ==> !Less(y, x)
    {
      LessTotal(x, y);
    }
    forall x, y, z | !Less(y, x) && !Less(z, y)
      ensures !Less(z, x)
    {
      LessTotal(x, y);
      LessTotal(y, z);
      LessTotal(x, z);
      if x != y && y != z {
        LessTrans(x, y, z);
      }
    }
  }

  // sort.Slice by bytes.Compare
  function SortPeers(raw: seq<seq<byte>>): (r: seq<seq<byte>>)
    requires NoRepeats(raw)
    ensures SortedPeers(r) && |r| == |raw|
    ensures forall y :: y in r <==> y in raw
  {
    LessIsOrder();
    var r := StableSort.Sort(raw, Less);
    StableSort.NoRepeatsPermuted(raw, r);
    PeersInOrder(r);
    r
  }

  lemma PeersInOrder(r: seq<seq<byte>>)
    requires StableSort.Sorted(r, Less) && NoRepeats(r)
    ensures SortedPeers(r)
  {
    forall i, j | 0 <= i < j < |r|
      ensures Less(r[i], r[j])
    {
      LessTotal(r[i], r[j]);
    }
  }

  // The position of every name.
  ghost predicate IsIndex(index: map<string, nat>, peers: seq<seq<byte>>) {
    (forall i :: 0 <= i < |peers| ==> NameAt(peers, i) in index && index[NameAt(peers, i)] == i) &&
    (forall s :: s in index ==> index[s] < |peers| && NameAt(peers, index[s]) == s)
  }

  method IndexPeers(peers: seq<seq<byte>>) returns (index: map<string, nat>)
    requires SortedPeers(peers)
    ensures IsIndex(index, peers)
  {
    index := map[];
    for k := 0 to |peers|
      invariant forall i :: 0 <= i < k ==> NameAt(peers, i) in index && index[NameAt(peers, i)] == i
      invariant forall s :: s in index ==> index[s] < k && NameAt(peers, index[s]) == s
    {
      forall i | 0 <= i < k
        ensures NameAt(peers, i) != NameAt(peers, k)
      {
        if NameAt(peers, i) == NameAt(peers, k) {
          NameInjective(peers, i, k);
        }
      }
      index := index[NameAt(peers, k) := k];
    }
  }

  /* Entries and bits. */

  // The index knows both endpoints of every relevant pair.
  ghost predicate Indexed(f: Flat, minUptime: int, index: map<string, nat>) {
    forall p :: Relevant(f, minUptime, p) ==> ToLower(p.inPeer) in index && ToLower(p.outPeer) in index
  }

  function PackedOf(index: map<string, nat>, p: Pair): nat
    requires ToLower(p.inPeer) in index && ToLower(p.outPeer) in index
  {
    Pack(index[ToLower(p.inPeer)], index[ToLower(p.outPeer)])
  }

  function BitOf(index: map<string, nat>, n: nat, p: Pair): nat
    requires ToLower(p.inPeer) in index && ToLower(p.outPeer) in index
  {
    index[ToLower(p.inPeer)] * n + index[ToLower(p.outPeer)]
  }

  // The pairs written so far.
  ghost predicate Written(f: Flat, minUptime: int, index: map<string, nat>, done: set<Pair>) {
    Indexed(f, minUptime, index) && forall p :: p in done ==> Relevant(f, minUptime, p)
  }

  ghost predicate SeenBy(f: Flat, minUptime: int, index: map<string, nat>, done: set<Pair>, seen: set<nat>)
    requires Written(f, minUptime, index, done)
  {
    (forall x :: x in seen <==> exists p :: p in done && PackedOf(index, p) == x) &&
    (forall p, q :: p in done && q in done && PackedOf(index, p) == PackedOf(index, q) ==> p == q)
  }

  ghost predicate IsEntryFor(f: Flat, minUptime: int, index: map<string, nat>, done: set<Pair>, e: WireEntry)
    requires Written(f, minUptime, index, done)
  {
    exists p :: p in done && TierOf(f[p], minUptime) == Entry &&
      e == WireEntry(PackedOf(index, p), f[p].uptime, f[p].forwarded)
  }

  ghost predicate EntriesFor(f: Flat, minUptime: int, index: map<string, nat>, done: set<Pair>, es: seq<WireEntry>)
    requires Written(f, minUptime, index, done)
  {
    (forall e :: e in es <==> IsEntryFor(f, minUptime, index, done, e)) &&
    (forall i, j :: 0 <= i < j < |es| ==> es[i].packed != es[j].packed)
  }

  ghost predicate IsBitFor(f: Flat, minUptime: int, index: map<string, nat>, n: nat, done: set<Pair>, k: nat)
    requires Written(f, minUptime, index, done)
  {
    exists p :: p in done && TierOf(f[p], minUptime) == Bit && BitOf(index, n, p) == k
  }

  // The mask, present with the first bit.
  ghost predicate MaskFor(f: Flat, minUptime: int, index: map<string, nat>, n: nat, done: set<Pair>,
                          present: bool, mask: seq<bv8>)
    requires Written(f, minUptime, index, done)
  {
    (present <==> exists p :: p in done && TierOf(f[p], minUptime) == Bit) &&
    (present ==> |mask| == MaskLength(n)) &&
    (present ==> forall k: nat :: k < 8 * |mask| ==> (GetBit(mask, k) <==> IsBitFor(f, minUptime, index, n, done, k)))
  }

  lemma EntriesNext(f: Flat, minUptime: int, index: map<string, nat>, done: set<Pair>, seen: set<nat>,
                    es: seq<WireEntry>, p: Pair)
    requires Written(f, minUptime, index, done) && Relevant(f, minUptime, p)
    requires SeenBy(f, minUptime, index, done, seen) && EntriesFor(f, minUptime, index, done, es)
    requires PackedOf(index, p) !in seen
    ensures Written(f, minUptime, index, done + {p})
    ensures SeenBy(f, minUptime, index, done + {p}, seen + {PackedOf(index, p)})
    ensures EntriesFor(f, minUptime, index, done + {p},
      if TierOf(f[p], minUptime) == Entry then es + [WireEntry(PackedOf(index, p), f[p].uptime, f[p].forwarded)] else es)
  {
    var done' := done + {p};
    var e' := WireEntry(PackedOf(index, p), f[p].uptime, f[p].forwarded);
    forall e
      ensures IsEntryFor(f, minUptime, index, done', e) <==>
        IsEntryFor(f, minUptime, index, done, e) || (TierOf(f[p], minUptime) == Entry && e == e')
    {
      if TierOf(f[p], minUptime) == Entry && e == e' {
        assert p in done';
      }
    }
    forall i | 0 <= i < |es|
      ensures es[i].packed != PackedOf(index, p)
    {
      assert es[i] in es;
    }
  }

  lemma MaskNext(f: Flat, minUptime: int, index: map<string, nat>, n: nat, done: set<Pair>,
                 before: seq<bv8>, after: seq<bv8>, present: bool, p: Pair)
    requires Written(f, minUptime, index, done) && Relevant(f, minUptime, p) && TierOf(f[p], minUptime) == Bit
    requires MaskFor(f, minUptime, index, n, done, present, before)
    requires |after| == MaskLength(n)
    requires forall k: nat :: k < 8 * |after| ==>
      (GetBit(after, k) <==> k == BitOf(index, n, p) || (present && GetBit(before, k)))
    ensures Written(f, minUptime, index, done + {p}) && MaskFor(f, minUptime, index, n, done + {p}, true, after)
  {
    var done' := done + {p};
    assert p in done';
    forall k: nat
      ensures IsBitFor(f, minUptime, index, n, done', k) <==> IsBitFor(f, minUptime, index, n, done, k) || k == BitOf(index, n, p)
    {
      if k == BitOf(index, n, p) {
        assert p in done';
      }
    }
    if !present {
      assert forall k: nat :: !IsBitFor(f, minUptime, index, n, done, k);
    }
  }

  lemma MaskSame(f: Flat, minUptime: int, index: map<string, nat>, n: nat, done: set<Pair>,
                 mask: seq<bv8>, present: bool, p: Pair)
    requires Written(f, minUptime, index, done) && Relevant(f, minUptime, p) && TierOf(f[p], minUptime) != Bit
    requires MaskFor(f, minUptime, index, n, done, present, mask)
    ensures Written(f, minUptime, index, done + {p}) && MaskFor(f, minUptime, index, n, done + {p}, present, mask)
  {
    forall k: nat
      ensures IsBitFor(f, minUptime, index, n, done + {p}, k) <==> IsBitFor(f, minUptime, index, n, done, k)
    {
    }
  }

  /* From what was written to the response. */

  // Index, peers and packing agree: a packed pair names the lower-cased pair it came from.
  lemma PackedNames(f: Flat, minUptime: int, index: map<string, nat>, peers: seq<seq<byte>>, p: Pair)
    requires Indexed(f, minUptime, index) && IsIndex(index, peers) && |peers| <= MAX_PACKED_PEERS
    requires Relevant(f, minUptime, p)
    ensures InBounds(PackedOf(index, p), |peers|) && PairOf(peers, PackedOf(index, p)) == LowerPair(p)
    ensures BitOf(index, |peers|, p) < |peers| * |peers| && PairAtBit(peers, BitOf(index, |peers|, p)) == LowerPair(p)
    ensures BitOf(index, |peers|, p) / 8 < MaskLength(|peers|)
  {
    var i, j := index[ToLower(p.inPeer)], index[ToLower(p.outPeer)];
    PackInverse(i, j);
    BitInverse(|peers|, i, j);
  }

  // Two pairs pack alike exactly when they differ at most by hex case.
  lemma PackedAlike(f: Flat, minUptime: int, index: map<string, nat>, peers: seq<seq<byte>>, p: Pair, q: Pair)
    requires Indexed(f, minUptime, index) && IsIndex(index, peers) && |peers| <= MAX_PACKED_PEERS
    requires Relevant(f, minUptime, p) && Relevant(f, minUptime, q)
    ensures PackedOf(index, p) == PackedOf(index, q) <==> LowerPair(p) == LowerPair(q)
  {
    PackedNames(f, minUptime, index, peers, p);
    PackedNames(f, minUptime, index, peers, q);
  }

  lemma DuplicateCollides(f: Flat, minUptime: int, index: map<string, nat>, peers: seq<seq<byte>>,
                          done: set<Pair>, seen: set<nat>, p: Pair)
    requires Written(f, minUptime, index, done) && SeenBy(f, minUptime, index, done, seen)
    requires IsIndex(index, peers) && |peers| <= MAX_PACKED_PEERS
    requires Relevant(f, minUptime, p) && p !in done && PackedOf(index, p) in seen
    ensures Collides(f, minUptime)
  {
    var q :| q in done && PackedOf(index, q) == PackedOf(index, p);
    PackedAlike(f, minUptime, index, peers, p, q);
  }

  ghost predicate AllDone(f: Flat, minUptime: int, done: set<Pair>) {
    forall p :: p in done <==> Relevant(f, minUptime, p)
  }

  lemma NoCollision(f: Flat, minUptime: int, index: map<string, nat>, peers: seq<seq<byte>>, done: set<Pair>, seen: set<nat>)
    requires Written(f, minUptime, index, done) && SeenBy(f, minUptime, index, done, seen)
    requires IsIndex(index, peers) && |peers| <= MAX_PACKED_PEERS && AllDone(f, minUptime, done)
    ensures !Collides(f, minUptime)
  {
    forall p, q | Relevant(f, minUptime, p) && Relevant(f, minUptime, q) && LowerPair(p) == LowerPair(q)
      ensures p == q
    {
      PackedAlike(f, minUptime, index, peers, p, q);
    }
  }

  lemma FactOf(f: Flat, minUptime: int, p: Pair)
    requires !Collides(f, minUptime) && Relevant(f, minUptime, p)
    ensures LowerPair(p) in Facts(f, minUptime) && Facts(f, minUptime)[LowerPair(p)] == f[p]
  {
  }

  lemma FactFrom(f: Flat, minUptime: int, lp: Pair) returns (p: Pair)
    requires !Collides(f, minUptime) && lp in Facts(f, minUptime)
    ensures Relevant(f, minUptime, p) && LowerPair(p) == lp && Facts(f, minUptime)[lp] == f[p]
  {
    p :| p in f && Relevant(f, minUptime, p) && LowerPair(p) == lp;
    FactOf(f, minUptime, p);
  }

  lemma EntryWritten(f: Flat, minUptime: int, index: map<string, nat>, peers: seq<seq<byte>>, done: set<Pair>, e: WireEntry)
    requires Written(f, minUptime, index, done) && AllDone(f, minUptime, done) && !Collides(f, minUptime)
    requires IsIndex(index, peers) && |peers| <= MAX_PACKED_PEERS
    ensures IsEntryFor(f, minUptime, index, done, e) <==> IsEntryOf(Facts(f, minUptime), minUptime, peers, e)
  {
    hide Facts, Collides;
    if IsEntryFor(f, minUptime, index, done, e) {
      var p :| p in done && TierOf(f[p], minUptime) == Entry &&
        e == WireEntry(PackedOf(index, p), f[p].uptime, f[p].forwarded);
      PackedNames(f, minUptime, index, peers, p);
      FactOf(f, minUptime, p);
    }
    if IsEntryOf(Facts(f, minUptime), minUptime, peers, e) {
      var p := FactFrom(f, minUptime, PairOf(peers, e.packed));
      assert index[ToLower(p.inPeer)] == e.packed / 0x1_0000 && index[ToLower(p.outPeer)] == e.packed % 0x1_0000;
      assert PackedOf(index, p) == e.packed;
    }
  }

  lemma BitAtPosition(f: Flat, minUptime: int, index: map<string, nat>, peers: seq<seq<byte>>, done: set<Pair>, i: nat, j: nat, k: nat)
    requires Written(f, minUptime, index, done) && AllDone(f, minUptime, done) && !Collides(f, minUptime)
    requires IsIndex(index, peers) && i < |peers| && j < |peers|
    requires HasBit(Facts(f, minUptime), minUptime, PairAt(peers, i, j)) && k == i * |peers| + j
    ensures IsBitFor(f, minUptime, index, |peers|, done, k)
  {
    hide Facts, Collides;
    var p := FactFrom(f, minUptime, PairAt(peers, i, j));
    assert index[ToLower(p.inPeer)] == i && index[ToLower(p.outPeer)] == j;
  }

  lemma BitPair(peers: seq<seq<byte>>, k: nat)
    requires k < |peers| * |peers|
    ensures var n := |peers|;
      n > 0 && k / n < n && k % n < n && k == (k / n) * n + k % n && PairAtBit(peers, k) == PairAt(peers, k / n, k % n)
  {
    BitIndices(|peers|, k);
  }

  lemma BitFromFact(f: Flat, minUptime: int, index: map<string, nat>, peers: seq<seq<byte>>, done: set<Pair>, k: nat)
    requires Written(f, minUptime, index, done) && AllDone(f, minUptime, done) && !Collides(f, minUptime)
    requires IsIndex(index, peers) && |peers| <= MAX_PACKED_PEERS
    requires k < |peers| * |peers| && HasBit(Facts(f, minUptime), minUptime, PairAtBit(peers, k))
    ensures IsBitFor(f, minUptime, index, |peers|, done, k)
  {
    hide Facts, Collides, IsIndex, HasBit, IsBitFor, Written, AllDone, PairAt, PairAtBit;
    BitPair(peers, k);
    BitAtPosition(f, minUptime, index, peers, done, k / |peers|, k % |peers|, k);
  }

  lemma BitWritten(f: Flat, minUptime: int, index: map<string, nat>, peers: seq<seq<byte>>, done: set<Pair>, k: nat)
    requires Written(f, minUptime, index, done) && AllDone(f, minUptime, done) && !Collides(f, minUptime)
    requires IsIndex(index, peers) && |peers| <= MAX_PACKED_PEERS
    ensures IsBitFor(f, minUptime, index, |peers|, done, k)
       <==> k < |peers| * |peers| && HasBit(Facts(f, minUptime), minUptime, PairAtBit(peers, k))
  {
    hide Facts, Collides, IsIndex, PairAtBit, BitOf;
    if IsBitFor(f, minUptime, index, |peers|, done, k) {
      var p :| p in done && TierOf(f[p], minUptime) == Bit && BitOf(index, |peers|, p) == k;
      PackedNames(f, minUptime, index, peers, p);
      FactOf(f, minUptime, p);
    }
    if k < |peers| * |peers| && HasBit(Facts(f, minUptime), minUptime, PairAtBit(peers, k)) {
      BitFromFact(f, minUptime, index, peers, done, k);
    }
  }

  lemma MaskWritten(f: Flat, minUptime: int, index: map<string, nat>, peers: seq<seq<byte>>, done: set<Pair>,
                    present: bool, mask: seq<bv8>)
    requires Written(f, minUptime, index, done) && AllDone(f, minUptime, done) && !Collides(f, minUptime)
    requires IsIndex(index, peers) && |peers| <= MAX_PACKED_PEERS
    requires MaskFor(f, minUptime, index, |peers|, done, present, mask)
    ensures IsMask(Facts(f, minUptime), minUptime, peers, if present then mask else [])
  {
    hide Facts, Collides, GetBit, IsBitFor;
    if present {
      var p :| p in done && TierOf(f[p], minUptime) == Bit;
      FactOf(f, minUptime, p);
      assert HasBit(Facts(f, minUptime), minUptime, LowerPair(p));
      forall k: nat | k < 8 * |mask|
        ensures GetBit(mask, k) <==> k < |peers| * |peers| && HasBit(Facts(f, minUptime), minUptime, PairAtBit(peers, k))
      {
        BitWritten(f, minUptime, index, peers, done, k);
      }
    } else if lp :| HasBit(Facts(f, minUptime), minUptime, lp) {
      var p := FactFrom(f, minUptime, lp);
    }
  }

  predicate LowerIndex(e: WireEntry, f: WireEntry) {
    e.packed < f.packed
  }

  lemma LowerIndexIsOrder()
    ensures StableSort.Order(LowerIndex)
  {
  }

  // sort.Slice by packed index
  function SortEntries(es: seq<WireEntry>): (r: seq<WireEntry>)
    requires forall i, j :: 0 <= i < j < |es| ==> es[i].packed != es[j].packed
    ensures SortedEntries(r) && forall e :: e in r <==> e in es
  {
    LowerIndexIsOrder();
    var r := StableSort.Sort(es, LowerIndex);
    StableSort.NoRepeatsPermuted(es, r);
    EntriesInOrder(es, r);
    r
  }

  lemma EntriesInOrder(es: seq<WireEntry>, r: seq<WireEntry>)
    requires forall i, j :: 0 <= i < j < |es| ==> es[i].packed != es[j].packed
    requires StableSort.Sorted(r, LowerIndex) && NoRepeats(r) && forall e :: e in r <==> e in es
    ensures SortedEntries(r)
  {
    forall i, j | 0 <= i < j < |r|
      ensures r[i].packed < r[j].packed
    {
      assert !LowerIndex(r[j], r[i]);
      assert r[i] in es && r[j] in es;
    }
  }

  // The peers of a response are the endpoints of its facts.
  lemma PeersWritten(f: Flat, minUptime: int, peers: seq<seq<byte>>)
    requires !Collides(f, minUptime)
    requires forall x :: x in peers <==> Encode(x) in PeersNeeded(f, minUptime)
    requires forall s :: s in PeersNeeded(f, minUptime) ==> Decode(s).Some?
    ensures forall s :: HasName(peers, s) <==> s in Endpoints(Facts(f, minUptime).Keys)
  {
    FactsAreRelevant(f, minUptime);
    hide Facts, Collides, PeersNeeded;
    forall s
      ensures HasName(peers, s) <==> s in PeersNeeded(f, minUptime)
    {
      if s in PeersNeeded(f, minUptime) {
        NeededIsLower(f, minUptime, s);
        EncodeDecode(s);
        var x := Decode(s).value;
        assert x in peers;
        var i :| 0 <= i < |peers| && peers[i] == x;
        assert NameAt(peers, i) == s;
      }
      if HasName(peers, s) {
        var i :| 0 <= i < |peers| && NameAt(peers, i) == s;
        assert peers[i] in peers;
      }
    }
  }

  lemma NeededIsLower(f: Flat, minUptime: int, s: string)
    requires s in PeersNeeded(f, minUptime)
    ensures IsLower(s)
  {
    var p :| p in f && Relevant(f, minUptime, p) && (s == ToLower(p.inPeer) || s == ToLower(p.outPeer));
    LowerIsLower(p.inPeer);
    LowerIsLower(p.outPeer);
  }

  /* Encoding. */

  // The pairs of f that have been looked at.
  ghost predicate Looked(f: Flat, minUptime: int, left: set<Pair>, done: set<Pair>) {
    left <= f.Keys && forall p :: p in done <==> p !in left && Relevant(f, minUptime, p)
  }

  // The loop that fills entries and bitmask; None is a pair repeated up to hex case.
  method WritePairs(f: Flat, minUptime: int, index: map<string, nat>, peers: seq<seq<byte>>)
    returns (r: Option<(seq<WireEntry>, seq<bv8>)>)
    requires Indexed(f, minUptime, index) && IsIndex(index, peers) && |peers| <= MAX_PACKED_PEERS
    ensures r.None? <==> Collides(f, minUptime)
    ensures r.Some? ==> SortedEntries(r.value.0)
    ensures r.Some? ==> forall e :: e in r.value.0 <==> IsEntryOf(Facts(f, minUptime), minUptime, peers, e)
    ensures r.Some? ==> IsMask(Facts(f, minUptime), minUptime, peers, r.value.1)
  {
    var n := |peers|;
    var entries: seq<WireEntry> := [];
    var seen: set<nat> := {};
    var bitmask: array?<bv8> := null;
    var left := f.Keys;
    ghost var done: set<Pair> := {};
    ghost var bits: seq<bv8> := [];
    while left != {}
      invariant Looked(f, minUptime, left, done) && Written(f, minUptime, index, done)
      invariant SeenBy(f, minUptime, index, done, seen) && EntriesFor(f, minUptime, index, done, entries)
      invariant bitmask != null ==> fresh(bitmask) && bitmask[..] == bits
      invariant MaskFor(f, minUptime, index, n, done, bitmask != null, bits)
      decreases left
    {
      hide Written, SeenBy, EntriesFor, MaskFor, GetBit, Indexed, IsIndex, Collides, Facts, IsMask, IsEntryOf;
      var p := NextKey(left);
      left := left - {p};
      var tier := TierOf(f[p], minUptime);
      if tier != Absent {
        IndexedPair(f, minUptime, index, p);
        var packed := PackedOf(index, p);
        if packed in seen {
          DuplicateCollides(f, minUptime, index, peers, done, seen, p);
          return None;
        }
        EntriesNext(f, minUptime, index, done, seen, entries, p);
        PackedNames(f, minUptime, index, peers, p);
        seen := seen + {packed};
        if tier == Entry {
          MaskSame(f, minUptime, index, n, done, bits, bitmask != null, p);
          entries := entries + [WireEntry(packed, f[p].uptime, f[p].forwarded)];
        } else {
          bitmask := FlagBit(f, minUptime, index, n, done, bitmask, p);
          bits := bitmask[..];
        }
        done := done + {p};
      }
    }
    assert AllDone(f, minUptime, done);
    NoCollision(f, minUptime, index, peers, done, seen);
    forall e
      ensures IsEntryFor(f, minUptime, index, done, e) <==> IsEntryOf(Facts(f, minUptime), minUptime, peers, e)
    {
      EntryWritten(f, minUptime, index, peers, done, e);
    }
    MaskWritten(f, minUptime, index, peers, done, bitmask != null, bits);
    r := Some((SortEntries(entries), if bitmask == null then [] else bitmask[..]));
  }

  lemma IndexedPair(f: Flat, minUptime: int, index: map<string, nat>, p: Pair)
    requires Indexed(f, minUptime, index) && Relevant(f, minUptime, p)
    ensures ToLower(p.inPeer) in index && ToLower(p.outPeer) in index
  {
  }

  // The bitmask is allocated with the first bit and updated in place.
  method FlagBit(f: Flat, minUptime: int, index: map<string, nat>, n: nat, ghost done: set<Pair>,
                 bitmask0: array?<bv8>, p: Pair)
    returns (bitmask: array<bv8>)
    requires Written(f, minUptime, index, done) && Relevant(f, minUptime, p) && TierOf(f[p], minUptime) == Bit
    requires MaskFor(f, minUptime, index, n, done, bitmask0 != null, if bitmask0 == null then [] else bitmask0[..])
    requires BitOf(index, n, p) / 8 < MaskLength(n)
    modifies bitmask0
    ensures bitmask0 == null ==> fresh(bitmask)
    ensures bitmask0 != null ==> bitmask == bitmask0
    ensures Written(f, minUptime, index, done + {p})
    ensures MaskFor(f, minUptime, index, n, done + {p}, true, bitmask[..])
  {
    ghost var before := if bitmask0 == null then [] else bitmask0[..];
    if bitmask0 == null {
      bitmask := new bv8[MaskLength(n)](_ => 0);
    } else {
      bitmask := bitmask0;
    }
    assert bitmask.Length == MaskLength(n);
    SetBit(bitmask, BitOf(index, n, p));
    MaskNext(f, minUptime, index, n, done, before, bitmask[..], bitmask0 != null, p);
  }

  // EncodeForwardingAbility: it fails exactly as Failure says, and otherwise returns the one response
  // of the input's facts.
  method EncodeForwardingAbility(abilities: Nested, start: int, end: int, threshold: real)
    returns (r: Result<Response, CodecError>)
    ensures var f, m := Flatten(abilities), MinQualifyingUptime(threshold, end - start);
      (r.Err? <==> Failure(f, m).Some?) &&
      (r.Err? ==> Failure(f, m) == Some(r.error)) &&
      (r.Ok? ==> !Collides(f, m) && IsResponse(Facts(f, m), m, start, end, threshold, r.value))
  {
    var minUptime := MinQualifyingUptime(threshold, end - start);
    var f := Flatten(abilities);
    hide MinQualifyingUptime, Collides, Facts, PeersNeeded, IsMask, IsEntryOf;
    var peerSet := CollectPeers(f, minUptime);
    forall s | s in peerSet
      ensures IsLower(s)
    {
      NeededIsLower(f, minUptime, s);
    }
    var raw := DecodePeers(peerSet);
    if raw.None? {
      return Err(BadHex);
    }
    var rawPeers := SortPeers(raw.value);
    if |rawPeers| > MAX_PACKED_PEERS {
      return Err(TooManyPeers);
    }
    var peerIndex := IndexPeers(rawPeers);
    AllIndexed(f, minUptime, rawPeers, peerIndex);
    var written := WritePairs(f, minUptime, peerIndex, rawPeers);
    if written.None? {
      return Err(DuplicatePair);
    }
    PeersWritten(f, minUptime, rawPeers);
    r := Ok(Response(rawPeers, written.value.0, start, end, written.value.1, threshold));
  }

  lemma AllIndexed(f: Flat, minUptime: int, peers: seq<seq<byte>>, index: map<string, nat>)
    requires IsIndex(index, peers)
    requires forall x :: x in peers <==> Encode(x) in PeersNeeded(f, minUptime)
    requires forall s :: s in PeersNeeded(f, minUptime) ==> Decode(s).Some?
    ensures Indexed(f, minUptime, index)
  {
    forall p | Relevant(f, minUptime, p)
      ensures ToLower(p.inPeer) in index && ToLower(p.outPeer) in index
    {
      assert LowerPair(p) in set q | q in f && Relevant(f, minUptime, q) :: LowerPair(q);
      NameIndexed(f, minUptime, peers, index, ToLower(p.inPeer));
      NameIndexed(f, minUptime, peers, index, ToLower(p.outPeer));
    }
  }

  lemma NameIndexed(f: Flat, minUptime: int, peers: seq<seq<byte>>, index: map<string, nat>, s: string)
    requires IsIndex(index, peers) && s in PeersNeeded(f, minUptime) && Decode(s).Some?
    requires forall x :: x in peers <==> Encode(x) in PeersNeeded(f, minUptime)
    ensures s in index
  {
    NeededIsLower(f, minUptime, s);
    EncodeDecode(s);
    var x := Decode(s).value;
    assert x in peers;
    var i :| 0 <= i < |peers| && peers[i] == x;
    assert NameAt(peers, i) == s;
  }

  /* Decoding. */

  // record: the inner map is created on first use.
  function Recorded(m: Nested, p: Pair, a: Ability): Nested {
    m[p.inPeer := (if p.inPeer in m then m[p.inPeer] else map[])[p.outPeer := a]]
  }

  // No peer is listed without a partner, so the nested map is determined by its pairs.
  predicate NoEmpty(m: Nested) {
    forall a :: a in m ==> m[a] != map[]
  }

  lemma RecordedFlat(m: Nested, p: Pair, a: Ability)
    requires NoEmpty(m)
    ensures Flatten(Recorded(m, p, a)) == Flatten(m)[p := a] && NoEmpty(Recorded(m, p, a))
  {
    RecordedNotEmpty(m, p, a);
    var after, expected := Flatten(Recorded(m, p, a)), Flatten(m)[p := a];
    forall q
      ensures q in after <==> q in expected
      ensures q in after ==> after[q] == expected[q]
    {
      hide Flatten, Recorded;
      RecordedAt(m, p, a, q);
    }
  }

  lemma RecordedAt(m: Nested, p: Pair, a: Ability, q: Pair)
    ensures var after := Flatten(Recorded(m, p, a));
      (q in after <==> q == p || q in Flatten(m)) &&
      (q in after ==> after[q] == if q == p then a else Flatten(m)[q])
  {
    assert q == Pair(q.inPeer, q.outPeer) && p == Pair(p.inPeer, p.outPeer);
  }

  lemma RecordedNotEmpty(m: Nested, p: Pair, a: Ability)
    requires NoEmpty(m)
    ensures NoEmpty(Recorded(m, p, a))
  {
    assert p.outPeer in Recorded(m, p, a)[p.inPeer];
  }

  lemma NestedByPairs(m: Nested, m': Nested)
    requires NoEmpty(m) && NoEmpty(m') && Flatten(m) == Flatten(m')
    ensures m == m'
  {
    SamePeers(m, m');
    SamePeers(m', m);
    forall a | a in m
      ensures m[a] == m'[a]
    {
      forall b
        ensures b in m[a] <==> b in m'[a]
        ensures b in m[a] ==> m[a][b] == m'[a][b]
      {
        assert Pair(a, b) in Flatten(m) <==> b in m[a];
        assert Pair(a, b) in Flatten(m') <==> b in m'[a];
        if b in m[a] {
          assert Flatten(m)[Pair(a, b)] == m[a][b] && Flatten(m')[Pair(a, b)] == m'[a][b];
        }
      }
    }
  }

  lemma SamePeers(m: Nested, m': Nested)
    requires NoEmpty(m) && Flatten(m) == Flatten(m')
    ensures m.Keys <= m'.Keys
  {
    forall a | a in m
      ensures a in m'
    {
      var b := Pick(m[a].Keys);
      assert Pair(a, b) in Flatten(m);
    }
  }

  // Bits that are off, or beyond the last pair, decode to nothing.
  lemma {:induction false} SkipBits(peers: seq<seq<byte>>, mask: seq<bv8>, window: int, known: Flat, k: nat, k': nat)
    requires k <= k' <= 8 * |mask|
    requires forall j: nat :: k <= j < k' ==> j >= |peers| * |peers| || !GetBit(mask, j)
    ensures DecodeBits(peers, mask, window, known, k') == DecodeBits(peers, mask, window, known, k)
    decreases k'
  {
    if k < k' {
      SkipBits(peers, mask, window, known, k, k' - 1);
    }
  }

  lemma ZeroByte(mask: seq<bv8>, i: nat)
    requires i < |mask| && mask[i] == 0
    ensures forall j: nat :: 8 * i <= j < 8 * i + 8 ==> !GetBit(mask, j)
  {
    forall j: nat | 8 * i <= j < 8 * i + 8
      ensures !GetBit(mask, j)
    {
      assert j / 8 == i;
    }
  }

  lemma NoBits(peers: seq<seq<byte>>, mask: seq<bv8>, window: int, known: Flat)
    ensures DecodeBits(peers, mask, window, known, 0) == known
  {
  }

  lemma NoPairs()
    ensures Flatten(map[]) == map[] && NoEmpty(map[])
  {
  }

  lemma NextBit(peers: seq<seq<byte>>, mask: seq<bv8>, window: int, known: Flat, k: nat)
    requires k < 8 * |mask|
    ensures var before := DecodeBits(peers, mask, window, known, k);
      DecodeBits(peers, mask, window, known, k + 1) ==
        if k < |peers| * |peers| && GetBit(mask, k) && PairAtBit(peers, k) !in before
        then before[PairAtBit(peers, k) := Ability(window, 0)]
        else before
  {
  }

  // The eight bits of one byte.
  method DecodeByte(peers: seq<seq<byte>>, mask: seq<bv8>, window: int, i: nat, result0: Nested, ghost known: Flat)
    returns (result: Nested)
    requires i < |mask| && NoEmpty(result0)
    requires Flatten(result0) == DecodeBits(peers, mask, window, known, 8 * i)
    ensures NoEmpty(result)
    ensures Flatten(result) == DecodeBits(peers, mask, window, known, 8 * i + 8)
  {
    hide NoEmpty, GetBit, PairAtBit, DecodeBits, Flatten, Recorded;
    result := result0;
    var totalPairs := |peers| * |peers|;
    for bit := 0 to 8
      invariant NoEmpty(result)
      invariant Flatten(result) == DecodeBits(peers, mask, window, known, 8 * i + bit)
    {
      var k := i * 8 + bit;
      BitInByte(|mask|, i, bit);
      NextBit(peers, mask, window, known, k);
      if !GetBit(mask, k) {
        continue;
      }
      if k >= totalPairs {
        SkipBits(peers, mask, window, known, k, 8 * i + 8);
        break;
      }
      var p := PairAtBit(peers, k);
      FlattenHas(result, p);
      if p.inPeer in result && p.outPeer in result[p.inPeer] {
        continue;
      }
      RecordedFlat(result, p, Ability(window, 0));
      result := Recorded(result, p, Ability(window, 0));
    }
  }

  lemma BitInByte(length: nat, i: nat, bit: nat)
    requires i < length && bit < 8
    ensures (i * 8 + bit) / 8 < length && i * 8 + bit < 8 * length
  {
  }

  lemma FlattenHas(m: Nested, p: Pair)
    ensures p in Flatten(m) <==> p.inPeer in m && p.outPeer in m[p.inPeer]
    ensures p in Flatten(m) ==> Flatten(m)[p] == m[p.inPeer][p.outPeer]
  {
    assert p == Pair(p.inPeer, p.outPeer);
  }

  method DecodeMask(peers: seq<seq<byte>>, mask: seq<bv8>, window: int, result0: Nested) returns (result: Nested)
    requires NoEmpty(result0)
    ensures NoEmpty(result)
    ensures Flatten(result) == DecodeBits(peers, mask, window, Flatten(result0), 8 * |mask|)
  {
    hide GetBit, NoEmpty, Flatten, DecodeBits;
    ghost var known := Flatten(result0);
    NoBits(peers, mask, window, known);
    result := result0;
    for i := 0 to |mask|
      invariant NoEmpty(result)
      invariant Flatten(result) == DecodeBits(peers, mask, window, known, 8 * i)
    {
      if mask[i] == 0 {
        ZeroByte(mask, i);
        SkipBits(peers, mask, window, known, 8 * i, 8 * i + 8);
        continue;
      }
      result := DecodeByte(peers, mask, window, i, result, known);
    }
  }

  method DecodeWireEntries(peers: seq<seq<byte>>, entries: seq<WireEntry>) returns (r: Option<Nested>)
    ensures r.None? <==> exists e :: e in entries && !InBounds(e.packed, |peers|)
    ensures r.Some? ==> NoEmpty(r.value) && Flatten(r.value) == DecodeEntries(peers, entries)
  {
    hide Flatten, Recorded, NoEmpty;
    NoPairs();
    var result: Nested := map[];
    for k := 0 to |entries|
      invariant forall e :: e in entries[..k] ==> InBounds(e.packed, |peers|)
      invariant NoEmpty(result) && Flatten(result) == DecodeEntries(peers, entries[..k])
    {
      var e := entries[k];
      assert entries[..k + 1] == entries[..k] + [e] && entries[..k + 1][..k] == entries[..k];
      var inIdx, outIdx := e.packed / 0x1_0000, e.packed % 0x1_0000;
      if inIdx >= |peers| || outIdx >= |peers| {
        assert e in entries && !InBounds(e.packed, |peers|);
        return None;
      }
      var p := PairAt(peers, inIdx, outIdx);
      RecordedFlat(result, p, Ability(e.uptime, e.forwarded));
      result := Recorded(result, p, Ability(e.uptime, e.forwarded));
    }
    assert entries[..|entries|] == entries;
    r := Some(result);
  }

  // DecodeForwardingAbility: for any response, well-formed or not, the pairs it decodes to or the
  // reason it is refused.
  method DecodeForwardingAbility(resp: Option<Response>) returns (d: Result<Nested, CodecError>)
    ensures resp.None? ==> d == Ok(map[])
    ensures resp.Some? ==> (d.Err? <==> Decoded(resp.value).Err?)
    ensures resp.Some? && d.Err? ==> d.error == Decoded(resp.value).error
    ensures resp.Some? && d.Ok? ==> Flatten(d.value) == Decoded(resp.value).value && NoEmpty(d.value)
  {
    hide Flatten, NoEmpty, DecodeBits, DecodeEntries, InBounds;
    if resp.None? {
      return Ok(map[]);
    }
    var r := resp.value;
    if |r.peers| > MAX_PACKED_PEERS {
      return Err(TooManyPeers);
    }
    var entries := DecodeWireEntries(r.peers, r.entries);
    if entries.None? {
      return Err(BadIndex);
    }
    if |r.mask| == 0 {
      return Ok(entries.value);
    }
    if |r.mask| != MaskLength(|r.peers|) {
      return Err(BadMaskLength);
    }
    var result := DecodeMask(r.peers, r.mask, r.end - r.start, entries.value);
    d := Ok(result);
  }
}
