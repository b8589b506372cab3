/**
 Uptime for every ordered pair of peers (calculateAllPairsUptime in chanevents/analyzer.go): each
 peer's stream is loaded once, each unordered pair is walked once, and both directions are recorded.
 */
module AllPairs {
  import opened Wrappers
  import opened ChannelEvents
  import opened UptimeMeaning
  import opened EventTable
  import opened PeerEvents
  import opened UptimeWalk
  import opened Seeding

  datatype PeerPair = PeerPair(peerIn: string, peerOut: string)

  type Forwards = map<PeerPair, seq<nat>>

  ghost function Sum(amounts: seq<nat>): nat {
    if amounts == [] then 0 else Sum(amounts[..|amounts| - 1]) + amounts[|amounts| - 1]
  }

  ghost function Forwarded(fwd: Forwards, peerIn: string, peerOut: string): nat {
    var p := PeerPair(peerIn, peerOut);
    if p in fwd then Sum(fwd[p]) else 0
  }

  // pairForwardedTotal
  method PairForwardedTotal(fwd: Forwards, peerIn: string, peerOut: string) returns (total: nat)
    ensures total == Forwarded(fwd, peerIn, peerOut)
  {
    total := 0;
    var p := PeerPair(peerIn, peerOut);
    if p in fwd {
      for i := 0 to |fwd[p]|
        invariant total == Sum(fwd[p][..i])
      {
        total := total + fwd[p][i];
        assert fwd[p][..i + 1][..i] == fwd[p][..i];
      }
      assert fwd[p][..|fwd[p]|] == fwd[p];
    }
  }

  type PeerStates = map<string, map<int, ChannelState>>

  ghost function AllObjects(initial: PeerStates): set<ChannelState> {
    set p, c | p in initial && c in initial[p] :: initial[p][c]
  }

  // The caller's snapshot shows these views.
  ghost predicate Shows(initial: PeerStates, views: map<string, States>)
    reads AllObjects(initial)
  {
    initial.Keys == views.Keys && forall p :: p in initial ==> Views(initial[p]) == views[p]
  }

  // Every channel belongs to one peer.
  ghost predicate DisjointChannels(views: map<string, States>) {
    forall p, q :: p in views && q in views && p != q ==> views[p].Keys !! views[q].Keys
  }

  // A peer as the simple definition of uptime sees it.
  ghost function PeerOf(rows: seq<Event>, views: map<string, States>, p: string, start: int, end: int): Peer
    requires p in views
  {
    WindowPeer(rows, views[p], start, end)
  }

  // The one ability of a direction. It mentions neither an enumeration order nor a merge.
  ghost function AbilityOf(rows: seq<Event>, views: map<string, States>, fwd: Forwards, floor: int,
                           start: int, end: int, pair: PeerPair): Ability
    requires pair.peerIn in views && pair.peerOut in views
  {
    Ability(Uptime(PeerOf(rows, views, pair.peerIn, start, end), PeerOf(rows, views, pair.peerOut, start, end),
                   floor, start, end),
            Forwarded(fwd, pair.peerIn, pair.peerOut))
  }

  ghost predicate UnknownIn(rows: seq<Event>, m: States, start: int, end: int) {
    HasUnknown(m, m, PeerStream(rows, m.Keys, start, end))
  }

  lemma StreamFacts(rows: seq<Event>, chans: set<int>, start: int, end: int)
    ensures var es := PeerStream(rows, chans, start, end);
      ByTime(es) && InWindow(es, start, end) && forall e :: e in es ==> e.channel in chans
  {
    StreamMembers(rows, chans, start, end);
    SortedByTime(PeerStream(rows, chans, start, end));
    var es := PeerStream(rows, chans, start, end);
    assert forall i :: 0 <= i < |es| ==> es[i] in es;
  }

  lemma MergeFacts(a: seq<Event>, b: seq<Event>, start: int, end: int)
    requires ByTime(a) && ByTime(b) && InWindow(a, start, end) && InWindow(b, start, end)
    ensures ByTime(Merge(a, b)) && InWindow(Merge(a, b), start, end)
    ensures forall e :: e in Merge(a, b) <==> e in a || e in b
  {
    var m := Merge(a, b);
    MergeByTime(a, b);
    MergeMembers(a, b);
    forall e
      ensures e in m <==> e in a || e in b
    {
      assert e in m <==> e in multiset(m);
    }
    forall i | 0 <= i < |m|
      ensures start <= m[i].time < end
    {
      assert m[i] in m;
      if m[i] in a {
        var k :| 0 <= k < |a| && a[k] == m[i];
      } else {
        var k :| 0 <= k < |b| && b[k] == m[i];
      }
    }
  }

  lemma UnknownMembers(a: States, b: States, es: seq<Event>)
    ensures HasUnknown(a, b, es) <==> exists e :: e in es && IsUnknownFor(a, b, e)
  {
    if e :| e in es && IsUnknownFor(a, b, e) {
      var k :| 0 <= k < |es| && es[k] == e;
    }
  }

  // The merged walk of two different peers fails exactly when one of the streams holds an unknown event.
  lemma MergedUnknown(rows: seq<Event>, a: States, b: States, start: int, end: int)
    ensures var ab := Merge(PeerStream(rows, a.Keys, start, end), PeerStream(rows, b.Keys, start, end));
      HasUnknown(a, b, ab) <==> UnknownIn(rows, a, start, end) || UnknownIn(rows, b, start, end)
  {
    var ea, eb := PeerStream(rows, a.Keys, start, end), PeerStream(rows, b.Keys, start, end);
    StreamFacts(rows, a.Keys, start, end);
    StreamFacts(rows, b.Keys, start, end);
    StreamMembers(rows, a.Keys, start, end);
    StreamMembers(rows, b.Keys, start, end);
    MergeFacts(ea, eb, start, end);
    UnknownMembers(a, b, Merge(ea, eb));
    UnknownMembers(a, a, ea);
    UnknownMembers(b, b, eb);
  }

  // One walk for both directions of a pair; a self pair walks its own stream merged with itself.
  method WalkPair(rows: seq<Event>, start: int, end: int, floor: int, initial: PeerStates,
                  statesA: map<int, ChannelState>, statesB: map<int, ChannelState>,
                  sumsA: (int, int), sumsB: (int, int), sliceA: seq<Event>, sliceB: seq<Event>,
                  forwardedAB: nat, forwardedBA: nat, ghost views: map<string, States>,
                  ghost va: States, ghost vb: States)
    returns (r: Result<(Ability, Ability), AnalyzerError>)
    requires IsTable(rows) && Shows(initial, views)
    requires va == Views(statesA) && vb == Views(statesB)
    requires sumsA == (Total(va, Remote), Total(va, Local)) && sumsB == (Total(vb, Remote), Total(vb, Local))
    requires sliceA == PeerStream(rows, va.Keys, start, end) && sliceB == PeerStream(rows, vb.Keys, start, end)
    requires va == vb || va.Keys !! vb.Keys
    ensures Shows(initial, views)
    ensures r.Err? <==> UnknownIn(rows, va, start, end) || UnknownIn(rows, vb, start, end)
    ensures r.Err? ==> r.error == UnknownEventType
    ensures r.Ok? ==>
      var a, b := WindowPeer(rows, va, start, end), WindowPeer(rows, vb, start, end);
      r.value.0 == Ability(Uptime(a, b, floor, start, end), forwardedAB) &&
      r.value.1 == Ability(Uptime(b, a, floor, start, end), forwardedBA)
  {
    hide Total, Uptime, Merge, ByTime, InWindow, HasUnknown, SortEvents, Window;
    ghost var a, b := WindowPeer(rows, va, start, end), WindowPeer(rows, vb, start, end);
    StreamFacts(rows, va.Keys, start, end);
    StreamFacts(rows, vb.Keys, start, end);
    MergeFacts(sliceA, sliceB, start, end);
    MergedUnknown(rows, va, vb, start, end);
    if va == vb {
      SelfUptime(a, Peer(va, Merge(sliceA, sliceB)), floor, start, end);
    } else {
      MergedUptime(a, b, Peer(va, Merge(sliceA, sliceB)), Peer(vb, Merge(sliceA, sliceB)), floor, start, end);
    }
    var merged := MergeEventSlices(sliceA, sliceB);
    assert Views(statesA) == va && Views(statesB) == vb;
    r := CalculateBothDirections(start, end, floor, statesA, statesB,
                                 sumsA.0, sumsA.1, sumsB.0, sumsB.1, merged, forwardedAB, forwardedBA);
    assert Views(statesA) == va && Views(statesB) == vb;
  }

  /* The enumeration of pairs. */

  // Where each peer stands in the enumeration.
  ghost predicate IsRank(rank: map<string, nat>, peers: seq<string>) {
    (forall k :: 0 <= k < |peers| ==> peers[k] in rank && rank[peers[k]] == k) &&
    (forall p :: p in rank ==> rank[p] < |peers| && peers[rank[p]] == p)
  }

  method EnumeratePeers(initial: PeerStates, ghost views: map<string, States>)
    returns (peers: seq<string>, ghost rank: map<string, nat>)
    requires Shows(initial, views)
    ensures NoRepeats(peers) && forall p :: p in peers <==> p in views
    ensures IsRank(rank, peers) && rank.Keys == views.Keys && Shows(initial, views)
  {
    hide NoRepeats, IsRank;
    NoRank();
    peers, rank := [], map[];
    var left := initial.Keys;
    while left != {}
      invariant left <= initial.Keys && rank.Keys == initial.Keys - left && IsRank(rank, peers)
      invariant Shows(initial, views)
      decreases left
    {
      var p := NextKey(left);
      RankNext(rank, peers, p);
      rank := rank[p := |peers|];
      peers := peers + [p];
      left := left - {p};
    }
    RankLists(rank, peers);
  }

  lemma NoRank()
    ensures IsRank(map[], [])
  {
  }

  lemma RankNext(rank: map<string, nat>, peers: seq<string>, p: string)
    requires IsRank(rank, peers) && p !in rank
    ensures IsRank(rank[p := |peers|], peers + [p])
  {
  }

  lemma RankLists(rank: map<string, nat>, peers: seq<string>)
    requires IsRank(rank, peers)
    ensures NoRepeats(peers) && forall p :: p in peers <==> p in rank
  {
    forall i, j | 0 <= i < j < |peers|
      ensures peers[i] != peers[j]
    {
      assert rank[peers[i]] == i && rank[peers[j]] == j;
    }
  }

  // The walks of rows before i, and those of row i before column j, are recorded.
  ghost predicate Covered(rank: map<string, nat>, i: nat, j: nat, q: PeerPair) {
    q.peerIn in rank && q.peerOut in rank &&
    var m, n := rank[q.peerIn], rank[q.peerOut];
    (m < i || n < i || (m == i && n < j) || (n == i && m < j))
  }

  ghost predicate Recorded(results: map<PeerPair, Ability>, rows: seq<Event>, views: map<string, States>,
                           fwd: Forwards, floor: int, start: int, end: int, rank: map<string, nat>, i: nat, j: nat)
    requires rank.Keys == views.Keys
  {
    (forall q :: q in results <==> Covered(rank, i, j, q)) &&
    (forall q :: q in results ==> results[q] == AbilityOf(rows, views, fwd, floor, start, end, q))
  }

  lemma RecordPair(results: map<PeerPair, Ability>, rows: seq<Event>, views: map<string, States>,
                   fwd: Forwards, floor: int, start: int, end: int, rank: map<string, nat>,
                   peers: seq<string>, i: nat, j: nat, ab: Ability, ba: Ability)
    requires rank.Keys == views.Keys && IsRank(rank, peers) && i <= j < |peers|
    requires Recorded(results, rows, views, fwd, floor, start, end, rank, i, j)
    requires ab == AbilityOf(rows, views, fwd, floor, start, end, PeerPair(peers[i], peers[j]))
    requires ba == AbilityOf(rows, views, fwd, floor, start, end, PeerPair(peers[j], peers[i]))
    ensures Recorded(results[PeerPair(peers[i], peers[j]) := ab][PeerPair(peers[j], peers[i]) := ba],
                     rows, views, fwd, floor, start, end, rank, i, j + 1)
  {
    hide AbilityOf;
    var results' := results[PeerPair(peers[i], peers[j]) := ab][PeerPair(peers[j], peers[i]) := ba];
    forall q
      ensures q in results' <==> Covered(rank, i, j + 1, q)
    {
      if Covered(rank, i, j + 1, q) && !Covered(rank, i, j, q) {
        assert peers[rank[q.peerIn]] == q.peerIn && peers[rank[q.peerOut]] == q.peerOut;
      }
    }
  }

  lemma RecordRow(results: map<PeerPair, Ability>, rows: seq<Event>, views: map<string, States>,
                  fwd: Forwards, floor: int, start: int, end: int, rank: map<string, nat>,
                  peers: seq<string>, i: nat)
    requires rank.Keys == views.Keys && IsRank(rank, peers) && i < |peers|
    requires Recorded(results, rows, views, fwd, floor, start, end, rank, i, |peers|)
    ensures Recorded(results, rows, views, fwd, floor, start, end, rank, i + 1, i + 1)
  {
    forall q
      ensures Covered(rank, i, |peers|, q) <==> Covered(rank, i + 1, i + 1, q)
    {
    }
  }

  ghost predicate IsCache(cache: map<string, seq<Event>>, rows: seq<Event>, views: map<string, States>, start: int, end: int) {
    forall p :: p in cache ==> p in views && cache[p] == PeerStream(rows, views[p].Keys, start, end)
  }

  // loadPeer: each peer's events are fetched once and reused by every walk.
  method LoadPeer(rows: seq<Event>, start: int, end: int, peer: string, chanIDs: seq<int>,
                  initial: PeerStates, cache: map<string, seq<Event>>, ghost views: map<string, States>)
    returns (events: seq<Event>, cache': map<string, seq<Event>>)
    requires Shows(initial, views)
    ensures Shows(initial, views)
    requires IsTable(rows) && peer in views && NoRepeats(chanIDs) && ToSet(chanIDs) == views[peer].Keys
    requires IsCache(cache, rows, views, start, end)
    ensures IsCache(cache', rows, views, start, end)
    ensures events == PeerStream(rows, views[peer].Keys, start, end)
  {
    if peer in cache {
      return cache[peer], cache;
    }
    events := LoadPeerEvents(rows, start, end, chanIDs);
    cache' := cache[peer := events];
  }

  // The initial sums of every peer, gathered once before the pair walks.
  method AllInitialSums(initial: PeerStates, ghost views: map<string, States>)
    returns (sums: map<string, (int, int)>)
    requires Shows(initial, views)
    ensures sums.Keys == views.Keys && Shows(initial, views)
    ensures forall p :: p in sums ==> sums[p] == (Total(views[p], Remote), Total(views[p], Local))
  {
    hide Total;
    sums := map[];
    var left := initial.Keys;
    while left != {}
      invariant left <= initial.Keys && sums.Keys == initial.Keys - left && Shows(initial, views)
      invariant forall p :: p in sums ==> sums[p] == (Total(views[p], Remote), Total(views[p], Local))
      decreases left
    {
      var p := NextKey(left);
      var remote, local := InitialSums(initial[p]);
      assert Shows(initial, views);
      sums := sums[p := (remote, local)];
      left := left - {p};
    }
  }

  lemma AbilityIs(rows: seq<Event>, views: map<string, States>, fwd: Forwards, floor: int, start: int, end: int,
                  peerIn: string, peerOut: string, a: Ability)
    requires peerIn in views && peerOut in views
    requires a == Ability(Uptime(WindowPeer(rows, views[peerIn], start, end),
                                 WindowPeer(rows, views[peerOut], start, end), floor, start, end),
                          Forwarded(fwd, peerIn, peerOut))
    ensures a == AbilityOf(rows, views, fwd, floor, start, end, PeerPair(peerIn, peerOut))
  {
  }

  // What the pair walks work with; fixed for the whole enumeration.
  ghost predicate Prepared(rows: seq<Event>, views: map<string, States>, peerChannels: map<string, seq<int>>,
                           sums: map<string, (int, int)>, rank: map<string, nat>, peers: seq<string>)
  {
    IsTable(rows) && DisjointChannels(views) && IsRank(rank, peers) &&
    peerChannels.Keys == views.Keys && sums.Keys == views.Keys && rank.Keys == views.Keys &&
    forall p :: p in views ==>
      NoRepeats(peerChannels[p]) && ToSet(peerChannels[p]) == views[p].Keys &&
      sums[p] == (Total(views[p], Remote), Total(views[p], Local))
  }

  lemma Prepare(rows: seq<Event>, views: map<string, States>, peerChannels: map<string, seq<int>>,
                sums: map<string, (int, int)>, rank: map<string, nat>, peers: seq<string>)
    requires IsTable(rows) && DisjointChannels(views) && IsRank(rank, peers)
    requires peerChannels.Keys == views.Keys && sums.Keys == views.Keys && rank.Keys == views.Keys
    requires forall p :: p in views ==> NoRepeats(peerChannels[p]) && ToSet(peerChannels[p]) == views[p].Keys
    requires forall p :: p in views ==> sums[p] == (Total(views[p], Remote), Total(views[p], Local))
    ensures Prepared(rows, views, peerChannels, sums, rank, peers)
  {
  }

  lemma PreparedPeer(rows: seq<Event>, views: map<string, States>, peerChannels: map<string, seq<int>>,
                     sums: map<string, (int, int)>, rank: map<string, nat>, peers: seq<string>, p: string, q: string)
    requires Prepared(rows, views, peerChannels, sums, rank, peers) && p in views && q in views
    ensures IsTable(rows) && p in peerChannels && p in sums
    ensures NoRepeats(peerChannels[p]) && ToSet(peerChannels[p]) == views[p].Keys
    ensures sums[p] == (Total(views[p], Remote), Total(views[p], Local))
    ensures views[p] == views[q] || views[p].Keys !! views[q].Keys
  {
  }

  lemma ShowsAt(initial: PeerStates, views: map<string, States>, p: string)
    requires Shows(initial, views) && p in views
    ensures p in initial && Views(initial[p]) == views[p]
  {
  }

  // One cell of the enumeration: load what is missing and walk the pair.
  method WalkPeers(rows: seq<Event>, start: int, end: int, floor: int, fwd: Forwards,
                   initial: PeerStates, peerChannels: map<string, seq<int>>, sums: map<string, (int, int)>,
                   peerA: string, peerB: string, sliceA: seq<Event>, cache0: map<string, seq<Event>>,
                   ghost views: map<string, States>, ghost rank: map<string, nat>, ghost peers: seq<string>)
    returns (r: Result<(Ability, Ability), AnalyzerError>, cache: map<string, seq<Event>>)
    requires Shows(initial, views) && Prepared(rows, views, peerChannels, sums, rank, peers)
    requires peerA in views && peerB in views && IsCache(cache0, rows, views, start, end)
    requires sliceA == PeerStream(rows, views[peerA].Keys, start, end)
    ensures Shows(initial, views) && IsCache(cache, rows, views, start, end)
    ensures r.Err? ==> r.error == UnknownEventType
    ensures r.Err? <==> UnknownIn(rows, views[peerA], start, end) || UnknownIn(rows, views[peerB], start, end)
    ensures r.Ok? ==> r.value.0 == AbilityOf(rows, views, fwd, floor, start, end, PeerPair(peerA, peerB))
    ensures r.Ok? ==> r.value.1 == AbilityOf(rows, views, fwd, floor, start, end, PeerPair(peerB, peerA))
  {
    hide Total, UnknownIn, AbilityOf, PeerStream, Prepared, IsCache;
    PreparedPeer(rows, views, peerChannels, sums, rank, peers, peerA, peerB);
    PreparedPeer(rows, views, peerChannels, sums, rank, peers, peerB, peerA);
    var forwardedAB := PairForwardedTotal(fwd, peerA, peerB);
    var forwardedBA := PairForwardedTotal(fwd, peerB, peerA);
    assert Shows(initial, views);
    hide Shows, Views;
    var sliceB := sliceA;
    cache := cache0;
    if peerA != peerB {
      sliceB, cache := LoadPeer(rows, start, end, peerB, peerChannels[peerB], initial, cache, views);
    }
    ShowsAt(initial, views, peerA);
    ShowsAt(initial, views, peerB);
    r := WalkPair(rows, start, end, floor, initial, initial[peerA], initial[peerB], sums[peerA], sums[peerB],
                  sliceA, sliceB, forwardedAB, forwardedBA, views, views[peerA], views[peerB]);
    if r.Ok? {
      AbilityIs(rows, views, fwd, floor, start, end, peerA, peerB, r.value.0);
      AbilityIs(rows, views, fwd, floor, start, end, peerB, peerA, r.value.1);
    }
  }

  // The inner loop: peer i against itself and every later peer.
  method WalkRow(rows: seq<Event>, start: int, end: int, floor: int, fwd: Forwards,
                 initial: PeerStates, peerChannels: map<string, seq<int>>, sums: map<string, (int, int)>,
                 peers: seq<string>, i: nat, sliceA: seq<Event>, cache0: map<string, seq<Event>>,
                 results0: map<PeerPair, Ability>, ghost views: map<string, States>, ghost rank: map<string, nat>)
    returns (r: Result<map<PeerPair, Ability>, AnalyzerError>, cache: map<string, seq<Event>>)
    requires Shows(initial, views) && Prepared(rows, views, peerChannels, sums, rank, peers)
    requires rank.Keys == views.Keys && IsRank(rank, peers)
    requires i < |peers| && IsCache(cache0, rows, views, start, end)
    requires sliceA == PeerStream(rows, views[peers[i]].Keys, start, end)
    requires Recorded(results0, rows, views, fwd, floor, start, end, rank, i, i)
    ensures Shows(initial, views) && IsCache(cache, rows, views, start, end)
    ensures r.Err? ==> r.error == UnknownEventType && exists p :: p in views && UnknownIn(rows, views[p], start, end)
    ensures r.Ok? ==> !UnknownIn(rows, views[peers[i]], start, end)
    ensures r.Ok? ==> Recorded(r.value, rows, views, fwd, floor, start, end, rank, i + 1, i + 1)
  {
    hide Shows, Prepared, IsCache, Recorded, AbilityOf, UnknownIn, PeerStream;
    var results := results0;
    cache := cache0;
    for j := i to |peers|
      invariant Shows(initial, views) && IsCache(cache, rows, views, start, end)
      invariant Recorded(results, rows, views, fwd, floor, start, end, rank, i, j)
      invariant j > i ==> !UnknownIn(rows, views[peers[i]], start, end)
    {
      var walked;
      walked, cache := WalkPeers(rows, start, end, floor, fwd, initial, peerChannels, sums, peers[i], peers[j],
                                 sliceA, cache, views, rank, peers);
      if walked.Err? {
        return Err(walked.error), cache;
      }
      RecordPair(results, rows, views, fwd, floor, start, end, rank, peers, i, j, walked.value.0, walked.value.1);
      ghost var recorded := results[PeerPair(peers[i], peers[j]) := walked.value.0]
                                   [PeerPair(peers[j], peers[i]) := walked.value.1];
      results := results[PeerPair(peers[i], peers[j]) := walked.value.0];
      if i != j {
        results := results[PeerPair(peers[j], peers[i]) := walked.value.1];
      }
      assert results == recorded;
    }
    RecordRow(results, rows, views, fwd, floor, start, end, rank, peers, i);
    r := Ok(results);
  }

  lemma NothingRecorded(rows: seq<Event>, views: map<string, States>, fwd: Forwards, floor: int, start: int, end: int,
                        rank: map<string, nat>)
    requires rank.Keys == views.Keys
    ensures Recorded(map[], rows, views, fwd, floor, start, end, rank, 0, 0)
    ensures IsCache(map[], rows, views, start, end)
  {
  }

  lemma AllRecorded(results: map<PeerPair, Ability>, rows: seq<Event>, views: map<string, States>, fwd: Forwards,
                    floor: int, start: int, end: int, rank: map<string, nat>, peers: seq<string>)
    requires rank.Keys == views.Keys && IsRank(rank, peers)
    requires Recorded(results, rows, views, fwd, floor, start, end, rank, |peers|, |peers|)
    ensures forall q: PeerPair :: q in results <==> q.peerIn in views && q.peerOut in views
    ensures forall q :: q in results ==> results[q] == AbilityOf(rows, views, fwd, floor, start, end, q)
  {
    hide AbilityOf;
    forall q
      ensures Covered(rank, |peers|, |peers|, q) <==> q.peerIn in views && q.peerOut in views
    {
    }
  }

  // calculateAllPairsUptime: exactly one ability for every ordered pair of peers, each the pair's
  // own, whatever the order of enumeration; it fails exactly when some peer's window holds an event
  // of unknown type.
  method CalculateAllPairs(rows: seq<Event>, start: int, end: int, floor: int, fwd: Forwards,
                           initial: PeerStates, peerChannels: map<string, seq<int>>,
                           ghost views: map<string, States>)
    returns (r: Result<map<PeerPair, Ability>, AnalyzerError>)
    requires IsTable(rows) && Shows(initial, views) && DisjointChannels(views)
    requires peerChannels.Keys == views.Keys
    requires forall p :: p in views ==> NoRepeats(peerChannels[p]) && ToSet(peerChannels[p]) == views[p].Keys
    ensures r.Err? <==> exists p :: p in views && UnknownIn(rows, views[p], start, end)
    ensures r.Err? ==> r.error == UnknownEventType
    ensures r.Ok? ==> forall q: PeerPair :: q in r.value <==> q.peerIn in views && q.peerOut in views
    ensures r.Ok? ==> forall q :: q in r.value ==> r.value[q] == AbilityOf(rows, views, fwd, floor, start, end, q)
  {
    hide Shows, AbilityOf, UnknownIn, PeerStream, Total, Recorded, IsCache, DisjointChannels, Prepared, IsRank, NoRepeats, ToSet;
    var peers, rank := EnumeratePeers(initial, views);
    var sums := AllInitialSums(initial, views);
    NothingRecorded(rows, views, fwd, floor, start, end, rank);
    Prepare(rows, views, peerChannels, sums, rank, peers);
    var cache: map<string, seq<Event>> := map[];
    var results: map<PeerPair, Ability> := map[];
    for i := 0 to |peers|
      invariant Shows(initial, views) && IsCache(cache, rows, views, start, end)
      invariant Recorded(results, rows, views, fwd, floor, start, end, rank, i, i)
      invariant forall k :: 0 <= k < i ==> !UnknownIn(rows, views[peers[k]], start, end)
    {
      var sliceA, row;
      sliceA, cache := LoadPeer(rows, start, end, peers[i], peerChannels[peers[i]], initial, cache, views);
      row, cache := WalkRow(rows, start, end, floor, fwd, initial, peerChannels, sums, peers, i, sliceA, cache,
                            results, views, rank);
      if row.Err? {
        return Err(row.error);
      }
      results := row.value;
    }
    assert forall p :: p in views ==> p in peers;
    AllRecorded(results, rows, views, fwd, floor, start, end, rank, peers);
    r := Ok(results);
  }
}
