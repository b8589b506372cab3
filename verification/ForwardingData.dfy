/**
 Reading lnd's forwarding history page by page and indexing it by peer pair (getForwardingData in
 chanevents/analyzer.go). The backend is an arbitrary answer for each queried offset.
 */
module ForwardingData {
  import opened Wrappers
  import opened AllPairs

  // forwardingPageSize
  const FORWARDING_PAGE_SIZE := 1000

  type uint32 = x: nat | x < 0x1_0000_0000

  datatype Forward = Forward(channelIn: nat, channelOut: nat, amountMsatOut: nat)

  // What the backend answers for an offset; None is an RPC error.
  datatype Page = Page(events: seq<Forward>, lastIndexOffset: uint32)
  type Backend = uint32 -> Option<Page>

  // The events the loop reads from an offset on. It ends for any backend: a loop that continues has
  // moved its offset strictly up.
  function Fetched(history: Backend, offset: uint32): Option<seq<Forward>>
    decreases 0xFFFF_FFFF - offset
  {
    match history(offset)
    case None => None
    case Some(page) =>
      if |page.events| < FORWARDING_PAGE_SIZE || page.lastIndexOffset <= offset then Some(page.events)
      else match Fetched(history, page.lastIndexOffset)
        case None => None
        case Some(more) => Some(page.events + more)
  }

  // A backend that serves a log: each answer holds the next entries and the index of the last one.
  predicate Serves(history: Backend, log: seq<Forward>) {
    |log| < 0x1_0000_0000 &&
    forall o: uint32 :: o <= |log| ==>
      var n := if |log| - o < FORWARDING_PAGE_SIZE then |log| else o + FORWARDING_PAGE_SIZE;
      history(o) == Some(Page(log[o..n], n))
  }

  // From such a backend every forward is read exactly once and in order.
  lemma {:induction false} FetchedIsLog(history: Backend, log: seq<Forward>, offset: uint32)
    requires Serves(history, log) && offset <= |log|
    ensures Fetched(history, offset) == Some(log[offset..])
    decreases |log| - offset
  {
    if |log| - offset >= FORWARDING_PAGE_SIZE {
      var n := offset + FORWARDING_PAGE_SIZE;
      FetchedIsLog(history, log, n);
      assert log[offset..n] + log[n..] == log[offset..];
    } else {
      assert log[offset..|log|] == log[offset..];
    }
  }

  function Prepend(read: seq<Forward>, more: Option<seq<Forward>>): Option<seq<Forward>> {
    if more.None? then None else Some(read + more.value)
  }

  predicate KnownPair(f: Forward, peers: map<nat, string>) {
    f.channelIn in peers && f.channelOut in peers
  }

  // The satoshi amounts forwarded over one pair, in arrival order.
  function AmountsOf(es: seq<Forward>, peers: map<nat, string>, q: PeerPair): seq<nat> {
    if es == [] then []
    else
      var n := |es| - 1;
      var earlier := AmountsOf(es[..n], peers, q);
      if KnownPair(es[n], peers) && q == PeerPair(peers[es[n].channelIn], peers[es[n].channelOut])
      then earlier + [es[n].amountMsatOut / 1000]
      else earlier
  }

  // The millisats that went out in forwards from a channel of one peer to a channel of the other.
  function MsatBetween(es: seq<Forward>, peers: map<nat, string>, peerIn: string, peerOut: string): nat {
    if es == [] then 0
    else
      var f := es[|es| - 1];
      MsatBetween(es[..|es| - 1], peers, peerIn, peerOut) +
      if f.channelIn in peers && f.channelOut in peers && peers[f.channelIn] == peerIn && peers[f.channelOut] == peerOut
      then f.amountMsatOut else 0
  }

  // The recorded amounts of a pair are what it forwarded, less a part of a sat for each forward.
  lemma {:induction false} AmountsAreMsats(es: seq<Forward>, peers: map<nat, string>, q: PeerPair)
    ensures var amounts, msat := AmountsOf(es, peers, q), MsatBetween(es, peers, q.peerIn, q.peerOut);
      1000 * Sum(amounts) <= msat <= 1000 * Sum(amounts) + 999 * |amounts|
    decreases |es|
  {
    if es != [] {
      var f, rest := es[|es| - 1], es[..|es| - 1];
      AmountsAreMsats(rest, peers, q);
      var earlier := AmountsOf(rest, peers, q);
      assert (earlier + [f.amountMsatOut / 1000])[..|earlier|] == earlier;
    }
  }

  // The channels, with their peers, that took part in a forward between known peers.
  predicate TookPart(es: seq<Forward>, peers: map<nat, string>, scid: nat) {
    exists i :: 0 <= i < |es| && KnownPair(es[i], peers) && (es[i].channelIn == scid || es[i].channelOut == scid)
  }

  method FetchForwards(history: Backend) returns (events: Option<seq<Forward>>)
    ensures events == Fetched(history, 0)
  {
    hide Fetched, Prepend;
    var read: seq<Forward> := [];
    var offset: uint32 := 0;
    NothingRead(Fetched(history, 0));
    while true
      invariant Fetched(history, 0) == Prepend(read, Fetched(history, offset))
      decreases 0xFFFF_FFFF - offset
    {
      FetchedPage(history, read, offset);
      var answer := history(offset);
      if answer.None? {
        return None;
      }
      var page := answer.value;
      if |page.events| == 0 {
        assert read + page.events == read;
        break;
      }
      read := read + page.events;
      if |page.events| < FORWARDING_PAGE_SIZE || page.lastIndexOffset <= offset {
        break;
      }
      offset := page.lastIndexOffset;
    }
    events := Some(read);
  }

  lemma NothingRead(all: Option<seq<Forward>>)
    ensures Prepend([], all) == all
  {
    if all.Some? {
      assert [] + all.value == all.value;
    }
  }

  // One more page.
  lemma FetchedPage(history: Backend, read: seq<Forward>, offset: uint32)
    ensures var page := history(offset);
      Prepend(read, Fetched(history, offset))
      == if page.None? then None
         else if |page.value.events| < FORWARDING_PAGE_SIZE || page.value.lastIndexOffset <= offset then Some(read + page.value.events)
         else Prepend(read + page.value.events, Fetched(history, page.value.lastIndexOffset))
  {
    var page := history(offset);
    if page.Some? && |page.value.events| >= FORWARDING_PAGE_SIZE && page.value.lastIndexOffset > offset {
      var more := Fetched(history, page.value.lastIndexOffset);
      if more.Some? {
        assert read + (page.value.events + more.value) == read + page.value.events + more.value;
      }
    }
  }

  // What the events say of every pair and of every channel, as the two maps of the result.
  ghost predicate Indexes(es: seq<Forward>, peers: map<nat, string>, amounts: Forwards, considered: map<nat, string>) {
    (forall q :: q in amounts <==> AmountsOf(es, peers, q) != []) &&
    (forall q :: q in amounts ==> amounts[q] == AmountsOf(es, peers, q)) &&
    (forall s :: s in considered <==> TookPart(es, peers, s)) &&
    (forall s :: s in considered ==> s in peers && considered[s] == peers[s])
  }

  // getForwardingData: forwards over unknown channels are skipped, all others are indexed by pair.
  method GetForwardingData(history: Backend, scidToPeer: map<nat, string>)
    returns (fwd: Option<(Forwards, map<nat, string>)>)
    ensures fwd.None? <==> Fetched(history, 0).None?
    ensures fwd.Some? ==> Indexes(Fetched(history, 0).value, scidToPeer, fwd.value.0, fwd.value.1)
  {
    hide Indexes, Fetched;
    var fetched := FetchForwards(history);
    if fetched.None? {
      return None;
    }
    var es := fetched.value;
    var amounts: Forwards := map[];
    var considered: map<nat, string> := map[];
    NoForwards(scidToPeer);
    for i := 0 to |es|
      invariant Indexes(es[..i], scidToPeer, amounts, considered)
    {
      var f := es[i];
      IndexNext(es, scidToPeer, i, amounts, considered);
      if f.channelIn in scidToPeer && f.channelOut in scidToPeer {
        considered := considered[f.channelIn := scidToPeer[f.channelIn]];
        considered := considered[f.channelOut := scidToPeer[f.channelOut]];
        var pair := PeerPair(scidToPeer[f.channelIn], scidToPeer[f.channelOut]);
        var sofar := if pair in amounts then amounts[pair] else [];
        amounts := amounts[pair := sofar + [f.amountMsatOut / 1000]];
      }
    }
    assert es[..|es|] == es;
    fwd := Some((amounts, considered));
  }

  lemma NoForwards(peers: map<nat, string>)
    ensures Indexes([], peers, map[], map[])
  {
  }

  // One turn of the loop.
  lemma IndexNext(es: seq<Forward>, peers: map<nat, string>, i: nat, amounts: Forwards, considered: map<nat, string>)
    requires i < |es| && Indexes(es[..i], peers, amounts, considered)
    ensures !KnownPair(es[i], peers) ==> Indexes(es[..i + 1], peers, amounts, considered)
    ensures KnownPair(es[i], peers) ==>
      var f := es[i];
      var pair := PeerPair(peers[f.channelIn], peers[f.channelOut]);
      var sofar := if pair in amounts then amounts[pair] else [];
      Indexes(es[..i + 1], peers, amounts[pair := sofar + [f.amountMsatOut / 1000]],
              considered[f.channelIn := peers[f.channelIn]][f.channelOut := peers[f.channelOut]])
  {
    hide AmountsOf, TookPart;
    forall q {
      AmountsNext(es, peers, i, q);
    }
    forall s {
      TookPartNext(es, peers, i, s);
    }
  }

  lemma AmountsNext(es: seq<Forward>, peers: map<nat, string>, i: nat, q: PeerPair)
    requires i < |es|
    ensures AmountsOf(es[..i + 1], peers, q) ==
      (if KnownPair(es[i], peers) && q == PeerPair(peers[es[i].channelIn], peers[es[i].channelOut])
       then AmountsOf(es[..i], peers, q) + [es[i].amountMsatOut / 1000]
       else AmountsOf(es[..i], peers, q))
  {
    assert es[..i + 1][..i] == es[..i] && es[..i + 1][i] == es[i];
  }

  lemma TookPartNext(es: seq<Forward>, peers: map<nat, string>, i: nat, s: nat)
    requires i < |es|
    ensures TookPart(es[..i + 1], peers, s) <==>
      TookPart(es[..i], peers, s) || (KnownPair(es[i], peers) && (es[i].channelIn == s || es[i].channelOut == s))
  {
    var longer := es[..i + 1];
    assert longer[i] == es[i] && forall k :: 0 <= k < i ==> longer[k] == es[..i][k];
  }
}
