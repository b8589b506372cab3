/**
 The whole analysis (EffectiveUptime in chanevents/analyzer.go): collect the channels to consider,
 seed every channel at the start of the window, and compute all pairs.
 */
module EffectiveUptime {
  import opened Wrappers
  import opened ChannelEvents
  import opened UptimeMeaning
  import opened EventTable
  import opened PeerEvents
  import opened UptimeWalk
  import opened Seeding
  import opened AllPairs
  import opened ForwardingData

  // The channels table: short channel ids are unique and each row has its own id.
  predicate IsChannelIndex(channels: map<nat, int>) {
    forall s, t :: s in channels && t in channels && channels[s] == channels[t] ==> s == t
  }

  // The recorded channels of a peer among the considered ones.
  function ChannelsOf(channels: map<nat, int>, considered: map<nat, string>, visited: set<nat>, peer: string): set<int> {
    set s | s in visited && s in considered && s in channels && considered[s] == peer :: channels[s]
  }

  function PeersOf(channels: map<nat, int>, considered: map<nat, string>, visited: set<nat>): set<string> {
    set s | s in visited && s in considered && s in channels :: considered[s]
  }

  function ViewsOf(views: map<string, States>, peer: string): States {
    if peer in views then views[peer] else map[]
  }

  // The visited channels grouped by peer and seeded at the start of the window.
  ghost predicate Grouped(rows: seq<Event>, start: int, channels: map<nat, int>, considered: map<nat, string>,
                          visited: set<nat>, views: map<string, States>)
    requires IsTable(rows)
  {
    views.Keys == PeersOf(channels, considered, visited) &&
    forall p :: p in views ==>
      views[p].Keys == ChannelsOf(channels, considered, visited, p) && Seeded(rows, views[p], start)
  }

  lemma GroupedSkip(rows: seq<Event>, start: int, channels: map<nat, int>, considered: map<nat, string>,
                    visited: set<nat>, views: map<string, States>, s: nat)
    requires IsTable(rows) && s in considered && s !in channels
    requires Grouped(rows, start, channels, considered, visited, views)
    ensures Grouped(rows, start, channels, considered, visited + {s}, views)
  {
    assert PeersOf(channels, considered, visited + {s}) == PeersOf(channels, considered, visited);
    forall p
      ensures ChannelsOf(channels, considered, visited + {s}, p) == ChannelsOf(channels, considered, visited, p)
    {
    }
  }

  lemma GroupedAdd(rows: seq<Event>, start: int, channels: map<nat, int>, considered: map<nat, string>,
                   visited: set<nat>, views: map<string, States>, s: nat, view: Snapshot)
    requires IsTable(rows) && s in considered && s in channels
    requires Grouped(rows, start, channels, considered, visited, views)
    requires Seed(rows, channels[s], start) == Ok(view)
    ensures Grouped(rows, start, channels, considered, visited + {s},
                    views[considered[s] := ViewsOf(views, considered[s])[channels[s] := view]])
  {
    var p := considered[s];
    var views' := views[p := ViewsOf(views, p)[channels[s] := view]];
    assert PeersOf(channels, considered, visited + {s}) == PeersOf(channels, considered, visited) + {p};
    assert p !in views ==> ChannelsOf(channels, considered, visited, p) == {};
    assert ChannelsOf(channels, considered, visited + {s}, p)
        == ChannelsOf(channels, considered, visited, p) + {channels[s]};
    forall q | q in views' && q != p
      ensures ChannelsOf(channels, considered, visited + {s}, q) == ChannelsOf(channels, considered, visited, q)
    {
    }
  }

  lemma GroupedDisjoint(rows: seq<Event>, start: int, channels: map<nat, int>, considered: map<nat, string>,
                        visited: set<nat>, views: map<string, States>)
    requires IsTable(rows) && IsChannelIndex(channels)
    requires Grouped(rows, start, channels, considered, visited, views)
    ensures DisjointChannels(views)
  {
  }

  // The channel ids of each peer are listed once each.
  predicate Listed(peerChannels: map<string, seq<int>>, views: map<string, States>) {
    peerChannels.Keys == views.Keys &&
    forall p :: p in views ==> NoRepeats(peerChannels[p]) && ToSet(peerChannels[p]) == views[p].Keys
  }

  // The entry of a peer in a Go map that is created on first use.
  function StatesOf(initial: PeerStates, peer: string): map<int, ChannelState> {
    if peer in initial then initial[peer] else map[]
  }

  function IdsOf(peerChannels: map<string, seq<int>>, peer: string): seq<int> {
    if peer in peerChannels then peerChannels[peer] else []
  }

  lemma ShowsAdd(initial: PeerStates, views: map<string, States>, peer: string, c: int, state: ChannelState)
    requires Shows(initial, views)
    ensures Shows(initial[peer := StatesOf(initial, peer)[c := state]],
                  views[peer := ViewsOf(views, peer)[c := state.View()]])
  {
    var states, m := StatesOf(initial, peer), ViewsOf(views, peer);
    assert Views(states) == m;
    assert Views(states[c := state]) == m[c := state.View()];
  }

  // A channel not visited yet is in no group.
  lemma AddedOnce(rows: seq<Event>, start: int, channels: map<nat, int>, considered: map<nat, string>,
                  visited: set<nat>, views: map<string, States>, s: nat)
    requires IsTable(rows) && IsChannelIndex(channels)
    requires Grouped(rows, start, channels, considered, visited, views)
    requires s in channels && s in considered && s !in visited
    ensures channels[s] !in ViewsOf(views, considered[s])
  {
  }

  lemma AppendOnce(ids: seq<int>, c: int)
    requires NoRepeats(ids) && c !in ToSet(ids)
    ensures NoRepeats(ids + [c]) && ToSet(ids + [c]) == ToSet(ids) + {c}
  {
  }

  lemma ListedAdd(peerChannels: map<string, seq<int>>, views: map<string, States>, peer: string, c: int, s: Snapshot)
    requires Listed(peerChannels, views) && c !in ViewsOf(views, peer)
    ensures Listed(peerChannels[peer := IdsOf(peerChannels, peer) + [c]],
                   views[peer := ViewsOf(views, peer)[c := s]])
  {
    AppendOnce(IdsOf(peerChannels, peer), c);
  }

  // One turn of the loop: seed a recorded channel and file it under its peer.
  method ConsiderChannel(rows: seq<Event>, start: int, channels: map<nat, int>, considered: map<nat, string>,
                         s: nat, initial0: PeerStates, peerChannels0: map<string, seq<int>>,
                         ghost visited: set<nat>, ghost views0: map<string, States>)
    returns (error: Option<AnalyzerError>, initial: PeerStates, peerChannels: map<string, seq<int>>,
             ghost views: map<string, States>)
    requires IsTable(rows) && IsChannelIndex(channels)
    requires s in considered && s in channels && s !in visited
    requires Shows(initial0, views0) && Listed(peerChannels0, views0)
    requires Grouped(rows, start, channels, considered, visited, views0)
    ensures error.Some? <==> Seed(rows, channels[s], start).Err?
    ensures error.None? ==> Shows(initial, views) && Listed(peerChannels, views)
    ensures error.None? ==> Grouped(rows, start, channels, considered, visited + {s}, views)
  {
    initial, peerChannels, views := initial0, peerChannels0, views0;
    var state := GetInitialChannelState(rows, start, channels[s]);
    if state.Err? {
      return Some(state.error), initial, peerChannels, views;
    }
    var peer, c := considered[s], channels[s];
    ghost var view := state.value.View();
    assert Shows(initial0, views0);
    hide Shows, Views, Grouped, Listed, Seed;
    AddedOnce(rows, start, channels, considered, visited, views0, s);
    GroupedAdd(rows, start, channels, considered, visited, views0, s, view);
    ListedAdd(peerChannels0, views0, peer, c, view);
    ShowsAdd(initial0, views0, peer, c, state.value);
    peerChannels := peerChannels0[peer := IdsOf(peerChannels0, peer) + [c]];
    initial := initial0[peer := StatesOf(initial0, peer)[c := state.value]];
    views := views0[peer := ViewsOf(views0, peer)[c := view]];
    error := None;
  }

  // getPeerChannelData: channels the store does not know are skipped, all others are seeded. It
  // fails exactly when one of them cannot be seeded.
  method GetPeerChannelData(rows: seq<Event>, start: int, channels: map<nat, int>, considered: map<nat, string>)
    returns (r: Option<(PeerStates, map<string, seq<int>>)>, ghost views: map<string, States>)
    requires IsTable(rows) && IsChannelIndex(channels)
    ensures r.None? <==> exists s :: s in considered && s in channels && Seed(rows, channels[s], start).Err?
    ensures r.Some? ==> Shows(r.value.0, views) && Listed(r.value.1, views)
    ensures r.Some? ==> Grouped(rows, start, channels, considered, considered.Keys, views)
  {
    var peerChannels: map<string, seq<int>> := map[];
    var initial: PeerStates := map[];
    views := map[];
    var left := considered.Keys;
    ghost var visited := {};
    assert Grouped(rows, start, channels, considered, visited, views);
    assert Shows(initial, views) && Listed(peerChannels, views);
    hide Seed, Grouped, Listed, Shows;
    while left != {}
      invariant left <= considered.Keys && visited == considered.Keys - left
      invariant Shows(initial, views) && Listed(peerChannels, views)
      invariant Grouped(rows, start, channels, considered, visited, views)
      invariant forall s :: s in visited && s in channels ==> Seed(rows, channels[s], start).Ok?
      decreases left
    {
      var s := NextScid(left, initial, views);
      left := left - {s};
      if s in channels {
        var error;
        error, initial, peerChannels, views :=
          ConsiderChannel(rows, start, channels, considered, s, initial, peerChannels, visited, views);
        if error.Some? {
          return None, views;
        }
      } else {
        GroupedSkip(rows, start, channels, considered, visited, views, s);
      }
      visited := visited + {s};
    }
    assert visited == considered.Keys;
    r := Some((initial, peerChannels));
  }

  method NextScid(left: set<nat>, initial: PeerStates, ghost views: map<string, States>) returns (s: nat)
    requires left != {} && Shows(initial, views)
    ensures s in left && Shows(initial, views)
  {
    s := NextKey(left);
  }

  /* The whole analysis. */

  datatype ChannelRow = ChannelRow(id: int, peer: string)

  // The channels table joined with its peers, by short channel id.
  type ChannelTable = map<nat, ChannelRow>

  function Ids(table: ChannelTable): map<nat, int> {
    map s | s in table :: table[s].id
  }

  // ScidToPeerMap leaves out channels whose short channel id is not known yet.
  function ScidToPeer(table: ChannelTable): map<nat, string> {
    map s | s in table && s != 0 :: table[s].peer
  }

  datatype LndChannel = LndChannel(scid: nat, peer: string)

  // A Go map after a run of assignments: the last one wins. Unconfirmed closes carry no id.
  function Assigned(m: map<nat, string>, cs: seq<LndChannel>, skipZero: bool): map<nat, string> {
    if cs == [] then m
    else
      var n := |cs| - 1;
      var earlier := Assigned(m, cs[..n], skipZero);
      if skipZero && cs[n].scid == 0 then earlier else earlier[cs[n].scid := cs[n].peer]
  }

  // addActiveChannels; a listing that is None has failed.
  method AddActiveChannels(considered: map<nat, string>, open: Option<seq<LndChannel>>, closed: Option<seq<LndChannel>>)
    returns (all: Option<map<nat, string>>)
    ensures all.None? <==> open.None? || closed.None?
    ensures all.Some? ==> all.value == Assigned(Assigned(considered, open.value, false), closed.value, true)
  {
    if open.None? {
      return None;
    }
    var channels := considered;
    for i := 0 to |open.value|
      invariant channels == Assigned(considered, open.value[..i], false)
    {
      var channel := open.value[i];
      assert open.value[..i + 1][..i] == open.value[..i];
      channels := channels[channel.scid := channel.peer];
    }
    assert open.value[..|open.value|] == open.value;
    if closed.None? {
      return None;
    }
    ghost var withOpen := channels;
    for i := 0 to |closed.value|
      invariant channels == Assigned(withOpen, closed.value[..i], true)
    {
      var channel := closed.value[i];
      assert closed.value[..i + 1][..i] == closed.value[..i];
      if channel.scid != 0 {
        channels := channels[channel.scid := channel.peer];
      }
    }
    assert closed.value[..|closed.value|] == closed.value;
    all := Some(channels);
  }

  // The channels the analysis considers: those that forwarded, all open ones and all closed ones.
  ghost function Considered(table: ChannelTable, es: seq<Forward>, open: seq<LndChannel>, closed: seq<LndChannel>): map<nat, string> {
    var forwarded := map s | s in ScidToPeer(table) && TookPart(es, ScidToPeer(table), s) :: ScidToPeer(table)[s];
    Assigned(Assigned(forwarded, open, false), closed, true)
  }

  // The i-th listed channel decides the peer of its id: no later one has it.
  predicate Decides(cs: seq<LndChannel>, i: nat, scid: nat, peer: string) {
    i < |cs| && cs[i] == LndChannel(scid, peer) && forall j :: i < j < |cs| ==> cs[j].scid != scid
  }

  lemma {:induction false} AssignedSays(m: map<nat, string>, cs: seq<LndChannel>, skipZero: bool, s: nat)
    ensures if (skipZero && s == 0) || (forall i :: 0 <= i < |cs| ==> cs[i].scid != s)
            then (s in Assigned(m, cs, skipZero) <==> s in m) && (s in m ==> Assigned(m, cs, skipZero)[s] == m[s])
            else s in Assigned(m, cs, skipZero) && exists i :: Decides(cs, i, s, Assigned(m, cs, skipZero)[s])
    decreases |cs|
  {
    if cs != [] {
      var n := |cs| - 1;
      AssignedSays(m, cs[..n], skipZero, s);
      if cs[n].scid == s {
        assert Decides(cs, n, s, cs[n].peer);
      } else if i :| 0 <= i < n && Decides(cs[..n], i, s, cs[i].peer) {
        assert Decides(cs, i, s, cs[i].peer);
      }
    }
  }

  // Both ends of a forward are in the table, under a short channel id that is known.
  predicate BothKnown(table: ChannelTable, f: Forward) {
    f.channelIn != 0 && f.channelIn in table && f.channelOut != 0 && f.channelOut in table
  }

  // Which channels are considered, and as whose: the last closed one listed under a short channel id
  // decides, else the last open one, else the table, for a channel of a forward with both ends in it.
  lemma ConsideredSays(table: ChannelTable, es: seq<Forward>, open: seq<LndChannel>, closed: seq<LndChannel>, s: nat)
    ensures var considered := Considered(table, es, open, closed);
      if s != 0 && exists i :: 0 <= i < |closed| && closed[i].scid == s then
        s in considered && exists i :: Decides(closed, i, s, considered[s])
      else if exists i :: 0 <= i < |open| && open[i].scid == s then
        s in considered && exists i :: Decides(open, i, s, considered[s])
      else
        (s in considered ==> s in table && considered[s] == table[s].peer) &&
        (s in considered <==>
          s != 0 && exists f :: f in es && (f.channelIn == s || f.channelOut == s) && BothKnown(table, f))
  {
    hide Assigned, TookPart;
    var known := ScidToPeer(table);
    var forwarded := map t | t in known && TookPart(es, known, t) :: known[t];
    AssignedSays(forwarded, open, false, s);
    AssignedSays(Assigned(forwarded, open, false), closed, true, s);
    TookPartSays(table, es, s);
  }

  lemma TookPartSays(table: ChannelTable, es: seq<Forward>, s: nat)
    ensures TookPart(es, ScidToPeer(table), s) <==>
      exists f :: f in es && (f.channelIn == s || f.channelOut == s) && BothKnown(table, f)
  {
    if f :| f in es && (f.channelIn == s || f.channelOut == s) && BothKnown(table, f) {
      var i :| 0 <= i < |es| && es[i] == f;
      assert KnownPair(es[i], ScidToPeer(table));
    }
  }

  ghost function PeerChannels(table: ChannelTable, considered: map<nat, string>, peer: string): set<int> {
    ChannelsOf(Ids(table), considered, considered.Keys, peer)
  }

  // The specification of the analysis, free of windows, seeds, sums and merges: replay the whole
  // log for the channels of both peers and count the qualifying instants.
  ghost function LogAbility(rows: seq<Event>, table: ChannelTable, es: seq<Forward>, considered: map<nat, string>,
                            floor: int, start: int, end: int, q: PeerPair): Ability {
    Ability(Uptime(LogPeer(rows, PeerChannels(table, considered, q.peerIn)),
                   LogPeer(rows, PeerChannels(table, considered, q.peerOut)), floor, start, end),
            Sum(AmountsOf(es, ScidToPeer(table), q)))
  }

  // What an ability of the log is. Its uptime is the number of instants of the window at which the two
  // peers' considered channels, as replaying the log leaves them, carry the floor in remote balances of the
  // one and local balances of the other; its volume is what was forwarded from one to the other, less a
  // part of a sat for each forward.
  lemma LogAbilitySays(rows: seq<Event>, table: ChannelTable, es: seq<Forward>, considered: map<nat, string>,
                       floor: int, start: int, end: int, q: PeerPair, up: set<int>)
    requires forall t :: t in up <==>
      start <= t < end && LogLiquidity(rows, table, considered, q.peerIn, Remote, t) >= floor &&
      LogLiquidity(rows, table, considered, q.peerIn, Remote, t) > 0 &&
      LogLiquidity(rows, table, considered, q.peerOut, Local, t) >= floor &&
      LogLiquidity(rows, table, considered, q.peerOut, Local, t) > 0
    ensures var ability := LogAbility(rows, table, es, considered, floor, start, end, q);
      var msat := MsatBetween(es, ScidToPeer(table), q.peerIn, q.peerOut);
      1000 * ability.forwarded <= msat <= 1000 * ability.forwarded + 999 * |AmountsOf(es, ScidToPeer(table), q)| &&
      ability.uptime == |up|
  {
    hide PeerChannels, Total, Replay, Uptime, AmountsOf, MsatBetween;
    var peerIn := LogPeer(rows, PeerChannels(table, considered, q.peerIn));
    var peerOut := LogPeer(rows, PeerChannels(table, considered, q.peerOut));
    UptimeCounts(peerIn, peerOut, floor, start, end);
    assert InstantsUp(peerIn, peerOut, floor, start, end) == up;
    AmountsAreMsats(es, ScidToPeer(table), q);
  }

  // The balances of a peer's considered channels on one side, at an instant: all rows up to it replayed,
  // and every online channel counted.
  ghost function LogLiquidity(rows: seq<Event>, table: ChannelTable, considered: map<nat, string>, peer: string,
                              side: Side, t: int): nat {
    Total(Replay(map c | c in PeerChannels(table, considered, peer) :: UNSEEN, UpTo(rows, t)), side)
  }

  // The peers and their channels: the recorded ones among the considered.
  lemma PeersSay(table: ChannelTable, considered: map<nat, string>)
    ensures forall p :: p in PeersConsidered(table, considered) <==>
      exists s :: s in considered && s in table && considered[s] == p
    ensures forall p, c :: c in PeerChannels(table, considered, p) <==>
      exists s :: s in considered && s in table && considered[s] == p && table[s].id == c
  {
  }

  lemma AbilityFromLog(rows: seq<Event>, table: ChannelTable, es: seq<Forward>, considered: map<nat, string>,
                       views: map<string, States>, fwd: Forwards, floor: int, start: int, end: int, q: PeerPair)
    requires IsLog(rows) && FullUpdates(rows)
    requires Grouped(rows, start, Ids(table), considered, considered.Keys, views)
    requires forall p :: p in fwd <==> AmountsOf(es, ScidToPeer(table), p) != []
    requires forall p :: p in fwd ==> fwd[p] == AmountsOf(es, ScidToPeer(table), p)
    requires q.peerIn in views && q.peerOut in views
    ensures AbilityOf(rows, views, fwd, floor, start, end, q)
         == LogAbility(rows, table, es, considered, floor, start, end, q)
  {
    SeededUptime(rows, views[q.peerIn], views[q.peerOut], floor, start, end);
    assert q !in fwd ==> Sum(AmountsOf(es, ScidToPeer(table), q)) == 0;
  }

  // A considered channel the store knows.
  predicate IsConsidered(table: ChannelTable, considered: map<nat, string>, chan: int) {
    exists s :: s in considered && s in table && table[s].id == chan
  }

  ghost predicate SeedFails(rows: seq<Event>, table: ChannelTable, considered: map<nat, string>, start: int)
    requires IsTable(rows)
  {
    exists s :: s in considered && s in Ids(table) && Seed(rows, Ids(table)[s], start).Err?
  }

  // A row of unknown type, in the window, on a considered channel.
  predicate WindowHasUnknown(rows: seq<Event>, table: ChannelTable, considered: map<nat, string>, start: int, end: int) {
    exists e :: e in rows && e.kind.Unknown? && start <= e.time < end && IsConsidered(table, considered, e.channel)
  }

  lemma UnknownInRows(rows: seq<Event>, m: States, start: int, end: int)
    ensures UnknownIn(rows, m, start, end)
       <==> exists e :: e in rows && e.kind.Unknown? && start <= e.time < end && e.channel in m
  {
    StreamMembers(rows, m.Keys, start, end);
    UnknownMembers(m, m, PeerStream(rows, m.Keys, start, end));
  }

  lemma UnknownInViews(rows: seq<Event>, table: ChannelTable, considered: map<nat, string>,
                       views: map<string, States>, start: int, end: int)
    requires IsTable(rows) && Grouped(rows, start, Ids(table), considered, considered.Keys, views)
    ensures WindowHasUnknown(rows, table, considered, start, end)
       <==> exists p :: p in views && UnknownIn(rows, views[p], start, end)
  {
    if e :| e in rows && e.kind.Unknown? && start <= e.time < end && IsConsidered(table, considered, e.channel) {
      var s :| s in considered && s in table && table[s].id == e.channel;
      var p := considered[s];
      assert p in views && Ids(table)[s] in views[p];
      UnknownInRows(rows, views[p], start, end);
    }
    if p :| p in views && UnknownIn(rows, views[p], start, end) {
      UnknownInRows(rows, views[p], start, end);
      var e :| e in rows && e.kind.Unknown? && start <= e.time < end && e.channel in views[p];
      assert e.channel in ChannelsOf(Ids(table), considered, considered.Keys, p);
      assert IsConsidered(table, considered, e.channel);
    }
  }

  // A pair is never up for longer than the window.
  lemma LogAbilityBound(rows: seq<Event>, table: ChannelTable, es: seq<Forward>, considered: map<nat, string>,
                        floor: int, start: int, end: int, q: PeerPair)
    requires start <= end
    ensures LogAbility(rows, table, es, considered, floor, start, end, q).uptime <= end - start
  {
    UptimeBound(LogPeer(rows, PeerChannels(table, considered, q.peerIn)),
                LogPeer(rows, PeerChannels(table, considered, q.peerOut)), floor, start, end);
  }

  // The peers of the considered channels that the store knows.
  ghost function PeersConsidered(table: ChannelTable, considered: map<nat, string>): set<string> {
    PeersOf(Ids(table), considered, considered.Keys)
  }

  // What an analysis of the log answers. It fails exactly when the backend or a listing fails, a channel
  // cannot be seeded or the window holds an event of unknown type. Otherwise it returns, for exactly the
  // ordered pairs of considered peers, what replaying the whole log says.
  ghost predicate Answers(r: Option<map<PeerPair, Ability>>, rows: seq<Event>, table: ChannelTable, history: Backend,
                          open: Option<seq<LndChannel>>, closed: Option<seq<LndChannel>>, start: int, end: int, floor: int)
    requires IsTable(rows)
  {
    if Fetched(history, 0).None? || open.None? || closed.None? then r.None?
    else
      var es := Fetched(history, 0).value;
      var considered := Considered(table, es, open.value, closed.value);
      var peers := PeersConsidered(table, considered);
      if SeedFails(rows, table, considered, start) || WindowHasUnknown(rows, table, considered, start, end) then r.None?
      else
        r.Some? && (forall q: PeerPair :: q in r.value <==> q.peerIn in peers && q.peerOut in peers) &&
        (forall q :: q in r.value ==> r.value[q] == LogAbility(rows, table, es, considered, floor, start, end, q))
  }

  method EffectiveUptime(rows: seq<Event>, table: ChannelTable, history: Backend, open: Option<seq<LndChannel>>,
                         closed: Option<seq<LndChannel>>, start: int, end: int, floor: int)
    returns (r: Option<map<PeerPair, Ability>>)
    requires IsLog(rows) && FullUpdates(rows) && IsChannelIndex(Ids(table))
    ensures Answers(r, rows, table, history, open, closed, start, end, floor)
  {
    hide Answers, Indexes, Grouped, Shows, AbilityOf, LogAbility, AmountsOf, DisjointChannels, SeedFails;
    NotAnswered(rows, table, history, open, closed, start, end, floor);
    var data := GetForwardingData(history, ScidToPeer(table));
    if data.None? {
      return None;
    }
    ghost var es := Fetched(history, 0).value;
    var (fwd, forwarding) := data.value;
    ForwardingChannels(es, ScidToPeer(table), fwd, forwarding);
    var active := AddActiveChannels(forwarding, open, closed);
    if active.None? {
      return None;
    }
    var considered := active.value;
    assert considered == Considered(table, es, open.value, closed.value);
    var grouped, views := GetPeerChannelData(rows, start, Ids(table), considered);
    SeedOutcome(rows, table, considered, start);
    if grouped.None? {
      return None;
    }
    var (initial, peerChannels) := grouped.value;
    GroupedDisjoint(rows, start, Ids(table), considered, considered.Keys, views);
    var abilities := CalculateAllPairs(rows, start, end, floor, fwd, initial, peerChannels, views);
    PairsAnswer(rows, table, history, open, closed, start, end, floor, fwd, views, abilities);
    if abilities.Err? {
      return None;
    }
    r := Some(abilities.value);
  }

  lemma NotAnswered(rows: seq<Event>, table: ChannelTable, history: Backend, open: Option<seq<LndChannel>>,
                    closed: Option<seq<LndChannel>>, start: int, end: int, floor: int)
    requires IsTable(rows)
    ensures (Fetched(history, 0).None? || open.None? || closed.None? ||
             SeedFails(rows, table, Considered(table, Fetched(history, 0).value, open.value, closed.value), start)) ==>
      Answers(None, rows, table, history, open, closed, start, end, floor)
  {
  }

  lemma SeedOutcome(rows: seq<Event>, table: ChannelTable, considered: map<nat, string>, start: int)
    requires IsTable(rows)
    ensures SeedFails(rows, table, considered, start)
       <==> exists s :: s in considered && s in Ids(table) && Seed(rows, Ids(table)[s], start).Err?
  {
  }

  lemma LogIsTable(rows: seq<Event>)
    requires IsLog(rows)
    ensures IsTable(rows)
  {
  }

  lemma GroupedPeers(rows: seq<Event>, table: ChannelTable, considered: map<nat, string>, views: map<string, States>, start: int)
    requires IsTable(rows) && Grouped(rows, start, Ids(table), considered, considered.Keys, views)
    ensures views.Keys == PeersConsidered(table, considered)
  {
  }

  // The pairs' results are the answer.
  lemma PairsAnswer(rows: seq<Event>, table: ChannelTable, history: Backend, open: Option<seq<LndChannel>>,
                    closed: Option<seq<LndChannel>>, start: int, end: int, floor: int, fwd: Forwards,
                    views: map<string, States>, abilities: Result<map<PeerPair, Ability>, AnalyzerError>)
    requires IsLog(rows) && FullUpdates(rows)
    requires Fetched(history, 0).Some? && open.Some? && closed.Some?
    requires forall q :: q in fwd <==> AmountsOf(Fetched(history, 0).value, ScidToPeer(table), q) != []
    requires forall q :: q in fwd ==> fwd[q] == AmountsOf(Fetched(history, 0).value, ScidToPeer(table), q)
    requires var considered := Considered(table, Fetched(history, 0).value, open.value, closed.value);
      !SeedFails(rows, table, considered, start) &&
      Grouped(rows, start, Ids(table), considered, considered.Keys, views)
    requires abilities.Err? <==> exists p :: p in views && UnknownIn(rows, views[p], start, end)
    requires abilities.Ok? ==> forall q: PeerPair :: q in abilities.value <==> q.peerIn in views && q.peerOut in views
    requires abilities.Ok? ==> forall q :: q in abilities.value ==>
      abilities.value[q] == AbilityOf(rows, views, fwd, floor, start, end, q)
    ensures Answers(if abilities.Ok? then Some(abilities.value) else None, rows, table, history, open, closed,
                    start, end, floor)
  {
    hide AbilityOf, LogAbility, AmountsOf, Grouped, Considered, SeedFails, WindowHasUnknown, PeersConsidered,
         UnknownIn, Fetched, IsLog, FullUpdates;
    var es := Fetched(history, 0).value;
    var considered := Considered(table, es, open.value, closed.value);
    LogIsTable(rows);
    UnknownInViews(rows, table, considered, views, start, end);
    GroupedPeers(rows, table, considered, views, start);
    if abilities.Ok? {
      forall q | q in abilities.value
        ensures abilities.value[q] == LogAbility(rows, table, es, considered, floor, start, end, q)
      {
        AbilityFromLog(rows, table, es, considered, views, fwd, floor, start, end, q);
      }
    }
  }

  lemma ForwardingChannels(es: seq<Forward>, peers: map<nat, string>, fwd: Forwards, forwarding: map<nat, string>)
    requires Indexes(es, peers, fwd, forwarding)
    ensures forwarding == map s | s in peers && TookPart(es, peers, s) :: peers[s]
    ensures forall q :: q in fwd <==> AmountsOf(es, peers, q) != []
    ensures forall q :: q in fwd ==> fwd[q] == AmountsOf(es, peers, q)
  {
    hide TookPart, AmountsOf;
    TookPartKnown(es, peers);
  }

  lemma TookPartKnown(es: seq<Forward>, peers: map<nat, string>)
    ensures forall s :: TookPart(es, peers, s) ==> s in peers
  {
  }
}
