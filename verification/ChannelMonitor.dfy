/**
 The monitor that writes the log (chanevents/monitor.go): it turns lnd's channel events and the
 initial sync into rows, and prunes in between.
 */
module ChannelMonitor {
  import opened Wrappers
  import opened ChannelEvents
  import opened EventTable
  import opened Seeding
  import opened EventStore

  // What a row says, apart from its key and time.
  datatype Record = Record(channel: int, kind: EventKind, local: Option<nat>, remote: Option<nat>, sync: bool)

  function RecordOf(e: Event): Record {
    Record(e.channel, e.kind, e.local, e.remote, e.sync)
  }

  // The rows now are the rows before, followed by rows with these records.
  predicate Appended(before: seq<Event>, rows: seq<Event>, records: seq<Record>) {
    |rows| == |before| + |records| && rows[..|before|] == before &&
    forall k :: 0 <= k < |records| ==> RecordOf(rows[|before| + k]) == records[k]
  }

  // What every interleaving of inserts and prunes keeps: keys and times agree in order, updates
  // carry both balances, types are known, and nothing is stamped in the future.
  ghost predicate LogInvariant(rows: seq<Event>, now: int) {
    IsLog(rows) && FullUpdates(rows) && forall e :: e in rows ==> e.time <= now && !e.kind.Unknown?
  }

  lemma LogAppend(rows: seq<Event>, now: int, row: Event, now': int)
    requires LogInvariant(rows, now) && now <= now' == row.time && !row.kind.Unknown?
    requires IsTable(rows + [row])
    requires row.kind.Update? ==> row.local.Some? && row.remote.Some?
    ensures LogInvariant(rows + [row], now')
  {
    var more := rows + [row];
    forall i, j | 0 <= i < j < |more|
      ensures more[i].time <= more[j].time
    {
      assert more[i] == rows[i] && rows[i] in rows;
    }
  }

  lemma LogPrune(rows: seq<Event>, now: int, maxEvents: nat, retention: int, now': int)
    requires LogInvariant(rows, now) && now <= now'
    ensures LogInvariant(Kept(rows, maxEvents, retention, now'), now')
  {
    var k := PruneOfLog(rows, maxEvents, retention, now');
    KeptIsTable(rows, maxEvents, retention, now');
    assert forall e :: e in rows[k..] ==> e in rows;
  }

  // The monitor only writes logs that the analysis can use: seeding from one fails only when too many
  // status events follow the latest update.
  lemma MonitoredLogSeeds(rows: seq<Event>, now: int, chan: int, start: int)
    requires LogInvariant(rows, now)
    ensures IsLog(rows) && FullUpdates(rows)
    ensures Seed(rows, chan, start).Err? <==>
      var latest := LatestUpdateBefore(rows, chan, start);
      latest.Some? && |Select(rows, chan, latest.value.id, latest.value.time, start)| >= RESIDUAL_EVENT_LIMIT
  {
    SeedFailures(rows, chan, start);
    var latest := LatestUpdateBefore(rows, chan, start);
    if latest.Some? {
      SelectMembers(rows, chan, latest.value.id, latest.value.time, start);
    }
  }

  datatype ChannelInfo = ChannelInfo(point: string, scid: nat, peer: string, local: nat, remote: nat, active: bool)

  // lndclient.ChannelEventUpdate; None is a nil payload.
  datatype ChannelEventUpdate =
    | OpenChannelUpdate(openedInfo: Option<ChannelInfo>)
    | ClosedChannelUpdate(closedPoint: Option<string>)
    | ActiveChannelUpdate(point: string)
    | InactiveChannelUpdate(point: string)
    | PendingOpenChannelUpdate(point: string)
    | StateChannelUpdate(updatedInfo: Option<ChannelInfo>)
    // Any other type: the switch has no case for it.
    | OtherUpdate

  datatype ClosedChannel = ClosedChannel(point: string, scid: nat, peer: string)

  type Channels = map<string, Channel>

  // addChannel: nothing to do for a known channel point.
  function EnsureChannel(channels: Channels, point: string, scid: nat, peer: string): Option<Channels> {
    if point in channels then Some(channels) else InsertChannel(channels, point, scid, peer)
  }

  function Status(channels: Channels, point: string, kind: EventKind, sync: bool): seq<Record> {
    if point in channels then [Record(channels[point].id, kind, None, None, sync)] else []
  }

  function Balance(channels: Channels, c: ChannelInfo, sync: bool): seq<Record> {
    if c.point in channels then [Record(channels[c.point].id, Update, Some(c.local), Some(c.remote), sync)] else []
  }

  // The channels and records an event leaves behind, and whether it is handled without error.
  datatype Handled = Handled(channels: Channels, records: seq<Record>, ok: bool)

  function Handle(channels: Channels, e: ChannelEventUpdate): Handled {
    match e
    case OpenChannelUpdate(None) => Handled(channels, [], false)
    case OpenChannelUpdate(Some(c)) =>
      (match EnsureChannel(channels, c.point, c.scid, c.peer)
       case None => Handled(channels, [], false)
       case Some(cs) => Handled(cs, Status(cs, c.point, Online, false) + Balance(cs, c, false), true))
    case ClosedChannelUpdate(None) => Handled(channels, [], false)
    case ClosedChannelUpdate(Some(p)) => Handled(channels, Status(channels, p, Offline, false), p in channels)
    case ActiveChannelUpdate(p) => Handled(channels, Status(channels, p, Online, false), p in channels)
    case InactiveChannelUpdate(p) => Handled(channels, Status(channels, p, Offline, false), p in channels)
    case PendingOpenChannelUpdate(_) => Handled(channels, [], true)
    case OtherUpdate => Handled(channels, [], true)
    case StateChannelUpdate(None) => Handled(channels, [], false)
    case StateChannelUpdate(Some(c)) => Handled(channels, Balance(channels, c, false), c.point in channels)
  }

  // The initial sync of closed channels: those without an id and those the store refuses are skipped.
  function SyncClosed(channels: Channels, closed: seq<ClosedChannel>): (Channels, seq<Record>) {
    if closed == [] then (channels, [])
    else
      var n := |closed| - 1;
      var (cs, records) := SyncClosed(channels, closed[..n]);
      var c := closed[n];
      if c.scid == 0 then (cs, records)
      else match EnsureChannel(cs, c.point, c.scid, c.peer)
        case None => (cs, records)
        case Some(cs') => (cs', records + Status(cs', c.point, Offline, true))
  }

  // The initial sync of open channels: availability and balance are separate records.
  function SyncOpen(channels: Channels, open: seq<ChannelInfo>): (Channels, seq<Record>) {
    if open == [] then (channels, [])
    else
      var n := |open| - 1;
      var (cs, records) := SyncOpen(channels, open[..n]);
      var c := open[n];
      match EnsureChannel(cs, c.point, c.scid, c.peer)
      case None => (cs, records)
      case Some(cs') =>
        (cs', records + Status(cs', c.point, if c.active then Online else Offline, true) + Balance(cs', c, true))
  }

  // The channels and records an initial sync leaves behind; None is a failed RPC, which ends it.
  function Sync(channels: Channels, closed: Option<seq<ClosedChannel>>, open: Option<seq<ChannelInfo>>): Handled {
    if closed.None? then Handled(channels, [], false)
    else
      var (cs, records) := SyncClosed(channels, closed.value);
      if open.None? then Handled(cs, records, false)
      else
        var (cs', more) := SyncOpen(cs, open.value);
        Handled(cs', records + more, true)
  }

  lemma AppendedTwice(a: seq<Event>, b: seq<Event>, c: seq<Event>, r1: seq<Record>, r2: seq<Record>)
    requires Appended(a, b, r1) && Appended(b, c, r2)
    ensures Appended(a, c, r1 + r2)
  {
    forall k | 0 <= k < |r1 + r2|
      ensures RecordOf(c[|a| + k]) == (r1 + r2)[k]
    {
      if k < |r1| {
        assert c[|a| + k] == c[..|b|][|a| + k];
      } else {
        assert c[|a| + k] == c[|b| + (k - |r1|)];
      }
    }
    assert c[..|a|] == c[..|b|][..|a|];
  }

  // The keys of the channels table are unique.
  ghost predicate Keyed(channels: Channels) {
    (forall p :: p in channels ==> 1 <= channels[p].id <= |channels|) &&
    forall p, q :: p in channels && q in channels && channels[p].id == channels[q].id ==> p == q
  }

  lemma EnsureKeyed(channels: Channels, point: string, scid: nat, peer: string)
    requires Keyed(channels)
    ensures Keyed(EnsureChannel(channels, point, scid, peer).GetOr(channels))
    ensures EnsureChannel(channels, point, scid, peer).None? <==>
      point !in channels && exists p :: p in channels && channels[p].scid == scid
    ensures EnsureChannel(channels, point, scid, peer).Some? ==>
      point in EnsureChannel(channels, point, scid, peer).value
    ensures forall p :: p in channels ==>
      p in EnsureChannel(channels, point, scid, peer).GetOr(channels) &&
      EnsureChannel(channels, point, scid, peer).GetOr(channels)[p] == channels[p]
    ensures forall p :: p in EnsureChannel(channels, point, scid, peer).GetOr(channels) ==> p in channels || p == point
  {
    InsertedChannel(channels, point, scid, peer);
  }

  // What the log says of a channel, whatever was known of it before: these functions of the earlier
  // state, and the log says nothing new of any other channel.
  ghost predicate Stays(before: seq<Event>, rows: seq<Event>, c: int) {
    forall s :: ReplayChannel(s, rows, c) == ReplayChannel(s, before, c)
  }

  ghost predicate GoesOnline(before: seq<Event>, rows: seq<Event>, c: int, online: bool) {
    forall s :: ReplayChannel(s, rows, c) == ReplayChannel(s, before, c).(online := online)
  }

  ghost predicate Reports(rows: seq<Event>, c: int, local: nat, remote: nat) {
    forall s :: ReplayChannel(s, rows, c) == Snapshot(true, local, remote)
  }

  ghost predicate IsOffline(rows: seq<Event>, c: int) {
    forall s :: !ReplayChannel(s, rows, c).online
  }

  lemma RowEffect(before: seq<Event>, rows: seq<Event>, r: Record)
    requires Appended(before, rows, [r]) && !r.kind.Unknown?
    requires r.kind.Update? ==> r.local.Some? && r.remote.Some?
    ensures forall c :: c != r.channel ==> Stays(before, rows, c)
    ensures r.kind.Online? || r.kind.Offline? ==> GoesOnline(before, rows, r.channel, r.kind.Online?)
    ensures r.kind.Update? ==> Reports(rows, r.channel, r.local.value, r.remote.value)
  {
    assert RecordOf(rows[|before| + 0]) == [r][0];
    assert rows == before + [rows[|before|]];
    forall c, s
      ensures ReplayChannel(s, rows, c)
           == var was := ReplayChannel(s, before, c); if c == r.channel then Apply(was, rows[|before|]) else was
    {
      ReplayChannelSnoc(s, before, rows[|before|], c);
    }
  }

  predicate LastListed(open: seq<ChannelInfo>, i: nat)
    requires i < |open|
  {
    forall j :: i < j < |open| ==> open[j].point != open[i].point
  }

  ghost predicate OnlyAbout(before: seq<Event>, rows: seq<Event>, c: int) {
    forall d :: d != c ==> Stays(before, rows, d)
  }

  // What a channel event makes the log say: an inactive or closed channel is offline from then on and an
  // active one online, a new or changed one has the reported balances, and nothing else is said.
  ghost predicate Tells(e: ChannelEventUpdate, channels0: Channels, before: seq<Event>, channels: Channels,
                        rows: seq<Event>, ok: bool) {
    (!ok ==> rows == before) &&
    (!e.OpenChannelUpdate? ==> channels == channels0) &&
    match e
    case OpenChannelUpdate(None) => !ok && channels == channels0
    case OpenChannelUpdate(Some(c)) =>
      (ok <==> c.point in channels0 || forall p :: p in channels0 ==> channels0[p].scid != c.scid) &&
      (ok ==> c.point in channels && Reports(rows, channels[c.point].id, c.local, c.remote) &&
              OnlyAbout(before, rows, channels[c.point].id))
    case ClosedChannelUpdate(None) => !ok
    case ClosedChannelUpdate(Some(p)) =>
      (ok <==> p in channels) &&
      (ok ==> GoesOnline(before, rows, channels[p].id, false) && OnlyAbout(before, rows, channels[p].id))
    case ActiveChannelUpdate(p) =>
      (ok <==> p in channels) &&
      (ok ==> GoesOnline(before, rows, channels[p].id, true) && OnlyAbout(before, rows, channels[p].id))
    case InactiveChannelUpdate(p) =>
      (ok <==> p in channels) &&
      (ok ==> GoesOnline(before, rows, channels[p].id, false) && OnlyAbout(before, rows, channels[p].id))
    case PendingOpenChannelUpdate(_) => ok && rows == before
    case OtherUpdate => ok && rows == before
    case StateChannelUpdate(None) => !ok
    case StateChannelUpdate(Some(c)) =>
      (ok <==> c.point in channels) &&
      (ok ==> Reports(rows, channels[c.point].id, c.local, c.remote) && OnlyAbout(before, rows, channels[c.point].id))
  }

  lemma NothingAppended(before: seq<Event>, rows: seq<Event>)
    requires Appended(before, rows, [])
    ensures rows == before
  {
    assert rows[..|before|] == rows;
  }

  lemma TwoRowsEffect(before: seq<Event>, rows: seq<Event>, r: Record, u: Record)
    requires Appended(before, rows, [r] + [u])
    requires r.channel == u.channel && !r.kind.Unknown? && !r.kind.Update?
    requires u.kind.Update? && u.local.Some? && u.remote.Some?
    ensures OnlyAbout(before, rows, r.channel) && Reports(rows, r.channel, u.local.value, u.remote.value)
    ensures StatusBeforeReport(rows, r.channel, r.kind.Online?)
  {
    var middle := rows[..|before| + 1];
    assert RecordOf(rows[|before| + 0]) == ([r] + [u])[0] && RecordOf(rows[|before| + 1]) == ([r] + [u])[1];
    assert middle[|before| + 0] == rows[|before| + 0] && rows[|middle| + 0] == rows[|before| + 1];
    assert middle[..|before|] == before;
    RowEffect(before, middle, r);
    RowEffect(middle, rows, u);
    StaysTwice(before, middle, rows, r.channel);
    assert rows[|rows| - 2] == rows[|before| + 0] && rows[|rows| - 1] == rows[|before| + 1];
    LastRows(rows, r.channel);
  }

  lemma StaysTwice(a: seq<Event>, b: seq<Event>, c: seq<Event>, channel: int)
    requires forall d :: d != channel ==> Stays(a, b, d) && Stays(b, c, d)
    ensures OnlyAbout(a, c, channel)
  {
    forall d | d != channel
      ensures Stays(a, c, d)
    {
      StaysThrough(a, b, c, d);
    }
  }

  lemma StaysThrough(a: seq<Event>, b: seq<Event>, c: seq<Event>, channel: int)
    requires Stays(a, b, channel) && Stays(b, c, channel)
    ensures Stays(a, c, channel)
  {
    forall s
      ensures ReplayChannel(s, c, channel) == ReplayChannel(s, a, channel)
    {
      assert ReplayChannel(s, c, channel) == ReplayChannel(s, b, channel);
    }
  }

  lemma AppendedNone(rows: seq<Event>)
    ensures Appended(rows, rows, [])
  {
  }

  // The last two rows of a channel are its availability and its balances.
  ghost predicate StatusBeforeReport(rows: seq<Event>, c: int, active: bool) {
    exists i :: 0 <= i < |rows| - 1 && StatusThenReport(rows, i, c, active) && NoneAfter(rows, i + 1, c)
  }

  predicate StatusThenReport(rows: seq<Event>, i: nat, c: int, active: bool)
    requires i + 1 < |rows|
  {
    rows[i].channel == c && (if active then rows[i].kind.Online? else rows[i].kind.Offline?) &&
    rows[i + 1].channel == c && rows[i + 1].kind.Update?
  }

  predicate NoneAfter(rows: seq<Event>, i: nat, c: int) {
    forall j :: i < j < |rows| ==> rows[j].channel != c
  }

  lemma LastRows(rows: seq<Event>, c: int)
    requires |rows| >= 2 && rows[|rows| - 2].channel == c && rows[|rows| - 1].channel == c
    requires rows[|rows| - 1].kind == Update && (rows[|rows| - 2].kind.Online? || rows[|rows| - 2].kind.Offline?)
    ensures StatusBeforeReport(rows, c, rows[|rows| - 2].kind.Online?)
  {
    var i := |rows| - 2;
    assert StatusThenReport(rows, i, c, rows[i].kind.Online?) && NoneAfter(rows, i + 1, c);
  }

  lemma HandleTells(channels: Channels, e: ChannelEventUpdate, before: seq<Event>, rows: seq<Event>)
    requires Keyed(channels) && Appended(before, rows, Handle(channels, e).records)
    ensures Tells(e, channels, before, Handle(channels, e).channels, rows, Handle(channels, e).ok)
  {
    hide Appended, InsertChannel, EnsureChannel, Keyed, GoesOnline, Reports, Stays, StatusBeforeReport;
    var h := Handle(channels, e);
    if h.records == [] {
      NothingAppended(before, rows);
    }
    match e {
      case OpenChannelUpdate(Some(c)) =>
        EnsureKeyed(channels, c.point, c.scid, c.peer);
        if h.ok {
          var id := h.channels[c.point].id;
          TwoRowsEffect(before, rows, Record(id, Online, None, None, false),
                        Record(id, Update, Some(c.local), Some(c.remote), false));
        }
      case StateChannelUpdate(Some(c)) =>
        if h.ok {
          RowEffect(before, rows, Record(channels[c.point].id, Update, Some(c.local), Some(c.remote), false));
        }
      case ClosedChannelUpdate(Some(p)) =>
        if h.ok {
          RowEffect(before, rows, Record(channels[p].id, Offline, None, None, false));
        }
      case ActiveChannelUpdate(p) =>
        if h.ok {
          RowEffect(before, rows, Record(channels[p].id, Online, None, None, false));
        }
      case InactiveChannelUpdate(p) =>
        if h.ok {
          RowEffect(before, rows, Record(channels[p].id, Offline, None, None, false));
        }
      case _ =>
    }
  }

  lemma AppendedSplit(before: seq<Event>, rows: seq<Event>, r1: seq<Record>, r2: seq<Record>)
    requires Appended(before, rows, r1 + r2)
    ensures |before| + |r1| <= |rows|
    ensures var middle := rows[..|before| + |r1|]; Appended(before, middle, r1) && Appended(middle, rows, r2)
  {
    var middle := rows[..|before| + |r1|];
    assert middle[..|before|] == rows[..|before|];
    forall k | 0 <= k < |r1|
      ensures RecordOf(middle[|before| + k]) == r1[k]
    {
      assert RecordOf(rows[|before| + k]) == (r1 + r2)[k];
    }
    forall k | 0 <= k < |r2|
      ensures RecordOf(rows[|middle| + k]) == r2[k]
    {
      assert RecordOf(rows[|before| + (|r1| + k)]) == (r1 + r2)[|r1| + k];
    }
  }

  // Channels are only added.
  ghost predicate Extends(channels0: Channels, channels: Channels) {
    Keyed(channels) && forall p :: p in channels0 ==> p in channels && channels[p] == channels0[p]
  }

  // The confirmed closed channels that are known are offline, and nothing is said of unlisted ones.
  ghost predicate ClosedTold(closed: seq<ClosedChannel>, before: seq<Event>, channels: Channels, rows: seq<Event>) {
    (forall i :: 0 <= i < |closed| && closed[i].scid != 0 && closed[i].point in channels ==>
      IsOffline(rows, channels[closed[i].point].id)) &&
    (forall p :: p in channels && (forall i :: 0 <= i < |closed| ==> closed[i].point != p) ==>
      Stays(before, rows, channels[p].id))
  }

  lemma {:induction false} SyncClosedTells(channels0: Channels, closed: seq<ClosedChannel>, before: seq<Event>, rows: seq<Event>)
    requires Keyed(channels0) && Appended(before, rows, SyncClosed(channels0, closed).1)
    ensures Extends(channels0, SyncClosed(channels0, closed).0)
    ensures ClosedTold(closed, before, SyncClosed(channels0, closed).0, rows)
    decreases |closed|
  {
    hide EnsureChannel, Keyed, Appended, ClosedTold;
    if closed == [] {
      NothingAppended(before, rows);
      NoneClosed(before, channels0);
    } else {
      var n := |closed| - 1;
      var (cs, records) := SyncClosed(channels0, closed[..n]);
      var c := closed[n];
      var ensured := EnsureChannel(cs, c.point, c.scid, c.peer);
      if c.scid == 0 || ensured.None? {
        assert SyncClosed(channels0, closed) == (cs, records);
        SyncClosedTells(channels0, closed[..n], before, rows);
        EnsureKeyed(cs, c.point, c.scid, c.peer);
        ClosedSkip(closed, before, cs, rows);
      } else {
        AppendedSplit(before, rows, records, Status(ensured.value, c.point, Offline, true));
        var middle := rows[..|before| + |records|];
        SyncClosedTells(channels0, closed[..n], before, middle);
        EnsureKeyed(cs, c.point, c.scid, c.peer);
        RowEffect(middle, rows, Record(ensured.value[c.point].id, Offline, None, None, true));
        ClosedStep(closed, before, middle, rows, cs, ensured.value);
      }
    }
  }

  lemma NoneClosed(rows: seq<Event>, channels: Channels)
    ensures ClosedTold([], rows, channels, rows)
  {
  }

  // A closed channel without an id, or one that is refused and so unknown, changes nothing.
  lemma ClosedSkip(closed: seq<ClosedChannel>, before: seq<Event>, channels: Channels, rows: seq<Event>)
    requires closed != [] && var n := |closed| - 1; ClosedTold(closed[..n], before, channels, rows)
    requires var c := closed[|closed| - 1]; c.scid == 0 || c.point !in channels
    ensures ClosedTold(closed, before, channels, rows)
  {
    hide IsOffline, Stays;
    var n := |closed| - 1;
    assert forall i :: 0 <= i < n ==> closed[..n][i] == closed[i];
  }

  lemma ClosedStep(closed: seq<ClosedChannel>, before: seq<Event>, middle: seq<Event>, rows: seq<Event>,
                   channels: Channels, channels': Channels)
    requires closed != [] && var n := |closed| - 1; ClosedTold(closed[..n], before, channels, middle)
    requires Keyed(channels') && forall p :: p in channels ==> p in channels' && channels'[p] == channels[p]
    requires var c := closed[|closed| - 1];
      c.point in channels' && (forall p :: p in channels' ==> p in channels || p == c.point) &&
      GoesOnline(middle, rows, channels'[c.point].id, false) && OnlyAbout(middle, rows, channels'[c.point].id)
    ensures ClosedTold(closed, before, channels', rows)
  {
    var n := |closed| - 1;
    var c := closed[n];
    assert IsOffline(rows, channels'[c.point].id);
    forall i | 0 <= i < n && closed[i].scid != 0 && closed[i].point in channels'
      ensures IsOffline(rows, channels'[closed[i].point].id)
    {
      assert closed[..n][i] == closed[i];
      if closed[i].point != c.point {
        assert IsOffline(middle, channels[closed[i].point].id);
        assert Stays(middle, rows, channels'[closed[i].point].id);
      }
    }
    forall p | p in channels' && (forall i :: 0 <= i < |closed| ==> closed[i].point != p)
      ensures Stays(before, rows, channels'[p].id)
    {
      assert closed[n].point != p;
      assert forall i :: 0 <= i < n ==> closed[..n][i].point != p;
      assert Stays(before, middle, channels[p].id) && Stays(middle, rows, channels'[p].id);
    }
  }

  // The open channels that are known report their balances as last listed, right after their
  // availability, and nothing is said of unlisted ones.
  ghost predicate OpenTold(open: seq<ChannelInfo>, before: seq<Event>, channels: Channels, rows: seq<Event>) {
    (forall i :: 0 <= i < |open| && LastListed(open, i) && open[i].point in channels ==>
      Reports(rows, channels[open[i].point].id, open[i].local, open[i].remote) &&
      StatusBeforeReport(rows, channels[open[i].point].id, open[i].active)) &&
    (forall p :: p in channels && (forall i :: 0 <= i < |open| ==> open[i].point != p) ==>
      Stays(before, rows, channels[p].id))
  }

  lemma {:induction false} SyncOpenTells(channels0: Channels, open: seq<ChannelInfo>, before: seq<Event>, rows: seq<Event>)
    requires Keyed(channels0) && Appended(before, rows, SyncOpen(channels0, open).1)
    ensures Extends(channels0, SyncOpen(channels0, open).0)
    ensures OpenTold(open, before, SyncOpen(channels0, open).0, rows)
    decreases |open|
  {
    hide EnsureChannel, Keyed, Appended, OpenTold;
    if open == [] {
      NothingAppended(before, rows);
      NoneOpen(before, channels0);
    } else {
      var n := |open| - 1;
      var (cs, records) := SyncOpen(channels0, open[..n]);
      var c := open[n];
      var ensured := EnsureChannel(cs, c.point, c.scid, c.peer);
      if ensured.None? {
        assert SyncOpen(channels0, open) == (cs, records);
        SyncOpenTells(channels0, open[..n], before, rows);
        EnsureKeyed(cs, c.point, c.scid, c.peer);
        OpenSkip(open, before, cs, rows);
      } else {
        var cs' := ensured.value;
        var kind := if c.active then Online else Offline;
        assert SyncOpen(channels0, open).1 == records + (Status(cs', c.point, kind, true) + Balance(cs', c, true));
        AppendedSplit(before, rows, records, Status(cs', c.point, kind, true) + Balance(cs', c, true));
        var middle := rows[..|before| + |records|];
        SyncOpenTells(channels0, open[..n], before, middle);
        EnsureKeyed(cs, c.point, c.scid, c.peer);
        var id := cs'[c.point].id;
        TwoRowsEffect(middle, rows, Record(id, kind, None, None, true), Record(id, Update, Some(c.local), Some(c.remote), true));
        TwoRows(middle, rows, Record(id, kind, None, None, true), Record(id, Update, Some(c.local), Some(c.remote), true));
        OpenStep(open, before, middle, rows, cs, cs');
      }
    }
  }

  lemma TwoRows(before: seq<Event>, rows: seq<Event>, r: Record, u: Record)
    requires Appended(before, rows, [r] + [u])
    ensures |rows| == |before| + 2 && rows[..|before|] == before
    ensures rows[|before|].channel == r.channel && rows[|before| + 1].channel == u.channel
  {
    assert RecordOf(rows[|before| + 0]) == ([r] + [u])[0] && RecordOf(rows[|before| + 1]) == ([r] + [u])[1];
  }

  lemma NoneOpen(rows: seq<Event>, channels: Channels)
    ensures OpenTold([], rows, channels, rows)
  {
  }

  lemma OpenSkip(open: seq<ChannelInfo>, before: seq<Event>, channels: Channels, rows: seq<Event>)
    requires open != [] && var n := |open| - 1; OpenTold(open[..n], before, channels, rows)
    requires open[|open| - 1].point !in channels
    ensures OpenTold(open, before, channels, rows)
  {
    hide Reports, StatusBeforeReport, Stays;
    var n := |open| - 1;
    forall i | 0 <= i < n
      ensures open[..n][i] == open[i] && (LastListed(open, i) ==> LastListed(open[..n], i))
    {
    }
  }

  // What syncing one open channel does to the channels and the log.
  ghost predicate Synced(c: ChannelInfo, middle: seq<Event>, rows: seq<Event>, channels: Channels, channels': Channels) {
    Keyed(channels') && (forall p :: p in channels ==> p in channels' && channels'[p] == channels[p]) &&
    c.point in channels' && (forall p :: p in channels' ==> p in channels || p == c.point) &&
    Reports(rows, channels'[c.point].id, c.local, c.remote) && StatusBeforeReport(rows, channels'[c.point].id, c.active) &&
    OnlyAbout(middle, rows, channels'[c.point].id) &&
    |middle| <= |rows| && rows[..|middle|] == middle &&
    forall k :: |middle| <= k < |rows| ==> rows[k].channel == channels'[c.point].id
  }

  // It leaves any other channel alone.
  lemma SyncedOther(c: ChannelInfo, middle: seq<Event>, rows: seq<Event>, channels: Channels, channels': Channels, p: string)
    requires Synced(c, middle, rows, channels, channels') && p in channels' && p != c.point
    ensures p in channels && channels'[p] == channels[p] && Stays(middle, rows, channels[p].id)
    ensures |middle| <= |rows| && rows[..|middle|] == middle
    ensures forall k :: |middle| <= k < |rows| ==> rows[k].channel != channels[p].id
  {
    hide Stays, Reports, StatusBeforeReport;
  }

  lemma OpenStep(open: seq<ChannelInfo>, before: seq<Event>, middle: seq<Event>, rows: seq<Event>,
                 channels: Channels, channels': Channels)
    requires open != [] && OpenTold(open[..|open| - 1], before, channels, middle)
    requires Synced(open[|open| - 1], middle, rows, channels, channels')
    ensures OpenTold(open, before, channels', rows)
  {
    hide StatusBeforeReport, Reports, Stays, Synced;
    var n := |open| - 1;
    assert forall i :: 0 <= i < n ==> open[..n][i] == open[i];
    forall i | 0 <= i < |open| && LastListed(open, i) && open[i].point in channels'
      ensures Reports(rows, channels'[open[i].point].id, open[i].local, open[i].remote)
      ensures StatusBeforeReport(rows, channels'[open[i].point].id, open[i].active)
    {
      if i == n {
        SyncedOwn(open[n], middle, rows, channels, channels');
      } else {
        var p := open[i].point;
        SyncedOther(open[n], middle, rows, channels, channels', p);
        assert LastListed(open[..n], i);
        ReportsKept(middle, rows, channels[p].id, open[i].local, open[i].remote);
        StatusKept(middle, rows, channels[p].id, open[i].active);
      }
    }
    forall p | p in channels' && (forall i :: 0 <= i < |open| ==> open[i].point != p)
      ensures Stays(before, rows, channels'[p].id)
    {
      SyncedOther(open[n], middle, rows, channels, channels', p);
      StaysThrough(before, middle, rows, channels[p].id);
    }
  }

  lemma SyncedOwn(c: ChannelInfo, middle: seq<Event>, rows: seq<Event>, channels: Channels, channels': Channels)
    requires Synced(c, middle, rows, channels, channels')
    ensures c.point in channels' && Reports(rows, channels'[c.point].id, c.local, c.remote)
    ensures StatusBeforeReport(rows, channels'[c.point].id, c.active)
  {
  }

  lemma ReportsKept(middle: seq<Event>, rows: seq<Event>, c: int, local: nat, remote: nat)
    requires Reports(middle, c, local, remote) && Stays(middle, rows, c)
    ensures Reports(rows, c, local, remote)
  {
  }

  // An update counts as being online, so the log shows a listed channel's availability exactly when the
  // channel is active: until its next status event, an inactive one is online too.
  lemma SyncShowsActive(open: seq<ChannelInfo>, before: seq<Event>, channels: Channels, rows: seq<Event>, i: nat, s: Snapshot)
    requires OpenTold(open, before, channels, rows)
    requires i < |open| && LastListed(open, i) && open[i].point in channels
    ensures (ReplayChannel(s, rows, channels[open[i].point].id).online <==> open[i].active) <==> open[i].active
  {
    assert ReplayChannel(s, rows, channels[open[i].point].id).online;
  }

  lemma InactiveShownOnline(rows: seq<Event>)
    requires Appended([], rows, SyncOpen(map[], [ChannelInfo("point", 1, "peer", 5, 7, false)]).1)
    ensures ReplayChannel(UNSEEN, rows, 1) == Snapshot(true, 5, 7)
  {
    var open := [ChannelInfo("point", 1, "peer", 5, 7, false)];
    SyncOpenTells(map[], open, [], rows);
    assert open[..0] == [];
    var channels := SyncOpen(map[], open).0;
    assert channels == map["point" := Channel(1, 1, "peer")];
    assert LastListed(open, 0) && open[0].point in channels;
    assert Reports(rows, channels[open[0].point].id, open[0].local, open[0].remote);
  }

  lemma StatusKept(middle: seq<Event>, rows: seq<Event>, c: int, active: bool)
    requires StatusBeforeReport(middle, c, active) && |middle| <= |rows| && rows[..|middle|] == middle
    requires forall k :: |middle| <= k < |rows| ==> rows[k].channel != c
    ensures StatusBeforeReport(rows, c, active)
  {
    var i :| 0 <= i < |middle| - 1 && StatusThenReport(middle, i, c, active) && NoneAfter(middle, i + 1, c);
    assert forall k :: 0 <= k < |middle| ==> rows[k] == rows[..|middle|][k];
    assert StatusThenReport(rows, i, c, active) && NoneAfter(rows, i + 1, c);
  }

  // What reaches the monitor loop: a (re)connection to a synced lnd with its channel lists, a
  // channel event, or the prune ticker.
  datatype Stimulus =
    | Connect(closedList: Option<seq<ClosedChannel>>, openList: Option<seq<ChannelInfo>>)
    | Notify(event: ChannelEventUpdate)
    | PruneTick

  // What the loop leaves after a stimulus: whether it pruned, whether lnd's channels are synced, and
  // the number of rows.
  datatype Step = Step(pruned: bool, synced: bool, size: nat)

  predicate SyncedBefore(initially: bool, steps: seq<Step>, k: nat)
    requires k <= |steps|
  {
    if k == 0 then initially else steps[k - 1].synced
  }

  predicate Follows(stimulus: Stimulus, initially: bool, steps: seq<Step>, k: nat)
    requires k < |steps|
  {
    var before, step := SyncedBefore(initially, steps, k), steps[k];
    match stimulus
    case PruneTick => step.pruned && step.synced == before
    case Notify(_) => !step.pruned && step.synced == before
    case Connect(closed, open) =>
      step.synced == (before || (closed.Some? && open.Some?)) && step.pruned == (step.synced && !before)
  }

  class Monitor {
    const store: Store
    const maxEvents: nat
    const retention: int
    var synced: bool
    var warnedDestructivePrune: bool

    ghost predicate Valid()
      reads this, store
    {
      LogInvariant(store.rows, store.now) && Keyed(store.channels)
    }

    constructor (store: Store, maxEvents: nat, retention: int)
      requires LogInvariant(store.rows, store.now) && Keyed(store.channels)
      ensures Valid() && !synced && !warnedDestructivePrune
      ensures this.store == store && this.maxEvents == maxEvents && this.retention == retention
    {
      this.store, this.maxEvents, this.retention := store, maxEvents, retention;
      synced, warnedDestructivePrune := false, false;
    }

    // Every event of the monitor leaves its timestamp to the store's clock.
    method AddEvent(r: Record)
      requires Valid() && !r.kind.Unknown?
      requires r.kind.Update? ==> r.local.Some? && r.remote.Some?
      modifies store`rows, store`now
      ensures Valid() && Appended(old(store.rows), store.rows, [r])
    {
      hide Keyed;
      ghost var before, earlier := store.rows, store.now;
      store.AddChannelEvent(NewEvent(r.channel, r.kind, None, r.local, r.remote, r.sync));
      assert store.rows == before + [store.rows[|before|]];
      LogAppend(before, earlier, store.rows[|before|], store.now);
    }

    method AddChannel(point: string, scid: nat, peer: string) returns (ok: bool)
      requires Valid()
      modifies store`channels
      ensures Valid()
      ensures ok <==> EnsureChannel(old(store.channels), point, scid, peer).Some?
      ensures store.channels == EnsureChannel(old(store.channels), point, scid, peer).GetOr(old(store.channels))
    {
      hide LogInvariant, Keyed;
      EnsureKeyed(store.channels, point, scid, peer);
      if point in store.channels {
        return true;
      }
      var inserted := InsertChannel(store.channels, point, scid, peer);
      if inserted.None? {
        return false;
      }
      store.channels := inserted.value;
      ok := true;
    }

    // addOnlineEvent and addOfflineEvent
    method AddStatusEvent(point: string, kind: EventKind, sync: bool) returns (ok: bool)
      requires Valid() && (kind.Online? || kind.Offline?)
      modifies store`rows, store`now
      ensures Valid() && (ok <==> point in store.channels)
      ensures Appended(old(store.rows), store.rows, Status(store.channels, point, kind, sync))
      ensures !ok ==> store.rows == old(store.rows)
      ensures ok ==> GoesOnline(old(store.rows), store.rows, store.channels[point].id, kind.Online?)
      ensures ok ==> forall c :: c != store.channels[point].id ==> Stays(old(store.rows), store.rows, c)
    {
      hide LogInvariant, Keyed, GoesOnline, Stays, Reports;
      ok := point in store.channels;
      if ok {
        ghost var before := store.rows;
        AddEvent(Record(store.channels[point].id, kind, None, None, sync));
        RowEffect(before, store.rows, Record(store.channels[point].id, kind, None, None, sync));
      }
    }

    method AddUpdateEvent(c: ChannelInfo, sync: bool) returns (ok: bool)
      requires Valid()
      modifies store`rows, store`now
      ensures Valid() && (ok <==> c.point in store.channels)
      ensures Appended(old(store.rows), store.rows, Balance(store.channels, c, sync))
      ensures !ok ==> store.rows == old(store.rows)
      ensures ok ==> Reports(store.rows, store.channels[c.point].id, c.local, c.remote)
      ensures ok ==> forall d :: d != store.channels[c.point].id ==> Stays(old(store.rows), store.rows, d)
    {
      hide LogInvariant, Keyed, GoesOnline, Stays, Reports;
      ok := c.point in store.channels;
      if ok {
        ghost var before := store.rows;
        AddEvent(Record(store.channels[c.point].id, Update, Some(c.local), Some(c.remote), sync));
        RowEffect(before, store.rows, Record(store.channels[c.point].id, Update, Some(c.local), Some(c.remote), sync));
      }
    }

    method HandleChannelEvent(e: ChannelEventUpdate) returns (ok: bool)
      requires Valid()
      modifies store
      ensures Valid()
      ensures Handled(store.channels, Handle(old(store.channels), e).records, ok) == Handle(old(store.channels), e)
      ensures Appended(old(store.rows), store.rows, Handle(old(store.channels), e).records)
      ensures Tells(e, old(store.channels), old(store.rows), store.channels, store.rows, ok)
    {
      ghost var rows0, channels0 := store.rows, store.channels;
      assert Appended(rows0, rows0, []);
      hide Appended, LogInvariant, InsertChannel, Keyed, GoesOnline, Reports, Stays, Tells;
      match e {
        case OpenChannelUpdate(None) => ok := false;
        case OpenChannelUpdate(Some(c)) =>
          ok := AddChannel(c.point, c.scid, c.peer);
          if ok {
            ok := AddStatusEvent(c.point, Online, false);
            ghost var rows1 := store.rows;
            ok := AddUpdateEvent(c, false);
            AppendedTwice(rows0, rows1, store.rows, Status(store.channels, c.point, Online, false),
                          Balance(store.channels, c, false));
          }
        case ClosedChannelUpdate(None) => ok := false;
        case ClosedChannelUpdate(Some(p)) => ok := AddStatusEvent(p, Offline, false);
        case ActiveChannelUpdate(p) => ok := AddStatusEvent(p, Online, false);
        case InactiveChannelUpdate(p) => ok := AddStatusEvent(p, Offline, false);
        case PendingOpenChannelUpdate(_) => ok := true;
        case OtherUpdate => ok := true;
        case StateChannelUpdate(None) => ok := false;
        case StateChannelUpdate(Some(c)) => ok := AddUpdateEvent(c, false);
      }
      HandleTells(channels0, e, rows0, store.rows);
    }

    method SyncClosedChannels(closed: seq<ClosedChannel>)
      requires Valid()
      modifies store
      ensures Valid() && store.channels == SyncClosed(old(store.channels), closed).0
      ensures Appended(old(store.rows), store.rows, SyncClosed(old(store.channels), closed).1)
      ensures Extends(old(store.channels), store.channels)
      ensures ClosedTold(closed, old(store.rows), store.channels, store.rows)
    {
      hide Keyed, LogInvariant, InsertChannel, GoesOnline, Stays, ClosedTold, Extends, Appended, EnsureChannel;
      ghost var rows0, channels0 := store.rows, store.channels;
      AppendedNone(rows0);
      for i := 0 to |closed|
        invariant Valid() && store.channels == SyncClosed(channels0, closed[..i]).0
        invariant Appended(rows0, store.rows, SyncClosed(channels0, closed[..i]).1)
      {
        var c := closed[i];
        assert closed[..i + 1][..i] == closed[..i] && closed[..i + 1][i] == c;
        if c.scid == 0 {
          continue;
        }
        ghost var before, records := store.rows, SyncClosed(channels0, closed[..i]).1;
        var ok := AddChannel(c.point, c.scid, c.peer);
        if !ok {
          continue;
        }
        ok := AddStatusEvent(c.point, Offline, true);
        AppendedTwice(rows0, before, store.rows, records, Status(store.channels, c.point, Offline, true));
      }
      assert closed[..|closed|] == closed;
      SyncClosedTells(channels0, closed, rows0, store.rows);
    }

    method SyncOpenChannels(open: seq<ChannelInfo>)
      requires Valid()
      modifies store
      ensures Valid() && store.channels == SyncOpen(old(store.channels), open).0
      ensures Appended(old(store.rows), store.rows, SyncOpen(old(store.channels), open).1)
      ensures Extends(old(store.channels), store.channels)
      ensures OpenTold(open, old(store.rows), store.channels, store.rows)
    {
      hide Keyed, LogInvariant, InsertChannel, Reports, GoesOnline, Stays, OpenTold, Extends, Appended, EnsureChannel;
      ghost var rows0, channels0 := store.rows, store.channels;
      AppendedNone(rows0);
      for i := 0 to |open|
        invariant Valid() && store.channels == SyncOpen(channels0, open[..i]).0
        invariant Appended(rows0, store.rows, SyncOpen(channels0, open[..i]).1)
      {
        var c := open[i];
        assert open[..i + 1][..i] == open[..i] && open[..i + 1][i] == c;
        ghost var before, records := store.rows, SyncOpen(channels0, open[..i]).1;
        var ok := AddChannel(c.point, c.scid, c.peer);
        if !ok {
          continue;
        }
        var kind := if c.active then Online else Offline;
        ok := AddStatusEvent(c.point, kind, true);
        AppendedTwice(rows0, before, store.rows, records, Status(store.channels, c.point, kind, true));
        before, records := store.rows, records + Status(store.channels, c.point, kind, true);
        ok := AddUpdateEvent(c, true);
        AppendedTwice(rows0, before, store.rows, records, Balance(store.channels, c, true));
      }
      assert open[..|open|] == open;
      SyncOpenTells(channels0, open, rows0, store.rows);
    }

    // initialSync
    method InitialSync(closed: Option<seq<ClosedChannel>>, open: Option<seq<ChannelInfo>>) returns (ok: bool)
      requires Valid()
      modifies store
      ensures Valid()
      ensures Handled(store.channels, Sync(old(store.channels), closed, open).records, ok)
           == Sync(old(store.channels), closed, open)
      ensures Appended(old(store.rows), store.rows, Sync(old(store.channels), closed, open).records)
      ensures ok <==> closed.Some? && open.Some?
      ensures closed.None? ==> store.rows == old(store.rows) && store.channels == old(store.channels)
      ensures closed.Some? && open.None? ==> ClosedTold(closed.value, old(store.rows), store.channels, store.rows)
      ensures ok ==> exists known, rows ::
        ClosedTold(closed.value, old(store.rows), known, rows) && Extends(known, store.channels) &&
        OpenTold(open.value, rows, store.channels, store.rows)
    {
      hide ClosedTold, OpenTold, Extends, SyncClosed, SyncOpen, Keyed, LogInvariant;
      if closed.None? {
        return false;
      }
      SyncClosedChannels(closed.value);
      if open.None? {
        return false;
      }
      ghost var rows1, records := store.rows, SyncClosed(old(store.channels), closed.value).1;
      ghost var more := SyncOpen(store.channels, open.value).1;
      SyncOpenChannels(open.value);
      AppendedTwice(old(store.rows), rows1, store.rows, records, more);
      ok := true;
    }

    // pruneEvents: a prune that is refused changes nothing; the first destructive one is remembered.
    method PruneEvents()
      requires Valid()
      modifies this`warnedDestructivePrune, store`rows, store`now
      ensures Valid()
      ensures maxEvents <= MAX_INT32 ==> store.rows == Kept(old(store.rows), maxEvents, retention, store.now)
      ensures maxEvents > MAX_INT32 ==> store.rows == old(store.rows)
      ensures 0 < maxEvents <= MAX_INT32 ==> |store.rows| <= maxEvents
      ensures warnedDestructivePrune <==> old(warnedDestructivePrune) || |store.rows| < |old(store.rows)|
    {
      ghost var before, earlier := store.rows, store.now;
      var r := store.PruneEvents(maxEvents, retention);
      LogPrune(before, earlier, maxEvents, retention, store.now);
      KeptExactly(before, maxEvents, retention, store.now);
      if r.Ok? && r.value != 0 && !warnedDestructivePrune {
        warnedDestructivePrune := true;
      }
    }

    // monitorLoop and subscribe, for any order in which events, prunes and reconnections arrive, with
    // what each of them left. The ticker prunes, and so does the one connection that completes the
    // initial sync; the table is within its limit after each prune.
    method Run(schedule: seq<Stimulus>) returns (steps: seq<Step>)
      requires Valid()
      modifies this, store
      ensures Valid() && |steps| == |schedule|
      ensures forall k :: 0 <= k < |schedule| ==> Follows(schedule[k], old(synced), steps, k)
      ensures 0 < maxEvents <= MAX_INT32 ==> forall s :: s in steps && s.pruned ==> s.size <= maxEvents
    {
      hide LogInvariant, Keyed, Kept, Handle, Tells, SyncClosed, SyncOpen, Appended;
      steps := [];
      for k := 0 to |schedule|
        invariant Valid() && |steps| == k
        invariant synced == SyncedBefore(old(synced), steps, k)
        invariant forall j :: 0 <= j < k ==> Follows(schedule[j], old(synced), steps, j)
        invariant 0 < maxEvents <= MAX_INT32 ==> forall s :: s in steps && s.pruned ==> s.size <= maxEvents
      {
        var pruned := false;
        ghost var before := steps;
        match schedule[k] {
          case Connect(closed, open) =>
            if !synced {
              var ok := InitialSync(closed, open);
              if ok {
                synced := true;
                PruneEvents();
                pruned := true;
              }
            }
          case Notify(e) =>
            var handled := HandleChannelEvent(e);
          case PruneTick =>
            PruneEvents();
            pruned := true;
        }
        steps := steps + [Step(pruned, synced, |store.rows|)];
        assert forall j :: 0 <= j < k ==> steps[j] == before[j];
      }
    }
  }
}
