/**
 Seeding a window from the latest earlier update (getInitialChannelState in chanevents/analyzer.go),
 and why it refines replaying the whole log.
 */
module Seeding {
  import opened Wrappers
  import opened ChannelEvents
  import opened UptimeMeaning
  import opened EventTable
  import opened PeerEvents
  import opened UptimeWalk

  // residualEventLimit
  const RESIDUAL_EVENT_LIMIT := 1024

  // The replay of the residual events after the seed update.
  function Residual(s: Snapshot, es: seq<Event>, seedTime: int): Result<Snapshot, AnalyzerError>
    decreases |es|
  {
    if es == [] then Ok(s)
    else match es[0].kind
      case Offline => Residual(s.(online := false), es[1..], seedTime)
      case Online => Residual(s.(online := true), es[1..], seedTime)
      case Update => if es[0].time != seedTime then Err(UnexpectedUpdateEvent) else Residual(s, es[1..], seedTime)
      case Unknown => Err(UnknownEventType)
  }

  function SeedFrom(rows: seq<Event>, u: Event, start: int): Result<Snapshot, AnalyzerError> {
    var residual := SelectPage(rows, u.channel, u.id, u.time, start, RESIDUAL_EVENT_LIMIT);
    if |residual| == RESIDUAL_EVENT_LIMIT then Err(ResidualOverflow)
    else Residual(Snapshot(true, u.local.GetOr(0), u.remote.GetOr(0)), residual, u.time)
  }

  // The state a window starting at `start` opens with.
  function Seed(rows: seq<Event>, chan: int, start: int): Result<Snapshot, AnalyzerError>
    requires IsTable(rows)
  {
    match LatestUpdateBefore(rows, chan, start)
    case None => Ok(UNSEEN)
    case Some(u) => SeedFrom(rows, u, start)
  }

  // getInitialChannelState
  method GetInitialChannelState(rows: seq<Event>, start: int, chan: int)
    returns (r: Result<ChannelState, AnalyzerError>)
    requires IsTable(rows)
    ensures r.Err? <==> Seed(rows, chan, start).Err?
    ensures r.Err? ==> r.error == Seed(rows, chan, start).error
    ensures r.Ok? ==> fresh(r.value) && r.value.View() == Seed(rows, chan, start).value
  {
    var lastUpdate := LatestUpdateBefore(rows, chan, start);
    if lastUpdate.None? {
      var blank := new ChannelState(UNSEEN);
      return Ok(blank);
    }
    var u := lastUpdate.value;
    var state := new ChannelState(Snapshot(true, u.local.GetOr(0), u.remote.GetOr(0)));
    var residual := SelectPage(rows, chan, u.id, u.time, start, RESIDUAL_EVENT_LIMIT);
    if |residual| == RESIDUAL_EVENT_LIMIT {
      return Err(ResidualOverflow);
    }
    ghost var rest := residual;
    for i := 0 to |residual|
      invariant fresh(state) && rest == residual[i..]
      invariant Residual(state.View(), rest, u.time) == Seed(rows, chan, start)
    {
      match residual[i].kind {
        case Offline => state.online := false;
        case Online => state.online := true;
        case Update =>
          if residual[i].time != u.time {
            return Err(UnexpectedUpdateEvent);
          }
        case Unknown => return Err(UnknownEventType);
      }
      rest := rest[1..];
    }
    r := Ok(state);
  }

  /* The residual query never returns an update. */

  // On any table whatsoever, no update lies beyond the seed, so the defensive check never fires.
  lemma ResidualHasNoUpdate(rows: seq<Event>, chan: int, start: int, u: Event)
    requires IsTable(rows) && LatestUpdateBefore(rows, chan, start) == Some(u)
    ensures forall e :: e in Select(rows, chan, u.id, u.time, start) ==> !e.kind.Update?
  {
    SelectMembers(rows, chan, u.id, u.time, start);
    forall e | e in Select(rows, chan, u.id, u.time, start)
      ensures !e.kind.Update?
    {
      assert IsUpdateBefore(e, chan, start) ==> NotNewer(e, u);
    }
  }

  lemma {:induction false} ResidualWithoutUpdates(s: Snapshot, es: seq<Event>, seedTime: int, c: int)
    requires forall e :: e in es ==> !e.kind.Update? && e.channel == c
    ensures var r := Residual(s, es, seedTime);
      (r.Err? ==> r.error == UnknownEventType) && (r.Ok? ==> r.value == ReplayChannel(s, es, c)) &&
      (r.Err? <==> exists e :: e in es && e.kind.Unknown?)
    decreases |es|
  {
    if es != [] {
      assert es == [es[0]] + es[1..];
      if !es[0].kind.Unknown? {
        ResidualWithoutUpdates(Apply(s, es[0]), es[1..], seedTime, c);
      }
    }
  }

  // On any table seeding fails in two ways only, and errUnexpectedUpdateEvent is unreachable: it
  // fails exactly when there are too many residual events or one of them has an unknown type.
  lemma SeedFailures(rows: seq<Event>, chan: int, start: int)
    requires IsTable(rows)
    ensures Seed(rows, chan, start) != Err(UnexpectedUpdateEvent)
    ensures Seed(rows, chan, start).Err? <==>
      var latest := LatestUpdateBefore(rows, chan, start);
      latest.Some? &&
      var residual := Select(rows, chan, latest.value.id, latest.value.time, start);
      (|residual| >= RESIDUAL_EVENT_LIMIT || exists e :: e in residual && e.kind.Unknown?)
  {
    var latest := LatestUpdateBefore(rows, chan, start);
    if latest.Some? {
      var u := latest.value;
      ResidualHasNoUpdate(rows, chan, start, u);
      SelectMembers(rows, chan, u.id, u.time, start);
      ResidualWithoutUpdates(Snapshot(true, u.local.GetOr(0), u.remote.GetOr(0)),
                             Select(rows, chan, u.id, u.time, start), u.time, chan);
    }
  }

  /* Seeding against full replay. */

  // A channel's state just before `start`, from every event the log ever recorded for it.
  function Full(rows: seq<Event>, chan: int, start: int): Snapshot {
    ReplayChannel(UNSEEN, UpTo(rows, start - 1), chan)
  }

  lemma {:induction false} ReplayChannelConcat(s: Snapshot, a: seq<Event>, b: seq<Event>, c: int)
    ensures ReplayChannel(s, a + b, c) == ReplayChannel(ReplayChannel(s, a, c), b, c)
    decreases |a|
  {
    if a == [] {
      assert a + b == b;
    } else {
      assert (a + b)[0] == a[0] && (a + b)[1..] == a[1..] + b;
      ReplayChannelConcat(if a[0].channel == c then Apply(s, a[0]) else s, a[1..], b, c);
    }
  }

  lemma {:induction false} NoUpdateNoBalance(s: Snapshot, rows: seq<Event>, chan: int, start: int)
    requires forall e :: e in rows ==> !IsUpdateBefore(e, chan, start)
    ensures var r := ReplayChannel(s, UpTo(rows, start - 1), chan); r.local == s.local && r.remote == s.remote
    decreases |rows|
  {
    if rows != [] {
      var live := rows[0].time <= start - 1 && rows[0].channel == chan;
      assert rows[0] in rows;
      NoUpdateNoBalance(if live then Apply(s, rows[0]) else s, rows[1..], chan, start);
    }
  }

  lemma {:induction false} SelectConcat(a: seq<Event>, b: seq<Event>, chan: int, after: int, s: int, e: int)
    ensures Select(a + b, chan, after, s, e) == Select(a, chan, after, s, e) + Select(b, chan, after, s, e)
    decreases |a|
  {
    if a == [] {
      assert a + b == b;
    } else {
      assert (a + b)[0] == a[0] && (a + b)[1..] == a[1..] + b;
      SelectConcat(a[1..], b, chan, after, s, e);
    }
  }

  lemma {:induction false} SelectNone(es: seq<Event>, chan: int, after: int, s: int, e: int)
    requires forall x :: x in es ==> x.id <= after
    ensures Select(es, chan, after, s, e) == []
    decreases |es|
  {
    if es != [] {
      SelectNone(es[1..], chan, after, s, e);
    }
  }

  // Beyond the seed, replaying what the query returns is replaying the log.
  lemma {:induction false} ReplaySelected(x: Snapshot, es: seq<Event>, chan: int, after: int, s: int, e: int)
    requires forall r :: r in es ==> r.id > after && r.time >= s
    ensures ReplayChannel(x, Select(es, chan, after, s, e), chan) == ReplayChannel(x, UpTo(es, e - 1), chan)
    decreases |es|
  {
    if es != [] {
      var live := Matches(es[0], chan, after, s, e);
      ReplaySelected(if live then Apply(x, es[0]) else x, es[1..], chan, after, s, e);
    }
  }

  // The log around the row at index i: everything before it is older, everything after it newer.
  lemma LogSplit(rows: seq<Event>, i: nat)
    requires IsLog(rows) && i < |rows|
    ensures rows == rows[..i] + ([rows[i]] + rows[i + 1..])
    ensures forall e :: e in rows[..i] ==> e.id < rows[i].id && e.time <= rows[i].time
    ensures forall e :: e in rows[i + 1..] ==> e.id > rows[i].id && e.time >= rows[i].time
  {
  }

  lemma FullFromSeed(rows: seq<Event>, chan: int, start: int, u: Event)
    requires IsLog(rows) && FullUpdates(rows)
    requires u in rows && IsUpdateBefore(u, chan, start)
    ensures Full(rows, chan, start)
         == ReplayChannel(Snapshot(true, u.local.GetOr(0), u.remote.GetOr(0)),
                          Select(rows, chan, u.id, u.time, start), chan)
  {
    var i :| 0 <= i < |rows| && rows[i] == u;
    var pre, post := rows[..i], rows[i + 1..];
    LogSplit(rows, i);
    UpToConcat(pre, [u] + post, start - 1);
    UpToConcat([u], post, start - 1);
    assert UpTo([u], start - 1) == [u];
    var s := ReplayChannel(UNSEEN, UpTo(pre, start - 1), chan);
    ReplayChannelConcat(UNSEEN, UpTo(pre, start - 1), [u] + UpTo(post, start - 1), chan);
    assert ReplayChannel(s, [u] + UpTo(post, start - 1), chan)
        == ReplayChannel(Apply(s, u), UpTo(post, start - 1), chan);
    SelectConcat(pre, [u] + post, chan, u.id, u.time, start);
    SelectConcat([u], post, chan, u.id, u.time, start);
    SelectNone(pre, chan, u.id, u.time, start);
    SelectNone([u], chan, u.id, u.time, start);
    ReplaySelected(Apply(s, u), post, chan, u.id, u.time, start);
  }

  // Whatever state seeding returns, full replay agrees with it: equal balances, and an equal online
  // flag unless the channel is empty.
  lemma SeedMatchesReplay(rows: seq<Event>, chan: int, start: int)
    requires IsLog(rows) && FullUpdates(rows)
    requires Seed(rows, chan, start).Ok?
    ensures Alike(Seed(rows, chan, start).value, Full(rows, chan, start))
  {
    match LatestUpdateBefore(rows, chan, start) {
      case None => NoUpdateNoBalance(UNSEEN, rows, chan, start);
      case Some(u) =>
        FullFromSeed(rows, chan, start, u);
        ResidualHasNoUpdate(rows, chan, start, u);
        SelectMembers(rows, chan, u.id, u.time, start);
        ResidualWithoutUpdates(Snapshot(true, u.local.GetOr(0), u.remote.GetOr(0)),
                               Select(rows, chan, u.id, u.time, start), u.time, chan);
    }
  }

  /* The seeded window against the whole log, for every later instant. */

  // A peer that knows nothing but the log: every channel unseen, and every row ever recorded.
  ghost function LogPeer(rows: seq<Event>, chans: set<int>): Peer {
    Peer(map c | c in chans :: UNSEEN, rows)
  }

  // The states of a set of channels as seeding found them.
  ghost predicate Seeded(rows: seq<Event>, m: States, start: int)
    requires IsTable(rows)
  {
    forall c :: c in m ==> Seed(rows, c, start) == Ok(m[c])
  }

  // What the analysis works with: seeded states and the loaded window.
  ghost function WindowPeer(rows: seq<Event>, m: States, start: int, end: int): Peer {
    Peer(m, PeerStream(rows, m.Keys, start, end))
  }

  // Replaying the log up to t is replaying it up to the window and then the window up to t.
  lemma {:induction false} ReplaySplit(x: Snapshot, rows: seq<Event>, chans: set<int>, c: int, s: int, t: int, e: int)
    requires ByTime(rows) && c in chans && s - 1 <= t < e
    ensures ReplayChannel(x, UpTo(rows, t), c)
         == ReplayChannel(ReplayChannel(x, UpTo(rows, s - 1), c), UpTo(Window(rows, chans, s, e), t), c)
    decreases |rows|
  {
    if rows != [] {
      var r := rows[0];
      if r.time >= s {
        AllLater(rows, s - 1);
        UpToNone(rows, s - 1);
        UpToNone(rows[1..], s - 1);
      }
      var live := r.time <= t && r.channel == c;
      ReplaySplit(if live then Apply(x, r) else x, rows[1..], chans, c, s, t, e);
    }
  }

  lemma SeededLiquidity(rows: seq<Event>, m: States, start: int, end: int, side: Side, t: int)
    requires IsLog(rows) && FullUpdates(rows) && Seeded(rows, m, start)
    requires start <= t < end
    ensures LiquidityAt(WindowPeer(rows, m, start, end), side, t) == LiquidityAt(LogPeer(rows, m.Keys), side, t)
  {
    var blank := LogPeer(rows, m.Keys).states;
    var w := Window(rows, m.Keys, start, end);
    StreamOfLog(rows, m.Keys, start, end);
    ReplayPointwise(m, UpTo(w, t));
    ReplayPointwise(blank, UpTo(rows, t));
    forall c | c in m
      ensures Alike(Replay(m, UpTo(w, t))[c], Replay(blank, UpTo(rows, t))[c])
    {
      SeedMatchesReplay(rows, c, start);
      ReplaySplit(UNSEEN, rows, m.Keys, c, start, t, end);
      AlikeReplay(m[c], Full(rows, c, start), UpTo(w, t), c);
    }
    AlikeTotal(Replay(m, UpTo(w, t)), Replay(blank, UpTo(rows, t)), side);
  }

  // Seeding refines full replay: a seeded window counts exactly the instants at which replaying the
  // whole log qualifies the pair.
  lemma SeededUptime(rows: seq<Event>, a: States, b: States, floor: int, start: int, end: int)
    requires IsLog(rows) && FullUpdates(rows)
    requires Seeded(rows, a, start) && Seeded(rows, b, start)
    ensures Uptime(WindowPeer(rows, a, start, end), WindowPeer(rows, b, start, end), floor, start, end)
         == Uptime(LogPeer(rows, a.Keys), LogPeer(rows, b.Keys), floor, start, end)
  {
    forall t | start <= t < end
      ensures LiquidityAt(WindowPeer(rows, a, start, end), Remote, t) == LiquidityAt(LogPeer(rows, a.Keys), Remote, t)
      ensures LiquidityAt(WindowPeer(rows, b, start, end), Local, t) == LiquidityAt(LogPeer(rows, b.Keys), Local, t)
    {
      SeededLiquidity(rows, a, start, end, Remote, t);
      SeededLiquidity(rows, b, start, end, Local, t);
    }
    UptimeCongruence(WindowPeer(rows, a, start, end), WindowPeer(rows, b, start, end),
                     LogPeer(rows, a.Keys), LogPeer(rows, b.Keys), floor, start, end);
  }

  // Windows add up: splitting a window at m and re-seeding the second half from the log at m loses
  // and gains nothing.
  lemma WindowsAddUp(rows: seq<Event>, floor: int, s: int, m: int, e: int,
                     a: States, b: States, a': States, b': States)
    requires IsLog(rows) && FullUpdates(rows) && s <= m <= e
    requires Seeded(rows, a, s) && Seeded(rows, b, s)
    requires Seeded(rows, a', m) && Seeded(rows, b', m)
    requires a.Keys == a'.Keys && b.Keys == b'.Keys
    ensures Uptime(WindowPeer(rows, a, s, e), WindowPeer(rows, b, s, e), floor, s, e)
         == Uptime(WindowPeer(rows, a, s, m), WindowPeer(rows, b, s, m), floor, s, m) +
            Uptime(WindowPeer(rows, a', m, e), WindowPeer(rows, b', m, e), floor, m, e)
  {
    SeededUptime(rows, a, b, floor, s, e);
    SeededUptime(rows, a, b, floor, s, m);
    SeededUptime(rows, a', b', floor, m, e);
    UptimeAdds(LogPeer(rows, a.Keys), LogPeer(rows, b.Keys), floor, s, m, e);
  }

  /* Pruning. On a log every prune keeps a suffix. */

  // The channel's analysis does not lean on a pruned row: its seed survives, or, lacking a seed,
  // none of its window rows was pruned.
  predicate Survives(rows: seq<Event>, k: nat, chan: int, start: int)
    requires IsTable(rows) && k <= |rows|
  {
    match LatestUpdateBefore(rows, chan, start)
    case Some(u) => u in rows[k..]
    case None => forall e :: e in rows[..k] && e.channel == chan ==> e.time < start
  }

  lemma PrunedIsOlder(rows: seq<Event>, k: nat, u: Event)
    requires IsLog(rows) && k <= |rows| && u in rows[k..]
    ensures forall e :: e in rows[..k] ==> e.id < u.id && e.time <= u.time
  {
  }

  lemma SeedUpdateSurvives(rows: seq<Event>, k: nat, chan: int, start: int)
    requires IsLog(rows) && k <= |rows| && Survives(rows, k, chan, start)
    ensures LatestUpdateBefore(rows[k..], chan, start) == LatestUpdateBefore(rows, chan, start)
  {
    assert forall e :: e in rows[k..] ==> e in rows;
    var latest, kept := LatestUpdateBefore(rows, chan, start), LatestUpdateBefore(rows[k..], chan, start);
    if latest.Some? {
      var u := latest.value;
      assert u in rows[k..] && IsUpdateBefore(u, chan, start);
      assert kept.Some?;
      assert NotNewer(u, kept.value) && NotNewer(kept.value, u);
      SameRow(rows, u, kept.value);
    }
  }

  // Rows of a table that do not come before one another are one row.
  lemma SameRow(rows: seq<Event>, e: Event, f: Event)
    requires IsTable(rows) && e in rows && f in rows
    requires NotNewer(e, f) && NotNewer(f, e)
    ensures e == f
  {
    var i :| 0 <= i < |rows| && rows[i] == e;
    var j :| 0 <= j < |rows| && rows[j] == f;
  }

  lemma SeedSurvives(rows: seq<Event>, k: nat, chan: int, start: int)
    requires IsLog(rows) && k <= |rows| && Survives(rows, k, chan, start)
    ensures Seed(rows[k..], chan, start) == Seed(rows, chan, start)
  {
    SeedUpdateSurvives(rows, k, chan, start);
    var latest := LatestUpdateBefore(rows, chan, start);
    if latest.Some? {
      var u := latest.value;
      PrunedIsOlder(rows, k, u);
      assert rows == rows[..k] + rows[k..];
      SelectConcat(rows[..k], rows[k..], chan, u.id, u.time, start);
      SelectNone(rows[..k], chan, u.id, u.time, start);
      assert Select(rows, chan, u.id, u.time, start) == Select(rows[k..], chan, u.id, u.time, start);
    }
  }

  lemma {:induction false} WindowConcat(a: seq<Event>, b: seq<Event>, chans: set<int>, s: int, e: int)
    ensures Window(a + b, chans, s, e) == Window(a, chans, s, e) + Window(b, chans, s, e)
    decreases |a|
  {
    if a == [] {
      assert a + b == b;
    } else {
      assert (a + b)[0] == a[0] && (a + b)[1..] == a[1..] + b;
      WindowConcat(a[1..], b, chans, s, e);
    }
  }

  lemma StreamSurvives(rows: seq<Event>, k: nat, chans: set<int>, start: int, end: int)
    requires IsLog(rows) && k <= |rows|
    requires forall c :: c in chans ==> Survives(rows, k, c, start)
    ensures PeerStream(rows[k..], chans, start, end) == PeerStream(rows, chans, start, end)
  {
    var pruned := Window(rows[..k], chans, start, end);
    WindowMembers(rows[..k], chans, start, end);
    if pruned != [] {
      var e := pruned[0];
      assert e in pruned && Survives(rows, k, e.channel, start);
      var latest := LatestUpdateBefore(rows, e.channel, start);
      if latest.Some? {
        PrunedIsOlder(rows, k, latest.value);
      }
      assert false;
    }
    assert rows == rows[..k] + rows[k..];
    WindowConcat(rows[..k], rows[k..], chans, start, end);
    assert Window(rows, chans, start, end) == Window(rows[k..], chans, start, end);
  }

  // Pruning preserves analysis: the seeds, the loaded window and therefore every uptime computed
  // from the pruned log are those of the full one.
  lemma PrunePreservesAnalysis(rows: seq<Event>, k: nat, a: States, b: States, floor: int, start: int, end: int)
    requires IsLog(rows) && k <= |rows|
    requires forall c :: c in a.Keys + b.Keys ==> Survives(rows, k, c, start)
    ensures forall c :: c in a.Keys + b.Keys ==> Seed(rows[k..], c, start) == Seed(rows, c, start)
    ensures WindowPeer(rows[k..], a, start, end) == WindowPeer(rows, a, start, end)
    ensures WindowPeer(rows[k..], b, start, end) == WindowPeer(rows, b, start, end)
    ensures Uptime(WindowPeer(rows[k..], a, start, end), WindowPeer(rows[k..], b, start, end), floor, start, end)
         == Uptime(WindowPeer(rows, a, start, end), WindowPeer(rows, b, start, end), floor, start, end)
  {
    forall c | c in a.Keys + b.Keys
      ensures Seed(rows[k..], c, start) == Seed(rows, c, start)
    {
      SeedSurvives(rows, k, c, start);
    }
    StreamSurvives(rows, k, a.Keys, start, end);
    StreamSurvives(rows, k, b.Keys, start, end);
  }
}
