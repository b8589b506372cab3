/**
 The event store (chanevents/store.go) over the channels and channel_events tables, and the exact
 meaning of pruning.
 */
module EventStore {
  import opened Wrappers
  import opened ChannelEvents
  import opened UptimeMeaning
  import opened EventTable
  import opened Seeding

  // math.MaxInt32
  const MAX_INT32 := 0x7FFF_FFFF

  /* What a prune keeps. */

  function Newest(rows: seq<Event>, maxEvents: nat): seq<Event> {
    if maxEvents == 0 || |rows| <= maxEvents then rows else rows[|rows| - maxEvents..]
  }

  function Kept(rows: seq<Event>, maxEvents: nat, retention: int, now: int): (r: seq<Event>)
    ensures |r| <= |rows|
  {
    var newest := Newest(rows, maxEvents);
    if retention > 0 then DeleteOlder(newest, now - retention) else newest
  }

  lemma {:induction false} DeleteIdsIsSuffix(rows: seq<Event>, k: nat)
    requires IsTable(rows) && k < |rows|
    ensures DeleteIdsBelow(rows, rows[k].id) == rows[k..]
    decreases |rows|
  {
    if k == 0 {
      DeleteIdsNothing(rows, rows[0].id);
    } else {
      DeleteIdsIsSuffix(rows[1..], k - 1);
    }
  }

  lemma {:induction false} DeleteIdsNothing(rows: seq<Event>, bound: int)
    requires forall i :: 0 <= i < |rows| ==> rows[i].id >= bound
    ensures DeleteIdsBelow(rows, bound) == rows
    decreases |rows|
  {
    if rows != [] {
      DeleteIdsNothing(rows[1..], bound);
    }
  }

  // The DELETE with its COALESCEd subquery keeps exactly the newest maxEvents rows.
  lemma PruneBySizeKeepsNewest(rows: seq<Event>, maxEvents: nat)
    requires IsTable(rows) && maxEvents > 0
    ensures DeleteIdsBelow(rows, IdAtOffset(rows, maxEvents - 1)) == Newest(rows, maxEvents)
  {
    if maxEvents - 1 < |rows| {
      DeleteIdsIsSuffix(rows, |rows| - maxEvents);
    } else {
      DeleteIdsNothing(rows, 0);
    }
  }

  lemma {:induction false} DeleteOlderMembers(rows: seq<Event>, cutoff: int)
    ensures forall e :: e in DeleteOlder(rows, cutoff) <==> e in rows && e.time >= cutoff
    decreases |rows|
  {
    if rows != [] {
      DeleteOlderMembers(rows[1..], cutoff);
      assert rows == [rows[0]] + rows[1..];
    }
  }

  lemma {:induction false} DeleteOlderTwice(rows: seq<Event>, cutoff: int)
    ensures DeleteOlder(DeleteOlder(rows, cutoff), cutoff) == DeleteOlder(rows, cutoff)
    decreases |rows|
  {
    if rows != [] {
      DeleteOlderTwice(rows[1..], cutoff);
    }
  }

  lemma {:induction false} DeleteOlderIsTable(rows: seq<Event>, cutoff: int)
    requires IsTable(rows)
    ensures IsTable(DeleteOlder(rows, cutoff))
    decreases |rows|
  {
    if rows != [] {
      TableTail(rows);
      DeleteOlderIsTable(rows[1..], cutoff);
      DeleteOlderMembers(rows[1..], cutoff);
      if rows[0].time >= cutoff {
        TableCons(rows[0], DeleteOlder(rows[1..], cutoff));
      }
    }
  }

  // The number of rows with a higher id.
  function NewerCount(rows: seq<Event>, id: int): nat {
    if rows == [] then 0 else (if rows[0].id > id then 1 else 0) + NewerCount(rows[1..], id)
  }

  lemma {:induction false} NewerCountAt(rows: seq<Event>, k: nat)
    requires IsTable(rows) && k < |rows|
    ensures NewerCount(rows, rows[k].id) == |rows| - 1 - k
    decreases |rows|
  {
    if k == 0 {
      AllNewer(rows[1..], rows[0].id);
    } else {
      NewerCountAt(rows[1..], k - 1);
    }
  }

  lemma {:induction false} AllNewer(rows: seq<Event>, id: int)
    requires forall i :: 0 <= i < |rows| ==> rows[i].id > id
    ensures NewerCount(rows, id) == |rows|
    decreases |rows|
  {
    if rows != [] {
      AllNewer(rows[1..], id);
    }
  }

  // The newest rows are those with fewer than maxEvents rows after them.
  lemma NewestMember(rows: seq<Event>, maxEvents: nat, e: Event)
    requires IsTable(rows)
    ensures e in Newest(rows, maxEvents) <==> e in rows && (maxEvents > 0 ==> NewerCount(rows, e.id) < maxEvents)
  {
    hide NewerCount;
    var newest := Newest(rows, maxEvents);
    if e in rows {
      var k :| 0 <= k < |rows| && rows[k] == e;
      NewerCountAt(rows, k);
      if |rows| > maxEvents > 0 {
        var cut := |rows| - maxEvents;
        if k >= cut {
          assert newest[k - cut] == e;
        }
        if e in newest {
          var j :| 0 <= j < |newest| && newest[j] == e;
          assert rows[j + cut] == e;
        }
      }
    }
  }

  // Exactly the rows among the newest maxEvents that are young enough survive a prune.
  lemma KeptExactly(rows: seq<Event>, maxEvents: nat, retention: int, now: int)
    requires IsTable(rows)
    ensures forall e :: e in Kept(rows, maxEvents, retention, now) <==>
      e in rows && (maxEvents > 0 ==> NewerCount(rows, e.id) < maxEvents) && (retention > 0 ==> e.time >= now - retention)
    ensures maxEvents > 0 ==> |Kept(rows, maxEvents, retention, now)| <= maxEvents
  {
    hide NewerCount, IsTable, DeleteOlder;
    var newest := Newest(rows, maxEvents);
    DeleteOlderMembers(newest, now - retention);
    forall e
      ensures e in newest <==> e in rows && (maxEvents > 0 ==> NewerCount(rows, e.id) < maxEvents)
    {
      NewestMember(rows, maxEvents, e);
    }
  }

  lemma KeptIsTable(rows: seq<Event>, maxEvents: nat, retention: int, now: int)
    requires IsTable(rows)
    ensures IsTable(Kept(rows, maxEvents, retention, now))
  {
    DeleteOlderIsTable(Newest(rows, maxEvents), now - retention);
  }

  // Pruning again at the same clock deletes nothing.
  lemma PruneIdempotent(rows: seq<Event>, maxEvents: nat, retention: int, now: int)
    ensures Kept(Kept(rows, maxEvents, retention, now), maxEvents, retention, now)
         == Kept(rows, maxEvents, retention, now)
  {
    hide DeleteOlder;
    DeleteOlderTwice(Newest(rows, maxEvents), now - retention);
  }

  lemma {:induction false} DeleteOlderOfLog(rows: seq<Event>, cutoff: int) returns (k: nat)
    requires ByTime(rows)
    ensures k <= |rows| && DeleteOlder(rows, cutoff) == rows[k..]
    decreases |rows|
  {
    if rows == [] {
      k := 0;
    } else {
      k := DeleteOlderOfLog(rows[1..], cutoff);
      if rows[0].time >= cutoff {
        DeleteOlderAll(rows, cutoff);
        k := 0;
      } else {
        k := k + 1;
      }
    }
  }

  lemma {:induction false} DeleteOlderAll(rows: seq<Event>, cutoff: int)
    requires forall i :: 0 <= i < |rows| ==> rows[i].time >= cutoff
    ensures DeleteOlder(rows, cutoff) == rows
    decreases |rows|
  {
    if rows != [] {
      DeleteOlderAll(rows[1..], cutoff);
    }
  }

  // On a log both limits together cut off a prefix.
  lemma PruneOfLog(rows: seq<Event>, maxEvents: nat, retention: int, now: int) returns (k: nat)
    requires IsLog(rows)
    ensures k <= |rows| && Kept(rows, maxEvents, retention, now) == rows[k..]
  {
    var newest := Newest(rows, maxEvents);
    k := |rows| - |newest|;
    if retention > 0 {
      var j := DeleteOlderOfLog(newest, now - retention);
      k := k + j;
    }
  }

  // The whole analysis survives a prune that leaves every considered channel's footing in place.
  lemma PruneKeepsAnalysis(rows: seq<Event>, maxEvents: nat, retention: int, now: int,
                           a: States, b: States, floor: int, start: int, end: int)
    requires IsLog(rows)
    requires forall c :: c in a.Keys + b.Keys ==>
      Survives(rows, |rows| - |Kept(rows, maxEvents, retention, now)|, c, start)
    ensures var pruned := Kept(rows, maxEvents, retention, now);
      IsTable(pruned) &&
      (forall c :: c in a.Keys + b.Keys ==> Seed(pruned, c, start) == Seed(rows, c, start)) &&
      WindowPeer(pruned, a, start, end) == WindowPeer(rows, a, start, end) &&
      WindowPeer(pruned, b, start, end) == WindowPeer(rows, b, start, end) &&
      Uptime(WindowPeer(pruned, a, start, end), WindowPeer(pruned, b, start, end), floor, start, end)
      == Uptime(WindowPeer(rows, a, start, end), WindowPeer(rows, b, start, end), floor, start, end)
  {
    KeptIsTable(rows, maxEvents, retention, now);
    var k := PruneOfLog(rows, maxEvents, retention, now);
    assert k == |rows| - |Kept(rows, maxEvents, retention, now)|;
    PrunePreservesAnalysis(rows, k, a, b, floor, start, end);
  }

  /* The store. */

  datatype StoreError = MaxEventsTooLarge | UnknownChannel | ConstraintViolation

  // A row of the channels table, with its peer's public key.
  datatype Channel = Channel(id: int, scid: nat, peer: string)

  // An event to insert. A None timestamp is the zero time, which the store replaces by its clock.
  datatype NewEvent = NewEvent(channel: int, kind: EventKind, time: Option<int>,
                               local: Option<nat>, remote: Option<nat>, sync: bool)

  // UNIQUE (channel_point) and UNIQUE (short_channel_id): the channels after an insert, if accepted.
  // The auto-incrementing key counts the channels, which are never deleted.
  function InsertChannel(channels: map<string, Channel>, point: string, scid: nat, peer: string): Option<map<string, Channel>> {
    if point in channels || exists p :: p in channels && channels[p].scid == scid then None
    else Some(channels[point := Channel(|channels| + 1, scid, peer)])
  }

  // A refused insert names a known channel point or short channel id; any other adds one channel under a
  // fresh id and keeps all others.
  lemma InsertedChannel(channels: map<string, Channel>, point: string, scid: nat, peer: string)
    requires forall p :: p in channels ==> 1 <= channels[p].id <= |channels|
    ensures match InsertChannel(channels, point, scid, peer)
            case None => point in channels || exists p :: p in channels && channels[p].scid == scid
            case Some(cs) =>
              point !in channels && (forall p :: p in channels ==> channels[p].scid != scid) &&
              cs.Keys == channels.Keys + {point} && (forall p :: p in channels ==> cs[p] == channels[p]) &&
              cs[point].scid == scid && cs[point].peer == peer &&
              (forall p :: p in channels ==> channels[p].id < cs[point].id) &&
              forall p :: p in cs ==> 1 <= cs[p].id <= |cs|
  {
    var cs := InsertChannel(channels, point, scid, peer);
    if cs.Some? {
      assert cs.value.Keys == channels.Keys + {point};
      assert |cs.value| == |cs.value.Keys| == |channels| + 1;
    }
  }

  lemma AppendsBeyond(rows: seq<Event>, row: Event)
    requires IsTable(rows) && row.id > if rows == [] then 0 else rows[|rows| - 1].id
    ensures IsTable(rows + [row]) && forall r :: r in rows ==> r.id < row.id
  {
  }

  class Store {
    var rows: seq<Event>
    var channels: map<string, Channel>
    // The reading of a clock that never runs backwards.
    var now: int

    constructor (clock: int)
      ensures rows == [] && channels == map[] && now == clock
    {
      rows, channels, now := [], map[], clock;
    }

    // clock.Now: any later or equal reading.
    method ReadClock() returns (t: int)
      modifies this`now
      ensures t == now >= old(now)
    {
      var elapsed :| elapsed >= 0;
      now := now + elapsed;
      t := now;
    }

    // AddChannelEvent: the row gets a key above all present ones.
    method AddChannelEvent(e: NewEvent)
      requires IsTable(rows)
      modifies this`rows, this`now
      ensures IsTable(rows) && now >= old(now)
      ensures |rows| == |old(rows)| + 1 && rows[..|old(rows)|] == old(rows)
      ensures var row := rows[|old(rows)|];
        row.channel == e.channel && row.kind == e.kind && row.local == e.local && row.remote == e.remote &&
        row.sync == e.sync && row.time == (match e.time case None => now case Some(t) => t) &&
        forall r :: r in old(rows) ==> r.id < row.id
    {
      hide IsTable;
      var timestamp := e.time.GetOr(0);
      if e.time.None? {
        timestamp := ReadClock();
      }
      var gap :| gap >= 0;
      var id := 1 + gap + (if rows == [] then 0 else rows[|rows| - 1].id);
      AppendsBeyond(rows, Event(id, e.channel, e.kind, timestamp, e.local, e.remote, e.sync));
      rows := rows + [Event(id, e.channel, e.kind, timestamp, e.local, e.remote, e.sync)];
    }

    // PruneChannelEventsBySize, with its row count.
    method PruneBySize(offset: nat) returns (deleted: nat)
      requires IsTable(rows)
      modifies this`rows
      ensures IsTable(rows) && rows == Newest(old(rows), offset + 1)
      ensures deleted == |old(rows)| - |rows|
    {
      PruneBySizeKeepsNewest(rows, offset + 1);
      var left := DeleteIdsBelow(rows, IdAtOffset(rows, offset));
      deleted := |rows| - |left|;
      rows := left;
    }

    // PruneChannelEventsByAge, with its row count.
    method PruneByAge(cutoff: int) returns (deleted: nat)
      requires IsTable(rows)
      modifies this`rows
      ensures IsTable(rows) && rows == DeleteOlder(old(rows), cutoff)
      ensures deleted == |old(rows)| - |rows|
    {
      DeleteOlderIsTable(rows, cutoff);
      var left := DeleteOlder(rows, cutoff);
      deleted := |rows| - |left|;
      rows := left;
    }

    // PruneEvents: size first, then age. A clock reading is only taken when the age limit is on.
    method PruneEvents(maxEvents: nat, retention: int) returns (r: Result<nat, StoreError>)
      requires IsTable(rows)
      modifies this`rows, this`now
      ensures r.Err? <==> maxEvents > MAX_INT32
      ensures now >= old(now) && IsTable(rows)
      ensures r.Err? ==> rows == old(rows)
      ensures r.Ok? ==> rows == Kept(old(rows), maxEvents, retention, now)
      ensures r.Ok? ==> r.value == |old(rows)| - |rows|
    {
      hide IsTable, DeleteOlder;
      if maxEvents == 0 && retention == 0 {
        return Ok(0);
      }
      var pruned := 0;
      if maxEvents > 0 {
        if maxEvents > MAX_INT32 {
          return Err(MaxEventsTooLarge);
        }
        var bySize := PruneBySize(maxEvents - 1);
        pruned := pruned + bySize;
      }
      if retention > 0 {
        var t := ReadClock();
        var byAge := PruneByAge(t - retention);
        pruned := pruned + byAge;
      }
      r := Ok(pruned);
    }
  }
}
