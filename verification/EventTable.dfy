/**
 The channel_events table and its statements (db/sqlc/chanevents.sql.go). The table is the sequence
 of its rows in primary-key order; each statement is the meaning of its SQL text.
 */
module EventTable {
  import opened Wrappers
  import opened ChannelEvents

  // Primary keys are positive and unique, and rows are listed by key.
  predicate IsTable(rows: seq<Event>) {
    (forall i :: 0 <= i < |rows| ==> rows[i].id > 0) &&
    (forall i, j :: 0 <= i < j < |rows| ==> rows[i].id < rows[j].id)
  }

  // Insertion order agrees with time order.
  predicate IsLog(rows: seq<Event>) {
    IsTable(rows) && ByTime(rows)
  }

  // Every update carries both balances.
  predicate FullUpdates(rows: seq<Event>) {
    forall e :: e in rows && e.kind.Update? ==> e.local.Some? && e.remote.Some?
  }

  // WHERE channel_id = chan AND id > after AND timestamp >= start AND timestamp < end
  predicate Matches(e: Event, chan: int, after: int, start: int, end: int) {
    e.channel == chan && e.id > after && start <= e.time < end
  }

  // getChannelEvents without its LIMIT: the matching rows ORDER BY id ASC.
  function Select(rows: seq<Event>, chan: int, after: int, start: int, end: int): seq<Event> {
    if rows == [] then []
    else
      var rest := Select(rows[1..], chan, after, start, end);
      if Matches(rows[0], chan, after, start, end) then [rows[0]] + rest else rest
  }

  function Take(es: seq<Event>, limit: nat): seq<Event> {
    if |es| <= limit then es else es[..limit]
  }

  function SelectPage(rows: seq<Event>, chan: int, after: int, start: int, end: int, limit: nat): seq<Event> {
    Take(Select(rows, chan, after, start, end), limit)
  }

  predicate IsUpdateBefore(e: Event, chan: int, before: int) {
    e.channel == chan && e.kind.Update? && e.time < before
  }

  // The ORDER BY timestamp DESC, id DESC position of an event: e does not come before f.
  predicate NotNewer(e: Event, f: Event) {
    e.time < f.time || (e.time == f.time && e.id <= f.id)
  }

  // getLatestChannelEventBefore for update events: the first row in newest-first order.
  function LatestUpdateBefore(rows: seq<Event>, chan: int, before: int): (r: Option<Event>)
    requires IsTable(rows)
    ensures r.Some? ==> r.value in rows && IsUpdateBefore(r.value, chan, before)
    ensures r.Some? ==> forall e :: e in rows && IsUpdateBefore(e, chan, before) ==> NotNewer(e, r.value)
    ensures r.None? ==> forall e :: e in rows ==> !IsUpdateBefore(e, chan, before)
  {
    if rows == [] then None
    else
      var n := |rows| - 1;
      var older := LatestUpdateBefore(rows[..n], chan, before);
      assert forall e :: e in rows ==> e in rows[..n] || e == rows[n];
      assert forall e :: e in rows[..n] ==> e.id < rows[n].id;
      if IsUpdateBefore(rows[n], chan, before) && (older.Some? ==> older.value.time <= rows[n].time)
      then Some(rows[n])
      else older
  }

  // The seed query returns a channel's update before an instant with the greatest (timestamp, id), and
  // nothing only when there is no such update.
  lemma LatestUpdateMeans(rows: seq<Event>, chan: int, before: int)
    requires IsTable(rows)
    ensures match LatestUpdateBefore(rows, chan, before)
            case None => forall e :: e in rows && e.channel == chan && e.kind.Update? ==> e.time >= before
            case Some(u) =>
              u in rows && u.channel == chan && u.kind.Update? && u.time < before &&
              forall e :: e in rows && e.channel == chan && e.kind.Update? && e.time < before ==>
                e.time < u.time || (e.time == u.time && e.id <= u.id)
  {
    var latest := LatestUpdateBefore(rows, chan, before);
    forall e | e in rows && e.channel == chan && e.kind.Update? && e.time < before
      ensures latest.Some? && NotNewer(e, latest.value)
    {
      assert IsUpdateBefore(e, chan, before);
    }
  }

  // SELECT id ORDER BY id DESC LIMIT 1 OFFSET offset, COALESCEd to 0.
  function IdAtOffset(rows: seq<Event>, offset: nat): int {
    if offset < |rows| then rows[|rows| - 1 - offset].id else 0
  }

  // DELETE WHERE id < bound, as the rows that remain.
  function DeleteIdsBelow(rows: seq<Event>, bound: int): seq<Event> {
    if rows == [] then []
    else
      var rest := DeleteIdsBelow(rows[1..], bound);
      if rows[0].id < bound then rest else [rows[0]] + rest
  }

  // DELETE WHERE timestamp < cutoff, as the rows that remain.
  function DeleteOlder(rows: seq<Event>, cutoff: int): (r: seq<Event>)
    ensures |r| <= |rows|
  {
    if rows == [] then []
    else
      var rest := DeleteOlder(rows[1..], cutoff);
      if rows[0].time < cutoff then rest else [rows[0]] + rest
  }

  /* Facts about the statements. */

  lemma {:induction false} SelectMembers(rows: seq<Event>, chan: int, after: int, start: int, end: int)
    ensures forall e :: e in Select(rows, chan, after, start, end)
                   <==> e in rows && e.channel == chan && e.id > after && start <= e.time < end
    decreases |rows|
  {
    if rows != [] {
      SelectMembers(rows[1..], chan, after, start, end);
      assert rows == [rows[0]] + rows[1..];
    }
  }

  lemma TableCons(x: Event, t: seq<Event>)
    requires x.id > 0 && IsTable(t)
    requires forall e :: e in t ==> x.id < e.id
    ensures IsTable([x] + t)
  {
    var xt := [x] + t;
    forall i, j | 0 <= i < j < |xt|
      ensures xt[i].id < xt[j].id
    {
      assert xt[j] == t[j - 1] && xt[j] in t;
      if i > 0 {
        assert xt[i] == t[i - 1];
      }
    }
    forall i | 0 <= i < |xt|
      ensures xt[i].id > 0
    {
      assert i > 0 ==> xt[i] == t[i - 1];
    }
  }

  lemma TableTail(rows: seq<Event>)
    requires IsTable(rows) && rows != []
    ensures IsTable(rows[1..])
    ensures forall e :: e in rows[1..] ==> rows[0].id < e.id
  {
    forall e | e in rows[1..]
      ensures rows[0].id < e.id
    {
      var j :| 0 <= j < |rows[1..]| && rows[1..][j] == e;
    }
  }

  lemma {:induction false} SelectIsTable(rows: seq<Event>, chan: int, after: int, start: int, end: int)
    requires IsTable(rows)
    ensures IsTable(Select(rows, chan, after, start, end))
    decreases |rows|
  {
    if rows != [] {
      TableTail(rows);
      SelectIsTable(rows[1..], chan, after, start, end);
      SelectMembers(rows[1..], chan, after, start, end);
      var rest := Select(rows[1..], chan, after, start, end);
      if Matches(rows[0], chan, after, start, end) {
        TableCons(rows[0], rest);
      }
    }
  }

  // Raising the cursor below every remaining key changes nothing.
  lemma {:induction false} SelectRaise(rows: seq<Event>, chan: int, after: int, after': int, start: int, end: int)
    requires after <= after'
    requires forall e :: e in rows ==> e.id > after'
    ensures Select(rows, chan, after', start, end) == Select(rows, chan, after, start, end)
    decreases |rows|
  {
    if rows != [] {
      SelectRaise(rows[1..], chan, after, after', start, end);
    }
  }

  // The query resumed after its k-th result returns exactly the results beyond the k-th.
  lemma {:induction false} SelectResume(rows: seq<Event>, chan: int, after: int, start: int, end: int, k: nat)
    requires IsTable(rows)
    requires k < |Select(rows, chan, after, start, end)|
    ensures Select(rows, chan, Select(rows, chan, after, start, end)[k].id, start, end)
         == Select(rows, chan, after, start, end)[k + 1..]
    decreases |rows|
  {
    var rest := rows[1..];
    var more := Select(rest, chan, after, start, end);
    TableTail(rows);
    SelectMembers(rest, chan, after, start, end);
    if !Matches(rows[0], chan, after, start, end) {
      SelectResume(rest, chan, after, start, end, k);
      assert more[k] in more;
    } else if k == 0 {
      SelectRaise(rest, chan, after, rows[0].id, start, end);
    } else {
      SelectResume(rest, chan, after, start, end, k - 1);
      assert more[k - 1] in more;
    }
  }

  // A full page leaves the query resumed at its last id with exactly the rows it cut off.
  lemma NextPage(rows: seq<Event>, chan: int, after: int, start: int, end: int, limit: nat)
    requires IsTable(rows) && limit >= 1
    requires |SelectPage(rows, chan, after, start, end, limit)| == limit
    ensures var all := Select(rows, chan, after, start, end);
            var page := SelectPage(rows, chan, after, start, end, limit);
            page + Select(rows, chan, page[limit - 1].id, start, end) == all &&
            |Select(rows, chan, page[limit - 1].id, start, end)| < |all|
  {
    SelectResume(rows, chan, after, start, end, limit - 1);
  }
}
