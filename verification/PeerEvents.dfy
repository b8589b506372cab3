/**
 Loading one peer's events (loadPeerEvents in chanevents/analyzer.go): channel by channel, page by
 page, then one stable sort by (timestamp, id).
 */
module PeerEvents {
  import opened Wrappers
  import opened ChannelEvents
  import opened EventTable
  import opened StableSort

  // eventPageSize
  const EVENT_PAGE_SIZE := 1000

  // The rows of a set of channels in [start, end), by id.
  function Window(rows: seq<Event>, chans: set<int>, start: int, end: int): seq<Event> {
    if rows == [] then []
    else
      var rest := Window(rows[1..], chans, start, end);
      if rows[0].channel in chans && start <= rows[0].time < end then [rows[0]] + rest else rest
  }

  lemma {:induction false} WindowMembers(rows: seq<Event>, chans: set<int>, start: int, end: int)
    ensures forall e :: e in Window(rows, chans, start, end)
                   <==> e in rows && e.channel in chans && start <= e.time < end
    decreases |rows|
  {
    if rows != [] {
      WindowMembers(rows[1..], chans, start, end);
      assert rows == [rows[0]] + rows[1..];
    }
  }

  // A single channel's window is what the paged query returns from cursor 0.
  lemma {:induction false} WindowOfOne(rows: seq<Event>, chan: int, start: int, end: int)
    requires IsTable(rows)
    ensures Select(rows, chan, 0, start, end) == Window(rows, {chan}, start, end)
    decreases |rows|
  {
    if rows != [] {
      TableTail(rows);
      WindowOfOne(rows[1..], chan, start, end);
    }
  }

  lemma {:induction false} WindowAdds(rows: seq<Event>, chans: set<int>, c: int, start: int, end: int)
    requires c !in chans
    ensures multiset(Window(rows, chans + {c}, start, end))
         == multiset(Window(rows, chans, start, end)) + multiset(Window(rows, {c}, start, end))
    decreases |rows|
  {
    if rows != [] {
      WindowAdds(rows[1..], chans, c, start, end);
    }
  }

  lemma {:induction false} WindowOfNone(rows: seq<Event>, start: int, end: int)
    ensures Window(rows, {}, start, end) == []
    decreases |rows|
  {
    if rows != [] {
      WindowOfNone(rows[1..], start, end);
    }
  }

  /* The order of the final sort. */

  predicate Precedes(e: Event, f: Event) {
    e.time < f.time || (e.time == f.time && e.id < f.id)
  }

  predicate UniqueIds(es: seq<Event>) {
    forall e, f :: e in es && f in es && e.id == f.id ==> e == f
  }

  lemma PrecedesIsOrder()
    ensures Order(Precedes)
  {
  }

  // sort.SliceStable by (timestamp, id).
  function SortEvents(es: seq<Event>): (r: seq<Event>)
    ensures Sorted(r, Precedes) && multiset(r) == multiset(es)
  {
    PrecedesIsOrder();
    Sort(es, Precedes)
  }

  lemma SameHead(a: seq<Event>, b: seq<Event>)
    requires multiset(a) == multiset(b) && UniqueIds(a)
    requires Sorted(a, Precedes) && Sorted(b, Precedes) && a != [] && b != []
    ensures a[0] == b[0]
  {
    assert a[0] in multiset(b) && b[0] in multiset(a);
    var i :| 0 <= i < |b| && b[i] == a[0];
    var j :| 0 <= j < |a| && a[j] == b[0];
    assert !Precedes(b[i], b[0]) && !Precedes(a[j], a[0]);
  }

  // There is only one way to sort events with unique ids.
  lemma {:induction false} SortUnique(a: seq<Event>, b: seq<Event>)
    requires multiset(a) == multiset(b) && UniqueIds(a)
    requires Sorted(a, Precedes) && Sorted(b, Precedes)
    ensures a == b
    decreases |a|
  {
    assert |multiset(a)| == |a| && |multiset(b)| == |b|;
    if a != [] {
      SameHead(a, b);
      SortedTail(a, Precedes);
      SortedTail(b, Precedes);
      assert multiset(a[1..]) == multiset(a) - multiset{a[0]};
      assert multiset(b[1..]) == multiset(b) - multiset{b[0]};
      SortUnique(a[1..], b[1..]);
    }
  }

  // A peer's stream in [start, end): its channels' rows in (timestamp, id) order.
  function PeerStream(rows: seq<Event>, chans: set<int>, start: int, end: int): seq<Event> {
    SortEvents(Window(rows, chans, start, end))
  }

  lemma SortedByTime(es: seq<Event>)
    requires Sorted(es, Precedes)
    ensures ByTime(es)
  {
  }

  lemma StreamMembers(rows: seq<Event>, chans: set<int>, start: int, end: int)
    ensures forall e :: e in PeerStream(rows, chans, start, end)
                   <==> e in rows && e.channel in chans && start <= e.time < end
  {
    WindowMembers(rows, chans, start, end);
    var w := Window(rows, chans, start, end);
    assert forall e :: e in SortEvents(w) <==> e in multiset(SortEvents(w));
    assert forall e :: e in w <==> e in multiset(w);
  }

  lemma WindowUniqueIds(rows: seq<Event>, chans: set<int>, start: int, end: int)
    requires IsTable(rows)
    ensures UniqueIds(Window(rows, chans, start, end))
  {
    WindowMembers(rows, chans, start, end);
    var w := Window(rows, chans, start, end);
    forall e, f | e in w && f in w && e.id == f.id
      ensures e == f
    {
      var i :| 0 <= i < |rows| && rows[i] == e;
      var j :| 0 <= j < |rows| && rows[j] == f;
    }
  }

  lemma {:induction false} WindowIsLog(rows: seq<Event>, chans: set<int>, start: int, end: int)
    requires IsLog(rows)
    ensures Sorted(Window(rows, chans, start, end), Precedes)
    decreases |rows|
  {
    if rows != [] {
      TableTail(rows);
      var rest := Window(rows[1..], chans, start, end);
      WindowIsLog(rows[1..], chans, start, end);
      WindowMembers(rows[1..], chans, start, end);
      forall e | e in rest
        ensures !Precedes(e, rows[0])
      {
        var j :| 0 <= j < |rows[1..]| && rows[1..][j] == e;
        assert rows[0].time <= rows[j + 1].time;
      }
      SortedCons(rows[0], rest, Precedes);
    }
  }

  // On a log the sort has nothing to do.
  lemma StreamOfLog(rows: seq<Event>, chans: set<int>, start: int, end: int)
    requires IsLog(rows)
    ensures PeerStream(rows, chans, start, end) == Window(rows, chans, start, end)
  {
    var w := Window(rows, chans, start, end);
    WindowIsLog(rows, chans, start, end);
    WindowUniqueIds(rows, chans, start, end);
    SortUnique(w, SortEvents(w));
  }

  // The paging loop over one channel: whatever the page size, nothing is lost or repeated.
  method LoadChannelEvents(rows: seq<Event>, chan: int, start: int, end: int, pageSize: nat)
    returns (events: seq<Event>)
    requires IsTable(rows) && pageSize >= 1
    ensures events == Select(rows, chan, 0, start, end)
  {
    events := [];
    var afterID := 0;
    while true
      invariant events + Select(rows, chan, afterID, start, end) == Select(rows, chan, 0, start, end)
      decreases |Select(rows, chan, afterID, start, end)|
    {
      var page := SelectPage(rows, chan, afterID, start, end, pageSize);
      events := events + page;
      if |page| < pageSize {
        break;
      }
      NextPage(rows, chan, afterID, start, end, pageSize);
      afterID := page[|page| - 1].id;
    }
  }

  lemma StreamUnique(rows: seq<Event>, chans: set<int>, start: int, end: int, loaded: seq<Event>)
    requires IsTable(rows)
    requires multiset(loaded) == multiset(Window(rows, chans, start, end))
    ensures SortEvents(loaded) == PeerStream(rows, chans, start, end)
  {
    var w := Window(rows, chans, start, end);
    WindowUniqueIds(rows, chans, start, end);
    assert forall e :: e in SortEvents(w) <==> e in multiset(SortEvents(w));
    assert forall e :: e in w <==> e in multiset(w);
    SortUnique(SortEvents(w), SortEvents(loaded));
  }

  lemma WindowStep(rows: seq<Event>, chanIDs: seq<int>, i: nat, start: int, end: int)
    requires IsTable(rows) && NoRepeats(chanIDs) && i < |chanIDs|
    ensures multiset(Window(rows, ToSet(chanIDs[..i + 1]), start, end))
         == multiset(Window(rows, ToSet(chanIDs[..i]), start, end)) +
            multiset(Select(rows, chanIDs[i], 0, start, end))
  {
    WindowOfOne(rows, chanIDs[i], start, end);
    WindowAdds(rows, ToSet(chanIDs[..i]), chanIDs[i], start, end);
    assert chanIDs[..i + 1] == chanIDs[..i] + [chanIDs[i]];
    assert ToSet(chanIDs[..i + 1]) == ToSet(chanIDs[..i]) + {chanIDs[i]};
  }

  // The result does not depend on the order in which the peer's channels are visited.
  method LoadPeerEvents(rows: seq<Event>, start: int, end: int, chanIDs: seq<int>)
    returns (events: seq<Event>)
    requires IsTable(rows)
    requires NoRepeats(chanIDs)
    ensures events == PeerStream(rows, ToSet(chanIDs), start, end)
  {
    events := [];
    WindowOfNone(rows, start, end);
    assert ToSet(chanIDs[..0]) == {};
    for i := 0 to |chanIDs|
      invariant multiset(events) == multiset(Window(rows, ToSet(chanIDs[..i]), start, end))
    {
      var page := LoadChannelEvents(rows, chanIDs[i], start, end, EVENT_PAGE_SIZE);
      WindowStep(rows, chanIDs, i, start, end);
      events := events + page;
    }
    assert chanIDs[..|chanIDs|] == chanIDs;
    StreamUnique(rows, ToSet(chanIDs), start, end, events);
    events := SortEvents(events);
  }
}
