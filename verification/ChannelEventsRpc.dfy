/**
 The paginated read of a channel's events (GetChannelEvents in frdrpcserver/getchanevents.go) and a
 client that follows its cursor.
 */
module ChannelEventsRpc {
  import opened Wrappers
  import opened ChannelEvents
  import opened EventTable
  import opened EventStore

  // maxChannelEventsLimit
  const MAX_CHANNEL_EVENTS_LIMIT := 10000

  datatype Request = Request(chanPoint: string, startTime: int, endTime: int, maxEvents: nat, lastId: int)

  datatype RpcEvent = RpcEvent(id: int, timestamp: int, kind: EventKind, localBalance: nat, remoteBalance: nat)

  datatype Response = Response(events: seq<RpcEvent>, lastId: int, hasMore: bool)

  datatype RpcError = InvalidArgument | NotFound

  // Whole seconds, and unset balances as zero.
  function Marshal(e: Event): RpcEvent {
    RpcEvent(e.id, e.time / NANOS, e.kind, e.local.GetOr(0), e.remote.GetOr(0))
  }

  function MarshalAll(es: seq<Event>): seq<RpcEvent> {
    seq(|es|, i requires 0 <= i < |es| => Marshal(es[i]))
  }

  function EndOf(req: Request, now: int): int {
    if req.endTime != 0 then req.endTime * NANOS else now
  }

  function LimitOf(req: Request): (limit: nat)
    ensures 1 <= limit <= MAX_CHANNEL_EVENTS_LIMIT
    ensures 1 <= req.maxEvents ==> limit <= req.maxEvents
  {
    if req.maxEvents != 0 && req.maxEvents < MAX_CHANNEL_EVENTS_LIMIT then req.maxEvents
    else MAX_CHANNEL_EVENTS_LIMIT
  }

  function Serve(rows: seq<Event>, channels: map<string, Channel>, req: Request, now: int): Result<Response, RpcError> {
    if req.chanPoint == "" || req.startTime < 0 || req.endTime < 0 then Err(InvalidArgument)
    else if req.startTime * NANOS > EndOf(req, now) || req.lastId < 0 then Err(InvalidArgument)
    else if req.chanPoint !in channels then Err(NotFound)
    else
      var es := SelectPage(rows, channels[req.chanPoint].id, req.lastId, req.startTime * NANOS, EndOf(req, now), LimitOf(req));
      Ok(Response(MarshalAll(es), if es == [] then 0 else es[|es| - 1].id, |es| == LimitOf(req)))
  }

  // Everything a request asks for, beyond its cursor, without a limit.
  function Unlimited(rows: seq<Event>, channels: map<string, Channel>, req: Request, now: int): seq<Event>
    requires req.chanPoint in channels
  {
    Select(rows, channels[req.chanPoint].id, req.lastId, req.startTime * NANOS, EndOf(req, now))
  }

  // While there is more, the number of rows beyond the cursor strictly falls, and the page together
  // with what the next request asks for is all this request asks for.
  lemma CursorAdvances(rows: seq<Event>, channels: map<string, Channel>, req: Request, now: int)
    requires IsTable(rows) && Serve(rows, channels, req, now).Ok?
    requires Serve(rows, channels, req, now).value.hasMore
    ensures var resp := Serve(rows, channels, req, now).value;
      var next := req.(lastId := resp.lastId);
      Serve(rows, channels, next, now).Ok? &&
      |Unlimited(rows, channels, next, now)| < |Unlimited(rows, channels, req, now)| &&
      MarshalAll(Unlimited(rows, channels, req, now)) == resp.events + MarshalAll(Unlimited(rows, channels, next, now))
  {
    var chan, s, e := channels[req.chanPoint].id, req.startTime * NANOS, EndOf(req, now);
    var page := SelectPage(rows, chan, req.lastId, s, e, LimitOf(req));
    NextPage(rows, chan, req.lastId, s, e, LimitOf(req));
    SelectMembers(rows, chan, req.lastId, s, e);
    assert page[|page| - 1] in Select(rows, chan, req.lastId, s, e);
  }

  // A client that keeps asking until hasMore is false, on a table and a clock that stand still.
  function Follow(rows: seq<Event>, channels: map<string, Channel>, req: Request, now: int): Result<seq<RpcEvent>, RpcError>
    requires IsTable(rows)
    decreases if req.chanPoint in channels then |Unlimited(rows, channels, req, now)| else 0
  {
    match Serve(rows, channels, req, now)
    case Err(error) => Err(error)
    case Ok(resp) =>
      if !resp.hasMore then Ok(resp.events)
      else
        CursorAdvances(rows, channels, req, now);
        match Follow(rows, channels, req.(lastId := resp.lastId), now)
        case Err(error) => Err(error)
        case Ok(more) => Ok(resp.events + more)
  }

  // Whatever page size the client asks for, following the cursor loses and repeats nothing.
  lemma {:induction false} FollowIsUnlimited(rows: seq<Event>, channels: map<string, Channel>, req: Request, now: int)
    requires IsTable(rows) && Serve(rows, channels, req, now).Ok?
    ensures Follow(rows, channels, req, now) == Ok(MarshalAll(Unlimited(rows, channels, req, now)))
    decreases |Unlimited(rows, channels, req, now)|
  {
    var resp := Serve(rows, channels, req, now).value;
    if resp.hasMore {
      CursorAdvances(rows, channels, req, now);
      FollowIsUnlimited(rows, channels, req.(lastId := resp.lastId), now);
    }
  }

  // The pages do not depend on the page size.
  lemma PageSizeIrrelevant(rows: seq<Event>, channels: map<string, Channel>, req: Request, maxEvents: nat, now: int)
    requires IsTable(rows)
    ensures Follow(rows, channels, req.(maxEvents := maxEvents), now) == Follow(rows, channels, req, now)
  {
    if Serve(rows, channels, req, now).Ok? {
      FollowIsUnlimited(rows, channels, req, now);
      FollowIsUnlimited(rows, channels, req.(maxEvents := maxEvents), now);
    }
  }

  // What a client reads in an event: whole seconds, each balance in its own place, and zero for one that
  // the row does not have.
  predicate Conveys(r: RpcEvent, e: Event) {
    r.id == e.id && r.kind == e.kind && r.timestamp * 1_000_000_000 <= e.time < (r.timestamp + 1) * 1_000_000_000 &&
    (e.local.Some? ==> r.localBalance == e.local.value) && (e.local.None? ==> r.localBalance == 0) &&
    (e.remote.Some? ==> r.remoteBalance == e.remote.value) && (e.remote.None? ==> r.remoteBalance == 0)
  }

  method MarshalRPCChannelEvents(es: seq<Event>) returns (rpcEvents: seq<RpcEvent>)
    ensures rpcEvents == MarshalAll(es)
    ensures |rpcEvents| == |es| && forall i :: 0 <= i < |es| ==> Conveys(rpcEvents[i], es[i])
  {
    rpcEvents := [];
    for i := 0 to |es|
      invariant rpcEvents == MarshalAll(es[..i])
    {
      rpcEvents := rpcEvents + [Marshal(es[i])];
    }
    assert es[..|es|] == es;
  }

  // Which rows a request asks for.
  predicate Wanted(e: Event, chan: int, req: Request, now: int) {
    e.channel == chan && e.id > req.lastId &&
    req.startTime * 1_000_000_000 <= e.time < if req.endTime == 0 then now else req.endTime * 1_000_000_000
  }

  // The rows of a page.
  ghost function PageOf(rows: seq<Event>, chan: int, req: Request, now: int): seq<Event> {
    SelectPage(rows, chan, req.lastId, req.startTime * NANOS, EndOf(req, now), LimitOf(req))
  }

  // A page holds wanted rows in ascending order, and leaves none out before its last; if it leaves any
  // out it is as long as was asked for, 10,000 rows at most and when nothing was.
  lemma PageHolds(rows: seq<Event>, chan: int, req: Request, now: int)
    requires IsTable(rows)
    ensures var page, limit := PageOf(rows, chan, req, now), if 0 < req.maxEvents < 10_000 then req.maxEvents else 10_000;
      IsTable(page) && |page| <= limit &&
      (forall e :: e in page ==> e in rows && Wanted(e, chan, req, now)) &&
      (forall e :: e in rows && Wanted(e, chan, req, now) && e !in page ==>
        |page| == limit && e.id > page[|page| - 1].id)
  {
    hide Select, IsTable;
    var s, e := req.startTime * NANOS, EndOf(req, now);
    var all, page := Select(rows, chan, req.lastId, s, e), PageOf(rows, chan, req, now);
    SelectMembers(rows, chan, req.lastId, s, e);
    SelectIsTable(rows, chan, req.lastId, s, e);
    FirstRows(all, |page|);
    forall x | x in rows && Wanted(x, chan, req, now) && x !in page
      ensures |page| == LimitOf(req) && x.id > page[|page| - 1].id
    {
      assert x in all;
    }
  }

  lemma FirstRows(rows: seq<Event>, n: nat)
    requires IsTable(rows) && n <= |rows|
    ensures IsTable(rows[..n])
    ensures n > 0 ==> forall e :: e in rows && e !in rows[..n] ==> e.id > rows[..n][n - 1].id
  {
    assert forall k :: 0 <= k < n ==> rows[..n][k] == rows[k];
    forall e | e in rows && e !in rows[..n]
      ensures n > 0 ==> e.id > rows[n - 1].id
    {
      var k :| 0 <= k < |rows| && rows[k] == e;
      assert k >= n;
    }
  }

  // A successful answer conveys its page, says whether that is full, and names its last row.
  lemma AnswerSays(rows: seq<Event>, channels: map<string, Channel>, req: Request, now: int)
    requires Serve(rows, channels, req, now).Ok?
    ensures req.chanPoint in channels
    ensures var resp, page := Serve(rows, channels, req, now).value, PageOf(rows, channels[req.chanPoint].id, req, now);
      |resp.events| == |page| && (forall i :: 0 <= i < |page| ==> Conveys(resp.events[i], page[i])) &&
      (resp.hasMore <==> |page| == if 0 < req.maxEvents < 10_000 then req.maxEvents else 10_000) &&
      resp.lastId == if page == [] then 0 else page[|page| - 1].id
  {
    hide Select, Take, Conveys, Marshal;
    var page := PageOf(rows, channels[req.chanPoint].id, req, now);
    forall i | 0 <= i < |page|
      ensures Conveys(Marshal(page[i]), page[i])
    {
      MarshalConveys(page[i]);
    }
  }

  lemma MarshalConveys(e: Event)
    ensures Conveys(Marshal(e), e)
  {
  }

  // GetChannelEvents
  method GetChannelEvents(rows: seq<Event>, channels: map<string, Channel>, req: Request, now: int)
    returns (r: Result<Response, RpcError>)
    ensures r == Serve(rows, channels, req, now)
    ensures r == Err(InvalidArgument) <==>
      req.chanPoint == "" || req.startTime < 0 || req.endTime < 0 || req.lastId < 0 ||
      req.startTime * 1_000_000_000 > if req.endTime == 0 then now else req.endTime * 1_000_000_000
    ensures r == Err(NotFound) <==> r != Err(InvalidArgument) && req.chanPoint !in channels
  {
    if req.chanPoint == "" || req.startTime < 0 || req.endTime < 0 {
      return Err(InvalidArgument);
    }
    var startTime := req.startTime * NANOS;
    var endTime := now;
    if req.endTime != 0 {
      endTime := req.endTime * NANOS;
    }
    if startTime > endTime || req.lastId < 0 {
      return Err(InvalidArgument);
    }
    if req.chanPoint !in channels {
      return Err(NotFound);
    }
    var limit := MAX_CHANNEL_EVENTS_LIMIT;
    if req.maxEvents != 0 && req.maxEvents < MAX_CHANNEL_EVENTS_LIMIT {
      limit := req.maxEvents;
    }
    var events := SelectPage(rows, channels[req.chanPoint].id, req.lastId, startTime, endTime, limit);
    var rpcEvents := MarshalRPCChannelEvents(events);
    var lastId := 0;
    if |events| > 0 {
      lastId := events[|events| - 1].id;
    }
    r := Ok(Response(rpcEvents, lastId, |events| == limit));
  }
}
