/**
 The incremental walk of chanevents/analyzer.go: mutable per-channel states, four running liquidity
 sums patched at each event, and two uptime totals, for both directions of a pair in one pass.
 */
module UptimeWalk {
  import opened Wrappers
  import opened ChannelEvents
  import opened UptimeMeaning

  // errUnknownEventType, errUnexpectedUpdateEvent and the residual overflow.
  datatype AnalyzerError = UnknownEventType | UnexpectedUpdateEvent | ResidualOverflow

  datatype Ability = Ability(uptime: nat, forwarded: nat)

  class ChannelState {
    var online: bool
    var local: nat
    var remote: nat

    constructor (s: Snapshot)
      ensures View() == s
    {
      online, local, remote := s.online, s.local, s.remote;
    }

    function View(): Snapshot
      reads this
    {
      Snapshot(online, local, remote)
    }

    // applyEvent
    method Advance(e: Event) returns (ok: bool)
      modifies this
      ensures ok <==> !e.kind.Unknown?
      ensures View() == Apply(old(View()), e)
    {
      match e.kind {
        case Offline => online := false;
        case Online => online := true;
        case Update =>
          online := true;
          if e.local.Some? { local := e.local.value; }
          if e.remote.Some? { remote := e.remote.value; }
        case Unknown => return false;
      }
      ok := true;
    }
  }

  // Distinct channels have distinct state objects.
  ghost predicate Separate(m: map<int, ChannelState>) {
    forall c, d :: c in m && d in m && c != d ==> m[c] != m[d]
  }

  ghost function Objects(m: map<int, ChannelState>): set<ChannelState> {
    set c | c in m :: m[c]
  }

  ghost function Views(m: map<int, ChannelState>): States
    reads Objects(m)
  {
    map c | c in m :: m[c].View()
  }

  // copyChannelStates: the walk must not touch the caller's snapshot.
  method CopyChannelStates(states: map<int, ChannelState>) returns (copy: map<int, ChannelState>)
    ensures Separate(copy) && fresh(Objects(copy))
    ensures copy.Keys == states.Keys && Views(copy) == Views(states)
  {
    copy := map[];
    var left := states.Keys;
    while left != {}
      invariant left <= states.Keys && copy.Keys == states.Keys - left
      invariant Separate(copy) && forall c :: c in copy ==> fresh(copy[c])
      invariant forall c :: c in copy ==> copy[c].View() == states[c].View()
      decreases left
    {
      var c := NextKey(left);
      var s := new ChannelState(states[c].View());
      copy := copy[c := s];
      left := left - {c};
    }
    assert forall c :: c in states ==> Views(copy)[c] == Views(states)[c];
  }

  // The seed of the running sums: one pass over a peer's initial states.
  method InitialSums(states: map<int, ChannelState>) returns (remote: nat, local: nat)
    ensures remote == Total(Views(states), Remote) && local == Total(Views(states), Local)
  {
    remote, local := 0, 0;
    ghost var done: States := map[];
    ghost var all := Views(states);
    var left := states.Keys;
    while left != {}
      invariant left <= states.Keys
      invariant done == map c | c in states && c !in left :: states[c].View()
      invariant remote == Total(done, Remote) && local == Total(done, Local)
      decreases left
    {
      var c := NextKey(left);
      var s := states[c];
      if s.online {
        remote, local := remote + s.remote, local + s.local;
      }
      ghost var more := done[c := s.View()];
      TotalSplit(more, c, Remote);
      TotalSplit(more, c, Local);
      assert more - {c} == done;
      left := left - {c};
      done := more;
    }
    assert done == all;
  }

  // mergeEventSlices: interleave two sorted streams, stream a first on equal timestamps.
  method MergeEventSlices(a: seq<Event>, b: seq<Event>) returns (merged: seq<Event>)
    ensures merged == Merge(a, b)
  {
    hide Merge;
    merged := [];
    var i, j := 0, 0;
    assert a[0..] == a && b[0..] == b;
    while i < |a| && j < |b|
      invariant i <= |a| && j <= |b|
      invariant merged + Merge(a[i..], b[j..]) == Merge(a, b)
      decreases |a| - i + |b| - j
    {
      Suffix(a, i);
      Suffix(b, j);
      MergeHead(a[i..], b[j..]);
      if a[i].time > b[j].time {
        Shift(merged, b[j], Merge(a[i..], b[j + 1..]));
        merged := merged + [b[j]];
        j := j + 1;
      } else {
        Shift(merged, a[i], Merge(a[i + 1..], b[j..]));
        merged := merged + [a[i]];
        i := i + 1;
      }
    }
    MergeRest(a[i..], b[j..]);
    ghost var rest := a[i..] + b[j..];
    while i < |a|
      invariant i <= |a| && j <= |b| && rest == a[i..] + b[j..]
      invariant merged + rest == Merge(a, b)
    {
      Suffix(a, i);
      assert rest == [a[i]] + (a[i + 1..] + b[j..]);
      rest := a[i + 1..] + b[j..];
      Shift(merged, a[i], rest);
      merged := merged + [a[i]];
      i := i + 1;
    }
    while j < |b|
      invariant j <= |b| && rest == b[j..]
      invariant merged + rest == Merge(a, b)
    {
      Suffix(b, j);
      rest := b[j + 1..];
      Shift(merged, b[j], rest);
      merged := merged + [b[j]];
      j := j + 1;
    }
  }

  lemma Suffix(es: seq<Event>, i: nat)
    requires i < |es|
    ensures es[i..] != [] && es[i..][0] == es[i] && es[i..][1..] == es[i + 1..]
    ensures es[i..] == [es[i]] + es[i + 1..]
  {
  }

  lemma Shift(done: seq<Event>, e: Event, rest: seq<Event>)
    ensures (done + [e]) + rest == done + ([e] + rest)
  {
  }

  // One peer's half of a walk step: take the channel out of the sums, apply the event, put it back.
  method ApplyToPeer(states: map<int, ChannelState>, e: Event, sumRemote: int, sumLocal: int)
    returns (ok: bool, newRemote: int, newLocal: int)
    requires Separate(states)
    requires sumRemote == Total(Views(states), Remote) && sumLocal == Total(Views(states), Local)
    modifies Objects(states)
    ensures ok <==> !(e.channel in states && e.kind.Unknown?)
    ensures Views(states) == Step(old(Views(states)), e)
    ensures newRemote == Total(Views(states), Remote) && newLocal == Total(Views(states), Local)
  {
    ok, newRemote, newLocal := true, sumRemote, sumLocal;
    if e.channel in states {
      var state := states[e.channel];
      ghost var before := Views(states);
      if state.online {
        newRemote, newLocal := newRemote - state.remote, newLocal - state.local;
      }
      ok := state.Advance(e);
      if state.online {
        newRemote, newLocal := newRemote + state.remote, newLocal + state.local;
      }
      forall c | c in states && c != e.channel
        ensures states[c].View() == before[c]
      {
        assert states[c] != state;
      }
      TotalUpdate(before, e.channel, state.View(), Remote);
      TotalUpdate(before, e.channel, state.View(), Local);
      assert Views(states) == before[e.channel := state.View()];
    }
  }

  // A whole walk step: the event is applied to both peers.
  method ApplyToBoth(copyA: map<int, ChannelState>, copyB: map<int, ChannelState>, e: Event,
                     aRemote: int, aLocal: int, bRemote: int, bLocal: int, ghost va: States, ghost vb: States)
    returns (ok: bool, sumARemote: int, sumALocal: int, sumBRemote: int, sumBLocal: int)
    requires Separate(copyA) && Separate(copyB) && Objects(copyA) !! Objects(copyB)
    requires Views(copyA) == va && Views(copyB) == vb
    requires aRemote == Total(va, Remote) && aLocal == Total(va, Local)
    requires bRemote == Total(vb, Remote) && bLocal == Total(vb, Local)
    modifies Objects(copyA), Objects(copyB)
    ensures ok <==> !(e.kind.Unknown? && (e.channel in va || e.channel in vb))
    ensures ok ==> Views(copyA) == Step(va, e) && Views(copyB) == Step(vb, e)
    ensures ok ==> sumARemote == Total(Step(va, e), Remote) && sumALocal == Total(Step(va, e), Local)
    ensures ok ==> sumBRemote == Total(Step(vb, e), Remote) && sumBLocal == Total(Step(vb, e), Local)
  {
    assert copyA.Keys == va.Keys && copyB.Keys == vb.Keys;
    sumBRemote, sumBLocal := bRemote, bLocal;
    ok, sumARemote, sumALocal := ApplyToPeer(copyA, e, aRemote, aLocal);
    if ok {
      ok, sumBRemote, sumBLocal := ApplyToPeer(copyB, e, bRemote, bLocal);
    }
  }

  // An event of unknown type on a considered channel.
  predicate IsUnknownFor(a: States, b: States, e: Event) {
    e.kind.Unknown? && (e.channel in a || e.channel in b)
  }

  predicate HasUnknown(a: States, b: States, es: seq<Event>) {
    exists i :: 0 <= i < |es| && IsUnknownFor(a, b, es[i])
  }

  ghost predicate InWindow(es: seq<Event>, start: int, end: int) {
    forall i :: 0 <= i < |es| ==> start <= es[i].time < end
  }

  // accumulate, for one direction: its bottleneck is positive and reaches the floor.
  function Accumulate(uptime: nat, interval: int, inRemote: int, outLocal: int, floor: int): nat {
    var liquidity := if inRemote < outLocal then inRemote else outLocal;
    if interval > 0 && liquidity >= floor && liquidity > 0 then uptime + interval else uptime
  }

  // What the walk counts over an interval without events.
  lemma Interval(a: Peer, b: Peer, floor: int, start: int, last: int, next: int, i: nat)
    requires a.events == b.events && ByTime(a.events) && i <= |a.events|
    requires start <= last <= next
    requires i == 0 || a.events[i - 1].time <= last
    requires i == |a.events| || next <= a.events[i].time
    ensures Uptime(a, b, floor, start, next)
         == Accumulate(Uptime(a, b, floor, start, last), next - last,
                       Total(Replay(a.states, a.events[..i]), Remote),
                       Total(Replay(b.states, a.events[..i]), Local), floor)
  {
    var inRemote := Total(Replay(a.states, a.events[..i]), Remote);
    var outLocal := Total(Replay(b.states, a.events[..i]), Local);
    var up := inRemote > 0 && outLocal > 0 && inRemote >= floor && outLocal >= floor;
    forall t | last <= t < next
      ensures UpAt(a, b, floor, t) == up
    {
      UpToPrefix(a.events, i, t);
    }
    UptimeConstant(a, b, floor, last, next, up);
    UptimeAdds(a, b, floor, start, last, next);
  }

  // The variables of the walk: both peers' states, the last timestamp and both uptimes so far.
  datatype Progress = Progress(va: States, vb: States, last: int, uptimeAB: nat, uptimeBA: nat)

  ghost function Elapse(p: Progress, floor: int, next: int): Progress {
    Progress(p.va, p.vb, next,
             Accumulate(p.uptimeAB, next - p.last, Total(p.va, Remote), Total(p.vb, Local), floor),
             Accumulate(p.uptimeBA, next - p.last, Total(p.vb, Remote), Total(p.va, Local), floor))
  }

  // The walk after its first i events.
  ghost function Walked(a: Peer, b: Peer, floor: int, start: int, i: nat): Progress
    requires i <= |a.events|
  {
    if i == 0 then Progress(a.states, b.states, start, 0, 0)
    else
      var e := a.events[i - 1];
      var p := Elapse(Walked(a, b, floor, start, i - 1), floor, e.time);
      p.(va := Step(p.va, e), vb := Step(p.vb, e))
  }

  // Letting time pass without an event keeps the counts exact.
  lemma ElapseCounts(a: Peer, b: Peer, floor: int, start: int, i: nat, p: Progress, next: int)
    requires a.events == b.events && ByTime(a.events) && i <= |a.events|
    requires p.va == Replay(a.states, a.events[..i]) && p.vb == Replay(b.states, a.events[..i])
    requires p.uptimeAB == Uptime(a, b, floor, start, p.last)
    requires p.uptimeBA == Uptime(b, a, floor, start, p.last)
    requires start <= p.last <= next && (i == |a.events| || next <= a.events[i].time)
    requires i == 0 || a.events[i - 1].time <= p.last
    ensures Elapse(p, floor, next).uptimeAB == Uptime(a, b, floor, start, next)
    ensures Elapse(p, floor, next).uptimeBA == Uptime(b, a, floor, start, next)
  {
    Interval(a, b, floor, start, p.last, next, i);
    Interval(b, a, floor, start, p.last, next, i);
  }

  lemma {:induction false} WalkedMeaning(a: Peer, b: Peer, floor: int, start: int, end: int, i: nat)
    requires a.events == b.events && ByTime(a.events) && InWindow(a.events, start, end) && i <= |a.events|
    ensures var p := Walked(a, b, floor, start, i);
      p.va == Replay(a.states, a.events[..i]) && p.vb == Replay(b.states, a.events[..i]) &&
      p.last == (if i == 0 then start else a.events[i - 1].time) &&
      p.uptimeAB == Uptime(a, b, floor, start, p.last) &&
      p.uptimeBA == Uptime(b, a, floor, start, p.last)
    decreases i
  {
    if i > 0 {
      WalkedMeaning(a, b, floor, start, end, i - 1);
      ElapseCounts(a, b, floor, start, i - 1, Walked(a, b, floor, start, i - 1), a.events[i - 1].time);
      ReplaySnoc(a.states, a.events, i - 1);
      ReplaySnoc(b.states, a.events, i - 1);
    }
  }

  // The running sums and totals of the walk mean the pointwise uptime.
  lemma WalkCounts(a: Peer, b: Peer, floor: int, start: int, end: int)
    requires a.events == b.events && ByTime(a.events) && InWindow(a.events, start, end)
    ensures var p := Elapse(Walked(a, b, floor, start, |a.events|), floor, end);
      p.uptimeAB == Uptime(a, b, floor, start, end) && p.uptimeBA == Uptime(b, a, floor, start, end)
  {
    var p := Walked(a, b, floor, start, |a.events|);
    WalkedMeaning(a, b, floor, start, end, |a.events|);
    if p.last <= end {
      ElapseCounts(a, b, floor, start, |a.events|, p, end);
    }
  }

  // The walk proper, in place on the copied states.
  method Walk(start: int, end: int, floor: int,
              copyA: map<int, ChannelState>, copyB: map<int, ChannelState>,
              aRemote: int, aLocal: int, bRemote: int, bLocal: int,
              merged: seq<Event>, ghost a: Peer, ghost b: Peer)
    returns (r: Result<(nat, nat), AnalyzerError>)
    requires Separate(copyA) && Separate(copyB) && Objects(copyA) !! Objects(copyB)
    requires a == Peer(Views(copyA), merged) && b == Peer(Views(copyB), merged)
    requires aRemote == Total(a.states, Remote) && aLocal == Total(a.states, Local)
    requires bRemote == Total(b.states, Remote) && bLocal == Total(b.states, Local)
    modifies Objects(copyA), Objects(copyB)
    ensures r.Err? <==> HasUnknown(a.states, b.states, merged)
    ensures r.Err? ==> r.error == UnknownEventType
    ensures r.Ok? ==> var p := Elapse(Walked(a, b, floor, start, |merged|), floor, end);
                      r.value == (p.uptimeAB, p.uptimeBA)
  {
    hide Views, Separate, Objects, Total, Replay, Uptime, Accumulate;
    var sumARemote, sumALocal, sumBRemote, sumBLocal := aRemote, aLocal, bRemote, bLocal;
    var uptimeAB, uptimeBA := 0, 0;
    var last := start;
    ghost var va, vb := a.states, b.states;
    for i := 0 to |merged|
      invariant Views(copyA) == va && Views(copyB) == vb
      invariant va.Keys == a.states.Keys && vb.Keys == b.states.Keys
      invariant sumARemote == Total(va, Remote) && sumALocal == Total(va, Local)
      invariant sumBRemote == Total(vb, Remote) && sumBLocal == Total(vb, Local)
      invariant Progress(va, vb, last, uptimeAB, uptimeBA) == Walked(a, b, floor, start, i)
      invariant forall j :: 0 <= j < i ==> !IsUnknownFor(a.states, b.states, merged[j])
    {
      var e := merged[i];
      uptimeAB := Accumulate(uptimeAB, e.time - last, sumARemote, sumBLocal, floor);
      uptimeBA := Accumulate(uptimeBA, e.time - last, sumBRemote, sumALocal, floor);
      var ok;
      ok, sumARemote, sumALocal, sumBRemote, sumBLocal :=
        ApplyToBoth(copyA, copyB, e, sumARemote, sumALocal, sumBRemote, sumBLocal, va, vb);
      if !ok {
        assert IsUnknownFor(a.states, b.states, merged[i]);
        return Err(UnknownEventType);
      }
      va, vb := Step(va, e), Step(vb, e);
      last := e.time;
    }
    uptimeAB := Accumulate(uptimeAB, end - last, sumARemote, sumBLocal, floor);
    uptimeBA := Accumulate(uptimeBA, end - last, sumBRemote, sumALocal, floor);
    r := Ok((uptimeAB, uptimeBA));
  }

  // calculateBothDirectionsUptime: the walk counts exactly the qualifying instants, and it fails
  // exactly when an event of unknown type touches a considered channel.
  method CalculateBothDirections(start: int, end: int, floor: int,
                                 statesA: map<int, ChannelState>, statesB: map<int, ChannelState>,
                                 aRemote: int, aLocal: int, bRemote: int, bLocal: int,
                                 merged: seq<Event>, forwardedAB: nat, forwardedBA: nat)
    returns (r: Result<(Ability, Ability), AnalyzerError>)
    requires aRemote == Total(Views(statesA), Remote) && aLocal == Total(Views(statesA), Local)
    requires bRemote == Total(Views(statesB), Remote) && bLocal == Total(Views(statesB), Local)
    requires ByTime(merged) && InWindow(merged, start, end)
    ensures r.Err? <==> HasUnknown(Views(statesA), Views(statesB), merged)
    ensures r.Err? ==> r.error == UnknownEventType
    ensures r.Ok? ==>
      var a, b := Peer(Views(statesA), merged), Peer(Views(statesB), merged);
      r.value.0 == Ability(Uptime(a, b, floor, start, end), forwardedAB) &&
      r.value.1 == Ability(Uptime(b, a, floor, start, end), forwardedBA) &&
      r.value.0.uptime == |InstantsUp(a, b, floor, start, end)| &&
      r.value.1.uptime == |InstantsUp(b, a, floor, start, end)|
  {
    hide Total, Replay, Uptime, InstantsUp, ByTime, InWindow, HasUnknown;
    ghost var a, b := Peer(Views(statesA), merged), Peer(Views(statesB), merged);
    var copyA := CopyChannelStates(statesA);
    var copyB := CopyChannelStates(statesB);
    hide Separate, Total, Replay, Uptime, ByTime;
    assert Views(copyA) == a.states && Views(copyB) == b.states;
    var walked := Walk(start, end, floor, copyA, copyB, aRemote, aLocal, bRemote, bLocal, merged, a, b);
    assert Views(statesA) == a.states && Views(statesB) == b.states;
    WalkCounts(a, b, floor, start, end);
    UptimeCounts(a, b, floor, start, end);
    UptimeCounts(b, a, floor, start, end);
    match walked {
      case Err(e) => r := Err(e);
      case Ok(up) => r := Ok((Ability(up.0, forwardedAB), Ability(up.1, forwardedBA)));
    }
  }
}
