/**
 The simple meaning of effective uptime: replay everything up to an instant, ask whether the pair
 could forward at that instant, and count the instants for which the answer is yes.
 */
module UptimeMeaning {
  import opened ChannelEvents

  // One peer as the analysis sees it: the states its channels start from and their events.
  datatype Peer = Peer(states: States, events: seq<Event>)

  ghost function LiquidityAt(p: Peer, side: Side, t: int): nat {
    Total(Replay(p.states, UpTo(p.events, t)), side)
  }

  // A payment could come in over the remote balances of the one peer and go out over the local balances
  // of the other, and both ends carry the floor.
  ghost predicate UpAt(peerIn: Peer, peerOut: Peer, floor: int, t: int) {
    var inRemote, outLocal := LiquidityAt(peerIn, Remote, t), LiquidityAt(peerOut, Local, t);
    inRemote > 0 && outLocal > 0 && inRemote >= floor && outLocal >= floor
  }

  // The number of instants in [start, end) at which forwarding from peerIn to peerOut qualifies.
  ghost function Uptime(peerIn: Peer, peerOut: Peer, floor: int, start: int, end: int): nat
    decreases end - start
  {
    if end <= start then 0
    else Uptime(peerIn, peerOut, floor, start, end - 1) +
         if UpAt(peerIn, peerOut, floor, end - 1) then 1 else 0
  }

  lemma {:induction false} UptimeBound(peerIn: Peer, peerOut: Peer, floor: int, start: int, end: int)
    ensures Uptime(peerIn, peerOut, floor, start, end) <= if start < end then end - start else 0
    decreases end - start
  {
    if start < end {
      UptimeBound(peerIn, peerOut, floor, start, end - 1);
    }
  }

  // The instants of a window at which the online remote balances of the one peer and the online local
  // balances of the other are both positive and both reach the floor.
  ghost function InstantsUp(peerIn: Peer, peerOut: Peer, floor: int, start: int, end: int): set<int> {
    set t | start <= t < end &&
      Total(Replay(peerIn.states, UpTo(peerIn.events, t)), Remote) >= floor &&
      Total(Replay(peerIn.states, UpTo(peerIn.events, t)), Remote) > 0 &&
      Total(Replay(peerOut.states, UpTo(peerOut.events, t)), Local) >= floor &&
      Total(Replay(peerOut.states, UpTo(peerOut.events, t)), Local) > 0
  }

  // Uptime is their number.
  lemma {:induction false} UptimeCounts(peerIn: Peer, peerOut: Peer, floor: int, start: int, end: int)
    ensures Uptime(peerIn, peerOut, floor, start, end) == |InstantsUp(peerIn, peerOut, floor, start, end)|
    decreases end - start
  {
    var here := InstantsUp(peerIn, peerOut, floor, start, end);
    if end <= start {
      assert here == {};
    } else {
      UptimeCounts(peerIn, peerOut, floor, start, end - 1);
      InstantsNext(peerIn, peerOut, floor, start, end);
    }
  }

  lemma InstantsNext(peerIn: Peer, peerOut: Peer, floor: int, start: int, end: int)
    requires start < end
    ensures |InstantsUp(peerIn, peerOut, floor, start, end)|
         == |InstantsUp(peerIn, peerOut, floor, start, end - 1)| + if UpAt(peerIn, peerOut, floor, end - 1) then 1 else 0
  {
    hide InstantsUp, UpAt;
    var before, after := InstantsUp(peerIn, peerOut, floor, start, end - 1), InstantsUp(peerIn, peerOut, floor, start, end);
    var expected := if UpAt(peerIn, peerOut, floor, end - 1) then before + {end - 1} else before;
    InstantUp(peerIn, peerOut, floor, start, end - 1, end - 1);
    forall t
      ensures t in after <==> t in expected
    {
      InstantUp(peerIn, peerOut, floor, start, end, t);
      InstantUp(peerIn, peerOut, floor, start, end - 1, t);
    }
    assert after == expected;
  }

  lemma InstantUp(peerIn: Peer, peerOut: Peer, floor: int, start: int, end: int, t: int)
    ensures t in InstantsUp(peerIn, peerOut, floor, start, end) <==> start <= t < end && UpAt(peerIn, peerOut, floor, t)
  {
  }

  // For fixed facts, the uptimes of adjacent windows add up.
  lemma {:induction false} UptimeAdds(peerIn: Peer, peerOut: Peer, floor: int, s: int, m: int, e: int)
    requires s <= m <= e
    ensures Uptime(peerIn, peerOut, floor, s, e)
         == Uptime(peerIn, peerOut, floor, s, m) + Uptime(peerIn, peerOut, floor, m, e)
    decreases e - m
  {
    if m < e {
      UptimeAdds(peerIn, peerOut, floor, s, m, e - 1);
    }
  }

  // A stretch without change counts fully or not at all.
  lemma {:induction false} UptimeConstant(peerIn: Peer, peerOut: Peer, floor: int, s: int, e: int, up: bool)
    requires s <= e
    requires forall t :: s <= t < e ==> UpAt(peerIn, peerOut, floor, t) == up
    ensures Uptime(peerIn, peerOut, floor, s, e) == if up then e - s else 0
    decreases e - s
  {
    if s < e {
      UptimeConstant(peerIn, peerOut, floor, s, e - 1, up);
    }
  }

  // Peers that show the same liquidity at every instant have the same uptime.
  lemma {:induction false} UptimeCongruence(i: Peer, o: Peer, i': Peer, o': Peer, floor: int, s: int, e: int)
    requires forall t :: s <= t < e ==> LiquidityAt(i, Remote, t) == LiquidityAt(i', Remote, t)
    requires forall t :: s <= t < e ==> LiquidityAt(o, Local, t) == LiquidityAt(o', Local, t)
    ensures Uptime(i, o, floor, s, e) == Uptime(i', o', floor, s, e)
    decreases e - s
  {
    if s < e {
      UptimeCongruence(i, o, i', o', floor, s, e - 1);
    }
  }

  /* The merge of two time-sorted streams, the first stream winning ties. */

  function Merge(a: seq<Event>, b: seq<Event>): seq<Event>
    decreases |a| + |b|
  {
    if a == [] then b
    else if b == [] then a
    else if a[0].time > b[0].time then [b[0]] + Merge(a, b[1..])
    else [a[0]] + Merge(a[1..], b)
  }

  lemma MergeHead(a: seq<Event>, b: seq<Event>)
    requires a != [] && b != []
    ensures Merge(a, b) == if a[0].time > b[0].time then [b[0]] + Merge(a, b[1..]) else [a[0]] + Merge(a[1..], b)
  {
  }

  lemma MergeRest(a: seq<Event>, b: seq<Event>)
    requires a == [] || b == []
    ensures Merge(a, b) == a + b
  {
  }

  lemma {:induction false} MergeMembers(a: seq<Event>, b: seq<Event>)
    ensures multiset(Merge(a, b)) == multiset(a) + multiset(b)
    decreases |a| + |b|
  {
    if a != [] && b != [] {
      assert a == [a[0]] + a[1..] && b == [b[0]] + b[1..];
      if a[0].time > b[0].time {
        MergeMembers(a, b[1..]);
      } else {
        MergeMembers(a[1..], b);
      }
    }
  }

  lemma {:induction false} MergeByTime(a: seq<Event>, b: seq<Event>)
    requires ByTime(a) && ByTime(b)
    ensures ByTime(Merge(a, b))
    decreases |a| + |b|
  {
    if a != [] && b != [] {
      if a[0].time > b[0].time {
        MergeByTime(a, b[1..]);
        HeadFirst(b[0], a, b[1..]);
      } else {
        MergeByTime(a[1..], b);
        HeadFirst(a[0], a[1..], b);
      }
    }
  }

  lemma HeadFirst(x: Event, a: seq<Event>, b: seq<Event>)
    requires forall e :: e in a || e in b ==> x.time <= e.time
    requires ByTime(Merge(a, b))
    ensures ByTime([x] + Merge(a, b))
  {
    MergeMembers(a, b);
    forall e | e in Merge(a, b)
      ensures x.time <= e.time
    {
      assert e in multiset(Merge(a, b));
    }
  }

  lemma {:induction false} AllLater(es: seq<Event>, t: int)
    requires ByTime(es) && es != [] && es[0].time > t
    ensures forall e :: e in es ==> e.time > t
  {
    forall e | e in es
      ensures e.time > t
    {
      var j :| 0 <= j < |es| && es[j] == e;
      assert es[0].time <= es[j].time;
    }
  }

  lemma {:induction false} MergeUpTo(a: seq<Event>, b: seq<Event>, t: int)
    requires ByTime(a) && ByTime(b)
    ensures UpTo(Merge(a, b), t) == Merge(UpTo(a, t), UpTo(b, t))
    decreases |a| + |b|
  {
    if a == [] || b == [] {
    } else if a[0].time > b[0].time {
      MergeUpTo(a, b[1..], t);
      if a[0].time > t {
        AllLater(a, t);
        UpToNone(a, t);
      }
    } else {
      MergeUpTo(a[1..], b, t);
      if b[0].time > t {
        AllLater(b, t);
        UpToNone(b, t);
        if a[0].time <= t {
          assert UpTo(a, t) == [a[0]] + UpTo(a[1..], t);
        } else {
          AllLater(a, t);
          UpToNone(a[1..], t);
        }
      }
    }
  }

  // Replaying a merge on one peer's channels is replaying that peer's own stream: neither the
  // other stream nor the order given to equal timestamps shows.
  lemma {:induction false} MergeReplay(m: States, a: seq<Event>, b: seq<Event>, foreignIsB: bool)
    requires forall e :: e in (if foreignIsB then b else a) ==> e.channel !in m
    ensures Replay(m, Merge(a, b)) == Replay(m, if foreignIsB then a else b)
    decreases |a| + |b|
  {
    if a == [] || b == [] {
      ReplayForeign(m, if foreignIsB then b else a);
    } else if a[0].time > b[0].time {
      MergeReplay(Step(m, b[0]), a, b[1..], foreignIsB);
    } else {
      MergeReplay(Step(m, a[0]), a[1..], b, foreignIsB);
    }
  }

  predicate Foreign(m: States, es: seq<Event>) {
    forall e :: e in es ==> e.channel !in m
  }

  lemma {:induction false} ForeignUpTo(m: States, es: seq<Event>, t: int)
    requires Foreign(m, es)
    ensures Foreign(m, UpTo(es, t))
    decreases |es|
  {
    if es != [] {
      ForeignUpTo(m, es[1..], t);
    }
  }

  lemma MergedLiquidity(a: Peer, b: Peer, side: Side, t: int)
    requires ByTime(a.events) && ByTime(b.events)
    requires Foreign(a.states, b.events) && Foreign(b.states, a.events)
    ensures LiquidityAt(Peer(a.states, Merge(a.events, b.events)), side, t) == LiquidityAt(a, side, t)
    ensures LiquidityAt(Peer(b.states, Merge(a.events, b.events)), side, t) == LiquidityAt(b, side, t)
  {
    MergeUpTo(a.events, b.events, t);
    ForeignUpTo(a.states, b.events, t);
    ForeignUpTo(b.states, a.events, t);
    MergeReplay(a.states, UpTo(a.events, t), UpTo(b.events, t), true);
    MergeReplay(b.states, UpTo(a.events, t), UpTo(b.events, t), false);
  }

  // A walk over the merged stream of two peers without a common channel counts each direction's
  // uptime as each peer's own stream defines it.
  lemma MergedUptime(a: Peer, b: Peer, ma: Peer, mb: Peer, floor: int, s: int, e: int)
    requires ByTime(a.events) && ByTime(b.events)
    requires Foreign(a.states, b.events) && Foreign(b.states, a.events)
    requires ma == Peer(a.states, Merge(a.events, b.events))
    requires mb == Peer(b.states, Merge(a.events, b.events))
    ensures Uptime(ma, mb, floor, s, e) == Uptime(a, b, floor, s, e)
    ensures Uptime(mb, ma, floor, s, e) == Uptime(b, a, floor, s, e)
  {
    forall t: int, side: Side
      ensures LiquidityAt(ma, side, t) == LiquidityAt(a, side, t)
      ensures LiquidityAt(mb, side, t) == LiquidityAt(b, side, t)
    {
      MergedLiquidity(a, b, side, t);
    }
    UptimeCongruence(ma, mb, a, b, floor, s, e);
    UptimeCongruence(mb, ma, b, a, floor, s, e);
  }

  /* The self pair: one stream merged with itself. */

  predicate SameTime(g: seq<Event>, t: int) {
    forall e :: e in g ==> e.time == t
  }

  predicate Later(es: seq<Event>, t: int) {
    forall e :: e in es ==> e.time > t
  }

  // With the rest strictly later, what is left of a group in the first stream is emitted first.
  lemma {:induction false} MergeLeftGroup(g: seq<Event>, h: seq<Event>, r: seq<Event>, t: int)
    requires SameTime(g, t) && SameTime(h, t) && Later(r, t)
    ensures Merge(g + r, h + r) == g + Merge(r, h + r)
    decreases |g|
  {
    if g == [] {
      assert g + r == r;
    } else {
      assert (g + r)[0] == g[0] && (g + r)[1..] == g[1..] + r;
      MergeLeftGroup(g[1..], h, r, t);
      if h + r != [] {
        assert (h + r)[0] in h || (h + r)[0] in r;
        assert Merge(g + r, h + r) == [g[0]] + Merge(g[1..] + r, h + r);
      } else {
        assert h == [] && r == [] && g + r == g;
      }
      assert g == [g[0]] + g[1..];
    }
  }

  lemma {:induction false} MergeRightGroup(h: seq<Event>, r: seq<Event>, t: int)
    requires SameTime(h, t) && Later(r, t)
    ensures Merge(r, h + r) == h + Merge(r, r)
    decreases |h|
  {
    hide Merge;
    if r == [] {
      MergeRest(r, r);
      MergeRest(r, h + r);
      assert h + r == h;
    } else if h == [] {
      assert h + r == r;
    } else {
      var hr := h + r;
      assert hr[0] == h[0] && hr[1..] == h[1..] + r;
      MergeHead(r, hr);
      MergeRightGroup(h[1..], r, t);
      assert [h[0]] + (h[1..] + Merge(r, r)) == h + Merge(r, r);
    }
  }

  // Merging a stream with itself emits its first timestamp group twice, each time in order.
  lemma SelfMergeGroup(g: seq<Event>, r: seq<Event>, t: int)
    requires SameTime(g, t) && Later(r, t)
    ensures Merge(g + r, g + r) == g + g + Merge(r, r)
  {
    MergeLeftGroup(g, g, r, t);
    MergeRightGroup(g, r, t);
  }

  // The first timestamp group of a sorted, non-empty stream and the strictly later rest.
  lemma {:induction false} FirstGroup(es: seq<Event>) returns (g: seq<Event>, r: seq<Event>)
    requires ByTime(es) && es != []
    ensures es == g + r && g != [] && SameTime(g, es[0].time) && Later(r, es[0].time) && ByTime(r)
    decreases |es|
  {
    if |es| == 1 || es[1].time > es[0].time {
      g, r := [es[0]], es[1..];
      if r != [] {
        AllLater(r, es[0].time);
      }
    } else {
      g, r := FirstGroup(es[1..]);
      g := [es[0]] + g;
    }
  }

  // Both copies of a peer's states replay the doubled stream exactly as they would the single one.
  lemma {:induction false} SelfMergeReplay(m: States, es: seq<Event>)
    requires ByTime(es)
    ensures Replay(m, Merge(es, es)) == Replay(m, es)
    decreases |es|
  {
    if es != [] {
      var g, r := FirstGroup(es);
      SelfMergeGroup(g, r, es[0].time);
      ReplayConcat(m, g + g, Merge(r, r));
      ReplayIdempotent(m, g);
      SelfMergeReplay(Replay(m, g), r);
      ReplayConcat(m, g, r);
    }
  }

  lemma {:induction false} UpToByTime(es: seq<Event>, t: int)
    requires ByTime(es)
    ensures ByTime(UpTo(es, t))
    decreases |es|
  {
    if es != [] {
      UpToByTime(es[1..], t);
      if es[0].time > t {
        AllLater(es, t);
        UpToNone(es, t);
      } else {
        UpToMembers(es[1..], t);
        forall e | e in UpTo(es[1..], t)
          ensures es[0].time <= e.time
        {
          var j :| 0 <= j < |es[1..]| && es[1..][j] == e;
        }
      }
    }
  }

  lemma {:induction false} UpToMembers(es: seq<Event>, t: int)
    ensures forall e :: e in UpTo(es, t) <==> e in es && e.time <= t
    decreases |es|
  {
    if es != [] {
      UpToMembers(es[1..], t);
      assert es == [es[0]] + es[1..];
    }
  }

  // The self pair is sound: the doubled stream yields the uptime of the single-stream walk, in
  // both directions.
  lemma SelfUptime(a: Peer, aa: Peer, floor: int, s: int, e: int)
    requires ByTime(a.events)
    requires aa == Peer(a.states, Merge(a.events, a.events))
    ensures Uptime(aa, aa, floor, s, e) == Uptime(a, a, floor, s, e)
  {
    forall t: int, side: Side
      ensures LiquidityAt(aa, side, t) == LiquidityAt(a, side, t)
    {
      MergeUpTo(a.events, a.events, t);
      UpToByTime(a.events, t);
      SelfMergeReplay(a.states, UpTo(a.events, t));
    }
    UptimeCongruence(aa, aa, a, a, floor, s, e);
  }
}
