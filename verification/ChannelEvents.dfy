/**
 The event vocabulary of chanevents/chanevents.go and the meaning of replaying events over
 channel snapshots (chanevents/analyzer.go). Times are nanoseconds, balances satoshis.
 */
module ChannelEvents {
  import opened Wrappers

  // Every stored event type outside {1, 2, 3} is Unknown.
  datatype EventKind = Unknown | Online | Offline | Update

  datatype Event = Event(id: int, channel: int, kind: EventKind, time: int,
                         local: Option<nat>, remote: Option<nat>, sync: bool)

  datatype Snapshot = Snapshot(online: bool, local: nat, remote: nat)

  // The snapshot of a channel nothing is known about: offline with zero balances.
  const UNSEEN := Snapshot(false, 0, 0)

  // Snapshots by channel id.
  type States = map<int, Snapshot>

  function Apply(s: Snapshot, e: Event): Snapshot {
    match e.kind
    case Unknown => s
    case Online => s.(online := true)
    case Offline => s.(online := false)
    case Update => Snapshot(true, e.local.GetOr(s.local), e.remote.GetOr(s.remote))
  }

  function Step(m: States, e: Event): States {
    if e.channel in m then m[e.channel := Apply(m[e.channel], e)] else m
  }

  function Replay(m: States, es: seq<Event>): States {
    if es == [] then m else Replay(Step(m, es[0]), es[1..])
  }

  // The replay of one channel's events, skipping all others.
  function ReplayChannel(s: Snapshot, es: seq<Event>, c: int): Snapshot
    decreases |es|
  {
    if es == [] then s
    else ReplayChannel(if es[0].channel == c then Apply(s, es[0]) else s, es[1..], c)
  }

  predicate ByTime(es: seq<Event>) {
    forall i, j :: 0 <= i < j < |es| ==> es[i].time <= es[j].time
  }

  // The events that have happened by instant t.
  function UpTo(es: seq<Event>, t: int): seq<Event> {
    if es == [] then []
    else if es[0].time <= t then [es[0]] + UpTo(es[1..], t)
    else UpTo(es[1..], t)
  }

  lemma {:induction false} ReplayConcat(m: States, a: seq<Event>, b: seq<Event>)
    ensures Replay(m, a + b) == Replay(Replay(m, a), b)
    decreases |a|
  {
    if a == [] {
      assert a + b == b;
    } else {
      assert (a + b)[0] == a[0] && (a + b)[1..] == a[1..] + b;
      ReplayConcat(Step(m, a[0]), a[1..], b);
    }
  }

  lemma ReplaySnoc(m: States, es: seq<Event>, i: nat)
    requires i < |es|
    ensures Replay(m, es[..i + 1]) == Step(Replay(m, es[..i]), es[i])
  {
    assert es[..i + 1] == es[..i] + [es[i]];
    ReplayConcat(m, es[..i], [es[i]]);
    assert Replay(Replay(m, es[..i]), [es[i]]) == Step(Replay(m, es[..i]), es[i]);
  }

  // Channels evolve independently of one another.
  lemma {:induction false} ReplayPointwise(m: States, es: seq<Event>)
    ensures Replay(m, es).Keys == m.Keys
    ensures forall c :: c in m ==> Replay(m, es)[c] == ReplayChannel(m[c], es, c)
    decreases |es|
  {
    if es != [] {
      ReplayPointwise(Step(m, es[0]), es[1..]);
    }
  }

  lemma {:induction false} UpToConcat(a: seq<Event>, b: seq<Event>, t: int)
    ensures UpTo(a + b, t) == UpTo(a, t) + UpTo(b, t)
    decreases |a|
  {
    if a == [] {
      assert a + b == b;
    } else {
      assert (a + b)[0] == a[0] && (a + b)[1..] == a[1..] + b;
      UpToConcat(a[1..], b, t);
    }
  }

  lemma {:induction false} UpToNone(es: seq<Event>, t: int)
    requires forall k :: 0 <= k < |es| ==> es[k].time > t
    ensures UpTo(es, t) == []
    decreases |es|
  {
    if es != [] {
      UpToNone(es[1..], t);
    }
  }

  // In a time-sorted stream the events up to t are a prefix.
  lemma {:induction false} UpToPrefix(es: seq<Event>, i: nat, t: int)
    requires ByTime(es) && i <= |es|
    requires i == 0 || es[i - 1].time <= t
    requires i == |es| || t < es[i].time
    ensures UpTo(es, t) == es[..i]
    decreases |es|
  {
    if i == 0 {
      UpToNone(es, t);
    } else {
      assert es[0].time <= es[i - 1].time;
      UpToPrefix(es[1..], i - 1, t);
      assert es[..i] == [es[0]] + es[1..][..i - 1];
    }
  }

  /* What a run of events does to a channel: each field is either overwritten or kept. */

  datatype Effect = Effect(online: Option<bool>, local: Option<nat>, remote: Option<nat>)

  function Perform(f: Effect, s: Snapshot): Snapshot {
    Snapshot(f.online.GetOr(s.online), f.local.GetOr(s.local), f.remote.GetOr(s.remote))
  }

  function Then(f: Effect, g: Effect): Effect {
    Effect(if g.online.Some? then g.online else f.online,
           if g.local.Some? then g.local else f.local,
           if g.remote.Some? then g.remote else f.remote)
  }

  function EffectOf(es: seq<Event>, c: int): Effect {
    if es == [] then Effect(None, None, None)
    else
      var rest := EffectOf(es[1..], c);
      var e := es[0];
      if e.channel != c then rest
      else match e.kind
        case Unknown => rest
        case Online => Then(Effect(Some(true), None, None), rest)
        case Offline => Then(Effect(Some(false), None, None), rest)
        case Update => Then(Effect(Some(true), e.local, e.remote), rest)
  }

  lemma {:induction false} ReplayIsOverwrite(s: Snapshot, es: seq<Event>, c: int)
    ensures ReplayChannel(s, es, c) == Perform(EffectOf(es, c), s)
    decreases |es|
  {
    if es != [] {
      ReplayIsOverwrite(if es[0].channel == c then Apply(s, es[0]) else s, es[1..], c);
    }
  }

  // Replaying the same run of events a second time changes nothing the first replay left.
  lemma ReplayIdempotent(m: States, es: seq<Event>)
    ensures Replay(m, es + es) == Replay(m, es)
  {
    var once := Replay(m, es);
    ReplayConcat(m, es, es);
    ReplayPointwise(m, es);
    ReplayPointwise(once, es);
    forall c | c in m
      ensures Replay(once, es)[c] == once[c]
    {
      ReplayIsOverwrite(m[c], es, c);
      ReplayIsOverwrite(once[c], es, c);
    }
  }

  lemma {:induction false} ReplayChannelSnoc(s: Snapshot, es: seq<Event>, e: Event, c: int)
    ensures ReplayChannel(s, es + [e], c)
         == var before := ReplayChannel(s, es, c); if e.channel == c then Apply(before, e) else before
    decreases |es|
  {
    if es != [] {
      assert (es + [e])[0] == es[0] && (es + [e])[1..] == es[1..] + [e];
      ReplayChannelSnoc(if es[0].channel == c then Apply(s, es[0]) else s, es[1..], e, c);
    }
  }

  // A channel is online unless its last event of a known type took it offline.
  lemma {:induction false} OnlineIsLastStatus(s: Snapshot, es: seq<Event>, c: int, i: nat)
    requires i < |es| && es[i].channel == c && !es[i].kind.Unknown?
    requires forall j :: i < j < |es| && es[j].channel == c ==> es[j].kind.Unknown?
    ensures ReplayChannel(s, es, c).online <==> !es[i].kind.Offline?
    decreases |es|
  {
    var n := |es| - 1;
    assert es == es[..n] + [es[n]];
    ReplayChannelSnoc(s, es[..n], es[n], c);
    if i < n {
      OnlineIsLastStatus(s, es[..n], c, i);
    }
  }

  // Its local balance is the last one reported.
  lemma {:induction false} LocalIsLastReport(s: Snapshot, es: seq<Event>, c: int, i: nat)
    requires i < |es| && es[i].channel == c && es[i].kind.Update? && es[i].local.Some?
    requires forall j :: i < j < |es| && es[j].channel == c ==> !(es[j].kind.Update? && es[j].local.Some?)
    ensures ReplayChannel(s, es, c).local == es[i].local.value
    decreases |es|
  {
    var n := |es| - 1;
    assert es == es[..n] + [es[n]];
    ReplayChannelSnoc(s, es[..n], es[n], c);
    if i < n {
      LocalIsLastReport(s, es[..n], c, i);
    }
  }

  // Its remote balance is the last one reported.
  lemma {:induction false} RemoteIsLastReport(s: Snapshot, es: seq<Event>, c: int, i: nat)
    requires i < |es| && es[i].channel == c && es[i].kind.Update? && es[i].remote.Some?
    requires forall j :: i < j < |es| && es[j].channel == c ==> !(es[j].kind.Update? && es[j].remote.Some?)
    ensures ReplayChannel(s, es, c).remote == es[i].remote.value
    decreases |es|
  {
    var n := |es| - 1;
    assert es == es[..n] + [es[n]];
    ReplayChannelSnoc(s, es[..n], es[n], c);
    if i < n {
      RemoteIsLastReport(s, es[..n], c, i);
    }
  }

  // What no event of the channel reports stays as it was.
  lemma {:induction false} NotReported(s: Snapshot, es: seq<Event>, c: int)
    ensures var r := ReplayChannel(s, es, c);
      ((forall e :: e in es && e.channel == c ==> e.kind.Unknown?) ==> r.online == s.online) &&
      ((forall e :: e in es && e.channel == c ==> !(e.kind.Update? && e.local.Some?)) ==> r.local == s.local) &&
      ((forall e :: e in es && e.channel == c ==> !(e.kind.Update? && e.remote.Some?)) ==> r.remote == s.remote)
    decreases |es|
  {
    if es != [] {
      assert es[0] in es && forall e :: e in es[1..] ==> e in es;
      NotReported(if es[0].channel == c then Apply(s, es[0]) else s, es[1..], c);
    }
  }

  // Events on foreign channels leave the states alone.
  lemma {:induction false} ReplayForeign(m: States, es: seq<Event>)
    requires forall e :: e in es ==> e.channel !in m
    ensures Replay(m, es) == m
    decreases |es|
  {
    if es != [] {
      ReplayForeign(m, es[1..]);
    }
  }

  /* Liquidity sums. */

  datatype Side = Remote | Local

  // What a channel contributes to its peer's sum: its balance while online.
  function Part(s: Snapshot, side: Side): nat {
    if !s.online then 0 else if side.Remote? then s.remote else s.local
  }

  ghost function Total(m: States, side: Side): nat {
    if m.Keys == {} then 0
    else
      var c := Pick(m.Keys);
      Part(m[c], side) + Total(m - {c}, side)
  }

  // The sum does not depend on the order in which channels are added up.
  lemma {:induction false} TotalSplit(m: States, c: int, side: Side)
    requires c in m
    ensures Total(m, side) == Part(m[c], side) + Total(m - {c}, side)
    decreases |m|
  {
    var d := Pick(m.Keys);
    if d != c {
      TotalSplit(m - {d}, c, side);
      TotalSplit(m - {c}, d, side);
      assert m - {d} - {c} == m - {c} - {d};
    }
  }

  // The sums are the remote and the local balances of the online channels.
  lemma TotalsAreOnlineBalances(m: States, c: int)
    ensures Total(map[], Remote) == Total(map[], Local) == 0
    ensures c in m ==> Total(m, Remote) == Total(m - {c}, Remote) + if m[c].online then m[c].remote else 0
    ensures c in m ==> Total(m, Local) == Total(m - {c}, Local) + if m[c].online then m[c].local else 0
  {
    if c in m {
      TotalSplit(m, c, Remote);
      TotalSplit(m, c, Local);
    }
  }

  // Patching one channel patches the sum by the difference of its contributions.
  lemma TotalUpdate(m: States, c: int, s: Snapshot, side: Side)
    requires c in m
    ensures Total(m[c := s], side) == Total(m, side) - Part(m[c], side) + Part(s, side)
  {
    TotalSplit(m, c, side);
    TotalSplit(m[c := s], c, side);
    assert m[c := s] - {c} == m - {c};
  }

  /* Snapshots that no sum can tell apart: equal up to the online flag of an empty channel. */

  predicate Alike(s: Snapshot, r: Snapshot) {
    s.local == r.local && s.remote == r.remote &&
    (s.online == r.online || (s.local == 0 && s.remote == 0))
  }

  ghost predicate AllAlike(m: States, n: States) {
    m.Keys == n.Keys && forall c :: c in m ==> Alike(m[c], n[c])
  }

  lemma {:induction false} AlikeReplay(s: Snapshot, r: Snapshot, es: seq<Event>, c: int)
    requires Alike(s, r)
    ensures Alike(ReplayChannel(s, es, c), ReplayChannel(r, es, c))
    decreases |es|
  {
    if es != [] {
      if es[0].channel == c {
        AlikeReplay(Apply(s, es[0]), Apply(r, es[0]), es[1..], c);
      } else {
        AlikeReplay(s, r, es[1..], c);
      }
    }
  }

  lemma {:induction false} AlikeTotal(m: States, n: States, side: Side)
    requires AllAlike(m, n)
    ensures Total(m, side) == Total(n, side)
    decreases |m|
  {
    if m.Keys != {} {
      var c := Pick(m.Keys);
      TotalSplit(m, c, side);
      TotalSplit(n, c, side);
      AlikeTotal(m - {c}, n - {c}, side);
    }
  }
}
