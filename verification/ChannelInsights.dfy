/**
 Channel insights (GetChannels in insights/insights.go): the volume and fees of each open channel,
 with every fee split between the two channels that earned it.
 */
module ChannelInsights {
  import opened Wrappers
  import opened FiniteSums
  import opened RevenueReport

  const TWO_TO_THE_40 := 0x100_0000_0000

  // An open channel of lnd. The top 24 bits of its id are the height of its funding transaction.
  datatype OpenChannel = OpenChannel(channelPoint: string, channelId: nat, lifeTime: int, uptime: int, isPrivate: bool)

  class ChannelInfo {
    const channelPoint: string
    const monitoredFor: int
    const uptime: int
    const confirmations: nat
    const isPrivate: bool
    var volumeIncoming: nat
    var volumeOutgoing: nat
    var feesEarned: nat

    constructor (channel: OpenChannel, height: nat)
      ensures channelPoint == channel.channelPoint && monitoredFor == channel.lifeTime
      ensures uptime == channel.uptime && isPrivate == channel.isPrivate
      ensures confirmations == (height + 1 - channel.channelId / TWO_TO_THE_40) % TWO_TO_THE_32
      ensures volumeIncoming == volumeOutgoing == feesEarned == 0
    {
      channelPoint, monitoredFor, uptime := channel.channelPoint, channel.lifeTime, channel.uptime;
      confirmations := (height + 1 - channel.channelId / TWO_TO_THE_40) % TWO_TO_THE_32;
      isPrivate := channel.isPrivate;
      volumeIncoming, volumeOutgoing, feesEarned := 0, 0, 0;
    }

    // The range over the records of the channel.
    method Accumulate(reports: map<string, Revenue>)
      modifies this
      ensures volumeIncoming == old(volumeIncoming) + SumOver(reports.Keys, IncomingOf(reports))
      ensures volumeOutgoing == old(volumeOutgoing) + SumOver(reports.Keys, OutgoingOf(reports))
      ensures feesEarned == old(feesEarned) + SumOver(reports.Keys, SplitFeesOf(reports))
    {
      var left := reports.Keys;
      while left != {}
        invariant left <= reports.Keys
        invariant volumeIncoming + SumOver(left, IncomingOf(reports))
               == old(volumeIncoming) + SumOver(reports.Keys, IncomingOf(reports))
        invariant volumeOutgoing + SumOver(left, OutgoingOf(reports))
               == old(volumeOutgoing) + SumOver(reports.Keys, OutgoingOf(reports))
        invariant feesEarned + SumOver(left, SplitFeesOf(reports))
               == old(feesEarned) + SumOver(reports.Keys, SplitFeesOf(reports))
      {
        var key := NextKey(left);
        var rev := reports[key];
        SumRemove(left, IncomingOf(reports), key);
        SumRemove(left, OutgoingOf(reports), key);
        SumRemove(left, SplitFeesOf(reports), key);
        volumeIncoming := volumeIncoming + rev.amountIncoming;
        volumeOutgoing := volumeOutgoing + rev.amountOutgoing;
        feesEarned := feesEarned + (rev.feesOutgoing + rev.feesIncoming) / 2;
        left := left - {key};
      }
    }
  }

  ghost function IncomingOf(m: map<string, Revenue>): string -> nat {
    k => if k in m then m[k].amountIncoming else 0
  }

  ghost function OutgoingOf(m: map<string, Revenue>): string -> nat {
    k => if k in m then m[k].amountOutgoing else 0
  }

  // Half of what a record shows, rounded down.
  ghost function SplitFeesOf(m: map<string, Revenue>): string -> nat {
    k => if k in m then (m[k].feesOutgoing + m[k].feesIncoming) / 2 else 0
  }

  function RecordsFor(pairs: Pairs, channel: string): map<string, Revenue> {
    if channel in pairs then pairs[channel] else map[]
  }

  ghost function FeesEarned(pairs: Pairs): string -> nat {
    channel => SumOver(RecordsFor(pairs, channel).Keys, SplitFeesOf(RecordsFor(pairs, channel)))
  }

  // An insight shows its channel and the totals of its records; a channel without any shows zeros.
  ghost predicate Shows(info: ChannelInfo, channel: OpenChannel, height: nat, pairs: Pairs)
    reads info
  {
    var reports := RecordsFor(pairs, channel.channelPoint);
    info.channelPoint == channel.channelPoint && info.monitoredFor == channel.lifeTime &&
    info.uptime == channel.uptime && info.isPrivate == channel.isPrivate &&
    info.confirmations == (height + 1 - channel.channelId / TWO_TO_THE_40) % TWO_TO_THE_32 &&
    info.volumeIncoming == SumOver(reports.Keys, IncomingOf(reports)) &&
    info.volumeOutgoing == SumOver(reports.Keys, OutgoingOf(reports)) &&
    info.feesEarned == FeesEarned(pairs)(channel.channelPoint)
  }

  method GetChannels(height: nat, channels: seq<OpenChannel>, report: Report) returns (insights: seq<ChannelInfo>)
    ensures |insights| == |channels|
    ensures forall i :: 0 <= i < |channels| ==>
      fresh(insights[i]) && Shows(insights[i], channels[i], height, report.channelPairs)
  {
    insights := [];
    for i := 0 to |channels|
      invariant |insights| == i
      invariant forall k :: 0 <= k < i ==>
        fresh(insights[k]) && Shows(insights[k], channels[k], height, report.channelPairs)
    {
      var channel := channels[i];
      var info := new ChannelInfo(channel, height);
      if channel.channelPoint in report.channelPairs {
        info.Accumulate(report.channelPairs[channel.channelPoint]);
      }
      insights := insights + [info];
    }
  }

  // What the forwards brought in on a channel, and what they sent out on it.
  ghost function VolumeIn(events: seq<Forward>, channel: string): nat {
    if events == [] then 0
    else
      var e := events[|events| - 1];
      VolumeIn(events[..|events| - 1], channel) + if e.incoming == channel then e.incomingAmt else 0
  }

  ghost function VolumeOut(events: seq<Forward>, channel: string): nat {
    if events == [] then 0
    else
      var e := events[|events| - 1];
      VolumeOut(events[..|events| - 1], channel) + if e.outgoing == channel then e.outgoingAmt else 0
  }

  // A channel's volumes are those of the forwards themselves, each on the channel that carried it.
  lemma VolumesShown(info: ChannelInfo, channel: OpenChannel, height: nat, pairs: Pairs, events: seq<Forward>)
    requires IsReport(pairs, events) && Shows(info, channel, height, pairs)
    ensures info.volumeIncoming == VolumeIn(events, channel.channelPoint)
    ensures info.volumeOutgoing == VolumeOut(events, channel.channelPoint)
  {
    hide IsReport, SumOver, Carried, VolumeIn, VolumeOut;
    var point := channel.channelPoint;
    var reports := RecordsFor(pairs, point);
    forall e | e in events
      ensures e.incoming == point ==> e.outgoing in reports
      ensures e.outgoing == point ==> e.incoming in reports
    {
      RecordedBoth(pairs, events, e);
    }
    RecordsSum(pairs, events, point);
    VolumeByPair(events, point, reports.Keys);
  }

  lemma RecordedBoth(pairs: Pairs, events: seq<Forward>, e: Forward)
    requires IsReport(pairs, events) && e in events
    ensures Recorded(pairs, e.incoming, e.outgoing) && Recorded(pairs, e.outgoing, e.incoming)
  {
    hide RecordOf, Lookup;
    assert Met(events, e.incoming, e.outgoing);
  }

  // What the forwards from a channel to another took in, and those from another to it paid out.
  ghost function TakenIn(events: seq<Forward>, channel: string): string -> nat {
    pair => Carried(events, channel, pair, Received)
  }

  ghost function PaidOut(events: seq<Forward>, channel: string): string -> nat {
    pair => Carried(events, pair, channel, Sent)
  }

  lemma RecordsSum(pairs: Pairs, events: seq<Forward>, channel: string)
    requires IsReport(pairs, events)
    ensures var reports := RecordsFor(pairs, channel);
      SumOver(reports.Keys, IncomingOf(reports)) == SumOver(reports.Keys, TakenIn(events, channel)) &&
      SumOver(reports.Keys, OutgoingOf(reports)) == SumOver(reports.Keys, PaidOut(events, channel))
  {
    hide Carried, SumOver;
    var reports := RecordsFor(pairs, channel);
    forall k | k in reports
      ensures IncomingOf(reports)(k) == TakenIn(events, channel)(k)
      ensures OutgoingOf(reports)(k) == PaidOut(events, channel)(k)
    {
      assert Lookup(pairs, channel, k) == RecordOf(events, channel, k);
    }
    SumSame(reports.Keys, IncomingOf(reports), TakenIn(events, channel));
    SumSame(reports.Keys, OutgoingOf(reports), PaidOut(events, channel));
  }

  lemma {:induction false} VolumeByPair(events: seq<Forward>, channel: string, keys: set<string>)
    requires forall e :: e in events ==>
      (e.incoming == channel ==> e.outgoing in keys) && (e.outgoing == channel ==> e.incoming in keys)
    ensures SumOver(keys, TakenIn(events, channel)) == VolumeIn(events, channel)
    ensures SumOver(keys, PaidOut(events, channel)) == VolumeOut(events, channel)
    decreases |events|
  {
    hide SumOver;
    if events == [] {
      SumZero(keys, TakenIn(events, channel));
      SumZero(keys, PaidOut(events, channel));
    } else {
      var n := |events| - 1;
      var e, rest := events[n], events[..n];
      assert e in events;
      VolumeByPair(rest, channel, keys);
      if e.incoming == channel {
        SumBump(keys, TakenIn(rest, channel), TakenIn(events, channel), e.outgoing, e.incomingAmt);
      } else {
        SumSame(keys, TakenIn(rest, channel), TakenIn(events, channel));
      }
      if e.outgoing == channel {
        SumBump(keys, PaidOut(rest, channel), PaidOut(events, channel), e.incoming, e.outgoingAmt);
      } else {
        SumSame(keys, PaidOut(rest, channel), PaidOut(events, channel));
      }
    }
  }

  // Two channels get equal shares of what they earned together, half of it each, rounded down.
  lemma EvenShares(events: seq<Forward>, pairs: Pairs, a: string, b: string)
    requires IsReport(pairs, events)
    ensures SplitFees(pairs)((a, b)) == SplitFees(pairs)((b, a))
    ensures 2 * SplitFees(pairs)((a, b)) <= Lookup(pairs, a, b).feesIncoming + Lookup(pairs, b, a).feesIncoming
         <= 2 * SplitFees(pairs)((a, b)) + 1
  {
    hide SplitFees, IsReport, Lookup;
    FeesAgree(events, pairs, a, b);
    FeesAgree(events, pairs, b, a);
    ShareOf(pairs, a, b);
    ShareOf(pairs, b, a);
  }

  lemma ShareOf(pairs: Pairs, channel: string, pair: string)
    ensures var record := Lookup(pairs, channel, pair);
      SplitFees(pairs)((channel, pair)) == (record.feesOutgoing + record.feesIncoming) / 2
  {
    var reports := RecordsFor(pairs, channel);
    assert SplitFees(pairs)((channel, pair)) == SplitFeesOf(reports)(pair);
  }

  // What distinct channels earned together.
  ghost function EarnedTogether(pairs: Pairs, channels: set<string>): nat {
    SumOver(channels, FeesEarned(pairs))
  }

  // Summed over every channel of the report, the split fees never exceed the fees of the forwards,
  // and fall short of them by at most half a msat for each record.
  lemma FeesConserved(events: seq<Forward>, pairs: Pairs)
    requires IsReport(pairs, events)
    ensures 2 * EarnedTogether(pairs, pairs.Keys) <= 2 * TotalFees(events)
    ensures 2 * TotalFees(events) <= 2 * EarnedTogether(pairs, pairs.Keys) + |Records(pairs)|
  {
    hide IsReport;
    RecordsShowTotal(events, pairs);
    forall r | r in Records(pairs)
      ensures SplitFees(pairs)(r) == FeesOfRecord(events)(r) / 2
    {
      RecordFees(events, pairs, r);
    }
    SumHalves(Records(pairs), FeesOfRecord(events), SplitFees(pairs));
    SumByChannel(pairs, pairs.Keys);
    assert Within(pairs, pairs.Keys) == Records(pairs);
  }

  ghost function SplitFees(pairs: Pairs): ((string, string)) -> nat {
    (r: (string, string)) => SplitFeesOf(RecordsFor(pairs, r.0))(r.1)
  }

  lemma RecordFees(events: seq<Forward>, pairs: Pairs, r: (string, string))
    requires IsReport(pairs, events) && r in Records(pairs)
    ensures SplitFees(pairs)(r) == FeesOfRecord(events)(r) / 2
  {
    var target, pair := r.0, r.1;
    assert Recorded(pairs, target, pair);
    assert Lookup(pairs, target, pair) == RecordOf(events, target, pair);
    assert RecordsFor(pairs, target) == pairs[target];
    assert SplitFees(pairs)(r) == SplitFeesOf(pairs[target])(pair);
  }

  // The records of some of the channels.
  ghost function Within(pairs: Pairs, channels: set<string>): set<(string, string)> {
    set t, p | t in channels && t in pairs && p in pairs[t] :: (t, p)
  }

  // A sum channel by channel is a sum over all their records.
  lemma {:induction false} SumByChannel(pairs: Pairs, channels: set<string>)
    ensures EarnedTogether(pairs, channels) == SumOver(Within(pairs, channels), SplitFees(pairs))
    decreases |channels|
  {
    hide SplitFees, FeesEarned, RecordsFor, Within;
    WithinSplit(pairs, channels);
    if channels != {} {
      var t := Pick(channels);
      SumByChannel(pairs, channels - {t});
      SumUnion(Within(pairs, {t}), Within(pairs, channels - {t}), SplitFees(pairs));
      EarnedByOne(pairs, t);
    }
  }

  lemma WithinSplit(pairs: Pairs, channels: set<string>)
    ensures channels == {} ==> Within(pairs, channels) == {}
    ensures forall t :: t in channels ==>
      Within(pairs, channels) == Within(pairs, {t}) + Within(pairs, channels - {t}) &&
      Within(pairs, {t}) !! Within(pairs, channels - {t})
  {
    forall t | t in channels
      ensures Within(pairs, channels) == Within(pairs, {t}) + Within(pairs, channels - {t})
    {
      forall r
        ensures r in Within(pairs, channels) <==> r in Within(pairs, {t}) || r in Within(pairs, channels - {t})
      {
        assert r.0 in channels <==> r.0 == t || r.0 in channels - {t};
      }
    }
  }

  lemma EarnedByOne(pairs: Pairs, t: string)
    ensures FeesEarned(pairs)(t) == SumOver(Within(pairs, {t}), SplitFees(pairs))
  {
    SumOfChannel(pairs, t, RecordsFor(pairs, t).Keys);
    assert Within(pairs, {t}) == set p | p in RecordsFor(pairs, t).Keys :: (t, p);
  }

  lemma {:induction false} SumOfChannel(pairs: Pairs, t: string, keys: set<string>)
    ensures SumOver(keys, SplitFeesOf(RecordsFor(pairs, t)))
         == SumOver(set p | p in keys :: (t, p), SplitFees(pairs))
    decreases |keys|
  {
    var records := set p | p in keys :: (t, p);
    if keys == {} {
      assert records == {};
    } else {
      var p := Pick(keys);
      SumOfChannel(pairs, t, keys - {p});
      SumRemove(records, SplitFees(pairs), (t, p));
      assert records - {(t, p)} == set q | q in keys - {p} :: (t, q);
    }
  }

  ghost function TotalEarned(earned: seq<nat>): nat {
    if earned == [] then 0 else earned[0] + TotalEarned(earned[1..])
  }

  // Insights of distinct channels never claim more than all fees together, and those of all channels
  // of the report fall short of them by at most half a msat for each record.
  lemma InsightsSplitFees(earned: seq<nat>, points: seq<string>, pairs: Pairs, events: seq<Forward>)
    requires IsReport(pairs, events)
    requires |earned| == |points| && NoRepeats(points)
    requires forall i :: 0 <= i < |points| ==> earned[i] == FeesEarned(pairs)(points[i])
    ensures TotalEarned(earned) <= TotalFees(events)
    ensures pairs.Keys <= ToSet(points) ==> 2 * TotalFees(events) <= 2 * TotalEarned(earned) + |Records(pairs)|
  {
    hide IsReport, FeesEarned, EarnedTogether, TotalFees, TotalEarned;
    SumOfInsights(earned, points, pairs);
    FeesConserved(events, pairs);
    OpenChannelsEarn(pairs, ToSet(points));
  }

  // Channels outside the report earned nothing.
  lemma OpenChannelsEarn(pairs: Pairs, open: set<string>)
    ensures EarnedTogether(pairs, open) <= EarnedTogether(pairs, pairs.Keys)
    ensures pairs.Keys <= open ==> EarnedTogether(pairs, open) == EarnedTogether(pairs, pairs.Keys)
  {
    hide FeesEarned, SumOver;
    var shown, absent, rest := open * pairs.Keys, open - pairs.Keys, pairs.Keys - open;
    assert open == shown + absent && pairs.Keys == shown + rest;
    SumUnion(shown, absent, FeesEarned(pairs));
    SumUnion(shown, rest, FeesEarned(pairs));
    NothingEarned(pairs, absent);
    if pairs.Keys <= open {
      assert shown == pairs.Keys;
    }
  }

  lemma NothingEarned(pairs: Pairs, absent: set<string>)
    requires absent !! pairs.Keys
    ensures SumOver(absent, FeesEarned(pairs)) == 0
  {
    SumZero(absent, FeesEarned(pairs));
  }

  lemma {:induction false} SumOfInsights(earned: seq<nat>, points: seq<string>, pairs: Pairs)
    requires |earned| == |points| && NoRepeats(points)
    requires forall i :: 0 <= i < |points| ==> earned[i] == FeesEarned(pairs)(points[i])
    ensures TotalEarned(earned) == EarnedTogether(pairs, ToSet(points))
    decreases |points|
  {
    hide FeesEarned;
    if points != [] {
      SumOfInsights(earned[1..], points[1..], pairs);
      SumRemove(ToSet(points), FeesEarned(pairs), points[0]);
      assert points == [points[0]] + points[1..];
      assert ToSet(points) - {points[0]} == ToSet(points[1..]);
    }
  }
}
