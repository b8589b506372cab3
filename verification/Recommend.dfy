/**
 Close recommendations (recommend/recommend.go): which of the monitored public channels lie beneath
 the others by enough to be closed.
 */
module Recommend {
  import opened Wrappers
  import opened Dataset
  import opened ChannelInsights

  datatype RecommendError = ZeroMinMonitored | NoMetric

  datatype Metric = InvalidMetric | UptimeMetric | RevenueMetric | IncomingVolume | OutgoingVolume | Volume

  // OutlierRecommendations and ThresholdRecommendations.
  datatype Strategy = Outliers(multiplier: real) | Threshold(value: real)

  datatype Recommendation = Recommendation(value: real, recommendClose: bool)

  datatype Report = Report(totalChannels: nat, consideredChannels: nat, recommendations: map<string, Recommendation>)

  predicate Eligible(c: ChannelInfo, minimumAge: int) {
    c.monitoredFor >= minimumAge && !c.isPrivate
  }

  // What the value of a channel is divided by: its monitored time, or its confirmations.
  function Divisor(metric: Metric, c: ChannelInfo): int {
    if metric.UptimeMetric? then c.monitoredFor else c.confirmations
  }

  // The values are numbers, not infinities.
  predicate Measurable(metric: Metric, c: ChannelInfo) {
    metric.InvalidMetric? || Divisor(metric, c) != 0
  }

  function MetricValue(metric: Metric, c: ChannelInfo): real
    requires Measurable(metric, c)
    reads c
  {
    match metric
    case InvalidMetric => 0.0
    case UptimeMetric => c.uptime as real / c.monitoredFor as real
    case RevenueMetric => c.feesEarned as real / c.confirmations as real
    case IncomingVolume => c.volumeIncoming as real / c.confirmations as real
    case OutgoingVolume => c.volumeOutgoing as real / c.confirmations as real
    case Volume => (c.volumeIncoming + c.volumeOutgoing) as real / c.confirmations as real
  }

  // Uptime is measured against the monitored time, everything else against the confirmations.
  lemma MetricMeans(metric: Metric, c: ChannelInfo)
    requires Measurable(metric, c) && !metric.InvalidMetric?
    ensures metric.UptimeMetric? ==> MetricValue(metric, c) * c.monitoredFor as real == c.uptime as real
    ensures metric.RevenueMetric? ==> MetricValue(metric, c) * c.confirmations as real == c.feesEarned as real
    ensures metric.IncomingVolume? ==> MetricValue(metric, c) * c.confirmations as real == c.volumeIncoming as real
    ensures metric.OutgoingVolume? ==> MetricValue(metric, c) * c.confirmations as real == c.volumeOutgoing as real
    ensures metric.Volume? ==>
      MetricValue(metric, c) * c.confirmations as real == c.volumeIncoming as real + c.volumeOutgoing as real
  {
  }

  ghost predicate Considered(c: ChannelInfo, channels: seq<ChannelInfo>, minimumAge: int) {
    c in channels && Eligible(c, minimumAge)
  }

  // filterChannels keeps the eligible channels in their order.
  method FilterChannels(channels: seq<ChannelInfo>, minimumAge: int) returns (filtered: seq<ChannelInfo>)
    ensures filtered == Filtered(channels, minimumAge)
  {
    filtered := [];
    for i := 0 to |channels|
      invariant filtered == Filtered(channels[..i], minimumAge)
    {
      var channel := channels[i];
      assert channels[..i + 1] == channels[..i] + [channel];
      assert channels[..i + 1][..i] == channels[..i];
      if channel.monitoredFor < minimumAge {
        continue;
      }
      if channel.isPrivate {
        continue;
      }
      filtered := filtered + [channel];
    }
    assert channels[..|channels|] == channels;
  }

  ghost function Filtered(channels: seq<ChannelInfo>, minimumAge: int): (r: seq<ChannelInfo>)
    ensures forall c :: c in r ==> Considered(c, channels, minimumAge)
    ensures forall c :: c in channels && Eligible(c, minimumAge) ==> c in r
    ensures |r| <= |channels|
  {
    if channels == [] then []
    else
      var n := |channels| - 1;
      assert channels == channels[..n] + [channels[n]];
      var rest := Filtered(channels[..n], minimumAge);
      if Eligible(channels[n], minimumAge) then rest + [channels[n]] else rest
  }

  // A filter for one property, channel by channel.
  lemma {:induction false} FilteredAppend(a: seq<ChannelInfo>, b: seq<ChannelInfo>, minimumAge: int)
    ensures Filtered(a + b, minimumAge) == Filtered(a, minimumAge) + Filtered(b, minimumAge)
    decreases |b|
  {
    hide Filtered;
    if b == [] {
      assert a + b == a;
      FilteredNone(minimumAge);
    } else {
      var n := |b| - 1;
      FilteredAppend(a, b[..n], minimumAge);
      FilteredLast(a + b, minimumAge);
      FilteredLast(b, minimumAge);
      assert (a + b)[..|a + b| - 1] == a + b[..n];
    }
  }

  lemma FilteredNone(minimumAge: int)
    ensures Filtered([], minimumAge) == []
  {
  }

  lemma FilteredLast(channels: seq<ChannelInfo>, minimumAge: int)
    requires channels != []
    ensures Filtered(channels, minimumAge)
         == Filtered(channels[..|channels| - 1], minimumAge)
            + if Eligible(channels[|channels| - 1], minimumAge) then [channels[|channels| - 1]] else []
  {
  }

  lemma FilteredOne(c: ChannelInfo, minimumAge: int)
    ensures Filtered([c], minimumAge) == if c.monitoredFor < minimumAge || c.isPrivate then [] else [c]
  {
    assert Filtered([c][..0], minimumAge) == [];
  }

  // A dataset holds a value of each point that some channel has.
  ghost predicate IsDataset(data: Values, metric: Metric, channels: seq<ChannelInfo>)
    requires forall c :: c in channels ==> Measurable(metric, c)
    reads channels
  {
    (forall c :: c in channels ==> c.channelPoint in data) &&
    (forall p :: p in data ==>
      exists c :: c in channels && c.channelPoint == p && data[p] == MetricValue(metric, c)) &&
    |data| <= |channels|
  }

  // getUptimeDataset and getConfirmationScaledDataset
  method GetDataset(metric: Metric, channels: seq<ChannelInfo>) returns (data: Values)
    requires forall c :: c in channels ==> Measurable(metric, c)
    ensures IsDataset(data, metric, channels)
  {
    hide IsDataset;
    data := map[];
    EmptyDataset(metric);
    for i := 0 to |channels|
      invariant IsDataset(data, metric, channels[..i])
    {
      var c := channels[i];
      DatasetStep(data, metric, channels[..i], c);
      assert channels[..i + 1] == channels[..i] + [c];
      data := data[c.channelPoint := MetricValue(metric, c)];
    }
    assert channels[..|channels|] == channels;
  }

  lemma EmptyDataset(metric: Metric)
    ensures IsDataset(map[], metric, [])
  {
  }

  lemma DatasetStep(data: Values, metric: Metric, channels: seq<ChannelInfo>, c: ChannelInfo)
    requires forall d :: d in channels + [c] ==> Measurable(metric, d)
    requires IsDataset(data, metric, channels)
    ensures IsDataset(data[c.channelPoint := MetricValue(metric, c)], metric, channels + [c])
  {
    hide MetricValue;
    var next := data[c.channelPoint := MetricValue(metric, c)];
    assert next.Keys == data.Keys + {c.channelPoint};
    forall p | p in next
      ensures exists d :: d in channels + [c] && d.channelPoint == p && next[p] == MetricValue(metric, d)
    {
      if p == c.channelPoint {
        assert c in channels + [c];
      } else {
        var d :| d in channels && d.channelPoint == p && data[p] == MetricValue(metric, d);
        assert d in channels + [c];
      }
    }
  }

  ghost function Closed(recs: map<string, Recommendation>): set<string> {
    set p | p in recs && recs[p].recommendClose
  }

  ghost function ValuesOf(recs: map<string, Recommendation>): Values {
    map p | p in recs :: recs[p].value
  }

  // getOutlierRecs
  method GetOutlierRecs(values: Values, multiplier: real, upperOutlier: bool)
    returns (recs: map<string, Recommendation>)
    ensures ValuesOf(recs) == values
    ensures Closed(recs)
         == if upperOutlier then UpperOutliers(values, multiplier) else LowerOutliers(values, multiplier)
  {
    hide OutliersOf, QuartilesOf, Closed, ValuesOf, UpperOutliers, LowerOutliers;
    recs := map[];
    var outliers := GetOutliers(values, multiplier);
    OutlierLabels(values, multiplier);
    var left := outliers.Keys;
    while left != {}
      invariant left <= outliers.Keys
      invariant recs.Keys == outliers.Keys - left
      invariant forall p :: p in recs ==> recs[p].value == values[p]
      invariant forall p :: p in recs ==>
        (recs[p].recommendClose <==> if upperOutlier then outliers[p].upper else outliers[p].lower)
    {
      var point := NextKey(left);
      var outlier := outliers[point];
      var recommendClose := false;
      if upperOutlier && outlier.upper {
        recommendClose := true;
      }
      if !upperOutlier && outlier.lower {
        recommendClose := true;
      }
      recs := recs[point := Recommendation(values[point], recommendClose)];
      left := left - {point};
    }
    RecsOf(values, multiplier, upperOutlier, recs);
  }

  lemma OutlierLabels(values: Values, multiplier: real)
    ensures OutliersOf(values, multiplier).Keys == values.Keys
  {
  }

  lemma RecsOf(values: Values, multiplier: real, upperOutlier: bool, recs: map<string, Recommendation>)
    requires recs.Keys == values.Keys && forall p :: p in recs ==> recs[p].value == values[p]
    requires var outliers := OutliersOf(values, multiplier);
      forall p :: p in recs ==>
        (recs[p].recommendClose <==> if upperOutlier then outliers[p].upper else outliers[p].lower)
    ensures ValuesOf(recs) == values
    ensures Closed(recs)
         == if upperOutlier then UpperOutliers(values, multiplier) else LowerOutliers(values, multiplier)
  {
    hide QuartilesOf, IsIQROutlier;
  }

  // getThresholdRecs for values at or below the threshold
  method GetThresholdRecs(values: Values, threshold: real) returns (recs: map<string, Recommendation>)
    ensures ValuesOf(recs) == values
    ensures Closed(recs) == set p | p in values && values[p] <= threshold
  {
    recs := map[];
    var left := values.Keys;
    while left != {}
      invariant left <= values.Keys
      invariant recs.Keys == values.Keys - left
      invariant forall p :: p in recs ==> recs[p] == Recommendation(values[p], values[p] <= threshold)
    {
      var point := NextKey(left);
      recs := recs[point := Recommendation(values[point], values[point] <= threshold)];
      left := left - {point};
    }
  }

  // What a strategy closes: lower outliers among the recommended values, or values that are too low.
  ghost predicate Follows(strategy: Strategy, recs: map<string, Recommendation>) {
    match strategy
    case Outliers(multiplier) => Closed(recs) == LowerOutliers(ValuesOf(recs), multiplier)
    case Threshold(value) => Closed(recs) == set p | p in recs && recs[p].value <= value
  }

  // Under the outlier strategy a channel is closed exactly when there are three values or more and its own
  // lies beneath the lower fence of the sorted values; under the other one when it is at most the threshold.
  lemma ClosedSay(strategy: Strategy, recs: map<string, Recommendation>, v: seq<real>, p: string)
    requires Follows(strategy, recs) && p in recs
    requires Ascending(v) && multiset(v) == multiset(Listing(ValuesOf(recs)))
    ensures var n, half := |recs|, |recs| / 2;
      |v| == n &&
      match strategy {
        case Outliers(multiplier) =>
          recs[p].recommendClose <==>
            n >= 3 &&
            var lower := (v[(half - 1) / 2] + v[half / 2]) / 2.0;
            var upper := (v[n - 1 - (half - 1) / 2] + v[n - 1 - half / 2]) / 2.0;
            recs[p].value < lower - (upper - lower) * multiplier
        case Threshold(value) =>
          recs[p].recommendClose <==> recs[p].value <= value
      }
  {
    hide Ascending, Listing, OutliersOf;
    assert ValuesOf(recs).Keys == recs.Keys;
    assert |ValuesOf(recs)| == |ValuesOf(recs).Keys| && |recs| == |recs.Keys|;
    assert recs[p].recommendClose <==> p in Closed(recs);
    if strategy.Outliers? {
      OutliersSay(ValuesOf(recs), strategy.multiplier, v, p);
    } else {
      assert |multiset(v)| == |multiset(Listing(ValuesOf(recs)))|;
    }
  }

  // closeRecommendations.
  method CloseRecommendations(metric: Metric, minimumMonitored: int, strategy: Strategy, channels: seq<ChannelInfo>)
    returns (r: Result<Report, RecommendError>)
    requires forall c :: c in channels && Eligible(c, minimumMonitored) ==> Measurable(metric, c)
    ensures minimumMonitored == 0 ==> r == Err(ZeroMinMonitored)
    ensures minimumMonitored != 0 && metric.InvalidMetric? ==> r == Err(NoMetric)
    ensures minimumMonitored != 0 && !metric.InvalidMetric? ==>
      r.Ok? && r.value.totalChannels == |channels| &&
      r.value.consideredChannels == |Filtered(channels, minimumMonitored)| &&
      IsDataset(ValuesOf(r.value.recommendations), metric, Filtered(channels, minimumMonitored)) &&
      Follows(strategy, r.value.recommendations)
  {
    hide Filtered, Follows, IsDataset, ValuesOf;
    if minimumMonitored == 0 {
      return Err(ZeroMinMonitored);
    }
    var filtered := FilterChannels(channels, minimumMonitored);
    if metric.InvalidMetric? {
      return Err(NoMetric);
    }
    var data := GetDataset(metric, filtered);
    var recs;
    match strategy {
      case Outliers(multiplier) =>
        recs := GetOutlierRecs(data, multiplier, false);
      case Threshold(value) =>
        recs := GetThresholdRecs(data, value);
    }
    StrategyFollowed(strategy, recs, data);
    r := Ok(Report(|channels|, |filtered|, recs));
  }

  lemma StrategyFollowed(strategy: Strategy, recs: map<string, Recommendation>, data: Values)
    requires ValuesOf(recs) == data
    requires strategy.Outliers? ==> Closed(recs) == LowerOutliers(data, strategy.multiplier)
    requires strategy.Threshold? ==> Closed(recs) == set p | p in data && data[p] <= strategy.value
    ensures Follows(strategy, recs)
  {
    hide LowerOutliers, Closed;
  }

  // Outlier recommendations close at most a quarter of the considered channels, and never more of
  // them under a larger multiplier.
  lemma FewAreClosed(metric: Metric, considered: seq<ChannelInfo>, multiplier: real, recs: map<string, Recommendation>)
    requires forall c :: c in considered ==> Measurable(metric, c)
    requires IsDataset(ValuesOf(recs), metric, considered) && Follows(Outliers(multiplier), recs)
    requires multiplier >= 0.0
    ensures |Closed(recs)| <= |considered| / 4
    ensures forall higher, others | ValuesOf(others) == ValuesOf(recs) && Follows(Outliers(higher), others) &&
      higher >= multiplier :: Closed(others) <= Closed(recs)
  {
    hide ValuesOf, LowerOutliers, Closed;
    FewLowerOutliers(ValuesOf(recs), multiplier);
    forall higher, others | ValuesOf(others) == ValuesOf(recs) && Follows(Outliers(higher), others) && higher >= multiplier
      ensures Closed(others) <= Closed(recs)
    {
      OutliersShrink(ValuesOf(recs), multiplier, higher);
    }
  }
}
