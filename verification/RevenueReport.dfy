/**
 The pairwise revenue report (getReport in revenue/revenue.go): every forward is recorded under its
 incoming and under its outgoing channel.
 */
module RevenueReport {
  import opened Wrappers
  import opened FiniteSums

  const TWO_TO_THE_53 := 0x20_0000_0000_0000

  // A forward between two channel points, in msat. A forward never pays out more than it takes in.
  datatype RevenueEvent = RevenueEvent(incoming: string, outgoing: string, incomingAmt: nat, outgoingAmt: nat)

  type Forward = e: RevenueEvent | e.incomingAmt >= e.outgoingAmt witness RevenueEvent("", "", 0, 0)

  // What a channel carried and earned in each direction with one pair channel.
  datatype Revenue = Revenue(amountOutgoing: nat, amountIncoming: nat, feesOutgoing: nat, feesIncoming: nat)

  const NOTHING := Revenue(0, 0, 0, 0)

  type Pairs = map<string, map<string, Revenue>>

  // The gap between neighbouring float64 values near x.
  function Ulp(x: nat): (u: nat)
    ensures u > 0
  {
    if x < TWO_TO_THE_53 then 1 else 2 * Ulp(x / 2)
  }

  // The float64 nearest to a whole number, ties to even.
  function Float64(x: nat): (r: nat) {
    var u := Ulp(x);
    var q, rest := x / u, x % u;
    if 2 * rest < u || (2 * rest == u && q % 2 == 0) then q * u else (q + 1) * u
  }

  // The whole numbers a float64 holds. All below 2^53 are.
  predicate Representable(x: nat) {
    x % Ulp(x) == 0
  }

  lemma Float64Exact(x: nat)
    ensures Float64(x) == x <==> Representable(x)
    ensures x < TWO_TO_THE_53 ==> Representable(x)
  {
    var u := Ulp(x);
    assert x == x / u * u + x % u;
    assert (x / u + 1) * u == x / u * u + u;
  }

  // A float64 holds 53 bits, so its gap is the power of two that leaves 53 bits of x.
  lemma {:induction false} UlpScale(x: nat)
    ensures x < TWO_TO_THE_53 ==> Ulp(x) == 1
    ensures x >= TWO_TO_THE_53 ==> TWO_TO_THE_53 * Ulp(x) <= 2 * x && x < TWO_TO_THE_53 * Ulp(x)
    ensures exists bits: nat :: Ulp(x) == PowerOfTwo(bits)
  {
    if x < TWO_TO_THE_53 {
      assert Ulp(x) == PowerOfTwo(0);
    } else {
      UlpScale(x / 2);
      var bits: nat :| Ulp(x / 2) == PowerOfTwo(bits);
      assert Ulp(x) == PowerOfTwo(bits + 1);
    }
  }

  function PowerOfTwo(bits: nat): nat {
    if bits == 0 then 1 else 2 * PowerOfTwo(bits - 1)
  }

  // The rounding takes a whole number of gaps, at most half a gap away, and of two equally near the even.
  lemma Float64Nearest(x: nat)
    ensures exists q: nat ::
              Float64(x) == q * Ulp(x) &&
              2 * x <= 2 * Float64(x) + Ulp(x) && 2 * Float64(x) <= 2 * x + Ulp(x) &&
              (2 * x == 2 * Float64(x) + Ulp(x) || 2 * Float64(x) == 2 * x + Ulp(x) ==> q % 2 == 0)
  {
    hide Ulp;
    var u := Ulp(x);
    var q, rest := x / u, x % u;
    Quotient(x, u);
    if 2 * rest < u || (2 * rest == u && q % 2 == 0) {
      assert Float64(x) == q * u;
    } else {
      var next := q + 1;
      assert Float64(x) == next * u;
    }
  }

  lemma Quotient(x: nat, u: nat)
    requires u > 0
    ensures x == x / u * u + x % u && (x / u + 1) * u == x / u * u + u
  {
  }

  datatype Part = Received | Sent | Earned

  function Amount(e: Forward, part: Part): nat {
    match part
    case Received => e.incomingAmt
    case Sent => e.outgoingAmt
    case Earned => Float64(e.incomingAmt - e.outgoingAmt)
  }

  // The total of one part over all forwards from channel a to channel b.
  ghost function Carried(events: seq<Forward>, a: string, b: string, part: Part): nat {
    if events == [] then 0
    else
      var e := events[|events| - 1];
      Carried(events[..|events| - 1], a, b, part) +
      if e.incoming == a && e.outgoing == b then Amount(e, part) else 0
  }

  ghost predicate Met(events: seq<Forward>, a: string, b: string) {
    exists e :: e in events && e.incoming == a && e.outgoing == b
  }

  ghost function RecordOf(events: seq<Forward>, target: string, pair: string): Revenue {
    Revenue(Carried(events, pair, target, Sent), Carried(events, target, pair, Received),
            Carried(events, pair, target, Earned), Carried(events, target, pair, Earned))
  }

  function Lookup(pairs: Pairs, target: string, pair: string): Revenue {
    if target in pairs && pair in pairs[target] then pairs[target][pair] else NOTHING
  }

  ghost predicate Recorded(pairs: Pairs, target: string, pair: string) {
    target in pairs && pair in pairs[target]
  }

  // The report of a list of forwards: a record for every two channels that met, in both directions,
  // holding the sums over exactly the forwards between them.
  ghost predicate IsReport(pairs: Pairs, events: seq<Forward>) {
    (forall t, p :: Lookup(pairs, t, p) == RecordOf(events, t, p)) &&
    (forall t, p :: Recorded(pairs, t, p) <==> Met(events, t, p) || Met(events, p, t)) &&
    (forall t :: t in pairs ==> pairs[t] != map[])
  }

  function Opened(pairs: Pairs, target: string): Pairs {
    if target in pairs then pairs else pairs[target := map[]]
  }

  function Stored(pairs: Pairs, target: string, pair: string, revenue: Revenue): Pairs {
    var record := Opened(pairs, target)[target];
    pairs[target := record[pair := revenue]]
  }

  function WithIncoming(pairs: Pairs, target: string, pair: string, amount: nat, fees: nat): Pairs {
    var was := Lookup(pairs, target, pair);
    Stored(pairs, target, pair,
           was.(amountIncoming := was.amountIncoming + amount, feesIncoming := was.feesIncoming + fees))
  }

  function WithOutgoing(pairs: Pairs, target: string, pair: string, amount: nat, fees: nat): Pairs {
    var was := Lookup(pairs, target, pair);
    Stored(pairs, target, pair,
           was.(amountOutgoing := was.amountOutgoing + amount, feesOutgoing := was.feesOutgoing + fees))
  }

  class Report {
    var channelPairs: Pairs

    constructor ()
      ensures channelPairs == map[]
    {
      channelPairs := map[];
    }

    // getRevenue creates the target's map when it is missing.
    method GetRevenue(target: string, pair: string) returns (revenue: Revenue)
      modifies this
      ensures channelPairs == Opened(old(channelPairs), target)
      ensures revenue == Lookup(old(channelPairs), target, pair)
    {
      if target !in channelPairs {
        channelPairs := channelPairs[target := map[]];
      }
      var record := channelPairs[target];
      if pair !in record {
        return NOTHING;
      }
      revenue := record[pair];
    }

    // setRevenue expects the target's map to be there.
    method SetRevenue(target: string, pair: string, revenue: Revenue)
      requires target in channelPairs
      modifies this
      ensures channelPairs == old(channelPairs)[target := old(channelPairs)[target][pair := revenue]]
    {
      channelPairs := channelPairs[target := channelPairs[target][pair := revenue]];
    }

    method AddIncoming(incoming: string, outgoing: string, amount: nat, fees: nat)
      modifies this
      ensures channelPairs == WithIncoming(old(channelPairs), incoming, outgoing, amount, fees)
    {
      var revenue := GetRevenue(incoming, outgoing);
      revenue := revenue.(amountIncoming := revenue.amountIncoming + amount);
      revenue := revenue.(feesIncoming := revenue.feesIncoming + fees);
      SetRevenue(incoming, outgoing, revenue);
    }

    method AddOutgoing(outgoing: string, incoming: string, amount: nat, fees: nat)
      modifies this
      ensures channelPairs == WithOutgoing(old(channelPairs), outgoing, incoming, amount, fees)
    {
      var revenue := GetRevenue(outgoing, incoming);
      revenue := revenue.(amountOutgoing := revenue.amountOutgoing + amount);
      revenue := revenue.(feesOutgoing := revenue.feesOutgoing + fees);
      SetRevenue(outgoing, incoming, revenue);
    }
  }

  method GetReport(events: seq<Forward>) returns (report: Report)
    ensures fresh(report) && IsReport(report.channelPairs, events)
  {
    hide IsReport, WithIncoming, WithOutgoing, Float64;
    report := new Report();
    EmptyReport();
    for i := 0 to |events|
      invariant fresh(report)
      invariant IsReport(report.channelPairs, events[..i])
    {
      var e := events[i];
      var fee := e.incomingAmt - e.outgoingAmt;
      var fees := Float64(fee);
      ghost var before := report.channelPairs;
      report.AddIncoming(e.incoming, e.outgoing, e.incomingAmt, fees);
      report.AddOutgoing(e.outgoing, e.incoming, e.outgoingAmt, fees);
      assert events[..i + 1] == events[..i] + [e];
      ReportStep(before, events[..i], e);
    }
    assert events[..|events|] == events;
  }

  lemma EmptyReport()
    ensures IsReport(map[], [])
  {
  }

  // Both updates of a forward, also when they fall on one record.
  ghost function AfterForward(pairs: Pairs, e: Forward): Pairs {
    var fees := Amount(e, Earned);
    WithOutgoing(WithIncoming(pairs, e.incoming, e.outgoing, e.incomingAmt, fees),
                 e.outgoing, e.incoming, e.outgoingAmt, fees)
  }

  // Storing a record changes that record only.
  lemma StoredLookup(pairs: Pairs, target: string, pair: string, revenue: Revenue, t: string, p: string)
    ensures var next := Stored(pairs, target, pair, revenue);
      Lookup(next, t, p) == (if (t, p) == (target, pair) then revenue else Lookup(pairs, t, p)) &&
      (Recorded(next, t, p) <==> Recorded(pairs, t, p) || (t, p) == (target, pair))
  {
  }

  lemma StoredNotEmpty(pairs: Pairs, target: string, pair: string, revenue: Revenue)
    requires forall t :: t in pairs ==> pairs[t] != map[]
    ensures var next := Stored(pairs, target, pair, revenue); forall t :: t in next ==> next[t] != map[]
  {
    var record := Opened(pairs, target)[target];
    assert pair in record[pair := revenue];
  }

  lemma ReportStep(pairs: Pairs, events: seq<Forward>, e: Forward)
    requires IsReport(pairs, events)
    ensures IsReport(AfterForward(pairs, e), events + [e])
  {
    var next := AfterForward(pairs, e);
    forall t, p
      ensures Lookup(next, t, p) == RecordOf(events + [e], t, p)
      ensures Recorded(next, t, p) <==> Met(events + [e], t, p) || Met(events + [e], p, t)
    {
      RecordStep(pairs, events, e, t, p);
    }
    AfterNotEmpty(pairs, e);
  }

  lemma AfterNotEmpty(pairs: Pairs, e: Forward)
    requires forall t :: t in pairs ==> pairs[t] != map[]
    ensures var next := AfterForward(pairs, e); forall t :: t in next ==> next[t] != map[]
  {
    hide Stored, Lookup, Float64;
    var fees := Amount(e, Earned);
    var was := Lookup(pairs, e.incoming, e.outgoing);
    StoredNotEmpty(pairs, e.incoming, e.outgoing,
                   was.(amountIncoming := was.amountIncoming + e.incomingAmt, feesIncoming := was.feesIncoming + fees));
    var half := WithIncoming(pairs, e.incoming, e.outgoing, e.incomingAmt, fees);
    var other := Lookup(half, e.outgoing, e.incoming);
    StoredNotEmpty(half, e.outgoing, e.incoming,
                   other.(amountOutgoing := other.amountOutgoing + e.outgoingAmt, feesOutgoing := other.feesOutgoing + fees));
  }

  lemma RecordStep(pairs: Pairs, events: seq<Forward>, e: Forward, t: string, p: string)
    requires IsReport(pairs, events)
    ensures var next := AfterForward(pairs, e);
      Lookup(next, t, p) == RecordOf(events + [e], t, p) &&
      (Recorded(next, t, p) <==> Met(events + [e], t, p) || Met(events + [e], p, t))
  {
    hide Float64, Stored, Met, Carried, Lookup, Recorded;
    var a, b, fees := e.incoming, e.outgoing, Amount(e, Earned);
    var was := Lookup(pairs, a, b);
    var left := was.(amountIncoming := was.amountIncoming + e.incomingAmt, feesIncoming := was.feesIncoming + fees);
    var half := Stored(pairs, a, b, left);
    var other := Lookup(half, b, a);
    var right := other.(amountOutgoing := other.amountOutgoing + e.outgoingAmt, feesOutgoing := other.feesOutgoing + fees);
    StoredLookup(pairs, a, b, left, t, p);
    StoredLookup(pairs, a, b, left, b, a);
    StoredLookup(half, b, a, right, t, p);
    CarriedStep(events, e, t, p);
    CarriedStep(events, e, p, t);
    assert Lookup(pairs, t, p) == RecordOf(events, t, p);
    assert Recorded(pairs, t, p) <==> Met(events, t, p) || Met(events, p, t);
  }

  lemma CarriedStep(events: seq<Forward>, e: Forward, a: string, b: string)
    ensures var here := e.incoming == a && e.outgoing == b;
      (forall part :: Carried(events + [e], a, b, part)
                   == Carried(events, a, b, part) + if here then Amount(e, part) else 0) &&
      (Met(events + [e], a, b) <==> Met(events, a, b) || here)
  {
    assert (events + [e])[..|events|] == events;
    assert forall f :: f in events + [e] <==> f in events || f == e;
  }

  // The report of one forward: the channel that it came in on shows what it took in, the channel that it
  // went out on what it paid out, and both show its fee.
  lemma OneForward(e: Forward, pairs: Pairs)
    requires IsReport(pairs, [e]) && e.incomingAmt - e.outgoingAmt < TWO_TO_THE_53
    ensures pairs.Keys == {e.incoming, e.outgoing}
    ensures var fee := e.incomingAmt - e.outgoingAmt;
      if e.incoming == e.outgoing then
        pairs[e.incoming] == map[e.incoming := Revenue(e.outgoingAmt, e.incomingAmt, fee, fee)]
      else
        pairs[e.incoming] == map[e.outgoing := Revenue(0, e.incomingAmt, 0, fee)] &&
        pairs[e.outgoing] == map[e.incoming := Revenue(e.outgoingAmt, 0, fee, 0)]
  {
    hide Float64, Lookup, Met, Carried, IsReport, RecordOf;
    Float64Exact(e.incomingAmt - e.outgoingAmt);
    RecordsOfOne(e, pairs);
    OneRecord(e, pairs, e.incoming, e.outgoing);
    OneRecord(e, pairs, e.outgoing, e.incoming);
  }

  lemma RecordsOfOne(e: Forward, pairs: Pairs)
    requires IsReport(pairs, [e])
    ensures pairs.Keys == {e.incoming, e.outgoing}
    ensures pairs[e.incoming].Keys == {e.outgoing} && pairs[e.outgoing].Keys == {e.incoming}
  {
    hide Lookup, RecordOf, Met;
    forall t, p
      ensures Recorded(pairs, t, p) <==> (t, p) in {(e.incoming, e.outgoing), (e.outgoing, e.incoming)}
    {
      MetOnce(e, t, p);
      MetOnce(e, p, t);
    }
    OnlyRecords(pairs, e.incoming, e.outgoing);
  }

  lemma MetOnce(e: Forward, a: string, b: string)
    ensures Met([e], a, b) <==> e.incoming == a && e.outgoing == b
  {
    assert e in [e];
  }

  lemma OneRecord(e: Forward, pairs: Pairs, t: string, p: string)
    requires IsReport(pairs, [e]) && Recorded(pairs, t, p)
    ensures var into, out, fee := (e.incoming, e.outgoing) == (t, p), (e.incoming, e.outgoing) == (p, t), Amount(e, Earned);
      pairs[t][p] == Revenue(if out then e.outgoingAmt else 0, if into then e.incomingAmt else 0,
                             if out then fee else 0, if into then fee else 0)
  {
    hide Float64, Met, Carried;
    assert Lookup(pairs, t, p) == RecordOf([e], t, p);
    CarriedOnce(e, t, p);
    CarriedOnce(e, p, t);
  }

  lemma CarriedOnce(e: Forward, a: string, b: string)
    ensures forall part :: Carried([e], a, b, part) == if e.incoming == a && e.outgoing == b then Amount(e, part) else 0
  {
    hide Float64;
    CarriedStep([], e, a, b);
    assert [] + [e] == [e];
  }

  lemma OnlyRecords(pairs: Pairs, a: string, b: string)
    requires forall t, p :: Recorded(pairs, t, p) <==> (t, p) in {(a, b), (b, a)}
    requires forall t :: t in pairs ==> pairs[t] != map[]
    ensures pairs.Keys == {a, b} && pairs[a].Keys == {b} && pairs[b].Keys == {a}
  {
    forall t | t in pairs
      ensures t in {a, b}
    {
      var p :| p in pairs[t];
      assert Recorded(pairs, t, p);
    }
    assert Recorded(pairs, a, b) && Recorded(pairs, b, a);
    forall t, p | t in pairs && p in pairs[t]
      ensures (t, p) in {(a, b), (b, a)}
    {
      assert Recorded(pairs, t, p);
    }
  }

  // Reports add up, record by record.
  lemma ReportsAdd(a: seq<Forward>, b: seq<Forward>, ofA: Pairs, ofB: Pairs, ofBoth: Pairs, t: string, p: string)
    requires IsReport(ofA, a) && IsReport(ofB, b) && IsReport(ofBoth, a + b)
    ensures Recorded(ofBoth, t, p) <==> Recorded(ofA, t, p) || Recorded(ofB, t, p)
    ensures var x, y, both := Lookup(ofA, t, p), Lookup(ofB, t, p), Lookup(ofBoth, t, p);
      both.amountIncoming == x.amountIncoming + y.amountIncoming && both.feesIncoming == x.feesIncoming + y.feesIncoming &&
      both.amountOutgoing == x.amountOutgoing + y.amountOutgoing && both.feesOutgoing == x.feesOutgoing + y.feesOutgoing
  {
    hide Carried, Met, Lookup, Recorded;
    CarriedAppend(a, b, t, p);
    CarriedAppend(a, b, p, t);
    assert Lookup(ofA, t, p) == RecordOf(a, t, p) && Lookup(ofB, t, p) == RecordOf(b, t, p);
    assert Lookup(ofBoth, t, p) == RecordOf(a + b, t, p);
    assert Recorded(ofA, t, p) <==> Met(a, t, p) || Met(a, p, t);
    assert Recorded(ofB, t, p) <==> Met(b, t, p) || Met(b, p, t);
    assert Recorded(ofBoth, t, p) <==> Met(a + b, t, p) || Met(a + b, p, t);
  }

  lemma {:induction false} CarriedAppend(a: seq<Forward>, b: seq<Forward>, t: string, p: string)
    ensures forall part :: Carried(a + b, t, p, part) == Carried(a, t, p, part) + Carried(b, t, p, part)
    ensures Met(a + b, t, p) <==> Met(a, t, p) || Met(b, t, p)
    decreases |b|
  {
    if b == [] {
      assert a + b == a;
    } else {
      var n := |b| - 1;
      CarriedAppend(a, b[..n], t, p);
      CarriedStep(a + b[..n], b[n], t, p);
      CarriedStep(b[..n], b[n], t, p);
      assert b == b[..n] + [b[n]];
      assert a + b == a + b[..n] + [b[n]];
    }
  }

  // The two records of a pair of channels agree on its fees, and these are what came in less what
  // went out.
  lemma FeesAgree(events: seq<Forward>, pairs: Pairs, a: string, b: string)
    requires IsReport(pairs, events)
    ensures Lookup(pairs, a, b).feesIncoming == Lookup(pairs, b, a).feesOutgoing
    ensures (forall e :: e in events ==> Representable(e.incomingAmt - e.outgoingAmt)) ==>
      Lookup(pairs, a, b).feesIncoming == Lookup(pairs, a, b).amountIncoming - Lookup(pairs, b, a).amountOutgoing
  {
    if forall e :: e in events ==> Representable(e.incomingAmt - e.outgoingAmt) {
      FeesExact(events, a, b);
    }
  }

  lemma {:induction false} FeesExact(events: seq<Forward>, a: string, b: string)
    requires forall e :: e in events ==> Representable(e.incomingAmt - e.outgoingAmt)
    ensures Carried(events, a, b, Earned) == Carried(events, a, b, Received) - Carried(events, a, b, Sent)
  {
    if events != [] {
      var e := events[|events| - 1];
      Float64Exact(e.incomingAmt - e.outgoingAmt);
      FeesExact(events[..|events| - 1], a, b);
    }
  }

  // A fee of 2^53 + 1 msat is rounded on its way through a float64.
  lemma LargeFeeRounds()
    ensures var e := RevenueEvent("a", "b", TWO_TO_THE_53 + 1, 0);
      Carried([e], "a", "b", Earned) == Carried([e], "a", "b", Received) - 1
  {
    assert Ulp(TWO_TO_THE_53 + 1) == 2;
    assert Float64(TWO_TO_THE_53 + 1) == TWO_TO_THE_53;
  }

  ghost function TotalFees(events: seq<Forward>): nat {
    if events == [] then 0
    else TotalFees(events[..|events| - 1]) + Amount(events[|events| - 1], Earned)
  }

  // The records of a report, and the fees each shows in both directions.
  ghost function Records(pairs: Pairs): set<(string, string)> {
    set t, p | t in pairs && p in pairs[t] :: (t, p)
  }

  ghost function FeesOfRecord(events: seq<Forward>): ((string, string)) -> nat {
    (r: (string, string)) => Carried(events, r.1, r.0, Earned) + Carried(events, r.0, r.1, Earned)
  }

  // Every fee is shown twice: by its incoming and by its outgoing channel.
  lemma {:induction false} FeesShownTwice(events: seq<Forward>, records: set<(string, string)>)
    requires forall e :: e in events ==> (e.incoming, e.outgoing) in records && (e.outgoing, e.incoming) in records
    ensures SumOver(records, FeesOfRecord(events)) == 2 * TotalFees(events)
  {
    if events == [] {
      SumZero(records, FeesOfRecord(events));
    } else {
      var n := |events| - 1;
      var e, rest := events[n], events[..n];
      assert e in events;
      FeesShownTwice(rest, records);
      var v := Amount(e, Earned);
      var half := (r: (string, string)) =>
        FeesOfRecord(rest)(r) + if r == (e.incoming, e.outgoing) then v else 0;
      SumBump(records, FeesOfRecord(rest), half, (e.incoming, e.outgoing), v);
      SumBump(records, half, FeesOfRecord(events), (e.outgoing, e.incoming), v);
    }
  }

  lemma RecordsShowTotal(events: seq<Forward>, pairs: Pairs)
    requires IsReport(pairs, events)
    ensures SumOver(Records(pairs), FeesOfRecord(events)) == 2 * TotalFees(events)
  {
    forall e | e in events
      ensures (e.incoming, e.outgoing) in Records(pairs) && (e.outgoing, e.incoming) in Records(pairs)
    {
      assert Met(events, e.incoming, e.outgoing);
    }
    FeesShownTwice(events, Records(pairs));
  }
}
