/**
 The ForwardingAbility call (frdrpcserver/forwarding_ability.go): truncation to whole seconds, the
 node-down guard and the encoder, composed.
 */
module ForwardingAbilityRpc {
  import opened Wrappers
  import opened Hex
  import opened AbilityWire
  import opened AbilityLaws
  import opened AbilityCodec
  import opened AbilityMeaning
  import C = ChannelEvents
  import T = EventTable
  import A = UptimeWalk
  import P = AllPairs
  import F = ForwardingData
  import E = EffectiveUptime

  // defaultLiquidityFloorSat and defaultUptimeThreshold
  const DEFAULT_LIQUIDITY_FLOOR := 50_000
  const DEFAULT_UPTIME_THRESHOLD := 0.9

  datatype Request = Request(startTime: nat, endTime: nat, liquidityFloor: nat, uptimeThreshold: real)

  datatype Status = InvalidArgument | Unavailable | Internal | FailedPrecondition

  // What the analysis answers for a window and a floor; None is an error.
  type Abilities = map<P.PeerPair, A.Ability>
  type Analyzer = (int, int, nat) -> Option<Abilities>

  function EndOf(req: Request, now: int): int {
    if req.endTime != 0 then req.endTime * NANOS else now
  }

  // time.Time.Unix
  function Unix(t: int): int {
    t / NANOS
  }

  function WindowOf(req: Request, now: int): int {
    Unix(EndOf(req, now)) - req.startTime
  }

  function FloorOf(req: Request): nat {
    if req.liquidityFloor == 0 then DEFAULT_LIQUIDITY_FLOOR else req.liquidityFloor
  }

  function ThresholdOf(req: Request): real {
    if req.uptimeThreshold == 0.0 then DEFAULT_UPTIME_THRESHOLD else req.uptimeThreshold
  }

  // A pair's facts on the wire: sub-second uptime floors to zero.
  function Truncated(a: A.Ability): Ability {
    Ability(a.uptime / NANOS, a.forwarded)
  }

  function TruncatedAll(abilities: Abilities): Flat {
    map q | q in abilities :: Pair(q.peerIn, q.peerOut) := Truncated(abilities[q])
  }

  // The flat result as the nested map the codec expects.
  method Nest(abilities: Abilities) returns (nested: Nested)
    ensures Flatten(nested) == TruncatedAll(abilities) && NoEmpty(nested)
  {
    hide Flatten, NoEmpty, Recorded;
    NoPairs();
    nested := map[];
    ghost var flat: Flat := map[];
    var left := abilities.Keys;
    while left != {}
      invariant left <= abilities.Keys && NoEmpty(nested) && Flatten(nested) == flat
      invariant forall q :: q in flat <==>
        P.PeerPair(q.inPeer, q.outPeer) in abilities && P.PeerPair(q.inPeer, q.outPeer) !in left
      invariant forall q :: q in flat ==> flat[q] == Truncated(abilities[P.PeerPair(q.inPeer, q.outPeer)])
      decreases left
    {
      var q := NextKey(left);
      var p := Pair(q.peerIn, q.peerOut);
      RecordedFlat(nested, p, Truncated(abilities[q]));
      nested := Recorded(nested, p, Truncated(abilities[q]));
      flat := flat[p := Truncated(abilities[q])];
      left := left - {q};
    }
    forall p
      ensures p in flat <==> p in TruncatedAll(abilities)
      ensures p in flat ==> flat[p] == TruncatedAll(abilities)[p]
    {
      assert p == Pair(p.inPeer, p.outPeer);
    }
  }

  ghost function Qualifying(f: Flat, minUptime: int): set<Pair> {
    set p | p in f && f[p].uptime >= minUptime
  }

  // The node-down guard: how many pairs were up long enough.
  method CountQualifying(f: Flat, minUptime: int) returns (qualifying: nat)
    ensures qualifying == |Qualifying(f, minUptime)|
  {
    hide Qualifying;
    NoneCounted(f, minUptime);
    qualifying := 0;
    var left := f.Keys;
    while left != {}
      invariant left <= f.Keys
      invariant qualifying == |Qualifying(f, minUptime) - left|
      decreases left
    {
      var p := NextKey(left);
      CountNext(f, minUptime, left, p);
      if f[p].uptime >= minUptime {
        qualifying := qualifying + 1;
      }
      left := left - {p};
    }
    assert Qualifying(f, minUptime) - left == Qualifying(f, minUptime);
  }

  lemma NoneCounted(f: Flat, minUptime: int)
    ensures Qualifying(f, minUptime) - f.Keys == {}
  {
  }

  lemma CountNext(f: Flat, minUptime: int, left: set<Pair>, p: Pair)
    requires p in f && p in left
    ensures |Qualifying(f, minUptime) - (left - {p})|
         == |Qualifying(f, minUptime) - left| + if f[p].uptime >= minUptime then 1 else 0
  {
    var counted := Qualifying(f, minUptime) - left;
    assert Qualifying(f, minUptime) - (left - {p}) == if f[p].uptime >= minUptime then counted + {p} else counted;
  }

  lemma NoneQualifies(f: Flat, minUptime: int)
    ensures |Qualifying(f, minUptime)| == 0 <==> forall p :: p in f ==> f[p].uptime < minUptime
  {
    if |Qualifying(f, minUptime)| == 0 {
      assert forall p :: p in f ==> p !in Qualifying(f, minUptime);
    } else {
      assert Pick(Qualifying(f, minUptime)) in f;
    }
  }

  predicate ValidRequest(req: Request, now: int) {
    req.startTime <= MAX_INT64 && req.endTime <= MAX_INT64 && req.startTime * NANOS <= EndOf(req, now)
  }

  predicate ValidThreshold(req: Request) {
    0.0 <= ThresholdOf(req) <= 1.0
  }

  // The facts an analysis answers a request with.
  function FactsFor(req: Request, now: int, analyzer: Analyzer): Option<Flat> {
    match analyzer(req.startTime * NANOS, EndOf(req, now), FloorOf(req))
    case None => None
    case Some(abilities) => Some(TruncatedAll(abilities))
  }

  function MinUptimeOf(req: Request, now: int): int {
    MinQualifyingUptime(ThresholdOf(req), WindowOf(req, now))
  }

  // The one response of the analysis' facts, which pass the guard.
  ghost predicate IsAnswer(req: Request, now: int, analyzer: Analyzer, r: Response) {
    FactsFor(req, now, analyzer).Some? &&
    var f, m := FactsFor(req, now, analyzer).value, MinUptimeOf(req, now);
    !Collides(f, m) && (exists p :: p in f && f[p].uptime >= m) &&
    IsResponse(Facts(f, m), m, req.startTime, Unix(EndOf(req, now)), ThresholdOf(req), r)
  }

  // ForwardingAbility. A response is the one response of the analysis' facts, and there is one
  // exactly when the request is valid, the analysis answers, some pair passes the guard and the
  // facts can be encoded.
  method ForwardingAbility(req: Request, now: int, analyzer: Option<Analyzer>)
    returns (r: Result<Response, Status>)
    ensures r.Err? && r.error == InvalidArgument <==>
      !ValidRequest(req, now) || (analyzer.Some? && !ValidThreshold(req))
    ensures r.Err? && r.error == Unavailable <==> ValidRequest(req, now) && analyzer.None?
    ensures r.Err? && r.error == FailedPrecondition <==>
      ValidRequest(req, now) && analyzer.Some? && ValidThreshold(req) &&
      FactsFor(req, now, analyzer.value).Some? &&
      var f := FactsFor(req, now, analyzer.value).value;
      forall p :: p in f ==> f[p].uptime < MinUptimeOf(req, now)
    ensures r.Ok? <==>
      ValidRequest(req, now) && analyzer.Some? && ValidThreshold(req) &&
      FactsFor(req, now, analyzer.value).Some? &&
      var f := FactsFor(req, now, analyzer.value).value;
      (exists p :: p in f && f[p].uptime >= MinUptimeOf(req, now)) && Failure(f, MinUptimeOf(req, now)).None?
    ensures r.Ok? ==> IsAnswer(req, now, analyzer.value, r.value)
  {
    hide MinQualifyingUptime, Failure, Collides, Facts, IsResponse, Flatten, TruncatedAll, Qualifying;
    if req.startTime > MAX_INT64 || req.endTime > MAX_INT64 {
      return Err(InvalidArgument);
    }
    var startTime := req.startTime * NANOS;
    var endTime := now;
    if req.endTime != 0 {
      endTime := req.endTime * NANOS;
    }
    if startTime > endTime {
      return Err(InvalidArgument);
    }
    if analyzer.None? {
      return Err(Unavailable);
    }
    var liquidityFloor := req.liquidityFloor;
    if liquidityFloor == 0 {
      liquidityFloor := DEFAULT_LIQUIDITY_FLOOR;
    }
    var uptimeThreshold := req.uptimeThreshold;
    if uptimeThreshold == 0.0 {
      uptimeThreshold := DEFAULT_UPTIME_THRESHOLD;
    }
    if uptimeThreshold < 0.0 || uptimeThreshold > 1.0 {
      return Err(InvalidArgument);
    }
    var abilities := analyzer.value(startTime, endTime, liquidityFloor);
    if abilities.None? {
      return Err(Internal);
    }
    var nested := Nest(abilities.value);
    assert Unix(startTime) == req.startTime;
    var minUptime := MinQualifyingUptime(uptimeThreshold, Unix(endTime) - Unix(startTime));
    var qualifying := CountQualifying(Flatten(nested), minUptime);
    NoneQualifies(Flatten(nested), minUptime);
    if qualifying == 0 {
      return Err(FailedPrecondition);
    }
    var encoded := EncodeForwardingAbility(nested, Unix(startTime), Unix(endTime), uptimeThreshold);
    if encoded.Err? {
      return Err(Internal);
    }
    r := Ok(encoded.value);
  }

  /* What the client learns. */

  // The analysis reports no more uptime than the window has.
  predicate WithinWindow(f: Flat, window: int) {
    forall p :: p in f ==> 0 <= f[p].uptime <= window && f[p].forwarded >= 0
  }

  // An uptime within the nanosecond window truncates to at most the window in whole seconds.
  lemma TruncationWithinWindow(startTime: nat, end: int, uptime: int)
    requires 0 <= uptime <= end - startTime * NANOS
    ensures 0 <= uptime / NANOS <= Unix(end) - startTime
  {
    assert (end - startTime * NANOS) / NANOS == end / NANOS - startTime;
  }

  // So an analysis that counts instants of its window keeps every whole-second uptime within it.
  lemma AnalysisWithinWindow(req: Request, now: int, abilities: Abilities)
    requires forall q :: q in abilities ==> abilities[q].uptime <= EndOf(req, now) - req.startTime * NANOS
    ensures WithinWindow(TruncatedAll(abilities), WindowOf(req, now))
  {
    forall q | q in abilities
      ensures 0 <= Truncated(abilities[q]).uptime <= WindowOf(req, now)
    {
      TruncationWithinWindow(req.startTime, EndOf(req, now), abilities[q].uptime);
    }
  }

  // How a decoded pair relates to the true facts: volume is exact, forwarded pairs are exact, and an
  // idle pair's uptime is overstated by at most the window minus the qualifying uptime.
  predicate FaithfulPair(truth: Ability, decoded: Ability, minUptime: int, window: int) {
    decoded.forwarded == truth.forwarded &&
    (truth.forwarded > 0 ==> decoded == truth) &&
    0 <= decoded.uptime - truth.uptime &&
    (truth.forwarded == 0 ==> decoded.uptime - truth.uptime <= window - minUptime)
  }

  lemma ErrorBoundAt(f: Flat, minUptime: int, window: int, p: Pair)
    requires !Collides(f, minUptime) && WithinWindow(f, window) && p in f && minUptime <= window
    ensures var d := Lossy(Facts(f, minUptime), minUptime, window);
      (Relevant(f, minUptime, p) ==> LowerPair(p) in d && FaithfulPair(f[p], d[LowerPair(p)], minUptime, window)) &&
      (!Relevant(f, minUptime, p) ==> f[p].uptime < minUptime && f[p].forwarded == 0)
  {
    hide Collides, Facts;
    if Relevant(f, minUptime, p) {
      FactOf(f, minUptime, p);
    }
  }

  lemma EmptyWindowAdmitsNothing(threshold: real, window: int, uptime: int)
    requires uptime <= window && MinQualifyingUptime(threshold, window) <= uptime
    ensures window > 0
  {
  }

  // Guard and encoder agree: a successful response decodes to at least one pair; decoded pairs are
  // faithful, and a pair that is missing was below the threshold and forwarded nothing.
  lemma GuardAndEncoderAgree(f: Flat, minUptime: int, start: int, end: int, threshold: real, r: Response)
    requires 0.0 <= threshold <= 1.0 && minUptime == MinQualifyingUptime(threshold, end - start)
    requires WithinWindow(f, end - start)
    requires exists p :: p in f && f[p].uptime >= minUptime
    requires !Collides(f, minUptime) && IsResponse(Facts(f, minUptime), minUptime, start, end, threshold, r)
    ensures Decoded(r).Ok? && Decoded(r).value != map[]
    ensures forall p :: Relevant(f, minUptime, p) ==>
      LowerPair(p) in Decoded(r).value &&
      FaithfulPair(f[p], Decoded(r).value[LowerPair(p)], minUptime, end - start)
    ensures forall p :: p in f && !Relevant(f, minUptime, p) ==> f[p].uptime < minUptime && f[p].forwarded == 0
    ensures forall d :: d in Decoded(r).value ==> exists p :: Relevant(f, minUptime, p) && LowerPair(p) == d
  {
    hide Collides, Facts, IsResponse, Decoded, Lossy, MinQualifyingUptime, FaithfulPair;
    var q :| q in f && f[q].uptime >= minUptime;
    EmptyWindowAdmitsNothing(threshold, end - start, f[q].uptime);
    QualifyingUptime(threshold, end - start, 0);
    FactsAreRelevant(f, minUptime);
    RoundTrip(Facts(f, minUptime), minUptime, start, end, threshold, r);
    forall p | p in f
      ensures Relevant(f, minUptime, p) ==> LowerPair(p) in Decoded(r).value
      ensures Relevant(f, minUptime, p) ==>
        FaithfulPair(f[p], Decoded(r).value[LowerPair(p)], minUptime, end - start)
      ensures !Relevant(f, minUptime, p) ==> f[p].uptime < minUptime && f[p].forwarded == 0
    {
      ErrorBoundAt(f, minUptime, end - start, p);
    }
    assert Relevant(f, minUptime, q);
    forall d | d in Decoded(r).value
      ensures exists p :: Relevant(f, minUptime, p) && LowerPair(p) == d
    {
      LossyKeys(Facts(f, minUptime), minUptime, end - start);
      var p := FactFrom(f, minUptime, d);
    }
  }

  lemma LossyKeys(facts: Flat, minUptime: int, window: int)
    ensures Lossy(facts, minUptime, window).Keys == facts.Keys
  {
  }

  /* From the log to the client, in nanoseconds and with the defaults written out. */

  // The whole seconds of an uptime are positive and the threshold's share of a window that is not empty.
  predicate UpLongEnough(uptime: int, threshold: real, window: int) {
    window > 0 && uptime >= 1_000_000_000 && (uptime / 1_000_000_000) as real >= threshold * window as real
  }

  // The window of a request in nanoseconds, and what it leaves to the defaults.
  predicate Asks(req: Request, now: int, start: int, end: int, floor: int, threshold: real) {
    start == req.startTime * 1_000_000_000 &&
    end == (if req.endTime == 0 then now else req.endTime * 1_000_000_000) &&
    floor == (if req.liquidityFloor == 0 then 50_000 else req.liquidityFloor) &&
    threshold == (if req.uptimeThreshold == 0.0 then 0.9 else req.uptimeThreshold)
  }

  // An uptime within the window reaches the qualifying uptime exactly when it is long enough.
  lemma LongEnough(req: Request, now: int, start: int, end: int, floor: int, threshold: real, uptime: int)
    requires Asks(req, now, start, end, floor, threshold) && ValidRequest(req, now)
    requires 0 <= uptime <= end - start && end - start < 9_000_000_000_000_000_000
    ensures uptime / NANOS >= MinUptimeOf(req, now) <==> UpLongEnough(uptime, threshold, end / 1_000_000_000 - req.startTime)
  {
    var window := end / NANOS - req.startTime;
    assert WindowOf(req, now) == window && ThresholdOf(req) == threshold;
    assert uptime >= NANOS <==> uptime / NANOS >= 1;
    if window > 0 {
      QualifyingUptime(threshold, window, uptime / NANOS);
    } else {
      NothingQualifies(threshold, window, uptime / NANOS);
    }
  }

  // Which requests are refused as invalid: times that do not fit, a window that ends before it starts, a
  // threshold that is not a share.
  lemma RequestSays(req: Request, now: int, start: int, end: int, floor: int, threshold: real)
    requires Asks(req, now, start, end, floor, threshold)
    ensures ValidRequest(req, now) <==>
      req.startTime < 9_223_372_036_854_775_808 && req.endTime < 9_223_372_036_854_775_808 && start <= end
    ensures ValidThreshold(req) <==> 0.0 <= threshold <= 1.0
  {
  }

  // The guard: a valid request whose analysis answers is refused with FailedPrecondition exactly when no
  // pair was up long enough.
  lemma GuardSays(req: Request, now: int, analyzer: Analyzer, start: int, end: int, floor: int, threshold: real)
    requires Asks(req, now, start, end, floor, threshold) && ValidRequest(req, now)
    requires end - start < 9_000_000_000_000_000_000
    requires analyzer(start, end, floor).Some? && forall q :: q in analyzer(start, end, floor).value ==>
      analyzer(start, end, floor).value[q].uptime <= end - start
    ensures FactsFor(req, now, analyzer).Some?
    ensures (forall p :: p in FactsFor(req, now, analyzer).value ==>
              FactsFor(req, now, analyzer).value[p].uptime < MinUptimeOf(req, now))
       <==> forall q :: q in analyzer(start, end, floor).value ==>
              !UpLongEnough(analyzer(start, end, floor).value[q].uptime, threshold, end / 1_000_000_000 - req.startTime)
  {
    hide UpLongEnough, MinUptimeOf;
    var abilities, f := analyzer(start, end, floor).value, FactsFor(req, now, analyzer).value;
    forall q | q in abilities
      ensures Pair(q.peerIn, q.peerOut) in f
      ensures f[Pair(q.peerIn, q.peerOut)].uptime >= MinUptimeOf(req, now)
         <==> UpLongEnough(abilities[q].uptime, threshold, end / 1_000_000_000 - req.startTime)
    {
      LongEnough(req, now, start, end, floor, threshold, abilities[q].uptime);
    }
    forall p | p in f
      ensures P.PeerPair(p.inPeer, p.outPeer) in abilities
    {
    }
  }

  // What a decoded map says about a pair, given its true facts: a pair with volume shows it, and its
  // uptime in whole seconds; an idle pair that was up long enough shows the whole window; any other pair
  // was not up long enough.
  ghost predicate Tells(decoded: Flat, p: Pair, truth: A.Ability, threshold: real, window: int) {
    var q := Pair(ToLower(p.inPeer), ToLower(p.outPeer));
    if truth.forwarded > 0 then
      q in decoded && decoded[q].forwarded == truth.forwarded &&
      decoded[q].uptime * 1_000_000_000 <= truth.uptime < (decoded[q].uptime + 1) * 1_000_000_000
    else if UpLongEnough(truth.uptime, threshold, window) then
      q in decoded && decoded[q] == Ability(window, 0) && truth.uptime < (window + 1) * 1_000_000_000
    else true
  }

  // An answered request, and the window, floor and threshold that it asks for.
  ghost predicate Answered(req: Request, now: int, analyzer: Analyzer, r: Response, start: int, end: int, floor: int,
                           threshold: real)
  {
    Asks(req, now, start, end, floor, threshold) && ValidRequest(req, now) && ValidThreshold(req) &&
    end - start < 9_000_000_000_000_000_000 && IsAnswer(req, now, analyzer, r) &&
    analyzer(start, end, floor).Some? &&
    forall q :: q in analyzer(start, end, floor).value ==>
      analyzer(start, end, floor).value[q].uptime <= end - start
  }

  // The facts that the response is made of are the abilities in whole seconds.
  lemma AnsweredFact(req: Request, now: int, analyzer: Analyzer, r: Response, start: int, end: int, floor: int,
                     threshold: real, q: P.PeerPair)
    requires Answered(req, now, analyzer, r, start, end, floor, threshold)
    requires q in analyzer(start, end, floor).value
    ensures FactsFor(req, now, analyzer).Some?
    ensures var f, truth := FactsFor(req, now, analyzer).value, analyzer(start, end, floor).value[q];
      var p := Pair(q.peerIn, q.peerOut);
      p in f && f[p].forwarded == truth.forwarded &&
      f[p].uptime * 1_000_000_000 <= truth.uptime < (f[p].uptime + 1) * 1_000_000_000 &&
      truth.uptime < (end / 1_000_000_000 - req.startTime + 1) * 1_000_000_000 &&
      (f[p].uptime >= MinUptimeOf(req, now) <==>
        UpLongEnough(truth.uptime, threshold, end / 1_000_000_000 - req.startTime))
  {
    hide IsAnswer, MinUptimeOf, UpLongEnough;
    var truth := analyzer(start, end, floor).value[q];
    LongEnough(req, now, start, end, floor, threshold, truth.uptime);
    WholeSeconds(truth.uptime, start, end, req.startTime);
  }

  // What the encoder makes of the facts.
  lemma AnswerLearnt(req: Request, now: int, analyzer: Analyzer, r: Response, start: int, end: int, floor: int,
                     threshold: real)
    requires Answered(req, now, analyzer, r, start, end, floor, threshold)
    ensures Decoded(r).Ok? && FactsFor(req, now, analyzer).Some?
    ensures var f, d, m := FactsFor(req, now, analyzer).value, Decoded(r).value, MinUptimeOf(req, now);
      (forall p :: p in f && f[p].forwarded > 0 ==>
        var q := Pair(ToLower(p.inPeer), ToLower(p.outPeer)); q in d && d[q] == f[p]) &&
      (forall p :: p in f && f[p].forwarded <= 0 && f[p].uptime >= m ==>
        var q := Pair(ToLower(p.inPeer), ToLower(p.outPeer));
        q in d && d[q] == Ability(end / 1_000_000_000 - req.startTime, 0)) &&
      (forall q :: q in d ==>
        exists p :: p in f && Sent(f[p], m) && q == Pair(ToLower(p.inPeer), ToLower(p.outPeer)))
  {
    hide Collides, Facts, IsResponse, Decoded, MinUptimeOf;
    ClientLearns(FactsFor(req, now, analyzer).value, MinUptimeOf(req, now), req.startTime, Unix(end), threshold, r);
  }

  // What the client decodes for a pair of the analysis.
  lemma PairIsTold(req: Request, now: int, analyzer: Analyzer, r: Response, start: int, end: int, floor: int,
                   threshold: real, q: P.PeerPair)
    requires Answered(req, now, analyzer, r, start, end, floor, threshold)
    requires q in analyzer(start, end, floor).value
    ensures Decoded(r).Ok?
    ensures Tells(Decoded(r).value, Pair(q.peerIn, q.peerOut), analyzer(start, end, floor).value[q], threshold,
                  end / 1_000_000_000 - req.startTime)
  {
    hide Answered, FactsFor, Decoded, MinUptimeOf, UpLongEnough;
    AnswerLearnt(req, now, analyzer, r, start, end, floor, threshold);
    AnsweredFact(req, now, analyzer, r, start, end, floor, threshold, q);
  }

  // A decoded pair is one of the analysis that was worth telling.
  lemma OnlyPairsTold(req: Request, now: int, analyzer: Analyzer, r: Response, start: int, end: int, floor: int,
                      threshold: real, d: Pair)
    requires Answered(req, now, analyzer, r, start, end, floor, threshold)
    requires Decoded(r).Ok? && d in Decoded(r).value
    ensures analyzer(start, end, floor).Some?
    ensures exists q ::
              q in analyzer(start, end, floor).value && d == Pair(ToLower(q.peerIn), ToLower(q.peerOut)) &&
              WorthTelling(analyzer(start, end, floor).value[q], threshold, end / 1_000_000_000 - req.startTime)
  {
    hide Answered, FactsFor, Decoded, MinUptimeOf, UpLongEnough;
    AnswerLearnt(req, now, analyzer, r, start, end, floor, threshold);
    var p :| p in FactsFor(req, now, analyzer).value && Sent(FactsFor(req, now, analyzer).value[p], MinUptimeOf(req, now)) &&
      d == Pair(ToLower(p.inPeer), ToLower(p.outPeer));
    FactIsAnswered(req, now, analyzer, r, start, end, floor, threshold, p);
    AnsweredFact(req, now, analyzer, r, start, end, floor, threshold, P.PeerPair(p.inPeer, p.outPeer));
  }

  lemma FactIsAnswered(req: Request, now: int, analyzer: Analyzer, r: Response, start: int, end: int, floor: int,
                       threshold: real, p: Pair)
    requires Answered(req, now, analyzer, r, start, end, floor, threshold)
    requires FactsFor(req, now, analyzer).Some? && p in FactsFor(req, now, analyzer).value
    ensures analyzer(start, end, floor).Some? && P.PeerPair(p.inPeer, p.outPeer) in analyzer(start, end, floor).value
  {
    hide IsAnswer;
  }

  predicate WorthTelling(truth: A.Ability, threshold: real, window: int) {
    truth.forwarded > 0 || UpLongEnough(truth.uptime, threshold, window)
  }

  lemma WholeSeconds(uptime: int, start: int, end: int, seconds: int)
    requires start == seconds * NANOS && 0 <= uptime <= end - start
    ensures (uptime / NANOS) * NANOS <= uptime < (uptime / NANOS + 1) * NANOS
    ensures uptime < (end / NANOS - seconds + 1) * NANOS
  {
  }

  // A successful response over an analysis of the log tells the client the truth of the log: for every
  // pair of considered peers what a replay of the whole log finds, and nothing about other pairs.
  lemma ResponseTellsTheLog(req: Request, now: int, analyzer: Analyzer, r: Response, rows: seq<C.Event>,
                            table: E.ChannelTable, history: F.Backend, open: Option<seq<E.LndChannel>>,
                            closed: Option<seq<E.LndChannel>>, start: int, end: int, floor: nat, threshold: real)
    requires Asks(req, now, start, end, floor, threshold)
    requires T.IsTable(rows) && ValidRequest(req, now) && ValidThreshold(req) && end - start < 9_000_000_000_000_000_000
    requires E.Answers(analyzer(start, end, floor), rows, table, history, open, closed, start, end, floor)
    requires IsAnswer(req, now, analyzer, r)
    ensures F.Fetched(history, 0).Some? && open.Some? && closed.Some? && Decoded(r).Ok? && Decoded(r).value != map[]
    ensures var es := F.Fetched(history, 0).value;
      var considered := E.Considered(table, es, open.value, closed.value);
      var peers, window := E.PeersConsidered(table, considered), end / 1_000_000_000 - req.startTime;
      (forall p: Pair :: p.inPeer in peers && p.outPeer in peers ==>
        Tells(Decoded(r).value, p, Truth(rows, table, es, considered, floor, start, end, p), threshold, window)) &&
      (forall d :: d in Decoded(r).value ==>
        exists p: Pair :: p.inPeer in peers && p.outPeer in peers && d == Pair(ToLower(p.inPeer), ToLower(p.outPeer)) &&
          WorthTelling(Truth(rows, table, es, considered, floor, start, end, p), threshold, window))
  {
    hide E.LogAbility, E.Considered, E.PeersConsidered, E.SeedFails, E.WindowHasUnknown, F.Fetched, Decoded, IsAnswer,
         UpLongEnough, Tells, WorthTelling, Asks;
    AskedAnalysis(req, now, analyzer, start, end, floor, threshold, r);
    SomethingTold(req, now, analyzer, r);
    var abilities := analyzer(start, end, floor).value;
    var es := F.Fetched(history, 0).value;
    var considered := E.Considered(table, es, open.value, closed.value);
    forall q | q in abilities
      ensures abilities[q].uptime <= end - start
    {
      E.LogAbilityBound(rows, table, es, considered, floor, start, end, q);
    }
    forall p: Pair
      ensures P.PeerPair(p.inPeer, p.outPeer) in abilities ==>
        Tells(Decoded(r).value, p, Truth(rows, table, es, considered, floor, start, end, p), threshold,
              end / 1_000_000_000 - req.startTime)
    {
      if P.PeerPair(p.inPeer, p.outPeer) in abilities {
        PairIsTold(req, now, analyzer, r, start, end, floor, threshold, P.PeerPair(p.inPeer, p.outPeer));
      }
    }
    forall d | d in Decoded(r).value
      ensures exists p: Pair ::
                P.PeerPair(p.inPeer, p.outPeer) in abilities && d == Pair(ToLower(p.inPeer), ToLower(p.outPeer)) &&
                WorthTelling(Truth(rows, table, es, considered, floor, start, end, p), threshold, end / 1_000_000_000 - req.startTime)
    {
      OnlyPairsTold(req, now, analyzer, r, start, end, floor, threshold, d);
      var q :| q in abilities && d == Pair(ToLower(q.peerIn), ToLower(q.peerOut)) &&
        WorthTelling(abilities[q], threshold, end / 1_000_000_000 - req.startTime);
      var p := Pair(q.peerIn, q.peerOut);
      assert P.PeerPair(p.inPeer, p.outPeer) == q;
    }
  }

  // The true facts of a pair, from a replay of the whole log.
  ghost function Truth(rows: seq<C.Event>, table: E.ChannelTable, es: seq<F.Forward>, considered: map<nat, string>,
                       floor: int, start: int, end: int, p: Pair): A.Ability {
    E.LogAbility(rows, table, es, considered, floor, start, end, P.PeerPair(p.inPeer, p.outPeer))
  }

  lemma AskedAnalysis(req: Request, now: int, analyzer: Analyzer, start: int, end: int, floor: int, threshold: real, r: Response)
    requires Asks(req, now, start, end, floor, threshold) && ValidRequest(req, now) && IsAnswer(req, now, analyzer, r)
    ensures analyzer(start, end, floor).Some? && start <= end
  {
  }

  lemma SomethingTold(req: Request, now: int, analyzer: Analyzer, r: Response)
    requires IsAnswer(req, now, analyzer, r)
    ensures Decoded(r).Ok? && Decoded(r).value != map[]
  {
    hide Collides, Facts, IsResponse, Decoded, MinUptimeOf;
    var f, m := FactsFor(req, now, analyzer).value, MinUptimeOf(req, now);
    ClientLearns(f, m, req.startTime, Unix(EndOf(req, now)), ThresholdOf(req), r);
    var p :| p in f && f[p].uptime >= m;
    assert Pair(ToLower(p.inPeer), ToLower(p.outPeer)) in Decoded(r).value;
  }
}
