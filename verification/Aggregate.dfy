/**
 The v2 metrics of one aggregated event. The loop over the attempts map visits
 the keys in an order the Go runtime picks, so the order is a parameter and
 the theorems hold for all of them.
 */
module Aggregate {
  import opened GoTime
  import opened Instruments
  import opened ErrorKinds

  const PROTOCOL_BITSWAP := "bitswap"
  const PROTOCOL_GRAPHSYNC := "graphsync"
  const PROTOCOL_HTTP := "http"
  const BITSWAP_IDENTIFIER := "Bitswap"

  datatype Attempt = Attempt(
    filSPID: string, error: string, protocol: string, timeToFirstByte: Duration, bytesTransferred: uint64)

  type Attempts = map<string, Attempt>

  // The arguments of HandleAggregatedEvent
  datatype Call = Call(
    timeToFirstIndexerResult: Duration,
    timeToFirstByte: Duration,
    success: bool,
    storageProviderID: string,
    filSPID: string,
    startTime: Time,
    endTime: Time,
    bandwidth: int64,
    bytesTransferred: int64,
    indexerCandidates: int64,
    indexerFiltered: int64,
    attempts: Attempts,
    protocolSucceeded: string)

  function ProtocolFromMulticodec(code: string): string {
    if code == "transport-bitswap" then PROTOCOL_BITSWAP
    else if code == "transport-graphsync-filecoinv1" then PROTOCOL_GRAPHSYNC
    else if code == "transport-ipfs-gateway-http" then PROTOCOL_HTTP
    else code
  }

  function SpLabels(protocol: string, sp: string, filSP: string): Labels {
    map["protocol" := protocol, "sp_id" := sp, "fil_sp_id" := filSP]
  }

  // ---------- one turn of the loop ----------

  function AttemptAdds(sp: string, a: Attempt): seq<Emission> {
    var protocol := ProtocolFromMulticodec(a.protocol);
    if protocol == PROTOCOL_BITSWAP then
      if sp != "Bitswap" then [Add(RequestWithGraphSyncAttempt, SpLabels("bitswap", sp, a.filSPID))]
      else [Add(RequestWithBitswapAttempt, map["protocol" := "bitswap"])]
    else if protocol == PROTOCOL_GRAPHSYNC then
      [Add(RequestWithGraphSyncAttempt, SpLabels("graphsync", sp, a.filSPID))]
    else if protocol == PROTOCOL_HTTP then
      [Add(RequestWithHttpAttempt, SpLabels("http", sp, a.filSPID))]
    else []
  }

  function FailureAdds(sp: string, a: Attempt): seq<Emission> {
    var protocol := ProtocolFromMulticodec(a.protocol);
    if a.error == "" then []
    else
      (if protocol == PROTOCOL_GRAPHSYNC then [Add(GraphsyncRetrievalFailure, SpLabels("graphsync", sp, a.filSPID))]
       else if protocol == PROTOCOL_HTTP then [Add(HttpRetrievalFailure, SpLabels("http", sp, a.filSPID))]
       else [])
      + [Add(RetrievalError(KindOf(a.error)), map["protocol" := protocol])]
  }

  function VisitAdds(sp: string, a: Attempt): seq<Emission> {
    AttemptAdds(sp, a) + FailureAdds(sp, a)
  }

  // The loop's variables
  datatype Loop = Loop(out: seq<Emission>, lowestTTFB: Duration, lowestTTFBProtocol: string)

  function Visit(l: Loop, sp: string, a: Attempt): Loop {
    var out := l.out + VisitAdds(sp, a);
    if a.timeToFirstByte != 0 && (l.lowestTTFB == 0 || a.timeToFirstByte < l.lowestTTFB) then
      Loop(out, a.timeToFirstByte, ProtocolFromMulticodec(a.protocol))
    else
      l.(out := out)
  }

  /** The loop after visiting these keys, in this order. */
  function VisitAll(attempts: Attempts, order: seq<string>): Loop
    requires forall sp | sp in order :: sp in attempts
  {
    if order == [] then Loop([], 0, "")
    else
      var sp := order[|order| - 1];
      Visit(VisitAll(attempts, order[..|order| - 1]), sp, attempts[sp])
  }

  // ---------- the whole call ----------

  /** What follows the loop, up to the outcome of the retrieval. */
  function BeforeOutcome(c: Call, lowestTTFBProtocol: string): seq<Emission> {
    (if c.timeToFirstIndexerResult > 0
     then [Record(TimeToFirstIndexerResult, Nanos(c.timeToFirstIndexerResult), map[])] else [])
    + (if c.indexerCandidates > 0 then [Add(RequestWithIndexerCandidates, map[])] else [])
    + (if c.indexerFiltered > 0 then [Add(RequestWithIndexerCandidatesFiltered, map[])] else [])
    + (if c.timeToFirstByte > 0 then
         [Add(RequestWithFirstByteReceived, map["protocol" := lowestTTFBProtocol]),
          Record(TimeToFirstByte, Nanos(c.timeToFirstByte), map["protocol" := lowestTTFBProtocol])]
       else [])
  }

  function Outcome(c: Call): seq<Emission> {
    if c.success then SuccessEmissions(c)
    else if |c.attempts| == 0 then [Add(RequestWithIndexerFailures, map[])] else []
  }

  function Closing(c: Call, lowestTTFBProtocol: string): seq<Emission> {
    BeforeOutcome(c, lowestTTFBProtocol) + Outcome(c)
  }

  function SuccessEmissions(c: Call): seq<Emission> {
    var protocol := ProtocolFromMulticodec(c.protocolSucceeded);
    [Add(RequestWithSuccess, SpLabels(protocol, c.storageProviderID, c.filSPID))]
    + (if protocol == PROTOCOL_BITSWAP then
         [Add(RequestWithBitswapSuccess, map["protocol" := "bitswap"])]
       else if protocol == PROTOCOL_GRAPHSYNC then
         [Add(RequestWithGraphSyncSuccess, SpLabels("graphsync", c.storageProviderID, c.filSPID))]
       else if protocol == PROTOCOL_HTTP then
         [Add(RequestWithHttpSuccess, SpLabels("http", c.storageProviderID, c.filSPID))]
       else [])
    + [Record(RetrievalDealDuration, Nanos(Sub(c.endTime, c.startTime)), map["protocol" := protocol]),
       Record(RetrievalDealSize, Amount(c.bytesTransferred), map["protocol" := protocol]),
       Record(BandwidthBytesPerSecond, Amount(c.bandwidth), map["protocol" := protocol]),
       Record(IndexerCandidatesPerRequest, Amount(c.indexerCandidates), map[]),
       Record(IndexerCandidatesFilteredPerRequest, Amount(c.indexerFiltered), map[]),
       Record(FailedRetrievalsPerRequest, Amount(0), map[])]
  }

  /** Does order list every key of the map, each once? */
  predicate IsOrder<V>(order: seq<string>, m: map<string, V>) {
    && (set k | k in order) == m.Keys
    && Distinct(order)
  }

  predicate Distinct(order: seq<string>) {
    forall i, j | 0 <= i < j < |order| :: order[i] != order[j]
  }

  lemma {:induction false} OnceInDistinct(order: seq<string>, k: string)
    requires Distinct(order)
    ensures multiset(order)[k] == if k in order then 1 else 0
  {
    if order != [] {
      var front, last := order[..|order| - 1], order[|order| - 1];
      OnceInDistinct(front, k);
      assert order == front + [last];
      assert last !in front;
    }
  }

  function Emissions(c: Call, order: seq<string>): seq<Emission>
    requires IsOrder(order, c.attempts)
  {
    var l := VisitAll(c.attempts, order);
    [Add(TotalRequestCount, map[])] + l.out + Closing(c, l.lowestTTFBProtocol)
  }

  // ---------- tallies over the loop ----------

  function Chosen(attempts: Attempts, order: seq<string>, q: (string, Attempt) -> bool): set<string> {
    set sp | sp in order && sp in attempts && q(sp, attempts[sp])
  }

  lemma {:induction false} ChosenStep(attempts: Attempts, front: seq<string>, last: string, q: (string, Attempt) -> bool)
    requires Distinct(front + [last]) && last in attempts
    ensures |Chosen(attempts, front + [last], q)| == |Chosen(attempts, front, q)| + if q(last, attempts[last]) then 1 else 0
  {
    var order := front + [last];
    assert forall sp :: sp in order <==> sp in front || sp == last;
    assert last !in front by {
      forall k | 0 <= k < |front| ensures front[k] != last {
        assert order[k] == front[k] && order[|front|] == last;
      }
    }
    assert Chosen(attempts, order, q) == Chosen(attempts, front, q) + if q(last, attempts[last]) then {last} else {};
  }

  ghost predicate Marks(attempts: Attempts, p: Emission -> bool, q: (string, Attempt) -> bool) {
    forall sp | sp in attempts :: Tally(VisitAdds(sp, attempts[sp]), p) == if q(sp, attempts[sp]) then 1 else 0
  }

  /**
   If p tallies one emission of each attempt that satisfies q and none of the
   others, then over the loop it tallies the attempts that satisfy q.
   */
  lemma {:induction false} TallyOfLoop(attempts: Attempts, order: seq<string>, p: Emission -> bool, q: (string, Attempt) -> bool)
    requires forall sp | sp in order :: sp in attempts
    requires Distinct(order)
    requires Marks(attempts, p, q)
    ensures Tally(VisitAll(attempts, order).out, p) == |Chosen(attempts, order, q)|
  {
    if order == [] {
      assert Chosen(attempts, order, q) == {};
    } else {
      var front, last := order[..|order| - 1], order[|order| - 1];
      assert order == front + [last];
      TallyOfLoop(attempts, front, p, q);
      TallyAppend(VisitAll(attempts, front).out, VisitAdds(last, attempts[last]), p);
      ChosenStep(attempts, front, last, q);
    }
  }

  lemma {:induction false} TallyIsMultiplicity(log: seq<Emission>, e: Emission)
    ensures Tally(log, Is(e)) == multiset(log)[e]
  {
    if log != [] {
      TallyIsMultiplicity(log[1..], e);
      assert log == [log[0]] + log[1..];
    }
  }

  function Causes(e: Emission): (string, Attempt) -> bool {
    (sp: string, a: Attempt) => e in VisitAdds(sp, a)
  }

  function Is(e: Emission): Emission -> bool {
    (x: Emission) => x == e
  }

  /** An emission occurs in the loop once for every attempt that causes it. */
  lemma {:induction false} EmissionsOfLoop(attempts: Attempts, order: seq<string>, e: Emission)
    requires IsOrder(order, attempts)
    ensures multiset(VisitAll(attempts, order).out)[e] == |set sp | sp in attempts && e in VisitAdds(sp, attempts[sp])|
  {
    IsMarksCauses(attempts, e);
    TallyOfLoop(attempts, order, Is(e), Causes(e));
    TallyIsMultiplicity(VisitAll(attempts, order).out, e);
    CausesChosen(attempts, order, e);
  }

  lemma {:induction false} IsMarksCauses(attempts: Attempts, e: Emission)
    ensures Marks(attempts, Is(e), Causes(e))
  {
    forall sp | sp in attempts { OccursOnce(sp, attempts[sp], e); }
  }

  lemma {:induction false} CausesChosen(attempts: Attempts, order: seq<string>, e: Emission)
    requires IsOrder(order, attempts)
    ensures Chosen(attempts, order, Causes(e)) == set sp | sp in attempts && e in VisitAdds(sp, attempts[sp])
  {
  }

  lemma {:induction false} ChosenAll(attempts: Attempts, order: seq<string>, q: (string, Attempt) -> bool)
    requires IsOrder(order, attempts)
    ensures Chosen(attempts, order, q) == set sp | sp in attempts && q(sp, attempts[sp])
  {
  }

  lemma {:induction false} AddsAreDistinct(sp: string, a: Attempt)
    ensures |VisitAdds(sp, a)| <= 3
    ensures forall i, j | 0 <= i < j < |VisitAdds(sp, a)| :: VisitAdds(sp, a)[i] != VisitAdds(sp, a)[j]
  {
  }

  lemma {:induction false} OccursOnce(sp: string, a: Attempt, e: Emission)
    ensures Tally(VisitAdds(sp, a), Is(e)) == if e in VisitAdds(sp, a) then 1 else 0
  {
    AddsAreDistinct(sp, a);
    TallyOfShort(VisitAdds(sp, a), Is(e));
  }

  // ---------- the lowest time to first byte ----------

  /** m is the least nonzero time to first byte, negative ones included, or 0 if all are 0. */
  ghost predicate IsLowest(attempts: Attempts, m: Duration) {
    if m == 0 then forall sp | sp in attempts :: attempts[sp].timeToFirstByte == 0
    else
      && (exists sp | sp in attempts :: attempts[sp].timeToFirstByte == m)
      && (forall sp | sp in attempts :: attempts[sp].timeToFirstByte == 0 || m <= attempts[sp].timeToFirstByte)
  }

  /** The label belongs to some attempt that reaches the minimum; it is empty if there is no minimum. */
  ghost predicate IsLabelOf(attempts: Attempts, m: Duration, name: string) {
    if m == 0 then name == ""
    else exists sp | sp in attempts :: attempts[sp].timeToFirstByte == m && ProtocolFromMulticodec(attempts[sp].protocol) == name
  }

  lemma {:induction false} LowestUnique(attempts: Attempts, m: Duration, n: Duration)
    requires IsLowest(attempts, m) && IsLowest(attempts, n)
    ensures m == n
  {
  }

  function Visited(attempts: Attempts, order: seq<string>): Attempts
  {
    map sp | sp in attempts && sp in order :: attempts[sp]
  }

  lemma {:induction false} LoopFindsLowestVisited(attempts: Attempts, order: seq<string>)
    requires forall sp | sp in order :: sp in attempts
    ensures var l := VisitAll(attempts, order);
      IsLowest(Visited(attempts, order), l.lowestTTFB)
      && IsLabelOf(Visited(attempts, order), l.lowestTTFB, l.lowestTTFBProtocol)
  {
    if order != [] {
      var front, last := order[..|order| - 1], order[|order| - 1];
      assert order == front + [last];
      LoopFindsLowestVisited(attempts, front);
      assert Visited(attempts, order) == Visited(attempts, front)[last := attempts[last]];
      var l, v := VisitAll(attempts, front), Visited(attempts, front);
      if l.lowestTTFB != 0 {
        var sp :| sp in v && v[sp].timeToFirstByte == l.lowestTTFB
          && ProtocolFromMulticodec(v[sp].protocol) == l.lowestTTFBProtocol;
        assert sp in Visited(attempts, order) && Visited(attempts, order)[sp] == v[sp];
      }
      assert last in Visited(attempts, order);
    }
  }

  lemma {:induction false} LoopFindsLowest(attempts: Attempts, order: seq<string>)
    requires IsOrder(order, attempts)
    ensures IsLowest(attempts, VisitAll(attempts, order).lowestTTFB)
    ensures IsLabelOf(attempts, VisitAll(attempts, order).lowestTTFB, VisitAll(attempts, order).lowestTTFBProtocol)
  {
    LoopFindsLowestVisited(attempts, order);
    assert Visited(attempts, order) == attempts;
  }

  // ---------- order independence ----------

  /** Whatever order the runtime picks, every counter gets the same increments and the minimum is the same. */
  lemma {:induction false} OrderIndependence(attempts: Attempts, o1: seq<string>, o2: seq<string>)
    requires IsOrder(o1, attempts) && IsOrder(o2, attempts)
    ensures multiset(VisitAll(attempts, o1).out) == multiset(VisitAll(attempts, o2).out)
    ensures VisitAll(attempts, o1).lowestTTFB == VisitAll(attempts, o2).lowestTTFB
  {
    forall e ensures multiset(VisitAll(attempts, o1).out)[e] == multiset(VisitAll(attempts, o2).out)[e] {
      EmissionsOfLoop(attempts, o1, e);
      EmissionsOfLoop(attempts, o2, e);
    }
    LoopFindsLowest(attempts, o1);
    LoopFindsLowest(attempts, o2);
    LowestUnique(attempts, VisitAll(attempts, o1).lowestTTFB, VisitAll(attempts, o2).lowestTTFB);
  }

  /** Do all attempts that reach the minimum use one protocol? */
  ghost predicate NoTie(attempts: Attempts) {
    forall a, b | a in attempts && b in attempts && Reaches(attempts, a) && Reaches(attempts, b) ::
      ProtocolFromMulticodec(attempts[a].protocol) == ProtocolFromMulticodec(attempts[b].protocol)
  }

  ghost predicate Reaches(attempts: Attempts, sp: string)
    requires sp in attempts
  {
    attempts[sp].timeToFirstByte != 0 && IsLowest(attempts, attempts[sp].timeToFirstByte)
  }

  /** The label is independent of the order if and only if no two protocols tie for the minimum. */
  lemma {:induction false} LabelOrderIndependence(attempts: Attempts)
    ensures NoTie(attempts) <==>
      forall o1, o2 | IsOrder(o1, attempts) && IsOrder(o2, attempts) ::
        VisitAll(attempts, o1).lowestTTFBProtocol == VisitAll(attempts, o2).lowestTTFBProtocol
  {
    if NoTie(attempts) {
      forall o1, o2 | IsOrder(o1, attempts) && IsOrder(o2, attempts)
        ensures VisitAll(attempts, o1).lowestTTFBProtocol == VisitAll(attempts, o2).lowestTTFBProtocol
      {
        LabelWithoutTie(attempts, o1, o2);
      }
    } else {
      var a, b :| a in attempts && b in attempts && Reaches(attempts, a) && Reaches(attempts, b) &&
        ProtocolFromMulticodec(attempts[a].protocol) != ProtocolFromMulticodec(attempts[b].protocol);
      var o1 := OrderStartingWith(attempts, a);
      var o2 := OrderStartingWith(attempts, b);
      FirstToReachWins(attempts, o1);
      FirstToReachWins(attempts, o2);
    }
  }

  lemma {:induction false} LabelWithoutTie(attempts: Attempts, o1: seq<string>, o2: seq<string>)
    requires IsOrder(o1, attempts) && IsOrder(o2, attempts) && NoTie(attempts)
    ensures VisitAll(attempts, o1).lowestTTFBProtocol == VisitAll(attempts, o2).lowestTTFBProtocol
  {
    LoopFindsLowest(attempts, o1);
    LoopFindsLowest(attempts, o2);
    OrderIndependence(attempts, o1, o2);
    var m := VisitAll(attempts, o1).lowestTTFB;
    if m != 0 {
      var a :| a in attempts && attempts[a].timeToFirstByte == m
        && ProtocolFromMulticodec(attempts[a].protocol) == VisitAll(attempts, o1).lowestTTFBProtocol;
      var b :| b in attempts && attempts[b].timeToFirstByte == m
        && ProtocolFromMulticodec(attempts[b].protocol) == VisitAll(attempts, o2).lowestTTFBProtocol;
      assert Reaches(attempts, a) && Reaches(attempts, b);
    }
  }

  lemma {:induction false} OrderStartingWith(attempts: Attempts, first: string) returns (order: seq<string>)
    requires first in attempts
    ensures IsOrder(order, attempts) && order[0] == first
  {
    order := [first];
    var rest := attempts.Keys - {first};
    while rest != {}
      invariant rest <= attempts.Keys
      invariant forall k :: k in order <==> k in attempts.Keys - rest
      invariant Distinct(order)
      invariant |order| > 0 && order[0] == first
      decreases rest
    {
      var k :| k in rest;
      assert k !in order;
      order := order + [k];
      rest := rest - {k};
    }
  }

  lemma {:induction false} FirstToReachWins(attempts: Attempts, order: seq<string>)
    requires order != [] && forall sp | sp in order :: sp in attempts
    requires Reaches(attempts, order[0])
    ensures VisitAll(attempts, order).lowestTTFBProtocol == ProtocolFromMulticodec(attempts[order[0]].protocol)
    ensures VisitAll(attempts, order).lowestTTFB == attempts[order[0]].timeToFirstByte
  {
    if |order| == 1 {
      assert VisitAll(attempts, order[..0]) == Loop([], 0, "");
    } else {
      FirstToReachWins(attempts, order[..|order| - 1]);
    }
  }

  // ---------- conservation in one call ----------

  predicate Recognised(a: Attempt) {
    ProtocolFromMulticodec(a.protocol) in {PROTOCOL_BITSWAP, PROTOCOL_GRAPHSYNC, PROTOCOL_HTTP}
  }

  function IsAttemptCount(): Emission -> bool {
    (e: Emission) => e.Add? && e.counter in {RequestWithBitswapAttempt, RequestWithGraphSyncAttempt, RequestWithHttpAttempt}
  }

  lemma {:induction false} TallyOfVisit(sp: string, a: Attempt, protocol: string)
    ensures Tally(VisitAdds(sp, a), IsAttemptCount()) == if Recognised(a) then 1 else 0
    ensures Tally(VisitAdds(sp, a), IsError()) == if a.error != "" then 1 else 0
    ensures Tally(VisitAdds(sp, a), IsErrorUnder(protocol)) ==
      if a.error != "" && ProtocolFromMulticodec(a.protocol) == protocol then 1 else 0
  {
    var log := VisitAdds(sp, a);
    TallyOfShort(log, IsAttemptCount());
    TallyOfShort(log, IsError());
    TallyOfShort(log, IsErrorUnder(protocol));
    SameLabel(ProtocolFromMulticodec(a.protocol), protocol);
  }

  lemma {:induction false} SameLabel(p: string, q: string)
    ensures map["protocol" := p] == map["protocol" := q] <==> p == q
  {
    assert map["protocol" := p]["protocol"] == p;
  }

  lemma {:induction false} TallyOfShort(log: seq<Emission>, p: Emission -> bool)
    requires |log| <= 3
    ensures Tally(log, p) ==
      (if |log| > 0 && p(log[0]) then 1 else 0) + (if |log| > 1 && p(log[1]) then 1 else 0)
      + (if |log| > 2 && p(log[2]) then 1 else 0)
  {
    if |log| > 0 {
      TallyFirst(log, p);
      if |log| > 1 {
        TallyFirst(log[1..], p);
        if |log| > 2 {
          TallyFirst(log[1..][1..], p);
        }
      }
    }
  }

  lemma {:induction false} TallyFirst(log: seq<Emission>, p: Emission -> bool)
    requires log != []
    ensures Tally(log, p) == (if p(log[0]) then 1 else 0) + Tally(log[1..], p)
    ensures Tally(log[|log|..], p) == 0
  {
  }

  function RecognisedAttempts(attempts: Attempts): set<string> {
    set sp | sp in attempts && Recognised(attempts[sp])
  }

  function FailedAttempts(attempts: Attempts): set<string> {
    set sp | sp in attempts && attempts[sp].error != ""
  }

  function FailedAttemptsUnder(attempts: Attempts, protocol: string): set<string> {
    set sp | sp in attempts && attempts[sp].error != "" && ProtocolFromMulticodec(attempts[sp].protocol) == protocol
  }

  // No count of an attempt or of an error
  predicate CountsNoAttempt(e: Emission) {
    e.Record? || (!e.counter.RetrievalError?
      && e.counter !in {RequestWithBitswapAttempt, RequestWithGraphSyncAttempt, RequestWithHttpAttempt})
  }

  lemma {:induction false} BeforeOutcomeCountsNoAttempt(c: Call, name: string)
    ensures forall e | e in BeforeOutcome(c, name) :: CountsNoAttempt(e)
  {
  }

  lemma {:induction false} OutcomeCountsNoAttempt(c: Call)
    ensures forall e | e in Outcome(c) :: CountsNoAttempt(e)
  {
    hide Sub, SpLabels;
  }

  lemma {:induction false} ClosingCountsNoAttempt(c: Call, name: string)
    ensures forall e | e in Closing(c, name) ::
      !IsAttemptCount()(e) && !IsError()(e) && forall protocol :: !IsErrorUnder(protocol)(e)
  {
    hide BeforeOutcome, Outcome;
    BeforeOutcomeCountsNoAttempt(c, name);
    OutcomeCountsNoAttempt(c);
    forall e | e in Closing(c, name) ensures CountsNoAttempt(e) {}
  }

  lemma {:induction false} TallyOfCall(c: Call, order: seq<string>, p: Emission -> bool)
    requires IsOrder(order, c.attempts)
    requires !p(Add(TotalRequestCount, map[]))
    requires forall name, e | e in Closing(c, name) :: !p(e)
    ensures Tally(Emissions(c, order), p) == Tally(VisitAll(c.attempts, order).out, p)
  {
    var l := VisitAll(c.attempts, order);
    var head := [Add(TotalRequestCount, map[])];
    TallyAppend(head + l.out, Closing(c, l.lowestTTFBProtocol), p);
    TallyAppend(head, l.out, p);
    TallyNone(head, p);
    TallyNone(Closing(c, l.lowestTTFBProtocol), p);
  }

  function IsRecognised(): (string, Attempt) -> bool {
    (sp: string, a: Attempt) => Recognised(a)
  }

  function HasError(): (string, Attempt) -> bool {
    (sp: string, a: Attempt) => a.error != ""
  }

  function HasErrorUnder(protocol: string): (string, Attempt) -> bool {
    (sp: string, a: Attempt) => a.error != "" && ProtocolFromMulticodec(a.protocol) == protocol
  }

  lemma {:induction false} ConservationMarks(attempts: Attempts, protocol: string)
    ensures Marks(attempts, IsAttemptCount(), IsRecognised())
    ensures Marks(attempts, IsError(), HasError())
    ensures Marks(attempts, IsErrorUnder(protocol), HasErrorUnder(protocol))
  {
    forall sp | sp in attempts { TallyOfVisit(sp, attempts[sp], protocol); }
  }

  lemma {:induction false} RecognisedInLoop(attempts: Attempts, order: seq<string>)
    requires IsOrder(order, attempts)
    ensures Tally(VisitAll(attempts, order).out, IsAttemptCount()) == |RecognisedAttempts(attempts)|
  {
    ConservationMarks(attempts, "");
    TallyOfLoop(attempts, order, IsAttemptCount(), IsRecognised());
    ChosenAll(attempts, order, IsRecognised());
    assert Chosen(attempts, order, IsRecognised()) == RecognisedAttempts(attempts);
  }

  lemma {:induction false} ErrorsInLoop(attempts: Attempts, order: seq<string>)
    requires IsOrder(order, attempts)
    ensures Tally(VisitAll(attempts, order).out, IsError()) == |FailedAttempts(attempts)|
  {
    ConservationMarks(attempts, "");
    TallyOfLoop(attempts, order, IsError(), HasError());
    ChosenAll(attempts, order, HasError());
    assert Chosen(attempts, order, HasError()) == FailedAttempts(attempts);
  }

  lemma {:induction false} ErrorsUnderInLoop(attempts: Attempts, order: seq<string>, protocol: string)
    requires IsOrder(order, attempts)
    ensures Tally(VisitAll(attempts, order).out, IsErrorUnder(protocol)) == |FailedAttemptsUnder(attempts, protocol)|
  {
    ConservationMarks(attempts, protocol);
    TallyOfLoop(attempts, order, IsErrorUnder(protocol), HasErrorUnder(protocol));
    ChosenAll(attempts, order, HasErrorUnder(protocol));
    assert Chosen(attempts, order, HasErrorUnder(protocol)) == FailedAttemptsUnder(attempts, protocol);
  }

  /** Attempts with a recognised protocol are counted once each, and no others. */
  lemma {:induction false} AttemptConservation(c: Call, order: seq<string>)
    requires IsOrder(order, c.attempts)
    ensures Tally(Emissions(c, order), IsAttemptCount()) == |RecognisedAttempts(c.attempts)|
  {
    RecognisedInLoop(c.attempts, order);
    forall name { ClosingCountsNoAttempt(c, name); }
    TallyOfCall(c, order, IsAttemptCount());
  }

  /** The error counters rise by the number of attempts with an error, in total and under each protocol label. */
  lemma {:induction false} ErrorConservation(c: Call, order: seq<string>, protocol: string)
    requires IsOrder(order, c.attempts)
    ensures Tally(Emissions(c, order), IsError()) == |FailedAttempts(c.attempts)|
    ensures Tally(Emissions(c, order), IsErrorUnder(protocol)) == |FailedAttemptsUnder(c.attempts, protocol)|
  {
    ErrorsInLoop(c.attempts, order);
    ErrorsUnderInLoop(c.attempts, order, protocol);
    forall name { ClosingCountsNoAttempt(c, name); }
    TallyOfCall(c, order, IsError());
    TallyOfCall(c, order, IsErrorUnder(protocol));
  }

  lemma {:induction false} VisitOnlyAdds(sp: string, a: Attempt)
    ensures forall e | e in VisitAdds(sp, a) :: e.Add?
  {
  }

  lemma {:induction false} LoopOnlyAdds(attempts: Attempts, order: seq<string>)
    requires forall sp | sp in order :: sp in attempts
    ensures forall e | e in VisitAll(attempts, order).out :: e.Add?
  {
    hide VisitAdds;
    if order != [] {
      var sp := order[|order| - 1];
      LoopOnlyAdds(attempts, order[..|order| - 1]);
      VisitOnlyAdds(sp, attempts[sp]);
    }
  }

  lemma {:induction false} RecordsAreInClosing(c: Call, order: seq<string>, e: Emission)
    requires IsOrder(order, c.attempts) && e in Emissions(c, order) && e.Record?
    ensures e in Closing(c, VisitAll(c.attempts, order).lowestTTFBProtocol)
  {
    hide VisitAll, Closing;
    LoopOnlyAdds(c.attempts, order);
  }

  lemma {:induction false} BeforeOutcomeRecordsNone(c: Call, name: string)
    ensures forall e | e in BeforeOutcome(c, name) :: e.Record? ==> e.histogram != FailedRetrievalsPerRequest
  {
  }

  lemma {:induction false} ClosingRecordsZero(c: Call, name: string, e: Emission)
    requires e in Closing(c, name) && e.Record? && e.histogram == FailedRetrievalsPerRequest
    ensures c.success && e.value == Amount(0)
  {
    hide BeforeOutcome, Sub, SpLabels;
    BeforeOutcomeRecordsNone(c, name);
  }

  lemma {:induction false} NoneFailed(attempts: Attempts)
    ensures |FailedAttempts(attempts)| == 0 <==> forall sp | sp in attempts :: attempts[sp].error == ""
  {
    if sp :| sp in attempts && attempts[sp].error != "" {
      assert sp in FailedAttempts(attempts);
    }
  }

  /**
   The failed-retrievals histogram is described as the number of failed
   attempts of a request, but 0 is recorded for every successful one. That is
   the number of failed attempts if and only if none failed.
   */
  lemma {:induction false} FailedRetrievalsRecorded(c: Call, order: seq<string>, e: Emission)
    requires IsOrder(order, c.attempts)
    requires e in Emissions(c, order) && e.Record? && e.histogram == FailedRetrievalsPerRequest
    ensures c.success && e.value == Amount(0)
    ensures e.value == Amount(|FailedAttempts(c.attempts)|) <==> forall sp | sp in c.attempts :: c.attempts[sp].error == ""
  {
    hide VisitAll, Closing, FailedAttempts, Emissions;
    RecordsAreInClosing(c, order, e);
    ClosingRecordsZero(c, VisitAll(c.attempts, order).lowestTTFBProtocol, e);
    NoneFailed(c.attempts);
  }

  /** So every successful request with a failed attempt records a wrong number. */
  lemma {:induction false} FailedAttemptIsNotRecorded(c: Call, order: seq<string>, sp: string)
    requires IsOrder(order, c.attempts) && c.success && sp in c.attempts && c.attempts[sp].error != ""
    ensures Record(FailedRetrievalsPerRequest, Amount(0), map[]) in Emissions(c, order)
    ensures |FailedAttempts(c.attempts)| > 0
  {
    hide VisitAll;
    var name := VisitAll(c.attempts, order).lowestTTFBProtocol;
    var last := SuccessEmissions(c);
    assert last[|last| - 1] == Record(FailedRetrievalsPerRequest, Amount(0), map[]);
    assert Closing(c, name)[|Closing(c, name)| - 1] == last[|last| - 1];
    NoneFailed(c.attempts);
  }
}
