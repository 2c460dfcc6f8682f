/**
 What each instrument gets from one HandleAggregatedEvent call, in terms of the
 arguments of the call.
 */
module CallReports {
  import opened GoTime
  import opened Instruments
  import opened ErrorKinds
  import opened Aggregate

  /** The protocol a multicodec name stands for: those of three transports have short names, others stand for themselves. */
  predicate Names(code: string, protocol: string) {
    if code == "transport-bitswap" then protocol == "bitswap"
    else if code == "transport-graphsync-filecoinv1" then protocol == "graphsync"
    else if code == "transport-ipfs-gateway-http" then protocol == "http"
    else protocol == code
  }

  lemma {:induction false} NameOf(code: string, protocol: string)
    ensures Names(code, protocol) <==> ProtocolFromMulticodec(code) == protocol
  {
  }

  // ---------- the loop adds to no instrument of these ----------

  predicate OfTheLoop(c: Counter) {
    c.RetrievalError? || c in {
      RequestWithBitswapAttempt, RequestWithGraphSyncAttempt, RequestWithHttpAttempt, GraphsyncRetrievalFailure, HttpRetrievalFailure}
  }

  lemma {:induction false} VisitIsOfTheLoop(sp: string, a: Attempt)
    ensures forall e | e in VisitAdds(sp, a) :: e.Add? && OfTheLoop(e.counter)
  {
  }

  lemma {:induction false} LoopIsOfTheLoop(attempts: Attempts, order: seq<string>)
    requires forall sp | sp in order :: sp in attempts
    ensures forall e | e in VisitAll(attempts, order).out :: e.Add? && OfTheLoop(e.counter)
  {
    hide VisitAdds, OfTheLoop;
    if order != [] {
      var sp := order[|order| - 1];
      LoopIsOfTheLoop(attempts, order[..|order| - 1]);
      VisitIsOfTheLoop(sp, attempts[sp]);
    }
  }

  // What follows the loop is all that other instruments get, and the first request count
  lemma {:induction false} AfterTheLoop(c: Call, order: seq<string>, counter: Counter, h: Histogram)
    requires IsOrder(order, c.attempts) && !OfTheLoop(counter)
    ensures var name := VisitAll(c.attempts, order).lowestTTFBProtocol;
      && Recorded(Emissions(c, order), h) == Recorded(BeforeOutcome(c, name), h) + Recorded(Outcome(c), h)
      && Added(Emissions(c, order), counter)
           == (if counter == TotalRequestCount then [map[]] else []) + (Added(BeforeOutcome(c, name), counter) + Added(Outcome(c), counter))
  {
    hide Added, Recorded, BeforeOutcome, Outcome, VisitAll;
    var l := VisitAll(c.attempts, order);
    var first := Add(TotalRequestCount, map[]);
    LoopIsOfTheLoop(c.attempts, order);
    NotAdded(l.out, counter);
    NotRecorded(l.out, h);
    JustOne(first, counter, h);
    AddedAppend([first], l.out, counter);
    RecordedAppend([first], l.out, h);
    AddedAppend([first] + l.out, Closing(c, l.lowestTTFBProtocol), counter);
    RecordedAppend([first] + l.out, Closing(c, l.lowestTTFBProtocol), h);
    AddedAppend(BeforeOutcome(c, l.lowestTTFBProtocol), Outcome(c), counter);
    RecordedAppend(BeforeOutcome(c, l.lowestTTFBProtocol), Outcome(c), h);
  }

  // ---------- the two halves of what follows ----------

  // One instrument and one emission that may be left out
  lemma {:induction false} MaybeOne(there: bool, e: Emission, counter: Counter, h: Histogram)
    ensures Added(if there then [e] else [], counter) == if there && e.Add? && e.counter == counter then [e.labels] else []
    ensures Recorded(if there then [e] else [], h)
         == if there && e.Record? && e.histogram == h then [(e.value, e.labels)] else []
  {
    hide Added, Recorded;
    JustOne(e, counter, h);
  }

  lemma {:induction false} MaybeByte(there: bool, time: Duration, labels: Labels, counter: Counter, h: Histogram)
    ensures var out := if there then [Add(RequestWithFirstByteReceived, labels), Record(TimeToFirstByte, Nanos(time), labels)] else [];
      && Added(out, counter) == (if there && counter == RequestWithFirstByteReceived then [labels] else [])
      && Recorded(out, h) == (if there && h == TimeToFirstByte then [(Nanos(time), labels)] else [])
  {
    hide Added, Recorded;
    FirstByteGets(time, labels, counter, h);
    JustOne(Add(RequestWithFirstByteReceived, labels), counter, h);
  }

  // At most one of four parts is there
  lemma {:induction false} OneOfFour<T>(a: seq<T>, b: seq<T>, c: seq<T>, d: seq<T>)
    ensures b == [] && c == [] && d == [] ==> a + b + c + d == a
    ensures a == [] && c == [] && d == [] ==> a + b + c + d == b
    ensures a == [] && b == [] && d == [] ==> a + b + c + d == c
    ensures a == [] && b == [] && c == [] ==> a + b + c + d == d
  {
  }

  lemma {:induction false} BeforeOutcomeGets(c: Call, name: string, counter: Counter, h: Histogram)
    ensures Recorded(BeforeOutcome(c, name), h) ==
      if h == TimeToFirstIndexerResult && c.timeToFirstIndexerResult > 0 then [(Nanos(c.timeToFirstIndexerResult), map[])]
      else if h == TimeToFirstByte && c.timeToFirstByte > 0 then [(Nanos(c.timeToFirstByte), map["protocol" := name])]
      else []
    ensures Added(BeforeOutcome(c, name), counter) ==
      if counter == RequestWithIndexerCandidates && c.indexerCandidates > 0 then [map[]]
      else if counter == RequestWithIndexerCandidatesFiltered && c.indexerFiltered > 0 then [map[]]
      else if counter == RequestWithFirstByteReceived && c.timeToFirstByte > 0 then [map["protocol" := name]]
      else []
  {
    hide Added, Recorded;
    var labels := map["protocol" := name];
    var e1, e2, e3 := Record(TimeToFirstIndexerResult, Nanos(c.timeToFirstIndexerResult), map[]),
      Add(RequestWithIndexerCandidates, map[]), Add(RequestWithIndexerCandidatesFiltered, map[]);
    var p1, p2, p3 := if c.timeToFirstIndexerResult > 0 then [e1] else [],
      if c.indexerCandidates > 0 then [e2] else [], if c.indexerFiltered > 0 then [e3] else [];
    var p4 := if c.timeToFirstByte > 0
              then [Add(RequestWithFirstByteReceived, labels), Record(TimeToFirstByte, Nanos(c.timeToFirstByte), labels)] else [];
    assert BeforeOutcome(c, name) == p1 + p2 + p3 + p4;
    FourPartsGet(c, name, p1, p2, p3, p4, counter, h) by {
      MaybeOne(c.timeToFirstIndexerResult > 0, e1, counter, h);
      MaybeOne(c.indexerCandidates > 0, e2, counter, h);
      MaybeOne(c.indexerFiltered > 0, e3, counter, h);
      MaybeByte(c.timeToFirstByte > 0, c.timeToFirstByte, labels, counter, h);
    }
  }

  lemma {:induction false} FourPartsGet(c: Call, name: string,
      p1: seq<Emission>, p2: seq<Emission>, p3: seq<Emission>, p4: seq<Emission>, counter: Counter, h: Histogram)
    requires Added(p1, counter) == [] && Recorded(p2, h) == [] && Recorded(p3, h) == []
    requires Recorded(p1, h) ==
      if h == TimeToFirstIndexerResult && c.timeToFirstIndexerResult > 0 then [(Nanos(c.timeToFirstIndexerResult), map[])] else []
    requires Added(p2, counter) == if counter == RequestWithIndexerCandidates && c.indexerCandidates > 0 then [map[]] else []
    requires Added(p3, counter) == if counter == RequestWithIndexerCandidatesFiltered && c.indexerFiltered > 0 then [map[]] else []
    requires Added(p4, counter) ==
      if counter == RequestWithFirstByteReceived && c.timeToFirstByte > 0 then [map["protocol" := name]] else []
    requires Recorded(p4, h) ==
      if h == TimeToFirstByte && c.timeToFirstByte > 0 then [(Nanos(c.timeToFirstByte), map["protocol" := name])] else []
    ensures Recorded(p1 + p2 + p3 + p4, h) ==
      if h == TimeToFirstIndexerResult && c.timeToFirstIndexerResult > 0 then [(Nanos(c.timeToFirstIndexerResult), map[])]
      else if h == TimeToFirstByte && c.timeToFirstByte > 0 then [(Nanos(c.timeToFirstByte), map["protocol" := name])]
      else []
    ensures Added(p1 + p2 + p3 + p4, counter) ==
      if counter == RequestWithIndexerCandidates && c.indexerCandidates > 0 then [map[]]
      else if counter == RequestWithIndexerCandidatesFiltered && c.indexerFiltered > 0 then [map[]]
      else if counter == RequestWithFirstByteReceived && c.timeToFirstByte > 0 then [map["protocol" := name]]
      else []
  {
    hide Added, Recorded;
    FourParts(p1, p2, p3, p4, counter, h);
    OneOfFour(Added(p1, counter), Added(p2, counter), Added(p3, counter), Added(p4, counter));
    OneOfFour(Recorded(p1, h), Recorded(p2, h), Recorded(p3, h), Recorded(p4, h));
  }

  lemma {:induction false} FirstByteGets(time: Duration, labels: Labels, counter: Counter, h: Histogram)
    ensures var out := [Add(RequestWithFirstByteReceived, labels), Record(TimeToFirstByte, Nanos(time), labels)];
      && Added(out, counter) == (if counter == RequestWithFirstByteReceived then [labels] else [])
      && Recorded(out, h) == (if h == TimeToFirstByte then [(Nanos(time), labels)] else [])
  {
    hide Added, Recorded;
    var byte, record := Add(RequestWithFirstByteReceived, labels), Record(TimeToFirstByte, Nanos(time), labels);
    OneMore(byte, [record], counter, h);
    JustOne(record, counter, h);
    assert [byte] + [record] == [byte, record];
  }

  lemma {:induction false} FourParts(
      p1: seq<Emission>, p2: seq<Emission>, p3: seq<Emission>, p4: seq<Emission>, counter: Counter, h: Histogram)
    ensures Added(p1 + p2 + p3 + p4, counter) == Added(p1, counter) + Added(p2, counter) + Added(p3, counter) + Added(p4, counter)
    ensures Recorded(p1 + p2 + p3 + p4, h) == Recorded(p1, h) + Recorded(p2, h) + Recorded(p3, h) + Recorded(p4, h)
  {
    hide Added, Recorded;
    AddedAppend(p1, p2, counter);
    AddedAppend(p1 + p2, p3, counter);
    AddedAppend(p1 + p2 + p3, p4, counter);
    RecordedAppend(p1, p2, h);
    RecordedAppend(p1 + p2, p3, h);
    RecordedAppend(p1 + p2 + p3, p4, h);
  }

  lemma {:induction false} SixRecords(
      r1: Emission, r2: Emission, r3: Emission, r4: Emission, r5: Emission, r6: Emission, counter: Counter, h: Histogram)
    requires r1.Record? && r2.Record? && r3.Record? && r4.Record? && r5.Record? && r6.Record?
    requires r1.histogram == RetrievalDealDuration && r2.histogram == RetrievalDealSize && r3.histogram == BandwidthBytesPerSecond
    requires r4.histogram == IndexerCandidatesPerRequest && r5.histogram == IndexerCandidatesFilteredPerRequest
    requires r6.histogram == FailedRetrievalsPerRequest
    ensures Added([r1, r2, r3, r4, r5, r6], counter) == []
    ensures Recorded([r1, r2, r3, r4, r5, r6], h) ==
      if h == RetrievalDealDuration then [(r1.value, r1.labels)]
      else if h == RetrievalDealSize then [(r2.value, r2.labels)]
      else if h == BandwidthBytesPerSecond then [(r3.value, r3.labels)]
      else if h == IndexerCandidatesPerRequest then [(r4.value, r4.labels)]
      else if h == IndexerCandidatesFilteredPerRequest then [(r5.value, r5.labels)]
      else if h == FailedRetrievalsPerRequest then [(r6.value, r6.labels)]
      else []
  {
    hide Added, Recorded;
    OneMore(r1, [r2, r3, r4, r5, r6], counter, h);
    OneMore(r2, [r3, r4, r5, r6], counter, h);
    OneMore(r3, [r4, r5, r6], counter, h);
    OneMore(r4, [r5, r6], counter, h);
    OneMore(r5, [r6], counter, h);
    JustOne(r6, counter, h);
    assert [r1] + [r2, r3, r4, r5, r6] == [r1, r2, r3, r4, r5, r6];
    assert [r2] + [r3, r4, r5, r6] == [r2, r3, r4, r5, r6];
    assert [r3] + [r4, r5, r6] == [r3, r4, r5, r6];
    assert [r4] + [r5, r6] == [r4, r5, r6];
    assert [r5] + [r6] == [r5, r6];
  }

  // The counters at the head of the report of a success
  function Successes(c: Call, protocol: string): seq<Emission> {
    var provider := map["protocol" := protocol, "sp_id" := c.storageProviderID, "fil_sp_id" := c.filSPID];
    [Add(RequestWithSuccess, provider)] +
    if protocol == "bitswap" then [Add(RequestWithBitswapSuccess, map["protocol" := "bitswap"])]
    else if protocol == "graphsync" then [Add(RequestWithGraphSyncSuccess, provider)]
    else if protocol == "http" then [Add(RequestWithHttpSuccess, provider)]
    else []
  }

  lemma {:induction false} SuccessInTwo(c: Call, protocol: string) returns (r: seq<Emission>)
    requires Names(c.protocolSucceeded, protocol)
    ensures SuccessEmissions(c) == Successes(c, protocol) + r
    ensures r == [
      Record(RetrievalDealDuration, Nanos(Sub(c.endTime, c.startTime)), map["protocol" := protocol]),
      Record(RetrievalDealSize, Amount(c.bytesTransferred), map["protocol" := protocol]),
      Record(BandwidthBytesPerSecond, Amount(c.bandwidth), map["protocol" := protocol]),
      Record(IndexerCandidatesPerRequest, Amount(c.indexerCandidates), map[]),
      Record(IndexerCandidatesFilteredPerRequest, Amount(c.indexerFiltered), map[]),
      Record(FailedRetrievalsPerRequest, Amount(0), map[])]
  {
    hide Sub;
    NameOf(c.protocolSucceeded, protocol);
    r := SuccessEmissions(c)[|Successes(c, protocol)|..];
  }

  lemma {:induction false} SuccessesGet(c: Call, protocol: string, counter: Counter, h: Histogram)
    ensures Recorded(Successes(c, protocol), h) == []
    ensures var provider := map["protocol" := protocol, "sp_id" := c.storageProviderID, "fil_sp_id" := c.filSPID];
      Added(Successes(c, protocol), counter) ==
        if counter == RequestWithSuccess then [provider]
        else if counter == RequestWithBitswapSuccess && protocol == "bitswap" then [map["protocol" := "bitswap"]]
        else if counter == RequestWithGraphSyncSuccess && protocol == "graphsync" then [provider]
        else if counter == RequestWithHttpSuccess && protocol == "http" then [provider]
        else []
  {
    hide Added, Recorded;
    var out := Successes(c, protocol);
    if |out| == 2 {
      assert out == [out[0]] + [out[1]];
      OneMore(out[0], [out[1]], counter, h);
      JustOne(out[1], counter, h);
    } else {
      assert out == [out[0]];
      JustOne(out[0], counter, h);
    }
  }

  lemma {:induction false} SuccessGets(c: Call, protocol: string, counter: Counter, h: Histogram)
    requires Names(c.protocolSucceeded, protocol)
    ensures Recorded(SuccessEmissions(c), h) ==
      match h
      case RetrievalDealDuration => [(Nanos(Sub(c.endTime, c.startTime)), map["protocol" := protocol])]
      case RetrievalDealSize => [(Amount(c.bytesTransferred), map["protocol" := protocol])]
      case BandwidthBytesPerSecond => [(Amount(c.bandwidth), map["protocol" := protocol])]
      case IndexerCandidatesPerRequest => [(Amount(c.indexerCandidates), map[])]
      case IndexerCandidatesFilteredPerRequest => [(Amount(c.indexerFiltered), map[])]
      case FailedRetrievalsPerRequest => [(Amount(0), map[])]
      case _ => []
    ensures Added(SuccessEmissions(c), counter) == Added(Successes(c, protocol), counter)
  {
    hide Added, Recorded, Sub, Successes, SuccessEmissions, Names;
    var r := SuccessInTwo(c, protocol);
    SixRecords(r[0], r[1], r[2], r[3], r[4], r[5], counter, h);
    AddedAppend(Successes(c, protocol), r, counter);
    RecordedAppend(Successes(c, protocol), r, h);
    SuccessesGet(c, protocol, counter, h);
  }

  // ---------- theorems ----------

  /**
   What each histogram gets from one call, whatever the order of the attempts:
   each value from its own argument, once if its condition holds, else not at all.
   */
  lemma {:induction false} HistogramsOfCall(c: Call, order: seq<string>, protocol: string) returns (fastest: string)
    requires IsOrder(order, c.attempts) && Names(c.protocolSucceeded, protocol)
    ensures var out := Emissions(c, order); var labels := map["protocol" := protocol];
      && Recorded(out, RetrievalDealSize) == (if c.success then [(Amount(c.bytesTransferred), labels)] else [])
      && Recorded(out, BandwidthBytesPerSecond) == (if c.success then [(Amount(c.bandwidth), labels)] else [])
      && Recorded(out, RetrievalDealDuration) == (if c.success then [(Nanos(Sub(c.endTime, c.startTime)), labels)] else [])
      && Recorded(out, IndexerCandidatesPerRequest) == (if c.success then [(Amount(c.indexerCandidates), map[])] else [])
      && Recorded(out, IndexerCandidatesFilteredPerRequest) == (if c.success then [(Amount(c.indexerFiltered), map[])] else [])
      && Recorded(out, FailedRetrievalsPerRequest) == (if c.success then [(Amount(0), map[])] else [])
      && Recorded(out, TimeToFirstIndexerResult)
           == (if c.timeToFirstIndexerResult > 0 then [(Nanos(c.timeToFirstIndexerResult), map[])] else [])
      && Recorded(out, TimeToFirstByte)
           == (if c.timeToFirstByte > 0 then [(Nanos(c.timeToFirstByte), map["protocol" := fastest])] else [])
    ensures IsFastest(c.attempts, fastest)
  {
    hide Added, Recorded, BeforeOutcome, SuccessEmissions, Emissions, Sub, VisitAll, IsFastest;
    fastest := VisitAll(c.attempts, order).lowestTTFBProtocol;
    FastestNamed(c.attempts, order);
    forall h { HistogramOfCall(c, order, protocol, h); }
  }

  lemma {:induction false} HistogramOfCall(c: Call, order: seq<string>, protocol: string, h: Histogram)
    requires IsOrder(order, c.attempts) && Names(c.protocolSucceeded, protocol)
    ensures var name := VisitAll(c.attempts, order).lowestTTFBProtocol;
      Recorded(Emissions(c, order), h) ==
        match h
        case TimeToFirstIndexerResult => if c.timeToFirstIndexerResult > 0 then [(Nanos(c.timeToFirstIndexerResult), map[])] else []
        case TimeToFirstByte => if c.timeToFirstByte > 0 then [(Nanos(c.timeToFirstByte), map["protocol" := name])] else []
        case RetrievalDealDuration => if c.success then [(Nanos(Sub(c.endTime, c.startTime)), map["protocol" := protocol])] else []
        case RetrievalDealSize => if c.success then [(Amount(c.bytesTransferred), map["protocol" := protocol])] else []
        case BandwidthBytesPerSecond => if c.success then [(Amount(c.bandwidth), map["protocol" := protocol])] else []
        case IndexerCandidatesPerRequest => if c.success then [(Amount(c.indexerCandidates), map[])] else []
        case IndexerCandidatesFilteredPerRequest => if c.success then [(Amount(c.indexerFiltered), map[])] else []
        case FailedRetrievalsPerRequest => if c.success then [(Amount(0), map[])] else []
  {
    hide Added, Recorded, BeforeOutcome, SuccessEmissions, Emissions, Sub, VisitAll;
    AfterTheLoop(c, order, TotalRequestCount, h);
    BeforeOutcomeGets(c, VisitAll(c.attempts, order).lowestTTFBProtocol, TotalRequestCount, h);
    if c.success {
      SuccessGets(c, protocol, TotalRequestCount, h);
    } else {
      JustOne(Add(RequestWithIndexerFailures, map[]), TotalRequestCount, h);
    }
  }

  predicate IsLowestAt(attempts: Attempts, sp: string)
    requires sp in attempts
  {
    && attempts[sp].timeToFirstByte != 0
    && forall other | other in attempts ::
         attempts[other].timeToFirstByte == 0 || attempts[sp].timeToFirstByte <= attempts[other].timeToFirstByte
  }

  /** The protocol of some attempt with the lowest time to first byte that is not 0; no name if there is none. */
  ghost predicate IsFastest(attempts: Attempts, name: string) {
    if forall sp | sp in attempts :: attempts[sp].timeToFirstByte == 0 then name == ""
    else exists sp | sp in attempts :: IsLowestAt(attempts, sp) && Names(attempts[sp].protocol, name)
  }

  lemma {:induction false} FastestNamed(attempts: Attempts, order: seq<string>)
    requires IsOrder(order, attempts)
    ensures IsFastest(attempts, VisitAll(attempts, order).lowestTTFBProtocol)
  {
    hide VisitAll, Names;
    LoopFindsLowest(attempts, order);
    var m, name := VisitAll(attempts, order).lowestTTFB, VisitAll(attempts, order).lowestTTFBProtocol;
    if m != 0 {
      var sp :| sp in attempts && attempts[sp].timeToFirstByte == m && ProtocolFromMulticodec(attempts[sp].protocol) == name;
      NameOf(attempts[sp].protocol, name);
    }
  }

  /** What each counter outside the loop gets from one call. */
  lemma {:induction false} CountersOfCall(c: Call, order: seq<string>, protocol: string) returns (fastest: string)
    requires IsOrder(order, c.attempts) && Names(c.protocolSucceeded, protocol)
    ensures var out := Emissions(c, order);
      var provider := map["protocol" := protocol, "sp_id" := c.storageProviderID, "fil_sp_id" := c.filSPID];
      && Added(out, TotalRequestCount) == [map[]]
      && Added(out, RequestWithIndexerCandidates) == (if c.indexerCandidates > 0 then [map[]] else [])
      && Added(out, RequestWithIndexerCandidatesFiltered) == (if c.indexerFiltered > 0 then [map[]] else [])
      && Added(out, RequestWithFirstByteReceived) == (if c.timeToFirstByte > 0 then [map["protocol" := fastest]] else [])
      && Added(out, RequestWithSuccess) == (if c.success then [provider] else [])
      && Added(out, RequestWithBitswapSuccess) == (if c.success && protocol == "bitswap" then [map["protocol" := "bitswap"]] else [])
      && Added(out, RequestWithGraphSyncSuccess) == (if c.success && protocol == "graphsync" then [provider] else [])
      && Added(out, RequestWithHttpSuccess) == (if c.success && protocol == "http" then [provider] else [])
      && Added(out, RequestWithIndexerFailures) == (if !c.success && |c.attempts| == 0 then [map[]] else [])
    ensures IsFastest(c.attempts, fastest)
  {
    hide Added, Recorded, BeforeOutcome, SuccessEmissions, Emissions, VisitAll, IsFastest;
    fastest := VisitAll(c.attempts, order).lowestTTFBProtocol;
    FastestNamed(c.attempts, order);
    CounterOfCall(c, order, protocol, TotalRequestCount);
    CounterOfCall(c, order, protocol, RequestWithIndexerCandidates);
    CounterOfCall(c, order, protocol, RequestWithIndexerCandidatesFiltered);
    CounterOfCall(c, order, protocol, RequestWithFirstByteReceived);
    CounterOfCall(c, order, protocol, RequestWithSuccess);
    CounterOfCall(c, order, protocol, RequestWithBitswapSuccess);
    CounterOfCall(c, order, protocol, RequestWithGraphSyncSuccess);
    CounterOfCall(c, order, protocol, RequestWithHttpSuccess);
    CounterOfCall(c, order, protocol, RequestWithIndexerFailures);
  }

  lemma {:induction false} CounterOfCall(c: Call, order: seq<string>, protocol: string, counter: Counter)
    requires IsOrder(order, c.attempts) && Names(c.protocolSucceeded, protocol) && !OfTheLoop(counter)
    ensures var name := VisitAll(c.attempts, order).lowestTTFBProtocol;
      var provider := map["protocol" := protocol, "sp_id" := c.storageProviderID, "fil_sp_id" := c.filSPID];
      Added(Emissions(c, order), counter) ==
        if counter == TotalRequestCount then [map[]]
        else if counter == RequestWithIndexerCandidates then (if c.indexerCandidates > 0 then [map[]] else [])
        else if counter == RequestWithIndexerCandidatesFiltered then (if c.indexerFiltered > 0 then [map[]] else [])
        else if counter == RequestWithFirstByteReceived then (if c.timeToFirstByte > 0 then [map["protocol" := name]] else [])
        else if counter == RequestWithIndexerFailures then (if !c.success && |c.attempts| == 0 then [map[]] else [])
        else if !c.success then []
        else if counter == RequestWithSuccess then [provider]
        else if counter == RequestWithBitswapSuccess && protocol == "bitswap" then [map["protocol" := "bitswap"]]
        else if counter == RequestWithGraphSyncSuccess && protocol == "graphsync" then [provider]
        else if counter == RequestWithHttpSuccess && protocol == "http" then [provider]
        else []
  {
    hide Added, Recorded, BeforeOutcome, SuccessEmissions, Successes, Emissions, VisitAll;
    AfterTheLoop(c, order, counter, RetrievalDealSize);
    BeforeOutcomeGets(c, VisitAll(c.attempts, order).lowestTTFBProtocol, counter, RetrievalDealSize);
    if c.success {
      SuccessGets(c, protocol, counter, RetrievalDealSize);
      SuccessesGet(c, protocol, counter, RetrievalDealSize);
    } else {
      JustOne(Add(RequestWithIndexerFailures, map[]), counter, RetrievalDealSize);
    }
  }

  /** An attempt makes the loop emit e. */
  predicate Makes(sp: string, a: Attempt, protocol: string, e: Emission) {
    var provider := map["protocol" := protocol, "sp_id" := sp, "fil_sp_id" := a.filSPID];
    || (protocol == "bitswap" && sp == "Bitswap" && e == Add(RequestWithBitswapAttempt, map["protocol" := "bitswap"]))
    || (protocol == "bitswap" && sp != "Bitswap" && e == Add(RequestWithGraphSyncAttempt, provider))
    || (protocol == "graphsync" && e == Add(RequestWithGraphSyncAttempt, provider))
    || (protocol == "http" && e == Add(RequestWithHttpAttempt, provider))
    || (a.error != "" && protocol == "graphsync" && e == Add(GraphsyncRetrievalFailure, provider))
    || (a.error != "" && protocol == "http" && e == Add(HttpRetrievalFailure, provider))
    || (a.error != "" && e == Add(RetrievalError(KindOf(a.error)), map["protocol" := protocol]))
  }

  lemma {:induction false} MakesIsVisit(sp: string, a: Attempt, protocol: string, e: Emission)
    requires Names(a.protocol, protocol)
    ensures e in VisitAdds(sp, a) <==> Makes(sp, a, protocol, e)
  {
    hide KindOf;
    NameOf(a.protocol, protocol);
  }

  /**
   The attempt, failure and error counters: e is emitted once for every attempt
   that makes it, whatever the order.
   */
  lemma {:induction false} AttemptsOfCall(c: Call, order: seq<string>, names: map<string, string>, e: Emission)
    requires IsOrder(order, c.attempts) && e.Add? && OfTheLoop(e.counter)
    requires names.Keys == c.attempts.Keys && forall sp | sp in c.attempts :: Names(c.attempts[sp].protocol, names[sp])
    ensures multiset(Emissions(c, order))[e] == |set sp | sp in c.attempts && Makes(sp, c.attempts[sp], names[sp], e)|
  {
    hide VisitAdds, Makes, BeforeOutcome, Outcome, Names, VisitAll;
    var l := VisitAll(c.attempts, order);
    EmissionsOfLoop(c.attempts, order, e);
    NothingAfter(c, l.lowestTTFBProtocol, e);
    assert e !in [Add(TotalRequestCount, map[])];
    forall sp | sp in c.attempts ensures e in VisitAdds(sp, c.attempts[sp]) <==> Makes(sp, c.attempts[sp], names[sp], e) {
      MakesIsVisit(sp, c.attempts[sp], names[sp], e);
    }
    assert (set sp | sp in c.attempts && e in VisitAdds(sp, c.attempts[sp]))
        == (set sp | sp in c.attempts && Makes(sp, c.attempts[sp], names[sp], e));
    assert e !in multiset(Closing(c, l.lowestTTFBProtocol)) && e !in multiset([Add(TotalRequestCount, map[])]);
  }

  lemma {:induction false} BeforeOutcomeNotOfTheLoop(c: Call, name: string)
    ensures forall e | e in BeforeOutcome(c, name) :: e.Add? ==> !OfTheLoop(e.counter)
  {
  }

  lemma {:induction false} OutcomeNotOfTheLoop(c: Call)
    ensures forall e | e in Outcome(c) :: e.Add? ==> !OfTheLoop(e.counter)
  {
    hide Sub, SpLabels, ProtocolFromMulticodec;
  }

  lemma {:induction false} NothingAfter(c: Call, name: string, e: Emission)
    requires e.Add? && OfTheLoop(e.counter)
    ensures e !in Closing(c, name)
  {
    hide BeforeOutcome, Outcome, OfTheLoop;
    BeforeOutcomeNotOfTheLoop(c, name);
    OutcomeNotOfTheLoop(c);
  }
}
