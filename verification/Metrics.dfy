/** The handlers of metrics/events.go over the recycled TempData objects. */
module MetricsHandlers {
  import opened GoTime
  import opened Instruments
  import opened ErrorKinds
  import opened Lifetime
  import opened Aggregate
  import opened Handlers
  import opened Tempdata

  class Metrics {
    const tempDataMap: TempDataMap
    // all Add and Record calls on the instruments so far
    var emitted: seq<Emission>
    // what the entries mean
    ghost var lives: Lives

    ghost predicate Valid()
      reads `lives, tempDataMap, tempDataMap.datas, tempDataMap.timers
    {
      tempDataMap.Valid() && tempDataMap.Timed() && tempDataMap.Holds(lives)
    }

    constructor ()
      ensures Valid() && lives == map[] && emitted == []
      ensures fresh(tempDataMap) && tempDataMap.datas == {} && tempDataMap.timers == {}
    {
      tempDataMap := new TempDataMap();
      emitted, lives := [], map[];
    }

    ghost method SetLives(l: Lives)
      requires tempDataMap.Valid() && tempDataMap.Timed() && tempDataMap.Holds(l)
      modifies `lives
      ensures Valid() && lives == l
    {
      lives := l;
    }

    method Emit(out: seq<Emission>)
      requires Valid()
      modifies `emitted
      ensures Valid() && emitted == old(emitted) + out
    {
      emitted := emitted + out;
    }

    /** GetOrCreate, seen from the lifetimes. */
    method OpenEntry(id: RetrievalID, now: Time) returns (tempData: TempData)
      requires Valid()
      modifies this, tempDataMap, tempDataMap.datas, tempDataMap.timers
      ensures Valid() && fresh(tempDataMap.datas - old(tempDataMap.datas)) && fresh(tempDataMap.timers - old(tempDataMap.timers))
      ensures id in tempDataMap.internalMap && tempDataMap.internalMap[id] == tempData && tempData in tempDataMap.datas
      ensures lives == Open(old(lives), id, now) && emitted == old(emitted)
    {
      tempData := tempDataMap.GetOrCreate(id, now);
      SetLives(Open(lives, id, now));
    }

    // ---------- the Record* calls, seen from the lifetimes ----------

    method RecordStart(id: RetrievalID, tempData: TempData, time: Time) returns (first: bool)
      requires Valid() && id in tempDataMap.internalMap && tempDataMap.internalMap[id] == tempData
      modifies `lives, tempData
      ensures Valid() && id in old(lives) && lives == Note(old(lives), id, Start(Stored(time)))
      ensures first == First(old(lives)[id].events, Start(Stored(time)))
    {
      first := tempData.RecordStartTime(time);
      tempDataMap.Recorded(id);
      SetLives(Note(lives, id, Start(Stored(time))));
    }

    method RecordBitswap(id: RetrievalID, tempData: TempData) returns (first: bool)
      requires Valid() && id in tempDataMap.internalMap && tempDataMap.internalMap[id] == tempData
      modifies `lives, tempData
      ensures Valid() && id in old(lives) && lives == Note(old(lives), id, BitswapAttempt)
      ensures first == First(old(lives)[id].events, BitswapAttempt)
    {
      first := tempData.RecordBitswapAttempt();
      tempDataMap.Recorded(id);
      SetLives(Note(lives, id, BitswapAttempt));
    }

    method RecordGraphsync(id: RetrievalID, tempData: TempData) returns (first: bool)
      requires Valid() && id in tempDataMap.internalMap && tempDataMap.internalMap[id] == tempData
      modifies `lives, tempData
      ensures Valid() && id in old(lives) && lives == Note(old(lives), id, GraphsyncAttempt)
      ensures first == First(old(lives)[id].events, GraphsyncAttempt)
    {
      first := tempData.RecordGraphsyncAttempt();
      tempDataMap.Recorded(id);
      SetLives(Note(lives, id, GraphsyncAttempt));
    }

    method RecordCandidates(id: RetrievalID, tempData: TempData, time: Time, n: uint32) returns (first: bool)
      requires Valid() && id in tempDataMap.internalMap && tempDataMap.internalMap[id] == tempData
      modifies `lives, tempData
      ensures Valid() && id in old(lives) && lives == Note(old(lives), id, Candidates(Stored(time), n))
      ensures first == First(old(lives)[id].events, Candidates(Stored(time), n))
    {
      first := tempData.RecordIndexerCandidates(time, n);
      tempDataMap.Recorded(id);
      SetLives(Note(lives, id, Candidates(Stored(time), n)));
    }

    method RecordFiltered(id: RetrievalID, tempData: TempData, n: uint32) returns (first: bool)
      requires Valid() && id in tempDataMap.internalMap && tempDataMap.internalMap[id] == tempData
      modifies `lives, tempData
      ensures Valid() && id in old(lives) && lives == Note(old(lives), id, Filtered(n))
      ensures first == First(old(lives)[id].events, Filtered(n))
    {
      first := tempData.RecordIndexerFilteredCandidates(n);
      tempDataMap.Recorded(id);
      SetLives(Note(lives, id, Filtered(n)));
    }

    method RecordFirstByte(id: RetrievalID, tempData: TempData, time: Time) returns (first: bool)
      requires Valid() && id in tempDataMap.internalMap && tempDataMap.internalMap[id] == tempData
      modifies `lives, tempData
      ensures Valid() && id in old(lives) && lives == Note(old(lives), id, FirstByte(Stored(time)))
      ensures first == First(old(lives)[id].events, FirstByte(Stored(time)))
    {
      first := tempData.RecordTimeToFirstByte(time);
      tempDataMap.Recorded(id);
      SetLives(Note(lives, id, FirstByte(Stored(time))));
    }

    // ---------- the handlers ----------

    method RequestStarted(id: RetrievalID, tempData: TempData, eventTime: Time)
      requires Valid() && id in tempDataMap.internalMap && tempDataMap.internalMap[id] == tempData
      modifies `lives, `emitted, tempData
      ensures Valid() && id in old(lives) && lives == Note(old(lives), id, Start(Stored(eventTime)))
      ensures emitted == old(emitted) + [Add(TotalRequestCount, map[])]
    {
      var _ := RecordStart(id, tempData, eventTime);
      Emit([Add(TotalRequestCount, map[])]);
    }

    method AttemptStarted(id: RetrievalID, tempData: TempData, storageProviderID: string)
      requires Valid() && id in tempDataMap.internalMap && tempDataMap.internalMap[id] == tempData
      modifies `lives, `emitted, tempData
      ensures Valid() && id in old(lives)
      ensures var e := if storageProviderID == BITSWAP_IDENTIFIER then BitswapAttempt else GraphsyncAttempt;
        lives == Note(old(lives), id, e)
        && emitted == old(emitted) +
          if !First(old(lives)[id].events, e) then []
          else if storageProviderID == BITSWAP_IDENTIFIER then [Add(RequestWithBitswapAttempt, map[])]
          else [Add(RequestWithGraphSyncAttempt, map["sp_id" := storageProviderID])]
    {
      if storageProviderID == BITSWAP_IDENTIFIER {
        var first := RecordBitswap(id, tempData);
        if first {
          Emit([Add(RequestWithBitswapAttempt, map[])]);
        }
      } else {
        var first := RecordGraphsync(id, tempData);
        if first {
          Emit([Add(RequestWithGraphSyncAttempt, map["sp_id" := storageProviderID])]);
        }
      }
    }

    method HandleStartedEvent(id: RetrievalID, phase: Phase, eventTime: Time, storageProviderID: string, now: Time)
      requires Valid()
      modifies this, tempDataMap, tempDataMap.datas, tempDataMap.timers
      ensures Valid() && fresh(tempDataMap.datas - old(tempDataMap.datas)) && fresh(tempDataMap.timers - old(tempDataMap.timers))
      ensures var effect := HandleStarted(old(lives), now, StartedEvent(id, phase, storageProviderID, eventTime));
        lives == effect.lives && emitted == old(emitted) + effect.out
    {
      var tempData := OpenEntry(id, now);
      match phase {
        case IndexerPhase =>
          RequestStarted(id, tempData, eventTime);
        case RetrievalPhase =>
          AttemptStarted(id, tempData, storageProviderID);
        case _ =>
      }
    }

    method HandleCandidatesFoundEvent(id: RetrievalID, eventTime: Time, details: Details, now: Time)
      requires Valid()
      modifies this, tempDataMap, tempDataMap.datas, tempDataMap.timers
      ensures Valid() && fresh(tempDataMap.datas - old(tempDataMap.datas)) && fresh(tempDataMap.timers - old(tempDataMap.timers))
      ensures var effect := HandleCandidatesFound(old(lives), now, CandidatesFoundEvent(id, eventTime, details));
        lives == effect.lives && emitted == old(emitted) + effect.out
    {
      var candidateCount := NumberField(details, "candidateCount");
      if candidateCount == None {
        return;
      }
      if candidateCount.value > 0.0 {
        var tempData := OpenEntry(id, now);
        CandidatesFound(id, tempData, eventTime, FloatToUint32(candidateCount.value));
      }
    }

    method CandidatesFound(id: RetrievalID, tempData: TempData, eventTime: Time, n: uint32)
      requires Valid() && id in tempDataMap.internalMap && tempDataMap.internalMap[id] == tempData
      modifies `lives, `emitted, tempData
      ensures Valid() && id in old(lives)
      ensures var e := Candidates(Stored(eventTime), n);
        lives == Note(old(lives), id, e)
        && emitted == old(emitted) +
          if !First(old(lives)[id].events, e) then []
          else [Add(RequestWithIndexerCandidates, map[]),
                Record(TimeToFirstIndexerResult, Nanos(Sub(eventTime, StartOf(old(lives)[id]))), map[])]
    {
      hide Fold, First;
      var first := RecordCandidates(id, tempData, eventTime, n);
      if first {
        var start := tempData.StartTime();
        StartUnchanged(old(lives)[id], Candidates(Stored(eventTime), n));
        Emit([Add(RequestWithIndexerCandidates, map[]),
              Record(TimeToFirstIndexerResult, Nanos(Sub(eventTime, start)), map[])]);
      }
    }

    method HandleCandidatesFilteredEvent(id: RetrievalID, details: Details, now: Time)
      requires Valid()
      modifies this, tempDataMap, tempDataMap.datas, tempDataMap.timers
      ensures Valid() && fresh(tempDataMap.datas - old(tempDataMap.datas)) && fresh(tempDataMap.timers - old(tempDataMap.timers))
      ensures var effect := HandleCandidatesFiltered(old(lives), now, CandidatesFilteredEvent(id, details));
        lives == effect.lives && emitted == old(emitted) + effect.out
    {
      hide Fold, First, FloatToUint32;
      var candidateCount := NumberField(details, "candidateCount");
      if candidateCount == None {
        return;
      }
      if candidateCount.value > 0.0 {
        var tempData := OpenEntry(id, now);
        CandidatesFiltered(id, tempData, FloatToUint32(candidateCount.value));
      }
    }

    method CandidatesFiltered(id: RetrievalID, tempData: TempData, n: uint32)
      requires Valid() && id in tempDataMap.internalMap && tempDataMap.internalMap[id] == tempData
      modifies `lives, `emitted, tempData
      ensures Valid() && id in old(lives) && lives == Note(old(lives), id, Filtered(n))
      ensures emitted == old(emitted) +
        if First(old(lives)[id].events, Filtered(n)) then [Add(RequestWithIndexerCandidatesFiltered, map[])] else []
    {
      var first := RecordFiltered(id, tempData, n);
      if first {
        Emit([Add(RequestWithIndexerCandidatesFiltered, map[])]);
      }
    }

    method HandleTimeToFirstByteEvent(id: RetrievalID, storageProviderID: string, eventTime: Time, now: Time)
      requires Valid()
      modifies this, tempDataMap, tempDataMap.datas, tempDataMap.timers
      ensures Valid() && fresh(tempDataMap.datas - old(tempDataMap.datas)) && fresh(tempDataMap.timers - old(tempDataMap.timers))
      ensures var effect := HandleTimeToFirstByte(old(lives), now, FirstByteEvent(id, storageProviderID, eventTime));
        lives == effect.lives && emitted == old(emitted) + effect.out
    {
      var tempData := OpenEntry(id, now);
      GotByte(id, tempData, storageProviderID, eventTime);
    }

    method GotByte(id: RetrievalID, tempData: TempData, storageProviderID: string, eventTime: Time)
      requires Valid() && id in tempDataMap.internalMap && tempDataMap.internalMap[id] == tempData
      modifies `lives, `emitted, tempData
      ensures Valid() && id in old(lives)
      ensures var e := FirstByte(Stored(eventTime));
        var labels := map["protocol" := ProtocolFromSpID(storageProviderID)];
        lives == Note(old(lives), id, e)
        && emitted == old(emitted) +
          if !First(old(lives)[id].events, e) then []
          else [Add(RequestWithFirstByteReceived, labels),
                Record(TimeToFirstByte, Nanos(Sub(eventTime, StartOf(old(lives)[id]))), labels)]
    {
      var first := RecordFirstByte(id, tempData, eventTime);
      if first {
        var start := tempData.StartTime();
        StartUnchanged(old(lives)[id], FirstByte(Stored(eventTime)));
        var labels := map["protocol" := ProtocolFromSpID(storageProviderID)];
        Emit([Add(RequestWithFirstByteReceived, labels),
              Record(TimeToFirstByte, Nanos(Sub(eventTime, start)), labels)]);
      }
    }

    /** GetOrCreate, RecordFinality, Delete: the timer is there to be stopped and the entry to be removed. */
    method FinishEntry(id: RetrievalID, now: Time) returns (f: FinalValues)
      requires Valid()
      modifies this, tempDataMap, tempDataMap.datas, tempDataMap.timers
      ensures Valid() && fresh(tempDataMap.datas - old(tempDataMap.datas)) && fresh(tempDataMap.timers - old(tempDataMap.timers))
      ensures lives == Close(old(lives), id) && emitted == old(emitted)
      ensures f == Finals(Fold(if id in old(lives) then old(lives)[id].events else []))
    {
      var tempData := OpenEntry(id, now);
      var finalDetails := tempDataMap.Finish(id);
      f := finalDetails.value;
      SetLives(Close(lives, id));
      OpenThenClose(old(lives), id, now);
    }

    method HandleFailureEvent(id: RetrievalID, phase: Phase, storageProviderID: string, details: Details, now: Time)
      requires Valid()
      modifies this, tempDataMap, tempDataMap.datas, tempDataMap.timers
      ensures Valid() && fresh(tempDataMap.datas - old(tempDataMap.datas)) && fresh(tempDataMap.timers - old(tempDataMap.timers))
      ensures var effect := HandleFailure(old(lives), now, FailureEvent(id, phase, storageProviderID, details));
        lives == effect.lives && emitted == old(emitted) + effect.out
    {
      var msg := TextField(details, "error");
      if msg == None {
        return;
      }
      match phase {
        case IndexerPhase =>
          var _ := FinishEntry(id, now);
          Emit([Add(RequestWithIndexerFailures, map[])]);
        case RetrievalPhase =>
          if storageProviderID != BITSWAP_IDENTIFIER {
            Emit([Add(GraphsyncRetrievalFailure, map["sp_id" := storageProviderID])]);
          }
          CountError(msg.value, ProtocolFromSpID(storageProviderID));
        case _ =>
      }
    }

    method CountError(msg: string, protocol: string)
      requires Valid()
      modifies `emitted
      ensures Valid() && emitted == old(emitted) + [Add(RetrievalError(KindOf(msg)), map["protocol" := protocol])]
    {
      var metric := GetMatchingErrorMetric(msg);
      if metric.Some? {
        Emit([Add(RetrievalError(metric.value), map["protocol" := protocol])]);
      } else {
        Emit([Add(RetrievalError(Other), map["protocol" := protocol])]);
      }
    }

    method HandleSuccessEvent(id: RetrievalID, eventTime: Time, storageProviderID: string, details: Details, now: Time)
      requires Valid()
      modifies this, tempDataMap, tempDataMap.datas, tempDataMap.timers
      ensures Valid() && fresh(tempDataMap.datas - old(tempDataMap.datas)) && fresh(tempDataMap.timers - old(tempDataMap.timers))
      ensures var effect := HandleSuccess(old(lives), now, SuccessEvent(id, eventTime, storageProviderID, details));
        lives == effect.lives && emitted == old(emitted) + effect.out
    {
      var receivedSize := NumberField(details, "receivedSize");
      if receivedSize == None {
        return;
      }
      var finalDetails := FinishEntry(id, now);
      ReportSuccess(eventTime, storageProviderID, receivedSize.value, finalDetails);
    }

    method ReportSuccess(eventTime: Time, storageProviderID: string, receivedSize: real, finalDetails: FinalValues)
      requires Valid()
      modifies `emitted
      ensures Valid() && emitted == old(emitted) + SuccessReport(eventTime, storageProviderID, receivedSize, finalDetails)
    {
      hide Sub, FloatToInt64, ProtocolFromSpID;
      var labels := map["protocol" := ProtocolFromSpID(storageProviderID)];
      Emit([Add(RequestWithSuccess, map[])]);
      if storageProviderID == BITSWAP_IDENTIFIER {
        Emit([Add(RequestWithBitswapSuccess, map[])]);
      } else {
        Emit([Add(RequestWithGraphSyncSuccess, map["sp_id" := storageProviderID])]);
      }
      // stats
      var transferDuration := Sub(eventTime, finalDetails.timeToFirstByte);
      Emit([Record(RetrievalDealDuration, Nanos(Sub(eventTime, finalDetails.startTime)), labels),
            Record(RetrievalDealSize, Amount(FloatToInt64(receivedSize)), labels),
            Record(BandwidthBytesPerSecond, Rate(receivedSize, transferDuration), labels)]);
      // averages
      Emit([Record(IndexerCandidatesPerRequest, Amount(finalDetails.indexerCandidates), map[]),
            Record(IndexerCandidatesFilteredPerRequest, Amount(finalDetails.indexerFiltered), map[]),
            Record(FailedRetrievalsPerRequest, Amount(finalDetails.failedCount), map[])]);
    }

    /** A timer goes off: the one thing that happens to the entries outside the handlers. */
    method TimerFires(timer: Timer)
      requires Valid() && timer in tempDataMap.timers && timer.armed
      modifies this, tempDataMap, tempDataMap.datas, tempDataMap.timers
      ensures Valid() && tempDataMap.datas == old(tempDataMap.datas) && tempDataMap.timers == old(tempDataMap.timers)
      ensures timer.id in old(lives) && old(lives)[timer.id].deadline == timer.deadline
      ensures lives == Close(old(lives), timer.id) && emitted == old(emitted)
    {
      tempDataMap.Fire(timer);
      SetLives(Close(lives, timer.id));
    }

    /** The timer of id goes off, if there is an entry. */
    method TimerOf(id: RetrievalID)
      requires Valid()
      modifies this, tempDataMap, tempDataMap.datas, tempDataMap.timers
      ensures Valid() && tempDataMap.datas == old(tempDataMap.datas) && tempDataMap.timers == old(tempDataMap.timers)
      ensures lives == Close(old(lives), id) && emitted == old(emitted)
    {
      if id in tempDataMap.internalMap {
        TimerFires(tempDataMap.internalMap[id].timer);
      } else {
        assert Close(lives, id) == lives;
      }
    }

    /** The v2 handler. */
    method HandleAggregatedEvent(c: Call, order: seq<string>)
      requires Valid() && IsOrder(order, c.attempts)
      modifies `emitted
      ensures Valid() && emitted == old(emitted) + Emissions(c, order)
    {
      Emit([Add(TotalRequestCount, map[])]);
      var l := VisitAttempts(c.attempts, order);
      ReportCall(c, l.lowestTTFBProtocol);
      Appended(old(emitted), [Add(TotalRequestCount, map[])], l.out, Closing(c, l.lowestTTFBProtocol));
    }

    /** What follows the loop. */
    method ReportCall(c: Call, lowestTTFBProtocol: string)
      requires Valid()
      modifies `emitted
      ensures Valid() && emitted == old(emitted) + Closing(c, lowestTTFBProtocol)
    {
      hide SuccessEmissions, BeforeOutcome;
      ReportFunnel(c, lowestTTFBProtocol);
      if c.success {
        ReportCallSuccess(c);
      } else if |c.attempts| == 0 {
        Emit([Add(RequestWithIndexerFailures, map[])]);
      }
    }

    method ReportFunnel(c: Call, lowestTTFBProtocol: string)
      requires Valid()
      modifies `emitted
      ensures Valid() && emitted == old(emitted) + BeforeOutcome(c, lowestTTFBProtocol)
    {
      if c.timeToFirstIndexerResult > 0 {
        Emit([Record(TimeToFirstIndexerResult, Nanos(c.timeToFirstIndexerResult), map[])]);
      }
      if c.indexerCandidates > 0 {
        Emit([Add(RequestWithIndexerCandidates, map[])]);
      }
      if c.indexerFiltered > 0 {
        Emit([Add(RequestWithIndexerCandidatesFiltered, map[])]);
      }
      if c.timeToFirstByte > 0 {
        Emit([Add(RequestWithFirstByteReceived, map["protocol" := lowestTTFBProtocol]),
              Record(TimeToFirstByte, Nanos(c.timeToFirstByte), map["protocol" := lowestTTFBProtocol])]);
      }
    }

    method ReportCallSuccess(c: Call)
      requires Valid()
      modifies `emitted
      ensures Valid() && emitted == old(emitted) + SuccessEmissions(c)
    {
      hide Sub;
      var failureCount := 0;
      var protocol := ProtocolFromMulticodec(c.protocolSucceeded);
      Emit([Add(RequestWithSuccess, SpLabels(protocol, c.storageProviderID, c.filSPID))]);
      if protocol == PROTOCOL_BITSWAP {
        Emit([Add(RequestWithBitswapSuccess, map["protocol" := "bitswap"])]);
      } else if protocol == PROTOCOL_GRAPHSYNC {
        Emit([Add(RequestWithGraphSyncSuccess, SpLabels("graphsync", c.storageProviderID, c.filSPID))]);
      } else if protocol == PROTOCOL_HTTP {
        Emit([Add(RequestWithHttpSuccess, SpLabels("http", c.storageProviderID, c.filSPID))]);
      }
      Emit([Record(RetrievalDealDuration, Nanos(Sub(c.endTime, c.startTime)), map["protocol" := protocol]),
            Record(RetrievalDealSize, Amount(c.bytesTransferred), map["protocol" := protocol]),
            Record(BandwidthBytesPerSecond, Amount(c.bandwidth), map["protocol" := protocol]),
            Record(IndexerCandidatesPerRequest, Amount(c.indexerCandidates), map[]),
            Record(IndexerCandidatesFilteredPerRequest, Amount(c.indexerFiltered), map[]),
            Record(FailedRetrievalsPerRequest, Amount(failureCount), map[])]);
    }

    /** The loop over the attempts, in the order the runtime picked; l.out is what it emitted. */
    method VisitAttempts(attempts: Attempts, order: seq<string>) returns (l: Loop)
      requires Valid() && forall sp | sp in order :: sp in attempts
      modifies `emitted
      ensures Valid() && l == VisitAll(attempts, order) && emitted == old(emitted) + l.out
    {
      l := Loop([], 0, "");
      for i := 0 to |order|
        invariant Valid()
        invariant l == VisitAll(attempts, order[..i]) && emitted == old(emitted) + l.out
      {
        l := VisitAttempt(order[i], attempts[order[i]], l, old(emitted));
        VisitNext(attempts, order, i);
      }
      assert order[..|order|] == order;
    }

    /** The body of the loop. */
    method VisitAttempt(storageProviderID: string, attempt: Attempt, before: Loop, ghost start: seq<Emission>) returns (l: Loop)
      requires Valid() && emitted == start + before.out
      modifies `emitted
      ensures Valid() && l == Visit(before, storageProviderID, attempt) && emitted == start + l.out
    {
      var protocolAttempted := ProtocolFromMulticodec(attempt.protocol);
      AttemptMade(storageProviderID, attempt, protocolAttempted);
      if attempt.error != "" {
        AttemptFailed(storageProviderID, attempt, protocolAttempted);
      }
      l := before.(out := before.out + VisitAdds(storageProviderID, attempt));
      if attempt.timeToFirstByte != 0 && (l.lowestTTFB == 0 || attempt.timeToFirstByte < l.lowestTTFB) {
        l := l.(lowestTTFB := attempt.timeToFirstByte, lowestTTFBProtocol := protocolAttempted);
      }
    }

    method AttemptMade(storageProviderID: string, attempt: Attempt, protocolAttempted: string)
      requires Valid() && protocolAttempted == ProtocolFromMulticodec(attempt.protocol)
      modifies `emitted
      ensures Valid() && emitted == old(emitted) + AttemptAdds(storageProviderID, attempt)
    {
      if protocolAttempted == PROTOCOL_BITSWAP {
        if storageProviderID != "Bitswap" {
          Emit([Add(RequestWithGraphSyncAttempt, SpLabels("bitswap", storageProviderID, attempt.filSPID))]);
        } else {
          Emit([Add(RequestWithBitswapAttempt, map["protocol" := "bitswap"])]);
        }
      } else if protocolAttempted == PROTOCOL_GRAPHSYNC {
        Emit([Add(RequestWithGraphSyncAttempt, SpLabels("graphsync", storageProviderID, attempt.filSPID))]);
      } else if protocolAttempted == PROTOCOL_HTTP {
        Emit([Add(RequestWithHttpAttempt, SpLabels("http", storageProviderID, attempt.filSPID))]);
      }
    }

    method AttemptFailed(storageProviderID: string, attempt: Attempt, protocolAttempted: string)
      requires Valid() && attempt.error != "" && protocolAttempted == ProtocolFromMulticodec(attempt.protocol)
      modifies `emitted
      ensures Valid() && emitted == old(emitted) + FailureAdds(storageProviderID, attempt)
    {
      if protocolAttempted == PROTOCOL_GRAPHSYNC {
        Emit([Add(GraphsyncRetrievalFailure, SpLabels("graphsync", storageProviderID, attempt.filSPID))]);
      } else if protocolAttempted == PROTOCOL_HTTP {
        Emit([Add(HttpRetrievalFailure, SpLabels("http", storageProviderID, attempt.filSPID))]);
      }
      CountError(attempt.error, protocolAttempted);
    }
  }

  lemma {:induction false} Appended(s: seq<Emission>, a: seq<Emission>, b: seq<Emission>, c: seq<Emission>)
    ensures s + a + b + c == s + (a + b + c)
  {
  }

  lemma {:induction false} VisitNext(attempts: Attempts, order: seq<string>, i: nat)
    requires i < |order| && forall sp | sp in order :: sp in attempts
    ensures VisitAll(attempts, order[..i + 1]) == Visit(VisitAll(attempts, order[..i]), order[i], attempts[order[i]])
  {
    assert order[..i + 1][..i] == order[..i];
  }

  lemma {:induction false} OpenThenClose(lives: Lives, id: RetrievalID, now: Time)
    ensures Close(Open(lives, id, now), id) == Close(lives, id)
  {
  }

  /** Only a start event can change the start time an entry reports. */
  lemma {:induction false} StartUnchanged(l: Life, e: LifeEvent)
    requires !e.Start?
    ensures Restored(Fold(l.events + [e]).startTime) == StartOf(l)
  {
  }
}
