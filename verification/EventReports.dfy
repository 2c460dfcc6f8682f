/**
 What a v1 event makes the instruments get, and its entry remember, in terms of
 the event as it was sent and of what happened to its entry before.
 */
module EventReports {
  import opened GoTime
  import opened Instruments
  import opened ErrorKinds
  import opened Lifetime
  import opened Handlers
  import opened Durations
  import CallReports
  import E = Events

  /** The details are an object in which this key has this number. */
  predicate HasNumber(details: Details, key: string, r: real) {
    details.Object? && key in details.fields && details.fields[key] == Number(r)
  }

  predicate HasText(details: Details, key: string, s: string) {
    details.Object? && key in details.fields && details.fields[key] == Text(s)
  }

  /** The event is handled to this effect. */
  function EffectOf(lives: Lives, now: Time, ev: E.Event): Effect {
    Handle(lives, now, E.Dispatched(ev))
  }

  /** Its entry is there and has seen one event more, or just been made. */
  predicate Remembers(lives: Lives, ev: E.Event, after: Lives, events: History) {
    && ev.retrievalID in after && after[ev.retrievalID].events == HistoryOf(lives, ev.retrievalID) + events
    && after.Keys == lives.Keys + {ev.retrievalID}
  }

  predicate NothingHappens(lives: Lives, effect: Effect) {
    effect == Effect(lives, [])
  }

  /** A start: of the request, or of the first attempt over bitswap or over another protocol. */
  lemma {:induction false} StartedReports(lives: Lives, now: Time, ev: E.Event)
    requires ev.eventName == E.Started
    ensures var h, effect := HistoryOf(lives, ev.retrievalID), EffectOf(lives, now, ev);
      match ev.phase
      case IndexerPhase =>
        effect.out == [Add(TotalRequestCount, map[])] && Remembers(lives, ev, effect.lives, [Start(Stored(ev.eventTime))])
      case RetrievalPhase =>
        if ev.storageProviderID == "Bitswap" then
          effect.out == (if BitswapAttempt in h then [] else [Add(RequestWithBitswapAttempt, map[])])
          && Remembers(lives, ev, effect.lives, [BitswapAttempt])
        else
          effect.out == (if GraphsyncAttempt in h then [] else [Add(RequestWithGraphSyncAttempt, map["sp_id" := ev.storageProviderID])])
          && Remembers(lives, ev, effect.lives, [GraphsyncAttempt])
      case _ => effect.out == [] && Remembers(lives, ev, effect.lives, [])
  {
    hide Fold;
  }

  /**
   A positive count of candidates, whose fraction goes: the counter and the
   histogram get one each if the count so far is 0 modulo 2^32, else nothing.
   */
  lemma {:induction false} CandidatesFoundReports(lives: Lives, now: Time, ev: E.Event, r: real) returns (n: int)
    requires ev.eventName == E.CandidatesFound && HasNumber(ev.eventDetails, "candidateCount", r) && r > 0.0
    ensures Truncates(r, n)
    ensures var h, effect := HistoryOf(lives, ev.retrievalID), EffectOf(lives, now, ev);
      && Remembers(lives, ev, effect.lives,
           [Candidates(Stored(ev.eventTime), if n < 0x8000_0000_0000_0000 then n % 0x1_0000_0000 else 0)])
      && if CandidateTotal(h) % 0x1_0000_0000 != 0 then effect.out == [] else
        && |effect.out| == 2 && Added(effect.out, RequestWithIndexerCandidates) == [map[]]
        && Recorded(effect.out, TimeToFirstIndexerResult) == [(Nanos(Sub(ev.eventTime, Restored(Fold(h).startTime))), map[])]
  {
    hide Fold, Added, Recorded, Sub;
    n := Uint32OfFloat(r);
    var record := Record(TimeToFirstIndexerResult,
                         Nanos(Sub(ev.eventTime, Restored(Fold(HistoryOf(lives, ev.retrievalID)).startTime))), map[]);
    Pair(Add(RequestWithIndexerCandidates, map[]), record);
  }

  lemma {:induction false} Pair(a: Emission, r: Emission)
    requires a.Add? && r.Record?
    ensures Added([a, r], a.counter) == [a.labels] && Recorded([a, r], r.histogram) == [(r.value, r.labels)]
  {
    hide Added, Recorded;
    OneMore(a, [r], a.counter, r.histogram);
    JustOne(r, a.counter, r.histogram);
    assert [a] + [r] == [a, r];
  }

  /** The same for filtered candidates, which have a counter only. */
  lemma {:induction false} CandidatesFilteredReports(lives: Lives, now: Time, ev: E.Event, r: real) returns (n: int)
    requires ev.eventName == E.CandidatesFiltered && HasNumber(ev.eventDetails, "candidateCount", r) && r > 0.0
    ensures Truncates(r, n)
    ensures var h, effect := HistoryOf(lives, ev.retrievalID), EffectOf(lives, now, ev);
      && Remembers(lives, ev, effect.lives, [Filtered(if n < 0x8000_0000_0000_0000 then n % 0x1_0000_0000 else 0)])
      && effect.out == if FilteredTotal(h) % 0x1_0000_0000 == 0 then [Add(RequestWithIndexerCandidatesFiltered, map[])] else []
  {
    hide Fold;
    n := Uint32OfFloat(r);
  }

  /** A first byte: the counter and the histogram get one each if no earlier one counted. */
  lemma {:induction false} FirstByteReports(lives: Lives, now: Time, ev: E.Event)
    requires ev.eventName == E.FirstByte
    ensures var h, effect := HistoryOf(lives, ev.retrievalID), EffectOf(lives, now, ev);
      var labels := map["protocol" := if ev.storageProviderID == "Bitswap" then "bitswap" else "graphsync"];
      && Remembers(lives, ev, effect.lives, [FirstByte(Stored(ev.eventTime))])
      && if GotFirstByte(h) then effect.out == [] else
        && |effect.out| == 2 && Added(effect.out, RequestWithFirstByteReceived) == [labels]
        && Recorded(effect.out, TimeToFirstByte) == [(Nanos(Sub(ev.eventTime, Restored(Fold(h).startTime))), labels)]
  {
    hide Fold, Added, Recorded, Sub;
    var labels := map["protocol" := if ev.storageProviderID == "Bitswap" then "bitswap" else "graphsync"];
    var record := Record(TimeToFirstByte, Nanos(Sub(ev.eventTime, Restored(Fold(HistoryOf(lives, ev.retrievalID)).startTime))), labels);
    Pair(Add(RequestWithFirstByteReceived, labels), record);
  }

  /**
   A failure with a text: in the indexer phase the request has failed and its
   entry goes; in the retrieval phase the error is counted by its kind, and over
   any protocol but bitswap the failure of the provider as well.
   */
  lemma {:induction false} FailedReports(lives: Lives, now: Time, ev: E.Event, msg: string)
    requires ev.eventName == E.Failed && HasText(ev.eventDetails, "error", msg)
    ensures var effect := EffectOf(lives, now, ev);
      match ev.phase
      case IndexerPhase => effect.out == [Add(RequestWithIndexerFailures, map[])] && effect.lives == lives - {ev.retrievalID}
      case RetrievalPhase =>
        && effect.lives == lives
        && effect.out ==
          if ev.storageProviderID == "Bitswap" then [Add(RetrievalError(KindOf(msg)), map["protocol" := "bitswap"])]
          else [Add(GraphsyncRetrievalFailure, map["sp_id" := ev.storageProviderID]),
                Add(RetrievalError(KindOf(msg)), map["protocol" := "graphsync"])]
      case _ => NothingHappens(lives, effect)
  {
    hide KindOf;
  }

  /** Everything else is passed over: other names, details without what the handler looks for, counts that are not positive. */
  lemma {:induction false} OthersReportNothing(lives: Lives, now: Time, ev: E.Event)
    requires match ev.eventName
      case Started => false
      case FirstByte => false
      case CandidatesFound => forall r | r > 0.0 :: !HasNumber(ev.eventDetails, "candidateCount", r)
      case CandidatesFiltered => forall r | r > 0.0 :: !HasNumber(ev.eventDetails, "candidateCount", r)
      case Failed => forall msg :: !HasText(ev.eventDetails, "error", msg)
      case Success => forall r :: !HasNumber(ev.eventDetails, "receivedSize", r)
      case _ => true
    ensures NothingHappens(lives, EffectOf(lives, now, ev))
  {
    var d := ev.eventDetails;
    if d.Object? && "candidateCount" in d.fields && d.fields["candidateCount"].Number? {
      assert HasNumber(d, "candidateCount", d.fields["candidateCount"].r);
    }
    if d.Object? && "receivedSize" in d.fields && d.fields["receivedSize"].Number? {
      assert HasNumber(d, "receivedSize", d.fields["receivedSize"].r);
    }
    if d.Object? && "error" in d.fields && d.fields["error"].Text? {
      assert HasText(d, "error", d.fields["error"].s);
    }
  }

  // ---------- success ----------

  lemma {:induction false} SuccessRecords(
      a: Emission, b: Emission, r1: Emission, r2: Emission, r3: Emission, r4: Emission, r5: Emission, r6: Emission, h: Histogram)
    requires a.Add? && b.Add? && r1.Record? && r2.Record? && r3.Record? && r4.Record? && r5.Record? && r6.Record?
    requires r1.histogram == RetrievalDealDuration && r2.histogram == RetrievalDealSize && r3.histogram == BandwidthBytesPerSecond
    requires r4.histogram == IndexerCandidatesPerRequest && r5.histogram == IndexerCandidatesFilteredPerRequest
    requires r6.histogram == FailedRetrievalsPerRequest
    ensures Recorded([a, b, r1, r2, r3, r4, r5, r6], h) ==
      match h
      case RetrievalDealDuration => [(r1.value, r1.labels)]
      case RetrievalDealSize => [(r2.value, r2.labels)]
      case BandwidthBytesPerSecond => [(r3.value, r3.labels)]
      case IndexerCandidatesPerRequest => [(r4.value, r4.labels)]
      case IndexerCandidatesFilteredPerRequest => [(r5.value, r5.labels)]
      case FailedRetrievalsPerRequest => [(r6.value, r6.labels)]
      case _ => []
  {
    hide Recorded;
    CallReports.SixRecords(r1, r2, r3, r4, r5, r6, TotalRequestCount, h);
    OneMore(a, [b, r1, r2, r3, r4, r5, r6], TotalRequestCount, h);
    OneMore(b, [r1, r2, r3, r4, r5, r6], TotalRequestCount, h);
    assert [a] + [b, r1, r2, r3, r4, r5, r6] == [a, b, r1, r2, r3, r4, r5, r6];
    assert [b] + [r1, r2, r3, r4, r5, r6] == [b, r1, r2, r3, r4, r5, r6];
  }

  lemma {:induction false} ReportedValues(eventTime: Time, spID: string, size: real, f: FinalValues)
    ensures var out := SuccessReport(eventTime, spID, size, f);
      var labels := map["protocol" := if spID == "Bitswap" then "bitswap" else "graphsync"];
      && |out| == 8
      && out[0] == Add(RequestWithSuccess, map[])
      && out[1] == (if spID == "Bitswap" then Add(RequestWithBitswapSuccess, map[])
                    else Add(RequestWithGraphSyncSuccess, map["sp_id" := spID]))
      && Recorded(out, IndexerCandidatesPerRequest) == [(Amount(f.indexerCandidates), map[])]
      && Recorded(out, IndexerCandidatesFilteredPerRequest) == [(Amount(f.indexerFiltered), map[])]
      && Recorded(out, FailedRetrievalsPerRequest) == [(Amount(f.failedCount), map[])]
      && Recorded(out, RetrievalDealSize) == [(Amount(FloatToInt64(size)), labels)]
      && Recorded(out, RetrievalDealDuration) == [(Nanos(Sub(eventTime, f.startTime)), labels)]
      && Recorded(out, BandwidthBytesPerSecond) == [(Rate(size, Sub(eventTime, f.timeToFirstByte)), labels)]
  {
    hide Recorded, Sub, FloatToInt64;
    var out := SuccessReport(eventTime, spID, size, f);
    assert out == [out[0], out[1], out[2], out[3], out[4], out[5], out[6], out[7]];
    forall g { SuccessRecords(out[0], out[1], out[2], out[3], out[4], out[5], out[6], out[7], g); }
  }

  /**
   A success with a size, on whatever entry: it goes, and each histogram of a
   finished request gets one value, read off the history of the entry.
   */
  lemma {:induction false} SuccessReports(lives: Lives, now: Time, ev: E.Event, r: real) returns (size: int)
    requires ev.eventName == E.Success && HasNumber(ev.eventDetails, "receivedSize", r)
    ensures Truncates(r, size)
    ensures var h, effect := HistoryOf(lives, ev.retrievalID), EffectOf(lives, now, ev); var out := effect.out;
      var labels := map["protocol" := if ev.storageProviderID == "Bitswap" then "bitswap" else "graphsync"];
      && effect.lives == lives - {ev.retrievalID} && |out| == 8
      && out[0] == Add(RequestWithSuccess, map[])
      && out[1] == (if ev.storageProviderID == "Bitswap" then Add(RequestWithBitswapSuccess, map[])
                    else Add(RequestWithGraphSyncSuccess, map["sp_id" := ev.storageProviderID]))
      && Recorded(out, IndexerCandidatesPerRequest) == [(Amount(CandidateTotal(h) % 0x1_0000_0000), map[])]
      && Recorded(out, IndexerCandidatesFilteredPerRequest) == [(Amount(FilteredTotal(h) % 0x1_0000_0000), map[])]
      && Recorded(out, FailedRetrievalsPerRequest) == [(Amount(FailedTotal(h) % 0x1_0000_0000), map[])]
      && Recorded(out, RetrievalDealSize) == [(Amount(
           if -0x8000_0000_0000_0000 <= size < 0x8000_0000_0000_0000 then size else -0x8000_0000_0000_0000), labels)]
      && Recorded(out, RetrievalDealDuration) == [(Nanos(Sub(ev.eventTime, Restored(Fold(h).startTime))), labels)]
      && Recorded(out, BandwidthBytesPerSecond) == [(Rate(r, Sub(ev.eventTime, Restored(Fold(h).ttfbTime))), labels)]
  {
    hide Fold, Recorded, Sub, FloatToInt64, Restored, SuccessReport;
    size := Int64OfFloat(r);
    var f := Finals(Fold(HistoryOf(lives, ev.retrievalID)));
    FinalsMean(HistoryOf(lives, ev.retrievalID));
    assert EffectOf(lives, now, ev).out == SuccessReport(ev.eventTime, ev.storageProviderID, r, f);
    ReportedValues(ev.eventTime, ev.storageProviderID, r, f);
  }
}
