/**
 The v1 handlers over the plain meaning of the TempDataMap: a map from
 retrieval ID to the events of its current lifetime. "First" is decided by the
 history, not by the fields of a TempData.
 */
module Handlers {
  import opened GoTime
  import opened Instruments
  import opened ErrorKinds
  import opened Lifetime
  import opened Aggregate

  const TIMEOUT: Duration := 60 * NANOS_PER_SECOND

  type RetrievalID = string

  datatype Phase = IndexerPhase | QueryPhase | RetrievalPhase | OtherPhase(text: string)

  // A decoded `details` value, as far as the handlers look into it
  datatype Json = Text(s: string) | Number(r: real) | OtherJson
  datatype Details = NotAnObject | Object(fields: map<string, Json>)

  datatype Event =
    | FailureEvent(id: RetrievalID, phase: Phase, storageProviderID: string, details: Details)
    | StartedEvent(id: RetrievalID, phase: Phase, storageProviderID: string, time: Time)
    | CandidatesFoundEvent(id: RetrievalID, time: Time, details: Details)
    | CandidatesFilteredEvent(id: RetrievalID, details: Details)
    | FirstByteEvent(id: RetrievalID, storageProviderID: string, time: Time)
    | SuccessEvent(id: RetrievalID, time: Time, storageProviderID: string, details: Details)
    | UnhandledEvent(id: RetrievalID)

  function TextField(details: Details, key: string): Option<string> {
    if details.Object? && key in details.fields && details.fields[key].Text? then Some(details.fields[key].s) else None
  }

  function NumberField(details: Details, key: string): Option<real> {
    if details.Object? && key in details.fields && details.fields[key].Number? then Some(details.fields[key].r) else None
  }

  // Float conversions truncate toward zero. Out of range Go leaves the result to the platform; this is amd64.
  function FloatToUint32(r: real): uint32
    requires r >= 0.0
  {
    if r.Floor < TWO_63 then r.Floor % TWO_32 else 0
  }

  function FloatToInt64(r: real): int64 {
    var n := if r < 0.0 then -((-r).Floor) else r.Floor;
    if -TWO_63 <= n < TWO_63 then n else -TWO_63
  }

  function ProtocolFromSpID(storageProviderID: string): string {
    if storageProviderID == BITSWAP_IDENTIFIER then PROTOCOL_BITSWAP else PROTOCOL_GRAPHSYNC
  }

  // ---------- entries ----------

  // The events since the entry was created, and when its timer is due
  datatype Life = Life(events: History, deadline: Time)
  type Lives = map<RetrievalID, Life>

  function Open(lives: Lives, id: RetrievalID, now: Time): Lives {
    if id in lives then lives else lives[id := Life([], now + TIMEOUT)]
  }

  function Note(lives: Lives, id: RetrievalID, e: LifeEvent): Lives
    requires id in lives
  {
    lives[id := lives[id].(events := lives[id].events + [e])]
  }

  function Close(lives: Lives, id: RetrievalID): Lives {
    lives - {id}
  }

  function StartOf(l: Life): Time {
    Restored(Fold(l.events).startTime)
  }

  // ---------- handlers ----------

  datatype Effect = Effect(lives: Lives, out: seq<Emission>)

  function HandleFailure(lives: Lives, now: Time, e: Event): Effect
    requires e.FailureEvent?
  {
    match TextField(e.details, "error")
    case None => Effect(lives, [])
    case Some(msg) =>
      match e.phase
      case IndexerPhase => Effect(Close(lives, e.id), [Add(RequestWithIndexerFailures, map[])])
      case RetrievalPhase => Effect(lives, RetrievalFailure(e.storageProviderID, msg))
      case _ => Effect(lives, [])
  }

  function RetrievalFailure(storageProviderID: string, msg: string): seq<Emission> {
    (if storageProviderID != BITSWAP_IDENTIFIER
     then [Add(GraphsyncRetrievalFailure, map["sp_id" := storageProviderID])] else [])
    + [Add(RetrievalError(KindOf(msg)), map["protocol" := ProtocolFromSpID(storageProviderID)])]
  }

  function HandleStarted(lives: Lives, now: Time, e: Event): Effect
    requires e.StartedEvent?
  {
    var live := Open(lives, e.id, now);
    var h := live[e.id].events;
    match e.phase
    case IndexerPhase => Effect(Note(live, e.id, Start(Stored(e.time))), [Add(TotalRequestCount, map[])])
    case RetrievalPhase =>
      if e.storageProviderID == BITSWAP_IDENTIFIER then
        Effect(Note(live, e.id, BitswapAttempt),
               if First(h, BitswapAttempt) then [Add(RequestWithBitswapAttempt, map[])] else [])
      else
        Effect(Note(live, e.id, GraphsyncAttempt),
               if First(h, GraphsyncAttempt)
               then [Add(RequestWithGraphSyncAttempt, map["sp_id" := e.storageProviderID])] else [])
    case _ => Effect(live, [])
  }

  function HandleCandidatesFound(lives: Lives, now: Time, e: Event): Effect
    requires e.CandidatesFoundEvent?
  {
    match NumberField(e.details, "candidateCount")
    case None => Effect(lives, [])
    case Some(count) =>
      if count <= 0.0 then Effect(lives, [])
      else
        var live := Open(lives, e.id, now);
        var found := Candidates(Stored(e.time), FloatToUint32(count));
        Effect(Note(live, e.id, found),
               if First(live[e.id].events, found) then
                 [Add(RequestWithIndexerCandidates, map[]),
                  Record(TimeToFirstIndexerResult, Nanos(Sub(e.time, StartOf(live[e.id]))), map[])]
               else [])
  }

  function HandleCandidatesFiltered(lives: Lives, now: Time, e: Event): Effect
    requires e.CandidatesFilteredEvent?
  {
    match NumberField(e.details, "candidateCount")
    case None => Effect(lives, [])
    case Some(count) =>
      if count <= 0.0 then Effect(lives, [])
      else
        var live := Open(lives, e.id, now);
        var filtered := Filtered(FloatToUint32(count));
        Effect(Note(live, e.id, filtered),
               if First(live[e.id].events, filtered) then [Add(RequestWithIndexerCandidatesFiltered, map[])] else [])
  }

  function HandleTimeToFirstByte(lives: Lives, now: Time, e: Event): Effect
    requires e.FirstByteEvent?
  {
    var live := Open(lives, e.id, now);
    var byte := FirstByte(Stored(e.time));
    var labels := map["protocol" := ProtocolFromSpID(e.storageProviderID)];
    Effect(Note(live, e.id, byte),
           if First(live[e.id].events, byte) then
             [Add(RequestWithFirstByteReceived, labels),
              Record(TimeToFirstByte, Nanos(Sub(e.time, StartOf(live[e.id]))), labels)]
           else [])
  }

  function HandleSuccess(lives: Lives, now: Time, e: Event): Effect
    requires e.SuccessEvent?
  {
    match NumberField(e.details, "receivedSize")
    case None => Effect(lives, [])
    case Some(size) =>
      var h := if e.id in lives then lives[e.id].events else [];
      Effect(Close(lives, e.id), SuccessReport(e.time, e.storageProviderID, size, Finals(Fold(h))))
  }

  function SuccessReport(time: Time, storageProviderID: string, size: real, f: FinalValues): seq<Emission> {
    var labels := map["protocol" := ProtocolFromSpID(storageProviderID)];
    [Add(RequestWithSuccess, map[]),
     if storageProviderID == BITSWAP_IDENTIFIER then Add(RequestWithBitswapSuccess, map[])
     else Add(RequestWithGraphSyncSuccess, map["sp_id" := storageProviderID]),
     Record(RetrievalDealDuration, Nanos(Sub(time, f.startTime)), labels),
     Record(RetrievalDealSize, Amount(FloatToInt64(size)), labels),
     Record(BandwidthBytesPerSecond, Rate(size, Sub(time, f.timeToFirstByte)), labels),
     Record(IndexerCandidatesPerRequest, Amount(f.indexerCandidates), map[]),
     Record(IndexerCandidatesFilteredPerRequest, Amount(f.indexerFiltered), map[]),
     Record(FailedRetrievalsPerRequest, Amount(f.failedCount), map[])]
  }

  /** One event through the handler that RecordEvents dispatches it to. */
  function Handle(lives: Lives, now: Time, e: Event): Effect {
    match e
    case FailureEvent(_, _, _, _) => HandleFailure(lives, now, e)
    case StartedEvent(_, _, _, _) => HandleStarted(lives, now, e)
    case CandidatesFoundEvent(_, _, _) => HandleCandidatesFound(lives, now, e)
    case CandidatesFilteredEvent(_, _) => HandleCandidatesFiltered(lives, now, e)
    case FirstByteEvent(_, _, _) => HandleTimeToFirstByte(lives, now, e)
    case SuccessEvent(_, _, _, _) => HandleSuccess(lives, now, e)
    case UnhandledEvent(_) => Effect(lives, [])
  }

  /** Does the handler of e get as far as GetOrCreate? */
  predicate Touches(e: Event) {
    match e
    case FailureEvent(_, phase, _, details) => TextField(details, "error").Some? && phase == IndexerPhase
    case StartedEvent(_, _, _, _) => true
    case CandidatesFoundEvent(_, _, details) =>
      NumberField(details, "candidateCount").Some? && NumberField(details, "candidateCount").value > 0.0
    case CandidatesFilteredEvent(_, details) =>
      NumberField(details, "candidateCount").Some? && NumberField(details, "candidateCount").value > 0.0
    case FirstByteEvent(_, _, _) => true
    case SuccessEvent(_, _, _, details) => NumberField(details, "receivedSize").Some?
    case UnhandledEvent(_) => false
  }

  /** Does the handler of e end the lifetime? */
  predicate Ends(e: Event) {
    Touches(e) && (e.FailureEvent? || e.SuccessEvent?)
  }

  /** A handler leaves the entries of other IDs alone, and its own outcome depends on its own entry only. */
  lemma {:induction false} HandleIsLocal(lives: Lives, now: Time, e: Event, small: Lives)
    requires e.id in lives <==> e.id in small
    requires e.id in lives ==> lives[e.id] == small[e.id]
    ensures Handle(lives, now, e).out == Handle(small, now, e).out
    ensures e.id in Handle(lives, now, e).lives <==> e.id in Handle(small, now, e).lives
    ensures e.id in Handle(lives, now, e).lives ==>
      Handle(lives, now, e).lives[e.id] == Handle(small, now, e).lives[e.id]
    ensures forall id | id != e.id :: id in Handle(lives, now, e).lives <==> id in lives
    ensures forall id | id != e.id && id in lives :: Handle(lives, now, e).lives[id] == lives[id]
  {
    hide Fold, Finals, SuccessReport, First, KindOf, ProtocolFromSpID, FloatToUint32;
  }

  /** Which entries exist after a handler. */
  lemma {:induction false} HandleDomain(lives: Lives, now: Time, e: Event)
    ensures Handle(lives, now, e).lives.Keys ==
      if !Touches(e) then lives.Keys else if Ends(e) then lives.Keys - {e.id} else lives.Keys + {e.id}
  {
  }

  /** n is r without its fraction. */
  predicate Truncates(r: real, n: int) {
    if r >= 0.0 then n as real <= r < (n + 1) as real else (n - 1) as real < r <= n as real
  }

  /** The conversion to 32 bits: within 64 bits the fraction goes and the low 32 bits stay, beyond it is 0. */
  lemma {:induction false} Uint32OfFloat(r: real) returns (n: int)
    requires r >= 0.0
    ensures Truncates(r, n)
    ensures FloatToUint32(r) == if n < 0x8000_0000_0000_0000 then n % 0x1_0000_0000 else 0
  {
    n := r.Floor;
  }

  /** The conversion to 64 bits: the fraction goes; out of range it is the lowest number. */
  lemma {:induction false} Int64OfFloat(r: real) returns (n: int)
    ensures Truncates(r, n)
    ensures FloatToInt64(r) == if -0x8000_0000_0000_0000 <= n < 0x8000_0000_0000_0000 then n else -0x8000_0000_0000_0000
  {
    n := if r < 0.0 then -((-r).Floor) else r.Floor;
  }
}
