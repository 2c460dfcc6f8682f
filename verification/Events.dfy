/** eventrecorder/event.go: what is recorded, and what Validate lets through. */
module Events {
  import opened GoTime
  import opened Instruments
  import opened Aggregate
  import H = Handlers

  const EMPTY_RETRIEVAL_ID := "00000000-0000-0000-0000-000000000000"
  const DAY := 24 * 3600 * NANOS_PER_SECOND

  datatype Code =
    | CandidatesFound | CandidatesFiltered | Started | Connected | QueryAsked | QueryAskedFiltered
    | Proposed | Accepted | FirstByte | Failed | Success
    | OtherCode(text: string)

  datatype Event = Event(
    retrievalID: string, instanceID: string, cid: string, storageProviderID: string,
    phase: H.Phase, phaseStartTime: Time, eventName: Code, eventTime: Time, eventDetails: H.Details)

  // Parsers of other packages
  datatype Parsers = Parsers(
    duration: string -> Option<Duration>,   // time.ParseDuration
    cid: string -> bool,                    // cid.Decode
    peer: string -> bool)                   // peer.ID.UnmarshalText

  predicate ValidPhase(phase: H.Phase) {
    !phase.OtherPhase?
  }

  /** Event.Validate: the first complaint, or None. The clock is read once for each of its two time checks. */
  function Validate(e: Event, now1: Time, now2: Time, p: Parsers): Option<string> {
    if e.retrievalID == EMPTY_RETRIEVAL_ID then Some("property retrievalId is required")
    else if e.instanceID == "" then Some("property instanceId is required")
    else if e.cid == "" then Some("property cid is required")
    else if e.phase == H.OtherPhase("") then Some("property phase is required")
    else if !ValidPhase(e.phase) then Some("phase must be one of")
    else if e.phaseStartTime == ZERO_TIME then Some("property phaseStartTime is required")
    else if e.phaseStartTime > now1 + DAY then Some("property phaseStartTime cannot be in the future")
    else if e.eventName == OtherCode("") then Some("property eventName is required")
    else if e.eventName.OtherCode? then Some("eventName must be one of")
    else if e.eventTime == ZERO_TIME then Some("property eventTime is required")
    else if e.eventTime > now2 + DAY then Some("property eventTime cannot be in the future")
    else if !p.cid(e.cid) then Some("cid must be valid")
    else None
  }

  /** An event passes if and only if it has all it needs, in a known phase, under a known name, not more than a day ahead. */
  lemma {:induction false} PassesValidation(e: Event, now1: Time, now2: Time, p: Parsers)
    ensures Validate(e, now1, now2, p) == None <==>
      && e.retrievalID != "00000000-0000-0000-0000-000000000000" && e.instanceID != "" && e.cid != "" && p.cid(e.cid)
      && e.phase in {H.IndexerPhase, H.QueryPhase, H.RetrievalPhase} && !e.eventName.OtherCode?
      && IsSet(e.phaseStartTime) && e.phaseStartTime - now1 <= 86_400_000_000_000
      && IsSet(e.eventTime) && e.eventTime - now2 <= 86_400_000_000_000
  {
  }

  /** A time other than the start of the year 1. */
  predicate IsSet(t: Time) {
    t != -62_135_596_800_000_000_000
  }

  predicate HasIDs(e: Event) {
    e.retrievalID != "00000000-0000-0000-0000-000000000000" && e.instanceID != "" && e.cid != ""
  }

  predicate HasPhase(e: Event, now1: Time) {
    !e.phase.OtherPhase? && IsSet(e.phaseStartTime) && e.phaseStartTime - now1 <= 86_400_000_000_000
  }

  /** A complaint is about a field that is missing or at fault, with all those checked before it in order. */
  lemma {:induction false} ComplaintIsFirstFault(e: Event, now1: Time, now2: Time, p: Parsers)
    ensures
      match Validate(e, now1, now2, p)
      case None => true
      case Some(complaint) =>
        match complaint
        case "property retrievalId is required" => e.retrievalID == "00000000-0000-0000-0000-000000000000"
        case "property instanceId is required" => e.instanceID == "" && e.retrievalID != "00000000-0000-0000-0000-000000000000"
        case "property cid is required" =>
          e.cid == "" && e.instanceID != "" && e.retrievalID != "00000000-0000-0000-0000-000000000000"
        case "property phase is required" => HasIDs(e) && e.phase == H.OtherPhase("")
        case "phase must be one of" => HasIDs(e) && e.phase.OtherPhase? && e.phase.text != ""
        case "property phaseStartTime is required" => HasIDs(e) && !e.phase.OtherPhase? && !IsSet(e.phaseStartTime)
        case "property phaseStartTime cannot be in the future" =>
          HasIDs(e) && !e.phase.OtherPhase? && IsSet(e.phaseStartTime) && e.phaseStartTime - now1 > 86_400_000_000_000
        case "property eventName is required" => HasIDs(e) && HasPhase(e, now1) && e.eventName == OtherCode("")
        case "eventName must be one of" => HasIDs(e) && HasPhase(e, now1) && e.eventName.OtherCode? && e.eventName.text != ""
        case "property eventTime is required" => HasIDs(e) && HasPhase(e, now1) && !e.eventName.OtherCode? && !IsSet(e.eventTime)
        case "property eventTime cannot be in the future" =>
          HasIDs(e) && HasPhase(e, now1) && !e.eventName.OtherCode? && IsSet(e.eventTime) && e.eventTime - now2 > 86_400_000_000_000
        case "cid must be valid" =>
          HasIDs(e) && HasPhase(e, now1) && !e.eventName.OtherCode? && IsSet(e.eventTime)
          && e.eventTime - now2 <= 86_400_000_000_000 && !p.cid(e.cid)
        case _ => false
  {
  }

  // The two clock readings taken for one event
  datatype Clock = Clock(now1: Time, now2: Time)

  /** EventBatch.Validate: the complaint about the first bad event. */
  method ValidateBatch(events: seq<Event>, clocks: seq<Clock>, p: Parsers) returns (err: Option<string>)
    requires |clocks| == |events|
    ensures err == None <==>
      events != [] && forall i | 0 <= i < |events| :: Validate(events[i], clocks[i].now1, clocks[i].now2, p) == None
    ensures events == [] ==> err == Some("property events is required")
    ensures err != None && events != [] ==>
      exists i | 0 <= i < |events| :: err == Validate(events[i], clocks[i].now1, clocks[i].now2, p)
        && forall j | 0 <= j < i :: Validate(events[j], clocks[j].now1, clocks[j].now2, p) == None
  {
    if |events| == 0 {
      return Some("property events is required");
    }
    for i := 0 to |events|
      invariant forall j | 0 <= j < i :: Validate(events[j], clocks[j].now1, clocks[j].now2, p) == None
    {
      err := Validate(events[i], clocks[i].now1, clocks[i].now2, p);
      if err != None {
        return err;
      }
    }
    return None;
  }

  datatype RetrievalAttempt = RetrievalAttempt(
    error: string, timeToFirstByte: string, bytesTransferred: uint64, protocol: string)

  datatype AggregateEvent = AggregateEvent(
    instanceID: string,
    retrievalID: string,
    storageProviderID: string,
    rootCid: string,
    urlPath: string,
    timeToFirstByte: string,
    bandwidth: uint64,
    bytesTransferred: uint64,
    success: bool,
    startTime: Time,
    endTime: Time,
    timeToFirstIndexerResult: string,
    indexerCandidatesReceived: int64,
    indexerCandidatesFiltered: int64,
    protocolsAllowed: seq<string>,
    protocolsAttempted: seq<string>,
    protocolSucceeded: string,
    retrievalAttempts: map<string, Option<RetrievalAttempt>>)   // None is a nil pointer

  // A duration field may be absent
  predicate DurationOk(s: string, p: Parsers) {
    s == "" || p.duration(s).Some?
  }

  predicate AttemptOk(a: Option<RetrievalAttempt>, p: Parsers) {
    a.Some? && DurationOk(a.value.timeToFirstByte, p)
  }

  /** What is wrong with an attempt, if anything. */
  function AttemptComplaint(a: Option<RetrievalAttempt>, p: Parsers): (complaint: Option<string>)
    ensures complaint == None <==> AttemptOk(a, p)
  {
    if a == None then Some("all retrieval attempts should have values")
    else if !DurationOk(a.value.timeToFirstByte, p) then Some("invalid duration")
    else None
  }

  /** What is wrong with the fields of the event itself, its attempts aside. */
  function FieldComplaint(e: AggregateEvent, p: Parsers): (complaint: Option<string>)
    ensures complaint == None && (forall k | k in e.retrievalAttempts :: AttemptOk(e.retrievalAttempts[k], p)) <==> Acceptable(e, p)
  {
    if e.retrievalID == "" then Some("property retrievalId is required")
    else if e.instanceID == "" then Some("property instanceId is required")
    else if e.startTime == ZERO_TIME then Some("property startTime is required")
    else if e.endTime == ZERO_TIME then Some("property endTime is required")
    else if e.endTime < e.startTime then Some("property endTime cannot be before startTime")
    else if !DurationOk(e.timeToFirstByte, p) || !DurationOk(e.timeToFirstIndexerResult, p) then Some("invalid duration")
    else None
  }

  /** The same for the fields of an aggregate event: the complaint is about one at fault, with those checked before it in order. */
  lemma {:induction false} FieldComplaintIsFirstFault(e: AggregateEvent, p: Parsers)
    ensures
      match FieldComplaint(e, p)
      case None => true
      case Some(complaint) =>
        var ids := e.retrievalID != "" && e.instanceID != "";
        match complaint
        case "property retrievalId is required" => e.retrievalID == ""
        case "property instanceId is required" => e.instanceID == "" && e.retrievalID != ""
        case "property startTime is required" => ids && !IsSet(e.startTime)
        case "property endTime is required" => ids && IsSet(e.startTime) && !IsSet(e.endTime)
        case "property endTime cannot be before startTime" =>
          ids && IsSet(e.startTime) && IsSet(e.endTime) && e.endTime < e.startTime
        case "invalid duration" =>
          && ids && IsSet(e.startTime) && IsSet(e.endTime) && e.startTime <= e.endTime
          && exists s | s in [e.timeToFirstByte, e.timeToFirstIndexerResult] :: s != "" && p.duration(s) == None
        case _ => false
    ensures forall a: Option<RetrievalAttempt> :: !AttemptOk(a, p) ==>
      AttemptComplaint(a, p) == Some(if a == None then "all retrieval attempts should have values" else "invalid duration")
  {
    var durations := [e.timeToFirstByte, e.timeToFirstIndexerResult];
    assert e.timeToFirstByte == durations[0] && e.timeToFirstIndexerResult == durations[1];
  }

  /** The complaint about an event whose attempts are looked at in this order. */
  ghost predicate IsComplaint(e: AggregateEvent, order: seq<string>, p: Parsers, err: Option<string>) {
    && err != None
    && (FieldComplaint(e, p) != None ==> err == FieldComplaint(e, p))
    && (FieldComplaint(e, p) == None ==>
          exists i | 0 <= i < |order| :: order[i] in e.retrievalAttempts
            && err == AttemptComplaint(e.retrievalAttempts[order[i]], p)
            && forall j | 0 <= j < i :: order[j] in e.retrievalAttempts && AttemptOk(e.retrievalAttempts[order[j]], p))
  }

  /**
   AggregateEvent.Validate; the attempts are looked at in the order the runtime
   picks. The order decides which bad attempt is complained about, not whether
   one is.
   */
  method ValidateAggregate(e: AggregateEvent, order: seq<string>, p: Parsers) returns (err: Option<string>)
    requires IsOrder(order, e.retrievalAttempts)
    ensures err == None <==> Acceptable(e, p)
    ensures err != None ==> IsComplaint(e, order, p, err)
  {
    if e.retrievalID == "" { return Some("property retrievalId is required"); }
    if e.instanceID == "" { return Some("property instanceId is required"); }
    if e.startTime == ZERO_TIME { return Some("property startTime is required"); }
    if e.endTime == ZERO_TIME { return Some("property endTime is required"); }
    if e.endTime < e.startTime { return Some("property endTime cannot be before startTime"); }
    if e.timeToFirstByte != "" && p.duration(e.timeToFirstByte) == None { return Some("invalid duration"); }
    if e.timeToFirstIndexerResult != "" && p.duration(e.timeToFirstIndexerResult) == None {
      return Some("invalid duration");
    }
    assert forall k | k in order :: k in e.retrievalAttempts;
    for i := 0 to |order|
      invariant forall j | 0 <= j < i :: order[j] in e.retrievalAttempts && AttemptOk(e.retrievalAttempts[order[j]], p)
    {
      var attempt := e.retrievalAttempts[order[i]];
      if attempt == None {
        return Some("all retrieval attempts should have values");
      }
      if attempt.value.timeToFirstByte != "" && p.duration(attempt.value.timeToFirstByte) == None {
        return Some("invalid duration");
      }
    }
    assert forall k | k in e.retrievalAttempts :: k in order;
    return None;
  }

  /** What Validate promises to the recorder, whatever order it looked in. */
  predicate Acceptable(e: AggregateEvent, p: Parsers) {
    && e.retrievalID != "" && e.instanceID != ""
    && IsSet(e.startTime) && IsSet(e.endTime) && e.startTime <= e.endTime
    && DurationOk(e.timeToFirstByte, p) && DurationOk(e.timeToFirstIndexerResult, p)
    && forall k | k in e.retrievalAttempts :: AttemptOk(e.retrievalAttempts[k], p)
  }

  /** AggregateEventBatch.Validate: only nonempty batches of acceptable events get through, else the first bad event is complained about. */
  method ValidateAggregateBatch(events: seq<AggregateEvent>, orders: seq<seq<string>>, p: Parsers) returns (err: Option<string>)
    requires |orders| == |events| && forall i | 0 <= i < |events| :: IsOrder(orders[i], events[i].retrievalAttempts)
    ensures err == None <==> events != [] && forall i | 0 <= i < |events| :: Acceptable(events[i], p)
    ensures events == [] ==> err == Some("property events is required")
    ensures err != None && events != [] ==>
      exists i | 0 <= i < |events| :: IsComplaint(events[i], orders[i], p, err)
        && forall j | 0 <= j < i :: Acceptable(events[j], p)
  {
    if |events| == 0 {
      return Some("property events is required");
    }
    for i := 0 to |events|
      invariant forall j | 0 <= j < i :: Acceptable(events[j], p)
    {
      err := ValidateAggregate(events[i], orders[i], p);
      if err != None {
        assert IsComplaint(events[i], orders[i], p, err);
        return err;
      }
    }
    return None;
  }

  /** The recorder follows attempt pointers without looking: it needs them all to be there. */
  predicate NoNilAttempt(e: AggregateEvent) {
    forall k | k in e.retrievalAttempts :: e.retrievalAttempts[k].Some?
  }

  function ParseOrZero(s: string, p: Parsers): Duration {
    if s == "" || p.duration(s) == None then 0 else p.duration(s).value
  }

  /** For an event that passed Validate, no nil pointer is followed and no parse error is dropped. */
  lemma {:induction false} AcceptedEventsAreSafe(e: AggregateEvent, p: Parsers, k: string)
    requires Acceptable(e, p)
    ensures NoNilAttempt(e)
    ensures e.timeToFirstByte != "" ==> p.duration(e.timeToFirstByte) == Some(ParseOrZero(e.timeToFirstByte, p))
    ensures k in e.retrievalAttempts && e.retrievalAttempts[k].value.timeToFirstByte != "" ==>
      p.duration(e.retrievalAttempts[k].value.timeToFirstByte) == Some(ParseOrZero(e.retrievalAttempts[k].value.timeToFirstByte, p))
  {
    if k in e.retrievalAttempts { assert AttemptOk(e.retrievalAttempts[k], p); }
    forall j | j in e.retrievalAttempts ensures e.retrievalAttempts[j].Some? { assert AttemptOk(e.retrievalAttempts[j], p); }
  }

  /** The handler event that RecordEvents makes of an event. */
  function Dispatched(e: Event): H.Event {
    match e.eventName
    case Started => H.StartedEvent(e.retrievalID, e.phase, e.storageProviderID, e.eventTime)
    case CandidatesFound => H.CandidatesFoundEvent(e.retrievalID, e.eventTime, e.eventDetails)
    case CandidatesFiltered => H.CandidatesFilteredEvent(e.retrievalID, e.eventDetails)
    case Failed => H.FailureEvent(e.retrievalID, e.phase, e.storageProviderID, e.eventDetails)
    case FirstByte => H.FirstByteEvent(e.retrievalID, e.storageProviderID, e.eventTime)
    case Success => H.SuccessEvent(e.retrievalID, e.eventTime, e.storageProviderID, e.eventDetails)
    case _ => H.UnhandledEvent(e.retrievalID)
  }
}
