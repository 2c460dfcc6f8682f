/** eventrecorder/recorder.go: both record methods, with their batches and their metrics. */
module Recorder {
  import opened GoTime
  import opened Instruments
  import opened Aggregate
  import H = Handlers
  import R = Runs
  import opened MetricsHandlers
  import opened Events
  import opened FanOut
  import opened Tables

  // ---------- what one aggregated event comes to ----------

  // What the SP map answers, and the orders the runtime picks, while one event is recorded
  datatype Env = Env(ownAnswer: string, answers: Answers, lockOrder: seq<string>, visitOrder: seq<string>)

  predicate Fits(e: AggregateEvent, env: Env) {
    && NoNilAttempt(e)
    && AnswersAll(e, env.answers)
    && IsOrder(env.lockOrder, e.retrievalAttempts)
    && IsOrder(env.visitOrder, e.retrievalAttempts)
  }

  predicate FitAll(events: seq<AggregateEvent>, envs: seq<Env>) {
    |envs| == |events| && forall i | 0 <= i < |events| :: Fits(events[i], envs[i])
  }

  function EventRowOf(e: AggregateEvent, env: Env, p: Parsers): AggregateRow {
    AggregateRow(e.(retrievalAttempts := map[]), FilSPID(e.storageProviderID, env.ownAnswer, p),
                 ParseOrZero(e.timeToFirstByte, p), ParseOrZero(e.timeToFirstIndexerResult, p))
  }

  function CallOf(e: AggregateEvent, env: Env, p: Parsers): Call
    requires Fits(e, env)
  {
    Call(ParseOrZero(e.timeToFirstIndexerResult, p), ParseOrZero(e.timeToFirstByte, p), e.success,
         e.storageProviderID, FilSPID(e.storageProviderID, env.ownAnswer, p), e.startTime, e.endTime,
         ToInt64(e.bandwidth), ToInt64(e.bytesTransferred), e.indexerCandidatesReceived, e.indexerCandidatesFiltered,
         AttemptsOf(e, env.answers, p), e.protocolSucceeded)
  }

  function AttemptRowsOf(e: AggregateEvent, env: Env, p: Parsers): seq<AttemptRow>
    requires Fits(e, env)
  {
    RowsOf(e, env.lockOrder, env.answers, p)
  }

  /**
   The row of an event and the arguments of its HandleAggregatedEvent, field by
   field. Both have the SP ID that the SP map answered, if the event names a
   provider whose peer ID parses, and none otherwise.
   */
  lemma {:induction false} EventIsCarried(e: AggregateEvent, env: Env, p: Parsers)
    requires Fits(e, env)
    ensures var row, call := EventRowOf(e, env, p), CallOf(e, env, p);
      && row.event == e.(retrievalAttempts := map[])
      && IsDuration(row.timeToFirstByte, e.timeToFirstByte, p)
      && IsDuration(row.timeToFirstIndexerResult, e.timeToFirstIndexerResult, p)
      && call.timeToFirstByte == row.timeToFirstByte && call.timeToFirstIndexerResult == row.timeToFirstIndexerResult
      && call.success == e.success && call.storageProviderID == e.storageProviderID
      && call.startTime == e.startTime && call.endTime == e.endTime && call.protocolSucceeded == e.protocolSucceeded
      && call.indexerCandidates == e.indexerCandidatesReceived && call.indexerFiltered == e.indexerCandidatesFiltered
      && call.bandwidth == (if e.bandwidth < 0x8000_0000_0000_0000 then e.bandwidth else e.bandwidth - 0x1_0000_0000_0000_0000)
      && call.bytesTransferred ==
           (if e.bytesTransferred < 0x8000_0000_0000_0000 then e.bytesTransferred else e.bytesTransferred - 0x1_0000_0000_0000_0000)
      && row.filSPID == call.filSPID
      && row.filSPID == (if p.peer(e.storageProviderID) && e.storageProviderID != "" && e.storageProviderID != "Bitswap"
                         then env.ownAnswer else "")
  {
  }

  /** The attempts of that call, field by field. */
  lemma {:induction false} AttemptIsCarried(e: AggregateEvent, env: Env, p: Parsers, sp: string)
    requires Fits(e, env)
    ensures sp in CallOf(e, env, p).attempts <==> sp in e.retrievalAttempts
    ensures sp in e.retrievalAttempts ==>
      var sent, kept := e.retrievalAttempts[sp].value, CallOf(e, env, p).attempts[sp];
      && kept.error == sent.error && kept.protocol == sent.protocol && kept.bytesTransferred == sent.bytesTransferred
      && IsDuration(kept.timeToFirstByte, sent.timeToFirstByte, p)
      && kept.filSPID == if p.peer(sp) && sp != "" && sp != "Bitswap" then env.answers[sp] else ""
  {
  }

  // What the first n events come to

  function EventRows(events: seq<AggregateEvent>, envs: seq<Env>, p: Parsers, n: nat): (rows: seq<AggregateRow>)
    requires FitAll(events, envs) && n <= |events|
  {
    if n == 0 then [] else EventRows(events, envs, p, n - 1) + [EventRowOf(events[n - 1], envs[n - 1], p)]
  }

  lemma {:induction false} EventRowAt(events: seq<AggregateEvent>, envs: seq<Env>, p: Parsers, n: nat)
    requires FitAll(events, envs) && n <= |events|
    ensures |EventRows(events, envs, p, n)| == n
    ensures forall k | 0 <= k < n :: EventRows(events, envs, p, n)[k] == EventRowOf(events[k], envs[k], p)
  {
    if n > 0 { EventRowAt(events, envs, p, n - 1); }
  }

  /** The attempt rows, those of an earlier event first. */
  function AttemptRows(events: seq<AggregateEvent>, envs: seq<Env>, p: Parsers, n: nat): seq<AttemptRow>
    requires FitAll(events, envs) && n <= |events|
  {
    if n == 0 then [] else AttemptRows(events, envs, p, n - 1) + AttemptRowsOf(events[n - 1], envs[n - 1], p)
  }

  /** What the instruments have been told after the first n events, if they had been told this much before. */
  function EmittedAfter(before: seq<Emission>, events: seq<AggregateEvent>, envs: seq<Env>, p: Parsers, n: nat): seq<Emission>
    requires FitAll(events, envs) && n <= |events|
  {
    if n == 0 then before
    else EmittedAfter(before, events, envs, p, n - 1) + Emissions(CallOf(events[n - 1], envs[n - 1], p), envs[n - 1].visitOrder)
  }

  function V2Step(e: AggregateEvent, env: Env, p: Parsers): R.Step
    requires Fits(e, env)
  {
    R.V2(e.retrievalID, CallOf(e, env, p), env.visitOrder)
  }

  /** The same as steps of a run: one v2 call for each event, whatever becomes of its rows. */
  function V2Steps(events: seq<AggregateEvent>, envs: seq<Env>, p: Parsers, n: nat): seq<R.Step>
    requires FitAll(events, envs) && n <= |events|
  {
    if n == 0 then []
    else V2Steps(events, envs, p, n - 1) + [V2Step(events[n - 1], envs[n - 1], p)]
  }

  /** So the theorems about runs speak of what this recorder emits, event by event. */
  lemma {:induction false} EmittedIsRun(
      before: seq<Emission>, lives: H.Lives, events: seq<AggregateEvent>, envs: seq<Env>, p: Parsers, n: nat)
    requires FitAll(events, envs) && n <= |events|
    ensures var run := R.Run(lives, V2Steps(events, envs, p, n));
      EmittedAfter(before, events, envs, p, n) == before + run.out && run.lives == lives
  {
    hide Fits, CallOf, Emissions;
    if n == 0 {
      Everything(before);
    } else {
      var e, env := events[n - 1], envs[n - 1];
      var head := V2Steps(events, envs, p, n - 1);
      var step := V2Step(e, env, p);
      EmittedIsRun(before, lives, events, envs, p, n - 1);
      R.RunAppend(lives, head, [step]);
      R.RunOne(lives, step);
      R.OutAssociates(before, R.Run(lives, head).out, Emissions(CallOf(e, env, p), env.visitOrder));
    }
  }

  // ---------- the two batches ----------

  // Does the database take the first and the second batch, as far as its connection is concerned?
  datatype Net = Net(first: bool, second: bool)

  /** Both batches, one after the other: the tables then, and whether an error is returned. */
  function SendBoth(db: Db, events: seq<AggregateRow>, attempts: seq<AttemptRow>, uuid: UuidParser, net: Net): (Db, bool) {
    if !net.first then (db, true)
    else
      match InsertEvents(db, events, uuid)
      case None => (db, true)
      case Some(mid) =>
        if !net.second then (mid, true)
        else
          match InsertAttempts(mid, attempts, uuid)
          case None => (mid, true)
          case Some(after) => (after, false)
  }

  /** The rows of its attempts, field by field, one for each in the order the lock was taken. */
  lemma {:induction false} RowIsCarried(e: AggregateEvent, env: Env, p: Parsers, i: nat)
    requires Fits(e, env)
    ensures |AttemptRowsOf(e, env, p)| == |env.lockOrder| == |e.retrievalAttempts|
    ensures i < |env.lockOrder| ==>
      var row, sp := AttemptRowsOf(e, env, p)[i], env.lockOrder[i];
      && row.retrievalID == e.retrievalID && row.storageProviderID == sp && sp in e.retrievalAttempts
      && var sent := e.retrievalAttempts[sp].value;
        && row.error == sent.error && row.protocol == sent.protocol && row.bytesTransferred == sent.bytesTransferred
        && IsDuration(row.timeToFirstByte, sent.timeToFirstByte, p)
        && row.filSPID == if p.peer(sp) && sp != "" && sp != "Bitswap" then env.answers[sp] else ""
  {
    OrderLength(env.lockOrder, e.retrievalAttempts);
    if i < |env.lockOrder| { assert env.lockOrder[i] in (set k | k in env.lockOrder); }
  }

  lemma {:induction false} OrderLength<V>(order: seq<string>, m: map<string, V>)
    requires IsOrder(order, m)
    ensures |order| == |m|
  {
    DistinctLength(order);
    assert (set k | k in order) == m.Keys;
    assert |m| == |m.Keys|;
  }

  lemma {:induction false} DistinctLength(order: seq<string>)
    requires Distinct(order)
    ensures |set k | k in order| == |order|
  {
    if order != [] {
      var front, last := order[..|order| - 1], order[|order| - 1];
      DistinctLength(front);
      assert order == front + [last];
      assert (set k | k in order) == (set k | k in front) + {last};
      assert last !in front;
    }
  }

  lemma {:induction false} RowsCarryTheId(e: AggregateEvent, env: Env, p: Parsers, i: nat)
    requires Fits(e, env) && i < |AttemptRowsOf(e, env, p)|
    ensures AttemptRowsOf(e, env, p)[i].retrievalID == e.retrievalID
  {
  }

  lemma {:induction false} AttemptRowsHaveParents(events: seq<AggregateEvent>, envs: seq<Env>, p: Parsers, n: nat, i: nat)
    requires FitAll(events, envs) && n <= |events| && i < |AttemptRows(events, envs, p, n)|
    ensures exists k | 0 <= k < n :: events[k].retrievalID == AttemptRows(events, envs, p, n)[i].retrievalID
  {
    hide Fits, AttemptRowsOf;
    var front, last := AttemptRows(events, envs, p, n - 1), AttemptRowsOf(events[n - 1], envs[n - 1], p);
    if i < |front| {
      AttemptRowsHaveParents(events, envs, p, n - 1, i);
      assert AttemptRows(events, envs, p, n)[i] == front[i];
    } else {
      RowsCarryTheId(events[n - 1], envs[n - 1], p, i - |front|);
      assert AttemptRows(events, envs, p, n)[i] == last[i - |front|];
    }
  }

  /**
   Once the batch of events is in, the batch of attempts cannot break the
   foreign key: every queued attempt has its event in the batch before it.
   */
  lemma {:induction false} ReferentialIntegrity(db: Db, events: seq<AggregateEvent>, envs: seq<Env>, p: Parsers, uuid: UuidParser)
    requires FitAll(events, envs) && InsertEvents(db, EventRows(events, envs, p, |events|), uuid).Some?
    ensures InsertAttempts(InsertEvents(db, EventRows(events, envs, p, |events|), uuid).value, AttemptRows(events, envs, p, |events|), uuid).Some?
  {
    var parents, rows := EventRows(events, envs, p, |events|), AttemptRows(events, envs, p, |events|);
    var mid := InsertEvents(db, parents, uuid).value;
    EventsInserted(db, parents, uuid);
    EventRowAt(events, envs, p, |events|);
    forall i | 0 <= i < |rows|
      ensures uuid(rows[i].retrievalID).Some? && uuid(rows[i].retrievalID).value in mid.events
    {
      AttemptRowsHaveParents(events, envs, p, |events|, i);
      var k :| 0 <= k < |events| && events[k].retrievalID == rows[i].retrievalID;
      assert parents[k].event.retrievalID == rows[i].retrievalID;
    }
    AttemptsAccepted(mid, rows, uuid);
  }

  /**
   So a call fails if and only if the connection fails or the IDs of its events
   are not fit for the table. A call that fails leaves the tables as they were,
   unless only its second batch failed and its first was not empty. The foreign
   key holds after every call.
   */
  lemma {:induction false} CallOutcome(db: Db, events: seq<AggregateEvent>, envs: seq<Env>, p: Parsers, uuid: UuidParser, net: Net)
    requires FitAll(events, envs)
    ensures var sent := SendBoth(db, EventRows(events, envs, p, |events|), AttemptRows(events, envs, p, |events|), uuid, net);
      && (sent.1 <==> !net.first || !net.second || !Insertable(db, EventRows(events, envs, p, |events|), uuid))
      && (sent.1 ==> (sent.0 == db <==>
            !(net.first && !net.second && Insertable(db, EventRows(events, envs, p, |events|), uuid) && events != [])))
      && (ForeignKey(db) ==> ForeignKey(sent.0))
  {
    hide EventRowOf, Fits, AttemptRowsOf;
    var parents, rows := EventRows(events, envs, p, |events|), AttemptRows(events, envs, p, |events|);
    EventsAccepted(db, parents, uuid);
    if ForeignKey(db) { InsertsKeepForeignKey(db, parents, rows, uuid); }
    if InsertEvents(db, parents, uuid).Some? {
      EventsInserted(db, parents, uuid);
      EventRowAt(events, envs, p, |events|);
      ReferentialIntegrity(db, events, envs, p, uuid);
      var mid := InsertEvents(db, parents, uuid).value;
      if ForeignKey(db) { InsertsKeepForeignKey(mid, parents, rows, uuid); }
    }
  }

  /** A call that succeeds leaves every row of both batches in the tables, and nothing else new. */
  lemma {:induction false} SuccessStoresAll(db: Db, events: seq<AggregateEvent>, envs: seq<Env>, p: Parsers, uuid: UuidParser, net: Net)
    requires FitAll(events, envs)
    requires !SendBoth(db, EventRows(events, envs, p, |events|), AttemptRows(events, envs, p, |events|), uuid, net).1
    ensures var rows := AttemptRows(events, envs, p, |events|);
      var after := SendBoth(db, EventRows(events, envs, p, |events|), rows, uuid, net).0;
      && |after.events| == |db.events| + |events|
      && (forall id | id in db.events :: id in after.events && after.events[id] == db.events[id])
      && (forall k | 0 <= k < |events| ::
            var id := uuid(events[k].retrievalID);
            id.Some? && id.value in after.events && after.events[id.value] == EventRowOf(events[k], envs[k], p))
      && AreAppended(db.attempts, after.attempts, rows, uuid)
  {
    hide EventRowOf, AttemptRows, EventRows, SendBoth, Fits, AreAppended;
    var parents, rows := EventRows(events, envs, p, |events|), AttemptRows(events, envs, p, |events|);
    BothWentIn(db, parents, rows, uuid, net);
    EventRowAt(events, envs, p, |events|);
    forall k | 0 <= k < |events|
      ensures parents[k] == EventRowOf(events[k], envs[k], p) && parents[k].event.retrievalID == events[k].retrievalID
    {
      RowHasId(events[k], envs[k], p);
    }
  }

  predicate AreInserted(before: map<Uuid, AggregateRow>, after: map<Uuid, AggregateRow>, rows: seq<AggregateRow>, uuid: UuidParser) {
    && |after| == |before| + |rows|
    && (forall id | id in before :: id in after && after[id] == before[id])
    && forall k | 0 <= k < |rows| ::
      var id := uuid(rows[k].event.retrievalID); id.Some? && id.value in after && after[id.value] == rows[k]
  }

  predicate AreAppended(
      before: seq<(Uuid, AttemptRow)>, after: seq<(Uuid, AttemptRow)>, rows: seq<AttemptRow>, uuid: UuidParser)
  {
    && |after| == |before| + |rows| && before <= after
    && forall i | 0 <= i < |rows| ::
      after[|before| + i].1 == rows[i] && Some(after[|before| + i].0) == uuid(rows[i].retrievalID)
  }

  lemma {:induction false} BothWentIn(db: Db, parents: seq<AggregateRow>, rows: seq<AttemptRow>, uuid: UuidParser, net: Net)
    requires !SendBoth(db, parents, rows, uuid, net).1
    ensures var after := SendBoth(db, parents, rows, uuid, net).0;
      AreInserted(db.events, after.events, parents, uuid) && AreAppended(db.attempts, after.attempts, rows, uuid)
  {
    hide InsertEvents, InsertAttempts, AreInserted, AreAppended;
    EventsWentIn(db, parents, uuid);
    AttemptsWentIn(InsertEvents(db, parents, uuid).value, rows, uuid);
  }

  lemma {:induction false} EventsWentIn(db: Db, rows: seq<AggregateRow>, uuid: UuidParser)
    requires InsertEvents(db, rows, uuid).Some?
    ensures var after := InsertEvents(db, rows, uuid).value;
      AreInserted(db.events, after.events, rows, uuid) && after.attempts == db.attempts
  {
    hide InsertEvents;
    EventsInserted(db, rows, uuid);
  }

  lemma {:induction false} AttemptsWentIn(db: Db, rows: seq<AttemptRow>, uuid: UuidParser)
    requires InsertAttempts(db, rows, uuid).Some?
    ensures var after := InsertAttempts(db, rows, uuid).value;
      AreAppended(db.attempts, after.attempts, rows, uuid) && after.events == db.events
  {
    hide InsertAttempts;
    AttemptsAccepted(db, rows, uuid);
  }

  lemma {:induction false} RowHasId(e: AggregateEvent, env: Env, p: Parsers)
    ensures EventRowOf(e, env, p).event.retrievalID == e.retrievalID
  {
  }

  datatype Request = Request(events: seq<AggregateEvent>, envs: seq<Env>, net: Net)

  function AfterRequests(db: Db, requests: seq<Request>, p: Parsers, uuid: UuidParser): Db
    requires forall i | 0 <= i < |requests| :: FitAll(requests[i].events, requests[i].envs)
  {
    if requests == [] then db
    else
      var r := requests[|requests| - 1];
      SendBoth(AfterRequests(db, requests[..|requests| - 1], p, uuid),
               EventRows(r.events, r.envs, p, |r.events|), AttemptRows(r.events, r.envs, p, |r.events|), uuid, r.net).0
  }

  /** Over any sequence of calls, whatever fails, no attempt row is left without its event row. */
  lemma {:induction false} ForeignKeyOverRuns(db: Db, requests: seq<Request>, p: Parsers, uuid: UuidParser)
    requires ForeignKey(db) && forall i | 0 <= i < |requests| :: FitAll(requests[i].events, requests[i].envs)
    ensures ForeignKey(AfterRequests(db, requests, p, uuid))
  {
    if requests != [] {
      var front, r := requests[..|requests| - 1], requests[|requests| - 1];
      ForeignKeyOverRuns(db, front, p, uuid);
      CallOutcome(AfterRequests(db, front, p, uuid), r.events, r.envs, p, uuid, r.net);
    }
  }

  /**
   The two batches are two transactions. If only the second fails, the events
   stay without their attempts, and sending the same events again is refused.
   */
  lemma {:induction false} HalfFailureIsFinal(db: Db, events: seq<AggregateEvent>, envs: seq<Env>, p: Parsers, uuid: UuidParser, again: Net)
    requires FitAll(events, envs) && events != [] && Insertable(db, EventRows(events, envs, p, |events|), uuid)
    ensures var parents := EventRows(events, envs, p, |events|); var rows := AttemptRows(events, envs, p, |events|);
      var half := SendBoth(db, parents, rows, uuid, Net(true, false));
      && half.1 && half.0.attempts == db.attempts && |half.0.events| == |db.events| + |events|
      && SendBoth(half.0, parents, rows, uuid, again) == (half.0, true)
  {
    var parents := EventRows(events, envs, p, |events|);
    EventsAccepted(db, parents, uuid);
    EventsInserted(db, parents, uuid);
    EventRowAt(events, envs, p, |events|);
    var mid := InsertEvents(db, parents, uuid).value;
    assert uuid(parents[0].event.retrievalID).value in mid.events;
  }

  // ---------- v1: the steps of a batch ----------

  // When an event is handled, and whose timers go off before it
  datatype Tick = Tick(now: Time, fired: seq<H.RetrievalID>)

  function Expiries(t: Tick): seq<R.Step> {
    seq(|t.fired|, i requires 0 <= i < |t.fired| => R.Expire(t.now, t.fired[i]))
  }

  function StepsOf(events: seq<Event>, ticks: seq<Tick>, n: nat): seq<R.Step>
    requires |ticks| == |events| && n <= |events|
  {
    if n == 0 then []
    else StepsOf(events, ticks, n - 1) + (Expiries(ticks[n - 1]) + [R.V1(ticks[n - 1].now, Dispatched(events[n - 1]))])
  }

  /** The lifetimes, and all that the instruments have been told, after one more event. */
  function After(now: H.Effect, e: Event, t: Tick): H.Effect {
    var run := R.Run(now.lives, Expiries(t) + [R.V1(t.now, Dispatched(e))]);
    H.Effect(run.lives, now.out + run.out)
  }

  function AfterEvents(now: H.Effect, events: seq<Event>, ticks: seq<Tick>, n: nat): H.Effect
    requires |ticks| == |events| && n <= |events|
  {
    if n == 0 then now else After(AfterEvents(now, events, ticks, n - 1), events[n - 1], ticks[n - 1])
  }

  lemma {:induction false} AfterEventsIsRun(now: H.Effect, events: seq<Event>, ticks: seq<Tick>, n: nat)
    requires |ticks| == |events| && n <= |events|
    ensures var run := R.Run(now.lives, StepsOf(events, ticks, n));
      AfterEvents(now, events, ticks, n) == H.Effect(run.lives, now.out + run.out)
  {
    hide R.Next, Expiries;
    if n == 0 {
      Everything(now.out);
    } else {
      AfterEventsIsRun(now, events, ticks, n - 1);
      var head, next := StepsOf(events, ticks, n - 1), Expiries(ticks[n - 1]) + [R.V1(ticks[n - 1].now, Dispatched(events[n - 1]))];
      R.RunAppend(now.lives, head, next);
      R.OutAssociates(now.out, R.Run(now.lives, head).out, R.Run(R.Run(now.lives, head).lives, next).out);
    }
  }

  lemma {:induction false} AfterExpiries(now: H.Effect, t: Tick, left: H.Lives, e: Event)
    requires R.Run(now.lives, Expiries(t)) == H.Effect(left, [])
    ensures var effect := H.Handle(left, t.now, Dispatched(e));
      After(now, e, t) == H.Effect(effect.lives, now.out + effect.out)
  {
    R.RunAppend(now.lives, Expiries(t), [R.V1(t.now, Dispatched(e))]);
    R.RunOne(left, R.V1(t.now, Dispatched(e)));
    Nothing(H.Handle(left, t.now, Dispatched(e)).out);
  }

  lemma {:induction false} Everything(out: seq<Emission>)
    ensures out + [] == out
  {
  }

  lemma {:induction false} Nothing(out: seq<Emission>)
    ensures [] + out == out
  {
  }

  class EventRecorder {
    const metrics: Metrics?
    var db: Option<Db>
    // rows of retrieval_events
    var v1Rows: seq<Event>

    constructor (metrics: Metrics?, db: Option<Db>)
      ensures this.metrics == metrics && this.db == db && v1Rows == []
    {
      this.metrics, this.db, v1Rows := metrics, db, [];
    }

    /** The goroutines of one event, in the order they took the lock. */
    method CollectAttempts(e: AggregateEvent, env: Env, p: Parsers, batch: seq<AttemptRow>)
      returns (attempts: Attempts, rows: seq<AttemptRow>)
      requires Fits(e, env)
      ensures attempts == AttemptsOf(e, env.answers, p) && rows == batch + AttemptRowsOf(e, env, p)
    {
      attempts, rows := map[], batch;
      for i := 0 to |env.lockOrder|
        invariant attempts == AttemptsSoFar(e, env, p, i)
        invariant rows == batch + RowsOf(e, env.lockOrder[..i], env.answers, p)
      {
        var sp := env.lockOrder[i];
        var retrievalAttempt := e.retrievalAttempts[sp].value;
        var timeToFirstByte := ParseOrZero(retrievalAttempt.timeToFirstByte, p);
        var filSPID := FilSPID(sp, env.answers[sp], p);
        NextAttempt(e, env, p, i);
        attempts := attempts[sp := Attempt(
          filSPID, retrievalAttempt.error, retrievalAttempt.protocol, timeToFirstByte, retrievalAttempt.bytesTransferred)];
        rows := rows + [AttemptRow(
          e.retrievalID, sp, filSPID, timeToFirstByte, retrievalAttempt.bytesTransferred,
          retrievalAttempt.error, retrievalAttempt.protocol)];
      }
      AllAttempts(e, env, p);
    }

    /** HandleAggregatedEvent is called, if there are metrics, with what was found out about event i. */
    method Report(events: seq<AggregateEvent>, envs: seq<Env>, p: Parsers, i: nat, attempts: Attempts, ghost before: seq<Emission>)
      requires FitAll(events, envs) && i < |events|
      requires attempts == AttemptsOf(events[i], envs[i].answers, p)
      requires metrics != null ==> metrics.Valid() && metrics.emitted == EmittedAfter(before, events, envs, p, i)
      modifies (if metrics == null then {} else {metrics})`emitted
      ensures metrics != null ==> metrics.Valid() && metrics.emitted == EmittedAfter(before, events, envs, p, i + 1)
    {
      if metrics != null {
        var e := events[i];
        var timeToFirstIndexerResult := ParseOrZero(e.timeToFirstIndexerResult, p);
        var timeToFirstByte := ParseOrZero(e.timeToFirstByte, p);
        var filSPID := FilSPID(e.storageProviderID, envs[i].ownAnswer, p);
        metrics.HandleAggregatedEvent(
          Call(timeToFirstIndexerResult, timeToFirstByte, e.success, e.storageProviderID, filSPID, e.startTime, e.endTime,
               ToInt64(e.bandwidth), ToInt64(e.bytesTransferred), e.indexerCandidatesReceived, e.indexerCandidatesFiltered,
               attempts, e.protocolSucceeded),
          envs[i].visitOrder);
      }
    }

    /** The loop of RecordAggregateEvents. */
    method RecordAll(events: seq<AggregateEvent>, envs: seq<Env>, p: Parsers)
      returns (batchQuery: seq<AggregateRow>, batchRetrievalAttempts: seq<AttemptRow>)
      requires FitAll(events, envs) && (metrics != null ==> metrics.Valid())
      modifies (if metrics == null then {} else {metrics})`emitted
      ensures batchQuery == EventRows(events, envs, p, |events|)
      ensures batchRetrievalAttempts == AttemptRows(events, envs, p, |events|)
      ensures metrics != null ==>
        metrics.Valid() && metrics.emitted == EmittedAfter(old(metrics.emitted), events, envs, p, |events|)
    {
      hide Emissions, Fits, CallOf, EventRowOf;
      batchQuery, batchRetrievalAttempts := [], [];
      for i := 0 to |events|
        invariant metrics != null ==>
          metrics.Valid() && metrics.emitted == EmittedAfter(old(metrics.emitted), events, envs, p, i)
        invariant batchQuery == EventRows(events, envs, p, i)
        invariant batchRetrievalAttempts == AttemptRows(events, envs, p, i)
      {
        var attempts;
        batchQuery := batchQuery + [EventRowOf(events[i], envs[i], p)];
        attempts, batchRetrievalAttempts := CollectAttempts(events[i], envs[i], p, batchRetrievalAttempts);
        Report(events, envs, p, i, attempts, if metrics == null then [] else old(metrics.emitted));
      }
    }

    method RecordAggregateEvents(events: seq<AggregateEvent>, envs: seq<Env>, p: Parsers, uuid: UuidParser, net: Net)
      returns (err: bool)
      requires FitAll(events, envs) && (metrics != null ==> metrics.Valid())
      modifies `db, (if metrics == null then {} else {metrics})`emitted
      ensures metrics != null ==> metrics.Valid() && metrics.emitted == EmittedAfter(old(metrics.emitted), events, envs, p, |events|)
      ensures old(db).None? ==> db.None? && !err
      ensures old(db).Some? ==>
        db.Some? && (db.value, err) == SendBoth(old(db).value, EventRows(events, envs, p, |events|), AttemptRows(events, envs, p, |events|), uuid, net)
      ensures old(db).Some? && ForeignKey(old(db).value) ==> ForeignKey(db.value)
    {
      hide SendBoth, Insertable, EventRowOf, Fits, Emissions;
      var batchQuery, batchRetrievalAttempts := RecordAll(events, envs, p);
      err := Send(batchQuery, batchRetrievalAttempts, uuid, net);
      if old(db).Some? {
        CallOutcome(old(db).value, events, envs, p, uuid, net);
      }
    }

    method Send(batchQuery: seq<AggregateRow>, batchRetrievalAttempts: seq<AttemptRow>, uuid: UuidParser, net: Net)
      returns (err: bool)
      modifies `db
      ensures old(db).None? ==> db.None? && !err
      ensures old(db).Some? ==>
        db.Some? && (db.value, err) == SendBoth(old(db).value, batchQuery, batchRetrievalAttempts, uuid, net)
    {
      if db.None? {
        return false;
      }
      if !net.first {
        return true;
      }
      var mid := InsertEvents(db.value, batchQuery, uuid);
      if mid.None? {
        return true;
      }
      db := mid;
      if !net.second {
        return true;
      }
      var after := InsertAttempts(db.value, batchRetrievalAttempts, uuid);
      if after.None? {
        return true;
      }
      db := after;
      return false;
    }

    /**
     The v1 batch: every event is handled as one step, with timers going off in
     between, so the lifetimes and the instruments end where the run of those
     steps ends. Without a database nothing happens at all.
     */
    method RecordEvents(events: seq<Event>, ticks: seq<Tick>, taken: bool) returns (err: bool)
      requires |ticks| == |events| && (metrics != null ==> metrics.Valid())
      modifies `v1Rows
      modifies if metrics == null then {} else {metrics, metrics.tempDataMap}
      modifies if metrics == null then {} else metrics.tempDataMap.datas
      modifies if metrics == null then {} else metrics.tempDataMap.timers
      ensures err <==> db.Some? && !taken
      ensures v1Rows == if db.Some? && taken then old(v1Rows) + events else old(v1Rows)
      ensures metrics != null ==>
        && metrics.Valid()
        && fresh(metrics.tempDataMap.datas - old(metrics.tempDataMap.datas))
        && fresh(metrics.tempDataMap.timers - old(metrics.tempDataMap.timers))
      ensures metrics != null && db.None? ==> metrics.lives == old(metrics.lives) && metrics.emitted == old(metrics.emitted)
      ensures metrics != null && db.Some? ==>
        var run := R.Run(old(metrics.lives), StepsOf(events, ticks, |events|));
        metrics.lives == run.lives && metrics.emitted == old(metrics.emitted) + run.out
    {
      if db.None? {
        return false;
      }
      var batchQuery := HandleAll(metrics, events, ticks);
      if taken {
        v1Rows := v1Rows + batchQuery;
      }
      return !taken;
    }
  }

  ghost function Now(metrics: Metrics): H.Effect
    reads metrics
  {
    H.Effect(metrics.lives, metrics.emitted)
  }

  /** The loop of RecordEvents. */
  method HandleAll(metrics: Metrics?, events: seq<Event>, ticks: seq<Tick>) returns (batchQuery: seq<Event>)
    requires |ticks| == |events| && (metrics != null ==> metrics.Valid())
    modifies if metrics == null then {} else {metrics, metrics.tempDataMap}
    modifies if metrics == null then {} else metrics.tempDataMap.datas
    modifies if metrics == null then {} else metrics.tempDataMap.timers
    ensures batchQuery == events
    ensures metrics != null ==>
      && metrics.Valid()
      && fresh(metrics.tempDataMap.datas - old(metrics.tempDataMap.datas))
      && fresh(metrics.tempDataMap.timers - old(metrics.tempDataMap.timers))
    ensures metrics != null ==>
      var run := R.Run(old(metrics.lives), StepsOf(events, ticks, |events|));
      metrics.lives == run.lives && metrics.emitted == old(metrics.emitted) + run.out
  {
    batchQuery := [];
    for i := 0 to |events|
      invariant batchQuery == events[..i]
      invariant metrics != null ==>
        && metrics.Valid()
        && fresh(metrics.tempDataMap.datas - old(metrics.tempDataMap.datas))
        && fresh(metrics.tempDataMap.timers - old(metrics.tempDataMap.timers))
        && Now(metrics) == AfterEvents(old(Now(metrics)), events, ticks, i)
    {
      batchQuery := batchQuery + [events[i]];
      if metrics != null {
        HandleAt(metrics, events[i], ticks[i]);
      }
    }
    if metrics != null {
      AfterEventsIsRun(old(Now(metrics)), events, ticks, |events|);
    }
  }

  /** The timers that go off, then the handler of the event. */
  method HandleAt(metrics: Metrics, e: Event, t: Tick)
    requires metrics.Valid()
    modifies metrics, metrics.tempDataMap, metrics.tempDataMap.datas, metrics.tempDataMap.timers
    ensures metrics.Valid()
    ensures fresh(metrics.tempDataMap.datas - old(metrics.tempDataMap.datas))
    ensures fresh(metrics.tempDataMap.timers - old(metrics.tempDataMap.timers))
    ensures Now(metrics) == After(old(Now(metrics)), e, t)
  {
    FireTimers(metrics, t);
    AfterExpiries(old(Now(metrics)), t, metrics.lives, e);
    Dispatch(metrics, e, t.now);
  }

  method FireTimers(metrics: Metrics, t: Tick)
    requires metrics.Valid()
    modifies metrics, metrics.tempDataMap, metrics.tempDataMap.datas, metrics.tempDataMap.timers
    ensures metrics.Valid() && metrics.emitted == old(metrics.emitted)
    ensures metrics.tempDataMap.datas == old(metrics.tempDataMap.datas)
    ensures metrics.tempDataMap.timers == old(metrics.tempDataMap.timers)
    ensures R.Run(old(metrics.lives), Expiries(t)) == H.Effect(metrics.lives, [])
  {
    for i := 0 to |t.fired|
      invariant metrics.Valid() && metrics.emitted == old(metrics.emitted)
      invariant metrics.tempDataMap.datas == old(metrics.tempDataMap.datas)
      invariant metrics.tempDataMap.timers == old(metrics.tempDataMap.timers)
      invariant R.Run(old(metrics.lives), Expiries(t)[..i]) == H.Effect(metrics.lives, [])
    {
      assert Expiries(t)[..i + 1] == Expiries(t)[..i] + [R.Expire(t.now, t.fired[i])];
      R.RunAppend(old(metrics.lives), Expiries(t)[..i], [R.Expire(t.now, t.fired[i])]);
      R.RunOne(metrics.lives, R.Expire(t.now, t.fired[i]));
      metrics.TimerOf(t.fired[i]);
    }
    assert Expiries(t)[..|t.fired|] == Expiries(t);
  }

  /** The switch of RecordEvents. */
  method Dispatch(metrics: Metrics, event: Event, now: Time)
    requires metrics.Valid()
    modifies metrics, metrics.tempDataMap, metrics.tempDataMap.datas, metrics.tempDataMap.timers
    ensures metrics.Valid()
    ensures fresh(metrics.tempDataMap.datas - old(metrics.tempDataMap.datas))
    ensures fresh(metrics.tempDataMap.timers - old(metrics.tempDataMap.timers))
    ensures var effect := H.Handle(old(metrics.lives), now, Dispatched(event));
      metrics.lives == effect.lives && metrics.emitted == old(metrics.emitted) + effect.out
  {
    match event.eventName {
      case Started =>
        metrics.HandleStartedEvent(event.retrievalID, event.phase, event.eventTime, event.storageProviderID, now);
      case CandidatesFound =>
        metrics.HandleCandidatesFoundEvent(event.retrievalID, event.eventTime, event.eventDetails, now);
      case CandidatesFiltered =>
        metrics.HandleCandidatesFilteredEvent(event.retrievalID, event.eventDetails, now);
      case Failed =>
        metrics.HandleFailureEvent(event.retrievalID, event.phase, event.storageProviderID, event.eventDetails, now);
      case FirstByte =>
        metrics.HandleTimeToFirstByteEvent(event.retrievalID, event.storageProviderID, event.eventTime, now);
      case Success =>
        metrics.HandleSuccessEvent(event.retrievalID, event.eventTime, event.storageProviderID, event.eventDetails, now);
      case _ =>
    }
  }

  function AttemptsSoFar(e: AggregateEvent, env: Env, p: Parsers, i: nat): Attempts
    requires Fits(e, env) && i <= |env.lockOrder|
  {
    map sp | sp in env.lockOrder[..i] && sp in e.retrievalAttempts ::
      MetricsAttempt(e.retrievalAttempts[sp].value, FilSPID(sp, env.answers[sp], p), p)
  }

  lemma {:induction false} NextAttempt(e: AggregateEvent, env: Env, p: Parsers, i: nat)
    requires Fits(e, env) && i < |env.lockOrder|
    ensures var sp := env.lockOrder[i];
      && sp in e.retrievalAttempts
      && AttemptsSoFar(e, env, p, i + 1) == AttemptsSoFar(e, env, p, i)[
           sp := MetricsAttempt(e.retrievalAttempts[sp].value, FilSPID(sp, env.answers[sp], p), p)]
      && RowsOf(e, env.lockOrder[..i + 1], env.answers, p)
           == RowsOf(e, env.lockOrder[..i], env.answers, p) + [RowOf(e, sp, FilSPID(sp, env.answers[sp], p), p)]
  {
    var sp := env.lockOrder[i];
    assert sp in env.lockOrder;
    assert env.lockOrder[..i + 1] == env.lockOrder[..i] + [sp];
    assert env.lockOrder[..i + 1][..i] == env.lockOrder[..i];
  }

  lemma {:induction false} AllAttempts(e: AggregateEvent, env: Env, p: Parsers)
    requires Fits(e, env)
    ensures AttemptsSoFar(e, env, p, |env.lockOrder|) == AttemptsOf(e, env.answers, p)
    ensures RowsOf(e, env.lockOrder[..|env.lockOrder|], env.answers, p) == AttemptRowsOf(e, env, p)
  {
  }
}
