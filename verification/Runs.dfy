/**
 Theorems over whole runs: any sequence of v1 handler calls, timer firings and
 v2 calls, over any retrieval IDs, each of them one step.
 */
module Runs {
  import opened GoTime
  import opened Instruments
  import opened ErrorKinds
  import opened Lifetime
  import opened Aggregate
  import opened Handlers

  datatype AnyStep =
    | V1(now: Time, event: Event)
    | Expire(now: Time, id: RetrievalID)
    | V2(id: RetrievalID, call: Call, order: seq<string>)   // the metrics never see the ID of a v2 call

  type Step = s: AnyStep | s.V2? ==> IsOrder(s.order, s.call.attempts) witness Expire(0, "")

  function Next(lives: Lives, s: Step): Effect {
    match s
    case V1(now, e) => Handle(lives, now, e)
    case Expire(_, id) => Effect(Close(lives, id), [])
    case V2(_, c, order) => Effect(lives, Emissions(c, order))
  }

  function Run(lives: Lives, steps: seq<Step>): Effect
    decreases |steps|
  {
    if steps == [] then Effect(lives, [])
    else
      var first := Next(lives, steps[0]);
      var rest := Run(first.lives, steps[1..]);
      Effect(rest.lives, first.out + rest.out)
  }

  lemma {:induction false} RunAppend(lives: Lives, a: seq<Step>, b: seq<Step>)
    ensures Run(lives, a + b).lives == Run(Run(lives, a).lives, b).lives
    ensures Run(lives, a + b).out == Run(lives, a).out + Run(Run(lives, a).lives, b).out
    decreases |a|
  {
    if a == [] {
      assert a + b == b;
    } else {
      assert (a + b)[1..] == a[1..] + b && (a + b)[0] == a[0];
      RunAppend(Next(lives, a[0]).lives, a[1..], b);
      OutAssociates(Next(lives, a[0]).out, Run(Next(lives, a[0]).lives, a[1..]).out, Run(Run(lives, a).lives, b).out);
    }
  }

  lemma {:induction false} OutAssociates(x: seq<Emission>, y: seq<Emission>, z: seq<Emission>)
    ensures x + (y + z) == (x + y) + z
  {
  }

  // ---------- conservation of lifetimes ----------

  predicate Creates(lives: Lives, s: Step) {
    s.V1? && Touches(s.event) && s.event.id !in lives
  }

  predicate Expires(lives: Lives, s: Step) {
    s.Expire? && s.id in lives
  }

  // v2 calls add to the same unlabelled counter when they failed without an attempt
  predicate FailsWithoutAttempt(s: Step) {
    s.V2? && !s.call.success && |s.call.attempts| == 0
  }

  function Created(lives: Lives, steps: seq<Step>): nat
    decreases |steps|
  {
    if steps == [] then 0
    else (if Creates(lives, steps[0]) then 1 else 0) + Created(Next(lives, steps[0]).lives, steps[1..])
  }

  function Expired(lives: Lives, steps: seq<Step>): nat
    decreases |steps|
  {
    if steps == [] then 0
    else (if Expires(lives, steps[0]) then 1 else 0) + Expired(Next(lives, steps[0]).lives, steps[1..])
  }

  function FailedWithoutAttempt(steps: seq<Step>): nat {
    if steps == [] then 0
    else (if FailsWithoutAttempt(steps[0]) then 1 else 0) + FailedWithoutAttempt(steps[1..])
  }

  // The v1 handlers add to these counters without labels
  function IsV1Success(): Emission -> bool {
    IsAdd(RequestWithSuccess, map[])
  }

  function IsIndexerFailure(): Emission -> bool {
    IsAdd(RequestWithIndexerFailures, map[])
  }

  // The counters a v2 loop adds to
  predicate FromLoop(e: Emission) {
    e.Add? && (e.counter.RetrievalError? || e.counter in {
      RequestWithBitswapAttempt, RequestWithGraphSyncAttempt, RequestWithHttpAttempt,
      GraphsyncRetrievalFailure, HttpRetrievalFailure})
  }

  lemma {:induction false} VisitCounters(sp: string, a: Attempt)
    ensures forall e | e in VisitAdds(sp, a) :: FromLoop(e)
  {
  }

  lemma {:induction false} LoopCounters(attempts: Attempts, order: seq<string>)
    requires forall sp | sp in order :: sp in attempts
    ensures forall e | e in VisitAll(attempts, order).out :: FromLoop(e)
  {
    if order != [] {
      var front, last := order[..|order| - 1], order[|order| - 1];
      LoopCounters(attempts, front);
      VisitCounters(last, attempts[last]);
      assert VisitAll(attempts, order).out == VisitAll(attempts, front).out + VisitAdds(last, attempts[last]);
    }
  }

  lemma {:induction false} ClosingInTwo(c: Call, name: string)
    ensures Closing(c, name) == BeforeOutcome(c, name) + Outcome(c)
  {
  }

  lemma {:induction false} BeforeOutcomeQuiet(c: Call, name: string)
    ensures forall e | e in BeforeOutcome(c, name) :: !IsV1Success()(e) && !IsIndexerFailure()(e)
  {
  }

  lemma {:induction false} SuccessQuiet(c: Call)
    ensures forall e | e in SuccessEmissions(c) :: !IsV1Success()(e) && !IsIndexerFailure()(e)
  {
    var labels := SpLabels(ProtocolFromMulticodec(c.protocolSucceeded), c.storageProviderID, c.filSPID);
    assert labels["sp_id"] == c.storageProviderID;
  }

  lemma {:induction false} OutcomeTallies(c: Call)
    ensures Tally(Outcome(c), IsV1Success()) == 0
    ensures Tally(Outcome(c), IsIndexerFailure()) == if !c.success && |c.attempts| == 0 then 1 else 0
  {
    if c.success {
      SuccessQuiet(c);
      TallyNone(Outcome(c), IsV1Success());
      TallyNone(Outcome(c), IsIndexerFailure());
    }
  }

  lemma {:induction false} ClosingTallies(c: Call, name: string)
    ensures Tally(Closing(c, name), IsV1Success()) == 0
    ensures Tally(Closing(c, name), IsIndexerFailure()) == if !c.success && |c.attempts| == 0 then 1 else 0
  {
    ClosingInTwo(c, name);
    BeforeOutcomeQuiet(c, name);
    OutcomeTallies(c);
    TallyNone(BeforeOutcome(c, name), IsV1Success());
    TallyNone(BeforeOutcome(c, name), IsIndexerFailure());
    TallyAppend(BeforeOutcome(c, name), Outcome(c), IsV1Success());
    TallyAppend(BeforeOutcome(c, name), Outcome(c), IsIndexerFailure());
  }

  lemma {:induction false} V2Tallies(c: Call, order: seq<string>)
    requires IsOrder(order, c.attempts)
    ensures Tally(Emissions(c, order), IsV1Success()) == 0
    ensures Tally(Emissions(c, order), IsIndexerFailure()) == if !c.success && |c.attempts| == 0 then 1 else 0
  {
    hide Closing;
    var l := VisitAll(c.attempts, order);
    var head := [Add(TotalRequestCount, map[])];
    LoopCounters(c.attempts, order);
    ClosingTallies(c, l.lowestTTFBProtocol);
    TallyNone(head + l.out, IsV1Success());
    TallyNone(head + l.out, IsIndexerFailure());
    TallyAppend(head + l.out, Closing(c, l.lowestTTFBProtocol), IsV1Success());
    TallyAppend(head + l.out, Closing(c, l.lowestTTFBProtocol), IsIndexerFailure());
  }

  lemma {:induction false} QuietUnlessEnding(lives: Lives, now: Time, e: Event)
    requires !Ends(e)
    ensures forall x | x in Handle(lives, now, e).out :: !IsV1Success()(x) && !IsIndexerFailure()(x)
  {
  }

  lemma {:induction false} SuccessReportTallies(time: Time, sp: string, size: real, f: FinalValues)
    ensures Tally(SuccessReport(time, sp, size, f), IsV1Success()) == 1
    ensures Tally(SuccessReport(time, sp, size, f), IsIndexerFailure()) == 0
  {
    var out := SuccessReport(time, sp, size, f);
    assert out[0] == Add(RequestWithSuccess, map[]);
    TallyNone(out[1..], IsV1Success());
    TallyNone(out[1..], IsIndexerFailure());
  }

  lemma {:induction false} V1Tallies(lives: Lives, now: Time, e: Event)
    ensures Tally(Handle(lives, now, e).out, IsV1Success()) == if Ends(e) && e.SuccessEvent? then 1 else 0
    ensures Tally(Handle(lives, now, e).out, IsIndexerFailure()) == if Ends(e) && e.FailureEvent? then 1 else 0
  {
    if !Ends(e) {
      QuietUnlessEnding(lives, now, e);
      TallyNone(Handle(lives, now, e).out, IsV1Success());
      TallyNone(Handle(lives, now, e).out, IsIndexerFailure());
    } else if e.SuccessEvent? {
      var h := if e.id in lives then lives[e.id].events else [];
      SuccessReportTallies(e.time, e.storageProviderID, NumberField(e.details, "receivedSize").value, Finals(Fold(h)));
    } else {
      assert Handle(lives, now, e).out == [Add(RequestWithIndexerFailures, map[])];
    }
  }

  lemma {:induction false} StepConservation(lives: Lives, s: Step)
    ensures |lives| + (if Creates(lives, s) then 1 else 0) + (if FailsWithoutAttempt(s) then 1 else 0)
         == |Next(lives, s).lives| + Tally(Next(lives, s).out, IsV1Success())
            + Tally(Next(lives, s).out, IsIndexerFailure()) + (if Expires(lives, s) then 1 else 0)
  {
    match s
    case V1(now, e) =>
      HandleDomain(lives, now, e);
      V1Tallies(lives, now, e);
      assert |lives| == |lives.Keys| && |Next(lives, s).lives| == |Next(lives, s).lives.Keys|;
    case Expire(_, id) =>
      assert Close(lives, id).Keys == lives.Keys - {id};
      assert |lives| == |lives.Keys| && |Close(lives, id)| == |Close(lives, id).Keys|;
    case V2(_, c, order) =>
      V2Tallies(c, order);
  }

  /**
   Entries created = entries live + v1 successes + v1 indexer failures +
   expirations. The indexer-failure counter is shared with v2 calls that failed
   without an attempt, so those stand on the other side of the balance.
   */
  lemma {:induction false} LifetimeConservation(lives: Lives, steps: seq<Step>)
    ensures |lives| + Created(lives, steps) + FailedWithoutAttempt(steps)
         == |Run(lives, steps).lives| + Tally(Run(lives, steps).out, IsV1Success())
            + Tally(Run(lives, steps).out, IsIndexerFailure()) + Expired(lives, steps)
    decreases |steps|
  {
    if steps != [] {
      var n := Next(lives, steps[0]);
      StepConservation(lives, steps[0]);
      LifetimeConservation(n.lives, steps[1..]);
      TallyAppend(n.out, Run(n.lives, steps[1..]).out, IsV1Success());
      TallyAppend(n.out, Run(n.lives, steps[1..]).out, IsIndexerFailure());
    }
  }

  // ---------- isolation ----------

  predicate Concerns(s: Step, id: RetrievalID) {
    match s
    case V1(_, e) => e.id == id
    case Expire(_, i) => i == id
    case V2(_, _, _) => false
  }

  function Only(steps: seq<Step>, id: RetrievalID): seq<Step> {
    if steps == [] then []
    else (if Concerns(steps[0], id) then [steps[0]] else []) + Only(steps[1..], id)
  }

  /** What each step about id emits, in order. */
  function OutputsOf(lives: Lives, steps: seq<Step>, id: RetrievalID): seq<seq<Emission>>
    decreases |steps|
  {
    if steps == [] then []
    else
      var n := Next(lives, steps[0]);
      (if Concerns(steps[0], id) then [n.out] else []) + OutputsOf(n.lives, steps[1..], id)
  }

  predicate SameAt(a: Lives, b: Lives, id: RetrievalID) {
    (id in a <==> id in b) && (id in a ==> a[id] == b[id])
  }

  lemma {:induction false} NextIsLocal(a: Lives, b: Lives, s: Step, id: RetrievalID)
    requires SameAt(a, b, id)
    ensures Concerns(s, id) ==> SameAt(Next(a, s).lives, Next(b, s).lives, id) && Next(a, s).out == Next(b, s).out
    ensures !Concerns(s, id) ==> SameAt(Next(a, s).lives, b, id)
  {
    if s.V1? {
      if s.event.id == id {
        HandleIsLocal(a, s.now, s.event, b);
      } else {
        HandleIsLocal(a, s.now, s.event, a);
      }
    }
  }

  /**
   Erasing every step about other IDs changes neither what the steps about
   this ID emit nor its entry.
   */
  lemma {:induction false} Isolation(a: Lives, b: Lives, steps: seq<Step>, id: RetrievalID)
    requires SameAt(a, b, id)
    ensures OutputsOf(a, steps, id) == OutputsOf(b, Only(steps, id), id)
    ensures SameAt(Run(a, steps).lives, Run(b, Only(steps, id)).lives, id)
    decreases |steps|
  {
    if steps != [] {
      NextIsLocal(a, b, steps[0], id);
      if Concerns(steps[0], id) {
        var kept := [steps[0]] + Only(steps[1..], id);
        assert kept[0] == steps[0] && kept[1..] == Only(steps[1..], id);
        Isolation(Next(a, steps[0]).lives, Next(b, steps[0]).lives, steps[1..], id);
      } else {
        assert Only(steps, id) == Only(steps[1..], id);
        assert OutputsOf(a, steps, id) == OutputsOf(Next(a, steps[0]).lives, steps[1..], id);
        Isolation(Next(a, steps[0]).lives, b, steps[1..], id);
      }
    }
  }

  // ---------- timers ----------

  /** When the current entry of id was created, read off the steps alone. */
  function BirthOf(steps: seq<Step>, id: RetrievalID): Option<Time> {
    if steps == [] then None
    else
      var before, s := BirthOf(steps[..|steps| - 1], id), steps[|steps| - 1];
      if !Concerns(s, id) then before
      else if s.Expire? || Ends(s.event) then None
      else if Touches(s.event) && before == None then Some(s.now)
      else before
  }

  /**
   An entry lives from the step that created it, its deadline is one minute
   after that step, and no later event moves it.
   */
  lemma {:induction false} DeadlineIsOneMinuteAfterBirth(steps: seq<Step>, id: RetrievalID)
    ensures id in Run(map[], steps).lives <==> BirthOf(steps, id).Some?
    ensures id in Run(map[], steps).lives ==> Run(map[], steps).lives[id].deadline == BirthOf(steps, id).value + 60_000_000_000
  {
    if steps != [] {
      var front, s := steps[..|steps| - 1], steps[|steps| - 1];
      assert steps == front + [s];
      DeadlineIsOneMinuteAfterBirth(front, id);
      RunAppend(map[], front, [s]);
      RunOne(Run(map[], front).lives, s);
      BirthStep(Run(map[], front).lives, s, id);
    }
  }

  lemma {:induction false} RunOne(lives: Lives, s: Step)
    ensures Run(lives, [s]) == Next(lives, s)
  {
  }

  lemma {:induction false} BirthStep(lives: Lives, s: Step, id: RetrievalID)
    ensures id in Next(lives, s).lives <==>
      if !Concerns(s, id) then id in lives else s.V1? && !Ends(s.event) && (Touches(s.event) || id in lives)
    ensures id in Next(lives, s).lives ==>
      Next(lives, s).lives[id].deadline == if id in lives then lives[id].deadline else s.now + TIMEOUT
  {
  }

  lemma {:induction false} HandleKeepsDeadlines(lives: Lives, now: Time, e: Event)
    ensures forall id | id in Handle(lives, now, e).lives ::
      Handle(lives, now, e).lives[id].deadline == if id in lives then lives[id].deadline else now + TIMEOUT
  {
  }

  // ---------- errors ----------

  predicate IsV1Error(s: Step) {
    s.V1? && s.event.FailureEvent? && s.event.phase == RetrievalPhase && TextField(s.event.details, "error").Some?
  }

  function ErrorsOf(s: Step): nat {
    if s.V2? then |FailedAttempts(s.call.attempts)| else if IsV1Error(s) then 1 else 0
  }

  function ErrorsUnderOf(s: Step, protocol: string): nat {
    if s.V2? then |FailedAttemptsUnder(s.call.attempts, protocol)|
    else if IsV1Error(s) && ProtocolFromSpID(s.event.storageProviderID) == protocol then 1 else 0
  }

  function ErrorsIn(steps: seq<Step>): nat {
    if steps == [] then 0 else ErrorsOf(steps[0]) + ErrorsIn(steps[1..])
  }

  function ErrorsUnderIn(steps: seq<Step>, protocol: string): nat {
    if steps == [] then 0 else ErrorsUnderOf(steps[0], protocol) + ErrorsUnderIn(steps[1..], protocol)
  }

  lemma {:induction false} V1ErrorTallies(lives: Lives, now: Time, e: Event, protocol: string)
    ensures Tally(Handle(lives, now, e).out, IsError()) == ErrorsOf(V1(now, e))
    ensures Tally(Handle(lives, now, e).out, IsErrorUnder(protocol)) == ErrorsUnderOf(V1(now, e), protocol)
  {
    hide Fold, Finals, KindOf, ProtocolFromSpID, First;
    var out := Handle(lives, now, e).out;
    if IsV1Error(V1(now, e)) {
      var sp, msg := e.storageProviderID, TextField(e.details, "error").value;
      var last := Add(RetrievalError(KindOf(msg)), map["protocol" := ProtocolFromSpID(sp)]);
      assert out == out[..|out| - 1] + [last];
      TallyNone(out[..|out| - 1], IsError());
      TallyNone(out[..|out| - 1], IsErrorUnder(protocol));
      TallyAppend(out[..|out| - 1], [last], IsError());
      TallyAppend(out[..|out| - 1], [last], IsErrorUnder(protocol));
      SameLabel(ProtocolFromSpID(sp), protocol);
      assert [last][1..] == [];
    } else {
      TallyNone(out, IsError());
      TallyNone(out, IsErrorUnder(protocol));
    }
  }

  /**
   Over any mix of v1 and v2 steps the error counters add up to the v2 attempts
   with an error plus the v1 retrieval failures that carry a text, in total and
   under each protocol label.
   */
  lemma {:induction false} ErrorConservationOverRuns(lives: Lives, steps: seq<Step>, protocol: string)
    ensures Tally(Run(lives, steps).out, IsError()) == ErrorsIn(steps)
    ensures Tally(Run(lives, steps).out, IsErrorUnder(protocol)) == ErrorsUnderIn(steps, protocol)
    decreases |steps|
  {
    if steps != [] {
      var s := steps[0];
      var n := Next(lives, s);
      match s {
        case V1(now, e) => V1ErrorTallies(lives, now, e, protocol);
        case Expire(_, _) =>
        case V2(_, c, order) => ErrorConservation(c, order, protocol);
      }
      ErrorConservationOverRuns(n.lives, steps[1..], protocol);
      TallyAppend(n.out, Run(n.lives, steps[1..]).out, IsError());
      TallyAppend(n.out, Run(n.lives, steps[1..]).out, IsErrorUnder(protocol));
    }
  }

  // ---------- the failed-retrievals histogram ----------

  predicate NoFailureNoted(lives: Lives) {
    forall id | id in lives :: Failed !in lives[id].events
  }

  lemma {:induction false} NoneFailed(h: History)
    requires Failed !in h
    ensures FailedTotal(h) == 0 && Fold(h).failedCount == 0
  {
    if h != [] {
      NoneFailed(h[..|h| - 1]);
    }
  }

  function IsNonzeroFailedRecord(): Emission -> bool {
    (e: Emission) => e.Record? && e.histogram == FailedRetrievalsPerRequest && e.value != Amount(0)
  }

  lemma {:induction false} HandleNotesNoFailure(lives: Lives, now: Time, e: Event)
    requires NoFailureNoted(lives)
    ensures NoFailureNoted(Handle(lives, now, e).lives)
    ensures forall x | x in Handle(lives, now, e).out :: !IsNonzeroFailedRecord()(x)
  {
    hide KindOf, ProtocolFromSpID, FloatToUint32, First;
    if e.id in lives {
      NoneFailed(lives[e.id].events);
    } else {
      NoneFailed([]);
    }
  }

  /** No handler calls RecordFailure, so over any run the failed-retrievals histogram only ever records 0. */
  lemma {:induction false} FailedHistogramIsAlwaysZero(lives: Lives, steps: seq<Step>)
    requires NoFailureNoted(lives)
    ensures forall x | x in Run(lives, steps).out :: !IsNonzeroFailedRecord()(x)
    decreases |steps|
  {
    if steps != [] {
      var s := steps[0];
      match s {
        case V1(now, e) => HandleNotesNoFailure(lives, now, e);
        case Expire(_, _) =>
        case V2(_, c, order) =>
          forall x | x in Emissions(c, order) ensures !IsNonzeroFailedRecord()(x) {
            if x.Record? && x.histogram == FailedRetrievalsPerRequest {
              FailedRetrievalsRecorded(c, order, x);
            }
          }
      }
      FailedHistogramIsAlwaysZero(Next(lives, s).lives, steps[1..]);
    }
  }

  /** A retrieval failure of id, whatever its details say. */
  predicate IsFailureOf(s: Step, id: RetrievalID) {
    s.V1? && s.event.FailureEvent? && s.event.phase == RetrievalPhase && s.event.id == id
  }

  function RetrievalFailures(steps: seq<Step>, id: RetrievalID): nat {
    if steps == [] then 0 else (if IsFailureOf(steps[0], id) then 1 else 0) + RetrievalFailures(steps[1..], id)
  }

  lemma {:induction false} NoRetrievalFailures(steps: seq<Step>, id: RetrievalID)
    ensures RetrievalFailures(steps, id) == 0 <==> forall i | 0 <= i < |steps| :: !IsFailureOf(steps[i], id)
  {
    if steps != [] {
      NoRetrievalFailures(steps[1..], id);
      assert forall i | 0 < i < |steps| :: steps[i] == steps[1..][i - 1];
      assert forall i | 0 <= i < |steps| - 1 :: steps[1..][i] == steps[i + 1];
    }
  }

  lemma {:induction false} RunNotesNoFailure(lives: Lives, steps: seq<Step>)
    requires NoFailureNoted(lives)
    ensures NoFailureNoted(Run(lives, steps).lives)
    decreases |steps|
  {
    hide Handle, Emissions;
    if steps != [] {
      match steps[0] {
        case V1(now, e) => HandleNotesNoFailure(lives, now, e);
        case _ =>
      }
      RunNotesNoFailure(Next(lives, steps[0]).lives, steps[1..]);
    }
  }

  /**
   What a v1 success records after any run as the number of failed retrievals
   of its request: 0, which is the number of them if and only if there were none.
   */
  lemma {:induction false} V1FailedRetrievalsRecorded(steps: seq<Step>, now: Time, e: Event, x: Emission)
    requires x in Handle(Run(map[], steps).lives, now, e).out && x.Record? && x.histogram == FailedRetrievalsPerRequest
    ensures x.value == Amount(0)
    ensures x.value == Amount(RetrievalFailures(steps, e.id)) <==> forall i | 0 <= i < |steps| :: !IsFailureOf(steps[i], e.id)
  {
    hide Handle, Run, RetrievalFailures, IsFailureOf, NoFailureNoted;
    assert NoFailureNoted(map[]) by { NothingNoted(); }
    RunNotesNoFailure(map[], steps);
    HandleNotesNoFailure(Run(map[], steps).lives, now, e);
    assert !IsNonzeroFailedRecord()(x);
    NoRetrievalFailures(steps, e.id);
  }

  lemma {:induction false} NothingNoted()
    ensures NoFailureNoted(map[])
  {
  }

  /** Whatever ran before: a success after a failed retrieval of the same request records 0. */
  lemma {:induction false} V1FailureIsNotRecorded(steps: seq<Step>, failure: Step, now: Time, e: Event)
    requires e.SuccessEvent? && Touches(e) && IsFailureOf(failure, e.id)
    ensures Record(FailedRetrievalsPerRequest, Amount(0), map[]) in Handle(Run(map[], steps + [failure]).lives, now, e).out
    ensures RetrievalFailures(steps + [failure], e.id) > 0
  {
    hide Fold, Run;
    var h := Handle(Run(map[], steps + [failure]).lives, now, e);
    var x := h.out[7];
    assert NoFailureNoted(map[]);
    RunNotesNoFailure(map[], steps + [failure]);
    HandleNotesNoFailure(Run(map[], steps + [failure]).lives, now, e);
    assert !IsNonzeroFailedRecord()(x);
    NoRetrievalFailures(steps + [failure], e.id);
    assert (steps + [failure])[|steps|] == failure;
  }
}
