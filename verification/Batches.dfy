/**
 RecordAggregateEvents calls at the same time: each sends two batches, and the
 batches of different calls reach the database in any order.
 */
module Batches {
  import opened Instruments
  import opened Events
  import opened Tables
  import opened Recorder

  datatype Stage =
    | Waiting         // the batch of events is next
    | EventsIn        // the batch of attempts is next
    | Returned(err: bool)

  datatype State = State(db: Db, stages: seq<Stage>)

  predicate AllFit(requests: seq<Request>) {
    forall i | 0 <= i < |requests| :: FitAll(requests[i].events, requests[i].envs)
  }

  function Parents(r: Request, p: Parsers): seq<AggregateRow>
    requires FitAll(r.events, r.envs)
  {
    EventRows(r.events, r.envs, p, |r.events|)
  }

  function Children(r: Request, p: Parsers): seq<FanOut.AttemptRow>
    requires FitAll(r.events, r.envs)
  {
    AttemptRows(r.events, r.envs, p, |r.events|)
  }

  function Start(db: Db, n: nat): State {
    State(db, seq(n, _ => Waiting))
  }

  /** The next batch of call i, if it has one to send. */
  function Next(requests: seq<Request>, s: State, i: nat, p: Parsers, uuid: UuidParser): State
    requires AllFit(requests) && |s.stages| == |requests|
  {
    if i >= |requests| then s
    else
      var r := requests[i];
      match s.stages[i]
      case Waiting =>
        var after := if r.net.first then InsertEvents(s.db, Parents(r, p), uuid) else None;
        if after.Some? then State(after.value, s.stages[i := EventsIn]) else s.(stages := s.stages[i := Returned(true)])
      case EventsIn =>
        var after := if r.net.second then InsertAttempts(s.db, Children(r, p), uuid) else None;
        if after.Some? then State(after.value, s.stages[i := Returned(false)]) else s.(stages := s.stages[i := Returned(true)])
      case Returned(_) => s
  }

  function Run(requests: seq<Request>, s: State, schedule: seq<nat>, p: Parsers, uuid: UuidParser): (r: State)
    requires AllFit(requests) && |s.stages| == |requests|
    ensures |r.stages| == |requests|
  {
    if schedule == [] then s
    else Next(requests, Run(requests, s, schedule[..|schedule| - 1], p, uuid), schedule[|schedule| - 1], p, uuid)
  }

  predicate InTable(db: Db, r: Request, k: nat, uuid: UuidParser)
    requires k < |r.events|
  {
    uuid(r.events[k].retrievalID).Some? && uuid(r.events[k].retrievalID).value in db.events
  }

  /** The events of a call whose first batch got through are in the table. */
  ghost predicate Inv(requests: seq<Request>, s: State, uuid: UuidParser) {
    && ForeignKey(s.db) && |s.stages| == |requests|
    && forall i, k | 0 <= i < |requests| && 0 <= k < |requests[i].events| ::
         (s.stages[i].EventsIn? || s.stages[i] == Returned(false)) ==> InTable(s.db, requests[i], k, uuid)
  }

  lemma {:induction false} EventsStay(requests: seq<Request>, s: State, i: nat, p: Parsers, uuid: UuidParser)
    requires AllFit(requests) && |s.stages| == |requests|
    ensures s.db.events.Keys <= Next(requests, s, i, p, uuid).db.events.Keys
  {
    hide FitAll, Parents, Children, InsertEvents, InsertAttempts;
    if i < |requests| {
      var r := requests[i];
      if InsertEvents(s.db, Parents(r, p), uuid).Some? { EventsInserted(s.db, Parents(r, p), uuid); }
      AttemptsAccepted(s.db, Children(r, p), uuid);
    }
  }

  lemma {:induction false} ParentsAreIn(db: Db, r: Request, k: nat, p: Parsers, uuid: UuidParser)
    requires FitAll(r.events, r.envs) && k < |r.events| && InsertEvents(db, Parents(r, p), uuid).Some?
    ensures InTable(InsertEvents(db, Parents(r, p), uuid).value, r, k, uuid)
  {
    EventsInserted(db, Parents(r, p), uuid);
    EventRowAt(r.events, r.envs, p, |r.events|);
    assert Parents(r, p)[k].event.retrievalID == r.events[k].retrievalID;
  }

  lemma {:induction false} NextKeepsKey(requests: seq<Request>, s: State, i: nat, p: Parsers, uuid: UuidParser)
    requires AllFit(requests) && |s.stages| == |requests| && ForeignKey(s.db)
    ensures ForeignKey(Next(requests, s, i, p, uuid).db)
  {
    hide FitAll, Parents, Children, InsertEvents, InsertAttempts, ForeignKey;
    if i < |requests| { InsertsKeepForeignKey(s.db, Parents(requests[i], p), Children(requests[i], p), uuid); }
  }

  lemma {:induction false} NextKeepsInv(requests: seq<Request>, s: State, i: nat, p: Parsers, uuid: UuidParser)
    requires AllFit(requests) && Inv(requests, s, uuid)
    ensures Inv(requests, Next(requests, s, i, p, uuid), uuid)
  {
    hide FitAll, Parents, Children, InsertEvents, InsertAttempts, ForeignKey;
    NextKeepsKey(requests, s, i, p, uuid);
    var s' := Next(requests, s, i, p, uuid);
    forall j, k | 0 <= j < |requests| && 0 <= k < |requests[j].events| && (s'.stages[j].EventsIn? || s'.stages[j] == Returned(false))
      ensures InTable(s'.db, requests[j], k, uuid)
    {
      EventsStay(requests, s, i, p, uuid);
      if j == i && s.stages[i].Waiting? {
        ParentsAreIn(s.db, requests[i], k, p, uuid);
      } else {
        assert InTable(s.db, requests[j], k, uuid);
      }
    }
  }

  lemma {:induction false} RunKeepsInv(requests: seq<Request>, db: Db, schedule: seq<nat>, p: Parsers, uuid: UuidParser)
    requires AllFit(requests) && ForeignKey(db)
    ensures Inv(requests, Run(requests, Start(db, |requests|), schedule, p, uuid), uuid)
  {
    hide Next, AllFit;
    if schedule != [] {
      var front := schedule[..|schedule| - 1];
      RunKeepsInv(requests, db, front, p, uuid);
      NextKeepsInv(requests, Run(requests, Start(db, |requests|), front, p, uuid), schedule[|schedule| - 1], p, uuid);
    }
  }

  lemma {:induction false} ChildrenFit(db: Db, r: Request, p: Parsers, uuid: UuidParser)
    requires FitAll(r.events, r.envs) && forall k | 0 <= k < |r.events| :: InTable(db, r, k, uuid)
    ensures InsertAttempts(db, Children(r, p), uuid).Some?
  {
    hide FitAll, InsertAttempts;
    var rows := Children(r, p);
    forall i | 0 <= i < |rows| ensures uuid(rows[i].retrievalID).Some? && uuid(rows[i].retrievalID).value in db.events {
      AttemptRowsHaveParents(r.events, r.envs, p, |r.events|, i);
      var k :| 0 <= k < |r.events| && r.events[k].retrievalID == rows[i].retrievalID;
      assert InTable(db, r, k, uuid);
    }
    AttemptsAccepted(db, rows, uuid);
  }

  /**
   However the batches of any number of calls interleave: no attempt row is ever
   without its event row, and once the events of a call are in, its attempts
   cannot break the foreign key, whatever other calls do in between.
   */
  lemma {:induction false} ForeignKeyUnderInterleaving(
      requests: seq<Request>, db: Db, schedule: seq<nat>, p: Parsers, uuid: UuidParser, i: nat)
    requires AllFit(requests) && ForeignKey(db) && i < |requests|
    ensures var s := Run(requests, Start(db, |requests|), schedule, p, uuid);
      && ForeignKey(s.db)
      && (s.stages[i].EventsIn? ==> InsertAttempts(s.db, Children(requests[i], p), uuid).Some?)
  {
    hide Run, FitAll, Children, InsertAttempts;
    RunKeepsInv(requests, db, schedule, p, uuid);
    var s := Run(requests, Start(db, |requests|), schedule, p, uuid);
    if s.stages[i].EventsIn? {
      forall k | 0 <= k < |requests[i].events| ensures InTable(s.db, requests[i], k, uuid) {}
      ChildrenFit(s.db, requests[i], p, uuid);
    }
  }

  /**
   So the only things that fail a call are its connection, and event IDs that do
   not fit the table as it is when the first batch gets there.
   */
  lemma {:induction false} WhatFailsACall(
      requests: seq<Request>, db: Db, schedule: seq<nat>, p: Parsers, uuid: UuidParser, i: nat)
    requires AllFit(requests) && ForeignKey(db) && i < |requests|
    ensures var s := Run(requests, Start(db, |requests|), schedule, p, uuid); var s' := Next(requests, s, i, p, uuid);
      && (s.stages[i].Waiting? ==>
            (s'.stages[i] == Returned(true) <==> !requests[i].net.first || !Insertable(s.db, Parents(requests[i], p), uuid))
            && (s'.stages[i] == Returned(true) ==> s'.db == s.db))
      && (s.stages[i].EventsIn? ==>
            (s'.stages[i] == Returned(true) <==> !requests[i].net.second)
            && (s'.stages[i] == Returned(true) ==> s'.db == s.db))
  {
    hide Run, FitAll, Children, InsertAttempts, Insertable, InsertEvents;
    ForeignKeyUnderInterleaving(requests, db, schedule, p, uuid, i);
    EventsAccepted(Run(requests, Start(db, |requests|), schedule, p, uuid).db, Parents(requests[i], p), uuid);
  }

  /** A call that sends both of its batches without another in between does what the call on its own does. */
  lemma {:induction false} AloneIsSendBoth(requests: seq<Request>, s: State, i: nat, p: Parsers, uuid: UuidParser)
    requires AllFit(requests) && |s.stages| == |requests| && i < |requests| && s.stages[i].Waiting?
    ensures var s2 := Next(requests, Next(requests, s, i, p, uuid), i, p, uuid); var r := requests[i];
      var sent := SendBoth(s.db, Parents(r, p), Children(r, p), uuid, r.net);
      s2.db == sent.0 && s2.stages[i] == Returned(sent.1)
  {
    hide FitAll, Parents, Children, InsertAttempts, InsertEvents;
  }
}
