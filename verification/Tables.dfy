/**
 The aggregate tables of schema.sql: retrieval_id is UNIQUE in
 aggregate_retrieval_events, and retrieval_attempts refers to it. A batch is one
 transaction: all of its rows go in, or none.
 */
module Tables {
  import opened GoTime
  import opened Instruments
  import opened Events
  import opened FanOut

  type Uuid = string

  // A row keeps the event without its attempts
  datatype AggregateRow = AggregateRow(
    event: AggregateEvent, filSPID: string, timeToFirstByte: Duration, timeToFirstIndexerResult: Duration)

  datatype Db = Db(events: map<Uuid, AggregateRow>, attempts: seq<(Uuid, AttemptRow)>)

  /** Every attempt row refers to an event row. */
  predicate ForeignKey(db: Db) {
    forall i | 0 <= i < |db.attempts| :: db.attempts[i].0 in db.events
  }

  // How the database reads a retrieval ID as a uuid
  type UuidParser = string -> Option<Uuid>

  function InsertEvents(db: Db, rows: seq<AggregateRow>, uuid: UuidParser): Option<Db>
    decreases |rows|
  {
    if rows == [] then Some(db)
    else
      match uuid(rows[0].event.retrievalID)
      case None => None
      case Some(id) =>
        if id in db.events then None
        else InsertEvents(db.(events := db.events[id := rows[0]]), rows[1..], uuid)
  }

  function InsertAttempts(db: Db, rows: seq<AttemptRow>, uuid: UuidParser): Option<Db>
    decreases |rows|
  {
    if rows == [] then Some(db)
    else
      match uuid(rows[0].retrievalID)
      case None => None
      case Some(id) =>
        if id !in db.events then None
        else InsertAttempts(db.(attempts := db.attempts + [(id, rows[0])]), rows[1..], uuid)
  }

  // ---------- when a batch goes through, and what it leaves ----------

  /** Each ID is a uuid, new to the table, and occurs once in the batch. */
  predicate Insertable(db: Db, rows: seq<AggregateRow>, uuid: UuidParser) {
    && (forall i | 0 <= i < |rows| ::
          uuid(rows[i].event.retrievalID).Some? && uuid(rows[i].event.retrievalID).value !in db.events)
    && (forall i, j | 0 <= i < j < |rows| :: uuid(rows[i].event.retrievalID) != uuid(rows[j].event.retrievalID))
  }

  /** The batch of events goes through if and only if its IDs are uuids, new, and distinct. */
  lemma {:induction false} EventsAccepted(db: Db, rows: seq<AggregateRow>, uuid: UuidParser)
    ensures InsertEvents(db, rows, uuid).Some? <==> Insertable(db, rows, uuid)
    decreases |rows|
  {
    if rows != [] && uuid(rows[0].event.retrievalID).Some? && uuid(rows[0].event.retrievalID).value !in db.events {
      var id := uuid(rows[0].event.retrievalID).value;
      var next := db.(events := db.events[id := rows[0]]);
      EventsAccepted(next, rows[1..], uuid);
      if Insertable(next, rows[1..], uuid) {
        forall i | 0 <= i < |rows|
          ensures uuid(rows[i].event.retrievalID).Some? && uuid(rows[i].event.retrievalID).value !in db.events
          ensures i > 0 ==> uuid(rows[i].event.retrievalID) != Some(id)
        {
          if i > 0 { assert rows[i] == rows[1..][i - 1]; }
        }
        forall i, j | 0 <= i < j < |rows|
          ensures uuid(rows[i].event.retrievalID) != uuid(rows[j].event.retrievalID)
        {
          if i > 0 { assert rows[i] == rows[1..][i - 1] && rows[j] == rows[1..][j - 1]; }
        }
      }
      if Insertable(db, rows, uuid) {
        forall i | 0 <= i < |rows[1..]|
          ensures uuid(rows[1..][i].event.retrievalID).Some? && uuid(rows[1..][i].event.retrievalID).value !in next.events
        {
          assert rows[1..][i] == rows[i + 1];
          assert uuid(rows[0].event.retrievalID) != uuid(rows[i + 1].event.retrievalID);
        }
      }
    }
  }

  /** What an accepted batch of events leaves: the old rows, the new ones under their IDs, and nothing else. */
  lemma {:induction false} EventsInserted(db: Db, rows: seq<AggregateRow>, uuid: UuidParser)
    requires InsertEvents(db, rows, uuid).Some?
    ensures var after := InsertEvents(db, rows, uuid).value;
      && after.attempts == db.attempts
      && (forall id | id in db.events :: id in after.events && after.events[id] == db.events[id])
      && (forall i | 0 <= i < |rows| ::
            var id := uuid(rows[i].event.retrievalID); id.Some? && id.value in after.events && after.events[id.value] == rows[i])
      && |after.events| == |db.events| + |rows|
    decreases |rows|
  {
    if rows != [] {
      var id := uuid(rows[0].event.retrievalID).value;
      var next := db.(events := db.events[id := rows[0]]);
      EventsInserted(next, rows[1..], uuid);
      var after := InsertEvents(db, rows, uuid).value;
      assert next.events.Keys == db.events.Keys + {id};
      assert |next.events| == |next.events.Keys| == |db.events| + 1;
      forall i | 0 <= i < |rows|
        ensures var key := uuid(rows[i].event.retrievalID); key.Some? && key.value in after.events && after.events[key.value] == rows[i]
      {
        if i > 0 { assert rows[i] == rows[1..][i - 1]; } else { assert next.events[id] == rows[0]; }
      }
    }
  }

  /** The batch of attempts goes through if and only if every row refers to an event row; its rows are appended in order. */
  lemma {:induction false} AttemptsAccepted(db: Db, rows: seq<AttemptRow>, uuid: UuidParser)
    ensures InsertAttempts(db, rows, uuid).Some? <==>
      forall i | 0 <= i < |rows| :: uuid(rows[i].retrievalID).Some? && uuid(rows[i].retrievalID).value in db.events
    ensures InsertAttempts(db, rows, uuid).Some? ==>
      var after := InsertAttempts(db, rows, uuid).value;
      after.events == db.events && |after.attempts| == |db.attempts| + |rows| && db.attempts <= after.attempts
      && forall i | 0 <= i < |rows| ::
        after.attempts[|db.attempts| + i].1 == rows[i] && Some(after.attempts[|db.attempts| + i].0) == uuid(rows[i].retrievalID)
    decreases |rows|
  {
    if rows != [] && uuid(rows[0].retrievalID).Some? && uuid(rows[0].retrievalID).value in db.events {
      var next := db.(attempts := db.attempts + [(uuid(rows[0].retrievalID).value, rows[0])]);
      AttemptsAccepted(next, rows[1..], uuid);
      assert forall i | 0 < i < |rows| :: rows[i] == rows[1..][i - 1];
      assert (forall i | 0 <= i < |rows[1..]| :: uuid(rows[1..][i].retrievalID).Some? && uuid(rows[1..][i].retrievalID).value in db.events)
        ==> forall i | 0 <= i < |rows| :: uuid(rows[i].retrievalID).Some? && uuid(rows[i].retrievalID).value in db.events;
      if InsertAttempts(db, rows, uuid).Some? {
        var after := InsertAttempts(db, rows, uuid).value;
        forall i | 0 <= i < |rows|
          ensures after.attempts[|db.attempts| + i].1 == rows[i]
          ensures Some(after.attempts[|db.attempts| + i].0) == uuid(rows[i].retrievalID)
        {
          if i > 0 {
            assert rows[i] == rows[1..][i - 1] && |db.attempts| + i == |next.attempts| + (i - 1);
          } else {
            assert after.attempts[|db.attempts|] == next.attempts[|db.attempts|];
          }
        }
      }
    }
  }

  lemma {:induction false} InsertsKeepForeignKey(db: Db, events: seq<AggregateRow>, attempts: seq<AttemptRow>, uuid: UuidParser)
    requires ForeignKey(db)
    ensures InsertEvents(db, events, uuid).Some? ==> ForeignKey(InsertEvents(db, events, uuid).value)
    ensures InsertAttempts(db, attempts, uuid).Some? ==> ForeignKey(InsertAttempts(db, attempts, uuid).value)
  {
    if InsertEvents(db, events, uuid).Some? {
      EventsInserted(db, events, uuid);
    }
    if InsertAttempts(db, attempts, uuid).Some? {
      AttemptsAccepted(db, attempts, uuid);
      var after := InsertAttempts(db, attempts, uuid).value;
      forall i | 0 <= i < |after.attempts| ensures after.attempts[i].0 in after.events {
        if i < |db.attempts| {
          assert after.attempts[i] == db.attempts[i];
        } else {
          var k := i - |db.attempts|;
          assert after.attempts[|db.attempts| + k].1 == attempts[k];
        }
      }
    }
  }
}
