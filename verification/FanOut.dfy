/**
 The goroutines of RecordAggregateEvents: one for each attempt of one event.
 Each finds out its Filecoin SP ID, then takes the lock, writes the shared
 attempts map, queues its row, and lets the lock go.
 */
module FanOut {
  import opened GoTime
  import opened Instruments
  import opened Aggregate
  import opened Events

  datatype AttemptRow = AttemptRow(
    retrievalID: string, storageProviderID: string, filSPID: string, timeToFirstByte: Duration,
    bytesTransferred: uint64, error: string, protocol: string)

  /** lassieSPIDToFilecoinSPID, when the SP map answers this. */
  function FilSPID(sp: string, answer: string, p: Parsers): string {
    if sp == "" || sp == "Bitswap" || !p.peer(sp) then "" else answer
  }

  function MetricsAttempt(a: RetrievalAttempt, filSPID: string, p: Parsers): Attempt {
    Attempt(filSPID, a.error, a.protocol, ParseOrZero(a.timeToFirstByte, p), a.bytesTransferred)
  }

  function RowOf(e: AggregateEvent, sp: string, filSPID: string, p: Parsers): AttemptRow
    requires sp in e.retrievalAttempts && e.retrievalAttempts[sp].Some?
  {
    var a := e.retrievalAttempts[sp].value;
    AttemptRow(e.retrievalID, sp, filSPID, ParseOrZero(a.timeToFirstByte, p), a.bytesTransferred, a.error, a.protocol)
  }

  // ---------- the outcome, given the order in which the lock was taken ----------

  // What the SP map answered each goroutine
  type Answers = map<string, string>

  predicate AnswersAll(e: AggregateEvent, answers: Answers) {
    answers.Keys == e.retrievalAttempts.Keys
  }

  /** The attempts map: the image of the event's attempts, key by key. */
  function AttemptsOf(e: AggregateEvent, answers: Answers, p: Parsers): Attempts
    requires NoNilAttempt(e) && AnswersAll(e, answers)
  {
    map sp | sp in e.retrievalAttempts :: MetricsAttempt(e.retrievalAttempts[sp].value, FilSPID(sp, answers[sp], p), p)
  }

  function RowsOf(e: AggregateEvent, order: seq<string>, answers: Answers, p: Parsers): (rows: seq<AttemptRow>)
    requires NoNilAttempt(e) && AnswersAll(e, answers) && forall sp | sp in order :: sp in e.retrievalAttempts
    ensures |rows| == |order|
    ensures forall i | 0 <= i < |order| :: rows[i] == RowOf(e, order[i], FilSPID(order[i], answers[order[i]], p), p)
  {
    if order == [] then []
    else
      var sp := order[|order| - 1];
      RowsOf(e, order[..|order| - 1], answers, p) + [RowOf(e, sp, FilSPID(sp, answers[sp], p), p)]
  }

  // ---------- the goroutines ----------

  datatype Pc =
    | Running
    | Resolved(filSPID: string)   // the SP map has answered
    | Locked(filSPID: string)
    | Written(filSPID: string)    // the map entry is there, the row is not
    | Queued(filSPID: string)     // both are there, the lock is still held
    | Finished(filSPID: string)

  datatype State = State(
    pcs: map<string, Pc>,
    lock: Option<string>,
    attempts: Attempts,
    rows: seq<AttemptRow>,
    order: seq<string>)           // history: the goroutines in the order they queued their rows

  function Start(e: AggregateEvent, rows: seq<AttemptRow>): State {
    State(map sp | sp in e.retrievalAttempts :: Running, None, map[], rows, [])
  }

  datatype Action =
    | Resolve(sp: string, answer: string)
    | Lock(sp: string)
    | WriteMap(sp: string)
    | QueueRow(sp: string)
    | Unlock(sp: string)

  predicate Enabled(s: State, a: Action) {
    a.sp in s.pcs &&
    match a
    case Resolve(sp, _) => s.pcs[sp].Running?
    case Lock(sp) => s.pcs[sp].Resolved? && s.lock == None
    case WriteMap(sp) => s.pcs[sp].Locked?
    case QueueRow(sp) => s.pcs[sp].Written?
    case Unlock(sp) => s.pcs[sp].Queued?
  }

  function Step(e: AggregateEvent, p: Parsers, s: State, a: Action): State
    requires NoNilAttempt(e)
  {
    if !Enabled(s, a) || a.sp !in e.retrievalAttempts then s else
    match a
    case Resolve(sp, answer) => s.(pcs := s.pcs[sp := Resolved(FilSPID(sp, answer, p))])
    case Lock(sp) => s.(pcs := s.pcs[sp := Locked(s.pcs[sp].filSPID)], lock := Some(sp))
    case WriteMap(sp) =>
      var fil := s.pcs[sp].filSPID;
      s.(pcs := s.pcs[sp := Written(fil)],
         attempts := s.attempts[sp := MetricsAttempt(e.retrievalAttempts[sp].value, fil, p)])
    case QueueRow(sp) =>
      var fil := s.pcs[sp].filSPID;
      s.(pcs := s.pcs[sp := Queued(fil)], rows := s.rows + [RowOf(e, sp, fil, p)], order := s.order + [sp])
    case Unlock(sp) => s.(pcs := s.pcs[sp := Finished(s.pcs[sp].filSPID)], lock := None)
  }

  function Run(e: AggregateEvent, p: Parsers, s: State, actions: seq<Action>): State
    requires NoNilAttempt(e)
  {
    if actions == [] then s
    else Step(e, p, Run(e, p, s, actions[..|actions| - 1]), actions[|actions| - 1])
  }

  /** wg.Wait returns when every goroutine has finished. */
  predicate AllFinished(s: State) {
    forall sp | sp in s.pcs :: s.pcs[sp].Finished?
  }

  // ---------- what every step keeps ----------

  predicate InCriticalSection(pc: Pc) {
    pc.Locked? || pc.Written? || pc.Queued?
  }

  predicate HasEntry(pc: Pc) {
    pc.Written? || pc.Queued? || pc.Finished?
  }

  predicate HasRow(pc: Pc) {
    pc.Queued? || pc.Finished?
  }

  /** Only the holder of the lock is in the critical section. */
  ghost predicate Exclusive(s: State) {
    forall sp | sp in s.pcs :: InCriticalSection(s.pcs[sp]) <==> s.lock == Some(sp)
  }

  ghost predicate Filled(e: AggregateEvent, p: Parsers, s: State)
    requires NoNilAttempt(e)
  {
    && s.pcs.Keys == e.retrievalAttempts.Keys
    && (forall sp :: sp in s.attempts <==> sp in s.pcs && HasEntry(s.pcs[sp]))
    && (forall sp | sp in s.attempts && sp in s.pcs && HasEntry(s.pcs[sp]) ::
          s.attempts[sp] == MetricsAttempt(e.retrievalAttempts[sp].value, s.pcs[sp].filSPID, p))
  }

  ghost predicate Lined(e: AggregateEvent, p: Parsers, base: seq<AttemptRow>, s: State)
    requires NoNilAttempt(e)
  {
    && s.pcs.Keys == e.retrievalAttempts.Keys
    && Distinct(s.order)
    && (forall sp :: sp in s.order <==> sp in s.pcs && HasRow(s.pcs[sp]))
    && |s.rows| == |base| + |s.order| && s.rows[..|base|] == base
    && (forall i | 0 <= i < |s.order| ::
          s.order[i] in s.pcs && HasRow(s.pcs[s.order[i]])
          && s.rows[|base| + i] == RowOf(e, s.order[i], s.pcs[s.order[i]].filSPID, p))
  }

  /** The answer that the goroutine for sp was given: it asks once. */
  function Told(actions: seq<Action>, sp: string): Option<string> {
    if actions == [] then None
    else
      var before, a := Told(actions[..|actions| - 1], sp), actions[|actions| - 1];
      if before == None && a.Resolve? && a.sp == sp then Some(a.answer) else before
  }

  /** Each goroutine goes on with what it was told. */
  ghost predicate AsTold(p: Parsers, actions: seq<Action>, s: State) {
    forall sp | sp in s.pcs :: AsToldAt(p, actions, s.pcs[sp], sp)
  }

  predicate AsToldAt(p: Parsers, actions: seq<Action>, pc: Pc, sp: string) {
    match Told(actions, sp)
    case None => pc.Running?
    case Some(answer) => !pc.Running? && pc.filSPID == FilSPID(sp, answer, p)
  }

  ghost predicate Inv(e: AggregateEvent, p: Parsers, base: seq<AttemptRow>, actions: seq<Action>, s: State)
    requires NoNilAttempt(e)
  {
    Exclusive(s) && Filled(e, p, s) && Lined(e, p, base, s) && AsTold(p, actions, s)
  }

  lemma {:induction false} StepKeepsExclusive(e: AggregateEvent, p: Parsers, s: State, a: Action)
    requires NoNilAttempt(e) && Exclusive(s)
    ensures Exclusive(Step(e, p, s, a))
  {
  }

  lemma {:induction false} StepKeepsFilled(e: AggregateEvent, p: Parsers, s: State, a: Action)
    requires NoNilAttempt(e) && Filled(e, p, s)
    ensures Filled(e, p, Step(e, p, s, a))
  {
  }

  lemma {:induction false} StepKeepsLined(e: AggregateEvent, p: Parsers, base: seq<AttemptRow>, s: State, a: Action)
    requires NoNilAttempt(e) && Lined(e, p, base, s)
    ensures Lined(e, p, base, Step(e, p, s, a))
  {
    var s' := Step(e, p, s, a);
    if a.QueueRow? && Enabled(s, a) {
      assert a.sp !in s.order;
      assert forall i | 0 <= i < |s.order| :: s.order[i] in s.order && s.order[i] != a.sp;
      assert forall sp :: sp in s'.order <==> sp in s.order || sp == a.sp;
    }
  }

  lemma {:induction false} StepKeepsTold(e: AggregateEvent, p: Parsers, actions: seq<Action>, s: State, a: Action)
    requires NoNilAttempt(e) && s.pcs.Keys == e.retrievalAttempts.Keys && AsTold(p, actions, s)
    ensures AsTold(p, actions + [a], Step(e, p, s, a))
  {
    hide FilSPID;
    var s' := Step(e, p, s, a);
    assert (actions + [a])[..|actions|] == actions;
    forall sp | sp in s'.pcs ensures AsToldAt(p, actions + [a], s'.pcs[sp], sp) {
      assert AsToldAt(p, actions, s.pcs[sp], sp);
    }
  }

  lemma {:induction false} RunKeepsInv(e: AggregateEvent, p: Parsers, base: seq<AttemptRow>, actions: seq<Action>)
    requires NoNilAttempt(e)
    ensures Inv(e, p, base, actions, Run(e, p, Start(e, base), actions))
  {
    if actions == [] {
      var s := Start(e, base);
      assert forall sp :: sp !in s.order;
    } else {
      var front, a := actions[..|actions| - 1], actions[|actions| - 1];
      var before := Run(e, p, Start(e, base), front);
      RunKeepsInv(e, p, base, front);
      StepKeepsExclusive(e, p, before, a);
      StepKeepsFilled(e, p, before, a);
      StepKeepsLined(e, p, base, before, a);
      assert actions == front + [a];
      StepKeepsTold(e, p, front, before, a);
    }
  }

  /** No two goroutines touch the shared map or the batch at the same time. */
  lemma {:induction false} MutualExclusion(e: AggregateEvent, p: Parsers, base: seq<AttemptRow>, actions: seq<Action>, x: string, y: string)
    requires NoNilAttempt(e)
    requires var s := Run(e, p, Start(e, base), actions);
      x in s.pcs && y in s.pcs && InCriticalSection(s.pcs[x]) && InCriticalSection(s.pcs[y])
    ensures x == y
  {
    RunKeepsInv(e, p, base, actions);
  }

  // The next step of the goroutine for sp
  function NextOf(sp: string, pc: Pc): Action {
    match pc
    case Running => Resolve(sp, "")
    case Resolved(_) => Lock(sp)
    case Locked(_) => WriteMap(sp)
    case Written(_) => QueueRow(sp)
    case _ => Unlock(sp)
  }

  /** The goroutines never block one another for good: until all have finished, one can take its next step. */
  lemma {:induction false} NoDeadlock(e: AggregateEvent, p: Parsers, base: seq<AttemptRow>, actions: seq<Action>, s: State)
    returns (sp: string)
    requires NoNilAttempt(e) && s == Run(e, p, Start(e, base), actions) && !AllFinished(s)
    ensures sp in s.pcs && !s.pcs[sp].Finished? && Enabled(s, NextOf(sp, s.pcs[sp]))
  {
    RunKeepsInv(e, p, base, actions);
    sp :| sp in s.pcs && !s.pcs[sp].Finished?;
    if s.lock.Some? && s.lock.value in s.pcs {
      sp := s.lock.value;
      assert InCriticalSection(s.pcs[sp]);
    } else if s.lock.Some? {
      LockHolderRuns(e, p, base, actions);
    }
  }

  lemma {:induction false} LockHolderRuns(e: AggregateEvent, p: Parsers, base: seq<AttemptRow>, actions: seq<Action>)
    requires NoNilAttempt(e)
    ensures var s := Run(e, p, Start(e, base), actions); s.lock.Some? ==> s.lock.value in s.pcs
  {
    if actions != [] {
      LockHolderRuns(e, p, base, actions[..|actions| - 1]);
    }
  }

  /** What the SP map answered to the goroutines, one by one. */
  function AnswersIn(e: AggregateEvent, actions: seq<Action>): Answers {
    map sp | sp in e.retrievalAttempts && Told(actions, sp).Some? :: Told(actions, sp).value
  }

  lemma {:induction false} FinishedAsTold(e: AggregateEvent, p: Parsers, base: seq<AttemptRow>, actions: seq<Action>, s: State)
    requires NoNilAttempt(e) && Inv(e, p, base, actions, s) && AllFinished(s)
    ensures AnswersAll(e, AnswersIn(e, actions))
    ensures forall sp | sp in s.pcs :: s.pcs[sp].filSPID == FilSPID(sp, AnswersIn(e, actions)[sp], p)
  {
    hide FilSPID, Told;
    forall sp | sp in s.pcs ensures Told(actions, sp).Some? && s.pcs[sp].filSPID == FilSPID(sp, AnswersIn(e, actions)[sp], p) {
      assert AsToldAt(p, actions, s.pcs[sp], sp);
    }
  }

  lemma {:induction false} FinishedAttempts(e: AggregateEvent, p: Parsers, base: seq<AttemptRow>, actions: seq<Action>, s: State)
    requires NoNilAttempt(e) && Inv(e, p, base, actions, s) && AllFinished(s)
    ensures AnswersAll(e, AnswersIn(e, actions)) && s.attempts == AttemptsOf(e, AnswersIn(e, actions), p)
  {
    hide FilSPID, Told, AnswersIn, Lined, Exclusive;
    FinishedAsTold(e, p, base, actions, s);
  }

  lemma {:induction false} FinishedRows(e: AggregateEvent, p: Parsers, base: seq<AttemptRow>, actions: seq<Action>, s: State)
    requires NoNilAttempt(e) && Inv(e, p, base, actions, s) && AllFinished(s)
    ensures AnswersAll(e, AnswersIn(e, actions))
    ensures IsOrder(s.order, e.retrievalAttempts) && s.rows == base + RowsOf(e, s.order, AnswersIn(e, actions), p)
  {
    hide FilSPID, Told, AnswersIn, Filled, Exclusive, RowOf, RowsOf;
    FinishedAsTold(e, p, base, actions, s);
  }

  /**
   However the goroutines interleave, when all have finished the map is the
   image of the event's attempts, each with the SP ID that its own goroutine was
   told, each attempt has exactly one row with that same ID, and the rows come
   after those of earlier events. All that is left of the schedule is the order
   of the rows.
   */
  lemma {:induction false} ScheduleIndependence(e: AggregateEvent, p: Parsers, base: seq<AttemptRow>, actions: seq<Action>, s: State)
    returns (order: seq<string>)
    requires NoNilAttempt(e) && s == Run(e, p, Start(e, base), actions) && AllFinished(s)
    ensures IsOrder(order, e.retrievalAttempts) && AnswersAll(e, AnswersIn(e, actions))
    ensures s.attempts == AttemptsOf(e, AnswersIn(e, actions), p)
    ensures s.rows == base + RowsOf(e, order, AnswersIn(e, actions), p)
  {
    RunKeepsInv(e, p, base, actions);
    order := s.order;
    FinishedAttempts(e, p, base, actions, s);
    FinishedRows(e, p, base, actions, s);
  }

  /** A duration that was sent as this text: 0 if it was left out or does not parse. */
  predicate IsDuration(d: Duration, text: string, p: Parsers) {
    if text == "" then d == 0
    else match p.duration(text)
      case Some(parsed) => d == parsed
      case None => d == 0
  }

  /**
   What the map holds for each attempt in the end, field by field. The SP ID is
   what its goroutine was told, if the key is a peer ID that parses; there is
   none for Bitswap, for an empty key or for one that does not parse.
   */
  lemma {:induction false} AttemptAsTold(e: AggregateEvent, p: Parsers, base: seq<AttemptRow>, actions: seq<Action>, s: State, sp: string)
    requires NoNilAttempt(e) && s == Run(e, p, Start(e, base), actions) && AllFinished(s) && sp in e.retrievalAttempts
    ensures sp in s.attempts && Told(actions, sp).Some?
    ensures var sent, kept := e.retrievalAttempts[sp].value, s.attempts[sp];
      && kept.error == sent.error && kept.protocol == sent.protocol && kept.bytesTransferred == sent.bytesTransferred
      && IsDuration(kept.timeToFirstByte, sent.timeToFirstByte, p)
      && kept.filSPID == if p.peer(sp) && sp != "" && sp != "Bitswap" then Told(actions, sp).value else ""
  {
    hide Run, Inv, Told;
    RunKeepsInv(e, p, base, actions);
    FinishedAttempts(e, p, base, actions, s);
  }

  /** The rows that are queued, field by field; theirs is the same SP ID as in the map. */
  lemma {:induction false} RowAsTold(e: AggregateEvent, p: Parsers, base: seq<AttemptRow>, actions: seq<Action>, s: State, i: nat)
    requires NoNilAttempt(e) && s == Run(e, p, Start(e, base), actions) && AllFinished(s) && |base| <= i < |s.rows|
    ensures var row := s.rows[i]; var sp := row.storageProviderID;
      && row.retrievalID == e.retrievalID && sp in e.retrievalAttempts && Told(actions, sp).Some?
      && var sent := e.retrievalAttempts[sp].value;
        && row.error == sent.error && row.protocol == sent.protocol && row.bytesTransferred == sent.bytesTransferred
        && IsDuration(row.timeToFirstByte, sent.timeToFirstByte, p)
        && row.filSPID == if p.peer(sp) && sp != "" && sp != "Bitswap" then Told(actions, sp).value else ""
  {
    hide Run, Inv, Told;
    RunKeepsInv(e, p, base, actions);
    FinishedRows(e, p, base, actions, s);
    var order, answers := s.order, AnswersIn(e, actions);
    assert s.rows[i] == RowsOf(e, order, answers, p)[i - |base|];
    assert order[i - |base|] in (set k | k in order);
  }

  function Without(order: seq<string>, i: nat): seq<string>
    requires i < |order|
  {
    order[..i] + order[i + 1..]
  }

  lemma {:induction false} RowsWithout(e: AggregateEvent, order: seq<string>, i: nat, answers: Answers, p: Parsers)
    requires NoNilAttempt(e) && AnswersAll(e, answers) && i < |order| && forall sp | sp in order :: sp in e.retrievalAttempts
    ensures forall sp | sp in Without(order, i) :: sp in e.retrievalAttempts
    ensures multiset(RowsOf(e, order, answers, p)) == multiset(RowsOf(e, Without(order, i), answers, p))
         + multiset{RowOf(e, order[i], FilSPID(order[i], answers[order[i]], p), p)}
  {
    hide RowOf, RowsOf, FilSPID;
    var rows := RowsOf(e, order, answers, p);
    MultisetWithout(rows, i);
    assert RowsOf(e, Without(order, i), answers, p) == rows[..i] + rows[i + 1..];
    assert rows[i] in multiset(rows);
  }

  lemma {:induction false} PermutedRows(e: AggregateEvent, o1: seq<string>, o2: seq<string>, answers: Answers, p: Parsers)
    requires NoNilAttempt(e) && AnswersAll(e, answers) && multiset(o1) == multiset(o2)
    requires (forall sp | sp in o1 :: sp in e.retrievalAttempts) && forall sp | sp in o2 :: sp in e.retrievalAttempts
    ensures multiset(RowsOf(e, o1, answers, p)) == multiset(RowsOf(e, o2, answers, p))
    decreases |o1|
  {
    hide RowOf, RowsOf, FilSPID, NoNilAttempt, AnswersAll, Without;
    if o1 == [] {
      assert |o2| == |multiset(o2)| == 0;
    } else {
      assert o1[0] in multiset(o2);
      var i :| 0 <= i < |o2| && o2[i] == o1[0];
      WithoutSame(o1, o2, i);
      RowsWithout(e, o1, 0, answers, p);
      RowsWithout(e, o2, i, answers, p);
      PermutedRows(e, Without(o1, 0), Without(o2, i), answers, p);
    }
  }

  lemma {:induction false} WithoutSame(o1: seq<string>, o2: seq<string>, i: nat)
    requires multiset(o1) == multiset(o2) && o1 != [] && i < |o2| && o2[i] == o1[0]
    ensures multiset(Without(o1, 0)) == multiset(Without(o2, i)) && |Without(o1, 0)| < |o1|
    ensures forall x | x in Without(o1, 0) :: x in o1
    ensures forall x | x in Without(o2, i) :: x in o2
  {
    MultisetWithout(o1, 0);
    MultisetWithout(o2, i);
  }

  lemma {:induction false} OrdersArePermutations<V>(o1: seq<string>, o2: seq<string>, m: map<string, V>)
    requires IsOrder(o1, m) && IsOrder(o2, m)
    ensures multiset(o1) == multiset(o2)
  {
    forall k ensures multiset(o1)[k] == multiset(o2)[k] {
      OnceEach(o1, m, k);
      OnceEach(o2, m, k);
    }
  }

  lemma {:induction false} OnceEach<V>(order: seq<string>, m: map<string, V>, k: string)
    requires IsOrder(order, m)
    ensures multiset(order)[k] == if k in m then 1 else 0
  {
    assert k in (set x | x in order) <==> k in m.Keys;
    OnceInDistinct(order, k);
  }

  /** Two schedules in which every goroutine is told the same end with the same map and the same rows, in some order. */
  lemma {:induction false} SameAnswersSameOutcome(e: AggregateEvent, p: Parsers, base: seq<AttemptRow>, a1: seq<Action>, a2: seq<Action>)
    requires NoNilAttempt(e) && AnswersIn(e, a1) == AnswersIn(e, a2)
    requires AllFinished(Run(e, p, Start(e, base), a1)) && AllFinished(Run(e, p, Start(e, base), a2))
    ensures var s1, s2 := Run(e, p, Start(e, base), a1), Run(e, p, Start(e, base), a2);
      s1.attempts == s2.attempts && multiset(s1.rows) == multiset(s2.rows)
  {
    hide Run, RowsOf, AttemptsOf, AnswersIn, AllFinished;
    var o1 := ScheduleIndependence(e, p, base, a1, Run(e, p, Start(e, base), a1));
    var o2 := ScheduleIndependence(e, p, base, a2, Run(e, p, Start(e, base), a2));
    OrdersArePermutations(o1, o2, e.retrievalAttempts);
    assert forall sp | sp in o1 :: sp in (set x | x in o1);
    assert forall sp | sp in o2 :: sp in (set x | x in o2);
    PermutedRows(e, o1, o2, AnswersIn(e, a1), p);
  }
}
