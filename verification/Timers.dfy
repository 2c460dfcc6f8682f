/**
 The one-minute timers under an idealised clock. Timers are a part of the state
 of their own: one is armed when GetOrCreate makes an entry, stopped by
 RecordFinality, and deletes whatever entry its ID has when it goes off. Time
 does not pass a timer that is due: it has to go off first. Nothing is assumed
 about entries.
 */
module Timers {
  import opened GoTime
  import opened Lifetime
  import opened Handlers
  import R = Runs

  datatype Timer = Timer(id: RetrievalID, deadline: Time, armed: bool)

  datatype State = State(
    clock: Time,
    timers: seq<Timer>,                // all timers ever made
    timerOf: map<RetrievalID, nat>,    // the timer field of each entry
    lives: Lives)                      // what the entries mean

  datatype Action =
    | Receive(e: Event)     // a handler runs, now
    | Fire(k: nat)
    | Advance(to: Time)

  function Start(clock: Time): State {
    State(clock, [], map[], map[])
  }

  predicate Armed(s: State, k: nat) {
    k < |s.timers| && s.timers[k].armed
  }

  predicate Enabled(s: State, a: Action) {
    match a
    case Receive(_) => true
    case Fire(k) => Armed(s, k) && s.timers[k].deadline <= s.clock
    case Advance(to) => s.clock <= to && forall k | 0 <= k < |s.timers| :: Armed(s, k) ==> to <= s.timers[k].deadline
  }

  function GetOrCreate(s: State, id: RetrievalID): (r: State)
    ensures id in r.timerOf
  {
    if id in s.timerOf then s
    else s.(timers := s.timers + [Timer(id, s.clock + TIMEOUT, true)], timerOf := s.timerOf[id := |s.timers|])
  }

  function Disarm(s: State, k: nat): State {
    if k < |s.timers| then s.(timers := s.timers[k := s.timers[k].(armed := false)]) else s
  }

  function Delete(s: State, id: RetrievalID): State {
    s.(timerOf := s.timerOf - {id})
  }

  /** The calls a handler makes: GetOrCreate, if it gets there, then RecordFinality and Delete, if it ends the lifetime. */
  function Touch(s: State, e: Event): State {
    if !Touches(e) then s
    else
      var t := GetOrCreate(s, e.id);
      if Ends(e) then Delete(Disarm(t, t.timerOf[e.id]), e.id) else t
  }

  function Step(s: State, a: Action): State {
    if !Enabled(s, a) then s else
    match a
    case Receive(e) => Touch(s, e).(lives := Handle(s.lives, s.clock, e).lives)
    case Fire(k) => Delete(Disarm(s, k), s.timers[k].id).(lives := Close(s.lives, s.timers[k].id))
    case Advance(to) => s.(clock := to)
  }

  function Run(s: State, actions: seq<Action>): State
    decreases |actions|
  {
    if actions == [] then s else Run(Step(s, actions[0]), actions[1..])
  }

  /** The same as steps of a run of handlers and expirations. */
  function StepsOf(s: State, actions: seq<Action>): seq<R.Step>
    decreases |actions|
  {
    if actions == [] then []
    else
      (match actions[0]
       case Receive(e) => [R.V1(s.clock, e)]
       case Fire(k) => if Enabled(s, actions[0]) then [R.Expire(s.clock, s.timers[k].id)] else []
       case Advance(_) => [])
      + StepsOf(Step(s, actions[0]), actions[1..])
  }

  // ---------- what every action keeps ----------

  /** The timer of each entry is armed and carries its ID, and each armed timer is that of the entry it names. */
  ghost predicate Paired(s: State) {
    && (forall id | id in s.timerOf :: Armed(s, s.timerOf[id]) && s.timers[s.timerOf[id]].id == id)
    && (forall k | 0 <= k < |s.timers| && Armed(s, k) :: s.timers[k].id in s.timerOf && s.timerOf[s.timers[k].id] == k)
  }

  // When the timer of an entry is due
  function Due(s: State, id: RetrievalID): Time {
    if id in s.timerOf && s.timerOf[id] < |s.timers| then s.timers[s.timerOf[id]].deadline else s.clock + TIMEOUT
  }

  ghost predicate Means(s: State) {
    && s.lives.Keys == s.timerOf.Keys
    && forall id | id in s.lives :: s.lives[id].deadline == Due(s, id)
  }

  /** No armed timer is overdue, and none was armed for more than a minute. */
  predicate OnTime(s: State) {
    forall k | 0 <= k < |s.timers| :: Armed(s, k) ==> s.clock <= s.timers[k].deadline <= s.clock + TIMEOUT
  }

  ghost predicate Inv(s: State) {
    Paired(s) && Means(s) && OnTime(s)
  }

  lemma {:induction false} GetOrCreateKeeps(s: State, id: RetrievalID)
    requires Paired(s) && OnTime(s)
    ensures Paired(GetOrCreate(s, id)) && OnTime(GetOrCreate(s, id))
  {
    var t := GetOrCreate(s, id);
    assert forall k | 0 <= k < |s.timers| :: t.timers[k] == s.timers[k] && (Armed(t, k) <==> Armed(s, k));
  }

  lemma {:induction false} DisarmedAndDeleted(s: State, k: nat)
    requires Paired(s) && OnTime(s) && Armed(s, k)
    ensures var t := Delete(Disarm(s, k), s.timers[k].id); Paired(t) && OnTime(t)
  {
    var t := Delete(Disarm(s, k), s.timers[k].id);
    assert forall j | 0 <= j < |s.timers| :: Armed(t, j) <==> Armed(s, j) && j != k;
  }

  lemma {:induction false} TouchKeeps(s: State, e: Event)
    requires Paired(s) && OnTime(s)
    ensures Paired(Touch(s, e)) && OnTime(Touch(s, e))
  {
    hide Paired, OnTime, Touches, Ends;
    GetOrCreateKeeps(s, e.id);
    var t := GetOrCreate(s, e.id);
    EntryHasTimer(t, e.id);
    DisarmedAndDeleted(t, t.timerOf[e.id]);
  }

  lemma {:induction false} EntryHasTimer(s: State, id: RetrievalID)
    requires Paired(s) && id in s.timerOf
    ensures Armed(s, s.timerOf[id]) && s.timers[s.timerOf[id]].id == id
  {
  }

  lemma {:induction false} CreatedEntry(s: State, id: RetrievalID, other: RetrievalID)
    requires Paired(s)
    ensures Due(GetOrCreate(s, id), other) == Due(s, other)
    ensures GetOrCreate(s, id).timerOf.Keys == s.timerOf.Keys + {id}
  {
  }

  lemma {:induction false} DisarmedEntry(s: State, k: nat, id: RetrievalID, other: RetrievalID)
    ensures other != id ==> Due(Delete(Disarm(s, k), id), other) == Due(s, other)
    ensures Delete(Disarm(s, k), id).timerOf.Keys == s.timerOf.Keys - {id}
  {
  }

  /** The entries after a handler, and when their timers are due. */
  lemma {:induction false} TouchedEntries(s: State, e: Event, other: RetrievalID)
    requires Paired(s)
    ensures Touch(s, e).timerOf.Keys ==
      if !Touches(e) then s.timerOf.Keys else if Ends(e) then s.timerOf.Keys - {e.id} else s.timerOf.Keys + {e.id}
    ensures other in Touch(s, e).timerOf ==> Due(Touch(s, e), other) == Due(s, other)
    ensures Touch(s, e).clock == s.clock
  {
    hide Touches, Ends, Due, Paired;
    CreatedEntry(s, e.id, other);
    var t := GetOrCreate(s, e.id);
    DisarmedEntry(t, t.timerOf[e.id], e.id, other);
  }

  lemma {:induction false} ReceiveKeepsMeaning(s: State, e: Event)
    requires Paired(s) && Means(s)
    ensures Means(Step(s, Receive(e)))
  {
    hide Handle, Touches, Ends, Touch;
    TouchedEntries(s, e, e.id);
    HandleDomain(s.lives, s.clock, e);
    R.HandleKeepsDeadlines(s.lives, s.clock, e);
    var after := Handle(s.lives, s.clock, e).lives;
    assert after.Keys == Touch(s, e).timerOf.Keys;
    var s' := Step(s, Receive(e));
    forall id | id in after ensures after[id].deadline == Due(s', id) {
      TouchedEntries(s, e, id);
      assert id in after.Keys;
      assert Due(s', id) == Due(Touch(s, e), id);
    }
  }

  lemma {:induction false} StepKeepsInv(s: State, a: Action)
    requires Inv(s)
    ensures Inv(Step(s, a))
  {
    hide Handle, Touch;
    if Enabled(s, a) {
      match a
      case Receive(e) => TouchKeeps(s, e); ReceiveKeepsMeaning(s, e);
      case Fire(k) => DisarmedAndDeleted(s, k);
      case Advance(to) =>
    }
  }

  lemma {:induction false} RunKeepsInv(s: State, actions: seq<Action>)
    requires Inv(s)
    ensures Inv(Run(s, actions))
    decreases |actions|
  {
    hide Inv, Step;
    if actions != [] {
      StepKeepsInv(s, actions[0]);
      RunKeepsInv(Step(s, actions[0]), actions[1..]);
    }
  }

  /** A run of these actions is a run of handlers and expirations. */
  lemma {:induction false} RunIsRun(s: State, actions: seq<Action>)
    ensures Run(s, actions).lives == R.Run(s.lives, StepsOf(s, actions)).lives
    decreases |actions|
  {
    hide Handle, Touch;
    if actions != [] {
      RunIsRun(Step(s, actions[0]), actions[1..]);
      var rest := StepsOf(Step(s, actions[0]), actions[1..]);
      match actions[0] {
        case Receive(e) => assert StepsOf(s, actions)[1..] == rest;
        case Fire(k) =>
          if Enabled(s, actions[0]) {
            assert StepsOf(s, actions)[1..] == rest;
          } else {
            assert StepsOf(s, actions) == rest;
          }
        case Advance(_) => assert StepsOf(s, actions) == rest;
      }
    }
  }

  // ---------- theorems ----------

  /** Entries and armed timers stay in bijection, whatever happens; so no stale timer survives an entry. */
  lemma {:induction false} TimersMatchEntries(clock: Time, actions: seq<Action>)
    ensures Paired(Run(Start(clock), actions))
    ensures Run(Start(clock), actions).lives.Keys == Run(Start(clock), actions).timerOf.Keys
  {
    RunKeepsInv(Start(clock), actions);
  }

  /**
   No entry outlives its deadline and none is older than a minute: every entry
   has an armed timer, and time does not pass an armed timer that is due.
   */
  lemma {:induction false} NoEntryOutlivesItsDeadline(clock: Time, actions: seq<Action>, id: RetrievalID)
    ensures var s := Run(Start(clock), actions);
      id in s.lives ==> s.clock <= s.lives[id].deadline <= s.clock + 60_000_000_000
  {
    hide Run;
    RunKeepsInv(Start(clock), actions) by { StartsWell(clock); }
    var s := Run(Start(clock), actions);
    if id in s.lives { EntryHasTimer(s, id); }
  }

  lemma {:induction false} StartsWell(clock: Time)
    ensures Inv(Start(clock))
  {
  }

  /** A timer goes off at its deadline, on the entry it was armed for. */
  lemma {:induction false} FiresOnTime(clock: Time, actions: seq<Action>, k: nat)
    requires Enabled(Run(Start(clock), actions), Fire(k))
    ensures var s := Run(Start(clock), actions); var id := s.timers[k].id;
      && s.clock == s.timers[k].deadline
      && id in s.lives && id in s.timerOf && s.timerOf[id] == k && s.lives[id].deadline == s.clock
      && Step(s, Fire(k)).lives == Close(s.lives, id)
  {
    hide Run;
    RunKeepsInv(Start(clock), actions) by { StartsWell(clock); }
  }

  /** A handler that ends the lifetime of this entry. */
  predicate EndsEntry(a: Action, id: RetrievalID) {
    a.Receive? && a.e.id == id && Ends(a.e)
  }

  /** Timer k was armed for id and this deadline, and has not gone off before it. */
  predicate Pending(s: State, id: RetrievalID, k: nat, deadline: Time) {
    && k < |s.timers| && s.timers[k].id == id && s.timers[k].deadline == deadline
    && (!s.timers[k].armed ==> deadline <= s.clock)
  }

  lemma {:induction false} StepKeepsPending(s: State, a: Action, id: RetrievalID, k: nat, deadline: Time)
    requires Inv(s) && Pending(s, id, k, deadline) && !EndsEntry(a, id)
    ensures Pending(Step(s, a), id, k, deadline)
  {
    hide Handle, Means, OnTime;
    if a.Receive? && Touches(a.e) {
      var t := GetOrCreate(s, a.e.id);
      GetOrCreatePaired(s, a.e.id);
      EntryHasTimer(t, a.e.id);
    }
  }

  lemma {:induction false} GetOrCreatePaired(s: State, id: RetrievalID)
    requires Inv(s)
    ensures Paired(GetOrCreate(s, id))
  {
    GetOrCreateKeeps(s, id);
  }

  lemma {:induction false} RunKeepsPending(s: State, actions: seq<Action>, id: RetrievalID, k: nat, deadline: Time)
    requires Inv(s) && Pending(s, id, k, deadline) && forall i | 0 <= i < |actions| :: !EndsEntry(actions[i], id)
    ensures Pending(Run(s, actions), id, k, deadline)
    decreases |actions|
  {
    hide Inv, Step, Pending, EndsEntry;
    if actions != [] {
      StepKeepsInv(s, actions[0]);
      StepKeepsPending(s, actions[0], id, k, deadline);
      RunKeepsPending(Step(s, actions[0]), actions[1..], id, k, deadline);
    }
  }

  /**
   An entry that no handler ends lives exactly until its deadline: it is still
   there at every earlier time, with the same deadline, and gone at every later
   one. Whether it is there at that very time is up to its timer alone.
   */
  lemma {:induction false} LivesExactlyUntilItsDeadline(clock: Time, before: seq<Action>, after: seq<Action>, id: RetrievalID)
    requires id in Run(Start(clock), before).lives && forall i | 0 <= i < |after| :: !EndsEntry(after[i], id)
    ensures var s := Run(Start(clock), before); var s' := Run(s, after);
      && id in s.timerOf
      && var k := s.timerOf[id]; var d := s.lives[id].deadline;
        var same := id in s'.lives && id in s'.timerOf && s'.timerOf[id] == k;
        && (s'.clock < d ==> same && s'.lives[id].deadline == d)
        && (s'.clock > d ==> !same)
        && (same <==> Armed(s', k))
  {
    hide Run, EndsEntry;
    RunKeepsInv(Start(clock), before) by { StartsWell(clock); }
    var s := Run(Start(clock), before);
    EntryHasTimer(s, id);
    RunKeepsPending(s, after, id, s.timerOf[id], s.lives[id].deadline);
    RunKeepsInv(s, after);
  }

  // ---------- time can pass ----------

  function ArmedTimers(s: State): set<nat> {
    set k: nat | k < |s.timers| && Armed(s, k)
  }

  /** From every reachable state time can reach any later point, with nothing but timers going off on the way. */
  lemma {:induction false} TimeCanPass(s: State, to: Time) returns (actions: seq<Action>)
    requires Inv(s) && s.clock <= to
    ensures Run(s, actions).clock == to && forall i | 0 <= i < |actions| :: !actions[i].Receive?
    decreases |ArmedTimers(s)|
  {
    hide Handle, Touch;
    if Enabled(s, Advance(to)) {
      actions := [Advance(to)];
      assert actions[1..] == [];
    } else {
      var k := Earliest(s, to);
      var s1 := Step(s, Advance(s.timers[k].deadline));
      StepKeepsInv(s, Advance(s.timers[k].deadline));
      var s2 := Step(s1, Fire(k));
      StepKeepsInv(s1, Fire(k));
      FewerArmed(s, s2, k);
      var rest := TimeCanPass(s2, to);
      actions := [Advance(s.timers[k].deadline), Fire(k)] + rest;
      assert actions[1..][1..] == rest;
      assert Run(s, actions) == Run(s2, rest);
    }
  }

  lemma {:induction false} FewerArmed(s: State, s2: State, k: nat)
    requires Armed(s, k) && |s2.timers| == |s.timers|
    requires forall j | 0 <= j < |s.timers| :: s2.timers[j].armed <==> s.timers[j].armed && j != k
    ensures |ArmedTimers(s2)| < |ArmedTimers(s)|
  {
    assert ArmedTimers(s2) == ArmedTimers(s) - {k};
    assert k in ArmedTimers(s);
  }

  lemma {:induction false} Earliest(s: State, to: Time) returns (k: nat)
    requires OnTime(s) && s.clock <= to && !Enabled(s, Advance(to))
    ensures Armed(s, k) && s.timers[k].deadline < to && Enabled(s, Advance(s.timers[k].deadline))
  {
    k :| 0 <= k < |s.timers| && Armed(s, k) && !(to <= s.timers[k].deadline);
    for i := 0 to |s.timers|
      invariant Armed(s, k) && s.timers[k].deadline < to
      invariant forall j | 0 <= j < i :: Armed(s, j) ==> s.timers[k].deadline <= s.timers[j].deadline
    {
      if Armed(s, i) && s.timers[i].deadline < s.timers[k].deadline { k := i; }
    }
  }
}
