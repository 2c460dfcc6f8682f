/**
 What the steps of PoolProtocol leave of three things the handlers rely on: that
 Delete finds the entry of its handle, that the object has a timer to stop, and
 that no timer outlives its entry. None of them holds of every interleaving;
 here is exactly when each does, read off the steps that ran.
 */
module PoolEntries {
  import opened PoolProtocol
  import opened Instruments

  // The last step of a run, and the state it was taken in
  function Front(actions: seq<Action>): seq<Action>
    requires actions != []
  {
    actions[..|actions| - 1]
  }

  function LastAction(actions: seq<Action>): Action
    requires actions != []
  {
    actions[|actions| - 1]
  }

  function StateBefore(actions: seq<Action>): State
    requires actions != []
  {
    Run(INIT, Front(actions))
  }

  // The ID and object a GetOrCreate has settled on
  datatype Handle = Handle(id: ID, r: Ref)

  function HandleOf(th: Thread): Option<Handle> {
    match th
    case Lost(id, _, actual) => Some(Handle(id, actual))
    case Won(id, r) => Some(Handle(id, r))
    case Arming(id, r, _) => Some(Handle(id, r))
    case Holding(id, r) => Some(Handle(id, r))
    case _ => None
  }

  // ---------- is there an entry? ----------

  datatype MapOp = Untouched | Stored | Removed

  predicate Stores(s: State, a: Action, id: ID) {
    a.LoadOrStore? && Enabled(s, a) && At(s, a.t).id == id
  }

  predicate Removes(s: State, a: Action, id: ID) {
    a.LoadAndDelete? && Enabled(s, a) && a.id == id
  }

  /** The last operation on this key of the map. */
  function LastOp(actions: seq<Action>, id: ID): MapOp {
    if actions == [] then Untouched
    else if Stores(StateBefore(actions), LastAction(actions), id) then Stored
    else if Removes(StateBefore(actions), LastAction(actions), id) then Removed
    else LastOp(Front(actions), id)
  }

  lemma {:induction false} EntryStep(s: State, a: Action, id: ID)
    ensures id in Step(s, a).entries <==> Stores(s, a, id) || (id in s.entries && !Removes(s, a, id))
    ensures id in Step(s, a).entries && id in s.entries ==> Step(s, a).entries[id] == s.entries[id]
    ensures !(Stores(s, a, id) && Removes(s, a, id))
  {
    hide IsLate, ZeroNth, Load, Disarm;
  }

  /** A key has an entry if and only if the last operation on it was a LoadOrStore. */
  lemma {:induction false} EntryExists(actions: seq<Action>, id: ID)
    ensures id in Run(INIT, actions).entries <==> LastOp(actions, id) == Stored
  {
    hide Step, Stores, Removes;
    if actions != [] {
      EntryExists(Front(actions), id);
      EntryStep(StateBefore(actions), LastAction(actions), id);
    }
  }

  // ---------- does a handle still have its entry? ----------

  /** How many entries this key has had. */
  function Births(actions: seq<Action>, id: ID): nat {
    if actions == [] then 0
    else
      var s, a := StateBefore(actions), LastAction(actions);
      Births(Front(actions), id) + if Stores(s, a, id) && id !in s.entries then 1 else 0
  }

  /** Which of them the GetOrCreate of t got. */
  function BirthHeld(actions: seq<Action>, t: Tid): nat {
    if actions == [] then 0
    else
      var s, a := StateBefore(actions), LastAction(actions);
      if a == LoadOrStore(t) && Enabled(s, a) then Births(actions, At(s, t).id) else BirthHeld(Front(actions), t)
  }

  /** Since t's LoadOrStore no LoadAndDelete on its key has run. */
  predicate Undisturbed(actions: seq<Action>, t: Tid) {
    actions != [] &&
    var s, a := StateBefore(actions), LastAction(actions);
    (a == LoadOrStore(t) && Enabled(s, a))
    || (Undisturbed(Front(actions), t) && !(HandleOf(At(s, t)).Some? && Removes(s, a, HandleOf(At(s, t)).value.id)))
  }

  ghost predicate HandleInv(actions: seq<Action>, t: Tid) {
    var s := Run(INIT, actions);
    HandleOf(At(s, t)).Some? ==>
      var h := HandleOf(At(s, t)).value;
      && LastOp(actions, h.id) != Untouched
      && BirthHeld(actions, t) <= Births(actions, h.id)
      && (if Undisturbed(actions, t)
          then h.id in s.entries && s.entries[h.id] == h.r && BirthHeld(actions, t) == Births(actions, h.id)
          else h.id !in s.entries || BirthHeld(actions, t) < Births(actions, h.id))
  }

  /** A thread comes by a handle at its LoadOrStore, and keeps it until it is done with it. */
  lemma {:induction false} HandleStep(s: State, a: Action, t: Tid)
    requires HandleOf(At(Step(s, a), t)).Some?
    ensures a == LoadOrStore(t) && Enabled(s, a) ==>
      var h := HandleOf(At(Step(s, a), t)).value;
      h.id == At(s, t).id && Stores(s, a, h.id) && h.id in Step(s, a).entries && Step(s, a).entries[h.id] == h.r
    ensures !(a == LoadOrStore(t) && Enabled(s, a)) ==> HandleOf(At(s, t)) == HandleOf(At(Step(s, a), t))
  {
    hide IsLate, ZeroNth, Load, Disarm;
  }

  lemma {:induction false} HandlesKeepInv(actions: seq<Action>, t: Tid)
    ensures HandleInv(actions, t)
  {
    hide Step, Stores, Removes, Enabled;
    if actions == [] {
      assert At(INIT, t) == Idle;
    } else {
      var s, a := StateBefore(actions), LastAction(actions);
      HandlesKeepInv(Front(actions), t);
      if HandleOf(At(Step(s, a), t)).Some? {
        var h := HandleOf(At(Step(s, a), t)).value;
        HandleStep(s, a, t);
        EntryStep(s, a, h.id);
      }
    }
  }

  /**
   A handle still has the entry that its GetOrCreate returned if and only if no
   LoadAndDelete on that key has run since. If none has, the entry is there,
   with that object; if one has, there is no entry or a later one.
   */
  lemma {:induction false} HandleHasItsEntry(actions: seq<Action>, t: Tid)
    requires HandleOf(At(Run(INIT, actions), t)).Some?
    ensures var s := Run(INIT, actions); var h := HandleOf(At(s, t)).value;
      && (Undisturbed(actions, t) <==> h.id in s.entries && Births(actions, h.id) == BirthHeld(actions, t))
      && (Undisturbed(actions, t) ==> s.entries[h.id] == h.r)
  {
    hide Run, LastOp, Births, BirthHeld, Undisturbed;
    HandlesKeepInv(actions, t);
  }

  lemma {:induction false} DeleteStep(s: State, t: Tid, id: ID)
    requires Enabled(s, LoadAndDelete(t, id))
    ensures At(Step(s, LoadAndDelete(t, id)), t) == if id in s.entries then Removing(s.entries[id], 0) else Idle
  {
  }

  /**
   A handler's Delete, in every reachable state: it returns nil if and only if
   the last operation on its key was another LoadAndDelete. It removes the entry
   of its own handle if none has run since its GetOrCreate, and a later entry
   otherwise.
   */
  lemma {:induction false} DeleteFinds(actions: seq<Action>, t: Tid, id: ID, r: Ref)
    requires At(Run(INIT, actions), t) == Holding(id, r) && Enabled(Run(INIT, actions), LoadAndDelete(t, id))
    ensures var after := At(Step(Run(INIT, actions), LoadAndDelete(t, id)), t);
      && (after == Idle <==> LastOp(actions, id) == Removed)
      && (Undisturbed(actions, t) ==> after == Removing(r, 0))
      && (after != Idle && !Undisturbed(actions, t) ==> BirthHeld(actions, t) < Births(actions, id))
  {
    hide Run, LastOp, Births, BirthHeld, Undisturbed, Step, Enabled;
    HandlesKeepInv(actions, t);
    EntryExists(actions, id);
    DeleteStep(Run(INIT, actions), t, id);
  }

  /** Such a run: the timer goes off between GetOrCreate and Delete, and Delete returns nil (metrics/events.go:126-128). */
  lemma {:induction false} DeleteCanFindNothing() returns (actions: seq<Action>)
    ensures At(Run(INIT, actions), 1) == Holding("a", 0) && Enabled(Run(INIT, actions), LoadAndDelete(1, "a"))
    ensures At(Run(INIT, actions + [LoadAndDelete(1, "a")]), 1) == Idle
  {
    hide Run;
    actions := ToExpired();
    RunFrom(INIT, actions, LoadAndDelete(1, "a"));
  }

  lemma {:induction false} StillDisturbed(actions: seq<Action>, x: Action, t: Tid)
    requires !Undisturbed(actions, t) && x != LoadOrStore(t)
    ensures !Undisturbed(actions + [x], t)
  {
    assert Front(actions + [x]) == actions;
  }

  lemma {:induction false} ToPooled() returns (actions: seq<Action>)
    ensures Run(INIT, actions) == POOLED && !Undisturbed(actions, 1)
  {
    hide Run, Undisturbed, Births, BirthHeld;
    var before := ToZeroed(8);
    HandleHasItsEntry(before, 1);
    RunFrom(INIT, before, Put(2));
    StillDisturbed(before, Put(2), 1);
    actions := before + [Put(2)];
  }

  /** The later entry can have the very same object: recycled, and stored again under the same key. */
  lemma {:induction false} DeleteCanFindALaterEntry() returns (actions: seq<Action>)
    ensures At(Run(INIT, actions), 1) == Holding("a", 0) && Run(INIT, actions).entries == map["a" := 0]
    ensures !Undisturbed(actions, 1)
  {
    hide Run, Undisturbed;
    actions := ToPooled();
    RunFrom(INIT, actions, PoolGet(3, "a", 0));
    StillDisturbed(actions, PoolGet(3, "a", 0), 1);
    actions := actions + [PoolGet(3, "a", 0)];
    assert At(Run(INIT, actions), 3) == Got("a", 0) && Run(INIT, actions).entries == map[];
    RunFrom(INIT, actions, LoadOrStore(3));
    StillDisturbed(actions, LoadOrStore(3), 1);
    actions := actions + [LoadOrStore(3)];
  }

  // ---------- is there a timer to stop? ----------

  predicate SetsTimerOf(s: State, a: Action, r: Ref) {
    a.SetTimer? && Enabled(s, a) && At(s, a.t).r == r
  }

  /** Has any SetTimer run on this object? */
  predicate TimerSet(actions: seq<Action>, r: Ref) {
    actions != [] && (SetsTimerOf(StateBefore(actions), LastAction(actions), r) || TimerSet(Front(actions), r))
  }

  lemma {:induction false} TimerStep(s: State, a: Action, r: Ref)
    ensures r in Step(s, a).timer <==> r in s.timer || SetsTimerOf(s, a, r)
  {
    hide IsLate, ZeroNth, Load, Disarm;
  }

  lemma {:induction false} TimerFieldIsSet(actions: seq<Action>, r: Ref)
    ensures r in Run(INIT, actions).timer <==> TimerSet(actions, r)
  {
    hide Step, SetsTimerOf;
    if actions != [] {
      TimerFieldIsSet(Front(actions), r);
      TimerStep(StateBefore(actions), LastAction(actions), r);
    }
  }

  predicate IsWinner(s: State, u: Tid, r: Ref) {
    (At(s, u).Won? || At(s, u).Arming?) && At(s, u).r == r
  }

  /** The object has a timer, or some GetOrCreate that stored it has yet to set one. */
  ghost predicate TimerOrWinner(s: State, r: Ref) {
    r in s.timer || exists u :: IsWinner(s, u, r)
  }

  ghost predicate TimersComing(s: State) {
    && (forall id | id in s.entries :: TimerOrWinner(s, s.entries[id]))
    && (forall t | HandleOf(At(s, t)).Some? :: TimerOrWinner(s, HandleOf(At(s, t)).value.r))
  }

  lemma {:induction false} WinnerSets(s: State, a: Action, u: Tid, r: Ref)
    requires IsWinner(s, u, r)
    ensures IsWinner(Step(s, a), u, r) || r in Step(s, a).timer
  {
    hide IsLate, ZeroNth, Load, Disarm;
  }

  lemma {:induction false} StillComing(s: State, a: Action, r: Ref)
    requires TimerOrWinner(s, r)
    ensures TimerOrWinner(Step(s, a), r)
  {
    hide Step, SetsTimerOf;
    TimerStep(s, a, r);
    if r !in s.timer {
      var u :| IsWinner(s, u, r);
      WinnerSets(s, a, u, r);
    }
  }

  // An object new under a key, or new in a handle, comes with a winner, or was under a key before
  lemma {:induction false} NewHandles(s: State, a: Action, t: Tid)
    requires HandleOf(At(Step(s, a), t)).Some? && HandleOf(At(Step(s, a), t)) != HandleOf(At(s, t))
    ensures var r := HandleOf(At(Step(s, a), t)).value.r; IsWinner(Step(s, a), t, r) || r in s.entries.Values
  {
    hide IsLate, ZeroNth, Load, Disarm;
  }

  lemma {:induction false} NewEntries(s: State, a: Action, id: ID)
    requires id in Step(s, a).entries && id !in s.entries
    ensures a.LoadOrStore? && IsWinner(Step(s, a), a.t, Step(s, a).entries[id])
  {
    hide IsLate, ZeroNth, Load, Disarm;
  }

  lemma {:induction false} StepKeepsComing(s: State, a: Action)
    requires TimersComing(s)
    ensures TimersComing(Step(s, a))
  {
    hide Step, TimerOrWinner, Stores, Removes;
    var s' := Step(s, a);
    forall id | id in s'.entries ensures TimerOrWinner(s', s'.entries[id]) {
      EntryStep(s, a, id);
      if id in s.entries { StillComing(s, a, s.entries[id]); } else { NewEntries(s, a, id); WinnerCounts(s', a.t, s'.entries[id]); }
    }
    forall t | HandleOf(At(s', t)).Some? ensures TimerOrWinner(s', HandleOf(At(s', t)).value.r) {
      var r := HandleOf(At(s', t)).value.r;
      if HandleOf(At(s', t)) == HandleOf(At(s, t)) {
        StillComing(s, a, r);
      } else {
        NewHandles(s, a, t);
        if IsWinner(s', t, r) { WinnerCounts(s', t, r); } else {
          var id :| id in s.entries && s.entries[id] == r;
          StillComing(s, a, r);
        }
      }
    }
  }

  lemma {:induction false} WinnerCounts(s: State, u: Tid, r: Ref)
    requires IsWinner(s, u, r)
    ensures TimerOrWinner(s, r)
  {
  }

  lemma {:induction false} RunKeepsComing(actions: seq<Action>)
    ensures TimersComing(Run(INIT, actions))
  {
    hide Step, TimerOrWinner;
    if actions == [] {
      assert forall t :: At(INIT, t) == Idle;
    } else {
      RunKeepsComing(Front(actions));
      StepKeepsComing(StateBefore(actions), LastAction(actions));
    }
  }

  /**
   RecordFinality, in every reachable state: it follows a nil timer if and only
   if no SetTimer has ever run on its object. Then some GetOrCreate has stored
   the object and is about to set its timer.
   */
  lemma {:induction false} StopFindsATimer(actions: seq<Action>, t: Tid, id: ID, r: Ref)
    requires At(Run(INIT, actions), t) == Holding(id, r) && !Run(INIT, actions).crashed
    ensures Step(Run(INIT, actions), Stop(t)).crashed <==> !TimerSet(actions, r)
    ensures Step(Run(INIT, actions), Stop(t)).crashed ==> exists u :: IsWinner(Run(INIT, actions), u, r)
  {
    hide Run, TimerSet;
    RunKeepsComing(actions);
    TimerFieldIsSet(actions, r);
    assert HandleOf(At(Run(INIT, actions), t)) == Some(Handle(id, r));
  }

  /** Has some RecordFinality run on an object without a timer? */
  predicate FollowedNil(actions: seq<Action>) {
    actions != [] &&
    var s, a := StateBefore(actions), LastAction(actions);
    FollowedNil(Front(actions)) || (a.Stop? && Enabled(s, a) && !TimerSet(Front(actions), At(s, a.t).r))
  }

  lemma {:induction false} CrashStep(s: State, a: Action)
    ensures Step(s, a).crashed <==> s.crashed || (a.Stop? && Enabled(s, a) && At(s, a.t).r !in s.timer)
  {
    hide IsLate, ZeroNth, Load, Disarm;
  }

  lemma {:induction false} CrashesExactlyOnNil(actions: seq<Action>)
    ensures Run(INIT, actions).crashed <==> FollowedNil(actions)
  {
    hide Step, TimerSet;
    if actions != [] {
      var s, a := StateBefore(actions), LastAction(actions);
      CrashesExactlyOnNil(Front(actions));
      CrashStep(s, a);
      if a.Stop? && Enabled(s, a) { TimerFieldIsSet(Front(actions), At(s, a.t).r); }
    }
  }

  /** Such a run: a second caller gets the entry before its timer is set, and RecordFinality panics (metrics/tempdata/tempdata.go:125-130). */
  lemma {:induction false} TimerCanBeMissing() returns (actions: seq<Action>)
    ensures At(Run(INIT, actions), 2) == Holding("a", 0) && Run(INIT, actions).entries == map["a" := 0]
    ensures Run(INIT, actions + [Stop(2)]).crashed
  {
    hide Run;
    actions := ToWon();
    RunFrom(INIT, actions, PoolGet(2, "a", 1));
    actions := actions + [PoolGet(2, "a", 1)];
    assert At(Run(INIT, actions), 2) == Got("a", 1);
    RunFrom(INIT, actions, LoadOrStore(2));
    actions := actions + [LoadOrStore(2)];
    assert At(Run(INIT, actions), 2) == Lost("a", 1, 0);
    RunFrom(INIT, actions, PutBack(2));
    actions := actions + [PutBack(2)];
    RunFrom(INIT, actions, Stop(2));
  }
}
