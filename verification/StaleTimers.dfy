/**
 Stale timers, under the interleavings of PoolProtocol. An armed timer is stale
 if it is not the timer of the entry its ID names: when it goes off it deletes
 an entry that is not its own.
 */
module StaleTimers {
  import opened Lifetime
  import opened PoolProtocol

  predicate ArmedAt(s: State, n: nat) {
    n < |s.alarms| && s.alarms[n].armed
  }

  /** It is in the timer field of that entry, or in the hands of the GetOrCreate that is about to store it there. */
  ghost predicate IsTimerOf(s: State, n: nat, id: ID) {
    && id in s.entries
    && var r := s.entries[id];
      (r in s.timer && s.timer[r] == n) || exists u :: At(s, u) == Arming(id, r, n)
  }

  ghost predicate Stale(s: State, n: nat) {
    ArmedAt(s, n) && !IsTimerOf(s, n, s.alarms[n].id)
  }

  ghost predicate NoneStale(s: State) {
    forall n: nat :: !Stale(s, n)
  }

  /** Each timer is in one place: one field, or one GetOrCreate that armed it for its own ID. */
  ghost predicate PlacesDiffer(s: State) {
    && (forall r | r in s.timer :: s.timer[r] < |s.alarms|)
    && (forall q, r | q in s.timer && r in s.timer && s.timer[q] == s.timer[r] :: q == r)
    && (forall u | At(s, u).Arming? :: At(s, u).n < |s.alarms| && s.alarms[At(s, u).n].id == At(s, u).id)
    && (forall u, r | At(s, u).Arming? && r in s.timer :: s.timer[r] != At(s, u).n)
    && (forall u, v | At(s, u).Arming? && At(s, v).Arming? && At(s, u).n == At(s, v).n :: u == v)
  }

  /** Is the timer in this object's field armed? */
  predicate FieldArmed(s: State, r: Ref) {
    r in s.timer && ArmedAt(s, s.timer[r])
  }

  /**
   The steps that leave a stale timer behind: a timer is armed when the object
   is no longer that of the entry it was stored for; a timer is stored over one
   that is armed; or an entry is deleted that has an armed timer.
   */
  ghost predicate LeavesStale(s: State, a: Action) {
    Enabled(s, a) &&
    match a
    case Arm(t) => !(At(s, t).id in s.entries && s.entries[At(s, t).id] == At(s, t).r)
    case SetTimer(t) => FieldArmed(s, At(s, t).r)
    case LoadAndDelete(_, id) => exists n: nat :: ArmedAt(s, n) && IsTimerOf(s, n, id)
    case _ => false
  }

  // The threads that hold a timer stay put in all steps but these two
  lemma {:induction false} HandsStay(s: State, a: Action, u: Tid)
    requires !a.Arm? && !a.SetTimer?
    ensures At(s, u).Arming? || At(Step(s, a), u).Arming? ==> At(Step(s, a), u) == At(s, u)
  {
    hide IsLate, ZeroNth, Load, Disarm;
  }

  lemma {:induction false} TimersStay(s: State, a: Action)
    requires !a.Arm? && !a.SetTimer?
    ensures Step(s, a).timer == s.timer && |Step(s, a).alarms| == |s.alarms|
    ensures forall n | 0 <= n < |s.alarms| ::
      Step(s, a).alarms[n].id == s.alarms[n].id && (Step(s, a).alarms[n].armed ==> s.alarms[n].armed)
    ensures !a.Stop? && !a.Fire? ==> Step(s, a).alarms == s.alarms
  {
    hide IsLate, ZeroNth, Load;
  }

  lemma {:induction false} ArmKeepsPlaces(s: State, t: Tid)
    requires PlacesDiffer(s) && Enabled(s, Arm(t))
    ensures PlacesDiffer(Step(s, Arm(t)))
  {
    var s' := Step(s, Arm(t));
    assert forall u :: At(s', u) == if u == t then At(s', t) else At(s, u);
  }

  lemma {:induction false} SetTimerKeepsPlaces(s: State, t: Tid)
    requires PlacesDiffer(s) && Enabled(s, SetTimer(t))
    ensures PlacesDiffer(Step(s, SetTimer(t)))
  {
    var s' := Step(s, SetTimer(t));
    assert forall u :: At(s', u) == if u == t then At(s', t) else At(s, u);
  }

  lemma {:induction false} StepKeepsPlaces(s: State, a: Action)
    requires PlacesDiffer(s)
    ensures PlacesDiffer(Step(s, a))
  {
    hide Step;
    Disabled(s, a);
    if Enabled(s, a) {
      match a
      case Arm(t) => ArmKeepsPlaces(s, t);
      case SetTimer(t) => SetTimerKeepsPlaces(s, t);
      case _ =>
        TimersStay(s, a);
        forall u { HandsStay(s, a, u); }
    }
  }

  // Steps that take no entry away and bring no timer
  lemma {:induction false} QuietStep(s: State, a: Action, n: nat)
    requires !a.Arm? && !a.SetTimer? && !a.LoadAndDelete? && !Stale(s, n)
    ensures !Stale(Step(s, a), n)
  {
    hide Step;
    var s' := Step(s, a);
    TimersStay(s, a);
    EntriesStay(s, a);
    if ArmedAt(s', n) {
      var id := s.alarms[n].id;
      assert IsTimerOf(s, n, id);
      if u :| At(s, u) == Arming(id, s.entries[id], n) { HandsStay(s, a, u); }
    }
  }

  lemma {:induction false} EntriesStay(s: State, a: Action)
    requires !a.LoadAndDelete?
    ensures forall id | id in s.entries :: id in Step(s, a).entries && Step(s, a).entries[id] == s.entries[id]
  {
    hide IsLate, ZeroNth, Load, Disarm;
  }

  lemma {:induction false} ArmStale(s: State, t: Tid)
    requires NoneStale(s) && PlacesDiffer(s) && Enabled(s, Arm(t))
    ensures NoneStale(Step(s, Arm(t))) <==> !LeavesStale(s, Arm(t))
  {
    var s' := Step(s, Arm(t));
    var Won(id, r) := At(s, t);
    assert At(s', t) == Arming(id, r, |s.alarms|);
    if LeavesStale(s, Arm(t)) {
      assert Stale(s', |s.alarms|) by {
        assert forall u :: At(s', u) == if u == t then Arming(id, r, |s.alarms|) else At(s, u);
      }
    } else {
      forall n: nat ensures !Stale(s', n) {
        assert !Stale(s, n);
        if n < |s.alarms| && ArmedAt(s, n) {
          var i := s.alarms[n].id;
          if u :| At(s, u) == Arming(i, s.entries[i], n) { assert At(s', u) == At(s, u); }
        }
      }
    }
  }

  lemma {:induction false} SetTimerStale(s: State, t: Tid)
    requires NoneStale(s) && PlacesDiffer(s) && Enabled(s, SetTimer(t))
    ensures NoneStale(Step(s, SetTimer(t))) <==> !LeavesStale(s, SetTimer(t))
  {
    var s' := Step(s, SetTimer(t));
    var Arming(id, r, m) := At(s, t);
    assert forall u :: At(s', u) == if u == t then Holding(id, r) else At(s, u);
    if LeavesStale(s, SetTimer(t)) {
      var n := s.timer[r];
      Overwritten(s, s', t, n);
      assert Stale(s', n);
    } else {
      forall n: nat ensures !Stale(s', n) {
        assert !Stale(s, n);
        if ArmedAt(s, n) {
          var i := s.alarms[n].id;
          assert IsTimerOf(s, n, i);
          if u :| At(s, u) == Arming(i, s.entries[i], n) {
            assert u != t ==> At(s', u) == At(s, u);
          } else {
            assert s.entries[i] != r;
          }
        }
      }
    }
  }

  lemma {:induction false} Overwritten(s: State, s': State, t: Tid, n: nat)
    requires PlacesDiffer(s) && At(s, t).Arming? && At(s, t).r in s.timer && n == s.timer[At(s, t).r]
    requires s'.timer == s.timer[At(s, t).r := At(s, t).n] && forall u | At(s', u).Arming? :: At(s', u) == At(s, u)
    ensures forall id :: !IsTimerOf(s', n, id)
  {
  }

  lemma {:induction false} DeleteStale(s: State, t: Tid, id: ID, f: map<Ref, Owner>)
    requires NoneStale(s) && PlacesDiffer(s) && Ownership(s, f) && Enabled(s, LoadAndDelete(t, id))
    ensures NoneStale(Step(s, LoadAndDelete(t, id))) <==> !LeavesStale(s, LoadAndDelete(t, id))
  {
    var a, s' := LoadAndDelete(t, id), Step(s, LoadAndDelete(t, id));
    TimersStay(s, a);
    if LeavesStale(s, a) {
      var n: nat :| ArmedAt(s, n) && IsTimerOf(s, n, id);
      assert !Stale(s, n);
      SameEntry(s, f, n, s.alarms[n].id, id);
      assert Stale(s', n);
    } else {
      forall n: nat ensures !Stale(s', n) {
        assert !Stale(s, n);
        if ArmedAt(s, n) {
          var i := s.alarms[n].id;
          assert IsTimerOf(s, n, i) && i != id;
          if u :| At(s, u) == Arming(i, s.entries[i], n) { HandsStay(s, a, u); }
        }
      }
    }
  }

  /** A timer is that of one entry only. */
  lemma {:induction false} SameEntry(s: State, f: map<Ref, Owner>, n: nat, i: ID, j: ID)
    requires Ownership(s, f) && PlacesDiffer(s) && IsTimerOf(s, n, i) && IsTimerOf(s, n, j)
    ensures i == j
  {
    assert Owns(s, AtKey(i), s.entries[i]) && Owns(s, AtKey(j), s.entries[j]);
  }

  /** From a state without stale timers a step leads to one with exactly if it is one of those. */
  lemma {:induction false} StepLeavesStale(s: State, a: Action, f: map<Ref, Owner>)
    requires NoneStale(s) && PlacesDiffer(s) && Ownership(s, f)
    ensures NoneStale(Step(s, a)) <==> !LeavesStale(s, a)
  {
    hide Step, Stale, Ownership, PlacesDiffer;
    Disabled(s, a);
    if Enabled(s, a) {
      match a
      case Arm(t) => ArmStale(s, t);
      case SetTimer(t) => SetTimerStale(s, t);
      case LoadAndDelete(t, id) => DeleteStale(s, t, id, f);
      case _ => forall n: nat { QuietStep(s, a, n); }
    }
  }

  lemma {:induction false} Disabled(s: State, a: Action)
    ensures !Enabled(s, a) ==> Step(s, a) == s
  {
    hide Enabled;
  }

  lemma {:induction false} RunKeepsPlaces(actions: seq<Action>)
    ensures PlacesDiffer(Run(INIT, actions))
  {
    hide Step, PlacesDiffer;
    if actions == [] {
      NoPlaces();
    } else {
      RunKeepsPlaces(actions[..|actions| - 1]);
      StepKeepsPlaces(Run(INIT, actions[..|actions| - 1]), actions[|actions| - 1]);
    }
  }

  lemma {:induction false} NoPlaces()
    ensures PlacesDiffer(INIT) && NoneStale(INIT)
  {
  }

  /** Is there no stale timer at any time of the run? */
  ghost predicate NeverStale(actions: seq<Action>) {
    NoneStale(Run(INIT, actions)) && (actions != [] ==> NeverStale(actions[..|actions| - 1]))
  }

  /** Does no step of the run leave one behind? */
  ghost predicate AllTimely(actions: seq<Action>) {
    actions != [] ==>
      !LeavesStale(Run(INIT, actions[..|actions| - 1]), actions[|actions| - 1]) && AllTimely(actions[..|actions| - 1])
  }

  /**
   No stale timer ever, in any interleaving, if and only if every timer is armed
   while the entry it is for is there, none is stored over an armed one, and
   every entry that is deleted has had its timer stopped or gone off.
   */
  lemma {:induction false} NoStaleTimers(actions: seq<Action>)
    ensures NeverStale(actions) <==> AllTimely(actions)
  {
    hide Step, NoneStale, LeavesStale;
    if actions == [] {
      NoPlaces();
    } else {
      var front, a := actions[..|actions| - 1], actions[|actions| - 1];
      NoStaleTimers(front);
      RunKeepsPlaces(front);
      var f := RunKeepsInv(front);
      if NeverStale(front) {
        assert NoneStale(Run(INIT, front));
        StepLeavesStale(Run(INIT, front), a, f);
      }
    }
  }

  // ---------- such a run ----------

  // Object 0 is stored again, for "b"; thread 3 has yet to arm its timer
  const REUSED := Expired(8).(entries := map["b" := 0], threads := map[1 := Holding("a", 0), 2 := Idle, 3 := Won("b", 0)])
  // Thread 4 has got the same entry
  const SHARED := REUSED.(heap := map[0 := ZERO, 1 := ZERO], pool := {1}, threads := REUSED.threads[4 := Holding("b", 0)])
  // and has ended it: the timer it stopped was the old one of object 0
  const ENDED := SHARED.(entries := map[], threads := SHARED.threads[4 := Removing(0, 0)])
  // Only now thread 3 arms the timer, and stores it
  const LATE := ENDED.(alarms := [Alarm("a", false), Alarm("b", true)], timer := map[0 := 1], threads := ENDED.threads[3 := Holding("b", 0)])

  const REGOT := POOLED.(pool := {}, threads := POOLED.threads[3 := Got("b", 0)])
  const OTHERGOT := REUSED.(heap := SHARED.heap, threads := REUSED.threads[4 := Got("b", 1)])
  const OTHERLOST := OTHERGOT.(threads := REUSED.threads[4 := Lost("b", 1, 0)])
  const LATEARMING := ENDED.(alarms := LATE.alarms, threads := ENDED.threads[3 := Arming("b", 0, 1)])
  const NEXTGOT := LATE.(pool := {}, threads := LATE.threads[5 := Got("b", 1)])
  // The next entry of "b", whose timer is not armed yet
  const NEXT := NEXTGOT.(entries := map["b" := 1], threads := LATE.threads[5 := Won("b", 1)])

  lemma {:induction false} StepsToReused()
    ensures Step(Expired(8), Put(2)) == POOLED && Step(POOLED, PoolGet(3, "b", 0)) == REGOT
    ensures Step(REGOT, LoadOrStore(3)) == REUSED
  {
    assert Step(Expired(8), Put(2)).threads == POOLED.threads;
    assert Step(POOLED, PoolGet(3, "b", 0)).pool == {};
    assert Step(REGOT, LoadOrStore(3)).entries == REUSED.entries && Step(REGOT, LoadOrStore(3)).threads == REUSED.threads;
  }

  lemma {:induction false} StepsToShared()
    ensures Step(REUSED, PoolGet(4, "b", 1)) == OTHERGOT && Step(OTHERGOT, LoadOrStore(4)) == OTHERLOST
    ensures Step(OTHERLOST, PutBack(4)) == SHARED
  {
    assert Step(OTHERGOT, LoadOrStore(4)).threads == OTHERLOST.threads;
    assert Step(OTHERLOST, PutBack(4)).threads == SHARED.threads;
  }

  lemma {:induction false} StepsToEnded()
    ensures Step(SHARED, Stop(4)) == SHARED && Step(SHARED, LoadAndDelete(4, "b")) == ENDED
  {
    assert Step(SHARED, Stop(4)).alarms == SHARED.alarms;
    assert Step(SHARED, LoadAndDelete(4, "b")).entries == map[] && Step(SHARED, LoadAndDelete(4, "b")).threads == ENDED.threads;
  }

  lemma {:induction false} StepsToLate()
    ensures Step(ENDED, Arm(3)) == LATEARMING && Step(LATEARMING, SetTimer(3)) == LATE
  {
    assert Step(LATEARMING, SetTimer(3)).threads == LATE.threads;
  }

  lemma {:induction false} StepsToNext()
    ensures Step(LATE, PoolGet(5, "b", 1)) == NEXTGOT && Step(NEXTGOT, LoadOrStore(5)) == NEXT
  {
    assert Step(LATE, PoolGet(5, "b", 1)).pool == {};
    assert Step(NEXTGOT, LoadOrStore(5)).entries == NEXT.entries && Step(NEXTGOT, LoadOrStore(5)).threads == NEXT.threads;
  }

  lemma {:induction false} ToShared() returns (actions: seq<Action>)
    ensures Run(INIT, actions) == SHARED
  {
    hide Run, Step, Expired;
    var a0 := ToZeroed(8);
    StepsToReused();
    StepsToShared();
    var a1, a2, a3 := a0 + [Put(2)], a0 + [Put(2)] + [PoolGet(3, "b", 0)], a0 + [Put(2)] + [PoolGet(3, "b", 0)] + [LoadOrStore(3)];
    Onward(a0, Expired(8), Put(2), POOLED);
    Onward(a1, POOLED, PoolGet(3, "b", 0), REGOT);
    Onward(a2, REGOT, LoadOrStore(3), REUSED);
    Onward(a3, REUSED, PoolGet(4, "b", 1), OTHERGOT);
    Onward(a3 + [PoolGet(4, "b", 1)], OTHERGOT, LoadOrStore(4), OTHERLOST);
    Onward(a3 + [PoolGet(4, "b", 1)] + [LoadOrStore(4)], OTHERLOST, PutBack(4), SHARED);
    actions := a3 + [PoolGet(4, "b", 1)] + [LoadOrStore(4)] + [PutBack(4)];
  }

  lemma {:induction false} ToLate() returns (actions: seq<Action>)
    ensures Run(INIT, actions) == LATE
  {
    hide Run, Step, Expired;
    var before := ToShared();
    StepsToEnded();
    StepsToLate();
    Onward(before, SHARED, Stop(4), SHARED);
    Onward(before + [Stop(4)], SHARED, LoadAndDelete(4, "b"), ENDED);
    var ended := before + [Stop(4)] + [LoadAndDelete(4, "b")];
    Onward(ended, ENDED, Arm(3), LATEARMING);
    Onward(ended + [Arm(3)], LATEARMING, SetTimer(3), LATE);
    actions := ended + [Arm(3)] + [SetTimer(3)];
  }

  /**
   A GetOrCreate sets its timer late, after another handler has ended the entry:
   the timer is armed for nothing, and then for whoever uses the ID next.
   */
  lemma {:induction false} StaleTimerCanSurvive() returns (actions: seq<Action>)
    ensures var s := Run(INIT, actions); "b" in s.entries && Stale(s, 1) && s.alarms[1].id == "b"
  {
    hide Run, Step, Expired;
    var before := ToLate();
    StepsToNext();
    Onward(before, LATE, PoolGet(5, "b", 1), NEXTGOT);
    Onward(before + [PoolGet(5, "b", 1)], NEXTGOT, LoadOrStore(5), NEXT);
    actions := before + [PoolGet(5, "b", 1)] + [LoadOrStore(5)];
    NextHasNoTimer();
  }

  lemma {:induction false} NextHasNoTimer()
    ensures Stale(NEXT, 1)
  {
  }
}
