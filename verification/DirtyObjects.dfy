/**
 Which late Record* calls do harm, under the interleavings of PoolProtocol. A
 pooled object, or one that GetOrCreate has just taken, should be zero, and one
 that Delete is zeroing should be as zero as it has got.
 */
module DirtyObjects {
  import opened Lifetime
  import opened PoolProtocol

  /** Every object holds what its owner may expect. */
  ghost predicate Tidy(s: State) {
    forall o, r | Owns(s, o, r) && r in s.heap :: CleanAs(s, o, s.heap[r])
  }

  /** A store of a Record* call that leaves an object as its owner may not expect it. */
  ghost predicate Spoils(s: State, a: Action) {
    a.Write? && Enabled(s, a) && exists o :: Owns(s, o, At(s, a.t).r) && !CleanAs(s, o, a.d)
  }

  /**
   A store on a handle whose entry is still there does no harm, nor does a late
   one if the object is under a key again. A late store to a pooled object, or to
   one just taken from the pool, is harmless only if it leaves the object zero,
   and one to an object that is being zeroed, only if the fields that are done
   stay zero.
   */
  lemma {:induction false} WhatSpoils(s: State, a: Action, f: map<Ref, Owner>, u: Tid)
    requires Ownership(s, f) && a.Write? && Enabled(s, a)
    ensures !IsLate(s, a) || At(s, a.t).r in s.entries.Values ==> !Spoils(s, a)
    ensures At(s, a.t).r in s.pool ==> (Spoils(s, a) <==> a.d != ZERO)
    ensures Owns(s, With(u), At(s, a.t).r) ==>
      (Spoils(s, a) <==> if At(s, u).Removing? then !ZeroUpTo(a.d, At(s, u).zeroed) else a.d != ZERO)
  {
    var h := At(s, a.t);
    if h.r in s.pool { assert Owns(s, InPool, h.r); }
    if h.r in s.entries.Values {
      var id :| id in s.entries && s.entries[id] == h.r;
      assert Owns(s, AtKey(id), h.r);
    }
  }

  function Forgiven(s: State): State {
    s.(late := {})
  }

  lemma {:induction false} TidyIsClean(s: State, f: map<Ref, Owner>)
    requires Ownership(s, f) && HandlesExist(s)
    ensures Tidy(s) <==> Inv(Forgiven(s), f)
  {
    assert forall o, r :: Owns(Forgiven(s), o, r) <==> Owns(s, o, r);
    assert forall t :: At(Forgiven(s), t) == At(s, t);
    forall o, d ensures CleanAs(Forgiven(s), o, d) <==> CleanAs(s, o, d) {}
    if Inv(Forgiven(s), f) {
      forall o, r | Owns(s, o, r) && r in s.heap ensures CleanAs(s, o, s.heap[r]) {
        assert r in f && f[r] == o;
      }
    }
    if Tidy(s) {
      forall r | r in s.heap && r in f ensures CleanAs(Forgiven(s), f[r], s.heap[r]) {
        assert Owns(s, f[r], r);
      }
    }
  }

  lemma {:induction false} ForgivenEnabled(s: State, a: Action)
    ensures Enabled(Forgiven(s), a) <==> Enabled(s, a)
    ensures forall t :: At(Forgiven(s), t) == At(s, t)
  {
    assert forall t :: At(Forgiven(s), t) == At(s, t);
  }

  // Nothing but the record of late writes depends on that record
  lemma {:induction false} ForgivenPoolStep(s: State, a: Action)
    requires a.PoolGet? || a.PutBack? || a.Put? || a.Collect?
    ensures Forgiven(Step(Forgiven(s), a)) == Forgiven(Step(s, a)) && Step(Forgiven(s), a).late == {}
  {
    hide ZeroNth, Disarm, IsLate, At, Load;
    ForgivenEnabled(s, a);
  }

  lemma {:induction false} ForgivenMapStep(s: State, a: Action)
    requires a.LoadOrStore? || a.LoadAndDelete?
    ensures Forgiven(Step(Forgiven(s), a)) == Forgiven(Step(s, a)) && Step(Forgiven(s), a).late == {}
  {
    hide ZeroNth, Disarm, IsLate, At, Load;
    ForgivenEnabled(s, a);
  }

  lemma {:induction false} ForgivenOtherStep(s: State, a: Action)
    requires a.Arm? || a.SetTimer? || a.Return? || a.Stop? || a.Fire? || a.ZeroField?
    ensures Forgiven(Step(Forgiven(s), a)) == Forgiven(Step(s, a)) && Step(Forgiven(s), a).late == {}
  {
    hide ZeroNth, Disarm, IsLate, At;
    ForgivenEnabled(s, a);
  }

  lemma {:induction false} ForgivenStep(s: State, a: Action)
    requires !a.Write?
    ensures Forgiven(Step(Forgiven(s), a)) == Forgiven(Step(s, a)) && Step(Forgiven(s), a).late == {}
  {
    hide Step;
    if a.PoolGet? || a.PutBack? || a.Put? || a.Collect? {
      ForgivenPoolStep(s, a);
    } else if a.LoadOrStore? || a.LoadAndDelete? {
      ForgivenMapStep(s, a);
    } else {
      ForgivenOtherStep(s, a);
    }
  }

  lemma {:induction false} OtherStepsTidy(s: State, a: Action, f: map<Ref, Owner>)
    requires Ownership(s, f) && HandlesExist(s) && Tidy(s) && !a.Write?
    ensures Tidy(Step(s, a))
  {
    hide Step, Tidy, Ownership, HandlesExist, Clean;
    TidyIsClean(s, f);
    StepKeepsClean(Forgiven(s), a, f);
    StepKeepsOwnership(s, a, f);
    StepKeepsHandles(s, a, f);
    StepKeepsOwnership(Forgiven(s), a, f);
    StepKeepsHandles(Forgiven(s), a, f);
    ForgivenStep(s, a);
    SameOwners(s, a, f);
    TidyIsClean(Step(s, a), NextOwner(s, a, f));
    assert Step(Forgiven(s), a) == Forgiven(Step(s, a)) by { NothingToForgive(Step(Forgiven(s), a)); }
  }

  lemma {:induction false} NothingToForgive(s: State)
    requires s.late == {}
    ensures Forgiven(s) == s
  {
  }

  lemma {:induction false} SameOwners(s: State, a: Action, f: map<Ref, Owner>)
    ensures NextOwner(Forgiven(s), a, f) == NextOwner(s, a, f)
  {
    assert forall t :: At(Forgiven(s), t) == At(s, t);
  }

  lemma {:induction false} WritesTidy(s: State, a: Action, f: map<Ref, Owner>)
    requires Ownership(s, f) && HandlesExist(s) && Tidy(s) && a.Write? && Enabled(s, a)
    ensures Tidy(Step(s, a)) <==> !Spoils(s, a)
  {
    hide IsLate;
    var s', r := Step(s, a), At(s, a.t).r;
    assert forall o, q :: Owns(s', o, q) <==> Owns(s, o, q);
    forall o, d ensures CleanAs(s', o, d) <==> CleanAs(s, o, d) {}
    assert r in s'.heap && s'.heap[r] == a.d;
    if Spoils(s, a) {
      var o :| Owns(s, o, r) && !CleanAs(s, o, a.d);
      assert Owns(s', o, r) && !CleanAs(s', o, s'.heap[r]);
    }
  }

  /** From a tidy state a step leads to an untidy one exactly if it is such a store. */
  lemma {:induction false} StepSpoils(s: State, a: Action, f: map<Ref, Owner>)
    requires Ownership(s, f) && HandlesExist(s) && Tidy(s)
    ensures Tidy(Step(s, a)) <==> !Spoils(s, a)
  {
    hide Tidy, Ownership, HandlesExist;
    if a.Write? {
      if Enabled(s, a) { WritesTidy(s, a, f); }
    } else {
      OtherStepsTidy(s, a, f);
    }
  }

  /** Is every object as its owner may expect at every time of the run? */
  ghost predicate NeverUntidy(actions: seq<Action>) {
    Tidy(Run(INIT, actions)) && (actions != [] ==> NeverUntidy(actions[..|actions| - 1]))
  }

  /** Does no store of the run spoil an object? */
  ghost predicate AllHarmless(actions: seq<Action>) {
    actions != [] ==>
      !Spoils(Run(INIT, actions[..|actions| - 1]), actions[|actions| - 1]) && AllHarmless(actions[..|actions| - 1])
  }

  /**
   In every interleaving all objects are, at every time, as their owners may
   expect them if and only if no Record* call leaves data that the present owner
   of its object does not expect there.
   */
  lemma {:induction false} ObjectsStayClean(actions: seq<Action>)
    ensures NeverUntidy(actions) <==> AllHarmless(actions)
  {
    hide Step, Tidy, Spoils, Clean;
    if actions == [] {
      NothingOwned();
    } else {
      var front, a := actions[..|actions| - 1], actions[|actions| - 1];
      ObjectsStayClean(front);
      var f := RunKeepsInv(front);
      if NeverUntidy(front) {
        assert Tidy(Run(INIT, front));
        StepSpoils(Run(INIT, front), a, f);
      }
    }
  }

  lemma {:induction false} NothingOwned()
    ensures Tidy(INIT)
  {
  }

  /** In such a run every pooled object is zero, and every object that GetOrCreate has taken. */
  lemma {:induction false} HarmlessRunsPoolZero(actions: seq<Action>, r: Ref, t: Tid)
    requires AllHarmless(actions)
    ensures var s := Run(INIT, actions);
      && (r in s.pool ==> r in s.heap && s.heap[r] == ZERO)
      && (At(s, t).Got? ==> At(s, t).r in s.heap && s.heap[At(s, t).r] == ZERO)
  {
    hide Run, AllHarmless;
    ObjectsStayClean(actions);
    var s := Run(INIT, actions);
    var f := RunKeepsInv(actions);
    assert Tidy(s);
    assert Owns(s, InPool, r) <==> r in s.pool;
    if At(s, t).Got? { assert Owns(s, With(t), At(s, t).r); }
  }
}
