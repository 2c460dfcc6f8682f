/**
 GetOrCreate, Delete, RecordFinality and the Record* calls of any number of
 threads, step by step: Pool.Get, LoadOrStore, Pool.Put, arming a timer, storing
 it in its object, stopping it, LoadAndDelete and each store of zeroOut are steps of their own. A
 timer that goes off starts one more thread, which calls Delete.
 */
module PoolProtocol {
  import opened Lifetime

  type ID = string
  type Ref = nat
  type Tid = nat

  datatype Thread =
    | Idle
    | Got(id: ID, r: Ref)               // GetOrCreate: Pool.Get gave r
    | Lost(id: ID, r: Ref, actual: Ref) // LoadOrStore found actual; r is to go back
    | Won(id: ID, r: Ref)               // LoadOrStore stored r; the timer is next
    | Arming(id: ID, r: Ref, n: nat)    // timer n is armed, and not stored in r yet
    | Holding(id: ID, r: Ref)           // GetOrCreate returned r
    | Expiring(id: ID)                  // a timer for id went off; Delete is next
    | Removing(r: Ref, zeroed: nat)     // Delete: LoadAndDelete took r; so many fields are zero again

  // A timer: the ID that its function deletes
  datatype Alarm = Alarm(id: ID, armed: bool)

  datatype State = State(
    heap: map<Ref, Data>,      // all objects ever made
    alarms: seq<Alarm>,        // all timers ever made
    timer: map<Ref, nat>,      // the timer fields that are not nil
    crashed: bool,             // RecordFinality has followed a nil timer
    pool: set<Ref>,
    collected: set<Ref>,       // dropped by the pool
    entries: map<ID, Ref>,
    threads: map<Tid, Thread>,
    late: set<Ref>)            // written through a handle whose entry is gone, since they were last taken out

  const INIT := State(map[], [], map[], false, {}, {}, map[], map[], {})

  function At(s: State, t: Tid): Thread {
    if t in s.threads then s.threads[t] else Idle
  }

  datatype Action =
    | PoolGet(t: Tid, id: ID, r: Ref)
    | LoadOrStore(t: Tid)
    | PutBack(t: Tid)
    | Arm(t: Tid)                // time.AfterFunc
    | SetTimer(t: Tid)           // its result is stored
    | Write(t: Tid, d: Data)     // any one store of a Record* call; d is what the object holds then
    | Return(t: Tid)             // the handler is done with its handle
    | Stop(t: Tid)               // RecordFinality
    | Fire(t: Tid, n: nat)       // timer n goes off; t is the thread it starts
    | LoadAndDelete(t: Tid, id: ID)
    | ZeroField(t: Tid)
    | Put(t: Tid)
    | Collect(r: Ref)

  function Load(s: State, r: Ref): Data {
    if r in s.heap then s.heap[r] else ZERO
  }

  predicate Enabled(s: State, a: Action) {
    !s.crashed &&
    match a
    case PoolGet(t, _, r) => At(s, t).Idle? && (r in s.pool || r !in s.heap)
    case LoadOrStore(t) => At(s, t).Got?
    case PutBack(t) => At(s, t).Lost?
    case Arm(t) => At(s, t).Won?
    case SetTimer(t) => At(s, t).Arming?
    case Write(t, _) => At(s, t).Holding?
    case Return(t) => At(s, t).Holding?
    case Stop(t) => At(s, t).Holding?
    case Fire(t, n) => At(s, t).Idle? && n < |s.alarms| && s.alarms[n].armed
    case LoadAndDelete(t, id) => At(s, t) == Expiring(id) || (At(s, t).Holding? && At(s, t).id == id)
    case ZeroField(t) => At(s, t).Removing? && At(s, t).zeroed < 8
    case Put(t) => At(s, t).Removing? && At(s, t).zeroed == 8
    case Collect(r) => r in s.pool
  }

  /** The stores of zeroOut, in order. */
  function ZeroNth(d: Data, n: nat): Data {
    match n
    case 0 => d.(startTime := 0)
    case 1 => d.(indexerCandidates := 0)
    case 2 => d.(indexerCandidateFirstResultTime := 0)
    case 3 => d.(indexerFiltered := 0)
    case 4 => d.(bitswapAttempt := 0)
    case 5 => d.(graphsyncAttempt := 0)
    case 6 => d.(ttfbTime := 0)
    case 7 => d.(failedCount := 0)
    case _ => d
  }

  predicate ZeroUpTo(d: Data, n: nat) {
    && (n > 0 ==> d.startTime == 0)
    && (n > 1 ==> d.indexerCandidates == 0)
    && (n > 2 ==> d.indexerCandidateFirstResultTime == 0)
    && (n > 3 ==> d.indexerFiltered == 0)
    && (n > 4 ==> d.bitswapAttempt == 0)
    && (n > 5 ==> d.graphsyncAttempt == 0)
    && (n > 6 ==> d.ttfbTime == 0)
    && (n > 7 ==> d.failedCount == 0)
  }

  function Disarm(alarms: seq<Alarm>, n: nat): seq<Alarm> {
    if n < |alarms| then alarms[n := alarms[n].(armed := false)] else alarms
  }

  function Goto(s: State, t: Tid, th: Thread): State {
    s.(threads := s.threads[t := th])
  }

  predicate IsLate(s: State, a: Action) {
    a.Write? && Enabled(s, a) && var h := At(s, a.t); !(h.id in s.entries && s.entries[h.id] == h.r)
  }

  function Step(s: State, a: Action): State {
    if !Enabled(s, a) then s else
    match a
    case PoolGet(t, id, r) =>
      Goto(if r in s.pool then s.(pool := s.pool - {r}) else s.(heap := s.heap[r := ZERO]), t, Got(id, r))
    case LoadOrStore(t) =>
      var Got(id, r) := At(s, t);
      if id in s.entries then Goto(s, t, Lost(id, r, s.entries[id]))
      else Goto(s.(entries := s.entries[id := r]), t, Won(id, r))
    case PutBack(t) =>
      var Lost(id, r, actual) := At(s, t);
      Goto(s.(pool := s.pool + {r}), t, Holding(id, actual))
    case Arm(t) =>
      var Won(id, r) := At(s, t);
      Goto(s.(alarms := s.alarms + [Alarm(id, true)]), t, Arming(id, r, |s.alarms|))
    case SetTimer(t) =>
      var Arming(id, r, n) := At(s, t);
      Goto(s.(timer := s.timer[r := n]), t, Holding(id, r))
    case Write(t, d) =>
      var r := At(s, t).r;
      s.(heap := s.heap[r := d], late := if IsLate(s, a) then s.late + {r} else s.late)
    case Return(t) => Goto(s, t, Idle)
    case Stop(t) =>
      var r := At(s, t).r;
      if r in s.timer then s.(alarms := Disarm(s.alarms, s.timer[r])) else s.(crashed := true)
    case Fire(t, n) => Goto(s.(alarms := Disarm(s.alarms, n)), t, Expiring(s.alarms[n].id))
    case LoadAndDelete(t, id) =>
      if id in s.entries then
        Goto(s.(entries := s.entries - {id}, late := s.late - {s.entries[id]}), t, Removing(s.entries[id], 0))
      else Goto(s, t, Idle)
    case ZeroField(t) =>
      var Removing(r, n) := At(s, t);
      Goto(s.(heap := s.heap[r := ZeroNth(Load(s, r), n)]), t, Removing(r, n + 1))
    case Put(t) =>
      Goto(s.(pool := s.pool + {At(s, t).r}), t, Idle)
    case Collect(r) =>
      s.(pool := s.pool - {r}, collected := s.collected + {r})
  }

  function Run(s: State, actions: seq<Action>): State {
    if actions == [] then s else Step(Run(s, actions[..|actions| - 1]), actions[|actions| - 1])
  }

  // ---------- ownership ----------

  datatype Owner = InPool | AtKey(id: ID) | With(t: Tid) | Collected

  predicate Owns(s: State, o: Owner, r: Ref) {
    match o
    case InPool => r in s.pool
    case AtKey(id) => id in s.entries && s.entries[id] == r
    case With(t) => var th := At(s, t); (th.Got? || th.Lost? || th.Removing?) && th.r == r
    case Collected => r in s.collected
  }

  /** f says who owns each object. */
  ghost predicate Ownership(s: State, f: map<Ref, Owner>) {
    && f.Keys == s.heap.Keys
    && forall o, r :: Owns(s, o, r) <==> r in f && f[r] == o
  }

  /** What an object holds that no late write has touched. */
  predicate CleanAs(s: State, o: Owner, d: Data) {
    match o
    case InPool => d == ZERO
    case AtKey(_) => true
    case With(t) => if At(s, t).Removing? then ZeroUpTo(d, At(s, t).zeroed) else d == ZERO
    case Collected => true
  }

  /** Every object a thread refers to exists. */
  ghost predicate HandlesExist(s: State) {
    forall t ::
      var th := At(s, t);
      (th.Holding? || th.Won? || th.Arming? ==> th.r in s.heap) && (th.Lost? ==> th.actual in s.heap)
  }

  ghost predicate Clean(s: State, f: map<Ref, Owner>) {
    && s.late <= s.heap.Keys
    && forall r | r in s.heap && r in f && r !in s.late :: CleanAs(s, f[r], s.heap[r])
  }

  ghost predicate Inv(s: State, f: map<Ref, Owner>) {
    Ownership(s, f) && HandlesExist(s) && Clean(s, f)
  }

  /** Each step hands over at most one object. */
  function NextOwner(s: State, a: Action, f: map<Ref, Owner>): map<Ref, Owner> {
    if !Enabled(s, a) then f else
    match a
    case PoolGet(t, _, r) => f[r := With(t)]
    case LoadOrStore(t) => if At(s, t).id in s.entries then f else f[At(s, t).r := AtKey(At(s, t).id)]
    case PutBack(t) => f[At(s, t).r := InPool]
    case LoadAndDelete(t, id) => if id in s.entries then f[s.entries[id] := With(t)] else f
    case Put(t) => f[At(s, t).r := InPool]
    case Collect(r) => f[r := Collected]
    case _ => f
  }

  /** The object a step hands over, and who had it. */
  lemma {:induction false} HandedOver(s: State, a: Action, f: map<Ref, Owner>)
    requires Ownership(s, f) && Enabled(s, a)
    ensures a.PoolGet? ==> (a.r in s.pool <==> a.r in f) && (a.r in f ==> f[a.r] == InPool)
    ensures a.LoadOrStore? || a.PutBack? || a.ZeroField? || a.Put? ==>
      At(s, a.t).r in f && f[At(s, a.t).r] == With(a.t)
    ensures a.LoadAndDelete? && a.id in s.entries ==> s.entries[a.id] in f && f[s.entries[a.id]] == AtKey(a.id)
    ensures a.Collect? ==> a.r in f && f[a.r] == InPool
    ensures a.Write? ==> (!IsLate(s, a) <==> Owns(s, AtKey(At(s, a.t).id), At(s, a.t).r))
  {
    match a
    case PoolGet(_, _, r) => assert Owns(s, InPool, r) <==> r in s.pool;
    case LoadAndDelete(_, id) => if id in s.entries { assert Owns(s, AtKey(id), s.entries[id]); }
    case Collect(r) => assert Owns(s, InPool, r);
    case Write(_, _) =>
    case Arm(_) =>
    case SetTimer(_) =>
    case Return(_) =>
    case Stop(_) =>
    case Fire(_, _) =>
    case _ => assert Owns(s, With(a.t), At(s, a.t).r);
  }

  /** Does the step leave every thread where it was? */
  predicate Stays(a: Action) {
    a.Write? || a.Collect? || a.Stop?
  }

  lemma {:induction false} OtherThreadsStay(s: State, a: Action, u: Tid)
    requires Enabled(s, a)
    ensures At(Step(s, a), u) == if Stays(a) || u != a.t then At(s, u) else At(Step(s, a), a.t)
  {
    hide IsLate, ZeroNth, Load, Disarm;
  }

  lemma {:induction false} ThreadOwnsAfter(s: State, a: Action, f: map<Ref, Owner>, t: Tid, q: Ref)
    requires Ownership(s, f) && HandlesExist(s) && Enabled(s, a)
    ensures Owns(Step(s, a), With(t), q) <==> q in NextOwner(s, a, f) && NextOwner(s, a, f)[q] == With(t)
  {
    hide HandlesExist, IsLate, ZeroNth, Load, Disarm;
    HandedOver(s, a, f);
    assert Owns(s, With(t), q) <==> q in f && f[q] == With(t);
    OtherThreadsStay(s, a, t);
  }

  lemma {:induction false} KeyOwnsAfter(s: State, a: Action, f: map<Ref, Owner>, id: ID, q: Ref)
    requires Ownership(s, f) && HandlesExist(s) && Enabled(s, a)
    ensures Owns(Step(s, a), AtKey(id), q) <==> q in NextOwner(s, a, f) && NextOwner(s, a, f)[q] == AtKey(id)
  {
    hide HandlesExist, IsLate, ZeroNth, Load, Disarm;
    HandedOver(s, a, f);
    assert Owns(s, AtKey(id), q) <==> q in f && f[q] == AtKey(id);
  }

  lemma {:induction false} OwnsAfter(s: State, a: Action, f: map<Ref, Owner>, o: Owner, q: Ref)
    requires Ownership(s, f) && HandlesExist(s) && Enabled(s, a)
    ensures Owns(Step(s, a), o, q) <==> q in NextOwner(s, a, f) && NextOwner(s, a, f)[q] == o
  {
    hide HandlesExist, IsLate, ZeroNth, Load, Disarm;
    if o.With? {
      ThreadOwnsAfter(s, a, f, o.t, q);
    } else if o.AtKey? {
      KeyOwnsAfter(s, a, f, o.id, q);
    } else {
      HandedOver(s, a, f);
      assert Owns(s, o, q) <==> q in f && f[q] == o;
    }
  }

  lemma {:induction false} StepKeepsOwnership(s: State, a: Action, f: map<Ref, Owner>)
    requires Ownership(s, f) && HandlesExist(s)
    ensures Ownership(Step(s, a), NextOwner(s, a, f))
  {
    if Enabled(s, a) {
      HandedOver(s, a, f);
      if a.Write? { assert At(s, a.t).r in s.heap; }
      forall o, q { OwnsAfter(s, a, f, o, q); }
    }
  }

  // t moves to th, or nobody moves; whatever th refers to exists
  lemma {:induction false} MoveKeepsHandles(s: State, s': State, t: Tid, th: Thread)
    requires HandlesExist(s) && s.heap.Keys <= s'.heap.Keys
    requires s'.threads == s.threads[t := th]
    requires (th.Holding? || th.Won? || th.Arming? ==> th.r in s'.heap) && (th.Lost? ==> th.actual in s'.heap)
    ensures HandlesExist(s')
  {
    forall u
      ensures var th := At(s', u);
        (th.Holding? || th.Won? || th.Arming? ==> th.r in s'.heap) && (th.Lost? ==> th.actual in s'.heap)
    {
      assert At(s', u) == if u == t then th else At(s, u);
    }
  }

  lemma {:induction false} StepKeepsHandles(s: State, a: Action, f: map<Ref, Owner>)
    requires Ownership(s, f) && HandlesExist(s)
    ensures HandlesExist(Step(s, a))
  {
    if Enabled(s, a) {
      var s' := Step(s, a);
      if Stays(a) {
        assert forall u :: At(s', u) == At(s, u);
      } else {
        var th := At(s, a.t);
        if a.LoadOrStore? {
          assert Owns(s, With(a.t), th.r);
          assert th.id in s.entries ==> Owns(s, AtKey(th.id), s.entries[th.id]);
        }
        MoveKeepsHandles(s, s', a.t, At(s', a.t));
      }
    }
  }

  lemma {:induction false} ZeroOneMore(d: Data, n: nat)
    requires n < 8 && ZeroUpTo(d, n)
    ensures ZeroUpTo(ZeroNth(d, n), n + 1)
    ensures ZeroUpTo(d, 8) <==> d == ZERO
  {
  }

  lemma {:induction false} ZeroFieldKeepsClean(s: State, t: Tid, f: map<Ref, Owner>)
    requires Inv(s, f) && Enabled(s, ZeroField(t))
    ensures Clean(Step(s, ZeroField(t)), f)
  {
    HandedOver(s, ZeroField(t), f);
    var Removing(r, n) := At(s, t);
    var s' := Step(s, ZeroField(t));
    assert s'.heap == s.heap[r := ZeroNth(s.heap[r], n)] && At(s', t) == Removing(r, n + 1);
    forall q | q in s'.heap && q in f && q !in s'.late ensures CleanAs(s', f[q], s'.heap[q]) {
      assert CleanAs(s, f[q], s.heap[q]);
      if q == r {
        ZeroOneMore(s.heap[r], n);
      } else if f[q].With? {
        assert Owns(s, f[q], q);
        assert f[q].t != t;
        assert At(s', f[q].t) == At(s, f[q].t);
      }
    }
  }

  lemma {:induction false} WriteKeepsClean(s: State, t: Tid, d: Data, f: map<Ref, Owner>)
    requires Inv(s, f) && Enabled(s, Write(t, d))
    ensures Clean(Step(s, Write(t, d)), f)
  {
    HandedOver(s, Write(t, d), f);
    var h, s' := At(s, t), Step(s, Write(t, d));
    assert h.r in s.heap;
    forall q | q in s'.heap && q in f && q !in s'.late ensures CleanAs(s', f[q], s'.heap[q]) {
      if q == h.r {
        assert Owns(s, AtKey(h.id), q);
        assert f[q] == AtKey(h.id);
      } else {
        assert CleanAs(s, f[q], s.heap[q]);
        assert f[q].With? ==> At(s', f[q].t) == At(s, f[q].t);
      }
    }
  }

  lemma {:induction false} OtherStepsKeepClean(s: State, a: Action, f: map<Ref, Owner>)
    requires Inv(s, f) && Enabled(s, a) && !a.ZeroField? && !a.Write?
    ensures Clean(Step(s, a), NextOwner(s, a, f))
  {
    var s', g := Step(s, a), NextOwner(s, a, f);
    HandedOver(s, a, f);
    forall q | q in s'.heap && q in g && q !in s'.late ensures CleanAs(s', g[q], s'.heap[q]) {
      if q in f {
        assert q !in s.late ==> CleanAs(s, f[q], s.heap[q]);
        assert Owns(s, f[q], q);
      }
      if g[q].With? {
        var u := g[q].t;
        OtherThreadsStay(s, a, u);
      }
    }
  }

  lemma {:induction false} StepKeepsClean(s: State, a: Action, f: map<Ref, Owner>)
    requires Inv(s, f)
    ensures Clean(Step(s, a), NextOwner(s, a, f))
  {
    if Enabled(s, a) {
      match a
      case ZeroField(t) => ZeroFieldKeepsClean(s, t, f);
      case Write(t, d) => WriteKeepsClean(s, t, d, f);
      case _ => OtherStepsKeepClean(s, a, f);
    }
  }

  // ---------- runs ----------

  lemma {:induction false} RunKeepsInv(actions: seq<Action>) returns (f: map<Ref, Owner>)
    ensures Inv(Run(INIT, actions), f)
  {
    if actions == [] {
      f := map[];
      assert forall o, r :: !Owns(INIT, o, r);
    } else {
      var front, a := actions[..|actions| - 1], actions[|actions| - 1];
      f := RunKeepsInv(front);
      var s := Run(INIT, front);
      StepKeepsOwnership(s, a, f);
      StepKeepsHandles(s, a, f);
      StepKeepsClean(s, a, f);
      f := NextOwner(s, a, f);
    }
  }

  /**
   Under every interleaving each object has exactly one owner: the pool, one
   key, one GetOrCreate or Delete under way, or nobody since the pool dropped it.
   */
  lemma {:induction false} SingleOwner(actions: seq<Action>, r: Ref)
    requires r in Run(INIT, actions).heap
    ensures exists o :: Owns(Run(INIT, actions), o, r) && forall p :: Owns(Run(INIT, actions), p, r) ==> p == o
  {
    var f := RunKeepsInv(actions);
    var s := Run(INIT, actions);
    assert Owns(s, f[r], r);
    forall p | Owns(s, p, r) ensures p == f[r] {}
  }

  /** No object serves two IDs, and none is put back while it is in the pool or in use under a key. */
  lemma {:induction false} NeverSharedNorPutBackTwice(actions: seq<Action>, i: ID, j: ID, a: Action)
    ensures var s := Run(INIT, actions);
      && (i in s.entries && j in s.entries && s.entries[i] == s.entries[j] ==> i == j)
      && ((a.Put? || a.PutBack?) && Enabled(s, a) ==>
            At(s, a.t).r !in s.pool && At(s, a.t).r !in s.collected && At(s, a.t).r !in s.entries.Values)
  {
    var f := RunKeepsInv(actions);
    var s := Run(INIT, actions);
    if i in s.entries && j in s.entries && s.entries[i] == s.entries[j] {
      assert Owns(s, AtKey(i), s.entries[i]) && Owns(s, AtKey(j), s.entries[i]);
    }
    if (a.Put? || a.PutBack?) && Enabled(s, a) {
      var r := At(s, a.t).r;
      assert Owns(s, With(a.t), r);
      assert !Owns(s, InPool, r) && !Owns(s, Collected, r);
      forall k | k in s.entries ensures s.entries[k] != r { assert !Owns(s, AtKey(k), r); }
    }
  }

  /** A pooled object that is not zero has had a late write, after it was last taken out of the map. */
  lemma {:induction false} OnlyLateWritesDirtyThePool(actions: seq<Action>, r: Ref)
    requires r in Run(INIT, actions).pool && Load(Run(INIT, actions), r) != ZERO
    ensures r in Run(INIT, actions).late
  {
    var f := RunKeepsInv(actions);
    assert Owns(Run(INIT, actions), InPool, r);
  }

  predicate NoLateWrite(actions: seq<Action>) {
    forall i | 0 <= i < |actions| :: !IsLate(Run(INIT, actions[..i]), actions[i])
  }

  lemma {:induction false} OnlyLateWritesAreLate(s: State, a: Action)
    requires s.late == {} && !IsLate(s, a)
    ensures Step(s, a).late == {}
  {
  }

  lemma {:induction false} NothingLate(actions: seq<Action>)
    requires NoLateWrite(actions)
    ensures Run(INIT, actions).late == {}
  {
    hide IsLate, Step;
    if actions != [] {
      var front := actions[..|actions| - 1];
      assert !IsLate(Run(INIT, actions[..|front|]), actions[|front|]);
      forall i | 0 <= i < |front| ensures !IsLate(Run(INIT, front[..i]), front[i]) {
        assert front[..i] == actions[..i];
        assert !IsLate(Run(INIT, actions[..i]), actions[i]);
      }
      NothingLate(front);
      OnlyLateWritesAreLate(Run(INIT, front), actions[|front|]);
    }
  }

  /**
   If no Record* call runs on a handle whose entry was removed, every pooled
   object is zero and every entry starts from zero.
   */
  lemma {:induction false} PoolStaysZero(actions: seq<Action>, r: Ref, t: Tid)
    requires NoLateWrite(actions)
    ensures var s := Run(INIT, actions);
      && (r in s.pool ==> r in s.heap && s.heap[r] == ZERO)
      && (At(s, t).Got? ==> At(s, t).r in s.heap && s.heap[At(s, t).r] == ZERO)
  {
    var f := RunKeepsInv(actions);
    var s := Run(INIT, actions);
    NothingLate(actions);
    assert Owns(s, InPool, r) <==> r in s.pool;
    if At(s, t).Got? {
      assert Owns(s, With(t), At(s, t).r);
    }
  }

  // ---------- what finer steps can break ----------

  /** actions lead to s, and one more step leads on. */
  lemma {:induction false} RunFrom(s: State, a: seq<Action>, x: Action)
    ensures Run(s, a + [x]) == Step(Run(s, a), x)
  {
  }

  /** A late write reaches an object that is already back in the pool: the next entry will not start from zero. */
  lemma {:induction false} LateWriteCanReachThePool(d: Data)
    requires d != ZERO
    ensures exists actions, r: Ref :: r in Run(INIT, actions).pool && r in Run(INIT, actions).heap && Run(INIT, actions).heap[r] == d
  {
    hide Run;
    var a := ToZeroed(8);
    var a1 := a + [Put(2)];
    var a2 := a1 + [Write(1, d)];
    RunFrom(INIT, a, Put(2));
    RunFrom(INIT, a1, Write(1, d));
    assert 0 in Run(INIT, a1).pool && At(Run(INIT, a1), 1) == Holding("a", 0);
    assert 0 in Run(INIT, a2).pool && Run(INIT, a2).heap[0] == d;
  }

  const GOT := State(map[0 := ZERO], [], map[], false, {}, {}, map[], map[1 := Got("a", 0)], {})
  const WON := GOT.(entries := map["a" := 0], threads := map[1 := Won("a", 0)])
  const ARMING := WON.(alarms := [Alarm("a", true)], threads := map[1 := Arming("a", 0, 0)])
  // An entry with its timer, and a handle on it
  const HELD := ARMING.(timer := map[0 := 0], threads := map[1 := Holding("a", 0)])
  const FIRED := HELD.(alarms := [Alarm("a", false)], threads := map[1 := Holding("a", 0), 2 := Expiring("a")])

  /** actions lead to from, and a leads on to to. */
  lemma {:induction false} Onward(actions: seq<Action>, from: State, a: Action, to: State)
    requires Run(INIT, actions) == from && Step(from, a) == to
    ensures Run(INIT, actions + [a]) == to
  {
    RunFrom(INIT, actions, a);
  }

  lemma {:induction false} StepsToWon()
    ensures Step(INIT, PoolGet(1, "a", 0)) == GOT && Step(GOT, LoadOrStore(1)) == WON
  {
    assert Step(GOT, LoadOrStore(1)).entries == WON.entries && Step(GOT, LoadOrStore(1)).threads == WON.threads;
  }

  lemma {:induction false} StepsToHeld()
    ensures Step(WON, Arm(1)) == ARMING && Step(ARMING, SetTimer(1)) == HELD
  {
    assert Step(WON, Arm(1)).threads == ARMING.threads && Step(ARMING, SetTimer(1)).threads == HELD.threads;
  }

  lemma {:induction false} StepToFired()
    ensures Step(HELD, Fire(2, 0)) == FIRED
  {
  }

  lemma {:induction false} StepToExpired()
    ensures Step(FIRED, LoadAndDelete(2, "a")) == Expired(0)
  {
    assert Step(FIRED, LoadAndDelete(2, "a")).threads == Expired(0).threads;
    assert Step(FIRED, LoadAndDelete(2, "a")).entries == map[];
  }

  lemma {:induction false} ToWon() returns (actions: seq<Action>)
    ensures Run(INIT, actions) == WON
  {
    var none: seq<Action> := [];
    assert Run(INIT, none) == INIT;
    hide Run, Step;
    StepsToWon();
    Onward(none, INIT, PoolGet(1, "a", 0), GOT);
    Onward(none + [PoolGet(1, "a", 0)], GOT, LoadOrStore(1), WON);
    actions := none + [PoolGet(1, "a", 0)] + [LoadOrStore(1)];
  }

  lemma {:induction false} ToHeld() returns (actions: seq<Action>)
    ensures Run(INIT, actions) == HELD
  {
    hide Run, Step;
    var before := ToWon();
    StepsToHeld();
    Onward(before, WON, Arm(1), ARMING);
    Onward(before + [Arm(1)], ARMING, SetTimer(1), HELD);
    actions := before + [Arm(1)] + [SetTimer(1)];
  }

  /** The timer of "a" has gone off and its entry is gone, while thread 1 still holds the object. */
  lemma {:induction false} ToExpired() returns (actions: seq<Action>)
    ensures Run(INIT, actions) == Expired(0)
  {
    hide Run, Step, Expired;
    var before := ToHeld();
    StepToFired();
    StepToExpired();
    Onward(before, HELD, Fire(2, 0), FIRED);
    Onward(before + [Fire(2, 0)], FIRED, LoadAndDelete(2, "a"), Expired(0));
    actions := before + [Fire(2, 0)] + [LoadAndDelete(2, "a")];
  }

  // What is left of "a": thread 1 holds its object, of which n fields are zero again
  function Expired(n: nat): State {
    State(map[0 := ZERO], [Alarm("a", false)], map[0 := 0], false, {}, {}, map[], map[1 := Holding("a", 0), 2 := Removing(0, n)], {})
  }

  // The object of "a" is back in the pool, while thread 1 still holds it
  const POOLED := Expired(8).(pool := {0}, threads := map[1 := Holding("a", 0), 2 := Idle])

  lemma {:induction false} ToZeroed(n: nat) returns (actions: seq<Action>)
    requires n <= 8
    ensures Run(INIT, actions) == Expired(n)
  {
    hide Run;
    if n == 0 {
      actions := ToExpired();
    } else {
      var before := ToZeroed(n - 1);
      actions := before + [ZeroField(2)];
      RunFrom(INIT, before, ZeroField(2));
      assert Step(Expired(n - 1), ZeroField(2)).threads == Expired(n).threads;
    }
  }
}
