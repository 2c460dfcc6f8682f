/**
 Any number of concurrent RecordIndexerCandidates calls on one live entry. The
 compare-and-swap, the store of the first-result time and the addition are
 separate atomic steps.
 */
module CandidateCounting {
  import opened GoTime
  import opened Lifetime
  import opened Sequences

  datatype Phase =
    | Called
    | Swapped                // compare-and-swap done; the time is not stored yet
    | Missed                 // compare-and-swap failed; the amount is not added yet
    | Returned(first: bool)

  datatype Call = Call(time: uint64, amount: uint32)

  datatype State = State(
    indexerCandidates: uint32,
    firstResultTime: uint64,
    phases: seq<Phase>,
    order: seq<nat>)         // the calls whose amount is in, in the order it got there

  /** n calls are about to be made on an entry with this count and time. */
  function Initial(count: uint32, time: uint64, n: nat): State {
    State(count, time, seq(n, _ => Called), [])
  }

  /** The next atomic step of call t, if it has one. */
  function Step(calls: seq<Call>, s: State, t: nat): State
    requires |s.phases| == |calls|
  {
    if t >= |calls| then s
    else
      match s.phases[t]
      case Called =>
        if s.indexerCandidates == 0 then
          State(calls[t].amount, s.firstResultTime, s.phases[t := Swapped], s.order + [t])
        else s.(phases := s.phases[t := Missed])
      case Swapped =>
        s.(firstResultTime := calls[t].time, phases := s.phases[t := Returned(true)])
      case Missed =>
        State(AddUint32(s.indexerCandidates, calls[t].amount), s.firstResultTime,
              s.phases[t := Returned(false)], s.order + [t])
      case Returned(_) => s
  }

  function Run(calls: seq<Call>, s: State, schedule: seq<nat>): (r: State)
    requires |s.phases| == |calls|
    ensures |r.phases| == |calls|
  {
    if schedule == [] then s
    else Step(calls, Run(calls, s, schedule[..|schedule| - 1]), schedule[|schedule| - 1])
  }

  predicate Settled(s: State) {
    forall t | 0 <= t < |s.phases| :: s.phases[t].Returned?
  }

  // ---------- sums ----------

  predicate InRange(order: seq<nat>, n: nat) {
    forall i | 0 <= i < |order| :: order[i] < n
  }

  predicate Indexes(calls: seq<Call>, order: seq<nat>) {
    && InRange(order, |calls|)
    && (forall i, j | 0 <= i < j < |order| :: order[i] != order[j])
  }

  /** The amounts of these calls, in all. */
  function Total(calls: seq<Call>, order: seq<nat>): nat
    requires InRange(order, |calls|)
  {
    if order == [] then 0
    else Total(calls, order[..|order| - 1]) + calls[order[|order| - 1]].amount
  }

  function Sum(calls: seq<Call>): nat {
    if calls == [] then 0 else Sum(calls[..|calls| - 1]) + calls[|calls| - 1].amount
  }

  lemma {:induction false} TotalStep(calls: seq<Call>, order: seq<nat>, t: nat)
    requires t < |calls| && InRange(order, |calls|)
    ensures Total(calls, order + [t]) == Total(calls, order) + calls[t].amount
  {
  }

  lemma {:induction false} TotalWithout(calls: seq<Call>, order: seq<nat>, i: nat)
    requires i < |order| && InRange(order, |calls|)
    ensures Total(calls, order) == Total(calls, order[..i] + order[i + 1..]) + calls[order[i]].amount
  {
    var last := |order| - 1;
    if i == last {
      assert order[..i] + order[i + 1..] == order[..last];
    } else {
      TotalWithout(calls, order[..last], i);
      assert order[..i] + order[i + 1..] == (order[..last][..i] + order[..last][i + 1..]) + [order[last]];
      TotalStep(calls, order[..last][..i] + order[..last][i + 1..], order[last]);
    }
  }

  lemma {:induction false} TotalOfFewerCalls(calls: seq<Call>, order: seq<nat>, n: nat)
    requires n <= |calls| && InRange(order, n)
    ensures Total(calls[..n], order) == Total(calls, order)
  {
    if order != [] {
      TotalOfFewerCalls(calls, order[..|order| - 1], n);
    }
  }

  predicate All(calls: seq<Call>, order: seq<nat>) {
    Indexes(calls, order) && forall t | 0 <= t < |calls| :: Occurs(order, t)
  }

  lemma {:induction false} WithoutLast(calls: seq<Call>, order: seq<nat>, i: nat)
    requires calls != [] && All(calls, order) && i < |order| && order[i] == |calls| - 1
    ensures All(calls[..|calls| - 1], order[..i] + order[i + 1..])
  {
    var last, rest := |calls| - 1, order[..i] + order[i + 1..];
    assert forall k | 0 <= k < |rest| :: rest[k] == if k < i then order[k] else order[k + 1];
    forall t | 0 <= t < last ensures Occurs(rest, t) {
      assert Occurs(order, t);
      var k :| 0 <= k < |order| && order[k] == t;
      assert rest[if k < i then k else k - 1] == t;
    }
  }

  /** In whatever order all the calls come, their amounts add up to the same sum. */
  lemma {:induction false} TotalOfAll(calls: seq<Call>, order: seq<nat>)
    requires All(calls, order)
    ensures Total(calls, order) == Sum(calls)
    decreases |calls|
  {
    if calls == [] {
      assert |order| == 0;
    } else {
      var last := |calls| - 1;
      assert Occurs(order, last);
      var i :| 0 <= i < |order| && order[i] == last;
      TotalWithout(calls, order, i);
      WithoutLast(calls, order, i);
      TotalOfAll(calls[..last], order[..i] + order[i + 1..]);
      TotalOfFewerCalls(calls, order[..i] + order[i + 1..], last);
    }
  }

  lemma {:induction false} TotalOfPrefix(calls: seq<Call>, order: seq<nat>, i: nat)
    requires i <= |order| && InRange(order, |calls|) && forall t | 0 <= t < |calls| :: calls[t].amount >= 1
    ensures i <= Total(calls, order[..i]) <= Total(calls, order)
    decreases |order|
  {
    if i == |order| {
      assert order[..i] == order;
      if order != [] { TotalOfPrefix(calls, order[..i - 1], i - 1); assert order[..i - 1][..i - 1] == order[..i - 1]; }
    } else {
      TotalOfPrefix(calls, order[..|order| - 1], i);
      assert order[..|order| - 1][..i] == order[..i];
    }
  }

  // ---------- what every step keeps ----------

  predicate In(p: Phase) {
    p.Swapped? || p.Returned?
  }

  predicate WonSwap(p: Phase) {
    p.Swapped? || p == Returned(true)
  }

  /** Was the count 0 just before the i-th amount got in? */
  predicate ZeroBefore(calls: seq<Call>, count: uint32, order: seq<nat>, i: nat)
    requires i <= |order| && InRange(order, |calls|)
  {
    (count + Total(calls, order[..i])) % 0x1_0000_0000 == 0
  }

  /** The amounts that are in are those of the calls that say so, each once. */
  ghost predicate Counted(calls: seq<Call>, count: uint32, s: State) {
    && |s.phases| == |calls|
    && Indexes(calls, s.order)
    && (forall t | 0 <= t < |calls| :: Occurs(s.order, t) <==> In(s.phases[t]))
    && s.indexerCandidates == (count + Total(calls, s.order)) % 0x1_0000_0000
  }

  /** A swap succeeds only on a count of 0, and on a fresh entry the first amount comes by a swap. */
  ghost predicate SwapsOnZero(calls: seq<Call>, count: uint32, s: State)
    requires |s.phases| == |calls| && InRange(s.order, |calls|)
  {
    && (forall i | 0 <= i < |s.order| && WonSwap(s.phases[s.order[i]]) :: ZeroBefore(calls, count, s.order, i))
    && (count == 0 && s.order == [] ==> forall t | 0 <= t < |calls| :: s.phases[t] == Called)
    && (count == 0 && s.order != [] ==> WonSwap(s.phases[s.order[0]]))
  }

  ghost predicate Inv(calls: seq<Call>, count: uint32, s: State) {
    Counted(calls, count, s) && SwapsOnZero(calls, count, s)
  }

  // t returned first, and its time is the one stored
  predicate IsFirst(calls: seq<Call>, s: State, t: nat)
    requires |s.phases| == |calls| && t < |calls|
  {
    s.phases[t] == Returned(true) && s.firstResultTime == calls[t].time
  }

  ghost predicate TimeInv(calls: seq<Call>, time: uint64, s: State) {
    && |s.phases| == |calls|
    && (s.firstResultTime == time || exists t | 0 <= t < |calls| :: IsFirst(calls, s, t))
    && ((exists t | 0 <= t < |calls| :: s.phases[t] == Returned(true)) ==> exists t | 0 <= t < |calls| :: IsFirst(calls, s, t))
  }

  lemma {:induction false} StepKeepsTime(calls: seq<Call>, time: uint64, s: State, t: nat)
    requires TimeInv(calls, time, s)
    ensures TimeInv(calls, time, Step(calls, s, t))
  {
    var s' := Step(calls, s, t);
    if t < |calls| {
      if s.phases[t] == Swapped {
        assert IsFirst(calls, s', t);
      } else if exists u | 0 <= u < |calls| :: IsFirst(calls, s, u) {
        var u :| 0 <= u < |calls| && IsFirst(calls, s, u);
        assert IsFirst(calls, s', u);
      } else {
        assert forall u | 0 <= u < |calls| :: s.phases[u] != Returned(true) && s'.phases[u] != Returned(true);
      }
    }
  }

  /** Does this step put the amount of t in? */
  predicate Enters(s: State, t: nat) {
    t < |s.phases| && (s.phases[t] == Missed || (s.phases[t] == Called && s.indexerCandidates == 0))
  }

  lemma {:induction false} IndexesLonger(calls: seq<Call>, order: seq<nat>, t: nat)
    requires Indexes(calls, order) && t < |calls| && !Occurs(order, t)
    ensures Indexes(calls, order + [t])
  {
  }

  lemma {:induction false} EntryAdds(calls: seq<Call>, count: uint32, s: State, t: nat)
    requires Counted(calls, count, s) && Enters(s, t)
    ensures Step(calls, s, t).indexerCandidates == (count + Total(calls, s.order) + calls[t].amount) % 0x1_0000_0000
  {
    hide Total, Occurs;
    ModularSum(count + Total(calls, s.order), calls[t].amount);
  }

  lemma {:induction false} EntryCounted(calls: seq<Call>, count: uint32, s: State, t: nat)
    requires Counted(calls, count, s) && Enters(s, t)
    ensures Counted(calls, count, Step(calls, s, t))
  {
    hide Total, Occurs, AddUint32;
    IndexesLonger(calls, s.order, t);
    TotalStep(calls, s.order, t);
    EntryAdds(calls, count, s, t);
    forall u { OccursInLonger(s.order, t, u); }
  }

  lemma {:induction false} EntrySwapsOnZero(calls: seq<Call>, count: uint32, s: State, t: nat)
    requires Inv(calls, count, s) && Enters(s, t)
    ensures InRange(Step(calls, s, t).order, |calls|) && SwapsOnZero(calls, count, Step(calls, s, t))
  {
    hide Total;
    var s', n := Step(calls, s, t), |s.order|;
    assert !Occurs(s.order, t);
    assert s'.order[..n] == s.order[..n] == s.order;
    assert s.phases[t] == Called ==> ZeroBefore(calls, count, s.order, n);
    forall i | 0 <= i < |s'.order| && WonSwap(s'.phases[s'.order[i]])
      ensures ZeroBefore(calls, count, s'.order, i)
    {
      if i < n {
        assert s'.order[i] == s.order[i] != t && s'.order[..i] == s.order[..i];
        assert ZeroBefore(calls, count, s.order, i);
      }
    }
    if count == 0 && n > 0 {
      assert s'.order[0] == s.order[0] != t;
    }
  }

  lemma {:induction false} QuietStep(calls: seq<Call>, count: uint32, s: State, t: nat)
    requires |s.phases| == |calls| && !Enters(s, t)
    ensures var s' := Step(calls, s, t);
      && s'.order == s.order && s'.indexerCandidates == s.indexerCandidates && |s'.phases| == |calls|
      && (forall u | 0 <= u < |calls| :: In(s'.phases[u]) == In(s.phases[u]) && WonSwap(s'.phases[u]) == WonSwap(s.phases[u]))
      && (s' == s || s.indexerCandidates != 0 || exists u | 0 <= u < |calls| :: In(s.phases[u]))
  {
    if t < |calls| && s.phases[t] == Swapped { assert In(s.phases[t]); }
  }

  lemma {:induction false} QuietKeepsInv(calls: seq<Call>, count: uint32, s: State, t: nat)
    requires Inv(calls, count, s) && !Enters(s, t)
    ensures Inv(calls, count, Step(calls, s, t))
  {
    hide Step, Enters, In, WonSwap, ZeroBefore, Indexes;
    QuietStep(calls, count, s, t);
    if count == 0 && s.order == [] { assert forall u | 0 <= u < |calls| :: !Occurs(s.order, u); }
    assert InRange(s.order, |calls|) by { IndexesInRange(calls, s.order); }
  }

  lemma {:induction false} IndexesInRange(calls: seq<Call>, order: seq<nat>)
    requires Indexes(calls, order)
    ensures InRange(order, |calls|)
  {
  }

  lemma {:induction false} RunKeepsInv(calls: seq<Call>, count: uint32, time: uint64, schedule: seq<nat>)
    ensures var s := Run(calls, Initial(count, time, |calls|), schedule);
      Inv(calls, count, s) && TimeInv(calls, time, s)
  {
    if schedule != [] {
      var before, t := Run(calls, Initial(count, time, |calls|), schedule[..|schedule| - 1]), schedule[|schedule| - 1];
      RunKeepsInv(calls, count, time, schedule[..|schedule| - 1]);
      StepKeepsTime(calls, time, before, t);
      if Enters(before, t) {
        EntryCounted(calls, count, before, t);
        EntrySwapsOnZero(calls, count, before, t);
      } else {
        QuietKeepsInv(calls, count, before, t);
      }
    }
  }

  // ---------- theorems ----------

  lemma {:induction false} AllCounted(calls: seq<Call>, count: uint32, s: State)
    requires Counted(calls, count, s) && Settled(s)
    ensures All(calls, s.order) && s.indexerCandidates == (count + Sum(calls)) % 0x1_0000_0000
  {
    forall t | 0 <= t < |calls| ensures Occurs(s.order, t) { assert In(s.phases[t]); }
    TotalOfAll(calls, s.order);
  }

  /** s is a state that some interleaving of the calls leads to. */
  predicate Reached(calls: seq<Call>, count: uint32, time: uint64, schedule: seq<nat>, s: State) {
    s == Run(calls, Initial(count, time, |calls|), schedule)
  }

  /** When all calls have returned, their amounts have all been counted, modulo 2^32. */
  lemma {:induction false} NoAmountIsLost(calls: seq<Call>, count: uint32, time: uint64, schedule: seq<nat>, s: State)
    requires Reached(calls, count, time, schedule, s) && Settled(s)
    ensures s.indexerCandidates == (count + Sum(calls)) % 0x1_0000_0000
  {
    RunKeepsInv(calls, count, time, schedule);
    AllCounted(calls, count, s);
  }

  lemma {:induction false} PlaceOf(calls: seq<Call>, count: uint32, s: State, t: nat) returns (i: nat)
    requires Inv(calls, count, s) && t < |calls| && s.phases[t] == Returned(true)
    ensures i < |s.order| && s.order[i] == t && ZeroBefore(calls, count, s.order, i)
  {
    assert Occurs(s.order, t);
    i :| 0 <= i < |s.order| && s.order[i] == t;
  }

  /** A call returns first only if the count was 0, modulo 2^32, when its amount got in. */
  lemma {:induction false} FirstMeansCountWasZero(calls: seq<Call>, count: uint32, time: uint64, schedule: seq<nat>, s: State, t: nat) returns (i: nat)
    requires Reached(calls, count, time, schedule, s) && t < |s.phases| && s.phases[t] == Returned(true)
    ensures i < |s.order| && s.order[i] == t && InRange(s.order, |calls|) && ZeroBefore(calls, count, s.order, i)
  {
    RunKeepsInv(calls, count, time, schedule);
    i := PlaceOf(calls, count, s, t);
  }

  /**
   On a fresh entry, with amounts of at least 1 and a sum below 2^32, exactly
   one call returns first, and its time is the one that stays.
   */
  lemma {:induction false} ExactlyOneFirst(calls: seq<Call>, schedule: seq<nat>, s: State) returns (winner: nat)
    requires Reached(calls, 0, 0, schedule, s) && Settled(s) && calls != []
    requires Sum(calls) < 0x1_0000_0000 && forall t | 0 <= t < |calls| :: calls[t].amount >= 1
    ensures winner < |calls| == |s.phases|
    ensures s.indexerCandidates == Sum(calls)
    ensures forall t | 0 <= t < |calls| :: s.phases[t] == Returned(true) <==> t == winner
    ensures s.firstResultTime == calls[winner].time
  {
    RunKeepsInv(calls, 0, 0, schedule);
    AllCounted(calls, 0, s);
    TotalOfAll(calls, s.order);
    assert Occurs(s.order, 0);
    winner := s.order[0];
    forall t | 0 <= t < |calls| && s.phases[t] == Returned(true) ensures t == winner {
      OnlyTheEarliestIsFirst(calls, s, t);
    }
    assert s.phases[winner] == Returned(true);
  }

  lemma {:induction false} OnlyTheEarliestIsFirst(calls: seq<Call>, s: State, t: nat)
    requires Inv(calls, 0, s) && t < |calls| && s.phases[t] == Returned(true)
    requires Total(calls, s.order) < 0x1_0000_0000 && forall u | 0 <= u < |calls| :: calls[u].amount >= 1
    ensures s.order != [] && t == s.order[0]
  {
    var i := PlaceOf(calls, 0, s, t);
    TotalOfPrefix(calls, s.order, i);
  }

  // ---------- exactly when two calls can both be first ----------

  lemma {:induction false} IndexesWithout(calls: seq<Call>, order: seq<nat>, i: nat)
    requires calls != [] && Indexes(calls, order) && i < |order| && order[i] == |calls| - 1
    ensures Indexes(calls[..|calls| - 1], order[..i] + order[i + 1..])
  {
  }

  lemma {:induction false} TotalOfSome(calls: seq<Call>, order: seq<nat>)
    requires Indexes(calls, order)
    ensures Total(calls, order) <= Sum(calls)
    decreases |calls|
  {
    if calls == [] {
      assert |order| == 0;
    } else {
      var last := |calls| - 1;
      if Occurs(order, last) {
        var i :| 0 <= i < |order| && order[i] == last;
        TotalWithout(calls, order, i);
        IndexesWithout(calls, order, i);
        TotalOfSome(calls[..last], order[..i] + order[i + 1..]);
        TotalOfFewerCalls(calls, order[..i] + order[i + 1..], last);
      } else {
        assert forall i | 0 <= i < |order| :: order[i] != last;
        TotalOfSome(calls[..last], order);
        TotalOfFewerCalls(calls, order, last);
      }
    }
  }

  /** In some interleaving on a fresh entry, t and u have both returned first. */
  predicate BothFirst(calls: seq<Call>, schedule: seq<nat>, t: nat, u: nat) {
    && t < |calls| && u < |calls|
    && var s := Run(calls, Initial(0, 0, |calls|), schedule);
      s.phases[t] == Returned(true) && s.phases[u] == Returned(true)
  }

  lemma {:induction false} NeverTwoFirsts(calls: seq<Call>, schedule: seq<nat>, t: nat, u: nat)
    requires Sum(calls) < 0x1_0000_0000 && forall v | 0 <= v < |calls| :: calls[v].amount >= 1
    requires BothFirst(calls, schedule, t, u)
    ensures t == u
  {
    var s := Run(calls, Initial(0, 0, |calls|), schedule);
    RunKeepsInv(calls, 0, 0, schedule);
    TotalOfSome(calls, s.order);
    OnlyTheEarliestIsFirst(calls, s, t);
    OnlyTheEarliestIsFirst(calls, s, u);
  }

  lemma {:induction false} RunStep(calls: seq<Call>, s: State, schedule: seq<nat>, t: nat)
    requires |s.phases| == |calls|
    ensures Run(calls, s, schedule + [t]) == Step(calls, Run(calls, s, schedule), t)
  {
  }

  /** A call with amount 0 that comes first leaves the count at 0 for the next one. */
  lemma {:induction false} ZeroLetsTheNextBeFirst(calls: seq<Call>, z: nat, u: nat) returns (schedule: seq<nat>)
    requires z < |calls| && u < |calls| && z != u && calls[z].amount == 0
    ensures BothFirst(calls, schedule, z, u)
  {
    var s := Initial(0, 0, |calls|);
    schedule := [] + [z];
    RunStep(calls, s, [], z);
    RunStep(calls, s, schedule, z);
    schedule := schedule + [z];
    RunStep(calls, s, schedule, u);
    schedule := schedule + [u];
    RunStep(calls, s, schedule, u);
    schedule := schedule + [u];
  }

  /** A call with amount 0 lets the next be first; so while the sum stays below 2^32 no two are exactly if there is none. */
  lemma {:induction false} AtMostOneFirstInBounds(calls: seq<Call>)
    requires Sum(calls) < 0x1_0000_0000
    ensures (forall schedule, t, u | BothFirst(calls, schedule, t, u) :: t == u)
       <==> |calls| <= 1 || forall v | 0 <= v < |calls| :: calls[v].amount >= 1
  {
    if |calls| > 1 && exists z | 0 <= z < |calls| :: calls[z].amount == 0 {
      var z :| 0 <= z < |calls| && calls[z].amount == 0;
      var u := if z == 0 then 1 else 0;
      var schedule := ZeroLetsTheNextBeFirst(calls, z, u);
      assert BothFirst(calls, schedule, z, u);
    } else if |calls| > 1 {
      forall schedule, t, u | BothFirst(calls, schedule, t, u) ensures t == u {
        NeverTwoFirsts(calls, schedule, t, u);
      }
    }
  }

  // ---------- the same without a bound on the sum ----------

  /** These calls add up to 0 modulo 2^32, and u is none of them. */
  predicate WrapsFor(calls: seq<Call>, order: seq<nat>, u: nat) {
    && order != [] && Indexes(calls, order) && u < |calls| && !Occurs(order, u)
    && Total(calls, order) % 0x1_0000_0000 == 0
  }

  /** The calls of order have run, one after the other, and no other. */
  ghost predicate RanAlone(calls: seq<Call>, order: seq<nat>, s: State) {
    && |s.phases| == |calls| && s.order == order
    && forall t | 0 <= t < |calls| :: if Occurs(order, t) then s.phases[t].Returned? else s.phases[t] == Called
  }

  lemma {:induction false} RunAlone(calls: seq<Call>, order: seq<nat>) returns (schedule: seq<nat>)
    requires Indexes(calls, order)
    ensures RanAlone(calls, order, Run(calls, Initial(0, 0, |calls|), schedule))
  {
    var start := Initial(0, 0, |calls|);
    if order == [] {
      schedule := [];
    } else {
      var front, t := order[..|order| - 1], order[|order| - 1];
      var before := RunAlone(calls, front);
      schedule := before + [t] + [t];
      RunStep(calls, start, before, t);
      RunStep(calls, start, before + [t], t);
      NotBefore(calls, order);
      assert order == front + [t];
      TwoStepsAlone(calls, front, Run(calls, start, before), t);
    }
  }

  lemma {:induction false} NotBefore(calls: seq<Call>, order: seq<nat>)
    requires order != [] && Indexes(calls, order)
    ensures !Occurs(order[..|order| - 1], order[|order| - 1])
    ensures forall t :: Occurs(order, t) <==> Occurs(order[..|order| - 1], t) || t == order[|order| - 1]
  {
    var front, last := order[..|order| - 1], order[|order| - 1];
    assert order == front + [last];
    forall t { OccursInLonger(front, last, t); }
  }

  lemma {:induction false} TwoStepsAlone(calls: seq<Call>, front: seq<nat>, s: State, t: nat)
    requires RanAlone(calls, front, s) && t < |calls| && !Occurs(front, t)
    ensures var s' := Step(calls, Step(calls, s, t), t);
      && s'.order == front + [t] && |s'.phases| == |calls| && s'.phases[t].Returned?
      && forall u | 0 <= u < |calls| && u != t :: s'.phases[u] == s.phases[u]
  {
  }

  lemma {:induction false} WrapLetsTheNextBeFirst(calls: seq<Call>, order: seq<nat>, u: nat) returns (schedule: seq<nat>)
    requires WrapsFor(calls, order, u)
    ensures BothFirst(calls, schedule, order[0], u) && order[0] != u
  {
    var start := Initial(0, 0, |calls|);
    var before := RunAlone(calls, order);
    RunKeepsInv(calls, 0, 0, before);
    var s := Run(calls, start, before);
    assert s.indexerCandidates == 0;
    assert Occurs(order, order[0]);
    assert WonSwap(s.phases[order[0]]);
    RunStep(calls, start, before, u);
    RunStep(calls, start, before + [u], u);
    schedule := before + [u] + [u];
  }

  lemma {:induction false} LaterFirstMetAWrap(calls: seq<Call>, schedule: seq<nat>, t: nat, u: nat)
    requires BothFirst(calls, schedule, t, u) && t != u
    ensures exists order, v :: WrapsFor(calls, order, v)
  {
    var s := Run(calls, Initial(0, 0, |calls|), schedule);
    RunKeepsInv(calls, 0, 0, schedule);
    var i := PlaceOf(calls, 0, s, t);
    var j := PlaceOf(calls, 0, s, u);
    var k := if i < j then j else i;
    assert ZeroBefore(calls, 0, s.order, k);
    var order, v := s.order[..k], s.order[k];
    assert !Occurs(order, v);
    assert WrapsFor(calls, order, v);
  }

  /**
   Whatever the amounts: on a fresh entry some interleaving lets two calls return
   first if and only if the amounts of some of the calls, but not all, add up to
   0 modulo 2^32.
   */
  lemma {:induction false} AtMostOneFirst(calls: seq<Call>)
    ensures (forall schedule, t, u | BothFirst(calls, schedule, t, u) :: t == u) <==> !exists order, u :: WrapsFor(calls, order, u)
  {
    if order, u :| WrapsFor(calls, order, u) {
      var schedule := WrapLetsTheNextBeFirst(calls, order, u);
      assert BothFirst(calls, schedule, order[0], u);
    } else {
      forall schedule, t, u | BothFirst(calls, schedule, t, u) ensures t == u {
        if t != u { LaterFirstMetAWrap(calls, schedule, t, u); }
      }
    }
  }

  /**
   So if no such sum wraps, every interleaving of all the calls ends with exactly
   one first call, whose time is the one that stays.
   */
  lemma {:induction false} ExactlyOneFirstUnlessWrapped(calls: seq<Call>, schedule: seq<nat>, s: State) returns (winner: nat)
    requires Reached(calls, 0, 0, schedule, s) && Settled(s) && calls != []
    requires !exists order, u :: WrapsFor(calls, order, u)
    ensures winner < |calls| == |s.phases|
    ensures s.indexerCandidates == Sum(calls) % 0x1_0000_0000
    ensures forall t | 0 <= t < |calls| :: s.phases[t] == Returned(true) <==> t == winner
    ensures s.firstResultTime == calls[winner].time
  {
    hide WrapsFor, Total;
    RunKeepsInv(calls, 0, 0, schedule);
    NoAmountIsLost(calls, 0, 0, schedule, s);
    AtMostOneFirst(calls);
    assert Occurs(s.order, 0);
    winner := s.order[0];
    assert WonSwap(s.phases[winner]);
    forall t | 0 <= t < |calls| && s.phases[t] == Returned(true) ensures t == winner {
      assert BothFirst(calls, schedule, t, winner);
    }
  }
}
