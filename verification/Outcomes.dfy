/** What the request and success counters add up to over runs of v1 and v2 steps. */
module Outcomes {
  import opened GoTime
  import opened Instruments
  import opened Lifetime
  import opened Aggregate
  import opened Handlers
  import opened Runs

  // ---------- successes, by protocol ----------

  /** The sum of the three per-protocol success counters. */
  function ProtocolSuccesses(out: seq<Emission>): nat {
    Tally(out, IsAddTo(RequestWithBitswapSuccess)) + Tally(out, IsAddTo(RequestWithGraphSyncSuccess))
    + Tally(out, IsAddTo(RequestWithHttpSuccess))
  }

  predicate IsProtocolSuccess(e: Emission) {
    e.Add? && e.counter in {RequestWithBitswapSuccess, RequestWithGraphSyncSuccess, RequestWithHttpSuccess}
  }

  predicate RecognisedName(protocol: string) {
    ProtocolFromMulticodec(protocol) in {PROTOCOL_BITSWAP, PROTOCOL_GRAPHSYNC, PROTOCOL_HTTP}
  }

  /** A v2 success whose protocol has no counter of its own. */
  predicate Unattributed(s: Step) {
    s.V2? && s.call.success && !RecognisedName(s.call.protocolSucceeded)
  }

  function UnattributedSuccesses(steps: seq<Step>): nat {
    if steps == [] then 0 else (if Unattributed(steps[0]) then 1 else 0) + UnattributedSuccesses(steps[1..])
  }

  lemma {:induction false} NoSuccess(out: seq<Emission>)
    requires forall e | e in out :: !IsProtocolSuccess(e) && !IsAddTo(RequestWithSuccess)(e)
    ensures Tally(out, IsAddTo(RequestWithSuccess)) == 0 && ProtocolSuccesses(out) == 0
  {
    TallyNone(out, IsAddTo(RequestWithSuccess));
    TallyNone(out, IsAddTo(RequestWithBitswapSuccess));
    TallyNone(out, IsAddTo(RequestWithGraphSyncSuccess));
    TallyNone(out, IsAddTo(RequestWithHttpSuccess));
  }

  lemma {:induction false} SuccessesAppend(a: seq<Emission>, b: seq<Emission>)
    ensures ProtocolSuccesses(a + b) == ProtocolSuccesses(a) + ProtocolSuccesses(b)
    ensures Tally(a + b, IsAddTo(RequestWithSuccess)) == Tally(a, IsAddTo(RequestWithSuccess)) + Tally(b, IsAddTo(RequestWithSuccess))
  {
    TallyAppend(a, b, IsAddTo(RequestWithSuccess));
    TallyAppend(a, b, IsAddTo(RequestWithBitswapSuccess));
    TallyAppend(a, b, IsAddTo(RequestWithGraphSyncSuccess));
    TallyAppend(a, b, IsAddTo(RequestWithHttpSuccess));
  }

  lemma {:induction false} ShortSuccesses(out: seq<Emission>)
    requires 0 < |out| <= 2 && IsAddTo(RequestWithSuccess)(out[0]) && (|out| == 2 ==> IsProtocolSuccess(out[1]))
    ensures Tally(out, IsAddTo(RequestWithSuccess)) == 1 && ProtocolSuccesses(out) == |out| - 1
  {
    TallyOfShort(out, IsAddTo(RequestWithSuccess));
    TallyOfShort(out, IsAddTo(RequestWithBitswapSuccess));
    TallyOfShort(out, IsAddTo(RequestWithGraphSyncSuccess));
    TallyOfShort(out, IsAddTo(RequestWithHttpSuccess));
  }

  lemma {:induction false} V1ReportSuccesses(time: Time, sp: string, size: real, f: FinalValues)
    ensures Tally(SuccessReport(time, sp, size, f), IsAddTo(RequestWithSuccess)) == 1
    ensures ProtocolSuccesses(SuccessReport(time, sp, size, f)) == 1
  {
    var out := SuccessReport(time, sp, size, f);
    assert out == out[..2] + out[2..];
    ShortSuccesses(out[..2]);
    NoSuccess(out[2..]);
    SuccessesAppend(out[..2], out[2..]);
  }

  lemma {:induction false} V1Successes(lives: Lives, now: Time, e: Event)
    ensures Tally(Handle(lives, now, e).out, IsAddTo(RequestWithSuccess)) == ProtocolSuccesses(Handle(lives, now, e).out)
  {
    hide Fold, SuccessReport, Tally, ProtocolSuccesses;
    if e.SuccessEvent? && Touches(e) {
      V1ReportSuccesses(e.time, e.storageProviderID, NumberField(e.details, "receivedSize").value,
                        Finals(Fold(if e.id in lives then lives[e.id].events else [])));
    } else {
      NoSuccess(Handle(lives, now, e).out);
    }
  }

  lemma {:induction false} V2OutcomeSuccesses(c: Call)
    ensures Tally(Outcome(c), IsAddTo(RequestWithSuccess)) == if c.success then 1 else 0
    ensures ProtocolSuccesses(Outcome(c)) == if c.success && RecognisedName(c.protocolSucceeded) then 1 else 0
  {
    hide Tally, ProtocolSuccesses, Sub, SpLabels;
    var out := Outcome(c);
    if c.success {
      var n := if RecognisedName(c.protocolSucceeded) then 2 else 1;
      assert out == out[..n] + out[n..];
      ShortSuccesses(out[..n]);
      NoSuccess(out[n..]);
      SuccessesAppend(out[..n], out[n..]);
    } else {
      NoSuccess(out);
    }
  }

  lemma {:induction false} BeforeOutcomeNoSuccess(c: Call, name: string)
    ensures Tally(BeforeOutcome(c, name), IsAddTo(RequestWithSuccess)) == 0 && ProtocolSuccesses(BeforeOutcome(c, name)) == 0
  {
    NoSuccess(BeforeOutcome(c, name));
  }

  lemma {:induction false} V2Successes(c: Call, order: seq<string>)
    requires IsOrder(order, c.attempts)
    ensures Tally(Emissions(c, order), IsAddTo(RequestWithSuccess)) == if c.success then 1 else 0
    ensures ProtocolSuccesses(Emissions(c, order)) == if c.success && RecognisedName(c.protocolSucceeded) then 1 else 0
  {
    hide Closing, BeforeOutcome, Outcome, ProtocolSuccesses, Tally;
    var l := VisitAll(c.attempts, order);
    var head := [Add(TotalRequestCount, map[])] + l.out;
    LoopCounters(c.attempts, order);
    NoSuccess(head);
    ClosingInTwo(c, l.lowestTTFBProtocol);
    BeforeOutcomeNoSuccess(c, l.lowestTTFBProtocol);
    V2OutcomeSuccesses(c);
    SuccessesAppend(BeforeOutcome(c, l.lowestTTFBProtocol), Outcome(c));
    SuccessesAppend(head, Closing(c, l.lowestTTFBProtocol));
  }

  /** Over any run of v1 and v2 steps the success counter is the sum of the per-protocol ones and of the v2 successes under a protocol that has none. */
  lemma {:induction false} SuccessConservation(lives: Lives, steps: seq<Step>)
    ensures Tally(Run(lives, steps).out, IsAddTo(RequestWithSuccess))
         == ProtocolSuccesses(Run(lives, steps).out) + UnattributedSuccesses(steps)
    decreases |steps|
  {
    if steps != [] {
      var n := Next(lives, steps[0]);
      match steps[0] {
        case V1(now, e) => V1Successes(lives, now, e);
        case Expire(_, _) =>
        case V2(_, c, order) => V2Successes(c, order);
      }
      SuccessConservation(n.lives, steps[1..]);
      SuccessesAppend(n.out, Run(n.lives, steps[1..]).out);
    }
  }

  // ---------- total_request_count ----------

  predicate IsStart(s: Step) {
    s.V1? && s.event.StartedEvent? && s.event.phase == IndexerPhase
  }

  /** The retrieval that a step reports as a request: a v1 indexer start or a v2 call. */
  function RequestOf(s: Step): Option<RetrievalID> {
    if IsStart(s) then Some(s.event.id) else if s.V2? then Some(s.id) else None
  }

  /** The retrievals reported as requests, in order, each as the one it canonically is. */
  function Requests(steps: seq<Step>, canonical: RetrievalID -> RetrievalID): seq<RetrievalID> {
    if steps == [] then []
    else
      (if RequestOf(steps[0]).Some? then [canonical(RequestOf(steps[0]).value)] else []) + Requests(steps[1..], canonical)
  }

  lemma {:induction false} V1Requests(lives: Lives, now: Time, e: Event)
    ensures Tally(Handle(lives, now, e).out, IsAddTo(TotalRequestCount)) == if IsStart(V1(now, e)) then 1 else 0
  {
    hide Fold, ProtocolFromSpID, First, Finals, FloatToUint32, FloatToInt64, Sub, Tally;
    if IsStart(V1(now, e)) {
      TallyOfShort(Handle(lives, now, e).out, IsAddTo(TotalRequestCount));
    } else {
      TallyNone(Handle(lives, now, e).out, IsAddTo(TotalRequestCount));
    }
  }

  lemma {:induction false} BeforeOutcomeNoRequest(c: Call, name: string)
    ensures Tally(BeforeOutcome(c, name), IsAddTo(TotalRequestCount)) == 0
  {
    TallyNone(BeforeOutcome(c, name), IsAddTo(TotalRequestCount));
  }

  lemma {:induction false} OutcomeNoRequest(c: Call)
    ensures Tally(Outcome(c), IsAddTo(TotalRequestCount)) == 0
  {
    hide Sub, SpLabels;
    TallyNone(Outcome(c), IsAddTo(TotalRequestCount));
  }

  lemma {:induction false} ClosingNoRequest(c: Call, name: string)
    ensures Tally(Closing(c, name), IsAddTo(TotalRequestCount)) == 0
  {
    hide BeforeOutcome, Outcome, Tally;
    BeforeOutcomeNoRequest(c, name);
    OutcomeNoRequest(c);
    TallyAppend(BeforeOutcome(c, name), Outcome(c), IsAddTo(TotalRequestCount));
  }

  lemma {:induction false} V2Requests(c: Call, order: seq<string>)
    requires IsOrder(order, c.attempts)
    ensures Tally(Emissions(c, order), IsAddTo(TotalRequestCount)) == 1
  {
    hide Closing;
    var l := VisitAll(c.attempts, order);
    var head := [Add(TotalRequestCount, map[])];
    LoopCounters(c.attempts, order);
    TallyOfShort(head, IsAddTo(TotalRequestCount));
    TallyNone(l.out, IsAddTo(TotalRequestCount));
    ClosingNoRequest(c, l.lowestTTFBProtocol);
    TallyAppend(head, l.out, IsAddTo(TotalRequestCount));
    TallyAppend(head + l.out, Closing(c, l.lowestTTFBProtocol), IsAddTo(TotalRequestCount));
  }

  lemma {:induction false} RequestsCounted(lives: Lives, steps: seq<Step>, canonical: RetrievalID -> RetrievalID)
    ensures Tally(Run(lives, steps).out, IsAddTo(TotalRequestCount)) == |Requests(steps, canonical)|
    decreases |steps|
  {
    hide Handle, Emissions, Tally;
    if steps != [] {
      var n := Next(lives, steps[0]);
      match steps[0] {
        case V1(now, e) => V1Requests(lives, now, e);
        case Expire(_, _) => TallyNone(n.out, IsAddTo(TotalRequestCount));
        case V2(_, c, order) => V2Requests(c, order);
      }
      RequestsCounted(n.lives, steps[1..], canonical);
      TallyAppend(n.out, Run(n.lives, steps[1..]).out, IsAddTo(TotalRequestCount));
    } else {
      TallyNone([], IsAddTo(TotalRequestCount));
    }
  }

  function IDs(ids: seq<RetrievalID>): set<RetrievalID> {
    set id | id in ids
  }

  lemma {:induction false} DistinctSize(ids: seq<RetrievalID>)
    ensures |IDs(ids)| <= |ids|
    ensures |IDs(ids)| == |ids| <==> Distinct(ids)
  {
    if ids != [] {
      var front, last := ids[..|ids| - 1], ids[|ids| - 1];
      DistinctSize(front);
      assert ids == front + [last];
      assert IDs(ids) == IDs(front) + {last};
      if last in front {
        assert IDs(ids) == IDs(front);
        var i :| 0 <= i < |front| && front[i] == last;
        assert ids[i] == ids[|ids| - 1];
      } else {
        assert |IDs(ids)| == |IDs(front)| + 1;
        assert Distinct(ids) <==> Distinct(front);
      }
    }
  }

  /** The retrieval that a step is about, if it is a report at all. */
  function SubjectOf(s: Step): Option<RetrievalID> {
    match s
    case V1(_, e) => Some(e.id)
    case V2(id, _, _) => Some(id)
    case Expire(_, _) => None
  }

  /** All retrievals that any event of the run is about. */
  function Seen(steps: seq<Step>, canonical: RetrievalID -> RetrievalID): set<RetrievalID> {
    if steps == [] then {}
    else (if SubjectOf(steps[0]).Some? then {canonical(SubjectOf(steps[0]).value)} else {}) + Seen(steps[1..], canonical)
  }

  /** Those of which no indexer start and no call reached the recorder. */
  function Unreported(steps: seq<Step>, canonical: RetrievalID -> RetrievalID): set<RetrievalID> {
    Seen(steps, canonical) - IDs(Requests(steps, canonical))
  }

  lemma {:induction false} ReportedAreSeen(steps: seq<Step>, canonical: RetrievalID -> RetrievalID)
    ensures IDs(Requests(steps, canonical)) <= Seen(steps, canonical)
  {
    if steps != [] {
      ReportedAreSeen(steps[1..], canonical);
      var here := if RequestOf(steps[0]).Some? then [canonical(RequestOf(steps[0]).value)] else [];
      assert IDs(Requests(steps, canonical)) == IDs(here) + IDs(Requests(steps[1..], canonical));
    }
  }

  /** Each ID is there once exactly if none is missing and none repeated. */
  lemma {:induction false} OnceEach(ids: seq<RetrievalID>, all: set<RetrievalID>)
    requires IDs(ids) <= all
    ensures (forall id | id in all :: multiset(ids)[id] == 1) <==> Distinct(ids) && IDs(ids) == all
  {
    if Distinct(ids) {
      forall id { OnceInDistinct(ids, id); }
    } else {
      var i, j :| 0 <= i < j < |ids| && ids[i] == ids[j];
      assert ids == ids[..j] + ids[j..];
      assert ids[i] == ids[..j][i] && ids[j] == ids[j..][0];
      assert multiset(ids)[ids[i]] == multiset(ids[..j])[ids[i]] + multiset(ids[j..])[ids[i]] >= 2;
      assert ids[i] in IDs(ids);
    }
    if forall id | id in all :: multiset(ids)[id] == 1 {
      forall id | id in all ensures id in IDs(ids) { assert id in multiset(ids); }
    }
  }

  /**
   The counter is described as the number of distinct retrievals. Over any run
   of v1 and v2 steps, and whichever IDs name the same retrieval, it can count
   too many, as retrievals are reported twice (by two indexer starts, two calls,
   or one of each), and too few, as there are retrievals known by other v1 events
   alone. The two can cancel out: it is the number of distinct retrievals if and
   only if there are as many repeated reports as unreported retrievals. With the
   unreported ones added it is never too small, and right if and only if no
   retrieval is reported twice.
   */
  lemma {:induction false} TotalRequestsAreDistinct(lives: Lives, steps: seq<Step>, canonical: RetrievalID -> RetrievalID)
    ensures var total := Tally(Run(lives, steps).out, IsAddTo(TotalRequestCount));
      var reports := Requests(steps, canonical);
      var seen := |Seen(steps, canonical)|;
      var unreported := |Unreported(steps, canonical)|;
      && (total == seen <==> |reports| - |IDs(reports)| == unreported)
      && total + unreported >= seen
      && (total + unreported == seen <==> Distinct(reports))
  {
    hide Run, Tally, Requests, Seen;
    var reported := IDs(Requests(steps, canonical));
    RequestsCounted(lives, steps, canonical);
    DistinctSize(Requests(steps, canonical));
    ReportedAreSeen(steps, canonical);
    assert Seen(steps, canonical) == reported + Unreported(steps, canonical);
    assert reported !! Unreported(steps, canonical);
  }

  /** Each retrieval of the run is counted exactly once if and only if none is reported twice and none goes unreported. */
  lemma {:induction false} EachCountedOnce(steps: seq<Step>, canonical: RetrievalID -> RetrievalID)
    ensures (forall id | id in Seen(steps, canonical) :: multiset(Requests(steps, canonical))[id] == 1)
       <==> Distinct(Requests(steps, canonical)) && Unreported(steps, canonical) == {}
  {
    hide Requests, Seen;
    ReportedAreSeen(steps, canonical);
    OnceEach(Requests(steps, canonical), Seen(steps, canonical));
    assert Seen(steps, canonical) == IDs(Requests(steps, canonical)) + Unreported(steps, canonical);
  }

  function Itself(id: RetrievalID): RetrievalID {
    id
  }

  /** Two reports of one retrieval count as two, whether both are indexer starts, both calls, or one of each. */
  lemma {:induction false} OneRetrievalCountedTwice(lives: Lives, a: Step, b: Step)
    requires RequestOf(a).Some? && RequestOf(b) == RequestOf(a)
    ensures Tally(Run(lives, [a, b]).out, IsAddTo(TotalRequestCount)) == 2
    ensures Seen([a, b], Itself) == {RequestOf(a).value}
  {
    hide Run, Tally;
    RequestsCounted(lives, [a, b], Itself);
    assert [a, b][1..] == [b] && [b][1..] == [];
    assert Requests([b], Itself) == [RequestOf(a).value];
    assert Requests([a, b], Itself) == [RequestOf(a).value, RequestOf(a).value];
    assert Seen([b], Itself) == {RequestOf(a).value};
  }

  /** A retrieval known by any other v1 event alone, a success say, is not counted at all. */
  lemma {:induction false} OneRetrievalNotCounted(lives: Lives, s: Step)
    requires s.V1? && !IsStart(s)
    ensures Tally(Run(lives, [s]).out, IsAddTo(TotalRequestCount)) == 0
    ensures Seen([s], Itself) == {s.event.id}
  {
    hide Run, Tally;
    RequestsCounted(lives, [s], Itself);
    assert [s][1..] == [];
    assert Requests([s], Itself) == [];
    assert Itself(s.event.id) == s.event.id;
    assert Seen([s], Itself) == {s.event.id};
  }
}
