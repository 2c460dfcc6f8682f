/**
 How often the "first" counters rise: once per lifetime, as long as no event
 looks like an unset field.
 */
module Firsts {
  import opened GoTime
  import opened Instruments
  import opened Lifetime
  import Aggregate
  import opened Handlers
  import opened Runs

  // The Record* calls whose "first" result is counted
  datatype Kind = BitswapKind | GraphsyncKind | CandidatesKind | FilteredKind | FirstByteKind

  function CounterOf(k: Kind): Counter {
    match k
    case BitswapKind => RequestWithBitswapAttempt
    case GraphsyncKind => RequestWithGraphSyncAttempt
    case CandidatesKind => RequestWithIndexerCandidates
    case FilteredKind => RequestWithIndexerCandidatesFiltered
    case FirstByteKind => RequestWithFirstByteReceived
  }

  predicate Is(e: LifeEvent, k: Kind) {
    match k
    case BitswapKind => e.BitswapAttempt?
    case GraphsyncKind => e.GraphsyncAttempt?
    case CandidatesKind => e.Candidates?
    case FilteredKind => e.Filtered?
    case FirstByteKind => e.FirstByte?
  }

  function Sample(k: Kind): LifeEvent {
    match k
    case BitswapKind => BitswapAttempt
    case GraphsyncKind => GraphsyncAttempt
    case CandidatesKind => Candidates(0, 0)
    case FilteredKind => Filtered(0)
    case FirstByteKind => FirstByte(0)
  }

  predicate Seen(h: History, k: Kind) {
    !First(h, Sample(k))
  }

  /** How many events of this kind were told they are first. */
  function FirstsIn(h: History, k: Kind): nat {
    if h == [] then 0
    else FirstsIn(LessLast(h), k) + if Is(Last(h), k) && First(LessLast(h), Last(h)) then 1 else 0
  }

  /** No event writes a 0 over a 0, and the totals stay below 2^32. */
  predicate Benign(h: History) {
    && (forall e | e in h :: (e.Candidates? || e.Filtered? ==> e.amount >= 1) && (e.FirstByte? ==> e.at != 0))
    && CandidateTotal(h) < 0x1_0000_0000
    && FilteredTotal(h) < 0x1_0000_0000
  }

  lemma {:induction false} BenignPrefix(h: History, e: LifeEvent)
    requires Benign(h + [e])
    ensures Benign(h)
  {
  }

  lemma {:induction false} SeenStep(h: History, e: LifeEvent, k: Kind)
    requires Benign(h + [e])
    ensures Seen(h + [e], k) <==> Seen(h, k) || Is(e, k)
    ensures Is(e, k) ==> (First(h, e) <==> !Seen(h, k))
  {
  }

  /** In one lifetime exactly one event of each kind is first, if there is any of that kind. */
  lemma {:induction false} OneFirstPerLifetime(h: History, k: Kind)
    requires Benign(h)
    ensures FirstsIn(h, k) == if exists e | e in h :: Is(e, k) then 1 else 0
    ensures Seen(h, k) <==> exists e | e in h :: Is(e, k)
  {
    if h != [] {
      var g, e := LessLast(h), Last(h);
      assert h == g + [e];
      BenignPrefix(g, e);
      OneFirstPerLifetime(g, k);
      SeenStep(g, e, k);
      assert forall x :: x in h <==> x in g || x == e;
    }
  }

  /** Without that: a count that truncates to 0 leaves the next one first again. */
  lemma {:induction false} ZeroAmountIsFirstTwice(t: uint64)
    ensures FirstsIn([Candidates(t, FloatToUint32(0.5)), Candidates(t, 1)], CandidatesKind) == 2
  {
    var a, b := Candidates(t, FloatToUint32(0.5)), Candidates(t, 1);
    assert (0.5).Floor == 0 && a.amount == 0;
    assert LessLast([a, b]) == [a] && LessLast([a]) == [];
    assert CandidateTotal([a]) == 0 by { assert [a][..0] == []; }
    assert FirstsIn([a], CandidatesKind) == 1;
    assert First([a], b);
  }

  // ---------- exactly when more than one event is told so ----------

  /** Does the event leave its field set? */
  predicate Sets(e: LifeEvent) {
    match e
    case Candidates(_, n) => n != 0
    case Filtered(n) => n != 0
    case FirstByte(at) => at != 0
    case Start(at) => at != 0
    case _ => true
  }

  /** The place of the earliest event of kind k, or the length if there is none. */
  function Earliest(h: History, k: Kind): (i: nat)
    ensures i <= |h| && (i < |h| ==> Is(h[i], k))
    ensures forall l | 0 <= l < i :: !Is(h[l], k)
  {
    if h == [] then 0
    else
      var i := Earliest(LessLast(h), k);
      if i < |h| - 1 || Is(Last(h), k) then i else |h|
  }

  /** The earliest event of kind k sets its field, or none of that kind follows it. */
  predicate CleanStart(h: History, k: Kind) {
    var i := Earliest(h, k);
    (exists j | i < j < |h| :: Is(h[j], k)) ==> Sets(h[i])
  }

  predicate InBounds(h: History) {
    CandidateTotal(h) < 0x1_0000_0000 && FilteredTotal(h) < 0x1_0000_0000
  }

  lemma {:induction false} SeenMeans(h: History, k: Kind)
    requires InBounds(h)
    ensures Seen(h, k) <==> exists i | 0 <= i < |h| :: Is(h[i], k) && Sets(h[i])
  {
    if h != [] {
      var g, e := LessLast(h), Last(h);
      assert h == g + [e];
      FoldStep(g, e);
      SeenMeans(g, k);
      assert forall x :: x in h <==> x in g || x == e;
      assert h[|g|] == e;
    }
  }

  lemma {:induction false} EarliestStep(g: History, e: LifeEvent, k: Kind)
    ensures Earliest(g + [e], k) == if Earliest(g, k) < |g| || Is(e, k) then Earliest(g, k) else |g| + 1
    ensures CleanStart(g + [e], k) <==> CleanStart(g, k) && (Is(e, k) && Earliest(g, k) < |g| ==> Sets(g[Earliest(g, k)]))
  {
    assert LessLast(g + [e]) == g;
    var h, i := g + [e], Earliest(g, k);
    if i < |g| {
      assert h[|g|] == e && forall j | 0 <= j < |g| :: h[j] == g[j];
    }
  }

  /** Does the field an event of kind k looks at hold 0 after h: a total of 0 modulo 2^32, no nonzero time, no attempt? */
  predicate FieldZero(h: History, k: Kind) {
    match k
    case BitswapKind => BitswapAttempt !in h
    case GraphsyncKind => GraphsyncAttempt !in h
    case CandidatesKind => CandidateTotal(h) % 0x1_0000_0000 == 0
    case FilteredKind => FilteredTotal(h) % 0x1_0000_0000 == 0
    case FirstByteKind => !GotFirstByte(h)
  }

  /** Some event of the kind, after the earliest, meets a field of 0. */
  predicate ZeroAgain(h: History, k: Kind) {
    exists j | Earliest(h, k) < j < |h| :: Is(h[j], k) && FieldZero(h[..j], k)
  }

  lemma {:induction false} ZeroAtFirst(h: History, k: Kind)
    requires Earliest(h, k) == |h|
    ensures FieldZero(h, k)
  {
    if h != [] {
      var g, e := LessLast(h), Last(h);
      assert h == g + [e];
      FoldStep(g, e);
      ZeroAtFirst(g, k);
      assert forall x | x in h :: x in g || x == e;
    }
  }

  lemma {:induction false} ZeroAgainStep(g: History, e: LifeEvent, k: Kind)
    ensures ZeroAgain(g + [e], k) <==> ZeroAgain(g, k) || (Is(e, k) && Earliest(g, k) < |g| && FieldZero(g, k))
  {
    hide FieldZero, Is;
    var h := g + [e];
    EarliestStep(g, e, k);
    assert h[..|g|] == g && h[|g|] == e;
    assert forall j | 0 <= j < |g| :: h[j] == g[j] && h[..j] == g[..j];
  }

  lemma {:induction false} SomeFirst(h: History, k: Kind)
    ensures FirstsIn(h, k) == 0 <==> Earliest(h, k) == |h|
  {
    if h != [] {
      var g, e := LessLast(h), Last(h);
      assert h == g + [e];
      SomeFirst(g, k);
      EarliestStep(g, e, k);
      if Earliest(g, k) == |g| { ZeroAtFirst(g, k); }
    }
  }

  /**
   In any lifetime at most one event of a kind is told it is first if and only
   if no later one meets a field of 0: a total that is 0 modulo 2^32, or a time
   that has stayed 0.
   */
  lemma {:induction false} AtMostOneFirst(h: History, k: Kind)
    ensures FirstsIn(h, k) <= 1 <==> !ZeroAgain(h, k)
  {
    if h != [] {
      var g, e := LessLast(h), Last(h);
      assert h == g + [e];
      AtMostOneFirst(g, k);
      SomeFirst(g, k);
      ZeroAgainStep(g, e, k);
      if Is(e, k) { FirstMeetsZero(g, e, k); }
    }
  }

  lemma {:induction false} FirstMeetsZero(g: History, e: LifeEvent, k: Kind)
    requires Is(e, k)
    ensures First(g, e) <==> FieldZero(g, k)
  {
  }

  /**
   While the totals stay below 2^32, that is so if and only if the earliest
   event of the kind does not leave its field 0 with others to follow.
   */
  lemma {:induction false} AtMostOneFirstInBounds(h: History, k: Kind)
    requires InBounds(h)
    ensures FirstsIn(h, k) <= 1 <==> CleanStart(h, k)
  {
    if h != [] {
      var g, e := LessLast(h), Last(h);
      assert h == g + [e];
      FoldStep(g, e);
      AtMostOneFirstInBounds(g, k);
      SomeFirst(g, k);
      EarliestStep(g, e, k);
      SeenMeans(g, k);
    }
  }

  /** Beyond: three counts of which the first two wrap around to 0. */
  lemma {:induction false} WrappedCountIsFirstTwice(t: uint64)
    ensures FirstsIn([Candidates(t, 1), Candidates(t, 0x1_0000_0000 - 1), Candidates(t, 1)], CandidatesKind) == 2
  {
    var a, b := Candidates(t, 1), Candidates(t, 0x1_0000_0000 - 1);
    assert LessLast([a, b, a]) == [a, b] && LessLast([a, b]) == [a] && LessLast([a]) == [];
    assert CandidateTotal([a]) == 1 by { assert [a][..0] == []; }
    assert CandidateTotal([a, b]) == 0x1_0000_0000 by { assert [a, b][..1] == [a]; }
    assert First([], a) && !First([a], b) && First([a, b], a);
    assert FirstsIn([a], CandidatesKind) == 1;
    assert FirstsIn([a, b], CandidatesKind) == 1;
  }

  // ---------- over runs ----------

  /** The Record* call a handler makes, if it does not end the lifetime. */
  function Noted(e: Event): Option<LifeEvent> {
    match e
    case StartedEvent(_, phase, sp, time) =>
      (match phase
       case IndexerPhase => Some(Start(Stored(time)))
       case RetrievalPhase => Some(if sp == Aggregate.BITSWAP_IDENTIFIER then BitswapAttempt else GraphsyncAttempt)
       case _ => None)
    case CandidatesFoundEvent(_, time, details) =>
      if Touches(e) then Some(Candidates(Stored(time), FloatToUint32(NumberField(details, "candidateCount").value))) else None
    case CandidatesFilteredEvent(_, details) =>
      if Touches(e) then Some(Filtered(FloatToUint32(NumberField(details, "candidateCount").value))) else None
    case FirstByteEvent(_, _, time) => Some(FirstByte(Stored(time)))
    case _ => None
  }

  lemma {:induction false} HandleNotes(lives: Lives, now: Time, e: Event)
    requires !Ends(e)
    ensures Handle(lives, now, e).lives ==
      if !Touches(e) then lives
      else if Noted(e).None? then Open(lives, e.id, now)
      else Note(Open(lives, e.id, now), e.id, Noted(e).value)
  {
  }

  predicate Marks(lives: Lives, now: Time, e: Event, k: Kind) {
    Touches(e) && Noted(e).Some? && Is(Noted(e).value, k) && First(Open(lives, e.id, now)[e.id].events, Noted(e).value)
  }

  /** At most the first emission of a handler goes to the counter of kind k: exactly when it marks. */
  ghost predicate Shaped(lives: Lives, now: Time, e: Event, k: Kind) {
    var out := Handle(lives, now, e).out;
    if Marks(lives, now, e, k) then
      out != [] && IsAddTo(CounterOf(k))(out[0]) && forall x | x in out[1..] :: !IsAddTo(CounterOf(k))(x)
    else
      forall x | x in out :: !IsAddTo(CounterOf(k))(x)
  }

  lemma {:induction false} StartedShaped(lives: Lives, now: Time, e: Event, k: Kind)
    requires e.StartedEvent?
    ensures Shaped(lives, now, e, k)
  {
  }

  lemma {:induction false} FoundShaped(lives: Lives, now: Time, e: Event, k: Kind)
    requires e.CandidatesFoundEvent? || e.CandidatesFilteredEvent?
    ensures Shaped(lives, now, e, k)
  {
  }

  lemma {:induction false} FirstByteShaped(lives: Lives, now: Time, e: Event, k: Kind)
    requires e.FirstByteEvent?
    ensures Shaped(lives, now, e, k)
  {
  }

  lemma {:induction false} OtherShaped(lives: Lives, now: Time, e: Event, k: Kind)
    requires e.FailureEvent? || e.SuccessEvent? || e.UnhandledEvent?
    ensures Shaped(lives, now, e, k)
  {
    hide Fold, Finals, ProtocolFromSpID;
  }

  lemma {:induction false} HandleTally(lives: Lives, now: Time, e: Event, k: Kind)
    ensures Tally(Handle(lives, now, e).out, IsAddTo(CounterOf(k))) == if Marks(lives, now, e, k) then 1 else 0
  {
    var out := Handle(lives, now, e).out;
    match e {
      case StartedEvent(_, _, _, _) => StartedShaped(lives, now, e, k);
      case CandidatesFoundEvent(_, _, _) => FoundShaped(lives, now, e, k);
      case CandidatesFilteredEvent(_, _) => FoundShaped(lives, now, e, k);
      case FirstByteEvent(_, _, _) => FirstByteShaped(lives, now, e, k);
      case _ => OtherShaped(lives, now, e, k);
    }
    if Marks(lives, now, e, k) {
      TallyNone(out[1..], IsAddTo(CounterOf(k)));
    } else {
      TallyNone(out, IsAddTo(CounterOf(k)));
    }
  }

  function Unseen(lives: Lives, k: Kind): set<RetrievalID> {
    set id | id in lives && !Seen(lives[id].events, k)
  }

  predicate AllBenign(lives: Lives) {
    forall id | id in lives :: Benign(lives[id].events)
  }

  predicate BenignRun(lives: Lives, steps: seq<Step>)
    decreases |steps|
  {
    AllBenign(lives) && (steps != [] ==> BenignRun(Next(lives, steps[0]).lives, steps[1..]))
  }

  predicate V1Only(steps: seq<Step>) {
    forall s | s in steps :: !s.V2?
  }

  lemma {:induction false} OpenUnseen(lives: Lives, id: RetrievalID, now: Time, k: Kind)
    ensures Unseen(Open(lives, id, now), k) == if id in lives then Unseen(lives, k) else Unseen(lives, k) + {id}
  {
  }

  lemma {:induction false} NoteUnseen(lives: Lives, id: RetrievalID, e: LifeEvent, k: Kind)
    requires id in lives && Benign(lives[id].events + [e])
    ensures Unseen(Note(lives, id, e), k) == if Is(e, k) then Unseen(lives, k) - {id} else Unseen(lives, k)
  {
  }

  lemma {:induction false} StepUnseen(lives: Lives, s: Step, k: Kind)
    requires !s.V2? && AllBenign(Next(lives, s).lives)
    ensures Tally(Next(lives, s).out, IsAddTo(CounterOf(k))) + |Unseen(Next(lives, s).lives, k)|
         <= |Unseen(lives, k)| + if Creates(lives, s) then 1 else 0
  {
    if s.V1? {
      var e := s.event;
      HandleTally(lives, s.now, e, k);
      if Ends(e) {
        HandleIsLocal(lives, s.now, e, lives);
        HandleDomain(lives, s.now, e);
        SmallerUnseen(Next(lives, s).lives, lives, k);
      } else {
        HandleNotes(lives, s.now, e);
        OpenUnseen(lives, e.id, s.now, k);
        if Touches(e) && Noted(e).Some? {
          var live := Open(lives, e.id, s.now);
          assert Next(lives, s).lives[e.id].events == live[e.id].events + [Noted(e).value];
          NoteUnseen(live, e.id, Noted(e).value, k);
          SeenStep(live[e.id].events, Noted(e).value, k);
          assert Marks(lives, s.now, e, k) ==> e.id in Unseen(live, k);
        }
      }
    } else {
      SmallerUnseen(Next(lives, s).lives, lives, k);
    }
  }

  lemma {:induction false} SmallerUnseen(small: Lives, lives: Lives, k: Kind)
    requires forall id | id in small :: id in lives && small[id] == lives[id]
    ensures |Unseen(small, k)| <= |Unseen(lives, k)|
  {
    assert Unseen(small, k) <= Unseen(lives, k);
    SubsetSize(Unseen(small, k), Unseen(lives, k));
  }

  lemma {:induction false} SubsetSize<T>(a: set<T>, b: set<T>)
    requires a <= b
    ensures |a| <= |b|
  {
    assert b == a + (b - a);
  }

  /**
   Over any v1 run each "first" counter rises at most once per entry created:
   what it has risen by and the live entries still to come are covered by the
   entries there were.
   */
  lemma {:induction false} FirstCountersBoundedByEntries(lives: Lives, steps: seq<Step>, k: Kind)
    requires V1Only(steps) && BenignRun(lives, steps)
    ensures Tally(Run(lives, steps).out, IsAddTo(CounterOf(k))) + |Unseen(Run(lives, steps).lives, k)|
         <= |Unseen(lives, k)| + Created(lives, steps)
    decreases |steps|
  {
    if steps != [] {
      var n := Next(lives, steps[0]);
      assert steps[0] in steps && forall s | s in steps[1..] :: s in steps;
      assert AllBenign(n.lives);
      StepUnseen(lives, steps[0], k);
      FirstCountersBoundedByEntries(n.lives, steps[1..], k);
      TallyAppend(n.out, Run(n.lives, steps[1..]).out, IsAddTo(CounterOf(k)));
    }
  }
}
