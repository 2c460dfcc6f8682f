/**
 What one entry of the TempDataMap means: its TempData is a fold of the events
 of the current lifetime, and every field of that fold has a reading that does
 not mention the fold.
 */
module Lifetime {
  import opened GoTime

  // One Record* call. Times are as stored, in microseconds.
  datatype LifeEvent =
    | Start(at: uint64)
    | Candidates(at: uint64, amount: uint32)
    | Filtered(amount: uint32)
    | BitswapAttempt
    | GraphsyncAttempt
    | FirstByte(at: uint64)
    | Failed

  type History = seq<LifeEvent>

  // The data fields of a TempData, without its timer
  datatype Data = Data(
    startTime: uint64,
    indexerCandidates: uint32,
    indexerCandidateFirstResultTime: uint64,
    indexerFiltered: uint32,
    bitswapAttempt: uint32,
    graphsyncAttempt: uint32,
    ttfbTime: uint64,
    failedCount: uint32)

  const ZERO := Data(0, 0, 0, 0, 0, 0, 0, 0)

  datatype FinalValues = FinalValues(
    startTime: Time,
    indexerCandidates: uint64,
    indexerCandidateFirstResultTime: Time,
    indexerFiltered: uint64,
    hasBitswapAttempt: bool,
    hasGraphSyncAttempt: bool,
    timeToFirstByte: Time,
    failedCount: uint64)

  function Finals(d: Data): FinalValues {
    FinalValues(
      Restored(d.startTime), d.indexerCandidates, Restored(d.indexerCandidateFirstResultTime),
      d.indexerFiltered, d.bitswapAttempt > 0, d.graphsyncAttempt > 0, Restored(d.ttfbTime), d.failedCount)
  }

  function AddUint32(a: uint32, b: uint32): uint32 {
    (a + b) % TWO_32
  }

  /** The effect of one Record* call that runs alone: compare-and-swap from 0, else add where the method adds. */
  function Apply(d: Data, e: LifeEvent): Data {
    match e
    case Start(at) => if d.startTime == 0 then d.(startTime := at) else d
    case Candidates(at, n) =>
      if d.indexerCandidates == 0 then d.(indexerCandidates := n, indexerCandidateFirstResultTime := at)
      else d.(indexerCandidates := AddUint32(d.indexerCandidates, n))
    case Filtered(n) =>
      if d.indexerFiltered == 0 then d.(indexerFiltered := n)
      else d.(indexerFiltered := AddUint32(d.indexerFiltered, n))
    case BitswapAttempt => if d.bitswapAttempt == 0 then d.(bitswapAttempt := 1) else d
    case GraphsyncAttempt => if d.graphsyncAttempt == 0 then d.(graphsyncAttempt := 1) else d
    case FirstByte(at) => if d.ttfbTime == 0 then d.(ttfbTime := at) else d
    case Failed =>
      if d.failedCount == 0 then d.(failedCount := 1)
      else d.(failedCount := AddUint32(d.failedCount, 1))
  }

  /** Does the compare-and-swap of this call succeed? */
  predicate Swaps(d: Data, e: LifeEvent) {
    match e
    case Start(_) => d.startTime == 0
    case Candidates(_, _) => d.indexerCandidates == 0
    case Filtered(_) => d.indexerFiltered == 0
    case BitswapAttempt => d.bitswapAttempt == 0
    case GraphsyncAttempt => d.graphsyncAttempt == 0
    case FirstByte(_) => d.ttfbTime == 0
    case Failed => d.failedCount == 0
  }

  function Fold(h: History): Data {
    if h == [] then ZERO else Apply(Fold(h[..|h| - 1]), h[|h| - 1])
  }

  function Last(h: History): LifeEvent
    requires h != []
  {
    h[|h| - 1]
  }

  function LessLast(h: History): History
    requires h != []
  {
    h[..|h| - 1]
  }

  // ---------- readings of a history ----------

  function CandidateTotal(h: History): nat {
    if h == [] then 0
    else CandidateTotal(h[..|h| - 1]) + if h[|h| - 1].Candidates? then h[|h| - 1].amount else 0
  }

  function FilteredTotal(h: History): nat {
    if h == [] then 0
    else FilteredTotal(h[..|h| - 1]) + if h[|h| - 1].Filtered? then h[|h| - 1].amount else 0
  }

  function FailedTotal(h: History): nat {
    if h == [] then 0
    else FailedTotal(h[..|h| - 1]) + if h[|h| - 1].Failed? then 1 else 0
  }

  // A start (or first-byte) event counts once its stored time is not 0, the mark of an unset field
  predicate Started(h: History) {
    exists e | e in h :: e.Start? && e.at != 0
  }

  predicate GotFirstByte(h: History) {
    exists e | e in h :: e.FirstByte? && e.at != 0
  }

  /** Is e, coming after h, the first of its kind as the Record* calls count it? */
  predicate First(h: History, e: LifeEvent) {
    match e
    case Start(_) => !Started(h)
    case Candidates(_, _) => CandidateTotal(h) % 0x1_0000_0000 == 0
    case Filtered(_) => FilteredTotal(h) % 0x1_0000_0000 == 0
    case BitswapAttempt => BitswapAttempt !in h
    case GraphsyncAttempt => GraphsyncAttempt !in h
    case FirstByte(_) => !GotFirstByte(h)
    case Failed => FailedTotal(h) % 0x1_0000_0000 == 0
  }

  /** t is the time of the earliest start in h whose time is not 0, or 0 if there is none. */
  predicate IsStartTime(h: History, t: uint64) {
    if t == 0 then !Started(h)
    else exists i | 0 <= i < |h| :: h[i] == Start(t) && !Started(h[..i])
  }

  predicate IsFirstByteTime(h: History, t: uint64) {
    if t == 0 then !GotFirstByte(h)
    else exists i | 0 <= i < |h| :: h[i] == FirstByte(t) && !GotFirstByte(h[..i])
  }

  /** t is the time of the last candidates event that came when the running total was 0 modulo 2^32. */
  predicate IsFirstResultTime(h: History, t: uint64) {
    if exists i | 0 <= i < |h| :: h[i].Candidates? && First(h[..i], h[i]) then
      exists i | 0 <= i < |h| :: h[i].Candidates? && h[i].at == t && First(h[..i], h[i]) &&
        forall j | i < j < |h| :: h[j].Candidates? ==> !First(h[..j], h[j])
    else t == 0
  }

  /** Every field of the folded TempData, read off the history. */
  ghost predicate Means(d: Data, h: History) {
    && IsStartTime(h, d.startTime)
    && d.indexerCandidates == CandidateTotal(h) % 0x1_0000_0000
    && IsFirstResultTime(h, d.indexerCandidateFirstResultTime)
    && d.indexerFiltered == FilteredTotal(h) % 0x1_0000_0000
    && d.bitswapAttempt == (if BitswapAttempt in h then 1 else 0)
    && d.graphsyncAttempt == (if GraphsyncAttempt in h then 1 else 0)
    && IsFirstByteTime(h, d.ttfbTime)
    && d.failedCount == FailedTotal(h) % 0x1_0000_0000
  }

  // ---------- the fold has that reading ----------

  lemma {:induction false} StartTimeStep(h: History, e: LifeEvent, t: uint64)
    requires IsStartTime(h, t)
    ensures IsStartTime(h + [e], if e.Start? && t == 0 then e.at else t)
  {
    var g := h + [e];
    assert g[..|h|] == h && g[|h|] == e;
    assert forall x :: x in g <==> x in h || x == e;
    if t != 0 {
      var i :| 0 <= i < |h| && h[i] == Start(t) && !Started(h[..i]);
      assert g[..i] == h[..i] && g[i] == h[i];
    }
  }

  lemma {:induction false} FirstByteTimeStep(h: History, e: LifeEvent, t: uint64)
    requires IsFirstByteTime(h, t)
    ensures IsFirstByteTime(h + [e], if e.FirstByte? && t == 0 then e.at else t)
  {
    var g := h + [e];
    assert g[..|h|] == h && g[|h|] == e;
    assert forall x :: x in g <==> x in h || x == e;
    if t != 0 {
      var i :| 0 <= i < |h| && h[i] == FirstByte(t) && !GotFirstByte(h[..i]);
      assert g[..i] == h[..i] && g[i] == h[i];
    }
  }

  lemma {:induction false} FirstResultTimeStep(h: History, e: LifeEvent, t: uint64)
    requires IsFirstResultTime(h, t)
    ensures IsFirstResultTime(h + [e], if e.Candidates? && First(h, e) then e.at else t)
  {
    hide First;
    var g := h + [e];
    assert g[..|h|] == h && g[|h|] == e;
    assert forall i | 0 <= i < |h| :: g[i] == h[i] && g[..i] == h[..i];
    if !(e.Candidates? && First(h, e)) && exists i | 0 <= i < |h| :: h[i].Candidates? && First(h[..i], h[i]) {
      var i :| 0 <= i < |h| && h[i].Candidates? && h[i].at == t && First(h[..i], h[i]) &&
        forall j | i < j < |h| :: h[j].Candidates? ==> !First(h[..j], h[j]);
      assert g[i].Candidates? && g[i].at == t && First(g[..i], g[i]);
      forall j | i < j < |g| ensures g[j].Candidates? ==> !First(g[..j], g[j]) {
        if j < |h| { assert g[..j] == h[..j] && g[j] == h[j]; }
      }
    }
  }

  lemma {:induction false} FoldStep(h: History, e: LifeEvent)
    ensures Fold(h + [e]) == Apply(Fold(h), e)
    ensures CandidateTotal(h + [e]) == CandidateTotal(h) + if e.Candidates? then e.amount else 0
    ensures FilteredTotal(h + [e]) == FilteredTotal(h) + if e.Filtered? then e.amount else 0
    ensures FailedTotal(h + [e]) == FailedTotal(h) + if e.Failed? then 1 else 0
  {
  }

  lemma {:induction false} SwapsExactlyOnFirst(d: Data, h: History, e: LifeEvent)
    requires Means(d, h)
    ensures Swaps(d, e) <==> First(h, e)
  {
  }

  lemma {:induction false} ModularSum(total: nat, n: uint32)
    ensures AddUint32(total % TWO_32, n) == (total + n) % TWO_32
    ensures total % TWO_32 == 0 ==> (total + n) % TWO_32 == n
  {
  }

  lemma {:induction false} TotalsStep(d: Data, h: History, e: LifeEvent)
    requires d.indexerCandidates == CandidateTotal(h) % TWO_32
    requires d.indexerFiltered == FilteredTotal(h) % TWO_32
    requires d.failedCount == FailedTotal(h) % TWO_32
    ensures Apply(d, e).indexerCandidates == CandidateTotal(h + [e]) % TWO_32
    ensures Apply(d, e).indexerFiltered == FilteredTotal(h + [e]) % TWO_32
    ensures Apply(d, e).failedCount == FailedTotal(h + [e]) % TWO_32
  {
    hide CandidateTotal, FilteredTotal, FailedTotal, AddUint32;
    FoldStep(h, e);
    match e
    case Candidates(_, n) => ModularSum(CandidateTotal(h), n);
    case Filtered(n) => ModularSum(FilteredTotal(h), n);
    case Failed => ModularSum(FailedTotal(h), 1);
    case _ =>
  }

  lemma {:induction false} AttemptsStep(d: Data, h: History, e: LifeEvent)
    requires Means(d, h)
    ensures Apply(d, e).bitswapAttempt == if BitswapAttempt in h + [e] then 1 else 0
    ensures Apply(d, e).graphsyncAttempt == if GraphsyncAttempt in h + [e] then 1 else 0
  {
  }

  lemma {:induction false} TimesStep(d: Data, h: History, e: LifeEvent)
    requires Means(d, h)
    ensures IsStartTime(h + [e], Apply(d, e).startTime)
    ensures IsFirstByteTime(h + [e], Apply(d, e).ttfbTime)
    ensures IsFirstResultTime(h + [e], Apply(d, e).indexerCandidateFirstResultTime)
  {
    SwapsExactlyOnFirst(d, h, e);
    StartTimeStep(h, e, d.startTime);
    FirstByteTimeStep(h, e, d.ttfbTime);
    FirstResultTimeStep(h, e, d.indexerCandidateFirstResultTime);
  }

  /** The fields of a folded TempData are what the readings say, for every history. */
  lemma {:induction false} FoldMeans(h: History)
    ensures Means(Fold(h), h)
  {
    if h != [] {
      var g, e := h[..|h| - 1], h[|h| - 1];
      assert h == g + [e];
      FoldMeans(g);
      FoldStep(g, e);
      TotalsStep(Fold(g), g, e);
      AttemptsStep(Fold(g), g, e);
      TimesStep(Fold(g), g, e);
    }
  }

  /** What finalValues reads off a record: each field from its own. */
  lemma {:induction false} FinalsMean(h: History)
    ensures var f := Finals(Fold(h));
      && f.indexerCandidates == CandidateTotal(h) % 0x1_0000_0000
      && f.indexerFiltered == FilteredTotal(h) % 0x1_0000_0000
      && f.failedCount == FailedTotal(h) % 0x1_0000_0000
      && (f.hasBitswapAttempt <==> BitswapAttempt in h) && (f.hasGraphSyncAttempt <==> GraphsyncAttempt in h)
    ensures var f := Finals(Fold(h));
      && (exists t :: IsStartTime(h, t) && f.startTime == Restored(t))
      && (exists t :: IsFirstByteTime(h, t) && f.timeToFirstByte == Restored(t))
      && (exists t :: IsFirstResultTime(h, t) && f.indexerCandidateFirstResultTime == Restored(t))
  {
    hide Fold;
    FoldMeans(h);
    var d := Fold(h);
    assert IsStartTime(h, d.startTime) && IsFirstByteTime(h, d.ttfbTime) && IsFirstResultTime(h, d.indexerCandidateFirstResultTime);
  }

  /** A Record* call that runs alone returns "first" exactly when the history says so. */
  lemma {:induction false} FirstReturned(h: History, e: LifeEvent)
    ensures Swaps(Fold(h), e) <==> First(h, e)
  {
    FoldMeans(h);
    SwapsExactlyOnFirst(Fold(h), h, e);
  }

  /** The reading determines the data: nothing about a TempData is left open by its history. */
  lemma {:induction false} MeaningIsUnique(d1: Data, d2: Data, h: History)
    requires Means(d1, h) && Means(d2, h)
    ensures d1 == d2
  {
    StartTimeUnique(h, d1.startTime, d2.startTime);
    FirstByteTimeUnique(h, d1.ttfbTime, d2.ttfbTime);
    FirstResultTimeUnique(h, d1.indexerCandidateFirstResultTime, d2.indexerCandidateFirstResultTime);
  }

  lemma {:induction false} StartTimeUnique(h: History, t: uint64, u: uint64)
    requires IsStartTime(h, t) && IsStartTime(h, u)
    ensures t == u
  {
  }

  lemma {:induction false} FirstByteTimeUnique(h: History, t: uint64, u: uint64)
    requires IsFirstByteTime(h, t) && IsFirstByteTime(h, u)
    ensures t == u
  {
  }

  lemma {:induction false} FirstResultTimeUnique(h: History, t: uint64, u: uint64)
    requires IsFirstResultTime(h, t) && IsFirstResultTime(h, u)
    ensures t == u
  {
  }
}
