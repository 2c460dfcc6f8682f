/**
 What a v1 success reports after a whole run, read off the steps alone: sums
 and first times since the last entry of its retrieval went.
 */
module RunReports {
  import opened GoTime
  import opened Instruments
  import opened Lifetime
  import opened Handlers
  import opened Durations
  import opened Runs
  import opened Firsts
  import opened EventReports
  import E = Events

  datatype Since = Since(candidates: nat, filtered: nat, start: Option<Time>, firstByte: Option<Time>)

  const NOTHING := Since(0, 0, None, None)

  /** The candidates a handler counts for these details. */
  function CountOf(details: Details): uint32 {
    match NumberField(details, "candidateCount")
    case None => 0
    case Some(r) => if r <= 0.0 then 0 else FloatToUint32(r)
  }

  /** A time counts if none did before, unless it is stored as the mark of an unset field. */
  function Earliest(before: Option<Time>, t: Time): Option<Time> {
    if before == None && Stored(t) != 0 then Some(t) else before
  }

  /** What the steps told about id since it last expired, failed or succeeded. */
  function SinceLast(steps: seq<Step>, id: RetrievalID): Since {
    if steps == [] then NOTHING
    else
      var before, s := SinceLast(steps[..|steps| - 1], id), steps[|steps| - 1];
      if !Concerns(s, id) then before
      else if s.Expire? || Ends(s.event) then NOTHING
      else AndThen(before, s.event)
  }

  function AndThen(before: Since, e: Event): Since {
    match e
    case CandidatesFoundEvent(_, _, details) => before.(candidates := before.candidates + CountOf(details))
    case CandidatesFilteredEvent(_, details) => before.(filtered := before.filtered + CountOf(details))
    case StartedEvent(_, phase, _, time) => if phase.IndexerPhase? then before.(start := Earliest(before.start, time)) else before
    case FirstByteEvent(_, _, time) => before.(firstByte := Earliest(before.firstByte, time))
    case _ => before
  }

  /** The history of an entry tells the same. */
  ghost predicate Tells(h: History, since: Since) {
    && CandidateTotal(h) == since.candidates && FilteredTotal(h) == since.filtered
    && IsStartTime(h, if since.start == None then 0 else Stored(since.start.value))
    && (since.start.Some? ==> Stored(since.start.value) != 0)
    && IsFirstByteTime(h, if since.firstByte == None then 0 else Stored(since.firstByte.value))
    && (since.firstByte.Some? ==> Stored(since.firstByte.value) != 0)
  }

  // What the handler of e notes, if anything
  function NotedBy(e: Event): History {
    match Noted(e)
    case None => []
    case Some(noted) => [noted]
  }

  lemma {:induction false} NotedIsAppended(lives: Lives, now: Time, e: Event)
    ensures HistoryOf(Handle(lives, now, e).lives, e.id) == if Ends(e) then [] else HistoryOf(lives, e.id) + NotedBy(e)
  {
  }

  lemma {:induction false} TellsAndThen(h: History, since: Since, e: Event)
    requires Tells(h, since) && !Ends(e)
    ensures Tells(h + NotedBy(e), AndThen(since, e))
  {
    hide Fold, Stored, FloatToUint32, CandidateTotal, FilteredTotal, IsStartTime, IsFirstByteTime;
    if Noted(e) == None {
      assert h + [] == h;
    } else {
      var noted := Noted(e).value;
      FoldStep(h, noted);
      StartTimeStep(h, noted, if since.start == None then 0 else Stored(since.start.value));
      FirstByteTimeStep(h, noted, if since.firstByte == None then 0 else Stored(since.firstByte.value));
    }
  }

  /** At any point of any run the history of an entry tells what the steps told since the last one went. */
  lemma {:induction false} HistoryTells(steps: seq<Step>, id: RetrievalID)
    ensures Tells(HistoryOf(Runs.Run(map[], steps).lives, id), SinceLast(steps, id))
  {
    if steps != [] {
      var front, s := steps[..|steps| - 1], steps[|steps| - 1];
      assert steps == front + [s];
      var lives := Runs.Run(map[], front).lives;
      HistoryTells(front, id);
      RunAppend(map[], front, [s]);
      RunOne(lives, s);
      HistoryStep(lives, s, id, SinceLast(front, id));
    }
  }

  lemma {:induction false} HistoryStep(lives: Lives, s: Step, id: RetrievalID, since: Since)
    requires Tells(HistoryOf(lives, id), since)
    ensures Tells(HistoryOf(Next(lives, s).lives, id),
      if !Concerns(s, id) then since else if s.Expire? || Ends(s.event) then NOTHING else AndThen(since, s.event))
  {
    hide NotedBy, AndThen, Ends, Touches, Tells;
    NothingTold();
    if s.V1? {
      hide Handle, HistoryOf;
      HistoryOfOther(lives, s.now, s.event, id);
      NotedIsAppended(lives, s.now, s.event);
      if s.event.id == id && !Ends(s.event) { TellsAndThen(HistoryOf(lives, id), since, s.event); }
    }
  }

  lemma {:induction false} HistoryOfOther(lives: Lives, now: Time, e: Event, id: RetrievalID)
    ensures e.id != id ==> HistoryOf(Handle(lives, now, e).lives, id) == HistoryOf(lives, id)
  {
    HandleIsLocal(lives, now, e, lives);
  }

  lemma {:induction false} NothingTold()
    ensures Tells([], NOTHING)
  {
  }

  /** From one of the times, at most 999 ns too long and never too short; or from 1970. */
  predicate RunsFrom(d: int, since: Option<Time>, end: Time) {
    match since
    case None => d == Sub(end, UNIX_EPOCH)
    case Some(t) => Representable(t) ==> 0 <= d - Sub(end, t) <= 999
  }

  predicate IsDurationFrom(v: Value, since: Option<Time>, end: Time) {
    v.Nanos? && RunsFrom(v.n, since, end)
  }

  predicate IsBandwidthFrom(v: Value, size: real, since: Option<Time>, end: Time) {
    v.Rate? && v.size == size && RunsFrom(v.nanos, since, end)
  }

  /**
   A success after any run. Its averages are the sums of all candidates found
   and filtered since the last entry went, modulo 2^32; its duration runs from
   the first start since then, and its bandwidth divides by the time since the
   first byte since then.
   */
  lemma {:induction false} SuccessAfterRun(steps: seq<Step>, now: Time, ev: E.Event, r: real)
    requires ev.eventName == E.Success && HasNumber(ev.eventDetails, "receivedSize", r)
    ensures var since, out := SinceLast(steps, ev.retrievalID), EffectOf(Runs.Run(map[], steps).lives, now, ev).out;
      var duration, bandwidth := Recorded(out, RetrievalDealDuration), Recorded(out, BandwidthBytesPerSecond);
      && Recorded(out, IndexerCandidatesPerRequest) == [(Amount(since.candidates % 0x1_0000_0000), map[])]
      && Recorded(out, IndexerCandidatesFilteredPerRequest) == [(Amount(since.filtered % 0x1_0000_0000), map[])]
      && |duration| == 1 && IsDurationFrom(duration[0].0, since.start, ev.eventTime)
      && |bandwidth| == 1 && IsBandwidthFrom(bandwidth[0].0, r, since.firstByte, ev.eventTime)
  {
    hide SinceLast, Runs.Run, EffectOf, Recorded, Sub, Stored, Restored, Fold, Representable;
    var lives, since := Runs.Run(map[], steps).lives, SinceLast(steps, ev.retrievalID);
    var h := HistoryOf(lives, ev.retrievalID);
    HistoryTells(steps, ev.retrievalID);
    var _ := SuccessReports(lives, now, ev, r);
    SinceStart(h, ev.eventTime, if since.start == None then 0 else since.start.value);
    SinceFirstByte(h, ev.eventTime, if since.firstByte == None then 0 else since.firstByte.value);
  }
}
