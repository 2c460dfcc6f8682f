/** What the v1 durations measure: from the first start, or the first byte, of the lifetime. */
module Durations {
  import opened GoTime
  import opened Instruments
  import opened Lifetime
  import opened Handlers

  const UNIX_EPOCH: Time := 0

  /** What has happened to the entry of id, if it has one. */
  function HistoryOf(lives: Lives, id: RetrievalID): History {
    if id in lives then lives[id].events else []
  }

  /** d is the time from start to end as the handlers measure it: at most 999 ns too long, never too short. */
  predicate Measures(d: Duration, start: Time, end: Time) {
    0 <= d - Sub(end, start) <= 999
  }

  /** The start was stored, and is the first of the lifetime that counts. */
  predicate IsFirstStart(h: History, start: Time) {
    Representable(start) && Stored(start) != 0 && IsStartTime(h, Stored(start))
  }

  predicate IsFirstByte(h: History, byte: Time) {
    Representable(byte) && Stored(byte) != 0 && IsFirstByteTime(h, Stored(byte))
  }

  lemma {:induction false} SinceStart(h: History, end: Time, start: Time)
    ensures !Started(h) ==> Restored(Fold(h).startTime) == UNIX_EPOCH
    ensures IsFirstStart(h, start) ==> Measures(Sub(end, Restored(Fold(h).startTime)), start, end)
  {
    FoldMeans(h);
    FromUnixMicroIsExact(0);
    if IsFirstStart(h, start) {
      StartTimeUnique(h, Fold(h).startTime, Stored(start));
      DurationError(start, end);
    } else if !Started(h) {
      StartTimeUnique(h, Fold(h).startTime, 0);
    }
  }

  lemma {:induction false} SinceFirstByte(h: History, end: Time, byte: Time)
    ensures !GotFirstByte(h) ==> Restored(Fold(h).ttfbTime) == UNIX_EPOCH
    ensures IsFirstByte(h, byte) ==> Measures(Sub(end, Restored(Fold(h).ttfbTime)), byte, end)
  {
    FoldMeans(h);
    FromUnixMicroIsExact(0);
    if IsFirstByte(h, byte) {
      FirstByteTimeUnique(h, Fold(h).ttfbTime, Stored(byte));
      DurationError(byte, end);
    } else if !GotFirstByte(h) {
      FirstByteTimeUnique(h, Fold(h).ttfbTime, 0);
    }
  }

  /**
   Whatever v1 handler records a duration, on whatever entry: it runs from the
   first start of the lifetime, rounded down to a microsecond, to the time of
   the event. Without a start it runs from 1970.
   */
  lemma {:induction false} DurationsRunFromTheFirstStart(lives: Lives, now: Time, e: Event, x: Emission, start: Time)
    requires x in Handle(lives, now, e).out && x.Record? && x.value.Nanos?
    ensures e.CandidatesFoundEvent? || e.FirstByteEvent? || e.SuccessEvent?
    ensures IsFirstStart(HistoryOf(lives, e.id), start) ==> Measures(x.value.n, start, e.time)
    ensures !Started(HistoryOf(lives, e.id)) ==> x.value.n == Sub(e.time, UNIX_EPOCH)
  {
    hide Fold;
    SinceStart(HistoryOf(lives, e.id), e.time, start);
  }

  /** The bandwidth of a success divides its size by the time since the first byte of the lifetime, measured the same way. */
  lemma {:induction false} BandwidthRunsFromTheFirstByte(lives: Lives, now: Time, e: Event, x: Emission, byte: Time)
    requires x in Handle(lives, now, e).out && x.Record? && x.value.Rate?
    ensures e.SuccessEvent? && NumberField(e.details, "receivedSize") == Some(x.value.size)
    ensures IsFirstByte(HistoryOf(lives, e.id), byte) ==> Measures(x.value.nanos, byte, e.time)
    ensures !GotFirstByte(HistoryOf(lives, e.id)) ==> x.value.nanos == Sub(e.time, UNIX_EPOCH)
  {
    hide Fold;
    SinceFirstByte(HistoryOf(lives, e.id), e.time, byte);
  }
}
