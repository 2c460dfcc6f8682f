/** The recycled, in-place form of the entries: metrics/tempdata/tempdata.go. */
module Tempdata {
  import opened GoTime
  import opened Instruments
  import opened Lifetime
  import opened Handlers

  // time.AfterFunc(timeout, func() { t.Delete(id) })
  class Timer {
    const id: RetrievalID
    const deadline: Time
    var armed: bool

    constructor (id: RetrievalID, deadline: Time)
      ensures this.id == id && this.deadline == deadline && armed
    {
      this.id, this.deadline, armed := id, deadline, true;
    }
  }

  class TempData {
    var timer: Timer?
    var startTime: uint64
    var indexerCandidates: uint32
    var indexerCandidateFirstResultTime: uint64
    var indexerFiltered: uint32
    var bitswapAttempt: uint32
    var graphsyncAttempt: uint32
    var ttfbTime: uint64
    var failedCount: uint32
    // the Record* calls since the object was last zero
    ghost var history: History

    ghost function Value(): Data
      reads `startTime, `indexerCandidates, `indexerCandidateFirstResultTime, `indexerFiltered
      reads `bitswapAttempt, `graphsyncAttempt, `ttfbTime, `failedCount
    {
      Data(startTime, indexerCandidates, indexerCandidateFirstResultTime, indexerFiltered,
           bitswapAttempt, graphsyncAttempt, ttfbTime, failedCount)
    }

    /**
     The fields are the fold of the history, so they mean what the history
     says. The quantifier keeps the fold folded where it is not spoken of.
     */
    ghost predicate Valid()
      reads `startTime, `indexerCandidates, `indexerCandidateFirstResultTime, `indexerFiltered
      reads `bitswapAttempt, `graphsyncAttempt, `ttfbTime, `failedCount, `history
    {
      forall h {:trigger Fold(h)} :: h == history ==> Value() == Fold(h)
    }

    constructor ()
      ensures Valid() && history == [] && timer == null
    {
      timer, history := null, [];
      startTime, indexerCandidates, indexerCandidateFirstResultTime, indexerFiltered := 0, 0, 0, 0;
      bitswapAttempt, graphsyncAttempt, ttfbTime, failedCount := 0, 0, 0, 0;
    }

    method RecordStartTime(time: Time) returns (first: bool)
      requires Valid()
      modifies `startTime, `history
      ensures Valid() && history == old(history) + [Start(Stored(time))]
      ensures first == First(old(history), Start(Stored(time)))
    {
      FoldStep(history, Start(Stored(time)));
      FirstReturned(history, Start(Stored(time)));
      history := history + [Start(Stored(time))];
      first := startTime == 0;
      if first { startTime := Stored(time); }
    }

    method StartTime() returns (time: Time)
      requires Valid()
      ensures time == Restored(Fold(history).startTime)
    {
      time := Restored(startTime);
    }

    method RecordIndexerCandidates(eventTime: Time, candidatesFound: uint32) returns (first: bool)
      requires Valid()
      modifies `indexerCandidates, `indexerCandidateFirstResultTime, `history
      ensures Valid() && history == old(history) + [Candidates(Stored(eventTime), candidatesFound)]
      ensures first == First(old(history), Candidates(Stored(eventTime), candidatesFound))
    {
      FoldStep(history, Candidates(Stored(eventTime), candidatesFound));
      FirstReturned(history, Candidates(Stored(eventTime), candidatesFound));
      history := history + [Candidates(Stored(eventTime), candidatesFound)];
      if indexerCandidates == 0 {
        indexerCandidates := candidatesFound;
        indexerCandidateFirstResultTime := Stored(eventTime);
        return true;
      }
      indexerCandidates := AddUint32(indexerCandidates, candidatesFound);
      return false;
    }

    method RecordIndexerFilteredCandidates(candidatesFoundFiltered: uint32) returns (first: bool)
      requires Valid()
      modifies `indexerFiltered, `history
      ensures Valid() && history == old(history) + [Filtered(candidatesFoundFiltered)]
      ensures first == First(old(history), Filtered(candidatesFoundFiltered))
    {
      FoldStep(history, Filtered(candidatesFoundFiltered));
      FirstReturned(history, Filtered(candidatesFoundFiltered));
      history := history + [Filtered(candidatesFoundFiltered)];
      if indexerFiltered == 0 {
        indexerFiltered := candidatesFoundFiltered;
        return true;
      }
      indexerFiltered := AddUint32(indexerFiltered, candidatesFoundFiltered);
      return false;
    }

    method RecordBitswapAttempt() returns (first: bool)
      requires Valid()
      modifies `bitswapAttempt, `history
      ensures Valid() && history == old(history) + [BitswapAttempt]
      ensures first == First(old(history), BitswapAttempt)
    {
      FoldStep(history, BitswapAttempt);
      FirstReturned(history, BitswapAttempt);
      history := history + [BitswapAttempt];
      first := bitswapAttempt == 0;
      if first { bitswapAttempt := 1; }
    }

    method RecordGraphsyncAttempt() returns (first: bool)
      requires Valid()
      modifies `graphsyncAttempt, `history
      ensures Valid() && history == old(history) + [GraphsyncAttempt]
      ensures first == First(old(history), GraphsyncAttempt)
    {
      FoldStep(history, GraphsyncAttempt);
      FirstReturned(history, GraphsyncAttempt);
      history := history + [GraphsyncAttempt];
      first := graphsyncAttempt == 0;
      if first { graphsyncAttempt := 1; }
    }

    method RecordTimeToFirstByte(time: Time) returns (first: bool)
      requires Valid()
      modifies `ttfbTime, `history
      ensures Valid() && history == old(history) + [FirstByte(Stored(time))]
      ensures first == First(old(history), FirstByte(Stored(time)))
    {
      FoldStep(history, FirstByte(Stored(time)));
      FirstReturned(history, FirstByte(Stored(time)));
      history := history + [FirstByte(Stored(time))];
      first := ttfbTime == 0;
      if first { ttfbTime := Stored(time); }
    }

    method RecordFailure() returns (first: bool)
      requires Valid()
      modifies `failedCount, `history
      ensures Valid() && history == old(history) + [Failed]
      ensures first == First(old(history), Failed)
    {
      FoldStep(history, Failed);
      FirstReturned(history, Failed);
      history := history + [Failed];
      if failedCount == 0 {
        failedCount := 1;
        return true;
      }
      failedCount := AddUint32(failedCount, 1);
      return false;
    }

    method RecordFinality()
      requires timer != null
      modifies timer
      ensures !timer.armed
    {
      timer.armed := false;
    }

    method FinalValuesOf() returns (f: FinalValues)
      requires Valid()
      ensures f == Finals(Fold(history))
    {
      f := FinalValues(
        Restored(startTime), indexerCandidates, Restored(indexerCandidateFirstResultTime), indexerFiltered,
        bitswapAttempt > 0, graphsyncAttempt > 0, Restored(ttfbTime), failedCount);
    }

    method ZeroOut()
      modifies `startTime, `indexerCandidates, `indexerCandidateFirstResultTime, `indexerFiltered
      modifies `bitswapAttempt, `graphsyncAttempt, `ttfbTime, `failedCount, `history
      ensures Valid() && history == []
    {
      history := [];
      startTime := 0;
      indexerCandidates := 0;
      indexerCandidateFirstResultTime := 0;
      indexerFiltered := 0;
      bitswapAttempt := 0;
      graphsyncAttempt := 0;
      ttfbTime := 0;
      failedCount := 0;
    }
  }

  class TempDataMap {
    var internalMap: map<RetrievalID, TempData>
    // tempDataPool: the objects Get may hand out again
    var pool: set<TempData>
    // every TempData and every timer this map has dealt with
    ghost var datas: set<TempData>
    ghost var timers: set<Timer>

    /**
     A key's object is not in the pool, and has a timer that carries the key:
     so no object serves two keys.
     */
    ghost predicate Owned()
      reads `internalMap, `pool, `datas, `timers, datas`timer
    {
      && pool <= datas
      && forall i | i in internalMap ::
        internalMap[i] in datas && internalMap[i] !in pool
        && internalMap[i].timer != null && internalMap[i].timer in timers && internalMap[i].timer.id == i
    }

    /** Pooled objects are zero. */
    ghost predicate Valid()
      reads `internalMap, `pool, `datas, `timers, datas
    {
      && Owned()
      && (forall d | d in datas :: d.Valid())
      && (forall d | d in datas && d in pool :: d.history == [])
    }

    /** No armed timer is stale: it is the timer of the entry its ID names. */
    ghost predicate NoStaleTimer()
      reads `internalMap, `datas, `timers, timers`armed, datas`timer
    {
      forall t | t in timers && t.armed ::
        t.id in internalMap && internalMap[t.id] in datas && internalMap[t.id].timer == t
    }

    /** Every live entry but this one has its timer armed. */
    ghost predicate ArmedBut(id: Option<RetrievalID>)
      reads `internalMap, `datas, `timers, timers`armed, datas`timer
    {
      forall i | i in internalMap :: Some(i) != id ==>
        internalMap[i] in datas && internalMap[i].timer != null && internalMap[i].timer in timers
        && internalMap[i].timer.armed
    }

    /** Live entries and armed timers are in bijection. */
    ghost predicate Timed()
      reads `internalMap, `datas, `timers, timers`armed, datas`timer
    {
      NoStaleTimer() && ArmedBut(None)
    }

    /** The live entries are these lifetimes. */
    ghost predicate Holds(lives: Lives)
      reads `internalMap, `datas, datas
    {
      && lives.Keys == internalMap.Keys
      && forall i | i in internalMap ::
        internalMap[i] in datas && internalMap[i].timer != null
        && lives[i] == Life(internalMap[i].history, internalMap[i].timer.deadline)
    }

    constructor ()
      ensures Valid() && Timed() && Holds(map[]) && datas == {} && timers == {}
    {
      internalMap, pool, datas, timers := map[], {}, {}, {};
    }

    /** sync.Pool.Get: some pooled object, or a new one; the pool may have dropped any of its objects before. */
    method PoolGet() returns (d: TempData)
      requires Valid()
      modifies `pool, `datas
      ensures Valid() && d.Valid() && d.history == []
      ensures d in datas && d !in pool && forall i | i in internalMap :: internalMap[i] != d
      ensures datas == old(datas) + {d} && pool <= old(pool) && (d in old(pool) || fresh(d))
      ensures forall c: Lives | old(Holds(c)) :: Holds(c)
      ensures old(Timed()) ==> Timed()
    {
      var kept: set<TempData> :| kept <= pool;
      pool := kept;
      var reuse: bool := *;
      if reuse && pool != {} {
        d :| d in pool;
        pool := pool - {d};
      } else {
        d := new TempData();
      }
      datas := datas + {d};
    }

    method PoolPut(d: TempData)
      requires Valid() && d in datas && d.Valid() && d.history == [] && forall i | i in internalMap :: internalMap[i] != d
      modifies `pool
      ensures Valid() && pool == old(pool) + {d}
    {
      pool := pool + {d};
    }

    /** LoadOrStore when nothing is stored yet, then time.AfterFunc. */
    method Store(id: RetrievalID, d: TempData, now: Time)
      requires Valid() && id !in internalMap
      requires d in datas && d !in pool && d.Valid() && d.history == [] && forall i | i in internalMap :: internalMap[i] != d
      modifies `internalMap, `timers, d`timer
      ensures Valid() && internalMap == old(internalMap)[id := d]
      ensures old(timers) <= timers && fresh(timers - old(timers))
      ensures forall c: Lives | old(Holds(c)) :: Holds(c[id := Life([], now + TIMEOUT)])
      ensures old(Timed()) ==> Timed()
    {
      internalMap := internalMap[id := d];
      d.timer := new Timer(id, now + TIMEOUT);
      timers := timers + {d.timer};
      Opened(id);
      TimerOpened(id);
    }

    twostate lemma TimerOpened(id: RetrievalID)
      requires Owned() && id in internalMap && id !in old(internalMap) && internalMap == old(internalMap)[id := internalMap[id]]
      requires timers == old(timers) + {internalMap[id].timer} && internalMap[id].timer.armed && internalMap[id].timer !in old(timers)
      requires forall t | t in old(timers) :: t.armed == old(t.armed)
      requires datas == old(datas) && forall d | d in datas :: d == internalMap[id] || d.timer == old(d.timer)
      requires forall i | i in old(internalMap) :: old(internalMap[i]) != internalMap[id]
      ensures old(Timed()) ==> Timed()
    {
    }

    /** A new entry with an untouched object is a lifetime without events. */
    twostate lemma Opened(id: RetrievalID)
      requires id in internalMap && id !in old(internalMap) && internalMap == old(internalMap)[id := internalMap[id]]
      requires datas == old(datas) && internalMap[id] in datas && internalMap[id].timer != null
      requires forall d | d in datas :: d.history == old(d.history)
      requires forall d | d in datas :: d == internalMap[id] || d.timer == old(d.timer)
      requires internalMap[id].history == [] && forall i | i in old(internalMap) :: old(internalMap[i]) != internalMap[id]
      ensures forall c: Lives | old(Holds(c)) :: Holds(c[id := Life([], internalMap[id].timer.deadline)])
    {
    }

    method GetOrCreate(id: RetrievalID, now: Time) returns (d: TempData)
      requires Valid()
      modifies this, datas`timer
      ensures Valid() && fresh(datas - old(datas)) && old(timers) <= timers && fresh(timers - old(timers))
      ensures id in internalMap && internalMap[id] == d
      ensures forall c: Lives | old(Holds(c)) :: Holds(Open(c, id, now))
      ensures old(Timed()) ==> Timed()
    {
      var newTempData := PoolGet();
      if id in internalMap {
        PoolPut(newTempData);
        d := internalMap[id];
      } else {
        Store(id, newTempData, now);
        d := newTempData;
      }
    }

    /** The final values are read, the object is zeroed and goes back to the pool. */
    method Release(d: TempData) returns (f: FinalValues)
      requires Valid() && d in datas && forall i | i in internalMap :: internalMap[i] != d
      modifies `pool, d
      ensures Valid() && d.timer == old(d.timer) && pool == old(pool) + {d}
      ensures f == Finals(Fold(old(d.history)))
    {
      f := d.FinalValuesOf();
      d.ZeroOut();
      PoolPut(d);
    }

    /**
     Removes the entry, if there is one, and hands out its final values. Entries
     and timers stay in bijection if the timer was stopped or has fired before.
     */
    method Delete(id: RetrievalID) returns (f: Option<FinalValues>)
      requires Valid()
      modifies `internalMap, `pool, datas
      ensures Valid()
      ensures internalMap == old(internalMap) - {id}
      ensures pool == if id in old(internalMap) then old(pool) + {old(internalMap)[id]} else old(pool)
      ensures forall c: Lives | old(Holds(c)) :: f == if id in c then Some(Finals(Fold(c[id].events))) else None
      ensures forall c: Lives | old(Holds(c)) :: Holds(Close(c, id))
      ensures old(NoStaleTimer() && (id in internalMap ==> !internalMap[id].timer.armed)) ==> NoStaleTimer()
      ensures old(ArmedBut(Some(id))) ==> ArmedBut(None)
    {
      if id !in internalMap {
        assert forall c: Lives | id !in c :: Close(c, id) == c;
        return None;
      }
      var tempData := internalMap[id];
      internalMap := internalMap - {id};
      var finalValues := Release(tempData);
      Removed(id);
      return Some(finalValues);
    }

    twostate lemma Removed(id: RetrievalID)
      requires id in old(internalMap) && internalMap == old(internalMap) - {id} && datas == old(datas)
      requires forall d | d in datas :: d == old(internalMap[id]) || unchanged(d)
      requires forall i | i in internalMap :: internalMap[i] != old(internalMap[id])
      ensures forall c: Lives | old(Holds(c)) :: Holds(Close(c, id))
    {
    }

    /** RecordFinality on the object of a live entry. */
    method Stop(id: RetrievalID)
      requires Valid() && Timed() && id in internalMap
      modifies internalMap[id].timer
      ensures NoStaleTimer() && ArmedBut(Some(id)) && !internalMap[id].timer.armed
    {
      internalMap[id].RecordFinality();
    }

    /** RecordFinality, then Delete: how a handler ends a lifetime. */
    method Finish(id: RetrievalID) returns (f: Option<FinalValues>)
      requires Valid() && Timed() && id in internalMap
      modifies `internalMap, `pool, datas, internalMap[id].timer
      ensures Valid() && Timed()
      ensures forall c: Lives | old(Holds(c)) :: id in c && f == Some(Finals(Fold(c[id].events))) && Holds(Close(c, id))
    {
      hide Fold, Finals;
      Stop(id);
      assert forall c: Lives | old(Holds(c)) :: Holds(c) && id in c;
      f := Delete(id);
    }

    /** A Record* call on the object of a live entry changes that entry and nothing else. */
    twostate lemma Recorded(id: RetrievalID)
      requires internalMap == old(internalMap) && pool == old(pool) && datas == old(datas) && timers == old(timers)
      requires old(Valid()) && id in internalMap
      requires internalMap[id].Valid() && internalMap[id].timer == old(internalMap[id].timer)
      requires internalMap[id].history != [] && LessLast(internalMap[id].history) == old(internalMap[id].history)
      requires forall d | d in datas :: d != internalMap[id] ==> unchanged(d)
      ensures Valid()
      ensures forall c: Lives | old(Holds(c)) :: id in c && Holds(Note(c, id, Last(internalMap[id].history)))
    {
      assert internalMap[id].history == old(internalMap[id].history) + [Last(internalMap[id].history)];
    }

    /** The timer goes off and its function runs. */
    method Fire(timer: Timer)
      requires Valid() && timer in timers && timer.armed
      modifies this, datas, timer
      ensures Valid() && datas == old(datas) && timers == old(timers)
      ensures forall c: Lives | old(Holds(c)) && old(NoStaleTimer()) :: timer.id in c && c[timer.id].deadline == timer.deadline
      ensures forall c: Lives | old(Holds(c)) :: Holds(Close(c, timer.id))
      ensures old(Timed()) ==> Timed()
    {
      timer.armed := false;
      var _ := Delete(timer.id);
    }
  }
}
