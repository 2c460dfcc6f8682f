/**
 spmap/spmap.go under every interleaving of any number of Get calls, the one
 worker goroutine, the readers of the response channels, cache evictions and
 Close. Each Get makes one response channel, so the channel goes by the number
 of its call.
 */
module SPMapProtocol {
  import Instruments
  import opened Sequences

  const QUEUE_SIZE := 10
  const CACHE_SIZE := 10_000

  type Peer = string
  type CallId = nat
  type Reply = seq<string>

  // chan string with room for one value
  datatype Chan = Chan(buf: seq<string>, closed: bool, received: seq<string>)

  datatype Pc =
    | Looking            // the channel is made, the cache not looked at
    | Hit(vals: Reply)   // found in the cache; value to be sent, if there is one
    | HitSent(vals: Reply)   // value sent; channel to be closed
    | Missed             // not in the cache; the select is next
    | Rejected           // the queue was full; channel to be closed
    | Accepted           // the work is queued, Get has returned
    | Done(found: Instruments.Option<Reply>)   // Get has returned a closed channel: what the cache held, or None if rejected

  // seen: how many results had been cached when the call looked
  datatype Call = Call(peer: Peer, pc: Pc, seen: nat)

  datatype Worker =
    | Waiting
    | Querying(c: CallId)
    | Answered(c: CallId, reply: Reply)
    | Stored(c: CallId, reply: Reply)
    | Sent(c: CallId)

  // What would end the process with a panic
  datatype Fault = NoFault | SendOnClosedQueue | CloseOfClosedQueue | SendOnClosedChannel | CloseOfClosedChannel

  datatype State = State(
    calls: map<CallId, Call>,
    chans: map<CallId, Chan>,
    queue: seq<CallId>,
    queueClosed: bool,
    worker: Worker,
    cache: map<Peer, Reply>,
    fault: Fault,
    // histories
    accepted: seq<CallId>,           // calls whose work got into the queue, in order
    completed: seq<CallId>,          // calls the worker is done with, in order
    results: seq<(Peer, Reply)>)     // query results put into the cache, in order

  const INIT := State(map[], map[], [], false, Waiting, map[], NoFault, [], [], [])

  datatype Action =
    | Get(c: CallId, peer: Peer)
    | Lookup(c: CallId)
    | SendHit(c: CallId)
    | Select(c: CallId)
    | CloseOwn(c: CallId)          // close(resp) in Get
    | Receive(c: CallId)
    | Take
    | HeyfilReplies(reply: Reply)
    | Store(evicted: set<Peer>)
    | SendReply
    | CloseReply                   // close(t.response) in run
    | Evict(peer: Peer)
    | Close

  predicate Enabled(s: State, a: Action) {
    s.fault.NoFault? &&
    match a
    case Get(c, _) => c !in s.calls
    case Lookup(c) => c in s.calls && s.calls[c].pc.Looking?
    case SendHit(c) => c in s.calls && s.calls[c].pc.Hit? && s.calls[c].pc.vals != [] && CanSend(s, c)
    case Select(c) => c in s.calls && s.calls[c].pc.Missed?
    case CloseOwn(c) => c in s.calls && (s.calls[c].pc.HitSent? || s.calls[c].pc.Rejected? || s.calls[c].pc == Hit([]))
    case Receive(c) => c in s.chans && s.chans[c].buf != []
    case Take => s.worker.Waiting? && s.queue != []
    case HeyfilReplies(_) => s.worker.Querying?
    case Store(evicted) =>
      s.worker.Answered? && s.worker.c in s.calls
      && HasRoom((s.cache - evicted)[s.calls[s.worker.c].peer := s.worker.reply])
    case SendReply => s.worker.Stored? && s.worker.reply != [] && CanSend(s, s.worker.c)
    case CloseReply => s.worker.Sent? || (s.worker.Stored? && s.worker.reply == [])
    case Evict(_) => true
    case Close => true
  }

  predicate HasRoom(cache: map<Peer, Reply>) {
    |cache| <= CACHE_SIZE
  }

  // A send waits while the buffer is full; on a closed channel it panics at once
  predicate CanSend(s: State, c: CallId) {
    c in s.chans && (s.chans[c].closed || s.chans[c].buf == [])
  }

  function SendTo(s: State, c: CallId, v: string): State
    requires c in s.chans
  {
    if s.chans[c].closed then s.(fault := SendOnClosedChannel)
    else s.(chans := s.chans[c := s.chans[c].(buf := s.chans[c].buf + [v])])
  }

  function CloseChan(s: State, c: CallId): State {
    if c !in s.chans || s.chans[c].closed then s.(fault := CloseOfClosedChannel)
    else s.(chans := s.chans[c := s.chans[c].(closed := true)])
  }

  function Goto(s: State, c: CallId, pc: Pc): State
    requires c in s.calls
  {
    s.(calls := s.calls[c := s.calls[c].(pc := pc)])
  }

  function Step(s: State, a: Action): State {
    if !Enabled(s, a) then s else
    match a
    case Get(c, peer) => s.(calls := s.calls[c := Call(peer, Looking, 0)], chans := s.chans[c := Chan([], false, [])])
    case Lookup(c) =>
      var peer := s.calls[c].peer;
      var pc := if peer in s.cache then Hit(s.cache[peer]) else Missed;
      s.(calls := s.calls[c := Call(peer, pc, |s.results|)])
    case SendHit(c) => SendTo(Goto(s, c, HitSent(s.calls[c].pc.vals)), c, s.calls[c].pc.vals[0])
    case Select(c) =>
      if s.queueClosed then s.(fault := SendOnClosedQueue)
      else if |s.queue| < QUEUE_SIZE then
        Goto(s, c, Accepted).(queue := s.queue + [c], accepted := s.accepted + [c])
      else Goto(s, c, Rejected)
    case CloseOwn(c) =>
      var pc := s.calls[c].pc;
      CloseChan(Goto(s, c, Done(if pc.Rejected? then Instruments.None else Instruments.Some(pc.vals))), c)
    case Receive(c) =>
      var ch := s.chans[c];
      s.(chans := s.chans[c := ch.(buf := ch.buf[1..], received := ch.received + [ch.buf[0]])])
    case Take => s.(worker := Querying(s.queue[0]), queue := s.queue[1..])
    case HeyfilReplies(reply) => s.(worker := Answered(s.worker.c, reply))
    case Store(evicted) =>
      var peer := s.calls[s.worker.c].peer;
      s.(cache := (s.cache - evicted)[peer := s.worker.reply], worker := Stored(s.worker.c, s.worker.reply),
         results := s.results + [(peer, s.worker.reply)])
    case SendReply => SendTo(s.(worker := Sent(s.worker.c)), s.worker.c, s.worker.reply[0])
    case CloseReply => CloseChan(s, s.worker.c).(worker := Waiting, completed := s.completed + [s.worker.c])
    case Evict(peer) => s.(cache := s.cache - {peer})
    case Close => if s.queueClosed then s.(fault := CloseOfClosedQueue) else s.(queueClosed := true)
  }

  function Run(s: State, actions: seq<Action>): State {
    if actions == [] then s else Step(Run(s, actions[..|actions| - 1]), actions[|actions| - 1])
  }

  /** What a reply amounts to for a caller. */
  function Head(vals: Reply): seq<string> {
    if vals == [] then [] else [vals[0]]
  }

  /** The most recent result for a peer. */
  function LastResult(results: seq<(Peer, Reply)>, peer: Peer): Instruments.Option<Reply> {
    if results == [] then Instruments.None
    else if results[|results| - 1].0 == peer then Instruments.Some(results[|results| - 1].1)
    else LastResult(results[..|results| - 1], peer)
  }

  // ---------- where a call stands ----------

  function InHand(w: Worker): seq<CallId> {
    if w.Waiting? then [] else [w.c]
  }

  function Line(completed: seq<CallId>, w: Worker, queue: seq<CallId>): seq<CallId> {
    completed + InHand(w) + queue
  }

  // Get still has the channel to itself
  predicate WithGet(pc: Pc) {
    !pc.Accepted? && !pc.Done?
  }

  /** Each accepted call is completed, in the worker's hand or in the queue, in the order of acceptance. */
  ghost predicate Lined(s: State) {
    && s.accepted == Line(s.completed, s.worker, s.queue)
    && (forall i, j | 0 <= i < j < |s.accepted| :: s.accepted[i] != s.accepted[j])
    && (forall i | 0 <= i < |s.accepted| :: s.accepted[i] in s.calls && s.calls[s.accepted[i]].pc == Accepted)
    && (forall c | c in s.calls && s.calls[c].pc == Accepted :: Occurs(s.accepted, c))
    && |s.queue| <= QUEUE_SIZE
  }

  /** A channel is closed once Get or the worker is done with it, and not before. */
  ghost predicate ClosedWhenDone(s: State) {
    && s.chans.Keys == s.calls.Keys
    && forall c | c in s.calls :: s.chans[c].closed <==> s.calls[c].pc.Done? || Occurs(s.completed, c)
  }

  /** Nothing has been sent to c yet. */
  predicate Untouched(s: State, c: CallId)
    requires c in s.calls
  {
    match s.calls[c].pc
    case Looking => true
    case Hit(_) => true
    case Missed => true
    case Rejected => true
    case Accepted => !Occurs(s.completed, c) && s.worker != Sent(c)
    case _ => false
  }

  ghost predicate AtMostOneValue(s: State) {
    forall c | c in s.calls && c in s.chans ::
      |s.chans[c].buf| + |s.chans[c].received| <= if Untouched(s, c) then 0 else 1
  }

  /** A cached entry is the latest result for its peer. */
  ghost predicate CacheAgrees(s: State) {
    && HasRoom(s.cache)
    && forall p | p in s.cache :: LastResult(s.results, p) == Instruments.Some(s.cache[p])
  }

  predicate HeadOfResult(results: seq<(Peer, Reply)>, peer: Peer, v: string) {
    exists k | 0 <= k < |results| :: results[k].0 == peer && results[k].1 != [] && results[k].1[0] == v
  }

  predicate IsResult(results: seq<(Peer, Reply)>, peer: Peer, vals: Reply) {
    exists k | 0 <= k < |results| :: results[k] == (peer, vals)
  }

  /** Values come from results for the caller's own peer. */
  ghost predicate Sourced(s: State) {
    && (forall c | c in s.calls && s.calls[c].pc.Hit? :: IsResult(s.results, s.calls[c].peer, s.calls[c].pc.vals))
    && (s.worker.Stored? && s.worker.c in s.calls ==> IsResult(s.results, s.calls[s.worker.c].peer, s.worker.reply))
    && (forall c, v | c in s.calls && c in s.chans && v in s.chans[c].buf + s.chans[c].received ::
          HeadOfResult(s.results, s.calls[c].peer, v))
  }

  predicate ChannelsUsedWell(s: State) {
    s.fault != SendOnClosedChannel && s.fault != CloseOfClosedChannel
  }

  ghost predicate Inv(s: State) {
    && Lined(s) && ClosedWhenDone(s) && AtMostOneValue(s) && CacheAgrees(s) && Sourced(s) && ChannelsUsedWell(s)
  }

  // ---------- every step keeps it ----------

  lemma {:induction false} PendingIsAccepted(s: State, c: CallId)
    requires Lined(s) && Occurs(InHand(s.worker) + s.queue, c)
    ensures !Occurs(s.completed, c) && c in s.calls && s.calls[c].pc == Accepted
  {
    var n, rest := |s.completed|, InHand(s.worker) + s.queue;
    var i :| 0 <= i < |rest| && rest[i] == c;
    assert s.accepted[n + i] == c;
    forall j | 0 <= j < n ensures s.completed[j] != c { assert s.accepted[j] == s.completed[j]; }
  }

  lemma {:induction false} CompletedIsAccepted(s: State, c: CallId)
    requires Lined(s) && Occurs(s.completed, c)
    ensures c in s.calls && s.calls[c].pc == Accepted
  {
    var i :| 0 <= i < |s.completed| && s.completed[i] == c;
    assert s.accepted[i] == c;
  }

  lemma {:induction false} HandIsNotQueued(s: State)
    requires Lined(s) && !s.worker.Waiting?
    ensures !Occurs(s.queue, s.worker.c)
  {
    var n := |s.completed|;
    forall i | 0 <= i < |s.queue| ensures s.queue[i] != s.worker.c {
      assert s.accepted[n] == s.worker.c && s.accepted[n + 1 + i] == s.queue[i];
    }
  }

  lemma {:induction false} PlaceOf(s: State, c: CallId)
    requires Lined(s) && c in s.calls && s.calls[c].pc == Accepted
    ensures Occurs(s.completed, c) || Occurs(InHand(s.worker) + s.queue, c)
  {
    var n, rest := |s.completed|, InHand(s.worker) + s.queue;
    var i :| 0 <= i < |s.accepted| && s.accepted[i] == c;
    if i < n { assert s.completed[i] == c; } else { assert rest[i - n] == c; }
  }

  /** What the worker holds and what is queued is not completed. */
  lemma {:induction false} PendingNotCompleted(s: State, c: CallId)
    requires Lined(s)
    ensures Occurs(InHand(s.worker) + s.queue, c) ==> !Occurs(s.completed, c) && c in s.calls && s.calls[c].pc == Accepted
    ensures Occurs(s.completed, c) ==> c in s.calls && s.calls[c].pc == Accepted
    ensures !s.worker.Waiting? ==> !Occurs(s.queue, s.worker.c)
    ensures c in s.calls && s.calls[c].pc == Accepted ==> Occurs(s.completed, c) || Occurs(InHand(s.worker) + s.queue, c)
  {
    hide Occurs;
    if Occurs(InHand(s.worker) + s.queue, c) { PendingIsAccepted(s, c); }
    if Occurs(s.completed, c) { CompletedIsAccepted(s, c); }
    if !s.worker.Waiting? { HandIsNotQueued(s); }
    if c in s.calls && s.calls[c].pc == Accepted { PlaceOf(s, c); }
  }

  predicate IsAccepted(s: State, c: CallId) {
    c in s.calls && s.calls[c].pc == Accepted
  }

  lemma {:induction false} LinedFrame(s: State, s': State)
    requires Lined(s) && s'.accepted == s.accepted && |s'.queue| <= QUEUE_SIZE
    requires s'.accepted == Line(s'.completed, s'.worker, s'.queue)
    requires forall c :: IsAccepted(s', c) <==> IsAccepted(s, c)
    ensures Lined(s')
  {
    assert forall i | 0 <= i < |s.accepted| :: IsAccepted(s, s.accepted[i]);
    forall c | c in s'.calls && s'.calls[c].pc == Accepted ensures Occurs(s'.accepted, c) {
      assert IsAccepted(s', c);
    }
  }

  lemma {:induction false} AcceptKeepsLine(completed: seq<CallId>, w: Worker, queue: seq<CallId>, c: CallId)
    ensures Line(completed, w, queue + [c]) == Line(completed, w, queue) + [c]
  {
  }

  lemma {:induction false} LinedSelect(s: State, c: CallId)
    requires Lined(s) && c in s.calls && s.calls[c].pc == Missed && |s.queue| < QUEUE_SIZE
    ensures Lined(Goto(s, c, Accepted).(queue := s.queue + [c], accepted := s.accepted + [c]))
  {
    hide Line, Occurs;
    var s' := Goto(s, c, Accepted).(queue := s.queue + [c], accepted := s.accepted + [c]);
    forall i | 0 <= i < |s.accepted| ensures s.accepted[i] != c { assert s.calls[s.accepted[i]].pc == Accepted; }
    AcceptKeepsLine(s.completed, s.worker, s.queue, c);
    forall d | d in s'.calls && s'.calls[d].pc == Accepted ensures Occurs(s'.accepted, d) {
      OccursInLonger(s.accepted, c, d);
    }
  }

  lemma {:induction false} TakeKeepsLine(completed: seq<CallId>, queue: seq<CallId>)
    requires queue != []
    ensures Line(completed, Querying(queue[0]), queue[1..]) == Line(completed, Waiting, queue)
  {
  }

  lemma {:induction false} CompletionKeepsLine(completed: seq<CallId>, w: Worker, queue: seq<CallId>)
    requires !w.Waiting?
    ensures Line(completed + [w.c], Waiting, queue) == Line(completed, w, queue)
  {
  }

  lemma {:induction false} LineOfSameHand(completed: seq<CallId>, w: Worker, v: Worker, queue: seq<CallId>)
    requires InHand(w) == InHand(v)
    ensures Line(completed, w, queue) == Line(completed, v, queue)
  {
  }

  /** Every step but a successful select moves calls along the line without changing it. */
  lemma {:induction false} StepKeepsLine(s: State, a: Action)
    requires Enabled(s, a) && (a.Select? ==> s.queueClosed || |s.queue| >= QUEUE_SIZE)
    ensures var s' := Step(s, a);
      Line(s'.completed, s'.worker, s'.queue) == Line(s.completed, s.worker, s.queue) && s'.accepted == s.accepted
      && |s'.queue| <= |s.queue|
  {
    hide HasRoom;
    match a
    case Take => TakeKeepsLine(s.completed, s.queue);
    case CloseReply => CompletionKeepsLine(s.completed, s.worker, s.queue);
    case _ => LineOfSameHand(s.completed, s.worker, Step(s, a).worker, s.queue);
  }

  lemma {:induction false} StepKeepsAccepted(s: State, a: Action, c: CallId)
    requires Enabled(s, a) && (a.Select? ==> s.queueClosed || |s.queue| >= QUEUE_SIZE)
    ensures IsAccepted(Step(s, a), c) <==> IsAccepted(s, c)
  {
    hide HasRoom;
  }

  lemma {:induction false} StepKeepsLined(s: State, a: Action)
    requires Lined(s)
    ensures Lined(Step(s, a))
  {
    if Enabled(s, a) {
      if a.Select? && !s.queueClosed && |s.queue| < QUEUE_SIZE {
        LinedSelect(s, a.c);
      } else {
        StepKeepsLine(s, a);
        forall c { StepKeepsAccepted(s, a, c); }
        LinedFrame(s, Step(s, a));
      }
    }
  }

  /** Who may use the channel of c: the channel is open, and nothing is in it before its one send. */
  lemma {:induction false} OpenWhileOwned(s: State, c: CallId)
    requires Lined(s) && ClosedWhenDone(s) && AtMostOneValue(s) && c in s.calls
    ensures c in s.chans
    ensures WithGet(s.calls[c].pc) ==> !s.chans[c].closed && !Occurs(s.completed, c) && c !in InHand(s.worker)
    ensures WithGet(s.calls[c].pc) && !s.calls[c].pc.HitSent? ==> s.chans[c] == Chan([], false, [])
    ensures c in InHand(s.worker) ==> !s.chans[c].closed && !Occurs(s.completed, c) && s.calls[c].pc == Accepted
    ensures c in InHand(s.worker) && !s.worker.Sent? ==> s.chans[c] == Chan([], false, [])
  {
    PendingNotCompleted(s, c);
    if c in InHand(s.worker) {
      assert (InHand(s.worker) + s.queue)[0] == c;
    }
  }

  // The call whose channel or state an action is about
  function Subject(s: State, a: Action): seq<CallId> {
    match a
    case Get(c, _) => [c]
    case Lookup(c) => [c]
    case SendHit(c) => [c]
    case Select(c) => [c]
    case CloseOwn(c) => [c]
    case Receive(c) => [c]
    case Take => []
    case Evict(_) => []
    case Close => []
    case _ => InHand(s.worker)
  }

  /** A step leaves every call but its subject as it was. */
  lemma {:induction false} OthersUnchanged(s: State, a: Action, c: CallId)
    requires Lined(s) && Enabled(s, a) && c !in Subject(s, a)
    ensures c in Step(s, a).calls <==> c in s.calls
    ensures c in Step(s, a).chans <==> c in s.chans
    ensures c in s.calls ==> Step(s, a).calls[c] == s.calls[c]
    ensures c in s.chans ==> Step(s, a).chans[c] == s.chans[c]
    ensures Occurs(Step(s, a).completed, c) <==> Occurs(s.completed, c)
  {
    hide HasRoom, Lined, Occurs;
    if a.CloseReply? { OccursInLonger(s.completed, s.worker.c, c); }
  }

  lemma {:induction false} ClosedFor(s: State, a: Action, c: CallId)
    requires Inv(s) && Enabled(s, a) && c in Step(s, a).calls
    ensures c in Step(s, a).chans
    ensures Step(s, a).chans[c].closed <==> Step(s, a).calls[c].pc.Done? || Occurs(Step(s, a).completed, c)
  {
    hide HasRoom, Sourced, CacheAgrees, Lined;
    if c in Subject(s, a) {
      PendingNotCompleted(s, c);
      if c in s.calls { OpenWhileOwned(s, c); }
      if a.CloseReply? { OccursInLonger(s.completed, s.worker.c, c); }
    } else {
      OthersUnchanged(s, a, c);
    }
  }

  lemma {:induction false} StepKeepsClosed(s: State, a: Action)
    requires Inv(s)
    ensures ClosedWhenDone(Step(s, a))
  {
    hide Sourced, CacheAgrees, AtMostOneValue, HasRoom;
    if Enabled(s, a) {
      var s' := Step(s, a);
      assert s'.chans.Keys == s'.calls.Keys by {
        if a.CloseReply? { assert (InHand(s.worker) + s.queue)[0] == s.worker.c; PendingNotCompleted(s, s.worker.c); }
        if a.SendReply? { assert (InHand(s.worker) + s.queue)[0] == s.worker.c; PendingNotCompleted(s, s.worker.c); }
      }
      forall c | c in s'.calls { ClosedFor(s, a, c); }
    }
  }

  /** No send or close on a response channel panics. */
  lemma {:induction false} StepUsesChannelsWell(s: State, a: Action)
    requires Inv(s)
    ensures ChannelsUsedWell(Step(s, a))
  {
    hide HasRoom, Lined, Sourced, CacheAgrees, AtMostOneValue, ClosedWhenDone;
    if Enabled(s, a) {
      match a
      case SendHit(c) => OpenWhileOwned(s, c);
      case CloseOwn(c) => OpenWhileOwned(s, c);
      case SendReply => HandIsCall(s); OpenWhileOwned(s, s.worker.c);
      case CloseReply => HandIsCall(s); OpenWhileOwned(s, s.worker.c);
      case _ =>
    }
  }

  lemma {:induction false} HandIsCall(s: State)
    requires Lined(s) && !s.worker.Waiting?
    ensures s.worker.c in s.calls && s.calls[s.worker.c].pc == Accepted
  {
    assert (InHand(s.worker) + s.queue)[0] == s.worker.c;
    PendingNotCompleted(s, s.worker.c);
  }

  lemma {:induction false} ValuesFor(s: State, a: Action, c: CallId)
    requires Inv(s) && Enabled(s, a) && c in Step(s, a).calls && c in Step(s, a).chans
    ensures var ch := Step(s, a).chans[c];
      |ch.buf| + |ch.received| <= if Untouched(Step(s, a), c) then 0 else 1
  {
    hide HasRoom, Sourced, CacheAgrees, Lined;
    if c in Subject(s, a) {
      PendingNotCompleted(s, c);
      if c in s.calls { OpenWhileOwned(s, c); }
      if a.CloseReply? { OccursInLonger(s.completed, s.worker.c, c); }
    } else {
      OthersUnchanged(s, a, c);
      assert c in s.calls && c in s.chans;
      UntouchedFrame(s, a, c);
    }
  }

  lemma {:induction false} UntouchedFrame(s: State, a: Action, c: CallId)
    requires Inv(s) && Enabled(s, a) && c !in Subject(s, a) && c in s.calls
    ensures c in Step(s, a).calls && (Untouched(Step(s, a), c) ==> Untouched(s, c))
  {
    hide HasRoom, Sourced, CacheAgrees, Lined;
    OthersUnchanged(s, a, c);
  }

  lemma {:induction false} StepKeepsValues(s: State, a: Action)
    requires Inv(s)
    ensures AtMostOneValue(Step(s, a))
  {
    if Enabled(s, a) {
      forall c | c in Step(s, a).calls && c in Step(s, a).chans { ValuesFor(s, a, c); }
    }
  }

  lemma {:induction false} LastResultStep(results: seq<(Peer, Reply)>, r: (Peer, Reply), p: Peer)
    ensures LastResult(results + [r], p) == if r.0 == p then Instruments.Some(r.1) else LastResult(results, p)
  {
  }

  lemma {:induction false} CacheTouched(s: State, a: Action)
    ensures !a.Store? && !a.Evict? ==> Step(s, a).cache == s.cache
    ensures !a.Store? ==> Step(s, a).results == s.results
  {
    hide HasRoom;
  }

  lemma {:induction false} StoreKeepsCache(s: State, evicted: set<Peer>)
    requires CacheAgrees(s) && Enabled(s, Store(evicted))
    ensures CacheAgrees(Step(s, Store(evicted)))
  {
    hide HasRoom;
    var s' := Step(s, Store(evicted));
    var r := s'.results[|s.results|];
    forall p | p in s'.cache ensures LastResult(s'.results, p) == Instruments.Some(s'.cache[p]) {
      LastResultStep(s.results, r, p);
    }
  }

  lemma {:induction false} StepKeepsCache(s: State, a: Action)
    requires CacheAgrees(s)
    ensures CacheAgrees(Step(s, a))
  {
    hide HasRoom, LastResult;
    if Enabled(s, a) && a.Store? {
      StoreKeepsCache(s, a.evicted);
    } else {
      CacheTouched(s, a);
      if a.Evict? { SmallerCache(s.cache, a.peer); }
    }
  }

  lemma {:induction false} SmallerCache(cache: map<Peer, Reply>, p: Peer)
    ensures HasRoom(cache) ==> HasRoom(cache - {p})
  {
  }

  lemma {:induction false} LastResultIsResult(results: seq<(Peer, Reply)>, p: Peer)
    ensures LastResult(results, p).Some? ==> IsResult(results, p, LastResult(results, p).value)
  {
    if results != [] {
      if results[|results| - 1].0 == p {
        assert results[|results| - 1] == (p, LastResult(results, p).value);
      } else {
        LastResultIsResult(results[..|results| - 1], p);
        if LastResult(results, p).Some? {
          var k :| 0 <= k < |results| - 1 && results[..|results| - 1][k] == (p, LastResult(results, p).value);
          assert results[k] == (p, LastResult(results, p).value);
        }
      }
    }
  }

  lemma {:induction false} ResultsGrow(results: seq<(Peer, Reply)>, more: seq<(Peer, Reply)>, p: Peer, vals: Reply, v: string)
    requires results <= more
    ensures IsResult(results, p, vals) ==> IsResult(more, p, vals)
    ensures HeadOfResult(results, p, v) ==> HeadOfResult(more, p, v)
    ensures IsResult(more, p, vals) && vals != [] ==> HeadOfResult(more, p, vals[0])
  {
  }

  lemma {:induction false} ResultsOnlyGrow(s: State, a: Action)
    ensures s.results <= Step(s, a).results
  {
  }

  lemma {:induction false} SourcedFor(s: State, a: Action, c: CallId, v: string)
    requires Inv(s) && Enabled(s, a) && c in Step(s, a).calls && c in Step(s, a).chans
    ensures var s' := Step(s, a);
      && (s'.calls[c].pc.Hit? ==> IsResult(s'.results, s'.calls[c].peer, s'.calls[c].pc.vals))
      && (v in s'.chans[c].buf + s'.chans[c].received ==> HeadOfResult(s'.results, s'.calls[c].peer, v))
  {
    hide HasRoom, Lined, ClosedWhenDone, AtMostOneValue, HeadOfResult, IsResult;
    if c in Subject(s, a) {
      SubjectSourced(s, a, c, v);
    } else {
      OthersUnchanged(s, a, c);
      ResultsOnlyGrow(s, a);
      ResultsGrow(s.results, Step(s, a).results, s.calls[c].peer, if s.calls[c].pc.Hit? then s.calls[c].pc.vals else [], v);
    }
  }

  lemma {:induction false} LookupSourced(s: State, c: CallId, v: string)
    requires Inv(s) && Enabled(s, Lookup(c)) && c in s.chans
    ensures var s' := Step(s, Lookup(c));
      && (s'.calls[c].pc.Hit? ==> IsResult(s'.results, s'.calls[c].peer, s'.calls[c].pc.vals))
      && (v in s'.chans[c].buf + s'.chans[c].received ==> HeadOfResult(s'.results, s'.calls[c].peer, v))
  {
    hide HasRoom, Lined, ClosedWhenDone, AtMostOneValue, HeadOfResult, IsResult, LastResult;
    LastResultIsResult(s.results, s.calls[c].peer);
  }

  lemma {:induction false} ReplySourced(s: State, c: CallId, v: string)
    requires Inv(s) && Enabled(s, SendReply) && c == s.worker.c && c in s.calls && c in s.chans
    requires c in Step(s, SendReply).chans && c in Step(s, SendReply).calls
    ensures var s' := Step(s, SendReply);
      && (s'.calls[c].pc.Hit? ==> IsResult(s'.results, s'.calls[c].peer, s'.calls[c].pc.vals))
      && (v in s'.chans[c].buf + s'.chans[c].received ==> HeadOfResult(s'.results, s'.calls[c].peer, v))
  {
    hide HasRoom, Lined, ClosedWhenDone, AtMostOneValue, CacheAgrees, HeadOfResult, IsResult;
    HandIsCall(s);
    ResultsGrow(s.results, s.results, s.calls[c].peer, s.worker.reply, v);
  }

  lemma {:induction false} SubjectSourced(s: State, a: Action, c: CallId, v: string)
    requires Inv(s) && Enabled(s, a) && c in Step(s, a).calls && c in Step(s, a).chans && c in Subject(s, a)
    ensures var s' := Step(s, a);
      && (s'.calls[c].pc.Hit? ==> IsResult(s'.results, s'.calls[c].peer, s'.calls[c].pc.vals))
      && (v in s'.chans[c].buf + s'.chans[c].received ==> HeadOfResult(s'.results, s'.calls[c].peer, v))
  {
    hide HasRoom, Lined, AtMostOneValue, CacheAgrees, Sourced, HeadOfResult, IsResult, Step, CanSend;
    if a.Lookup? {
      LookupSourced(s, c, v);
    } else if a.SendReply? {
      HandIsCall(s);
      ReplySourced(s, c, v);
    } else {
      OtherSubjectSourced(s, a, c, v);
    }
  }

  lemma {:induction false} OtherSubjectSourced(s: State, a: Action, c: CallId, v: string)
    requires Inv(s) && Enabled(s, a) && c in Step(s, a).calls && c in Step(s, a).chans && c in Subject(s, a)
    requires !a.Lookup? && !a.SendReply?
    ensures var s' := Step(s, a);
      && (s'.calls[c].pc.Hit? ==> IsResult(s'.results, s'.calls[c].peer, s'.calls[c].pc.vals))
      && (v in s'.chans[c].buf + s'.chans[c].received ==> HeadOfResult(s'.results, s'.calls[c].peer, v))
  {
    hide HasRoom, Lined, AtMostOneValue, CacheAgrees, HeadOfResult, IsResult;
    if c in s.calls {
      var peer := s.calls[c].peer;
      ResultsOnlyGrow(s, a);
      assert c in s.chans ==> v in s.chans[c].buf + s.chans[c].received ==> HeadOfResult(s.results, peer, v);
      ResultsGrow(s.results, Step(s, a).results, peer, if s.calls[c].pc.Hit? then s.calls[c].pc.vals else [], v);
    }
  }

  lemma {:induction false} StepKeepsSourced(s: State, a: Action)
    requires Inv(s)
    ensures Sourced(Step(s, a))
  {
    if Enabled(s, a) {
      var s' := Step(s, a);
      forall c, v | c in s'.calls && c in s'.chans { SourcedFor(s, a, c, v); }
      StepKeepsClosed(s, a);
      assert forall c | c in s'.calls :: c in s'.chans;
      forall c | c in s'.calls && s'.calls[c].pc.Hit? { SourcedFor(s, a, c, ""); }
      if s'.worker.Stored? && s'.worker.c in s'.calls {
        HandIsCall(s);
        StoredSourced(s, a);
      }
    }
  }

  lemma {:induction false} PeersFixed(s: State, a: Action, c: CallId)
    requires c in s.calls
    ensures c in Step(s, a).calls && Step(s, a).calls[c].peer == s.calls[c].peer
  {
    hide HasRoom;
  }

  lemma {:induction false} OnlyStoreStores(s: State, a: Action)
    ensures Step(s, a).worker.Stored? ==> Step(s, a).worker == s.worker || (a.Store? && Enabled(s, a))
  {
  }

  lemma {:induction false} StoredSourced(s: State, a: Action)
    requires Inv(s) && Enabled(s, a) && Step(s, a).worker.Stored? && Step(s, a).worker.c in Step(s, a).calls
    ensures var s' := Step(s, a); IsResult(s'.results, s'.calls[s'.worker.c].peer, s'.worker.reply)
  {
    var s' := Step(s, a);
    OnlyStoreStores(s, a);
    if s'.worker == s.worker {
      HandIsCall(s);
      PeersFixed(s, a, s.worker.c);
      ResultsOnlyGrow(s, a);
      ResultsGrow(s.results, s'.results, s.calls[s.worker.c].peer, s.worker.reply, "");
    } else {
      assert s'.results[|s.results|] == (s'.calls[s'.worker.c].peer, s'.worker.reply);
    }
  }

  /** Every step keeps the invariant, whoever takes it. */
  lemma {:induction false} StepKeepsInv(s: State, a: Action)
    requires Inv(s)
    ensures Inv(Step(s, a))
  {
    StepKeepsLined(s, a);
    StepKeepsClosed(s, a);
    StepKeepsValues(s, a);
    StepKeepsCache(s, a);
    StepKeepsSourced(s, a);
    StepUsesChannelsWell(s, a);
  }

  lemma {:induction false} RunKeepsInv(s: State, actions: seq<Action>)
    requires Inv(s)
    ensures Inv(Run(s, actions))
  {
    if actions != [] {
      RunKeepsInv(s, actions[..|actions| - 1]);
      StepKeepsInv(Run(s, actions[..|actions| - 1]), actions[|actions| - 1]);
    }
  }

  // ---------- what the channels carry ----------

  /** All that has been sent to c, received by now or not. */
  function Content(s: State, c: CallId): seq<string>
    requires c in s.chans
  {
    s.chans[c].received + s.chans[c].buf
  }

  // What the cache held for a call that found its peer there, once it has looked
  function Found(pc: Pc): Instruments.Option<Reply> {
    match pc
    case Hit(vals) => Instruments.Some(vals)
    case HitSent(vals) => Instruments.Some(vals)
    case Done(found) => found
    case _ => Instruments.None
  }

  /** What Get itself has sent. */
  function OwnValue(pc: Pc): seq<string> {
    if pc.HitSent? || pc.Done? then (if Found(pc).Some? then Head(Found(pc).value) else []) else []
  }

  predicate OwnDelivered(s: State, c: CallId)
    requires c in s.calls
  {
    && c in s.chans
    && (!s.calls[c].pc.Accepted? ==> Content(s, c) == OwnValue(s.calls[c].pc))
    && s.calls[c].seen <= |s.results|
    && (Found(s.calls[c].pc).Some? ==>
          LastResult(s.results[..s.calls[c].seen], s.calls[c].peer) == Found(s.calls[c].pc))
  }

  /** The k-th result is that of the k-th completed call, which carries its head. */
  predicate ReplyDelivered(s: State, k: nat)
    requires k < |s.completed|
  {
    var c := s.completed[k];
    c in s.calls && c in s.chans && k < |s.results| && s.results[k].0 == s.calls[c].peer && Content(s, c) == Head(s.results[k].1)
  }

  /** The call in hand, once its reply is cached: the reply is the last result, and has been sent, if it was. */
  predicate HandDelivered(s: State) {
    if s.worker.Stored? || s.worker.Sent? then
      && |s.results| == |s.completed| + 1
      && s.worker.c in s.calls && s.worker.c in s.chans
      && var r := s.results[|s.completed|];
        && r.0 == s.calls[s.worker.c].peer
        && (s.worker.Stored? ==> r.1 == s.worker.reply)
        && (s.worker.Sent? ==> Content(s, s.worker.c) == Head(r.1))
    else |s.results| == |s.completed|
  }

  ghost predicate Delivers(s: State) {
    && (forall c | c in s.calls :: OwnDelivered(s, c))
    && (forall k | 0 <= k < |s.completed| :: ReplyDelivered(s, k))
    && HandDelivered(s)
  }

  lemma {:induction false} ReceiveKeepsContent(s: State, c: CallId)
    requires Enabled(s, Receive(c))
    ensures Content(Step(s, Receive(c)), c) == Content(s, c)
  {
  }

  lemma {:induction false} PrefixKept(s: State, a: Action, n: nat)
    requires n <= |s.results|
    ensures n <= |Step(s, a).results| && Step(s, a).results[..n] == s.results[..n]
  {
    ResultsOnlyGrow(s, a);
  }

  lemma {:induction false} OtherOwnDelivered(s: State, a: Action, c: CallId)
    requires Inv(s) && Delivers(s) && Enabled(s, a) && c in s.calls && c !in Subject(s, a)
    ensures c in Step(s, a).calls && OwnDelivered(Step(s, a), c)
  {
    hide HasRoom, Lined, Sourced, ClosedWhenDone, AtMostOneValue, LastResult, CacheAgrees, Subject, Step, Enabled, OwnValue, Found;
    assert OwnDelivered(s, c);
    PrefixKept(s, a, s.calls[c].seen);
    OthersUnchanged(s, a, c);
  }

  lemma {:induction false} LookupOwnDelivered(s: State, c: CallId)
    requires Inv(s) && Delivers(s) && Enabled(s, Lookup(c))
    ensures OwnDelivered(Step(s, Lookup(c)), c)
  {
    hide HasRoom, Lined, Sourced, ClosedWhenDone, AtMostOneValue, LastResult;
    assert OwnDelivered(s, c);
    assert s.results[..|s.results|] == s.results;
  }

  // Get still has the channel of c to itself, and c carries what it should
  predicate OwnedDelivered(s: State, c: CallId) {
    && c in s.calls && c in s.chans && !s.chans[c].closed && OwnDelivered(s, c)
    && (!s.calls[c].pc.HitSent? ==> s.chans[c] == Chan([], false, []))
  }

  lemma {:induction false} HitOwnDelivered(s: State, c: CallId)
    requires OwnedDelivered(s, c) && Enabled(s, SendHit(c))
    ensures c in Step(s, SendHit(c)).calls && OwnDelivered(Step(s, SendHit(c)), c)
  {
    hide LastResult;
  }

  lemma {:induction false} SelectOwnDelivered(s: State, c: CallId)
    requires OwnedDelivered(s, c) && Enabled(s, Select(c))
    ensures c in Step(s, Select(c)).calls && OwnDelivered(Step(s, Select(c)), c)
  {
    hide LastResult;
  }

  lemma {:induction false} CloseOwnDelivered(s: State, c: CallId)
    requires OwnedDelivered(s, c) && Enabled(s, CloseOwn(c))
    ensures c in Step(s, CloseOwn(c)).calls && OwnDelivered(Step(s, CloseOwn(c)), c)
  {
    hide LastResult;
  }

  lemma {:induction false} WorkerOwnDelivered(s: State, a: Action, c: CallId)
    requires Inv(s) && Delivers(s) && Enabled(s, a) && c in InHand(s.worker) && Subject(s, a) == [c] && !a.Receive?
    requires c in s.calls && s.calls[c].pc == Accepted
    ensures c in Step(s, a).calls && OwnDelivered(Step(s, a), c)
  {
    hide HasRoom, Lined, Sourced, ClosedWhenDone, AtMostOneValue, LastResult, CacheAgrees, Content, OwnValue;
    assert OwnDelivered(s, c);
    PrefixKept(s, a, s.calls[c].seen);
    OpenWhileOwned(s, c);
  }

  lemma {:induction false} OwnDeliveredAfter(s: State, a: Action, c: CallId)
    requires Inv(s) && Delivers(s) && Enabled(s, a) && c in Step(s, a).calls
    ensures OwnDelivered(Step(s, a), c)
  {
    hide HasRoom, Lined, Sourced, ClosedWhenDone, AtMostOneValue, LastResult, CacheAgrees;
    if c !in Subject(s, a) {
      OthersUnchanged(s, a, c);
      OtherOwnDelivered(s, a, c);
    } else {
      match a
      case Get(_, _) =>
      case Receive(_) => assert OwnDelivered(s, c); ReceiveKeepsContent(s, c);
      case Lookup(_) => LookupOwnDelivered(s, c);
      case SendHit(_) => OpenWhileOwned(s, c); HitOwnDelivered(s, c);
      case Select(_) => OpenWhileOwned(s, c); SelectOwnDelivered(s, c);
      case CloseOwn(_) => OpenWhileOwned(s, c); CloseOwnDelivered(s, c);
      case _ => HandIsCallIf(s); WorkerOwnDelivered(s, a, c);
    }
  }

  lemma {:induction false} HandIsCallIf(s: State)
    requires Lined(s)
    ensures !s.worker.Waiting? ==> s.worker.c in s.calls && s.calls[s.worker.c].pc == Accepted
  {
    if !s.worker.Waiting? { HandIsCall(s); }
  }

  /** What an accepted call carries changes only when the worker sends to it. */
  lemma {:induction false} AcceptedUntouched(s: State, a: Action, c: CallId)
    requires Inv(s) && Enabled(s, a) && c in s.calls && s.calls[c].pc == Accepted && c in s.chans
    requires a.SendReply? ==> c !in InHand(s.worker)
    ensures var s' := Step(s, a);
      c in s'.calls && c in s'.chans && s'.calls[c] == s.calls[c] && Content(s', c) == Content(s, c)
  {
    hide HasRoom, Lined, Sourced, ClosedWhenDone, AtMostOneValue, LastResult, CacheAgrees;
    if c !in Subject(s, a) {
      OthersUnchanged(s, a, c);
    } else if a.Receive? {
      ReceiveKeepsContent(s, c);
    }
  }

  lemma {:induction false} ReplyDeliveredAfter(s: State, a: Action, k: nat)
    requires Inv(s) && Delivers(s) && Enabled(s, a) && k < |s.completed|
    ensures k < |Step(s, a).completed| && ReplyDelivered(Step(s, a), k)
  {
    hide HasRoom, Lined, Sourced, ClosedWhenDone, AtMostOneValue, LastResult, CacheAgrees, Content, Head, Step;
    var c := s.completed[k];
    assert ReplyDelivered(s, k);
    PendingNotCompleted(s, c);
    OpenWhileOwned(s, c);
    AcceptedUntouched(s, a, c);
    LinesOnlyGrow(s, a);
    ResultsOnlyGrow(s, a);
  }

  lemma {:induction false} HandDeliveredAfter(s: State, a: Action)
    requires Inv(s) && Delivers(s) && Enabled(s, a) && !a.CloseReply? && !a.SendReply? && !a.Store?
    ensures HandDelivered(Step(s, a))
  {
    hide HasRoom, Lined, Sourced, ClosedWhenDone, AtMostOneValue, LastResult, CacheAgrees, Content, Head;
    if s.worker.Stored? || s.worker.Sent? {
      HandIsCall(s);
      AcceptedUntouched(s, a, s.worker.c);
    }
  }

  lemma {:induction false} StoreDelivers(s: State, evicted: set<Peer>)
    requires Inv(s) && Delivers(s) && Enabled(s, Store(evicted))
    ensures HandDelivered(Step(s, Store(evicted)))
  {
    hide HasRoom, Lined, Sourced, ClosedWhenDone, AtMostOneValue, LastResult, CacheAgrees, Content, Head;
    HandIsCall(s);
    OpenWhileOwned(s, s.worker.c);
  }

  lemma {:induction false} SendDelivers(s: State)
    requires Inv(s) && Delivers(s) && Enabled(s, SendReply)
    ensures HandDelivered(Step(s, SendReply))
  {
    hide HasRoom, Lined, Sourced, ClosedWhenDone, AtMostOneValue, LastResult, CacheAgrees;
    HandIsCall(s);
    OpenWhileOwned(s, s.worker.c);
  }

  /** The call the worker is done with carries the head of its own reply. */
  lemma {:induction false} CloseDelivers(s: State)
    requires Inv(s) && Delivers(s) && Enabled(s, CloseReply)
    ensures var s' := Step(s, CloseReply);
      HandDelivered(s') && |s'.completed| == |s.completed| + 1 && ReplyDelivered(s', |s.completed|)
  {
    hide HasRoom, Lined, Sourced, ClosedWhenDone, AtMostOneValue, LastResult, CacheAgrees;
    HandIsCall(s);
    OpenWhileOwned(s, s.worker.c);
  }

  lemma {:induction false} StepKeepsDelivers(s: State, a: Action)
    requires Inv(s) && Delivers(s)
    ensures Delivers(Step(s, a))
  {
    hide Inv, Step, OwnDelivered, ReplyDelivered, HandDelivered, HasRoom, CanSend;
    var s' := Step(s, a);
    Unchanged(s, a);
    if Enabled(s, a) {
      forall c | c in s'.calls { OwnDeliveredAfter(s, a, c); }
      LinesOnlyGrow(s, a);
      forall k | 0 <= k < |s'.completed| ensures ReplyDelivered(s', k) {
        if k < |s.completed| { ReplyDeliveredAfter(s, a, k); } else { CloseDelivers(s); }
      }
      match a
      case CloseReply => CloseDelivers(s);
      case SendReply => SendDelivers(s);
      case Store(evicted) => StoreDelivers(s, evicted);
      case _ => HandDeliveredAfter(s, a);
    }
  }

  lemma {:induction false} Unchanged(s: State, a: Action)
    ensures !Enabled(s, a) ==> Step(s, a) == s
  {
    hide Enabled;
  }

  lemma {:induction false} RunDelivers(s: State, actions: seq<Action>)
    requires Inv(s) && Delivers(s)
    ensures Delivers(Run(s, actions))
  {
    hide Inv, Delivers, Step;
    if actions != [] {
      var front := actions[..|actions| - 1];
      RunDelivers(s, front);
      RunKeepsInv(s, front);
      StepKeepsDelivers(Run(s, front), actions[|actions| - 1]);
    }
  }

  // ---------- theorems ----------

  lemma {:induction false} Reachable(actions: seq<Action>)
    ensures Inv(Run(INIT, actions)) && Delivers(Run(INIT, actions))
  {
    hide Run;
    RunKeepsInv(INIT, actions);
    RunDelivers(INIT, actions);
  }

  /**
   Response channels, in every interleaving: none is sent to after it is closed
   or closed twice, a send never waits, and no channel ever carries more than
   one value. The queue never holds more than ten calls, the cache never more
   than its size.
   */
  lemma {:induction false} ResponseChannelsAreSafe(actions: seq<Action>, c: CallId)
    ensures var s := Run(INIT, actions);
      && s.fault != SendOnClosedChannel && s.fault != CloseOfClosedChannel
      && |s.queue| <= 10 && |s.cache| <= 10_000
      && (s.worker.Stored? ==> s.worker.c in s.chans && s.chans[s.worker.c] == Chan([], false, []))
      && (c in s.calls && s.calls[c].pc.Hit? ==> c in s.chans && s.chans[c] == Chan([], false, []))
      && (c in s.chans ==> |s.chans[c].buf| + |s.chans[c].received| <= 1)
  {
    Reachable(actions);
    var s := Run(INIT, actions);
    if s.worker.Stored? {
      HandIsCall(s);
      OpenWhileOwned(s, s.worker.c);
    }
    if c in s.calls {
      OpenWhileOwned(s, c);
    }
  }

  /**
   A call that missed the cache is accepted by the open queue if and only if
   fewer than ten calls are waiting there. Otherwise its channel is closed next,
   with nothing in it.
   */
  lemma {:induction false} AcceptedBelowTen(actions: seq<Action>, c: CallId)
    requires var s := Run(INIT, actions); s.fault.NoFault? && c in s.calls && s.calls[c].pc.Missed? && !s.queueClosed
    ensures var s := Run(INIT, actions); var s' := Step(s, Select(c));
      && (if |s.queue| < 10 then s'.calls[c].pc == Accepted && s'.queue == s.queue + [c]
          else s'.queue == s.queue && Enabled(s', CloseOwn(c))
               && var t := Step(s', CloseOwn(c)); c in t.chans && t.chans[c] == Chan([], true, []))
  {
    hide Run, Sourced, CacheAgrees, Delivers;
    Reachable(actions);
    OpenWhileOwned(Run(INIT, actions), c);
  }

  datatype Holder = ByGet | ByQueue | ByWorker | Nobody

  /** Who is to close the channel of c; nobody, once it is closed. */
  predicate Holds(s: State, c: CallId, h: Holder)
    requires c in s.calls && c in s.chans
  {
    match h
    case ByGet => WithGet(s.calls[c].pc)
    case ByQueue => Occurs(s.queue, c)
    case ByWorker => c in InHand(s.worker)
    case Nobody => s.chans[c].closed
  }

  /** A channel is with Get, in the queue, with the worker, or closed: exactly one of these. */
  lemma {:induction false} SingleHolder(actions: seq<Action>, c: CallId)
    requires c in Run(INIT, actions).calls
    ensures c in Run(INIT, actions).chans
    ensures exists h :: Holds(Run(INIT, actions), c, h) && forall g :: Holds(Run(INIT, actions), c, g) ==> g == h
  {
    hide Delivers, Sourced, CacheAgrees, AtMostOneValue, Step, Run;
    Reachable(actions);
    var s := Run(INIT, actions);
    OpenWhileOwned(s, c);
    PendingNotCompleted(s, c);
    var rest := InHand(s.worker) + s.queue;
    var n := |InHand(s.worker)|;
    assert forall i | 0 <= i < |rest| :: rest[i] == if i < n then InHand(s.worker)[i] else s.queue[i - n];
    if Occurs(s.queue, c) {
      var i :| 0 <= i < |s.queue| && s.queue[i] == c;
      assert rest[n + i] == c;
    }
    var h := if WithGet(s.calls[c].pc) then ByGet
             else if Occurs(s.queue, c) then ByQueue
             else if c in InHand(s.worker) then ByWorker else Nobody;
    assert Holds(s, c, h);
    forall g | Holds(s, c, g) ensures g == h {
      match g
      case ByGet =>
      case ByQueue =>
      case ByWorker =>
      case Nobody =>
    }
  }

  /** A cached entry, empty ones too, is the latest result for its peer, so a hit answers as the latest query did. */
  lemma {:induction false} CacheAgreement(actions: seq<Action>, c: CallId)
    ensures var s := Run(INIT, actions);
      && (forall p | p in s.cache :: LastResult(s.results, p) == Instruments.Some(s.cache[p]))
      && (Enabled(s, Lookup(c)) && Step(s, Lookup(c)).calls[c].pc.Hit? ==>
            LastResult(s.results, s.calls[c].peer) == Instruments.Some(Step(s, Lookup(c)).calls[c].pc.vals))
  {
    Reachable(actions);
  }

  /**
   A call answered from the cache: its channel is closed and carries the head of
   what the cache held, which was the latest result for its peer when it looked.
   A rejected call gets a closed channel with nothing in it.
   */
  lemma {:induction false} HitsDeliverTheCachedValue(actions: seq<Action>, c: CallId)
    requires c in Run(INIT, actions).calls && Run(INIT, actions).calls[c].pc.Done?
    ensures var s := Run(INIT, actions); var call := s.calls[c];
      && c in s.chans && s.chans[c].closed
      && (call.pc.found == Instruments.None ==> Content(s, c) == [])
      && (call.pc.found.Some? ==>
            && Content(s, c) == Head(call.pc.found.value)
            && call.seen <= |s.results| && LastResult(s.results[..call.seen], call.peer) == call.pc.found)
  {
    hide Run;
    Reachable(actions);
    assert OwnDelivered(Run(INIT, actions), c);
  }

  /** The k-th completed call: its channel is closed and carries the head of the k-th result, which is for its own peer. */
  lemma {:induction false} CompletedCallsGetTheirReply(actions: seq<Action>, k: nat)
    requires k < |Run(INIT, actions).completed|
    ensures var s := Run(INIT, actions); var c := s.completed[k];
      && c in s.calls && c in s.chans && s.chans[c].closed
      && k < |s.results| && s.results[k].0 == s.calls[c].peer
      && Content(s, c) == Head(s.results[k].1)
  {
    hide Run, Head;
    Reachable(actions);
    var s := Run(INIT, actions);
    assert ReplyDelivered(s, k);
    assert Occurs(s.completed, s.completed[k]);
  }

  /** Whatever is delivered to a caller is the head of a nonempty reply for the caller's own peer. */
  lemma {:induction false} DeliveredValuesAreOwn(actions: seq<Action>, c: CallId, v: string)
    requires var s := Run(INIT, actions); c in s.calls && c in s.chans && v in s.chans[c].received
    ensures HeadOfResult(Run(INIT, actions).results, Run(INIT, actions).calls[c].peer, v)
  {
    Reachable(actions);
    var s := Run(INIT, actions);
    assert v in s.chans[c].buf + s.chans[c].received;
  }

  // ---------- waiting ----------

  lemma {:induction false} LinesOnlyGrow(s: State, a: Action)
    ensures s.accepted <= Step(s, a).accepted && s.completed <= Step(s, a).completed
    ensures |Step(s, a).completed| == |s.completed| + if a.CloseReply? && Enabled(s, a) then 1 else 0
  {
    hide HasRoom;
  }

  lemma {:induction false} LinesOnlyGrowOverRuns(s: State, actions: seq<Action>)
    ensures s.accepted <= Run(s, actions).accepted && s.completed <= Run(s, actions).completed
  {
    if actions != [] {
      LinesOnlyGrowOverRuns(s, actions[..|actions| - 1]);
      LinesOnlyGrow(Run(s, actions[..|actions| - 1]), actions[|actions| - 1]);
    }
  }

  /** How many completions the k-th accepted call still waits for. */
  function Rank(s: State, k: nat): nat {
    if k < |s.completed| then 0 else k + 1 - |s.completed|
  }

  lemma {:induction false} AnsweredWhenRankIsZero(s: State, k: nat)
    requires Inv(s) && k < |s.accepted|
    ensures s.accepted[k] in s.chans && (s.chans[s.accepted[k]].closed <==> Rank(s, k) == 0)
    ensures Rank(s, k) <= 11
  {
    var c, n := s.accepted[k], |s.completed|;
    assert forall i | 0 <= i < n :: s.accepted[i] == s.completed[i];
    if k < n {
      assert s.completed[k] == c;
    } else {
      forall i | 0 <= i < n ensures s.completed[i] != c {
        assert s.accepted[i] != s.accepted[k];
      }
    }
  }

  /**
   The rank of an accepted call is at most 11, falls by one with every
   completion, with no other step, and is 0 exactly when the call is answered.
   Close changes nothing about this.
   */
  lemma {:induction false} RankFallsWithCompletions(actions: seq<Action>, a: Action, k: nat)
    requires k < |Run(INIT, actions).accepted|
    ensures var s := Run(INIT, actions); var s' := Step(s, a);
      && Rank(s, k) <= 11
      && Rank(s', k) == (if a.CloseReply? && Enabled(s, a) && Rank(s, k) > 0 then Rank(s, k) - 1 else Rank(s, k))
      && s.accepted[k] in s.chans && (s.chans[s.accepted[k]].closed <==> Rank(s, k) == 0)
  {
    Reachable(actions);
    var s := Run(INIT, actions);
    AnsweredWhenRankIsZero(s, k);
    LinesOnlyGrow(s, a);
  }

  /**
   Over any continuation, eleven more completions are enough to answer a call
   accepted by now: its channel is closed and carries the head of its own reply.
   Calls are answered in order.
   */
  lemma {:induction false} BoundedWait(actions: seq<Action>, more: seq<Action>, k: nat)
    requires k < |Run(INIT, actions).accepted|
    requires |Run(Run(INIT, actions), more).completed| >= |Run(INIT, actions).completed| + Rank(Run(INIT, actions), k)
    ensures Rank(Run(INIT, actions), k) <= 11
    ensures var c := Run(INIT, actions).accepted[k]; var s' := Run(Run(INIT, actions), more);
      && c in s'.chans && s'.chans[c].closed && k < |s'.completed| && s'.completed[k] == c
      && c in s'.calls && k < |s'.results| && s'.results[k].0 == s'.calls[c].peer && Content(s', c) == Head(s'.results[k].1)
  {
    Reachable(actions);
    var s := Run(INIT, actions);
    RunKeepsInv(s, more);
    RunDelivers(s, more);
    var s' := Run(s, more);
    LinesOnlyGrowOverRuns(s, more);
    AnsweredWhenRankIsZero(s, k);
    assert s'.accepted[k] == s.accepted[k];
    AnsweredWhenRankIsZero(s', k);
    assert s'.accepted[k] == s'.completed[k];
    assert ReplyDelivered(s', k);
  }

  lemma {:induction false} OneEntryFits(cache: map<Peer, Reply>, p: Peer, r: Reply)
    ensures HasRoom((cache - cache.Keys)[p := r])
  {
  }

  // The worker's next step
  function WorkerStep(s: State, reply: Reply): Action {
    match s.worker
    case Waiting => Take
    case Querying(_) => HeyfilReplies(reply)
    case Answered(_, _) => Store(s.cache.Keys)
    case Stored(_, vals) => if vals == [] then CloseReply else SendReply
    case Sent(_) => CloseReply
  }

  /** The worker is never stuck: while work is left it can take its next step, once heyfil has replied, also after Close. */
  lemma {:induction false} WorkerCanProceed(actions: seq<Action>, reply: Reply)
    requires var s := Run(INIT, actions); s.fault.NoFault? && (s.queue != [] || !s.worker.Waiting?)
    ensures Enabled(Run(INIT, actions), WorkerStep(Run(INIT, actions), reply))
  {
    Reachable(actions);
    var s := Run(INIT, actions);
    if !s.worker.Waiting? {
      HandIsCall(s);
      OpenWhileOwned(s, s.worker.c);
      OneEntryFits(s.cache, s.calls[s.worker.c].peer, if s.worker.Answered? then s.worker.reply else []);
    }
  }

  // ---------- Close ----------

  /** A Get that reaches its select after Close, or a second Close. */
  predicate Misuse(s: State, a: Action) {
    s.queueClosed && Enabled(s, a) && (a.Select? || a.Close?)
  }

  ghost predicate Misused(actions: seq<Action>) {
    exists i | 0 <= i < |actions| :: MisuseAt(actions, i)
  }

  predicate MisuseAt(actions: seq<Action>, i: nat)
    requires i < |actions|
  {
    Misuse(Run(INIT, actions[..i]), actions[i])
  }

  lemma {:induction false} MisusedStep(front: seq<Action>, a: Action)
    ensures Misused(front + [a]) <==> Misused(front) || Misuse(Run(INIT, front), a)
  {
    var actions, n := front + [a], |front|;
    assert actions[..n] == front;
    assert MisuseAt(actions, n) <==> Misuse(Run(INIT, front), a);
    forall i | 0 <= i < n ensures MisuseAt(actions, i) <==> MisuseAt(front, i) {
      assert actions[..i] == front[..i];
    }
  }

  lemma {:induction false} FaultOfStep(s: State, a: Action)
    requires Inv(s)
    ensures Step(s, a).fault != NoFault <==> s.fault != NoFault || Misuse(s, a)
  {
    hide Inv;
    StepUsesChannelsWell(s, a);
  }

  /** A run ends in a panic if and only if some step of it was such a misuse. */
  lemma {:induction false} PanicsExactlyOnMisuse(actions: seq<Action>)
    ensures Run(INIT, actions).fault != NoFault <==> Misused(actions)
  {
    if actions != [] {
      var front, a := actions[..|actions| - 1], actions[|actions| - 1];
      assert actions == front + [a];
      PanicsExactlyOnMisuse(front);
      MisusedStep(front, a);
      Reachable(front);
      FaultOfStep(Run(INIT, front), a);
    }
  }
}
