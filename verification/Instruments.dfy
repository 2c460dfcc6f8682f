/**
 The instruments of metrics/metrics.go. A counter is read as the number of
 Add calls made on it, a histogram as the values recorded in it, so the state
 of all instruments is one sequence of emissions.
 */
module Instruments {
  datatype Option<+T> = None | Some(value: T)

  datatype ErrorKind =
    | Rejected | TooMany | ACL | Maintenance | NoOnline | Unconfirmed | Timeout | Other
    | NoUnsealed | DAGStore | Graphsync | Datatransfer | FailedToDial
    | HttpRemoteRequestNotFound | HttpRemoteRequestGone | HttpRemoteRequestFailed
    | HttpExtraneousBlock | HttpUnexpectedBlock | HttpMissingBlock | HttpMalformedCar

  datatype Counter =
    | TotalRequestCount
    | RequestWithIndexerFailures
    | RequestWithIndexerCandidates
    | RequestWithIndexerCandidatesFiltered
    | RequestWithHttpAttempt
    | RequestWithBitswapAttempt
    | RequestWithGraphSyncAttempt
    | RequestWithFirstByteReceived
    | RequestWithSuccess
    | RequestWithBitswapSuccess
    | RequestWithGraphSyncSuccess
    | RequestWithHttpSuccess
    | HttpRetrievalFailure
    | GraphsyncRetrievalFailure
    | RetrievalError(kind: ErrorKind)

  datatype Histogram =
    | TimeToFirstIndexerResult
    | TimeToFirstByte
    | RetrievalDealDuration
    | BandwidthBytesPerSecond
    | RetrievalDealSize
    | IndexerCandidatesPerRequest
    | IndexerCandidatesFilteredPerRequest
    | FailedRetrievalsPerRequest

  // Durations stay in nanoseconds; a rate stays the two operands of its division.
  datatype Value = Nanos(n: int) | Amount(n: int) | Rate(size: real, nanos: int)

  type Labels = map<string, string>

  datatype Emission =
    | Add(counter: Counter, labels: Labels)
    | Record(histogram: Histogram, value: Value, labels: Labels)

  /** How many emissions of the log satisfy p. */
  function Tally(log: seq<Emission>, p: Emission -> bool): nat {
    if log == [] then 0 else (if p(log[0]) then 1 else 0) + Tally(log[1..], p)
  }

  lemma {:induction false} TallyAppend(a: seq<Emission>, b: seq<Emission>, p: Emission -> bool)
    ensures Tally(a + b, p) == Tally(a, p) + Tally(b, p)
  {
    if a == [] {
      assert a + b == b;
    } else {
      assert (a + b)[1..] == a[1..] + b;
      TallyAppend(a[1..], b, p);
    }
  }

  lemma {:induction false} TallyNone(log: seq<Emission>, p: Emission -> bool)
    requires forall e | e in log :: !p(e)
    ensures Tally(log, p) == 0
  {
    if log != [] {
      TallyNone(log[1..], p);
    }
  }

  lemma {:induction false} TallyWithout(log: seq<Emission>, i: nat, p: Emission -> bool)
    requires i < |log|
    ensures Tally(log, p) == (if p(log[i]) then 1 else 0) + Tally(log[..i] + log[i + 1..], p)
  {
    if i == 0 {
      assert log[..0] + log[1..] == log[1..];
    } else {
      TallyWithout(log[1..], i - 1, p);
      assert log[1..][..i - 1] + log[1..][i..] == (log[..i] + log[i + 1..])[1..];
    }
  }

  lemma {:induction false} MultisetWithout<T>(s: seq<T>, i: nat)
    requires i < |s|
    ensures multiset(s[..i] + s[i + 1..]) == multiset(s) - multiset{s[i]}
  {
    assert s == s[..i] + [s[i]] + s[i + 1..];
  }

  /** A tally only sees how often each emission occurs, not their order. */
  lemma {:induction false} TallyOfMultiset(a: seq<Emission>, b: seq<Emission>, p: Emission -> bool)
    requires multiset(a) == multiset(b)
    ensures Tally(a, p) == Tally(b, p)
    decreases |a|
  {
    if a == [] {
      assert |b| == |multiset(b)| == 0;
    } else {
      assert a[0] in multiset(b);
      var i :| 0 <= i < |b| && b[i] == a[0];
      TallyWithout(a, 0, p);
      TallyWithout(b, i, p);
      MultisetWithout(a, 0);
      MultisetWithout(b, i);
      TallyOfMultiset(a[..0] + a[1..], b[..i] + b[i + 1..], p);
    }
  }

  // ---------- what one instrument gets ----------

  /** The labels under which a counter was added to, in order. */
  function Added(log: seq<Emission>, c: Counter): seq<Labels> {
    if log == [] then []
    else (if log[0].Add? && log[0].counter == c then [log[0].labels] else []) + Added(log[1..], c)
  }

  /** The values recorded in a histogram, with their labels, in order. */
  function Recorded(log: seq<Emission>, h: Histogram): seq<(Value, Labels)> {
    if log == [] then []
    else (if log[0].Record? && log[0].histogram == h then [(log[0].value, log[0].labels)] else []) + Recorded(log[1..], h)
  }

  lemma {:induction false} AddedAppend(a: seq<Emission>, b: seq<Emission>, c: Counter)
    ensures Added(a + b, c) == Added(a, c) + Added(b, c)
  {
    if a == [] {
      assert a + b == b;
    } else {
      assert (a + b)[1..] == a[1..] + b;
      AddedAppend(a[1..], b, c);
    }
  }

  lemma {:induction false} RecordedAppend(a: seq<Emission>, b: seq<Emission>, h: Histogram)
    ensures Recorded(a + b, h) == Recorded(a, h) + Recorded(b, h)
  {
    if a == [] {
      assert a + b == b;
    } else {
      assert (a + b)[1..] == a[1..] + b;
      RecordedAppend(a[1..], b, h);
    }
  }

  lemma {:induction false} NotAdded(log: seq<Emission>, c: Counter)
    requires forall e | e in log :: !(e.Add? && e.counter == c)
    ensures Added(log, c) == []
  {
    if log != [] { NotAdded(log[1..], c); }
  }

  lemma {:induction false} NotRecorded(log: seq<Emission>, h: Histogram)
    requires forall e | e in log :: !(e.Record? && e.histogram == h)
    ensures Recorded(log, h) == []
  {
    if log != [] { NotRecorded(log[1..], h); }
  }

  /** One emission more at the front. */
  lemma {:induction false} OneMore(e: Emission, rest: seq<Emission>, c: Counter, h: Histogram)
    ensures Added([e] + rest, c) == (if e.Add? && e.counter == c then [e.labels] else []) + Added(rest, c)
    ensures Recorded([e] + rest, h) == (if e.Record? && e.histogram == h then [(e.value, e.labels)] else []) + Recorded(rest, h)
  {
    assert ([e] + rest)[1..] == rest;
  }

  lemma {:induction false} JustOne(e: Emission, c: Counter, h: Histogram)
    ensures Added([e], c) == if e.Add? && e.counter == c then [e.labels] else []
    ensures Recorded([e], h) == if e.Record? && e.histogram == h then [(e.value, e.labels)] else []
    ensures Added([], c) == [] && Recorded([], h) == []
  {
    assert [e][1..] == [];
  }

  // ---------- the tallies the theorems speak of ----------

  function IsAddTo(c: Counter): Emission -> bool {
    (e: Emission) => e.Add? && e.counter == c
  }

  // Counter c under exactly these labels
  function IsAdd(c: Counter, labels: Labels): Emission -> bool {
    (e: Emission) => e == Add(c, labels)
  }

  function IsError(): Emission -> bool {
    (e: Emission) => e.Add? && e.counter.RetrievalError?
  }

  function IsErrorUnder(protocol: string): Emission -> bool {
    (e: Emission) => e.Add? && e.counter.RetrievalError? && e.labels == map["protocol" := protocol]
  }
}
