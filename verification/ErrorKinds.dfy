/** Classification of error messages: `getMatchingErrorMetric` and its table. */
module ErrorKinds {
  import opened Instruments

  datatype Row = Row(substr: string, kind: ErrorKind)

  const HTTP_FAILED := "HTTP request failed, remote response code:"
  const HTTP_404 := HTTP_FAILED + " 404"
  const HTTP_410 := HTTP_FAILED + " 410"

  const ROWS: seq<Row> := [
    Row("response rejected", Rejected),
    Row("Too many retrieval deals received", TooMany),
    Row("Access Control", ACL),
    Row("Under maintenance, retry later", Maintenance),
    Row("miner is not accepting online retrieval deals", NoOnline),
    Row("unconfirmed block transfer", Unconfirmed),
    Row("timeout after ", Timeout),
    Row("retrieval timed out after ", Timeout),
    Row("there is no unsealed piece containing payload cid", NoUnsealed),
    Row("getting pieces for cid", DAGStore),
    Row("graphsync request failed to complete: request failed - unknown reason", Graphsync),
    Row("failed to dial", FailedToDial),
    Row(HTTP_404, HttpRemoteRequestNotFound),
    Row(HTTP_410, HttpRemoteRequestGone),
    Row(HTTP_FAILED, HttpRemoteRequestFailed),
    Row("extraneous block in CAR", HttpExtraneousBlock),
    Row("unexpected block in CAR", HttpUnexpectedBlock),
    Row("missing block in CAR", HttpMissingBlock),
    Row("malformed CAR", HttpMalformedCar),
    Row("data transfer failed: datatransfer error: data transfer channel ", Datatransfer)
  ]

  predicate OccursAt(msg: string, sub: string, i: int) {
    0 <= i <= |msg| - |sub| && msg[i..i + |sub|] == sub
  }

  predicate Contains(msg: string, sub: string) {
    exists i | 0 <= i <= |msg| - |sub| :: OccursAt(msg, sub, i)
  }

  /** strings.Contains as a search from the left. */
  method Search(msg: string, sub: string) returns (found: bool)
    ensures found <==> Contains(msg, sub)
  {
    var i := 0;
    found := false;
    while i + |sub| <= |msg|
      invariant 0 <= i
      invariant forall j | 0 <= j < i :: !OccursAt(msg, sub, j)
    {
      if msg[i..i + |sub|] == sub {
        assert OccursAt(msg, sub, i);
        return true;
      }
      i := i + 1;
    }
  }

  /** Row i is the earliest row of the table whose text occurs in msg. */
  predicate Decides(msg: string, i: nat)
    requires i < |ROWS|
  {
    Contains(msg, ROWS[i].substr) && forall j | 0 <= j < i :: !Contains(msg, ROWS[j].substr)
  }

  /** The counter an error with this message goes to. */
  function KindFrom(msg: string, i: nat): ErrorKind
    requires i <= |ROWS|
    decreases |ROWS| - i
  {
    if i == |ROWS| then Other
    else if Contains(msg, ROWS[i].substr) then ROWS[i].kind
    else KindFrom(msg, i + 1)
  }

  function KindOf(msg: string): ErrorKind {
    KindFrom(msg, 0)
  }

  /** The table is scanned in order and the first row that matches is returned. */
  method GetMatchingErrorMetric(msg: string) returns (kind: Option<ErrorKind>)
    ensures kind.Some? <==> exists i | 0 <= i < |ROWS| :: Contains(msg, ROWS[i].substr)
    ensures kind.Some? ==> exists i | 0 <= i < |ROWS| :: Decides(msg, i) && kind.value == ROWS[i].kind
    ensures KindOf(msg) == if kind.Some? then kind.value else Other
  {
    var i := 0;
    while i < |ROWS|
      invariant 0 <= i <= |ROWS|
      invariant forall j | 0 <= j < i :: !Contains(msg, ROWS[j].substr)
      invariant KindOf(msg) == KindFrom(msg, i)
    {
      var found := Search(msg, ROWS[i].substr);
      if found {
        assert Decides(msg, i);
        return Some(ROWS[i].kind);
      }
      i := i + 1;
    }
    return None;
  }

  lemma {:induction false} ContainsTransitive(a: string, b: string, c: string)
    requires Contains(a, b) && Contains(b, c)
    ensures Contains(a, c)
  {
    var i :| 0 <= i <= |a| - |b| && OccursAt(a, b, i);
    var j :| 0 <= j <= |b| - |c| && OccursAt(b, c, j);
    assert a[i + j..i + j + |c|] == c by {
      forall k | 0 <= k < |c| ensures a[i + j + k] == c[k] {
        assert a[i + j + k] == a[i..i + |b|][j + k] == b[j + k] == b[j..j + |c|][k];
      }
    }
    assert OccursAt(a, c, i + j);
  }

  lemma {:induction false} KindFromDecides(msg: string, i: nat)
    requires i <= |ROWS|
    requires forall j | 0 <= j < i :: !Contains(msg, ROWS[j].substr)
    ensures KindFrom(msg, i) != Other ==> exists k | 0 <= k < |ROWS| :: Decides(msg, k) && KindFrom(msg, i) == ROWS[k].kind
    ensures KindFrom(msg, i) == Other ==> forall k | 0 <= k < |ROWS| :: !Contains(msg, ROWS[k].substr)
    decreases |ROWS| - i
  {
    if i < |ROWS| {
      if Contains(msg, ROWS[i].substr) {
        assert Decides(msg, i);
      } else {
        KindFromDecides(msg, i + 1);
      }
    }
  }

  lemma {:induction false} OneRowDecides(msg: string, i: nat, k: nat)
    requires i < |ROWS| && k < |ROWS| && Decides(msg, i) && Decides(msg, k)
    ensures i == k
  {
  }

  /** The kind is that of the row that decides, and is Other when no row matches. */
  lemma {:induction false} KindIsFirstMatch(msg: string, kind: ErrorKind)
    ensures kind != Other ==>
      (KindOf(msg) == kind <==> exists i | 0 <= i < |ROWS| :: Decides(msg, i) && ROWS[i].kind == kind)
    ensures KindOf(msg) == Other <==> forall i | 0 <= i < |ROWS| :: !Contains(msg, ROWS[i].substr)
  {
    KindFromDecides(msg, 0);
    if i :| 0 <= i < |ROWS| && Decides(msg, i) && ROWS[i].kind == kind {
      assert Contains(msg, ROWS[i].substr);
      var k :| 0 <= k < |ROWS| && Decides(msg, k) && KindOf(msg) == ROWS[k].kind;
      OneRowDecides(msg, i, k);
    }
  }

  lemma {:induction false} GenericInsideSpecific()
    ensures Contains(HTTP_404, HTTP_FAILED) && Contains(HTTP_410, HTTP_FAILED)
  {
    assert OccursAt(HTTP_404, HTTP_FAILED, 0);
    assert OccursAt(HTTP_410, HTTP_FAILED, 0);
  }

  lemma {:induction false} SpecificBringsGeneric(msg: string)
    ensures Contains(msg, HTTP_404) || Contains(msg, HTTP_410) ==> Contains(msg, HTTP_FAILED)
  {
    hide Contains;
    GenericInsideSpecific();
    if Contains(msg, HTTP_404) { ContainsTransitive(msg, HTTP_404, HTTP_FAILED); }
    if Contains(msg, HTTP_410) { ContainsTransitive(msg, HTTP_410, HTTP_FAILED); }
  }

  lemma {:induction false} OneGenericRow()
    ensures forall i | 0 <= i < |ROWS| :: ROWS[i].kind == HttpRemoteRequestFailed <==> i == 14
  {
  }

  lemma {:induction false} DecidesOnGeneric(msg: string)
    ensures Decides(msg, 14) <==> Contains(msg, HTTP_FAILED) && forall i | 0 <= i < 14 :: !Contains(msg, ROWS[i].substr)
  {
  }

  /**
   The generic HTTP counter gets exactly the messages with the generic text in
   which no earlier row occurs, in particular neither the 404 nor the 410 one,
   although each of those texts brings the generic one with it.
   */
  lemma {:induction false} GenericHttpFailure(msg: string)
    ensures KindOf(msg) == HttpRemoteRequestFailed <==>
      Contains(msg, HTTP_FAILED) && forall i | 0 <= i < 14 :: !Contains(msg, ROWS[i].substr)
    ensures KindOf(msg) == HttpRemoteRequestFailed ==> !Contains(msg, HTTP_404) && !Contains(msg, HTTP_410)
    ensures Contains(msg, HTTP_404) || Contains(msg, HTTP_410) ==> Contains(msg, HTTP_FAILED)
  {
    hide Contains, KindOf, Decides;
    SpecificBringsGeneric(msg);
    KindIsFirstMatch(msg, HttpRemoteRequestFailed);
    assert ROWS[12].substr == HTTP_404 && ROWS[13].substr == HTTP_410 && ROWS[14].substr == HTTP_FAILED;
    OneGenericRow();
    DecidesOnGeneric(msg);
  }

  /** A message with both codes, and no text of an earlier row, counts as 404: its row comes first. */
  lemma {:induction false} NotFoundBeforeGone(msg: string)
    requires Contains(msg, HTTP_404) && Contains(msg, HTTP_410)
    requires forall i | 0 <= i < 12 :: !Contains(msg, ROWS[i].substr)
    ensures KindOf(msg) == HttpRemoteRequestNotFound
  {
    KindIsFirstMatch(msg, HttpRemoteRequestNotFound);
    assert ROWS[12] == Row(HTTP_404, HttpRemoteRequestNotFound);
    assert Decides(msg, 12);
  }

  lemma {:induction false} KindFromStep(msg: string, i: nat)
    requires i < |ROWS|
    ensures KindFrom(msg, i) == if Contains(msg, ROWS[i].substr) then ROWS[i].kind else KindFrom(msg, i + 1)
    ensures KindFrom(msg, |ROWS|) == Other
  {
  }

  lemma {:induction false} HttpTexts()
    ensures HTTP_404 == "HTTP request failed, remote response code: 404"
    ensures HTTP_410 == "HTTP request failed, remote response code: 410"
  {
  }

  lemma {:induction false} KindFromTen(msg: string)
    ensures KindFrom(msg, 10) ==
      if Contains(msg, "graphsync request failed to complete: request failed - unknown reason") then Graphsync
      else if Contains(msg, "failed to dial") then FailedToDial
      else if Contains(msg, "HTTP request failed, remote response code: 404") then HttpRemoteRequestNotFound
      else if Contains(msg, "HTTP request failed, remote response code: 410") then HttpRemoteRequestGone
      else if Contains(msg, "HTTP request failed, remote response code:") then HttpRemoteRequestFailed
      else if Contains(msg, "extraneous block in CAR") then HttpExtraneousBlock
      else if Contains(msg, "unexpected block in CAR") then HttpUnexpectedBlock
      else if Contains(msg, "missing block in CAR") then HttpMissingBlock
      else if Contains(msg, "malformed CAR") then HttpMalformedCar
      else if Contains(msg, "data transfer failed: datatransfer error: data transfer channel ") then Datatransfer
      else Other
  {
    hide Contains, KindFrom;
    HttpTexts();
    KindFromStep(msg, 10);
    KindFromStep(msg, 11);
    KindFromStep(msg, 12);
    KindFromStep(msg, 13);
    KindFromStep(msg, 14);
    KindFromStep(msg, 15);
    KindFromStep(msg, 16);
    KindFromStep(msg, 17);
    KindFromStep(msg, 18);
    KindFromStep(msg, 19);
  }

  /**
   The kind of every message, text by text: that of the first of these that
   occurs in it. So each kind is given to the messages that contain its text and
   none of those above, and to no others; the two timeout texts share theirs.
   */
  lemma {:induction false} KindOfEveryMessage(msg: string)
    ensures KindOf(msg) ==
      if Contains(msg, "response rejected") then Rejected
      else if Contains(msg, "Too many retrieval deals received") then TooMany
      else if Contains(msg, "Access Control") then ACL
      else if Contains(msg, "Under maintenance, retry later") then Maintenance
      else if Contains(msg, "miner is not accepting online retrieval deals") then NoOnline
      else if Contains(msg, "unconfirmed block transfer") then Unconfirmed
      else if Contains(msg, "timeout after ") then Timeout
      else if Contains(msg, "retrieval timed out after ") then Timeout
      else if Contains(msg, "there is no unsealed piece containing payload cid") then NoUnsealed
      else if Contains(msg, "getting pieces for cid") then DAGStore
      else if Contains(msg, "graphsync request failed to complete: request failed - unknown reason") then Graphsync
      else if Contains(msg, "failed to dial") then FailedToDial
      else if Contains(msg, "HTTP request failed, remote response code: 404") then HttpRemoteRequestNotFound
      else if Contains(msg, "HTTP request failed, remote response code: 410") then HttpRemoteRequestGone
      else if Contains(msg, "HTTP request failed, remote response code:") then HttpRemoteRequestFailed
      else if Contains(msg, "extraneous block in CAR") then HttpExtraneousBlock
      else if Contains(msg, "unexpected block in CAR") then HttpUnexpectedBlock
      else if Contains(msg, "missing block in CAR") then HttpMissingBlock
      else if Contains(msg, "malformed CAR") then HttpMalformedCar
      else if Contains(msg, "data transfer failed: datatransfer error: data transfer channel ") then Datatransfer
      else Other
  {
    hide Contains, KindFrom;
    KindFromStep(msg, 0);
    KindFromStep(msg, 1);
    KindFromStep(msg, 2);
    KindFromStep(msg, 3);
    KindFromStep(msg, 4);
    KindFromStep(msg, 5);
    KindFromStep(msg, 6);
    KindFromStep(msg, 7);
    KindFromStep(msg, 8);
    KindFromStep(msg, 9);
    KindFromTen(msg);
  }
}
