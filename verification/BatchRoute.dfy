// revokeRoute of pkg/fx/app.go: the receipts of a request's revocations and
// the one store write for those that validate.

module BatchRoute {
  import opened Types
  import opened Delegations
  import opened RevokeServer
  import opened Validations
  import Pg = PostgresBatch

  /** One invocation of the request, and its CID. */
  datatype Item = Item(req: Request, cause: Cid)

  type Path = seq<Delegation>

  type Validation = Result<Path, Failure<Refusal>>

  /** An item's receipt: none yet, a short-lived failure, or success. */
  datatype Response = Unset | Failed(failure: Failure<Refusal>) | Succeeded

  /**
   * How the handler returns: normally, or because a failure receipt could not
   * be issued, the write failed, or a success could not be set.
   */
  datatype Exit = Done | IssueError | StoreError | AckError

  /** The revocation stored for an item that validated. */
  function StoredFor(item: Item, path: Path): Revocation {
    Revocation(item.cause, LinksOf(path))
  }

  // ---------------------------------------------------------- specification

  /** `at` lists, in item order, exactly the items that validated. */
  ghost predicate Lists(at: seq<nat>, results: seq<Validation>) {
    && (forall j, k :: 0 <= j < k < |at| ==> at[j] < at[k])
    && (forall i :: i in at <==> 0 <= i < |results| && results[i].Ok?)
  }

  ghost predicate IsBatch(batch: seq<Revocation>, at: seq<nat>, items: seq<Item>, results: seq<Validation>)
    requires |items| == |results|
  {
    && Lists(at, results) && |batch| == |at|
    && (forall j :: 0 <= j < |at| ==> at[j] < |items| && results[at[j]].Ok?
                                      && batch[j] == StoredFor(items[at[j]], results[at[j]].value))
  }

  /** Each path that validation returned is one it may return. */
  ghost predicate Validated(items: seq<Item>, results: seq<Validation>, valid: Validity) {
    && |results| == |items|
    && (forall i :: 0 <= i < |items| && results[i].Ok? ==> Accepts(items[i].req, valid, results[i].value))
  }

  predicate IssueFails(results: seq<Validation>, issueFails: nat -> bool) {
    exists i :: 0 <= i < |results| && results[i].Err? && issueFails(i)
  }

  predicate AckFails(results: seq<Validation>, ackFails: nat -> bool) {
    exists i :: 0 <= i < |results| && results[i].Ok? && ackFails(i)
  }

  /** The receipts once every failure has been issued and `acked` successes set. */
  ghost predicate Receipts(responses: seq<Response>, results: seq<Validation>, acked: set<nat>) {
    && |responses| == |results|
    && (forall i :: 0 <= i < |results| ==>
          responses[i] ==
            if results[i].Err? then Failed(results[i].error)
            else if i in acked then Succeeded
            else Unset)
  }

  // ---------------------------------------------------------------- handler

  /** The first loop: a failure receipt for each item that did not validate, and the batch of the others. */
  method Collect(items: seq<Item>, results: seq<Validation>, responses: array<Response>, issueFails: nat -> bool)
    returns (ok: bool, batch: seq<Revocation>, at: seq<nat>)
    requires |results| == |items| == responses.Length
    requires forall i :: 0 <= i < |items| ==> responses[i] == Unset
    modifies responses
    ensures ok <==> !IssueFails(results, issueFails)
    ensures ok ==> IsBatch(batch, at, items, results) && Receipts(responses[..], results, {})
    ensures forall i :: 0 <= i < |items| ==>
      responses[i] == Unset || (results[i].Err? && responses[i] == Failed(results[i].error))
  {
    batch, at := [], [];
    for i := 0 to |items|
      invariant |batch| == |at|
      invariant forall j, k :: 0 <= j < k < |at| ==> at[j] < at[k]
      invariant forall k :: k in at <==> 0 <= k < i && results[k].Ok?
      invariant forall j :: 0 <= j < |at| ==>
        at[j] < i && results[at[j]].Ok? && batch[j] == StoredFor(items[at[j]], results[at[j]].value)
      invariant forall k :: 0 <= k < i ==>
        responses[k] == if results[k].Ok? then Unset else Failed(results[k].error)
      invariant forall k :: i <= k < |items| ==> responses[k] == Unset
      invariant forall k :: 0 <= k < i && results[k].Err? ==> !issueFails(k)
    {
      if results[i].Err? {
        if issueFails(i) {
          return false, batch, at;
        }
        responses[i] := Failed(results[i].error);
        continue;
      }
      batch := batch + [StoredFor(items[i], results[i].value)];
      at := at + [i];
    }
    return true, batch, at;
  }

  /** The last loop: success for each item of the batch. */
  method Acknowledge(at: seq<nat>, results: seq<Validation>, responses: array<Response>, ackFails: nat -> bool)
    returns (ok: bool, ghost acked: set<nat>)
    requires Lists(at, results) && Receipts(responses[..], results, {})
    modifies responses
    ensures Receipts(responses[..], results, acked) && forall i :: i in acked ==> i in at
    ensures ok <==> !AckFails(results, ackFails)
    ensures ok ==> acked == set i | i in at
  {
    acked := {};
    for j := 0 to |at|
      invariant Receipts(responses[..], results, acked)
      invariant acked == set k | 0 <= k < j :: at[k]
      invariant forall k :: 0 <= k < j ==> !ackFails(at[k])
    {
      assert at[j] in at;
      if ackFails(at[j]) {
        return false, acked;
      }
      responses[at[j]] := Succeeded;
      acked := acked + {at[j]};
    }
    return true, acked;
  }

  /** How the store write goes: whether the request's context is done, what encodes, and whether the statement fails. */
  datatype Write = Write(cancelled: bool, encodes: Pg.Encodes, fails: bool, now: int)

  /**
   * Handles a request; `results` is what revocationPaths returned. The one
   * write holds exactly the items that validated, in item order; success goes
   * to those alone, and only after the write succeeded; every other item gets
   * its failure.
   */
  method RevokeRoute(items: seq<Item>, results: seq<Validation>, store: Pg.Store, responses: array<Response>,
                     write: Write, issueFails: nat -> bool, ackFails: nat -> bool, ghost valid: Validity)
    returns (exit: Exit, batch: seq<Revocation>, ghost at: seq<nat>, ghost acked: set<nat>)
    requires Validated(items, results, valid) && responses.Length == |items|
    requires forall i :: 0 <= i < |items| ==> responses[i] == Unset
    modifies store, responses
    ensures exit == IssueError <==> exists i :: 0 <= i < |results| && results[i].Err? && issueFails(i)
    ensures exit != IssueError ==> IsBatch(batch, at, items, results) && HasPaths(batch)
    ensures exit == StoreError <==>
      && exit != IssueError && (exists i :: 0 <= i < |results| && results[i].Ok?)
      && (write.cancelled || write.fails || !Pg.Faultless(batch, write.encodes))
    ensures exit == AckError <==>
      exit != IssueError && exit != StoreError && exists i :: 0 <= i < |results| && results[i].Ok? && ackFails(i)
    ensures (exit == Done || exit == AckError) && batch != [] ==>
      Pg.Inserted(old(store.table), batch, write.now, store.table)
    ensures (exit == Done || exit == AckError) && |Pg.Flatten(Pg.Dedupe(batch))| < Pg.TWO31 ==>
      store.table == Pg.AddEach(old(store.table), batch, write.now)
    ensures exit == IssueError || exit == StoreError ==> store.table == old(store.table) && acked == {}
    ensures exit != IssueError ==> Receipts(responses[..], results, acked) && forall i :: i in acked ==> i in at
    ensures exit == IssueError ==> Succeeded !in responses[..]
    ensures exit == Done ==> acked == set i | i in at
  {
    acked := {};
    var ok, valids;
    ok, batch, valids := Collect(items, results, responses, issueFails);
    at := valids;
    if !ok {
      return IssueError, batch, at, acked;
    }
    BatchHasPaths(items, results, valid, batch, at);
    if |batch| == 0 {
      assert forall i :: 0 <= i < |items| ==> i !in at;
      return Done, batch, at, acked;
    }
    assert at[0] in at;
    var written := store.AddBatch(write.cancelled, batch, write.encodes, write.fails, write.now);
    if written.Err? {
      return StoreError, batch, at, acked;
    }
    ok, acked := Acknowledge(valids, results, responses, ackFails);
    exit := if ok then Done else AckError;
  }

  lemma BatchHasPaths(items: seq<Item>, results: seq<Validation>, valid: Validity, batch: seq<Revocation>, at: seq<nat>)
    requires Validated(items, results, valid) && IsBatch(batch, at, items, results)
    ensures HasPaths(batch)
  {
    forall j | 0 <= j < |batch|
      ensures HasPath(batch[j])
    {
      assert Accepts(items[at[j]].req, valid, results[at[j]].value);
    }
  }

  /** Every item that validated is in the batch, under its own cause and with its own path, and nothing else is. */
  lemma {:induction false} BatchHoldsAll(
      items: seq<Item>, results: seq<Validation>, batch: seq<Revocation>, at: seq<nat>)
    requires |items| == |results| && IsBatch(batch, at, items, results)
    ensures forall i :: 0 <= i < |items| && results[i].Ok? ==>
      Revocation(items[i].cause, LinksOf(results[i].value)) in batch
    ensures forall r :: r in batch ==>
      exists i :: 0 <= i < |items| && results[i].Ok? && r == Revocation(items[i].cause, LinksOf(results[i].value))
  {
    forall i | 0 <= i < |items| && results[i].Ok?
      ensures Revocation(items[i].cause, LinksOf(results[i].value)) in batch
    {
      assert i in at;
      var j :| 0 <= j < |at| && at[j] == i;
      assert batch[j] == StoredFor(items[i], results[i].value);
    }
    forall r | r in batch
      ensures exists i ::
        0 <= i < |items| && results[i].Ok? && r == Revocation(items[i].cause, LinksOf(results[i].value))
    {
      var j :| 0 <= j < |batch| && batch[j] == r;
      assert r == StoredFor(items[at[j]], results[at[j]].value);
    }
  }

  /** Once all has gone well, each item has success or its own failure; before that, its failure or nothing. */
  lemma {:induction false} ReceiptsMean(
      results: seq<Validation>, at: seq<nat>, responses: seq<Response>, acked: set<nat>)
    requires Lists(at, results) && Receipts(responses, results, acked)
    ensures forall i :: 0 <= i < |results| && results[i].Err? ==> responses[i] == Failed(results[i].error)
    ensures acked == {} ==> forall i :: 0 <= i < |results| && results[i].Ok? ==> responses[i] == Unset
    ensures acked == (set i | i in at) ==>
      forall i :: 0 <= i < |results| && results[i].Ok? ==> responses[i] == Succeeded
  {
  }

  // ------------------------------------------------- concurrent validation

  /** Each item's goroutine runs RevocationPath on it, or panics. */
  ghost predicate Validates(items: seq<Item>, verdicts: seq<Verdict<Path, Refusal>>, valid: Validity) {
    && |verdicts| == |items|
    && (forall i :: 0 <= i < |items| && verdicts[i].Returns? ==>
          Answers(items[i].req, valid, verdicts[i].result))
  }

  /** What RevocationPath ensures of its result. */
  ghost predicate Answers(req: Request, valid: Validity, r: Result<Path, Refusal>) {
    && (r.Ok? ==> Accepts(req, valid, r.value))
    && (r.Err? ==> RefusedFor(req, valid, r.error))
  }

  /**
   * Whatever the schedule, what the handler goes on with once the goroutines
   * are joined is validated, and an item is in the batch if and only if its
   * validation did not panic and some path of it is acceptable. One that did not
   * panic and is not accepted keeps the reason it is refused for.
   */
  lemma {:induction false} ConcurrentIsValidated(
      items: seq<Item>, verdicts: seq<Verdict<Path, Refusal>>, valid: Validity, trace: seq<State<Path, Refusal>>)
    returns (results: seq<Validation>)
    requires forall i :: 0 <= i < |items| ==> LinksName(items[i].req.metadata)
    requires Validates(items, verdicts, valid)
    requires IsRun(verdicts, trace) && trace[|trace| - 1].joined
    ensures Validated(items, results, valid) && |trace[|trace| - 1].results| == |items|
    ensures forall i :: 0 <= i < |items| ==> trace[|trace| - 1].results[i] == Some(results[i])
    ensures forall i :: 0 <= i < |items| ==>
      (results[i].Ok? <==> verdicts[i].Returns? && exists path :: Accepts(items[i].req, valid, path))
    ensures forall i :: 0 <= i < |items| && results[i].Err? && results[i].error.Invalid? ==>
      verdicts[i] == Returns(Err(results[i].error.error)) && RefusedFor(items[i].req, valid, results[i].error.error)
    ensures forall i :: 0 <= i < |items| ==> (results[i] == Err(ValidationPanicked) <==> verdicts[i].Panics?)
  {
    JoinedIsSequential(verdicts, trace);
    results := Sequential(verdicts);
    forall i | 0 <= i < |items|
      ensures results[i].Ok? <==> verdicts[i].Returns? && exists path :: Accepts(items[i].req, valid, path)
    {
      if verdicts[i].Returns? {
        if path :| Accepts(items[i].req, valid, path) {
          AcceptedOrRefused(items[i].req, valid, path);
        }
      }
    }
  }

  // -------------------------------------------------------------- soundness

  /**
   * Everything written proves authority: each stored path ends in the
   * delegation its invocation names, and on the validated path the invocation's
   * issuer issued some delegation from which a linked chain leads there.
   */
  lemma BatchIsSound(items: seq<Item>, results: seq<Validation>, valid: Validity,
                     batch: seq<Revocation>, at: seq<nat>, j: nat)
    requires Validated(items, results, valid) && IsBatch(batch, at, items, results) && j < |batch|
    ensures
      var item, path := items[at[j]], results[at[j]].value;
      && batch[j].cause == item.cause && batch[j].path == LinksOf(path)
      && HasPath(batch[j]) && Revoked(batch[j]) == item.req.revoke
      && ProvesAuthority(path, item.req.issuer, item.req.revoke)
      && (forall i :: 0 <= i < |path| ==> valid(path[i]))
  {
    AcceptedIsSound(items[at[j]].req, valid, results[at[j]].value);
  }
}
