// AddBatch and Get of pkg/store/postgres/store.go: one INSERT for a batch,
// whose ragged paths travel in one flat array.

module PostgresBatch {
  import opened Types

  // ----------------------------------------------------------------- table

  /** A row, keyed by its cause. */
  datatype StoredRow = StoredRow(revoked: Cid, path: seq<Cid>, recordedAt: int)

  type Table = map<Cid, StoredRow>

  /** What one row of the INSERT brings. */
  datatype NewRow = NewRow(id: Cid, revoked: Cid, path: seq<Cid>)

  /** ON CONFLICT (id) DO NOTHING, one row after another, all at the transaction's time. */
  function Insert(table: Table, rows: seq<NewRow>, now: int): Table {
    if rows == [] then table
    else
      var before, row := Insert(table, rows[..|rows| - 1], now), rows[|rows| - 1];
      if row.id in before then before else before[row.id := StoredRow(row.revoked, row.path, now)]
  }

  // ------------------------------------------------------------ flat array

  // The number of values of a Go int32, and the bound of its non-negative half.
  const TWO32: int := 0x1_0000_0000
  const TWO31: int := 0x8000_0000

  /** Go's conversion to int32. */
  function ToInt32(x: int): int {
    (x + TWO31) % TWO32 - TWO31
  }

  /** An array slice in SQL: bounds are 1-based and inclusive, and clipped to the array. */
  function Slice(flat: seq<Cid>, start: int, end: int): seq<Cid> {
    var lo := if start < 1 then 1 else start;
    var hi := if end > |flat| then |flat| else end;
    if lo > hi then [] else flat[lo - 1..hi]
  }

  /** The parallel arrays AddBatch sends. */
  datatype Arrays = Arrays(ids: seq<Cid>, revoked: seq<Cid>, starts: seq<int>, ends: seq<int>, flat: seq<Cid>)

  predicate Parallel(a: Arrays) {
    |a.ids| == |a.revoked| == |a.starts| == |a.ends|
  }

  /** The rows the statement selects from them. */
  function Unnest(a: Arrays): (rows: seq<NewRow>)
    requires Parallel(a)
    ensures |rows| == |a.ids|
    ensures forall i :: 0 <= i < |rows| ==>
      rows[i] == NewRow(a.ids[i], a.revoked[i], Slice(a.flat, a.starts[i], a.ends[i]))
  {
    seq(|a.ids|, i requires 0 <= i < |a.ids| => NewRow(a.ids[i], a.revoked[i], Slice(a.flat, a.starts[i], a.ends[i])))
  }

  // ---------------------------------------------------------- specification

  function RowOf(r: Revocation): NewRow
    requires HasPath(r)
  {
    NewRow(r.cause, Revoked(r), r.path)
  }

  /** The batch without repeats of a cause, the first of each kept. */
  function Dedupe(batch: seq<Revocation>): seq<Revocation> {
    if batch == [] then []
    else
      var before, r := Dedupe(batch[..|batch| - 1]), batch[|batch| - 1];
      if exists q :: q in before && q.cause == r.cause then before else before + [r]
  }

  /** The witnesses of a batch, end to end. */
  function Flatten(batch: seq<Revocation>): seq<Cid> {
    if batch == [] then [] else Flatten(batch[..|batch| - 1]) + batch[|batch| - 1].path
  }

  ghost predicate RowsAre(a: Arrays, batch: seq<Revocation>)
    requires HasPaths(batch)
  {
    && Parallel(a) && |a.ids| == |batch|
    && (forall i :: 0 <= i < |batch| ==> Unnest(a)[i] == RowOf(batch[i]))
  }

  /** Adds one revocation, as Add does. */
  function AddOne(table: Table, r: Revocation, now: int): Table
    requires HasPath(r)
  {
    Insert(table, [RowOf(r)], now)
  }

  /** Adds revocations one by one, all at one time. */
  function AddEach(table: Table, batch: seq<Revocation>, now: int): Table
    requires HasPaths(batch)
  {
    if batch == [] then table
    else AddOne(AddEach(table, batch[..|batch| - 1], now), batch[|batch| - 1], now)
  }

  // ----------------------------------------------------------------- arrays

  /** Row `i`: its cause, its delegation and its bounds in the flat array. */
  ghost predicate RowDescribed(a: Arrays, batch: seq<Revocation>, i: nat)
    requires Parallel(a) && |a.ids| == |batch| && i < |batch| && HasPath(batch[i])
  {
    && a.ids[i] == batch[i].cause
    && a.revoked[i] == Revoked(batch[i])
    && a.starts[i] == ToInt32(|Flatten(batch[..i])| + 1)
    && a.ends[i] == ToInt32(|Flatten(batch[..i + 1])|)
  }

  ghost predicate Describes(a: Arrays, batch: seq<Revocation>)
    requires HasPaths(batch)
  {
    && Parallel(a) && |a.ids| == |batch| && a.flat == Flatten(batch)
    && (forall i :: 0 <= i < |batch| ==> RowDescribed(a, batch, i))
  }

  /** The arrays after one turn of the loop that keeps its revocation. */
  function Append(a: Arrays, r: Revocation): Arrays
    requires HasPath(r)
  {
    Arrays(a.ids + [r.cause],
           a.revoked + [Revoked(r)],
           a.starts + [ToInt32(|a.flat| + 1)],
           a.ends + [ToInt32(|a.flat + r.path|)],
           a.flat + r.path)
  }

  lemma {:induction false} AppendSlices(batch: seq<Revocation>, r: Revocation)
    ensures forall i :: 0 <= i <= |batch| ==> (batch + [r])[..i] == batch[..i]
    ensures (batch + [r])[..|batch| + 1] == batch + [r] && (batch + [r])[..|batch|] == batch
  {
  }

  lemma {:induction false} FlattenAppend(batch: seq<Revocation>, r: Revocation)
    ensures Flatten(batch + [r]) == Flatten(batch) + r.path
  {
    AppendSlices(batch, r);
  }

  lemma DescribesAppend(a: Arrays, batch: seq<Revocation>, r: Revocation)
    requires HasPaths(batch) && HasPath(r) && Describes(a, batch)
    ensures HasPaths(batch + [r]) && Describes(Append(a, r), batch + [r])
  {
    FlattenAppend(batch, r);
    AppendSlices(batch, r);
    var a', more := Append(a, r), batch + [r];
    forall i | 0 <= i < |more|
      ensures HasPath(more[i]) && RowDescribed(a', more, i)
    {
      assert i < |batch| ==> HasPath(batch[i]) && RowDescribed(a, batch, i);
    }
  }

  ghost predicate HasCause(batch: seq<Revocation>, cause: Cid) {
    exists q :: q in batch && q.cause == cause
  }

  lemma CausesAppend(batch: seq<Revocation>, r: Revocation)
    ensures forall x :: HasCause(batch + [r], x) <==> HasCause(batch, x) || x == r.cause
  {
    assert forall q :: q in batch + [r] <==> q in batch || q == r;
  }

  lemma {:induction false} DedupeKeepsPaths(batch: seq<Revocation>)
    requires HasPaths(batch)
    ensures HasPaths(Dedupe(batch))
    decreases |batch|
  {
    if batch == [] {
    } else {
      assert HasPath(batch[|batch| - 1]);
      DedupeKeepsPaths(batch[..|batch| - 1]);
    }
  }

  lemma DedupeMore(batch: seq<Revocation>, i: nat)
    requires i < |batch|
    ensures Dedupe(batch[..i + 1]) ==
      if HasCause(Dedupe(batch[..i]), batch[i].cause) then Dedupe(batch[..i]) else Dedupe(batch[..i]) + [batch[i]]
  {
    assert batch[..i + 1][..i] == batch[..i];
  }

  datatype AddError =
    | AddCancelled
    | NoPath(index: nat)
    | CauseNotEncoded(index: nat)
    | WitnessNotEncoded(index: nat, at: nat)
    | WriteFailed

  /** Whether the CBOR encoding of what a link names succeeds, which is external. */
  type Encodes = Cid -> bool

  /** Where the first witness of a path that cannot be encoded is, or the length of the path. */
  function FirstNotEncoded(path: seq<Cid>, encodes: Encodes): (j: nat)
    ensures j <= |path| && (forall k :: 0 <= k < j ==> encodes(path[k])) && (j < |path| ==> !encodes(path[j]))
  {
    if path == [] || !encodes(path[0]) then 0 else 1 + FirstNotEncoded(path[1..], encodes)
  }

  /** What is wrong with a revocation of the batch: a repeat of an earlier cause is not looked at past its path. */
  ghost function Fault(batch: seq<Revocation>, encodes: Encodes, i: nat): Option<AddError>
    requires i < |batch|
  {
    var r := batch[i];
    if r.path == [] then Some(NoPath(i))
    else if HasCause(batch[..i], r.cause) then None
    else if !encodes(r.cause) then Some(CauseNotEncoded(i))
    else if FirstNotEncoded(r.path, encodes) < |r.path| then
      Some(WitnessNotEncoded(i, FirstNotEncoded(r.path, encodes)))
    else None
  }

  ghost predicate Faultless(batch: seq<Revocation>, encodes: Encodes) {
    forall i :: 0 <= i < |batch| ==> Fault(batch, encodes, i) == None
  }

  /** The loop fails with the first fault there is. */
  ghost predicate FailsWith(batch: seq<Revocation>, encodes: Encodes, e: AddError) {
    exists i :: 0 <= i < |batch| && Fault(batch, encodes, i) == Some(e)
      && forall j :: 0 <= j < i ==> Fault(batch, encodes, j) == None
  }

  /** A revocation that can be sent: it has a path and, unless its cause came before, all of it encodes. */
  ghost predicate Sendable(batch: seq<Revocation>, encodes: Encodes, i: nat)
    requires i < |batch|
  {
    && batch[i].path != []
    && ((forall j :: 0 <= j < i ==> batch[j].cause != batch[i].cause) ==>
          encodes(batch[i].cause) && forall k :: 0 <= k < |batch[i].path| ==> encodes(batch[i].path[k]))
  }

  lemma {:induction false} CausesBefore(batch: seq<Revocation>, i: nat)
    requires i < |batch|
    ensures HasCause(batch[..i], batch[i].cause) <==> exists j :: 0 <= j < i && batch[j].cause == batch[i].cause
  {
    if j :| 0 <= j < i && batch[j].cause == batch[i].cause {
      assert batch[..i][j] in batch[..i];
    }
  }

  /** No fault is as much as being sendable. */
  lemma {:induction false} SendableIff(batch: seq<Revocation>, encodes: Encodes, i: nat)
    requires i < |batch|
    ensures Fault(batch, encodes, i) == None <==> Sendable(batch, encodes, i)
  {
    CausesBefore(batch, i);
  }

  lemma {:induction false} FaultlessIff(batch: seq<Revocation>, encodes: Encodes)
    ensures Faultless(batch, encodes) <==> forall i :: 0 <= i < |batch| ==> Sendable(batch, encodes, i)
  {
    forall i | 0 <= i < |batch|
      ensures Fault(batch, encodes, i) == None <==> Sendable(batch, encodes, i)
    {
      SendableIff(batch, encodes, i);
    }
  }

  /** Each error names the first revocation that cannot be sent, and what is wrong with it. */
  lemma {:induction false} FailsWithFirst(batch: seq<Revocation>, encodes: Encodes, e: AddError)
    requires FailsWith(batch, encodes, e)
    ensures !e.AddCancelled? && !e.WriteFailed?
    ensures e.index < |batch| && !Sendable(batch, encodes, e.index)
    ensures forall j :: 0 <= j < e.index ==> Sendable(batch, encodes, j)
    ensures e.NoPath? <==> batch[e.index].path == []
    ensures e.CauseNotEncoded? <==> batch[e.index].path != [] && !encodes(batch[e.index].cause)
    ensures e.WitnessNotEncoded? ==>
      && e.at < |batch[e.index].path| && !encodes(batch[e.index].path[e.at])
      && forall k :: 0 <= k < e.at ==> encodes(batch[e.index].path[k])
  {
    var i :| 0 <= i < |batch| && Fault(batch, encodes, i) == Some(e)
      && forall j :: 0 <= j < i ==> Fault(batch, encodes, j) == None;
    SendableIff(batch, encodes, i);
    forall j | 0 <= j < i
      ensures Sendable(batch, encodes, j)
    {
      SendableIff(batch, encodes, j);
    }
  }

  /** Without faults every revocation has a path. */
  lemma FaultlessHavePaths(batch: seq<Revocation>, encodes: Encodes)
    requires Faultless(batch, encodes)
    ensures HasPaths(batch)
  {
    forall i | 0 <= i < |batch|
      ensures HasPath(batch[i])
    {
      assert Fault(batch, encodes, i) == None;
    }
  }

  lemma {:induction false} DedupeCauses(batch: seq<Revocation>, x: Cid)
    ensures HasCause(Dedupe(batch), x) <==> HasCause(batch, x)
    decreases |batch|
  {
    if batch == [] {
    } else {
      var before, r := batch[..|batch| - 1], batch[|batch| - 1];
      assert batch == before + [r];
      DedupeCauses(before, x);
      CausesAppend(before, r);
      CausesAppend(Dedupe(before), r);
    }
  }

  /** The state of the loop at `i`: the arrays describe what came before, whose causes are in `added`. */
  ghost predicate Built(batch: seq<Revocation>, i: nat, a: Arrays, added: set<Cid>) {
    && i <= |batch| && HasPaths(batch[..i])
    && var kept := Dedupe(batch[..i]);
       && HasPaths(kept) && Describes(a, kept)
       && (forall x :: x in added <==> HasCause(kept, x))
  }

  lemma BuildMore(batch: seq<Revocation>, i: nat, a: Arrays, added: set<Cid>)
    requires Built(batch, i, a, added) && i < |batch| && HasPath(batch[i])
    ensures
      if batch[i].cause in added then Built(batch, i + 1, a, added)
      else Built(batch, i + 1, Append(a, batch[i]), added + {batch[i].cause})
  {
    var kept, r := Dedupe(batch[..i]), batch[i];
    DedupeMore(batch, i);
    PathsMore(batch, i);
    if r.cause !in added {
      DescribesAppend(a, kept, r);
      CausesAppend(kept, r);
      assert Dedupe(batch[..i + 1]) == kept + [r];
    }
  }

  lemma PathsMore(batch: seq<Revocation>, i: nat)
    requires i < |batch| && HasPaths(batch[..i]) && HasPath(batch[i])
    ensures HasPaths(batch[..i + 1])
  {
    assert forall j :: 0 <= j < i ==> batch[..i + 1][j] == batch[..i][j];
  }

  ghost predicate NoFaultBefore(batch: seq<Revocation>, encodes: Encodes, i: nat)
    requires i <= |batch|
  {
    forall j :: 0 <= j < i ==> Fault(batch, encodes, j) == None
  }

  /** What the loop checks, in its order, is whether there is a fault. */
  lemma {:induction false} FaultIs(batch: seq<Revocation>, encodes: Encodes, i: nat, a: Arrays, added: set<Cid>)
    requires i < |batch| && Built(batch, i, a, added)
    ensures
      var r := batch[i];
      Fault(batch, encodes, i) ==
        if r.path == [] then Some(NoPath(i))
        else if r.cause in added then None
        else if !encodes(r.cause) then Some(CauseNotEncoded(i))
        else if FirstNotEncoded(r.path, encodes) < |r.path| then
          Some(WitnessNotEncoded(i, FirstNotEncoded(r.path, encodes)))
        else None
  {
    DedupeCauses(batch[..i], batch[i].cause);
  }

  lemma {:induction false} FailsHere(batch: seq<Revocation>, encodes: Encodes, i: nat)
    requires i < |batch| && NoFaultBefore(batch, encodes, i) && Fault(batch, encodes, i).Some?
    ensures FailsWith(batch, encodes, Fault(batch, encodes, i).value) && !Faultless(batch, encodes)
  {
  }

  /** The inner loop: the index of the first witness that cannot be encoded, or the length of the path. */
  method EncodeWitnesses(path: seq<Cid>, encodes: Encodes) returns (j: nat)
    ensures j == FirstNotEncoded(path, encodes)
  {
    j := 0;
    while j < |path| && encodes(path[j])
      invariant 0 <= j <= |path| && forall k :: 0 <= k < j ==> encodes(path[k])
    {
      j := j + 1;
    }
  }

  /** Builds the arrays: they describe the batch without its repeats. */
  method BuildArrays(batch: seq<Revocation>, encodes: Encodes) returns (r: Result<Arrays, AddError>)
    ensures r.Ok? <==> Faultless(batch, encodes)
    ensures r.Ok? ==> HasPaths(Dedupe(batch)) && Describes(r.value, Dedupe(batch))
    ensures r.Err? ==> FailsWith(batch, encodes, r.error)
  {
    var a := Arrays([], [], [], [], []);
    var added: set<Cid> := {};
    for i := 0 to |batch|
      invariant Built(batch, i, a, added)
      invariant NoFaultBefore(batch, encodes, i)
    {
      var revocation := batch[i];
      FaultIs(batch, encodes, i, a, added);
      if |revocation.path| == 0 {
        FailsHere(batch, encodes, i);
        return Err(NoPath(i));
      }
      BuildMore(batch, i, a, added);
      if revocation.cause in added {
        continue;
      }
      added := added + {revocation.cause};
      if !encodes(revocation.cause) {
        FailsHere(batch, encodes, i);
        return Err(CauseNotEncoded(i));
      }
      var failed := EncodeWitnesses(revocation.path, encodes);
      if failed < |revocation.path| {
        FailsHere(batch, encodes, i);
        return Err(WitnessNotEncoded(i, failed));
      }
      a := Append(a, revocation);
    }
    assert batch[..|batch|] == batch;
    return Ok(a);
  }

  // ------------------------------------------------------------- round trip

  lemma ToInt32Fits(x: int)
    requires 0 <= x < TWO31
    ensures ToInt32(x) == x
  {
  }

  lemma ToInt32Wraps(x: int) returns (k: int)
    requires x >= TWO31
    ensures ToInt32(x) == x - k * TWO32 && k >= 1 && ToInt32(x) < TWO31
  {
    k := (x + TWO31) / TWO32;
  }

  /** The part of the flat array that is row `i`'s. */
  lemma {:induction false} FlattenSlice(batch: seq<Revocation>, i: nat)
    requires i < |batch|
    ensures |Flatten(batch[..i])| + |batch[i].path| == |Flatten(batch[..i + 1])| <= |Flatten(batch)|
    ensures Flatten(batch)[|Flatten(batch[..i])|..|Flatten(batch[..i + 1])|] == batch[i].path
    decreases |batch|
  {
    var n := |batch| - 1;
    if i == n {
      assert batch[..n + 1] == batch;
    } else {
      FlattenSlice(batch[..n], i);
      assert batch[..n][..i] == batch[..i] && batch[..n][..i + 1] == batch[..i + 1];
    }
  }

  lemma RowFits(a: Arrays, batch: seq<Revocation>, i: nat)
    requires HasPaths(batch) && Describes(a, batch) && i < |batch| && |a.flat| < TWO31
    ensures Slice(a.flat, a.starts[i], a.ends[i]) == batch[i].path
  {
    FlattenSlice(batch, i);
    assert HasPath(batch[i]) && RowDescribed(a, batch, i);
    ToInt32Fits(|Flatten(batch[..i])| + 1);
    ToInt32Fits(|Flatten(batch[..i + 1])|);
  }

  /** The first row whose end does not fit in an int32 is stored with the wrong number of witnesses. */
  lemma RowWraps(a: Arrays, batch: seq<Revocation>, i: nat)
    requires HasPaths(batch) && Describes(a, batch) && i < |batch|
    requires |Flatten(batch[..i])| < TWO31 <= |Flatten(batch[..i + 1])|
    ensures |Slice(a.flat, a.starts[i], a.ends[i])| != |batch[i].path|
  {
    FlattenSlice(batch, i);
    assert HasPath(batch[i]) && RowDescribed(a, batch, i);
    var before, end := |Flatten(batch[..i])|, |Flatten(batch[..i + 1])|;
    var k := ToInt32Wraps(end);
    if before + 1 < TWO31 {
      ToInt32Fits(before + 1);
    }
  }

  lemma {:induction false} FirstPast(batch: seq<Revocation>) returns (i: nat)
    requires |Flatten(batch)| >= TWO31
    ensures i < |batch| && |Flatten(batch[..i])| < TWO31 <= |Flatten(batch[..i + 1])|
    decreases |batch|
  {
    var before := batch[..|batch| - 1];
    if |Flatten(before)| >= TWO31 {
      i := FirstPast(before);
      assert before[..i] == batch[..i] && before[..i + 1] == batch[..i + 1];
    } else {
      i := |batch| - 1;
      assert batch[..i + 1] == batch;
    }
  }

  /** The rows selected are the batch's, paths and all, if and only if its witnesses number less than 2^31. */
  lemma RowsAreIff(a: Arrays, batch: seq<Revocation>)
    requires HasPaths(batch) && Describes(a, batch)
    ensures RowsAre(a, batch) <==> |a.flat| < TWO31
  {
    if |a.flat| < TWO31 {
      forall i | 0 <= i < |batch|
        ensures Unnest(a)[i] == RowOf(batch[i])
      {
        RowFits(a, batch, i);
        assert RowDescribed(a, batch, i);
      }
    } else {
      var i := FirstPast(batch);
      RowWraps(a, batch, i);
      assert Unnest(a)[i] != RowOf(batch[i]);
    }
  }

  // -------------------------------------------------------------- refinement

  function RowsOf(batch: seq<Revocation>): (rows: seq<NewRow>)
    requires HasPaths(batch)
    ensures |rows| == |batch|
    ensures forall i :: 0 <= i < |batch| ==> rows[i] == RowOf(batch[i])
  {
    seq(|batch|, i requires 0 <= i < |batch| => RowOf(batch[i]))
  }

  lemma {:induction false} InsertKeys(table: Table, rows: seq<NewRow>, now: int)
    ensures forall id :: id in Insert(table, rows, now) <==> id in table || exists r :: r in rows && r.id == id
    decreases |rows|
  {
    if rows == [] {
    } else {
      var before := rows[..|rows| - 1];
      InsertKeys(table, before, now);
      assert forall r :: r in rows <==> r in before || r == rows[|rows| - 1];
    }
  }

  lemma InsertLast(table: Table, rows: seq<NewRow>, row: NewRow, now: int)
    ensures Insert(table, rows + [row], now) == Insert(Insert(table, rows, now), [row], now)
  {
    var table' := Insert(table, rows, now);
    assert (rows + [row])[..|rows|] == rows;
    assert [row][..0] == [] && Insert(table', [], now) == table';
    assert Insert(table', [row][..0], now) == table';
  }

  /** A cause kept before is in the table by now. */
  lemma {:induction false} KeptIsInserted(table: Table, kept: seq<Revocation>, cause: Cid, now: int)
    requires HasPaths(kept) && HasCause(kept, cause)
    ensures cause in Insert(table, RowsOf(kept), now)
  {
    var rows := RowsOf(kept);
    var q :| q in kept && q.cause == cause;
    var i :| 0 <= i < |kept| && kept[i] == q;
    assert rows[i].id == cause && rows[i] in rows;
    InsertKeys(table, rows, now);
  }

  lemma {:induction false} RowsAppend(kept: seq<Revocation>, r: Revocation)
    requires HasPaths(kept) && HasPath(r) && HasPaths(kept + [r])
    ensures RowsOf(kept + [r]) == RowsOf(kept) + [RowOf(r)]
  {
  }

  lemma {:induction false} InsertOneMore(table: Table, kept: seq<Revocation>, r: Revocation, now: int)
    requires HasPaths(kept) && HasPath(r)
    requires HasPaths(if HasCause(kept, r.cause) then kept else kept + [r])
    ensures Insert(table, RowsOf(if HasCause(kept, r.cause) then kept else kept + [r]), now)
         == AddOne(Insert(table, RowsOf(kept), now), r, now)
  {
    if HasCause(kept, r.cause) {
      KeptIsInserted(table, kept, r.cause, now);
      SkipKnown(Insert(table, RowsOf(kept), now), RowOf(r), now);
    } else {
      RowsAppend(kept, r);
      InsertLast(table, RowsOf(kept), RowOf(r), now);
    }
  }

  /** One INSERT of the batch without its repeats does what adding each of it does. */
  lemma {:induction false} InsertDeduped(table: Table, batch: seq<Revocation>, now: int)
    requires HasPaths(batch) && HasPaths(Dedupe(batch))
    ensures Insert(table, RowsOf(Dedupe(batch)), now) == AddEach(table, batch, now)
    decreases |batch|
  {
    if batch == [] {
    } else {
      var before, r := batch[..|batch| - 1], batch[|batch| - 1];
      assert HasPath(r);
      DedupeKeepsPaths(before);
      InsertDeduped(table, before, now);
      InsertOneMore(table, Dedupe(before), r, now);
    }
  }

  lemma SkipKnown(table: Table, row: NewRow, now: int)
    requires row.id in table
    ensures Insert(table, [row], now) == table
  {
    assert [row][..0] == [];
    assert Insert(table, [row][..0], now) == table;
  }

  lemma {:induction false} UnnestIsRows(a: Arrays, batch: seq<Revocation>)
    requires HasPaths(batch) && RowsAre(a, batch)
    ensures Unnest(a) == RowsOf(batch)
  {
  }

  /**
   * A batch refines single adds: with fewer than 2^31 witnesses, the one
   * statement leaves the table that adding the revocations one by one at the
   * same time would, the first occurrence of each cause winning.
   */
  lemma {:induction false} BatchRefinesSingles(table: Table, batch: seq<Revocation>, a: Arrays, now: int)
    requires HasPaths(batch) && HasPaths(Dedupe(batch)) && Describes(a, Dedupe(batch))
    requires |Flatten(Dedupe(batch))| < TWO31
    ensures Insert(table, Unnest(a), now) == AddEach(table, batch, now)
  {
    RowsAreIff(a, Dedupe(batch));
    UnnestIsRows(a, Dedupe(batch));
    InsertDeduped(table, batch, now);
  }

  // ------------------------------------------------------------------ store

  /** Whether row `id` comes before the other in ORDER BY recorded_at DESC, id DESC, or is the same. */
  predicate AtLeast(table: Table, id: Cid, other: Cid)
    requires id in table && other in table
  {
    var a, b := table[id].recordedAt, table[other].recordedAt;
    a > b || (a == b && id.rank >= other.rank)
  }

  ghost predicate IsLatest(table: Table, delegation: Cid, id: Cid) {
    && id in table && table[id].revoked == delegation
    && (forall other :: other in table && table[other].revoked == delegation ==> AtLeast(table, id, other))
  }

  /** Ids differ, and with them the order of two rows recorded at one time: one row at most is latest. */
  lemma {:induction false} OnlyLatest(table: Table, delegation: Cid, id: Cid)
    requires IsLatest(table, delegation, id)
    ensures forall other :: IsLatest(table, delegation, other) ==> other == id
  {
  }

  /** The record a row stands for. */
  function RecordOf(table: Table, id: Cid): Record
    requires id in table
  {
    Record(table[id].revoked, table[id].path, id, table[id].recordedAt)
  }

  /** What the query may find: the record of the latest row, or nothing when there is no row. */
  ghost predicate Gets(table: Table, delegation: Cid, found: Option<Record>) {
    && (found.None? ==> forall id :: id in table ==> table[id].revoked != delegation)
    && (found.Some? ==>
          IsLatest(table, delegation, found.value.cause) && found.value == RecordOf(table, found.value.cause))
  }

  datatype GetError = NotFound | QueryFailed | NotDecoded

  /** The table once the statement has run on the arrays of a batch, whether or not its witnesses fit an int32. */
  ghost predicate Inserted(before: Table, batch: seq<Revocation>, now: int, after: Table) {
    && HasPaths(Dedupe(batch))
    && exists a :: Describes(a, Dedupe(batch)) && after == Insert(before, Unnest(a), now)
  }

  class Store {
    var table: Table

    constructor ()
      ensures table == map[]
    {
      table := map[];
    }

    /**
     * A failed call changes nothing; `writeFails` says whether the statement
     * does. `now` is the transaction's time.
     */
    method AddBatch(cancelled: bool, batch: seq<Revocation>, encodes: Encodes, writeFails: bool, now: int)
      returns (r: Result<(), AddError>)
      modifies this
      ensures r.Ok? <==> !cancelled && Faultless(batch, encodes) && (batch == [] || !writeFails)
      ensures Faultless(batch, encodes) <==> forall i :: 0 <= i < |batch| ==> Sendable(batch, encodes, i)
      ensures cancelled <==> r == Err(AddCancelled)
      ensures r == Err(WriteFailed) <==> !cancelled && Faultless(batch, encodes) && batch != [] && writeFails
      ensures r.Err? ==> r.error in {AddCancelled, WriteFailed} || FailsWith(batch, encodes, r.error)
      ensures r.Err? || batch == [] ==> table == old(table)
      ensures r.Ok? && batch != [] ==> Inserted(old(table), batch, now, table)
      ensures r.Ok? && |Flatten(Dedupe(batch))| < TWO31 ==>
        HasPaths(batch) && table == AddEach(old(table), batch, now)
    {
      FaultlessIff(batch, encodes);
      if cancelled {
        return Err(AddCancelled);
      }
      if |batch| == 0 {
        return Ok(());
      }
      var built := BuildArrays(batch, encodes);
      if built.Err? {
        return Err(built.error);
      }
      if writeFails {
        return Err(WriteFailed);
      }
      FaultlessHavePaths(batch, encodes);
      table := Insert(table, Unnest(built.value), now);
      assert Inserted(old(table), batch, now, table);
      if |Flatten(Dedupe(batch))| < TWO31 {
        BatchRefinesSingles(old(table), batch, built.value, now);
      }
      return Ok(());
    }

    /** The latest row for a delegation, found by comparing every row for it, unless the query or decoding fails. */
    method Get(delegation: Cid, queryFails: bool, decodes: Cid -> bool) returns (r: Result<Record, GetError>)
      ensures r == Err(QueryFailed) <==> queryFails
      ensures r == Err(NotFound) <==> !queryFails && forall id :: id in table ==> table[id].revoked != delegation
      ensures r == Err(NotDecoded) <==> !queryFails && exists id :: IsLatest(table, delegation, id) && !decodes(id)
      ensures r.Ok? ==>
        var id := r.value.cause;
        IsLatest(table, delegation, id) && decodes(id) && r.value == RecordOf(table, id)
      ensures r.Ok? ==> forall other ::
        other in table && table[other].revoked == delegation && other != r.value.cause ==>
          || table[other].recordedAt < r.value.recordedAt
          || (table[other].recordedAt == r.value.recordedAt && other.rank < r.value.cause.rank)
      ensures r.Ok? ==> Gets(table, delegation, Some(r.value))
    {
      var best: Option<Cid> := None;
      var todo := table.Keys;
      while todo != {}
        invariant todo <= table.Keys
        invariant best.Some? ==> best.value in table && table[best.value].revoked == delegation
        invariant forall id :: id in table && id !in todo && table[id].revoked == delegation ==>
          best.Some? && AtLeast(table, best.value, id)
        decreases todo
      {
        var id :| id in todo;
        if table[id].revoked == delegation && (best.None? || !AtLeast(table, best.value, id)) {
          best := Some(id);
        }
        todo := todo - {id};
      }
      if queryFails {
        return Err(QueryFailed);
      }
      if best.None? {
        return Err(NotFound);
      }
      OnlyLatest(table, delegation, best.value);
      if !decodes(best.value) {
        return Err(NotDecoded);
      }
      return Ok(RecordOf(table, best.value));
    }
  }
}
