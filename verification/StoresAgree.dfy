// The in-memory store and the Postgres store, side by side: when, after the
// same batches, Get returns the same record for every delegation.

module StoresAgree {
  import opened Types
  import opened Submissions
  import Mem = MemoryStore
  import Pg = PostgresBatch

  /** A batch and the time it is recorded at. */
  datatype Batch = Batch(items: seq<Revocation>, at: int)

  ghost predicate AllHavePaths(batches: seq<Batch>) {
    forall b :: b in batches ==> HasPaths(b.items)
  }

  // ----------------------------------------------------------- both stores

  function MemoryAfter(batches: seq<Batch>): Mem.Log
    requires AllHavePaths(batches)
  {
    if batches == [] then Mem.Log(map[], 0)
    else
      var n := |batches| - 1;
      assert batches[n] in batches;
      Mem.AddAll(MemoryAfter(batches[..n]), batches[n].items, batches[n].at)
  }

  function PostgresAfter(batches: seq<Batch>): Pg.Table
    requires AllHavePaths(batches)
  {
    if batches == [] then map[]
    else
      var n := |batches| - 1;
      assert batches[n] in batches;
      Pg.AddEach(PostgresAfter(batches[..n]), batches[n].items, batches[n].at)
  }

  /** Whatever Postgres may get for a delegation is what memory gets. */
  ghost predicate GetsAgree(log: Mem.Log, table: Pg.Table) {
    forall d, found :: Pg.Gets(table, d, found) <==> found == Mem.Current(log, d)
  }

  /** The stores agree after these batches, and did after each of them. */
  ghost predicate AlwaysAgree(batches: seq<Batch>)
    requires AllHavePaths(batches)
  {
    forall k :: 0 <= k <= |batches| ==> GetsAgree(MemoryAfter(batches[..k]), PostgresAfter(batches[..k]))
  }

  // ------------------------------------------------------------- histories

  /** Every revocation submitted, in order. */
  function Submitted(batches: seq<Batch>): seq<Submission> {
    if batches == [] then []
    else
      var n := |batches| - 1;
      Submitted(batches[..n]) + Timed(batches[n].items, batches[n].at)
  }

  /** Record times do not go back, and no two causes revoke one delegation at one time. */
  ghost predicate TimesTell(s: seq<Submission>)
    requires HavePaths(s)
  {
    && InTime(s)
    && (forall i, j :: 0 <= i < j < |s| && s[i].at == s[j].at && Revoked(s[i].r) == Revoked(s[j].r) ==>
          s[i].r.cause == s[j].r.cause)
  }

  ghost predicate Regular(s: seq<Submission>) {
    HavePaths(s) && TimesTell(s) && CausesName(s)
  }

  lemma {:induction false} RegularPrefix(s: seq<Submission>, all: seq<Submission>)
    requires s <= all && Regular(all)
    ensures Regular(s)
    ensures NoneReturns(all) ==> NoneReturns(s)
  {
    Prefix(s, all);
    assert forall i :: 0 <= i < |s| ==> s[i] == all[i];
  }

  lemma {:induction false} SubmittedGrows(batches: seq<Batch>, k: nat)
    requires k <= |batches|
    ensures Submitted(batches[..k]) <= Submitted(batches)
    decreases |batches|
  {
    if k == |batches| {
      assert batches[..k] == batches;
    } else {
      SubmittedGrows(batches[..|batches| - 1], k);
      assert batches[..|batches| - 1][..k] == batches[..k];
    }
  }

  // -------------------------------------------------------- one at a time

  function PostgresEach(s: seq<Submission>): Pg.Table
    requires HavePaths(s)
  {
    if s == [] then map[]
    else
      var n := |s| - 1;
      assert HasPath(s[n].r);
      Pg.AddOne(PostgresEach(s[..n]), s[n].r, s[n].at)
  }

  lemma PostgresLast(s: seq<Submission>, x: Submission)
    requires HavePaths(s) && HasPath(x.r) && HavePaths(s + [x])
    ensures PostgresEach(s + [x]) == Pg.AddOne(PostgresEach(s), x.r, x.at)
  {
    assert (s + [x])[..|s|] == s;
  }

  lemma {:induction false} RowsOfBatch(s: seq<Submission>, items: seq<Revocation>, at: int)
    requires HavePaths(s) && HasPaths(items) && HavePaths(s + Timed(items, at))
    ensures Pg.AddEach(PostgresEach(s), items, at) == PostgresEach(s + Timed(items, at))
    decreases |items|
  {
    if items == [] {
      assert s + Timed(items, at) == s;
    } else {
      var n := |items| - 1;
      MorePaths(s, items[..n], at);
      RowsOfBatch(s, items[..n], at);
      TimedLast(s, items, at);
      assert HasPath(items[n]);
      PostgresLast(s + Timed(items[..n], at), Submission(items[n], at));
    }
  }

  lemma {:induction false} BatchesAreEach(batches: seq<Batch>)
    requires AllHavePaths(batches)
    ensures HavePaths(Submitted(batches))
    ensures MemoryAfter(batches) == MemoryEach(Submitted(batches))
    ensures PostgresAfter(batches) == PostgresEach(Submitted(batches))
    decreases |batches|
  {
    if batches == [] {
    } else {
      var n := |batches| - 1;
      BatchesAreEach(batches[..n]);
      assert batches[n] in batches;
      BatchIsEach(Submitted(batches[..n]), batches[n].items, batches[n].at);
      RowsOfBatch(Submitted(batches[..n]), batches[n].items, batches[n].at);
    }
  }

  // -------------------------------------------------------------- agreement

  /** Row `id` was brought by submission `i`. */
  ghost predicate Brought(s: seq<Submission>, table: Pg.Table, id: Cid, i: nat)
    requires HavePaths(s) && id in table
  {
    i < |s| && s[i].r.cause == id && table[id].revoked == Revoked(s[i].r) && table[id].recordedAt == s[i].at
  }

  ghost predicate RowsInv(s: seq<Submission>, table: Pg.Table)
    requires HavePaths(s)
  {
    && (forall i :: 0 <= i < |s| ==> s[i].r.cause in table)
    && (forall id :: id in table ==> exists i: nat :: Brought(s, table, id, i))
  }

  /** The current entry of each delegation is its latest row. */
  ghost predicate Agree(log: Mem.Log, table: Pg.Table) {
    && (forall d :: d in log.records ==>
          var record := log.records[d].record;
          Pg.IsLatest(table, d, record.cause) && record == Pg.RecordOf(table, record.cause))
    && (forall id :: id in table ==> table[id].revoked in log.records)
  }

  lemma AddOneRow(table: Pg.Table, r: Revocation, at: int)
    requires HasPath(r)
    ensures Pg.AddOne(table, r, at) ==
      if r.cause in table then table else table[r.cause := Pg.StoredRow(Revoked(r), r.path, at)]
  {
    assert [Pg.RowOf(r)][..0] == [];
    assert Pg.Insert(table, [Pg.RowOf(r)][..0], at) == table;
  }

  lemma {:induction false} RowsKeep(s: seq<Submission>, table: Pg.Table, x: Submission)
    requires HavePaths(s) && HasPath(x.r) && HavePaths(s + [x]) && RowsInv(s, table)
    ensures RowsInv(s + [x], Pg.AddOne(table, x.r, x.at))
  {
    var all, n, table' := s + [x], |s|, Pg.AddOne(table, x.r, x.at);
    AddOneRow(table, x.r, x.at);
    assert forall i :: 0 <= i < n ==> all[i] == s[i];
    forall id | id in table'
      ensures exists i: nat :: Brought(all, table', id, i)
    {
      if id in table {
        var i: nat :| Brought(s, table, id, i);
        assert Brought(all, table', id, i);
      } else {
        assert Brought(all, table', id, n);
      }
    }
  }

  lemma {:induction false} RowsEach(s: seq<Submission>)
    requires HavePaths(s)
    ensures RowsInv(s, PostgresEach(s))
    decreases |s|
  {
    if s == [] {
    } else {
      var n := |s| - 1;
      assert s == s[..n] + [s[n]] && HasPath(s[n].r);
      RowsEach(s[..n]);
      RowsKeep(s[..n], PostgresEach(s[..n]), s[n]);
    }
  }

  /** The primary key and the repeat check recognise the same revocations, unless one returns. */
  lemma {:induction false} KnownIffRepeat(s: seq<Submission>, x: Submission)
    requires HavePaths(s) && HasPath(x.r) && HavePaths(s + [x]) && CausesName(s + [x])
    requires NoneReturns(s + [x])
    ensures x.r.cause in PostgresEach(s) <==> Mem.Repeats(MemoryEach(s), x.r)
  {
    ReturnsNoneIff(s, x);
    RowsEach(s);
    EntriesEach(s);
    if x.r.cause in PostgresEach(s) {
      var i: nat :| Brought(s, PostgresEach(s), x.r.cause, i);
      assert HasCause(s, x.r.cause);
    } else if Mem.Repeats(MemoryEach(s), x.r) {
      var last := LastOf(s, MemoryEach(s), Revoked(x.r));
    }
  }

  /** A new row for a delegation is later than every other row for it. */
  lemma {:induction false} NewRowIsLatest(s: seq<Submission>, table: Pg.Table, x: Submission)
    requires HavePaths(s) && HasPath(x.r) && Regular(s + [x]) && RowsInv(s, table) && x.r.cause !in table
    ensures Pg.IsLatest(table[x.r.cause := Pg.StoredRow(Revoked(x.r), x.r.path, x.at)], Revoked(x.r), x.r.cause)
  {
    var all, n := s + [x], |s|;
    forall id | id in table && table[id].revoked == Revoked(x.r)
      ensures table[id].recordedAt < x.at
    {
      var i: nat :| Brought(s, table, id, i);
      assert all[i] == s[i] && all[n] == x;
    }
  }

  /** A new row leaves the latest of every other delegation as it was. */
  lemma OthersStayLatest(table: Pg.Table, id: Cid, row: Pg.StoredRow, d: Cid, latest: Cid)
    requires id !in table && row.revoked != d && Pg.IsLatest(table, d, latest)
    ensures Pg.IsLatest(table[id := row], d, latest)
  {
    var table' := table[id := row];
    forall other | other in table' && table'[other].revoked == d
      ensures Pg.AtLeast(table', latest, other)
    {
      assert Pg.AtLeast(table, latest, other);
    }
  }

  lemma {:induction false} NewRowAgrees(log: Mem.Log, table: Pg.Table, r: Revocation, at: int)
    requires HasPath(r) && Agree(log, table) && r.cause !in table && !Mem.Repeats(log, r)
    requires Pg.IsLatest(table[r.cause := Pg.StoredRow(Revoked(r), r.path, at)], Revoked(r), r.cause)
    ensures Agree(Mem.AddOne(log, r, at), table[r.cause := Pg.StoredRow(Revoked(r), r.path, at)])
  {
    forall d | d in log.records && d != Revoked(r)
      ensures Pg.IsLatest(table[r.cause := Pg.StoredRow(Revoked(r), r.path, at)], d, log.records[d].record.cause)
    {
      OthersStayLatest(table, r.cause, Pg.StoredRow(Revoked(r), r.path, at), d, log.records[d].record.cause);
    }
  }

  /** Submission by submission, the current record of a delegation is its latest row. */
  lemma {:induction false} EachAgrees(s: seq<Submission>)
    requires Regular(s) && NoneReturns(s)
    ensures Agree(MemoryEach(s), PostgresEach(s))
    decreases |s|
  {
    if s == [] {
    } else {
      var n := |s| - 1;
      var before, x := s[..n], s[n];
      assert s == before + [x] && HasPath(x.r);
      RegularPrefix(before, s);
      EachAgrees(before);
      KnownIffRepeat(before, x);
      AddOneRow(PostgresEach(before), x.r, x.at);
      if x.r.cause !in PostgresEach(before) {
        RowsEach(before);
        NewRowIsLatest(before, PostgresEach(before), x);
        NewRowAgrees(MemoryEach(before), PostgresEach(before), x.r, x.at);
      }
    }
  }

  lemma AgreedGet(log: Mem.Log, table: Pg.Table)
    requires Agree(log, table)
    ensures GetsAgree(log, table)
  {
    forall d, found
      ensures Pg.Gets(table, d, found) <==> found == Mem.Current(log, d)
    {
      if Pg.Gets(table, d, found) && found.Some? {
        assert table[found.value.cause].revoked == d;
        LatestOnce(table, d, found.value.cause, log.records[d].record.cause);
      }
    }
  }

  lemma LatestOnce(table: Pg.Table, d: Cid, one: Cid, other: Cid)
    requires Pg.IsLatest(table, d, one) && Pg.IsLatest(table, d, other)
    ensures one == other
  {
    assert Pg.AtLeast(table, one, other) && Pg.AtLeast(table, other, one);
  }

  lemma {:induction false} GetsMean(log: Mem.Log, table: Pg.Table)
    requires GetsAgree(log, table)
    ensures Agree(log, table)
  {
    forall d | d in log.records
      ensures
        var record := log.records[d].record;
        Pg.IsLatest(table, d, record.cause) && record == Pg.RecordOf(table, record.cause)
    {
      assert Pg.Gets(table, d, Mem.Current(log, d));
    }
    forall id | id in table
      ensures table[id].revoked in log.records
    {
      assert !Pg.Gets(table, table[id].revoked, None);
    }
  }

  // ------------------------------------------------- any history whatever

  /** Submission `c` made the current entry of `d`: only its cause followed, and another came before it. */
  ghost predicate MadeCurrent(s: seq<Submission>, d: Cid, c: nat)
    requires HavePaths(s)
  {
    && c < |s| && Revoked(s[c].r) == d
    && (forall j :: c < j < |s| && Revoked(s[j].r) == d ==> s[j].r.cause == s[c].r.cause)
    && (forall p: nat :: IsLast(s[..c], d, p) ==> s[p].r.cause != s[c].r.cause)
  }

  /** Submission `f` is the first with its cause, so it brought the row. */
  ghost predicate IsFirst(s: seq<Submission>, f: nat) {
    f < |s| && forall j :: 0 <= j < f ==> s[j].r.cause != s[f].r.cause
  }

  function RecordOf(x: Submission): Record
    requires HasPath(x.r)
  {
    Record(Revoked(x.r), x.r.path, x.r.cause, x.at)
  }

  ghost predicate EntryMade(s: seq<Submission>, log: Mem.Log, d: Cid, c: nat)
    requires HavePaths(s)
  {
    MadeCurrent(s, d, c) && d in log.records && log.records[d].record == RecordOf(s[c])
  }

  ghost predicate RowMade(s: seq<Submission>, table: Pg.Table, id: Cid, f: nat)
    requires HavePaths(s)
  {
    IsFirst(s, f) && s[f].r.cause == id && id in table && Pg.RecordOf(table, id) == RecordOf(s[f])
  }

  lemma {:induction false} MadeStays(s: seq<Submission>, x: Submission, d: Cid, c: nat)
    requires HavePaths(s) && HasPath(x.r) && HavePaths(s + [x]) && MadeCurrent(s, d, c)
    requires Revoked(x.r) == d ==> x.r.cause == s[c].r.cause
    ensures MadeCurrent(s + [x], d, c) && (s + [x])[c] == s[c]
  {
    assert (s + [x])[..c] == s[..c];
  }

  lemma {:induction false} MadeNow(s: seq<Submission>, x: Submission)
    requires HavePaths(s) && HasPath(x.r) && HavePaths(s + [x]) && !Mem.Repeats(MemoryEach(s), x.r)
    ensures MadeCurrent(s + [x], Revoked(x.r), |s|)
  {
    var d := Revoked(x.r);
    EntriesEach(s);
    assert (s + [x])[..|s|] == s;
    forall p: nat | IsLast(s, d, p)
      ensures s[p].r.cause != x.r.cause
    {
      var last := LastOf(s, MemoryEach(s), d);
      assert last == p;
    }
  }

  /** Every current entry is what the submission that made it brought. */
  lemma {:induction false} EntriesMade(s: seq<Submission>, d: Cid) returns (c: nat)
    requires HavePaths(s) && d in MemoryEach(s).records
    ensures EntryMade(s, MemoryEach(s), d, c)
    decreases |s|
  {
    var n := |s| - 1;
    var before, x := s[..n], s[n];
    assert s == before + [x] && HasPath(x.r);
    if Revoked(x.r) == d && !Mem.Repeats(MemoryEach(before), x.r) {
      MadeNow(before, x);
      c := n;
    } else {
      c := EntriesMade(before, d);
      MadeStays(before, x, d, c);
    }
  }

  lemma {:induction false} FirstStays(s: seq<Submission>, x: Submission, f: nat)
    requires IsFirst(s, f)
    ensures IsFirst(s + [x], f) && (s + [x])[f] == s[f]
  {
  }

  /** Every row is what the first submission with its cause brought. */
  lemma {:induction false} RowsMade(s: seq<Submission>, id: Cid) returns (f: nat)
    requires HavePaths(s) && id in PostgresEach(s)
    ensures RowMade(s, PostgresEach(s), id, f)
    decreases |s|
  {
    var n := |s| - 1;
    var before, x := s[..n], s[n];
    assert s == before + [x] && HasPath(x.r);
    AddOneRow(PostgresEach(before), x.r, x.at);
    if id in PostgresEach(before) {
      f := RowsMade(before, id);
      FirstStays(before, x, f);
    } else {
      RowsEach(before);
      f := n;
    }
  }

  /** The submission that made an entry is one, and so is the first with a cause. */
  lemma {:induction false} MadeOnce(s: seq<Submission>, d: Cid, one: nat, other: nat)
    requires HavePaths(s) && MadeCurrent(s, d, one) && MadeCurrent(s, d, other)
    ensures one == other
  {
    if one < other {
      NotMadeAgain(s, d, one, other);
    } else if other < one {
      NotMadeAgain(s, d, other, one);
    }
  }

  lemma {:induction false} NotMadeAgain(s: seq<Submission>, d: Cid, one: nat, other: nat)
    requires HavePaths(s) && MadeCurrent(s, d, one) && one < other < |s| && Revoked(s[other].r) == d
    ensures !MadeCurrent(s, d, other)
  {
    var p := LastBefore(s, d, one, other);
    assert IsLast(s[..other], d, p) && s[p].r.cause == s[other].r.cause;
  }

  lemma {:induction false} LastBefore(s: seq<Submission>, d: Cid, from: nat, to: nat) returns (p: nat)
    requires HavePaths(s) && from < to <= |s| && Revoked(s[from].r) == d
    ensures from <= p < to && IsLast(s[..to], d, p)
    decreases |s| - from
  {
    if next: nat :| from < next < to && Revoked(s[next].r) == d {
      p := LastBefore(s, d, next, to);
    } else {
      p := from;
    }
  }

  /** The row of `g` does not come after the row of `f` in Get's order. */
  ghost predicate NotAfter(s: seq<Submission>, g: nat, f: nat)
    requires g < |s| && f < |s|
  {
    s[g].at < s[f].at || (s[g].at == s[f].at && s[g].r.cause.rank <= s[f].r.cause.rank)
  }

  /**
   * What each delegation had last keeps the record it first came with, and no
   * other cause for the delegation first came later, or at that time with a
   * greater id.
   */
  ghost predicate LastIsLatest(s: seq<Submission>)
    requires HavePaths(s)
  {
    forall d, c: nat, f: nat :: MadeCurrent(s, d, c) && IsFirst(s, f) && s[f].r.cause == s[c].r.cause ==>
      RecordOf(s[f]) == RecordOf(s[c]) && NoneLater(s, d, f)
  }

  ghost predicate NoneLater(s: seq<Submission>, d: Cid, f: nat)
    requires HavePaths(s) && f < |s|
  {
    forall g: nat :: IsFirst(s, g) && Revoked(s[g].r) == d ==> NotAfter(s, g, f)
  }

  lemma FirstOnce(s: seq<Submission>, one: nat, other: nat)
    requires IsFirst(s, one) && IsFirst(s, other) && s[one].r.cause == s[other].r.cause
    ensures one == other
  {
    if one < other {
    } else if other < one {
    }
  }

  /** One row is the latest of its delegation exactly when no other first submission comes after its own. */
  lemma {:induction false} LatestIff(s: seq<Submission>, d: Cid, f: nat)
    requires HavePaths(s) && IsFirst(s, f) && Revoked(s[f].r) == d
    ensures Pg.IsLatest(PostgresEach(s), d, s[f].r.cause) <==> NoneLater(s, d, f)
  {
    var table, id := PostgresEach(s), s[f].r.cause;
    RowsEach(s);
    var own := RowsMade(s, id);
    FirstOnce(s, own, f);
    if NoneLater(s, d, f) {
      forall other | other in table && table[other].revoked == d
        ensures Pg.AtLeast(table, id, other)
      {
        var g := RowsMade(s, other);
        assert NotAfter(s, g, f);
      }
    }
    if Pg.IsLatest(table, d, id) {
      forall g: nat | IsFirst(s, g) && Revoked(s[g].r) == d
        ensures NotAfter(s, g, f)
      {
        var made := RowsMade(s, s[g].r.cause);
        FirstOnce(s, made, g);
        assert Pg.AtLeast(table, id, s[g].r.cause);
      }
    }
  }

  /** The stores agree on one delegation. */
  lemma {:induction false} EntryAgreesIff(s: seq<Submission>, d: Cid, c: nat, f: nat)
    requires HavePaths(s) && EntryMade(s, MemoryEach(s), d, c) && RowMade(s, PostgresEach(s), s[c].r.cause, f)
    ensures
      var record := MemoryEach(s).records[d].record;
      (record.cause in PostgresEach(s) && Pg.IsLatest(PostgresEach(s), d, record.cause)
       && record == Pg.RecordOf(PostgresEach(s), record.cause))
      <==> RecordOf(s[f]) == RecordOf(s[c]) && NoneLater(s, d, f)
  {
    if Revoked(s[f].r) == d {
      LatestIff(s, d, f);
    }
  }

  lemma {:induction false} EntryAndRow(s: seq<Submission>, d: Cid) returns (c: nat, f: nat)
    requires HavePaths(s) && d in MemoryEach(s).records
    ensures EntryMade(s, MemoryEach(s), d, c) && RowMade(s, PostgresEach(s), s[c].r.cause, f)
  {
    c := EntriesMade(s, d);
    RowsEach(s);
    f := RowsMade(s, s[c].r.cause);
  }

  lemma {:induction false} AgreeMeansLatest(s: seq<Submission>)
    requires HavePaths(s) && Agree(MemoryEach(s), PostgresEach(s))
    ensures LastIsLatest(s)
  {
    forall d, c: nat, f: nat | MadeCurrent(s, d, c) && IsFirst(s, f) && s[f].r.cause == s[c].r.cause
      ensures RecordOf(s[f]) == RecordOf(s[c]) && NoneLater(s, d, f)
    {
      EntriesEach(s);
      var c', f' := EntryAndRow(s, d);
      MadeOnce(s, d, c, c');
      FirstOnce(s, f, f');
      EntryAgreesIff(s, d, c, f);
    }
  }

  lemma {:induction false} LatestMeansOne(s: seq<Submission>, d: Cid)
    requires HavePaths(s) && LastIsLatest(s) && d in MemoryEach(s).records
    ensures
      var record := MemoryEach(s).records[d].record;
      record.cause in PostgresEach(s) && Pg.IsLatest(PostgresEach(s), d, record.cause)
      && record == Pg.RecordOf(PostgresEach(s), record.cause)
  {
    var c, f := EntryAndRow(s, d);
    assert MadeCurrent(s, d, c) && IsFirst(s, f) && s[f].r.cause == s[c].r.cause;
    EntryAgreesIff(s, d, c, f);
  }

  lemma {:induction false} RowIsCurrent(s: seq<Submission>, id: Cid)
    requires HavePaths(s) && id in PostgresEach(s)
    ensures PostgresEach(s)[id].revoked in MemoryEach(s).records
  {
    EntriesEach(s);
    var f := RowsMade(s, id);
  }

  lemma {:induction false} LatestMeansAgree(s: seq<Submission>)
    requires HavePaths(s) && LastIsLatest(s)
    ensures Agree(MemoryEach(s), PostgresEach(s))
  {
    var log, table := MemoryEach(s), PostgresEach(s);
    forall d | d in log.records
      ensures
        var record := log.records[d].record;
        record.cause in table && Pg.IsLatest(table, d, record.cause) && record == Pg.RecordOf(table, record.cause)
    {
      LatestMeansOne(s, d);
    }
    forall id | id in table
      ensures table[id].revoked in log.records
    {
      RowIsCurrent(s, id);
    }
  }

  /**
   * The exact condition, of any history whatever: after every batch both stores
   * return the same record for every delegation if and only if what each
   * delegation had last keeps the record it first came with, and no other cause
   * for it first came later, or at that time with a greater id.
   */
  lemma {:induction false} AlwaysAgreeIff(batches: seq<Batch>)
    requires AllHavePaths(batches)
    ensures forall k :: 0 <= k <= |batches| ==> HavePaths(Submitted(batches[..k]))
    ensures AlwaysAgree(batches) <==> forall k :: 0 <= k <= |batches| ==> LastIsLatest(Submitted(batches[..k]))
  {
    forall k | 0 <= k <= |batches|
      ensures HavePaths(Submitted(batches[..k]))
      ensures GetsAgree(MemoryAfter(batches[..k]), PostgresAfter(batches[..k]))
         <==> LastIsLatest(Submitted(batches[..k]))
    {
      AgreeIff(batches[..k]);
    }
  }

  lemma {:induction false} AgreeIff(batches: seq<Batch>)
    requires AllHavePaths(batches)
    ensures HavePaths(Submitted(batches))
    ensures GetsAgree(MemoryAfter(batches), PostgresAfter(batches)) <==> LastIsLatest(Submitted(batches))
  {
    BatchesAreEach(batches);
    var s := Submitted(batches);
    if GetsAgree(MemoryEach(s), PostgresEach(s)) {
      GetsMean(MemoryEach(s), PostgresEach(s));
      AgreeMeansLatest(s);
    }
    if LastIsLatest(s) {
      LatestMeansAgree(s);
      AgreedGet(MemoryEach(s), PostgresEach(s));
    }
  }

  // ------------------------------------------- histories told apart by time

  /** The stores agree after every batch of a history in which no cause returns. */
  lemma {:induction false} AgreeUnlessReturned(batches: seq<Batch>)
    requires AllHavePaths(batches) && Regular(Submitted(batches)) && NoneReturns(Submitted(batches))
    ensures AlwaysAgree(batches)
  {
    forall k | 0 <= k <= |batches|
      ensures GetsAgree(MemoryAfter(batches[..k]), PostgresAfter(batches[..k]))
    {
      SubmittedGrows(batches, k);
      RegularPrefix(Submitted(batches[..k]), Submitted(batches));
      BatchesAreEach(batches[..k]);
      EachAgrees(Submitted(batches[..k]));
      AgreedGet(MemoryAfter(batches[..k]), PostgresAfter(batches[..k]));
    }
  }

  // ----------------------------------------------------------- disagreement

  /**
   * Submission `i`, at time `at`, is what memory has for `d`, recorded at that
   * time, while the row of its cause is older.
   */
  ghost predicate Restamped(s: seq<Submission>, log: Mem.Log, table: Pg.Table, d: Cid, at: int, i: nat)
    requires HavePaths(s)
  {
    && i < |s| && s[i].at == at && Revoked(s[i].r) == d
    && d in log.records && log.records[d].record.cause == s[i].r.cause && log.records[d].record.recordedAt == at
    && s[i].r.cause in table && table[s[i].r.cause].recordedAt < at
  }

  lemma RestampedDisagrees(s: seq<Submission>, log: Mem.Log, table: Pg.Table, d: Cid, at: int, i: nat)
    requires HavePaths(s) && Restamped(s, log, table, d, at, i)
    ensures !GetsAgree(log, table)
  {
    assert !Pg.Gets(table, d, Mem.Current(log, d));
  }

  /** A cause that returns was superseded by a later submission for its delegation. */
  lemma {:induction false} Superseded(s: seq<Submission>, x: Submission, i: nat) returns (last: nat)
    requires HavePaths(s) && HasPath(x.r) && i < |s|
    requires Revoked(s[i].r) == Revoked(x.r) && s[i].r.cause == x.r.cause && !Mem.Repeats(MemoryEach(s), x.r)
    ensures i < last < |s| && Revoked(s[last].r) == Revoked(x.r) && s[last].r.cause != x.r.cause
  {
    EntriesEach(s);
    last := LastOf(s, MemoryEach(s), Revoked(x.r));
  }

  lemma {:induction false} BroughtBySubmission(s: seq<Submission>, cause: Cid) returns (i: nat)
    requires HavePaths(s) && HasCause(s, cause)
    ensures cause in PostgresEach(s) && Brought(s, PostgresEach(s), cause, i)
  {
    RowsEach(s);
    i :| Brought(s, PostgresEach(s), cause, i);
  }

  lemma {:induction false} ReturnedIsOlder(s: seq<Submission>, x: Submission)
    requires HavePaths(s) && HasPath(x.r) && Regular(s + [x])
    requires HasCause(s, x.r.cause) && !Mem.Repeats(MemoryEach(s), x.r)
    ensures x.r.cause in PostgresEach(s) && PostgresEach(s)[x.r.cause].recordedAt < x.at
  {
    var all, n := s + [x], |s|;
    var i := BroughtBySubmission(s, x.r.cause);
    assert all[i] == s[i] && all[n] == x;
    var last := Superseded(s, x, i);
    assert all[last] == s[last];
  }

  /**
   * The first submission that returns a cause makes it current in memory at
   * its own time, while Postgres keeps the row it had, which is strictly older.
   */
  lemma {:induction false} ReturnRestamps(s: seq<Submission>, x: Submission)
    requires HavePaths(s) && HasPath(x.r) && Regular(s + [x]) && NoneReturns(s) && !NoneReturns(s + [x])
    ensures Restamped(s + [x], MemoryEach(s + [x]), PostgresEach(s + [x]), Revoked(x.r), x.at, |s|)
  {
    ReturnsNoneIff(s, x);
    ReturnedIsOlder(s, x);
    EachLast(s, x);
    PostgresLast(s, x);
    AddOneRow(PostgresEach(s), x.r, x.at);
    assert (s + [x])[|s|] == x;
  }

  /** It stays so for the rest of the batch: one time tells no two causes for the delegation. */
  lemma {:induction false} RestampedStays(s: seq<Submission>, x: Submission, d: Cid, i: nat)
    requires HavePaths(s) && HasPath(x.r) && Regular(s + [x])
    requires Restamped(s, MemoryEach(s), PostgresEach(s), d, x.at, i)
    ensures Restamped(s + [x], MemoryEach(s + [x]), PostgresEach(s + [x]), d, x.at, i)
  {
    var all, n := s + [x], |s|;
    EachLast(s, x);
    PostgresLast(s, x);
    AddOneRow(PostgresEach(s), x.r, x.at);
    assert all[i] == s[i] && all[n] == x;
    if Revoked(x.r) == d {
      assert x.r.cause == s[i].r.cause;
      assert Mem.Repeats(MemoryEach(s), x.r);
    }
  }

  /** One submission of the batch more, once a cause has returned in it or with it. */
  lemma {:induction false} OneMoreRestamps(before: seq<Submission>, x: Submission, d: Cid, i: nat)
    returns (d': Cid, i': nat)
    requires HavePaths(before) && HasPath(x.r) && Regular(before + [x]) && !NoneReturns(before + [x])
    requires !NoneReturns(before) ==> Restamped(before, MemoryEach(before), PostgresEach(before), d, x.at, i)
    ensures Restamped(before + [x], MemoryEach(before + [x]), PostgresEach(before + [x]), d', x.at, i')
  {
    if NoneReturns(before) {
      ReturnRestamps(before, x);
      d', i' := Revoked(x.r), |before|;
    } else {
      RestampedStays(before, x, d, i);
      d', i' := d, i;
    }
  }

  lemma {:induction false} BatchRestamps(s: seq<Submission>, items: seq<Revocation>, at: int) returns (d: Cid, i: nat)
    requires HavePaths(s) && HasPaths(items)
    requires Regular(s + Timed(items, at)) && NoneReturns(s) && !NoneReturns(s + Timed(items, at))
    ensures
      var all := s + Timed(items, at);
      Restamped(all, MemoryEach(all), PostgresEach(all), d, at, i)
    decreases |items|
  {
    assert items == [] ==> s + Timed(items, at) == s;
    if items == [] {
    } else {
      var n := |items| - 1;
      var before, x := s + Timed(items[..n], at), Submission(items[n], at);
      assert HasPath(items[n]);
      TimedLast(s, items, at);
      RegularPrefix(before, before + [x]);
      d, i := Revoked(x.r), 0;
      if !NoneReturns(before) {
        d, i := BatchRestamps(s, items[..n], at);
      }
      d, i := OneMoreRestamps(before, x, d, i);
    }
  }

  lemma {:induction false} ReturnedDisagree(batches: seq<Batch>) returns (k: nat)
    requires AllHavePaths(batches) && Regular(Submitted(batches)) && !NoneReturns(Submitted(batches))
    ensures k <= |batches| && !GetsAgree(MemoryAfter(batches[..k]), PostgresAfter(batches[..k]))
    decreases |batches|
  {
    var n := |batches| - 1;
    var before := Submitted(batches[..n]);
    SubmittedGrows(batches, n);
    RegularPrefix(before, Submitted(batches));
    if NoneReturns(before) {
      k := n + 1;
      assert batches[..k] == batches && batches[n] in batches;
      BatchesAreEach(batches);
      var d, i := BatchRestamps(before, batches[n].items, batches[n].at);
      RestampedDisagrees(Submitted(batches), MemoryAfter(batches), PostgresAfter(batches), d, batches[n].at, i);
    } else {
      k := ReturnedDisagree(batches[..n]);
      assert batches[..n][..k] == batches[..k];
    }
  }

  /**
   * The two stores agree exactly when no cause returns: on histories whose
   * times tell causes for a delegation apart, and in which a cause names one
   * delegation, both return the same record for every delegation after every
   * batch if and only if no cause is submitted again once superseded.
   */
  lemma GetsAgreeIff(batches: seq<Batch>)
    requires AllHavePaths(batches) && Regular(Submitted(batches))
    ensures AlwaysAgree(batches) <==> NoneReturns(Submitted(batches))
  {
    if NoneReturns(Submitted(batches)) {
      AgreeUnlessReturned(batches);
    } else {
      var k := ReturnedDisagree(batches);
    }
  }
}
