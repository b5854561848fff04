// The in-memory store of pkg/store/memory/store.go.

module MemoryStore {
  import opened Types

  // time.Time{}, which asks for every record.
  const ZERO_TIME: int := 0

  /** A stored record and its sequence number. */
  datatype Entry = Entry(record: Record, number: nat)

  /** The records, keyed by revoked delegation, and the last sequence number given out. */
  datatype Log = Log(records: map<Cid, Entry>, nextSeq: nat)

  /** Whether a revocation repeats the stored one for its delegation. */
  predicate Repeats(log: Log, r: Revocation)
    requires HasPath(r)
  {
    Revoked(r) in log.records && log.records[Revoked(r)].record.cause == r.cause
  }

  /** The entry a revocation gets when it is not a repeat. */
  function EntryFor(log: Log, r: Revocation, recordedAt: int): Entry
    requires HasPath(r)
  {
    Entry(Record(Revoked(r), r.path, r.cause, recordedAt), log.nextSeq + 1)
  }

  function AddOne(log: Log, r: Revocation, recordedAt: int): Log
    requires HasPath(r)
  {
    if Repeats(log, r) then log
    else Log(log.records[Revoked(r) := EntryFor(log, r, recordedAt)], log.nextSeq + 1)
  }

  function AddAll(log: Log, batch: seq<Revocation>, recordedAt: int): Log
    requires HasPaths(batch)
  {
    if batch == [] then log
    else AddOne(AddAll(log, batch[..|batch| - 1], recordedAt), batch[|batch| - 1], recordedAt)
  }

  /** The record a delegation has, if it has one. */
  function Current(log: Log, delegation: Cid): Option<Record> {
    if delegation in log.records then Some(log.records[delegation].record) else None
  }

  // -------------------------------------------------------------- snapshots

  predicate Matches(from: int, e: Entry) {
    from == ZERO_TIME || e.record.recordedAt >= from
  }

  predicate Precedes(a: Entry, b: Entry) {
    a.record.recordedAt < b.record.recordedAt
    || (a.record.recordedAt == b.record.recordedAt && a.number < b.number)
  }

  ghost predicate InOrder(entries: seq<Entry>) {
    forall i, j :: 0 <= i < j < |entries| ==> Precedes(entries[i], entries[j])
  }

  /** The current entries numbered above `sequence` that match `from`, sorted by time and number. */
  ghost predicate IsSnapshot(entries: seq<Entry>, log: Log, sequence: nat, from: int) {
    && InOrder(entries)
    && (forall e :: e in entries <==> e in log.records.Values && e.number > sequence && Matches(from, e))
  }

  ghost predicate LogInv(log: Log) {
    && (forall d :: d in log.records ==> log.records[d].record.revoke == d && 0 < log.records[d].number <= log.nextSeq)
    && (forall d, f :: d in log.records && f in log.records && log.records[d].number == log.records[f].number ==>
          d == f)
  }

  lemma {:induction false} AddOneKeeps(log: Log, r: Revocation, recordedAt: int)
    requires LogInv(log) && HasPath(r)
    ensures LogInv(AddOne(log, r, recordedAt))
  {
  }

  lemma {:induction false} AddAllKeeps(log: Log, batch: seq<Revocation>, recordedAt: int)
    requires LogInv(log) && HasPaths(batch)
    ensures LogInv(AddAll(log, batch, recordedAt))
    decreases |batch|
  {
    if batch == [] {
    } else {
      var n := |batch| - 1;
      assert HasPath(batch[n]);
      AddAllKeeps(log, batch[..n], recordedAt);
      AddOneKeeps(AddAll(log, batch[..n], recordedAt), batch[n], recordedAt);
    }
  }

  lemma {:induction false} AddAllMore(log: Log, batch: seq<Revocation>, i: nat, recordedAt: int)
    requires HasPaths(batch) && i < |batch|
    ensures HasPaths(batch[..i]) && HasPaths(batch[..i + 1]) && HasPath(batch[i])
    ensures AddAll(log, batch[..i + 1], recordedAt) == AddOne(AddAll(log, batch[..i], recordedAt), batch[i], recordedAt)
  {
    assert batch[..i + 1][..i] == batch[..i];
  }

  // ------------------------------------------------------------------ store

  datatype AddError = AddCancelled | NoPath(index: nat)
  datatype GetError = GetCancelled | NotFound

  class Store {
    var records: map<Cid, Entry>
    var subscribers: map<nat, bool>  // whether each one's notification slot is full
    var nextSeq: nat
    var nextSubscriber: nat

    ghost function Value(): Log
      reads this
    {
      Log(records, nextSeq)
    }

    ghost predicate Valid()
      reads this
    {
      && LogInv(Value())
      && (forall id :: id in subscribers ==> id <= nextSubscriber)
    }

    constructor ()
      ensures Valid() && Value() == Log(map[], 0) && subscribers == map[] && nextSubscriber == 0
    {
      records, subscribers, nextSeq, nextSubscriber := map[], map[], 0, 0;
    }

    /**
     * Stores a batch at one time and fills every subscriber's slot. A failed
     * call changes nothing, and an empty batch wakes nobody.
     */
    method AddBatch(cancelled: bool, recordedAt: int, batch: seq<Revocation>) returns (r: Result<(), AddError>)
      requires Valid()
      modifies this
      ensures Valid() && nextSubscriber == old(nextSubscriber)
      ensures cancelled <==> r == Err(AddCancelled)
      ensures r.Err? && r.error.NoPath? ==>
        r.error.index < |batch| && !HasPath(batch[r.error.index]) && HasPaths(batch[..r.error.index])
      ensures r.Ok? <==> !cancelled && HasPaths(batch)
      ensures r.Ok? ==> Value() == AddAll(old(Value()), batch, recordedAt)
      ensures r.Ok? && batch != [] ==> subscribers == map id | id in old(subscribers) :: true
      ensures r.Err? ==> Value() == old(Value())
      ensures r.Err? || batch == [] ==> subscribers == old(subscribers)
    {
      if cancelled {
        return Err(AddCancelled);
      }
      if |batch| == 0 {
        return Ok(());
      }
      var bad := FirstWithoutPath(batch);
      if bad < |batch| {
        return Err(NoPath(bad));
      }
      Put(recordedAt, batch);
      Notify();
      return Ok(());
    }

    /** The loop under the lock that stores the batch. */
    method Put(recordedAt: int, batch: seq<Revocation>)
      requires Valid() && HasPaths(batch)
      modifies this`records, this`nextSeq
      ensures Valid() && Value() == AddAll(old(Value()), batch, recordedAt)
    {
      ghost var was := Value();
      var i := 0;
      while i < |batch|
        invariant 0 <= i <= |batch|
        invariant HasPaths(batch[..i]) && Value() == AddAll(was, batch[..i], recordedAt)
      {
        var revocation := batch[i];
        ghost var before := Value();
        AddAllMore(was, batch, i, recordedAt);
        var revoked := revocation.path[|revocation.path| - 1];
        i := i + 1;
        if revoked in records && records[revoked].record.cause == revocation.cause {
          continue;
        }
        nextSeq := nextSeq + 1;
        records := records[revoked := Entry(Record(revoked, revocation.path, revocation.cause, recordedAt), nextSeq)];
        assert Value() == AddOne(before, revocation, recordedAt);
      }
      assert batch[..i] == batch;
      AddAllKeeps(was, batch, recordedAt);
    }

    /** The loop that notifies every subscriber; a slot that is full already stays full. */
    method Notify()
      modifies this`subscribers
      ensures subscribers == map id | id in old(subscribers) :: true
    {
      var todo := subscribers.Keys;
      while todo != {}
        invariant todo <= subscribers.Keys == old(subscribers).Keys
        invariant forall id :: id in subscribers && id !in todo ==> subscribers[id]
        decreases todo
      {
        var id :| id in todo;
        if !subscribers[id] {
          subscribers := subscribers[id := true];
        }
        todo := todo - {id};
      }
    }

    method Get(cancelled: bool, delegation: Cid) returns (r: Result<Record, GetError>)
      ensures cancelled <==> r == Err(GetCancelled)
      ensures !cancelled ==> Current(Value(), delegation) == (if r.Ok? then Some(r.value) else None)
    {
      if cancelled {
        return Err(GetCancelled);
      }
      if delegation !in records {
        return Err(NotFound);
      }
      return Ok(records[delegation].record);
    }

    /** recordsFromLocked: the matching entries, sorted, and the sequence number they are current to. */
    method RecordsFrom(sequence: nat, from: int) returns (entries: seq<Entry>, next: nat)
      requires Valid()
      ensures next == nextSeq && IsSnapshot(entries, Value(), sequence, from)
    {
      entries := [];
      var todo := records.Keys;
      while todo != {}
        invariant todo <= records.Keys
        invariant InOrder(entries)
        invariant forall e :: e in entries <==>
          (exists d :: d in records && d !in todo && records[d] == e) && e.number > sequence && Matches(from, e)
        decreases todo
      {
        var d :| d in todo;
        var entry := records[d];
        if entry.number > sequence && (from == ZERO_TIME || entry.record.recordedAt >= from) {
          assert forall e :: e in entries ==> e.number != entry.number;
          entries := Insert(entries, entry);
        }
        todo := todo - {d};
      }
      return entries, nextSeq;
    }

    /** The start of Stream: a snapshot of everything and an empty slot, under one lock. */
    method Subscribe(from: int) returns (subscriber: nat, entries: seq<Entry>, sequence: nat)
      requires Valid()
      modifies this
      ensures Valid() && Value() == old(Value())
      ensures subscriber !in old(subscribers) && subscriber == nextSubscriber == old(nextSubscriber) + 1
      ensures subscribers == old(subscribers)[subscriber := false]
      ensures sequence == nextSeq && IsSnapshot(entries, Value(), 0, from)
    {
      entries, sequence := RecordsFrom(0, from);
      nextSubscriber := nextSubscriber + 1;
      subscriber := nextSubscriber;
      subscribers := subscribers[subscriber := false];
    }

    /** Receiving from the notification channel, when its slot is full. */
    method Receive(subscriber: nat)
      requires Valid() && subscriber in subscribers && subscribers[subscriber]
      modifies this`subscribers
      ensures Valid() && subscribers == old(subscribers)[subscriber := false]
    {
      subscribers := subscribers[subscriber := false];
    }

    method Unsubscribe(subscriber: nat)
      requires Valid()
      modifies this`subscribers
      ensures Valid() && subscribers == old(subscribers) - {subscriber}
    {
      subscribers := subscribers - {subscriber};
    }
  }

  /** The index of the first revocation without a path, or the length of the batch. */
  method FirstWithoutPath(batch: seq<Revocation>) returns (i: nat)
    ensures i <= |batch| && HasPaths(batch[..i])
    ensures i < |batch| ==> !HasPath(batch[i]) && !HasPaths(batch)
    ensures i == |batch| ==> HasPaths(batch)
  {
    i := 0;
    while i < |batch|
      invariant 0 <= i <= |batch| && forall k :: 0 <= k < i ==> HasPath(batch[k])
    {
      if |batch[i].path| == 0 {
        assert !HasPath(batch[i]);
        return;
      }
      i := i + 1;
    }
  }

  /** One step of the sort: places an entry whose number no other has. */
  method Insert(entries: seq<Entry>, entry: Entry) returns (sorted: seq<Entry>)
    requires InOrder(entries) && forall e :: e in entries ==> e.number != entry.number
    ensures InOrder(sorted) && forall e :: e in sorted <==> e in entries || e == entry
  {
    var i := 0;
    while i < |entries| && Precedes(entries[i], entry)
      invariant 0 <= i <= |entries|
      invariant forall k :: 0 <= k < i ==> Precedes(entries[k], entry)
    {
      i := i + 1;
    }
    if i < |entries| {
      assert entries[i] in entries;
    }
    InsertedInOrder(entries, entry, i);
    sorted := entries[..i] + [entry] + entries[i..];
  }

  lemma {:induction false} InsertedInOrder(entries: seq<Entry>, entry: Entry, i: nat)
    requires InOrder(entries) && i <= |entries|
    requires forall k :: 0 <= k < i ==> Precedes(entries[k], entry)
    requires i < |entries| ==> Precedes(entry, entries[i])
    ensures
      var sorted := entries[..i] + [entry] + entries[i..];
      InOrder(sorted) && forall e :: e in sorted <==> e in entries || e == entry
  {
    var sorted := entries[..i] + [entry] + entries[i..];
    assert entries == entries[..i] + entries[i..];
    forall j, k | 0 <= j < k < |sorted|
      ensures Precedes(sorted[j], sorted[k])
    {
      assert i < |entries| && k > i ==> entries[i] == entries[k - 1] || Precedes(entries[i], entries[k - 1]);
    }
  }
}
