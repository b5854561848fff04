// What is submitted to the in-memory store over time, and which of it the
// store's repeat check keeps from being stored again.

module Submissions {
  import opened Types
  import opened MemoryStore

  /** One revocation of a batch, and the time the batch is recorded at. */
  datatype Submission = Submission(r: Revocation, at: int)

  function Timed(items: seq<Revocation>, at: int): (s: seq<Submission>)
    ensures |s| == |items| && forall i :: 0 <= i < |s| ==> s[i] == Submission(items[i], at)
  {
    seq(|items|, i requires 0 <= i < |items| => Submission(items[i], at))
  }

  ghost predicate HavePaths(s: seq<Submission>) {
    forall i :: 0 <= i < |s| ==> HasPath(s[i].r)
  }

  /** A cause revokes one delegation: an invocation names what it revokes. */
  ghost predicate CausesName(s: seq<Submission>)
    requires HavePaths(s)
  {
    forall i, j :: 0 <= i < j < |s| && s[i].r.cause == s[j].r.cause ==> Revoked(s[i].r) == Revoked(s[j].r)
  }

  /** Submission `k` brings back the cause of `i`, whose delegation `j` revoked for another cause in between. */
  ghost predicate Returns(s: seq<Submission>, i: nat, j: nat, k: nat)
    requires HavePaths(s)
  {
    && i < j < k < |s| && s[i].r.cause == s[k].r.cause
    && Revoked(s[j].r) == Revoked(s[i].r) && s[j].r.cause != s[i].r.cause
  }

  /** No cause is submitted again once another has revoked its delegation. */
  ghost predicate NoneReturns(s: seq<Submission>)
    requires HavePaths(s)
  {
    forall i, j, k :: !Returns(s, i, j, k)
  }

  /** What the writers are asked for: a cause has one delegation, and is not submitted again once superseded. */
  ghost predicate Steady(s: seq<Submission>) {
    HavePaths(s) && CausesName(s) && NoneReturns(s)
  }

  /** Record times do not go back. */
  ghost predicate InTime(s: seq<Submission>) {
    forall i, j :: 0 <= i <= j < |s| ==> s[i].at <= s[j].at
  }

  ghost predicate HasCause(s: seq<Submission>, x: Cid) {
    exists i :: 0 <= i < |s| && s[i].r.cause == x
  }

  // ---------------------------------------------------------- one at a time

  /** The store once each has been added, in order. */
  function MemoryEach(s: seq<Submission>): Log
    requires HavePaths(s)
  {
    if s == [] then Log(map[], 0)
    else
      var n := |s| - 1;
      assert HasPath(s[n].r);
      AddOne(MemoryEach(s[..n]), s[n].r, s[n].at)
  }

  /** Every entry stored meanwhile, in sequence number order. */
  function HistoryEach(s: seq<Submission>): seq<Entry>
    requires HavePaths(s)
  {
    if s == [] then []
    else
      var n := |s| - 1;
      assert HasPath(s[n].r);
      Grown(MemoryEach(s[..n]), HistoryEach(s[..n]), s[n].r, s[n].at)
  }

  /** The history after one revocation: one entry more, unless it is a repeat. */
  function Grown(log: Log, history: seq<Entry>, r: Revocation, at: int): seq<Entry>
    requires HasPath(r)
  {
    if Repeats(log, r) then history else history + [EntryFor(log, r, at)]
  }

  /** The history after a batch. */
  function Extend(log: Log, history: seq<Entry>, batch: seq<Revocation>, at: int): seq<Entry>
    requires HasPaths(batch)
  {
    if batch == [] then history
    else
      var n := |batch| - 1;
      Grown(AddAll(log, batch[..n], at), Extend(log, history, batch[..n], at), batch[n], at)
  }

  lemma EachLast(s: seq<Submission>, x: Submission)
    requires HavePaths(s) && HasPath(x.r)
    ensures HavePaths(s + [x])
    ensures MemoryEach(s + [x]) == AddOne(MemoryEach(s), x.r, x.at)
    ensures HistoryEach(s + [x]) == Grown(MemoryEach(s), HistoryEach(s), x.r, x.at)
  {
    var all := s + [x];
    assert all[..|s|] == s;
    forall i | 0 <= i < |all|
      ensures HasPath(all[i].r)
    {
      assert i < |s| ==> HasPath(s[i].r);
    }
  }

  lemma {:induction false} MorePaths(s: seq<Submission>, items: seq<Revocation>, at: int)
    requires HavePaths(s) && HasPaths(items)
    ensures HavePaths(s + Timed(items, at))
  {
    var all := s + Timed(items, at);
    forall i | 0 <= i < |all|
      ensures HasPath(all[i].r)
    {
      assert i >= |s| ==> HasPath(items[i - |s|]);
    }
  }

  lemma TimedLast(s: seq<Submission>, items: seq<Revocation>, at: int)
    requires items != []
    ensures
      var n := |items| - 1;
      s + Timed(items, at) == s + Timed(items[..n], at) + [Submission(items[n], at)]
  {
  }

  /** A batch does what adding each of it does. */
  lemma {:induction false} BatchIsEach(s: seq<Submission>, items: seq<Revocation>, at: int)
    requires HavePaths(s) && HasPaths(items)
    ensures HavePaths(s + Timed(items, at))
    ensures AddAll(MemoryEach(s), items, at) == MemoryEach(s + Timed(items, at))
    ensures Extend(MemoryEach(s), HistoryEach(s), items, at) == HistoryEach(s + Timed(items, at))
    decreases |items|
  {
    MorePaths(s, items, at);
    if items == [] {
      assert s + Timed(items, at) == s;
    } else {
      var n := |items| - 1;
      BatchIsEach(s, items[..n], at);
      TimedLast(s, items, at);
      assert HasPath(items[n]);
      EachLast(s + Timed(items[..n], at), Submission(items[n], at));
    }
  }

  // ------------------------------------------------------ the current entry

  /** Submission `i` is the last for delegation `d`. */
  ghost predicate IsLast(s: seq<Submission>, d: Cid, i: nat)
    requires HavePaths(s)
  {
    && i < |s| && Revoked(s[i].r) == d
    && (forall j :: i < j < |s| ==> Revoked(s[j].r) != d)
  }

  /** A delegation's current entry has the cause last submitted for it. */
  ghost predicate EntriesInv(s: seq<Submission>, log: Log)
    requires HavePaths(s)
  {
    && (forall i :: 0 <= i < |s| ==> Revoked(s[i].r) in log.records)
    && (forall d :: d in log.records ==>
          exists i: nat :: IsLast(s, d, i) && s[i].r.cause == log.records[d].record.cause)
  }

  lemma LastOf(s: seq<Submission>, log: Log, d: Cid) returns (last: nat)
    requires HavePaths(s) && EntriesInv(s, log) && d in log.records
    ensures IsLast(s, d, last) && s[last].r.cause == log.records[d].record.cause
  {
    last :| IsLast(s, d, last) && s[last].r.cause == log.records[d].record.cause;
  }

  lemma {:induction false} EntriesKeep(s: seq<Submission>, log: Log, x: Submission)
    requires HavePaths(s) && HasPath(x.r) && HavePaths(s + [x]) && EntriesInv(s, log)
    ensures EntriesInv(s + [x], AddOne(log, x.r, x.at))
  {
    var all, n, log' := s + [x], |s|, AddOne(log, x.r, x.at);
    assert forall i :: 0 <= i < n ==> all[i] == s[i];
    forall d | d in log'.records
      ensures exists i: nat :: IsLast(all, d, i) && all[i].r.cause == log'.records[d].record.cause
    {
      if d == Revoked(x.r) {
        assert IsLast(all, d, n);
      } else {
        var i := LastOf(s, log, d);
        assert IsLast(all, d, i);
      }
    }
  }

  lemma {:induction false} EntriesEach(s: seq<Submission>)
    requires HavePaths(s)
    ensures EntriesInv(s, MemoryEach(s))
    decreases |s|
  {
    if s == [] {
    } else {
      var n := |s| - 1;
      assert s == s[..n] + [s[n]];
      EntriesEach(s[..n]);
      assert HasPath(s[n].r);
      EntriesKeep(s[..n], MemoryEach(s[..n]), s[n]);
    }
  }

  // ------------------------------------------------------- the repeat check

  lemma {:induction false} Prefix(s: seq<Submission>, all: seq<Submission>)
    requires s <= all && HavePaths(all)
    ensures HavePaths(s)
    ensures NoneReturns(all) ==> NoneReturns(s)
    ensures CausesName(all) ==> CausesName(s)
  {
    assert forall i :: 0 <= i < |s| ==> s[i] == all[i];
    if NoneReturns(all) {
      forall i: nat, j: nat, k: nat
        ensures !Returns(s, i, j, k)
      {
        assert !Returns(all, i, j, k);
      }
    }
  }

  /** What was submitted before and not superseded since is current. */
  lemma {:induction false} KnownRepeats(s: seq<Submission>, x: Submission, i: nat)
    requires HavePaths(s + [x]) && CausesName(s + [x]) && NoneReturns(s + [x])
    requires HavePaths(s) && HasPath(x.r) && EntriesInv(s, MemoryEach(s))
    requires i < |s| && s[i].r.cause == x.r.cause
    ensures Repeats(MemoryEach(s), x.r)
  {
    var all, n := s + [x], |s|;
    assert all[i] == s[i] && all[n] == x;
    var last := LastOf(s, MemoryEach(s), Revoked(x.r));
    assert i <= last && all[last] == s[last];
    assert !Returns(all, i, last, n);
  }

  lemma {:induction false} RepeatIsNoReturn(s: seq<Submission>, x: Submission, i: nat, j: nat)
    requires HavePaths(s + [x]) && CausesName(s + [x])
    requires HavePaths(s) && HasPath(x.r) && EntriesInv(s, MemoryEach(s)) && NoneReturns(s)
    requires Repeats(MemoryEach(s), x.r)
    ensures !Returns(s + [x], i, j, |s|)
  {
    var all, n := s + [x], |s|;
    if i < j < n && s[i].r.cause == x.r.cause {
      assert all[i] == s[i] && all[j] == s[j] && all[n] == x;
      var last := LastOf(s, MemoryEach(s), Revoked(x.r));
      assert !Returns(s, i, j, last);
    }
  }

  /** A submission returns nothing exactly when its cause is new or still current. */
  lemma {:induction false} ReturnsNoneIff(s: seq<Submission>, x: Submission)
    requires HavePaths(s + [x]) && CausesName(s + [x])
    requires HavePaths(s) && HasPath(x.r)
    ensures NoneReturns(s + [x]) <==> NoneReturns(s) && (HasCause(s, x.r.cause) ==> Repeats(MemoryEach(s), x.r))
  {
    var all, n := s + [x], |s|;
    EntriesEach(s);
    if NoneReturns(all) {
      Prefix(s, all);
      if i :| 0 <= i < n && s[i].r.cause == x.r.cause {
        KnownRepeats(s, x, i);
      }
    } else if NoneReturns(s) {
      var i: nat, j: nat, k: nat :| Returns(all, i, j, k);
      assert !Returns(s, i, j, k);
      assert k == n && s[i].r.cause == x.r.cause;
      if Repeats(MemoryEach(s), x.r) {
        RepeatIsNoReturn(s, x, i, j);
      }
    }
  }

  // ------------------------------------------------------------ the history

  ghost predicate HasEntry(history: seq<Entry>, x: Cid) {
    exists i :: 0 <= i < |history| && history[i].record.cause == x
  }

  /** Every cause was stored once at most. */
  ghost predicate OneEntryPerCause(history: seq<Entry>) {
    forall i, j :: 0 <= i < j < |history| ==> history[i].record.cause != history[j].record.cause
  }

  lemma HasCauseMore(s: seq<Submission>, x: Submission)
    ensures forall c :: HasCause(s + [x], c) <==> HasCause(s, c) || c == x.r.cause
  {
    var all := s + [x];
    assert all[|s|] == x && forall i :: 0 <= i < |s| ==> all[i] == s[i];
  }

  lemma OneEntryMore(history: seq<Entry>, e: Entry)
    ensures forall c :: HasEntry(history + [e], c) <==> HasEntry(history, c) || c == e.record.cause
    ensures OneEntryPerCause(history + [e]) <==> OneEntryPerCause(history) && !HasEntry(history, e.record.cause)
  {
    var all := history + [e];
    assert all[|history|] == e && forall i :: 0 <= i < |history| ==> all[i] == history[i];
  }

  /** The causes stored are those submitted. */
  lemma {:induction false} StoredCauses(s: seq<Submission>)
    requires HavePaths(s)
    ensures forall c :: HasEntry(HistoryEach(s), c) <==> HasCause(s, c)
    decreases |s|
  {
    if s == [] {
    } else {
      var n := |s| - 1;
      var before, x := s[..n], s[n];
      assert s == before + [x] && HasPath(x.r);
      StoredCauses(before);
      HasCauseMore(before, x);
      if Repeats(MemoryEach(before), x.r) {
        EntriesEach(before);
        var last := LastOf(before, MemoryEach(before), Revoked(x.r));
        assert HasCause(before, x.r.cause);
      } else {
        OneEntryMore(HistoryEach(before), EntryFor(MemoryEach(before), x.r, x.at));
      }
    }
  }

  /**
   * The exact condition under which a revocation already stored keeps its first
   * record: every cause is stored once if and only if none is submitted again
   * after another took its delegation.
   */
  lemma {:induction false} StoredOnceIff(s: seq<Submission>)
    requires HavePaths(s) && CausesName(s)
    ensures OneEntryPerCause(HistoryEach(s)) <==> NoneReturns(s)
    decreases |s|
  {
    if s == [] {
    } else {
      var n := |s| - 1;
      var before, x := s[..n], s[n];
      assert s == before + [x] && HasPath(x.r);
      Prefix(before, s);
      StoredOnceIff(before);
      ReturnsNoneIff(before, x);
      StoredCauses(before);
      if Repeats(MemoryEach(before), x.r) {
        assert HistoryEach(s) == HistoryEach(before);
      } else {
        OneEntryMore(HistoryEach(before), EntryFor(MemoryEach(before), x.r, x.at));
      }
    }
  }

  /** Every entry is what some submission brought. */
  lemma {:induction false} EntryFrom(s: seq<Submission>, k: nat) returns (i: nat)
    requires HavePaths(s) && k < |HistoryEach(s)|
    ensures i < |s|
    ensures HistoryEach(s)[k].record == Record(Revoked(s[i].r), s[i].r.path, s[i].r.cause, s[i].at)
    decreases |s|
  {
    var n := |s| - 1;
    assert s == s[..n] + [s[n]] && HasPath(s[n].r);
    if k < |HistoryEach(s[..n])| {
      i := EntryFrom(s[..n], k);
    } else {
      i := n;
    }
  }

  /** When record times do not go back, they follow the order in which the entries were stored. */
  lemma {:induction false} HistoryInTime(s: seq<Submission>, j: nat, k: nat)
    requires HavePaths(s) && InTime(s) && j <= k < |HistoryEach(s)|
    ensures HistoryEach(s)[j].record.recordedAt <= HistoryEach(s)[k].record.recordedAt
    decreases |s|
  {
    var n := |s| - 1;
    assert s == s[..n] + [s[n]] && HasPath(s[n].r);
    if k < |HistoryEach(s[..n])| {
      HistoryInTime(s[..n], j, k);
    } else if j < k {
      var i := EntryFrom(s[..n], j);
      assert s[..n][i] == s[i];
    }
  }
}
