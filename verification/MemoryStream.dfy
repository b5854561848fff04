// Writers and subscribers of the in-memory store, interleaved: every step of
// pkg/store/memory/store.go between two locks or channel operations is one
// step here.

module MemoryStream {
  import opened Types
  import opened MemoryStore
  import opened Submissions

  /** Where a subscriber is: sending what is left of a snapshot (or waiting, when nothing is), or about to take one. */
  datatype Pc = Sending(pending: seq<Entry>) | Notified

  datatype Sub = Sub(from: int, sequence: nat, slot: bool, pc: Pc, yielded: seq<Entry>)

  /**
   * `history` is every entry ever stored, in sequence number order, and
   * `submitted` every revocation ever handed to the store, in lock order.
   */
  datatype State = State(
    log: Log,
    history: seq<Entry>,
    submitted: seq<Submission>,
    subs: map<nat, Sub>,
    nextSubscriber: nat)

  // ------------------------------------------------------------------ steps

  ghost predicate Init(s: State) {
    s == State(Log(map[], 0), [], [], map[], 0)
  }

  /** AddBatch under the lock. The time was read before it, so nothing is said of it here. */
  ghost predicate Add(s: State, s': State, batch: seq<Revocation>, recordedAt: int) {
    && HasPaths(batch) && batch != []
    && s' == s.(log := AddAll(s.log, batch, recordedAt),
                history := Extend(s.log, s.history, batch, recordedAt),
                submitted := s.submitted + Timed(batch, recordedAt),
                subs := map id | id in s.subs :: s.subs[id].(slot := true))
  }

  ghost predicate Subscribe(s: State, s': State, from: int, entries: seq<Entry>) {
    && IsSnapshot(entries, s.log, 0, from)
    && var id := s.nextSubscriber + 1;
       s' == s.(subs := s.subs[id := Sub(from, s.log.nextSeq, false, Sending(entries), [])], nextSubscriber := id)
  }

  ghost predicate Yield(s: State, s': State, id: nat) {
    && id in s.subs && s.subs[id].pc.Sending? && s.subs[id].pc.pending != []
    && var sub := s.subs[id];
       var sub' := sub.(pc := Sending(sub.pc.pending[1..]), yielded := sub.yielded + [sub.pc.pending[0]]);
       s' == s.(subs := s.subs[id := sub'])
  }

  ghost predicate Wake(s: State, s': State, id: nat) {
    && id in s.subs && s.subs[id].pc == Sending([]) && s.subs[id].slot
    && s' == s.(subs := s.subs[id := s.subs[id].(slot := false, pc := Notified)])
  }

  ghost predicate Refresh(s: State, s': State, id: nat, entries: seq<Entry>) {
    && id in s.subs && s.subs[id].pc.Notified?
    && IsSnapshot(entries, s.log, s.subs[id].sequence, s.subs[id].from)
    && s' == s.(subs := s.subs[id := s.subs[id].(sequence := s.log.nextSeq, pc := Sending(entries))])
  }

  ghost predicate Leave(s: State, s': State, id: nat) {
    s' == s.(subs := s.subs - {id})
  }

  ghost predicate Next(s: State, s': State) {
    || (exists batch, recordedAt :: Add(s, s', batch, recordedAt))
    || (exists from, entries :: Subscribe(s, s', from, entries))
    || (exists id :: Yield(s, s', id))
    || (exists id :: Wake(s, s', id))
    || (exists id, entries :: Refresh(s, s', id, entries))
    || (exists id :: Leave(s, s', id))
  }

  ghost predicate IsRun(trace: seq<State>) {
    && |trace| > 0 && Init(trace[0])
    && (forall i :: 0 <= i < |trace| - 1 ==> Next(trace[i], trace[i + 1]))
  }

  // -------------------------------------------------------------- invariant

  ghost predicate InHistory(history: seq<Entry>, e: Entry) {
    0 < e.number <= |history| && history[e.number - 1] == e
  }

  /** The log holds entries of the history, each under its own delegation. */
  ghost predicate HistoryInv(log: Log, history: seq<Entry>) {
    && |history| == log.nextSeq
    && (forall i :: 0 <= i < |history| ==> history[i].number == i + 1)
    && (forall d :: d in log.records ==> log.records[d].record.revoke == d && InHistory(history, log.records[d]))
  }

  /** Record times follow the order in which the writers held the lock. */
  ghost predicate TimesFollowLock(history: seq<Entry>) {
    forall i, j :: 0 <= i <= j < |history| ==> history[i].record.recordedAt <= history[j].record.recordedAt
  }

  /** What a subscriber has taken from the store, yielded or not. */
  function Taken(sub: Sub): seq<Entry> {
    sub.yielded + if sub.pc.Sending? then sub.pc.pending else []
  }

  ghost predicate OnceEach(entries: seq<Entry>) {
    forall i, j :: 0 <= i < j < |entries| ==> entries[i].number != entries[j].number
  }

  ghost predicate Numbered(entries: seq<Entry>) {
    forall i, j :: 0 <= i < j < |entries| ==> entries[i].number < entries[j].number
  }

  ghost predicate SubInv(log: Log, history: seq<Entry>, sub: Sub) {
    && sub.sequence <= log.nextSeq
    && OnceEach(Taken(sub))
    && (TimesFollowLock(history) ==> Numbered(Taken(sub)))
    && (forall e :: e in Taken(sub) ==> InHistory(history, e) && e.number <= sub.sequence && Matches(sub.from, e))
    && (forall e :: e in log.records.Values && e.number <= sub.sequence && Matches(sub.from, e) ==> e in Taken(sub))
    && (sub.slot || sub.pc.Notified? || sub.sequence == log.nextSeq)
  }

  ghost predicate Inv(s: State) {
    && HistoryInv(s.log, s.history)
    && (forall id :: id in s.subs ==> id <= s.nextSubscriber)
    && (forall id :: id in s.subs ==> SubInv(s.log, s.history, s.subs[id]))
  }

  lemma {:induction false} AddOneKeepsHistory(log: Log, history: seq<Entry>, r: Revocation, recordedAt: int)
    requires HasPath(r) && HistoryInv(log, history)
    ensures
      var log', history' := AddOne(log, r, recordedAt), Grown(log, history, r, recordedAt);
      && HistoryInv(log', history') && history <= history'
      && (forall e :: e in log'.records.Values && e.number <= log.nextSeq ==> e in log.records.Values)
  {
  }

  /** A batch only adds to the history, and only new entries replace old ones. */
  lemma {:induction false} AddKeepsHistory(log: Log, history: seq<Entry>, batch: seq<Revocation>, recordedAt: int)
    requires HasPaths(batch) && HistoryInv(log, history)
    ensures
      var log', history' := AddAll(log, batch, recordedAt), Extend(log, history, batch, recordedAt);
      && HistoryInv(log', history') && history <= history'
      && (forall e :: e in log'.records.Values && e.number <= log.nextSeq ==> e in log.records.Values)
    decreases |batch|
  {
    if batch == [] {
    } else {
      var n := |batch| - 1;
      var log', history' := AddAll(log, batch[..n], recordedAt), Extend(log, history, batch[..n], recordedAt);
      AddKeepsHistory(log, history, batch[..n], recordedAt);
      assert HasPath(batch[n]);
      AddOneKeepsHistory(log', history', batch[n], recordedAt);
    }
  }

  lemma {:induction false} AddKeepsSub(s: State, s': State, batch: seq<Revocation>, recordedAt: int, sub: Sub)
    requires Inv(s) && Add(s, s', batch, recordedAt) && SubInv(s.log, s.history, sub)
    ensures SubInv(s'.log, s'.history, sub.(slot := true))
  {
    AddKeepsHistory(s.log, s.history, batch, recordedAt);
    assert Taken(sub.(slot := true)) == Taken(sub);
    if TimesFollowLock(s'.history) {
      assert TimesFollowLock(s.history) by {
        assert forall i :: 0 <= i < |s.history| ==> s.history[i] == s'.history[i];
      }
    }
  }

  /** A snapshot holds each number once, and in number order when times follow the lock. */
  lemma SnapshotNumbers(log: Log, history: seq<Entry>, entries: seq<Entry>, sequence: nat, from: int)
    requires HistoryInv(log, history) && IsSnapshot(entries, log, sequence, from)
    ensures OnceEach(entries)
    ensures TimesFollowLock(history) ==> Numbered(entries)
    ensures forall e :: e in entries ==> InHistory(history, e) && sequence < e.number <= log.nextSeq
  {
    forall i, j | 0 <= i < j < |entries|
      ensures entries[i].number != entries[j].number
      ensures TimesFollowLock(history) ==> entries[i].number < entries[j].number
    {
      var a, b := entries[i], entries[j];
      assert a in entries && b in entries && Precedes(a, b);
      assert InHistory(history, a) && InHistory(history, b);
    }
  }

  lemma SubscribeKeepsSub(s: State, from: int, entries: seq<Entry>)
    requires Inv(s) && IsSnapshot(entries, s.log, 0, from)
    ensures SubInv(s.log, s.history, Sub(from, s.log.nextSeq, false, Sending(entries), []))
  {
    SnapshotNumbers(s.log, s.history, entries, 0, from);
    assert Taken(Sub(from, s.log.nextSeq, false, Sending(entries), [])) == entries;
  }

  lemma YieldKeepsSub(log: Log, history: seq<Entry>, sub: Sub)
    requires SubInv(log, history, sub) && sub.pc.Sending? && sub.pc.pending != []
    ensures SubInv(log, history, sub.(pc := Sending(sub.pc.pending[1..]), yielded := sub.yielded + [sub.pc.pending[0]]))
  {
    assert sub.yielded + [sub.pc.pending[0]] + sub.pc.pending[1..] == sub.yielded + sub.pc.pending;
  }

  lemma WakeKeepsSub(log: Log, history: seq<Entry>, sub: Sub)
    requires SubInv(log, history, sub) && sub.pc == Sending([])
    ensures SubInv(log, history, sub.(slot := false, pc := Notified))
  {
    assert Taken(sub.(slot := false, pc := Notified)) == Taken(sub);
  }

  lemma RefreshKeepsSub(log: Log, history: seq<Entry>, sub: Sub, entries: seq<Entry>)
    requires HistoryInv(log, history) && SubInv(log, history, sub)
    requires sub.pc.Notified? && IsSnapshot(entries, log, sub.sequence, sub.from)
    ensures SubInv(log, history, sub.(sequence := log.nextSeq, pc := Sending(entries)))
  {
    SnapshotNumbers(log, history, entries, sub.sequence, sub.from);
    var sub' := sub.(sequence := log.nextSeq, pc := Sending(entries));
    assert Taken(sub) == sub.yielded && Taken(sub') == sub.yielded + entries;
    forall i, j | 0 <= i < j < |Taken(sub')|
      ensures Taken(sub')[i].number != Taken(sub')[j].number
      ensures TimesFollowLock(history) ==> Taken(sub')[i].number < Taken(sub')[j].number
    {
      var k := |sub.yielded|;
      if i < k <= j {
        assert Taken(sub')[i] == sub.yielded[i] && Taken(sub')[j] == entries[j - k];
        assert sub.yielded[i] in Taken(sub) && entries[j - k] in entries;
      } else if k <= i {
        assert Taken(sub')[i] == entries[i - k] && Taken(sub')[j] == entries[j - k];
      } else {
        assert Taken(sub')[i] == Taken(sub)[i] && Taken(sub')[j] == Taken(sub)[j];
      }
    }
  }

  lemma AddKeeps(s: State, s': State, batch: seq<Revocation>, recordedAt: int)
    requires Inv(s) && Add(s, s', batch, recordedAt)
    ensures Inv(s')
  {
    AddKeepsHistory(s.log, s.history, batch, recordedAt);
    forall id | id in s'.subs
      ensures SubInv(s'.log, s'.history, s'.subs[id])
    {
      AddKeepsSub(s, s', batch, recordedAt, s.subs[id]);
    }
  }

  /** The other steps change one subscriber at most. */
  lemma OneSubKeeps(s: State, s': State, id: nat, sub: Sub)
    requires Inv(s) && SubInv(s.log, s.history, sub) && id <= s'.nextSubscriber
    requires s' == s.(subs := s.subs[id := sub], nextSubscriber := s'.nextSubscriber)
    requires s.nextSubscriber <= s'.nextSubscriber
    ensures Inv(s')
  {
  }

  lemma {:induction false} NextKeeps(s: State, s': State)
    requires Inv(s) && Next(s, s')
    ensures Inv(s')
  {
    if batch: seq<Revocation>, recordedAt: int :| Add(s, s', batch, recordedAt) {
      AddKeeps(s, s', batch, recordedAt);
    } else if from: int, entries: seq<Entry> :| Subscribe(s, s', from, entries) {
      SubscribeKeepsSub(s, from, entries);
      OneSubKeeps(s, s', s'.nextSubscriber, s'.subs[s'.nextSubscriber]);
    } else if id: nat :| Yield(s, s', id) {
      YieldKeepsSub(s.log, s.history, s.subs[id]);
      OneSubKeeps(s, s', id, s'.subs[id]);
    } else if id: nat :| Wake(s, s', id) {
      WakeKeepsSub(s.log, s.history, s.subs[id]);
      OneSubKeeps(s, s', id, s'.subs[id]);
    } else if id: nat, entries: seq<Entry> :| Refresh(s, s', id, entries) {
      RefreshKeepsSub(s.log, s.history, s.subs[id], entries);
      OneSubKeeps(s, s', id, s'.subs[id]);
    } else {
      var id: nat :| Leave(s, s', id);
    }
  }

  lemma {:induction false} RunKeeps(trace: seq<State>, i: nat)
    requires IsRun(trace) && i < |trace|
    ensures Inv(trace[i])
  {
    if i == 0 {
    } else {
      RunKeeps(trace, i - 1);
      assert Next(trace[i - 1], trace[i - 1 + 1]);
      NextKeeps(trace[i - 1], trace[i]);
    }
  }

  /** The store is what adding each submission makes it. */
  ghost predicate Recorded(s: State) {
    HavePaths(s.submitted) && s.log == MemoryEach(s.submitted) && s.history == HistoryEach(s.submitted)
  }

  lemma {:induction false} NextRecords(s: State, s': State)
    requires Recorded(s) && Next(s, s')
    ensures Recorded(s')
  {
    if batch: seq<Revocation>, recordedAt: int :| Add(s, s', batch, recordedAt) {
      BatchIsEach(s.submitted, batch, recordedAt);
    }
  }

  lemma {:induction false} RunRecords(trace: seq<State>, i: nat)
    requires IsRun(trace) && i < |trace|
    ensures Recorded(trace[i])
  {
    if i == 0 {
    } else {
      RunRecords(trace, i - 1);
      assert Next(trace[i - 1], trace[i - 1 + 1]);
      NextRecords(trace[i - 1], trace[i]);
    }
  }

  lemma {:induction false} TimesInHistory(s: State)
    requires Recorded(s) && InTime(s.submitted)
    ensures TimesFollowLock(s.history)
  {
    forall i, j | 0 <= i <= j < |s.history|
      ensures s.history[i].record.recordedAt <= s.history[j].record.recordedAt
    {
      HistoryInTime(s.submitted, i, j);
    }
  }

  // ------------------------------------------------------------- properties

  ghost predicate Waiting(sub: Sub) {
    sub.pc == Sending([]) && !sub.slot
  }

  /** Every current record the subscriber asked for has been yielded to it. */
  ghost predicate UpToDate(log: Log, sub: Sub) {
    forall e :: e in log.records.Values && Matches(sub.from, e) ==> e in sub.yielded
  }

  /**
   * No wake-up is lost: in every interleaving, a subscriber that waits with an
   * empty slot has already yielded every current record it asked for. No
   * sequence number is yielded to it twice, and only stored, matching records are.
   */
  lemma NoLostWakeup(trace: seq<State>, id: nat)
    requires IsRun(trace) && id in trace[|trace| - 1].subs
    ensures
      var s := trace[|trace| - 1];
      var sub := s.subs[id];
      && (Waiting(sub) ==> UpToDate(s.log, sub))
      && OnceEach(sub.yielded)
      && (forall e :: e in sub.yielded ==> InHistory(s.history, e) && Matches(sub.from, e))
  {
    RunKeeps(trace, |trace| - 1);
    var s := trace[|trace| - 1];
    var sub := s.subs[id];
    assert forall i :: 0 <= i < |sub.yielded| ==> sub.yielded[i] == Taken(sub)[i];
    if Waiting(sub) {
      assert Taken(sub) == sub.yielded;
    }
  }

  ghost predicate OwnStep(s: State, s': State, id: nat, listing: seq<Entry>) {
    Yield(s, s', id) || Wake(s, s', id) || Refresh(s, s', id, listing)
  }

  /** A subscriber that is not up to date can always take a step of its own. */
  lemma NeverStuck(trace: seq<State>, s: State, id: nat, listing: seq<Entry>)
    requires IsRun(trace) && s == trace[|trace| - 1] && id in s.subs && !UpToDate(s.log, s.subs[id])
    requires IsSnapshot(listing, s.log, s.subs[id].sequence, s.subs[id].from)
    ensures exists s' :: OwnStep(s, s', id, listing)
  {
    NoLostWakeup(trace, id);
    var sub := s.subs[id];
    if sub.pc.Notified? {
      var s' := s.(subs := s.subs[id := sub.(sequence := s.log.nextSeq, pc := Sending(listing))]);
      assert OwnStep(s, s', id, listing);
    } else if sub.pc.pending != [] {
      var sub' := sub.(pc := Sending(sub.pc.pending[1..]), yielded := sub.yielded + [sub.pc.pending[0]]);
      assert OwnStep(s, s.(subs := s.subs[id := sub']), id, listing);
    } else {
      assert OwnStep(s, s.(subs := s.subs[id := sub.(slot := false, pc := Notified)]), id, listing);
    }
  }

  /** When times follow the lock, a subscriber is sent records in the order of both. */
  lemma YieldsInOrder(trace: seq<State>, id: nat)
    requires IsRun(trace) && id in trace[|trace| - 1].subs && InTime(trace[|trace| - 1].submitted)
    ensures Numbered(trace[|trace| - 1].subs[id].yielded) && InOrder(trace[|trace| - 1].subs[id].yielded)
  {
    RunRecords(trace, |trace| - 1);
    TimesInHistory(trace[|trace| - 1]);
    RunKeeps(trace, |trace| - 1);
    var s := trace[|trace| - 1];
    var sub := s.subs[id];
    assert forall i :: 0 <= i < |sub.yielded| ==> sub.yielded[i] == Taken(sub)[i];
    forall i, j | 0 <= i < j < |sub.yielded|
      ensures Precedes(sub.yielded[i], sub.yielded[j])
    {
      assert sub.yielded[i] in Taken(sub) && sub.yielded[j] in Taken(sub);
    }
  }

  /** A cause is yielded to a subscriber at most once, unless it is submitted again after it was superseded. */
  lemma CauseYieldedOnce(trace: seq<State>, id: nat)
    requires IsRun(trace) && id in trace[|trace| - 1].subs && Steady(trace[|trace| - 1].submitted)
    ensures OneEntryPerCause(trace[|trace| - 1].subs[id].yielded)
  {
    NoLostWakeup(trace, id);
    var s := trace[|trace| - 1];
    RunRecords(trace, |trace| - 1);
    StoredOnceIff(s.submitted);
    var yielded := s.subs[id].yielded;
    forall i, j | 0 <= i < j < |yielded|
      ensures yielded[i].record.cause != yielded[j].record.cause
    {
      assert yielded[i] in yielded && yielded[j] in yielded;
      var a, b := yielded[i].number - 1, yielded[j].number - 1;
      assert s.history[a] == yielded[i] && s.history[b] == yielded[j];
      if a < b {
      } else {
        assert b < a;
      }
    }
  }

  /** The store and its one subscriber, waiting, once everything stored has been yielded. */
  function After(log: Log, yielded: seq<Entry>, submitted: seq<Submission>): State {
    State(log, yielded, submitted, map[1 := Sub(0, log.nextSeq, false, Sending([]), yielded)], 1)
  }

  lemma {:induction false} RunOn(trace: seq<State>, more: seq<State>)
    requires IsRun(trace) && |more| > 0 && more[0] == trace[|trace| - 1]
    requires forall i :: 0 <= i < |more| - 1 ==> Next(more[i], more[i + 1])
    ensures IsRun(trace + more[1..])
  {
    var all, k := trace + more[1..], |trace| - 1;
    forall i | 0 <= i < |all| - 1
      ensures Next(all[i], all[i + 1])
    {
      if i < k {
        assert Next(trace[i], trace[i + 1]);
      } else {
        assert Next(more[i - k], more[i - k + 1]);
      }
    }
  }

  /** One writer's batch of one, and the subscriber's wake-up, snapshot and yield after it. */
  lemma {:induction false} OneRound(s: State, history: seq<Entry>, submitted: seq<Submission>, x: Submission)
    returns (more: seq<State>)
    requires HasPath(x.r) && s == After(s.log, history, submitted) && HistoryInv(s.log, history)
    ensures |more| > 0 && more[0] == s && forall i :: 0 <= i < |more| - 1 ==> Next(more[i], more[i + 1])
    ensures more[|more| - 1] == After(AddOne(s.log, x.r, x.at), Grown(s.log, history, x.r, x.at), submitted + [x])
  {
    var log, history', all := AddOne(s.log, x.r, x.at), Grown(s.log, history, x.r, x.at), submitted + [x];
    var sequence := s.log.nextSeq;
    var entries := if Repeats(s.log, x.r) then [] else [EntryFor(s.log, x.r, x.at)];
    var s1 := State(log, history', all, map[1 := Sub(0, sequence, true, Sending([]), history)], 1);
    var s2 := s1.(subs := map[1 := Sub(0, sequence, false, Notified, history)]);
    var s3 := s1.(subs := map[1 := Sub(0, log.nextSeq, false, Sending(entries), history)]);
    AddsOne(s, s1, x);
    assert Wake(s1, s2, 1);
    ShowsOne(s.log, history, x);
    assert Refresh(s2, s3, 1, entries);
    more := [s, s1, s2, s3];
    if entries != [] {
      var s4 := After(log, history', all);
      assert entries[1..] == [] && history' == history + [entries[0]];
      assert Yield(s3, s4, 1);
      more := [s, s1, s2, s3, s4];
    }
  }

  lemma {:induction false} AddsOne(s: State, s': State, x: Submission)
    requires HasPath(x.r)
    requires s' == s.(log := AddOne(s.log, x.r, x.at),
                      history := Grown(s.log, s.history, x.r, x.at),
                      submitted := s.submitted + [x],
                      subs := map id | id in s.subs :: s.subs[id].(slot := true))
    ensures Add(s, s', [x.r], x.at)
  {
    assert [x.r][..0] == [];
    assert AddAll(s.log, [x.r][..0], x.at) == s.log;
    assert Extend(s.log, s.history, [x.r][..0], x.at) == s.history;
    assert Timed([x.r], x.at) == [x];
  }

  /** What a snapshot shows of one addition to one who knew everything before it. */
  lemma {:induction false} ShowsOne(log: Log, history: seq<Entry>, x: Submission)
    requires HasPath(x.r) && HistoryInv(log, history)
    ensures
      IsSnapshot(if Repeats(log, x.r) then [] else [EntryFor(log, x.r, x.at)], AddOne(log, x.r, x.at), log.nextSeq, 0)
  {
    if !Repeats(log, x.r) {
      assert AddOne(log, x.r, x.at).records[Revoked(x.r)] == EntryFor(log, x.r, x.at);
    }
  }

  /** A subscriber that was there first, and keeps up, is yielded everything that is stored. */
  lemma {:induction false} YieldsAll(s: seq<Submission>) returns (trace: seq<State>)
    requires HavePaths(s)
    ensures IsRun(trace) && trace[|trace| - 1] == After(MemoryEach(s), HistoryEach(s), s)
    decreases |s|
  {
    if s == [] {
      trace := [State(Log(map[], 0), [], [], map[], 0), After(Log(map[], 0), [], [])];
      assert Subscribe(trace[0], trace[1], 0, []);
    } else {
      var n := |s| - 1;
      var before, x := s[..n], s[n];
      assert s == before + [x] && HasPath(x.r);
      trace := YieldsAll(before);
      RunKeeps(trace, |trace| - 1);
      var more := OneRound(trace[|trace| - 1], HistoryEach(before), before, x);
      RunOn(trace, more);
      trace := trace + more[1..];
    }
  }

  /** A run in which these were submitted, and in which subscriber `id` is there. */
  ghost predicate Serves(trace: seq<State>, s: seq<Submission>, id: nat) {
    IsRun(trace) && trace[|trace| - 1].submitted == s && id in trace[|trace| - 1].subs
  }

  /** No subscriber is yielded a cause twice, however writers and subscribers interleave. */
  ghost predicate NeverYieldedTwice(s: seq<Submission>) {
    forall trace: seq<State>, id: nat :: Serves(trace, s, id) ==>
      OneEntryPerCause(trace[|trace| - 1].subs[id].yielded)
  }

  /**
   * The exact condition: given what the writers submit, no subscriber is ever
   * yielded a cause twice if and only if none is submitted again after another
   * took its delegation. A repeat is recognised only while it is current.
   */
  lemma {:induction false} YieldedOnceIff(s: seq<Submission>)
    requires HavePaths(s) && CausesName(s)
    ensures NeverYieldedTwice(s) <==> NoneReturns(s)
  {
    if NoneReturns(s) {
      forall trace: seq<State>, id: nat | Serves(trace, s, id)
        ensures OneEntryPerCause(trace[|trace| - 1].subs[id].yielded)
      {
        CauseYieldedOnce(trace, id);
      }
    } else {
      var trace := YieldsAll(s);
      StoredOnceIff(s);
      assert Serves(trace, s, 1);
      assert !OneEntryPerCause(trace[|trace| - 1].subs[1].yielded);
    }
  }

  // ------------------------------------------------ what was superseded

  /** No delegation is revoked for two causes. */
  ghost predicate OneCauseEach(s: seq<Submission>)
    requires HavePaths(s)
  {
    forall i, j :: 0 <= i < j < |s| && Revoked(s[i].r) == Revoked(s[j].r) ==> s[i].r.cause == s[j].r.cause
  }

  /** Every waiting subscriber from time zero has been yielded everything that was ever stored. */
  ghost predicate AllYielded(s: seq<Submission>)
    requires HavePaths(s)
  {
    forall trace: seq<State>, id: nat :: Serves(trace, s, id) ==> YieldedAll(s, trace[|trace| - 1].subs[id])
  }

  ghost predicate YieldedAll(s: seq<Submission>, sub: Sub)
    requires HavePaths(s)
  {
    sub.from == ZERO_TIME && Waiting(sub) ==> forall e :: e in HistoryEach(s) ==> e in sub.yielded
  }

  lemma {:induction false} EachHistoryInv(s: seq<Submission>)
    requires HavePaths(s)
    ensures HistoryInv(MemoryEach(s), HistoryEach(s))
  {
    var trace := YieldsAll(s);
    RunKeeps(trace, |trace| - 1);
  }

  lemma {:induction false} AllCurrent(s: seq<Submission>)
    requires HavePaths(s) && OneCauseEach(s)
    ensures forall e :: e in HistoryEach(s) ==> e in MemoryEach(s).records.Values
    decreases |s|
  {
    if s == [] {
    } else {
      var n := |s| - 1;
      var before, x := s[..n], s[n];
      assert s == before + [x] && HasPath(x.r);
      AllCurrent(before);
      NewOrRepeat(before, x);
      KeepsValues(MemoryEach(before), x);
    }
  }

  /** Where delegations have one cause each, a delegation that is known makes a repeat. */
  lemma {:induction false} NewOrRepeat(s: seq<Submission>, x: Submission)
    requires HavePaths(s) && HasPath(x.r) && HavePaths(s + [x]) && OneCauseEach(s + [x])
    ensures Revoked(x.r) in MemoryEach(s).records ==> Repeats(MemoryEach(s), x.r)
  {
    var all := s + [x];
    EntriesEach(s);
    if Revoked(x.r) in MemoryEach(s).records {
      var last := LastOf(s, MemoryEach(s), Revoked(x.r));
      assert all[last] == s[last] && all[|s|] == x;
    }
  }

  lemma {:induction false} KeepsValues(log: Log, x: Submission)
    requires HasPath(x.r) && (Revoked(x.r) in log.records ==> Repeats(log, x.r))
    ensures forall e :: e in log.records.Values ==> e in AddOne(log, x.r, x.at).records.Values
    ensures !Repeats(log, x.r) ==> EntryFor(log, x.r, x.at) in AddOne(log, x.r, x.at).records.Values
  {
    var log' := AddOne(log, x.r, x.at);
    forall e | e in log.records.Values
      ensures e in log'.records.Values
    {
      var d :| d in log.records && log.records[d] == e;
      assert log'.records[d] == e;
    }
    if !Repeats(log, x.r) {
      assert log'.records[Revoked(x.r)] == EntryFor(log, x.r, x.at);
    }
  }

  /** Every submission has an entry for its delegation and cause. */
  lemma {:induction false} EntryOf(s: seq<Submission>, i: nat) returns (e: Entry)
    requires HavePaths(s) && i < |s|
    ensures e in HistoryEach(s) && e.record.revoke == Revoked(s[i].r) && e.record.cause == s[i].r.cause
    decreases |s|
  {
    var n := |s| - 1;
    var before, x := s[..n], s[n];
    assert s == before + [x] && HasPath(x.r);
    if i < n {
      e := EntryOf(before, i);
    } else if Repeats(MemoryEach(before), x.r) {
      EachHistoryInv(before);
      e := MemoryEach(before).records[Revoked(x.r)];
    } else {
      e := EntryFor(MemoryEach(before), x.r, x.at);
    }
  }

  /** Of two entries for one delegation, one is no longer current. */
  lemma {:induction false} OneSuperseded(s: seq<Submission>, i: nat, j: nat) returns (e: Entry)
    requires HavePaths(s) && i < j < |s|
    requires Revoked(s[i].r) == Revoked(s[j].r) && s[i].r.cause != s[j].r.cause
    ensures e in HistoryEach(s) && e !in MemoryEach(s).records.Values
  {
    var one := EntryOf(s, i);
    var other := EntryOf(s, j);
    EachHistoryInv(s);
    e := if one in MemoryEach(s).records.Values then other else one;
  }

  /** Where an entry goes among others in order. */
  lemma {:induction false} Place(entries: seq<Entry>, entry: Entry) returns (i: nat)
    requires InOrder(entries) && forall e :: e in entries ==> e.number != entry.number
    ensures i <= |entries| && (forall k :: 0 <= k < i ==> Precedes(entries[k], entry))
    ensures i < |entries| ==> Precedes(entry, entries[i])
  {
    i := 0;
    while i < |entries| && Precedes(entries[i], entry)
      invariant i <= |entries| && forall k :: 0 <= k < i ==> Precedes(entries[k], entry)
    {
      i := i + 1;
    }
    if i < |entries| {
      assert entries[i] in entries;
    }
  }

  /** The entries under some of the delegations, in order. */
  lemma {:induction false} Listing(log: Log, keys: set<Cid>) returns (entries: seq<Entry>)
    requires LogInv(log) && keys <= log.records.Keys
    ensures InOrder(entries) && forall e :: e in entries <==> exists d :: d in keys && log.records[d] == e
    decreases keys
  {
    if keys == {} {
      entries := [];
    } else {
      var d :| d in keys;
      var rest := Listing(log, keys - {d});
      var entry := log.records[d];
      var i := Place(rest, entry);
      InsertedInOrder(rest, entry, i);
      entries := rest[..i] + [entry] + rest[i..];
    }
  }

  lemma {:induction false} SnapshotFrom(log: Log, history: seq<Entry>, from: int) returns (entries: seq<Entry>)
    requires HistoryInv(log, history)
    ensures IsSnapshot(entries, log, 0, from)
  {
    entries := Listing(log, set d | d in log.records && Matches(from, log.records[d]));
  }

  /** A subscriber yields what is left of its snapshot. */
  lemma {:induction false} YieldsRest(s: State, id: nat) returns (more: seq<State>)
    requires id in s.subs && s.subs[id].pc.Sending?
    ensures |more| > 0 && more[0] == s && forall i :: 0 <= i < |more| - 1 ==> Next(more[i], more[i + 1])
    ensures
      var sub := s.subs[id];
      var done := sub.(pc := Sending([]), yielded := sub.yielded + sub.pc.pending);
      more[|more| - 1] == s.(subs := s.subs[id := done])
    decreases |s.subs[id].pc.pending|
  {
    var sub := s.subs[id];
    var pending := sub.pc.pending;
    if pending == [] {
      assert sub.yielded + [] == sub.yielded;
      assert s.subs[id := sub] == s.subs;
      more := [s];
    } else {
      var sub' := sub.(pc := Sending(pending[1..]), yielded := sub.yielded + [pending[0]]);
      var s' := s.(subs := s.subs[id := sub']);
      assert Yield(s, s', id);
      assert sub.yielded + [pending[0]] + pending[1..] == sub.yielded + pending;
      var rest := YieldsRest(s', id);
      var done := sub.(pc := Sending([]), yielded := sub.yielded + pending);
      assert s'.subs[id := done] == s.subs[id := done];
      more := [s] + rest;
    }
  }

  /** A subscriber that comes late waits, having been yielded what is current and nothing else. */
  lemma {:induction false} LateSubscriber(s: seq<Submission>) returns (trace: seq<State>)
    requires HavePaths(s)
    ensures Serves(trace, s, 2)
    ensures
      var sub := trace[|trace| - 1].subs[2];
      && sub.from == ZERO_TIME && Waiting(sub)
      && (forall e :: e in sub.yielded ==> e in MemoryEach(s).records.Values)
  {
    trace := YieldsAll(s);
    var last := trace[|trace| - 1];
    EachHistoryInv(s);
    var entries := SnapshotFrom(last.log, last.history, ZERO_TIME);
    var sub := Sub(ZERO_TIME, last.log.nextSeq, false, Sending(entries), []);
    var joined := last.(subs := last.subs[2 := sub], nextSubscriber := 2);
    assert Subscribe(last, joined, ZERO_TIME, entries);
    RunOn(trace, [last, joined]);
    trace := trace + [last, joined][1..];
    var more := YieldsRest(joined, 2);
    RunOn(trace, more);
    trace := trace + more[1..];
    assert [] + entries == entries;
  }

  /**
   * The stream yields all revocation records, to every subscriber from time zero
   * that has caught up, if and only if no delegation is revoked for two causes:
   * a record that was superseded is not there for one who comes later.
   */
  lemma {:induction false} AllYieldedIff(s: seq<Submission>)
    requires HavePaths(s)
    ensures AllYielded(s) <==> OneCauseEach(s)
  {
    if OneCauseEach(s) {
      AllCurrent(s);
      forall trace: seq<State>, id: nat | Serves(trace, s, id)
        ensures YieldedAll(s, trace[|trace| - 1].subs[id])
      {
        RunRecords(trace, |trace| - 1);
        NoLostWakeup(trace, id);
      }
    } else {
      var i, j :| 0 <= i < j < |s| && Revoked(s[i].r) == Revoked(s[j].r) && s[i].r.cause != s[j].r.cause;
      var e := OneSuperseded(s, i, j);
      var trace := LateSubscriber(s);
      assert !YieldedAll(s, trace[|trace| - 1].subs[2]);
    }
  }
}
