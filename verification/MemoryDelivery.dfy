// How much of what the in-memory store holds a client is given when the record
// times read by the writers need not follow the order in which they add: each
// reads the clock before it takes the lock.

module MemoryDelivery {
  import opened Types
  import opened MemoryStore
  import opened ClientStream
  import opened Submissions
  import E = EndToEnd
  import M = MemoryStream
  import SsePrinter

  // ---------------------------------------------------------------- orders

  /** Nothing stored before `e` has a later time. */
  ghost predicate InTurn(history: seq<Entry>, e: Entry) {
    && M.InHistory(history, e)
    && (forall i :: 0 <= i < e.number - 1 ==> history[i].record.recordedAt <= e.record.recordedAt)
  }

  ghost predicate Standing(log: Log, history: seq<Entry>, e: Entry) {
    e in log.records.Values && InTurn(history, e)
  }

  /** Whatever is later than `e` comes after it. */
  ghost predicate Leads(entries: seq<Entry>, e: Entry) {
    forall k :: 0 <= k < |entries| && entries[k].record.recordedAt > e.record.recordedAt ==> e in entries[..k]
  }

  lemma {:induction false} LeadsPrefix(entries: seq<Entry>, all: seq<Entry>, e: Entry)
    requires entries <= all && Leads(all, e)
    ensures Leads(entries, e)
  {
    forall k | 0 <= k < |entries| && entries[k].record.recordedAt > e.record.recordedAt
      ensures e in entries[..k]
    {
      assert entries[..k] == all[..k];
    }
  }

  lemma {:induction false} LeadsAppend(entries: seq<Entry>, more: seq<Entry>, e: Entry)
    requires Leads(entries, e) && (e in entries || Leads(more, e))
    ensures Leads(entries + more, e)
  {
    var all, n := entries + more, |entries|;
    forall k | 0 <= k < |all| && all[k].record.recordedAt > e.record.recordedAt
      ensures e in all[..k]
    {
      if k < n {
        assert all[..k] == entries[..k];
      } else {
        assert all[..k] == entries + more[..k - n] && all[k] == more[k - n];
      }
    }
  }

  lemma {:induction false} LeadsInOrder(entries: seq<Entry>, e: Entry)
    requires InOrder(entries) && e in entries
    ensures Leads(entries, e)
  {
    var j :| 0 <= j < |entries| && entries[j] == e;
    forall k | 0 <= k < |entries| && entries[k].record.recordedAt > e.record.recordedAt
      ensures e in entries[..k]
    {
      assert j < k && entries[..k][j] == e;
    }
  }

  // ------------------------------------------------------------ subscribers

  ghost predicate SubLeads(log: Log, history: seq<Entry>, sub: M.Sub) {
    forall e :: Standing(log, history, e) && Matches(sub.from, e) ==> Leads(M.Taken(sub), e)
  }

  ghost predicate AllLead(mem: M.State) {
    forall id :: id in mem.subs ==> SubLeads(mem.log, mem.history, mem.subs[id])
  }

  /** An entry that stands stood before, or was only stored now, after everything sent. */
  lemma {:induction false} StoodBefore(mem: M.State, mem': M.State, e: Entry, sent: seq<Entry>)
    requires M.Inv(mem) && M.Next(mem, mem') && Standing(mem'.log, mem'.history, e)
    requires forall x :: x in sent ==> M.InHistory(mem.history, x)
    ensures Standing(mem.log, mem.history, e) || Leads(sent, e)
  {
    E.HistoryGrows(mem, mem');
    if e.number > |mem.history| {
      forall k | 0 <= k < |sent|
        ensures sent[k].record.recordedAt <= e.record.recordedAt
      {
        assert sent[k] in sent;
        assert mem'.history[sent[k].number - 1] == sent[k];
      }
    }
  }

  lemma {:induction false} AddLeads(mem: M.State, mem': M.State, batch: seq<Revocation>, recordedAt: int)
    requires M.Inv(mem) && AllLead(mem) && M.Add(mem, mem', batch, recordedAt)
    ensures AllLead(mem')
  {
    assert M.Next(mem, mem');
    forall id, e | id in mem'.subs && Standing(mem'.log, mem'.history, e) && Matches(mem'.subs[id].from, e)
      ensures Leads(M.Taken(mem'.subs[id]), e)
    {
      var sub := mem.subs[id];
      assert M.SubInv(mem.log, mem.history, sub) && M.Taken(mem'.subs[id]) == M.Taken(sub);
      StoodBefore(mem, mem', e, M.Taken(sub));
    }
  }

  lemma {:induction false} SnapshotLeads(log: Log, history: seq<Entry>, sub: M.Sub, entries: seq<Entry>)
    requires M.SubInv(log, history, sub) && SubLeads(log, history, sub)
    requires sub.pc.Notified? && IsSnapshot(entries, log, sub.sequence, sub.from)
    ensures SubLeads(log, history, sub.(sequence := log.nextSeq, pc := M.Sending(entries)))
  {
    var sub' := sub.(sequence := log.nextSeq, pc := M.Sending(entries));
    assert M.Taken(sub) == sub.yielded && M.Taken(sub') == sub.yielded + entries;
    forall e | Standing(log, history, e) && Matches(sub.from, e)
      ensures Leads(M.Taken(sub'), e)
    {
      if e.number > sub.sequence {
        LeadsInOrder(entries, e);
      } else {
        assert e in M.Taken(sub);
      }
      LeadsAppend(sub.yielded, entries, e);
    }
  }

  lemma {:induction false} SubscribeLeads(log: Log, history: seq<Entry>, from: int, entries: seq<Entry>)
    requires IsSnapshot(entries, log, 0, from)
    ensures SubLeads(log, history, M.Sub(from, log.nextSeq, false, M.Sending(entries), []))
  {
    var sub := M.Sub(from, log.nextSeq, false, M.Sending(entries), []);
    assert M.Taken(sub) == entries;
    forall e | Standing(log, history, e) && Matches(from, e)
      ensures Leads(entries, e)
    {
      LeadsInOrder(entries, e);
    }
  }

  lemma {:induction false} SameTakenLeads(log: Log, history: seq<Entry>, sub: M.Sub, sub': M.Sub)
    requires SubLeads(log, history, sub) && sub'.from == sub.from && M.Taken(sub') == M.Taken(sub)
    ensures SubLeads(log, history, sub')
  {
  }

  lemma {:induction false} YieldLeads(log: Log, history: seq<Entry>, sub: M.Sub, sub': M.Sub)
    requires SubLeads(log, history, sub) && sub.pc.Sending? && sub.pc.pending != []
    requires sub' == sub.(pc := M.Sending(sub.pc.pending[1..]), yielded := sub.yielded + [sub.pc.pending[0]])
    ensures SubLeads(log, history, sub')
  {
    assert sub.yielded + [sub.pc.pending[0]] + sub.pc.pending[1..] == sub.yielded + sub.pc.pending;
    SameTakenLeads(log, history, sub, sub');
  }

  /** The other steps change one subscriber at most. */
  lemma {:induction false} OneSubLeads(mem: M.State, mem': M.State, id: nat, sub: M.Sub)
    requires AllLead(mem) && SubLeads(mem.log, mem.history, sub)
    requires mem'.log == mem.log && mem'.history == mem.history && mem'.subs == mem.subs[id := sub]
    ensures AllLead(mem')
  {
  }

  lemma {:induction false} RefreshLeads(mem: M.State, mem': M.State, id: nat, entries: seq<Entry>)
    requires M.Inv(mem) && AllLead(mem) && M.Refresh(mem, mem', id, entries)
    ensures AllLead(mem')
  {
    SnapshotLeads(mem.log, mem.history, mem.subs[id], entries);
    OneSubLeads(mem, mem', id, mem'.subs[id]);
  }

  lemma {:induction false} NextLeads(mem: M.State, mem': M.State)
    requires M.Inv(mem) && AllLead(mem) && M.Next(mem, mem')
    ensures AllLead(mem')
  {
    if batch: seq<Revocation>, recordedAt: int :| M.Add(mem, mem', batch, recordedAt) {
      AddLeads(mem, mem', batch, recordedAt);
    } else if from: int, entries: seq<Entry> :| M.Subscribe(mem, mem', from, entries) {
      SubscribeLeads(mem.log, mem.history, from, entries);
      OneSubLeads(mem, mem', mem'.nextSubscriber, mem'.subs[mem'.nextSubscriber]);
    } else if id: nat :| M.Yield(mem, mem', id) {
      YieldLeads(mem.log, mem.history, mem.subs[id], mem'.subs[id]);
      OneSubLeads(mem, mem', id, mem'.subs[id]);
    } else if id: nat :| M.Wake(mem, mem', id) {
      SameTakenLeads(mem.log, mem.history, mem.subs[id], mem'.subs[id]);
      OneSubLeads(mem, mem', id, mem'.subs[id]);
    } else if id: nat, entries: seq<Entry> :| M.Refresh(mem, mem', id, entries) {
      RefreshLeads(mem, mem', id, entries);
    } else {
      var id: nat :| M.Leave(mem, mem', id);
    }
  }

  // ----------------------------------------------------------------- client

  /** What the client yielded was stored, and it has seen only what it yielded. */
  ghost predicate Honest(history: seq<Entry>, c: Client) {
    && (forall r :: r in c.yielded ==> E.Stored(history, r))
    && (forall x :: x in c.seen ==> exists r :: r in c.yielded && r.cause == x)
  }

  lemma {:induction false} EmitHonest(mem: M.State, c: Client, e: Entry)
    requires M.HistoryInv(mem.log, mem.history) && OneEntryPerCause(mem.history)
    requires Honest(mem.history, c) && M.InHistory(mem.history, e)
    ensures
      var c' := Emit(c, e.record);
      && Honest(mem.history, c') && c.yielded <= c'.yielded && e.record in c'.yielded
      && c'.resume == e.record.recordedAt
  {
    var r := e.record;
    assert e in mem.history;
    if Skips(c, r) {
      var q :| q in c.yielded && q.cause == r.cause;
      var x :| x in mem.history && x.record == q;
      E.CauseNamesEntry(mem.history, x, e);
    } else {
      var c' := Emit(c, r);
      assert r in c'.yielded && E.Stored(mem.history, r);
      assert forall q :: q in c.yielded ==> q in c'.yielded;
    }
  }

  lemma {:induction false} OneMoreHonest(mem: M.State, c: Client, sent: seq<Entry>, k: nat, c1: Client)
    requires M.HistoryInv(mem.log, mem.history) && OneEntryPerCause(mem.history)
    requires k < |sent| && M.InHistory(mem.history, sent[k])
    requires Honest(mem.history, c1) && E.Emitted(c, sent, k, c1)
    ensures
      var c2 := Emit(c1, sent[k].record);
      Honest(mem.history, c2) && E.Emitted(c, sent, k + 1, c2)
  {
    EmitHonest(mem, c1, sent[k]);
    var c2 := Emit(c1, sent[k].record);
    forall i | 0 <= i < k + 1
      ensures sent[i].record in c2.yielded
    {
    }
  }

  lemma {:induction false} ReadHonest(mem: M.State, c: Client, sent: seq<Entry>, k: nat)
    requires M.HistoryInv(mem.log, mem.history) && OneEntryPerCause(mem.history) && Honest(mem.history, c)
    requires k <= |sent| && forall x :: x in sent ==> M.InHistory(mem.history, x)
    ensures Honest(mem.history, E.After(c, sent, k)) && E.Emitted(c, sent, k, E.After(c, sent, k))
  {
    if k == 0 {
      assert E.Records(sent[..0]) == [];
    } else {
      ReadHonest(mem, c, sent, k - 1);
      assert sent[k - 1] in sent;
      OneMoreHonest(mem, c, sent, k - 1, E.After(c, sent, k - 1));
      E.AfterNext(c, sent, k - 1);
    }
  }

  /** The client is not past an entry that stands, unless it yielded it. */
  ghost predicate NotPast(from: int, mem: M.State, c: Client) {
    && (c.resume == from || exists x :: x in mem.history && x.record.recordedAt == c.resume)
    && (forall e :: Standing(mem.log, mem.history, e) && e.record.recordedAt >= from ==>
          e.record in c.yielded || c.resume <= e.record.recordedAt)
  }

  ghost predicate SentLeads(mem: M.State, cursor: int, sent: seq<Entry>) {
    && (forall x :: x in sent ==> M.InHistory(mem.history, x))
    && (forall e :: Standing(mem.log, mem.history, e) && Matches(cursor, e) ==> Leads(sent, e))
  }

  lemma {:induction false} ReadNotPast(from: int, mem: M.State, c: Client, sent: seq<Entry>, k: nat, c': Client)
    requires NotPast(from, mem, c) && SentLeads(mem, c.resume, sent) && k <= |sent| && E.Emitted(c, sent, k, c')
    ensures NotPast(from, mem, c')
  {
    if k == 0 {
    } else {
      assert sent[k - 1] in sent && sent[k - 1] in mem.history;
      forall e | Standing(mem.log, mem.history, e) && e.record.recordedAt >= from
        ensures e.record in c'.yielded || c'.resume <= e.record.recordedAt
      {
        if e.record !in c.yielded && c'.resume > e.record.recordedAt {
          assert Leads(sent, e) && e in sent[..k - 1];
          var i :| 0 <= i < k - 1 && sent[i] == e;
        }
      }
    }
  }

  // -------------------------------------------------------------- invariant

  ghost predicate PipeInv(codec: E.Codec, s: E.State) {
    s.conn.Some? ==>
      var Pipe(sub, sent, got) := s.conn.value;
      && sub <= s.mem.nextSubscriber && got <= |E.Body(codec, sent)|
      && (sub in s.mem.subs ==> s.mem.subs[sub].from == s.client.resume && s.mem.subs[sub].yielded == sent)
      && SentLeads(s.mem, s.client.resume, sent)
  }

  ghost predicate Inv(codec: E.Codec, from: int, s: E.State) {
    && M.Inv(s.mem) && AllLead(s.mem)
    && (OneEntryPerCause(s.mem.history) && E.Carries(codec, s.mem.history) ==>
          Honest(s.mem.history, s.client) && NotPast(from, s.mem, s.client) && PipeInv(codec, s))
  }

  lemma {:induction false} Before(codec: E.Codec, history: seq<Entry>, history': seq<Entry>)
    requires history <= history' && OneEntryPerCause(history') && E.Carries(codec, history')
    ensures OneEntryPerCause(history) && E.Carries(codec, history)
  {
    assert forall i :: 0 <= i < |history| ==> history[i] == history'[i];
    assert forall e :: e in history ==> e in history';
  }

  lemma {:induction false} HonestGrows(history: seq<Entry>, history': seq<Entry>, c: Client)
    requires history <= history' && Honest(history, c)
    ensures Honest(history', c)
  {
    forall r | r in c.yielded
      ensures E.Stored(history', r)
    {
      E.StoredGrows(history, history', r);
    }
  }

  lemma {:induction false} NotPastGrows(from: int, mem: M.State, mem': M.State, c: Client)
    requires M.Inv(mem) && M.Next(mem, mem') && NotPast(from, mem, c)
    ensures NotPast(from, mem', c)
  {
    E.HistoryGrows(mem, mem');
    if c.resume == from {
      forall e | Standing(mem'.log, mem'.history, e) && e.record.recordedAt >= from
        ensures e.record in c.yielded || c.resume <= e.record.recordedAt
      {
        StoodBefore(mem, mem', e, []);
      }
    } else {
      var i :| 0 <= i < |mem.history| && mem.history[i].record.recordedAt == c.resume;
      assert mem'.history[i] == mem.history[i] && mem'.history[i] in mem'.history;
      forall e | Standing(mem'.log, mem'.history, e) && e.record.recordedAt >= from
        ensures e.record in c.yielded || c.resume <= e.record.recordedAt
      {
        if e.number > |mem.history| {
          assert mem'.history[i].record.recordedAt <= e.record.recordedAt;
        } else {
          assert Standing(mem.log, mem.history, e);
        }
      }
    }
  }

  lemma {:induction false} SentLeadsGrows(mem: M.State, mem': M.State, cursor: int, sent: seq<Entry>)
    requires M.Inv(mem) && M.Next(mem, mem') && SentLeads(mem, cursor, sent)
    ensures SentLeads(mem', cursor, sent)
  {
    E.HistoryGrows(mem, mem');
    forall e | Standing(mem'.log, mem'.history, e) && Matches(cursor, e)
      ensures Leads(sent, e)
    {
      StoodBefore(mem, mem', e, sent);
    }
  }

  /** What a subscriber has yielded is what a connection may have been sent. */
  lemma {:induction false} YieldedLeads(mem: M.State, id: nat)
    requires M.Inv(mem) && AllLead(mem) && id in mem.subs
    ensures SentLeads(mem, mem.subs[id].from, mem.subs[id].yielded)
  {
    var sub := mem.subs[id];
    assert M.SubInv(mem.log, mem.history, sub) && SubLeads(mem.log, mem.history, sub);
    assert forall x :: x in sub.yielded ==> x in M.Taken(sub);
    forall e | Standing(mem.log, mem.history, e) && Matches(sub.from, e)
      ensures Leads(sub.yielded, e)
    {
      LeadsPrefix(sub.yielded, M.Taken(sub), e);
    }
  }

  lemma {:induction false} PipeKeeps(codec: E.Codec, s: E.State, s': E.State)
    requires M.Inv(s.mem) && M.Inv(s'.mem) && AllLead(s'.mem) && E.ServerStep(s, s')
    requires PipeInv(codec, s) && s.conn.Some?
    ensures PipeInv(codec, s')
  {
    var Pipe(sub, sent, got) := s.conn.value;
    if sub in s'.mem.subs {
      E.SubPersists(s.mem, s'.mem, sub);
      YieldedLeads(s'.mem, sub);
      E.BodyGrows(codec, sent, s'.mem.subs[sub].yielded);
    } else {
      SubscribersGrow(s.mem, s'.mem);
      SentLeadsGrows(s.mem, s'.mem, s.client.resume, sent);
    }
  }

  lemma {:induction false} SubscribersGrow(mem: M.State, mem': M.State)
    requires M.Next(mem, mem')
    ensures mem.nextSubscriber <= mem'.nextSubscriber
  {
  }

  lemma {:induction false} ServerStepKeeps(codec: E.Codec, from: int, s: E.State, s': E.State)
    requires Inv(codec, from, s) && E.ServerStep(s, s')
    ensures Inv(codec, from, s')
  {
    M.NextKeeps(s.mem, s'.mem);
    NextLeads(s.mem, s'.mem);
    if OneEntryPerCause(s'.mem.history) && E.Carries(codec, s'.mem.history) {
      E.HistoryGrows(s.mem, s'.mem);
      Before(codec, s.mem.history, s'.mem.history);
      HonestGrows(s.mem.history, s'.mem.history, s.client);
      NotPastGrows(from, s.mem, s'.mem, s.client);
      if s.conn.Some? {
        PipeKeeps(codec, s, s');
      }
    }
  }

  lemma {:induction false} ConnectKeeps(codec: E.Codec, from: int, s: E.State, s': E.State, entries: seq<Entry>)
    requires Inv(codec, from, s) && E.Connect(s, s', entries)
    ensures Inv(codec, from, s')
  {
    assert M.Next(s.mem, s'.mem);
    M.NextKeeps(s.mem, s'.mem);
    NextLeads(s.mem, s'.mem);
    YieldedLeads(s'.mem, s'.mem.nextSubscriber);
  }

  /** The client's invariant holds of what it has read so far, connected or not. */
  lemma {:induction false} NowInv(codec: E.Codec, from: int, s: E.State)
    requires Inv(codec, from, s) && OneEntryPerCause(s.mem.history) && E.Carries(codec, s.mem.history)
    ensures Honest(s.mem.history, E.Now(codec, s)) && NotPast(from, s.mem, E.Now(codec, s))
    ensures s.conn.Some? ==> E.Emitted(s.client, s.conn.value.sent, E.Arrived(codec, s), E.Now(codec, s))
  {
    if s.conn.Some? {
      var sent, k := s.conn.value.sent, E.Arrived(codec, s);
      assert forall e :: e in sent ==> e in s.mem.history;
      E.ReadingEmits(codec, s);
      ReadHonest(s.mem, s.client, sent, k);
      ReadNotPast(from, s.mem, s.client, sent, k, E.Now(codec, s));
    }
  }

  lemma {:induction false} CutKeeps(codec: E.Codec, from: int, s: E.State, s': E.State)
    requires Inv(codec, from, s) && E.Cut(codec, s, s')
    ensures Inv(codec, from, s')
  {
    if OneEntryPerCause(s.mem.history) && E.Carries(codec, s.mem.history) {
      NowInv(codec, from, s);
    }
  }

  lemma {:induction false} NextKeeps(codec: E.Codec, from: int, s: E.State, s': E.State)
    requires Inv(codec, from, s) && E.Next(codec, s, s')
    ensures Inv(codec, from, s')
  {
    if E.ServerStep(s, s') {
      ServerStepKeeps(codec, from, s, s');
    } else if entries: seq<Entry> :| E.Connect(s, s', entries) {
      ConnectKeeps(codec, from, s, s', entries);
    } else if E.Cut(codec, s, s') {
      CutKeeps(codec, from, s, s');
    }
  }

  lemma {:induction false} RunKeeps(codec: E.Codec, from: int, trace: seq<E.State>, i: nat)
    requires E.IsRun(codec, from, trace) && i < |trace|
    ensures Inv(codec, from, trace[i])
  {
    if i == 0 {
    } else {
      RunKeeps(codec, from, trace, i - 1);
      assert E.Next(codec, trace[i - 1], trace[i - 1 + 1]);
      NextKeeps(codec, from, trace[i - 1], trace[i]);
    }
  }

  // -------------------------------------------------- nothing that stands is missed

  /** At quiescence every entry that stands has been yielded. */
  lemma {:induction false} StandingYielded(codec: E.Codec, from: int, s: E.State, e: Entry)
    requires Inv(codec, from, s) && OneEntryPerCause(s.mem.history) && E.Carries(codec, s.mem.history)
    requires E.Quiescent(codec, s) && Standing(s.mem.log, s.mem.history, e) && e.record.recordedAt >= from
    ensures e.record in E.Now(codec, s).yielded
  {
    var Pipe(id, sent, _) := s.conn.value;
    NowInv(codec, from, s);
    SsePrinter.AllWhole(E.Messages(codec, sent));
    assert E.Arrived(codec, s) == |sent|;
    if e.record !in s.client.yielded {
      var sub := s.mem.subs[id];
      assert M.SubInv(s.mem.log, s.mem.history, sub) && M.Taken(sub) == sub.yielded;
      assert Matches(sub.from, e) && e in sent;
      var i :| 0 <= i < |sent| && sent[i] == e;
    }
  }

  // ------------------------------------------------- what does not stand is missed

  /** The store after these submissions, with no subscribers. */
  function Idle(s: seq<Submission>, next: nat): M.State
    requires HavePaths(s)
  {
    M.State(MemoryEach(s), HistoryEach(s), s, map[], next)
  }

  lemma {:induction false} RunOn(codec: E.Codec, from: int, trace: seq<E.State>, s': E.State)
    returns (longer: seq<E.State>)
    requires E.IsRun(codec, from, trace) && E.Next(codec, trace[|trace| - 1], s')
    ensures E.IsRun(codec, from, longer) && longer[|longer| - 1] == s'
  {
    longer := trace + [s'];
    forall i | 0 <= i < |longer| - 1
      ensures E.Next(codec, longer[i], longer[i + 1])
    {
      if i < |trace| - 1 {
        assert E.Next(codec, trace[i], trace[i + 1]);
      }
    }
  }

  /** The rest of the submissions are made while the client is not connected. */
  lemma {:induction false} Submit(
      codec: E.Codec, from: int, trace: seq<E.State>, s: seq<Submission>, k: nat, next: nat, c: Client)
    returns (longer: seq<E.State>)
    requires HavePaths(s) && k <= |s| && HavePaths(s[..k])
    requires E.IsRun(codec, from, trace) && trace[|trace| - 1] == E.State(Idle(s[..k], next), c, None)
    ensures E.IsRun(codec, from, longer) && longer[|longer| - 1] == E.State(Idle(s, next), c, None)
    decreases |s| - k
  {
    if k == |s| {
      assert s[..k] == s;
      longer := trace;
    } else {
      var more := s[..k + 1];
      assert more == s[..k] + [s[k]] && HasPath(s[k].r);
      EachLast(s[..k], s[k]);
      M.AddsOne(Idle(s[..k], next), Idle(more, next), s[k]);
      assert M.Next(Idle(s[..k], next), Idle(more, next));
      longer := RunOn(codec, from, trace, E.State(Idle(more, next), c, None));
      longer := Submit(codec, from, longer, s, k + 1, next, c);
    }
  }

  /** What is left of the snapshot is written to the connection. */
  lemma {:induction false} Serve(codec: E.Codec, from: int, trace: seq<E.State>, s: E.State, id: nat)
    returns (longer: seq<E.State>)
    requires E.IsRun(codec, from, trace) && s == trace[|trace| - 1]
    requires id in s.mem.subs && s.mem.subs[id].pc.Sending?
    requires s.conn == Some(E.Pipe(id, s.mem.subs[id].yielded, 0))
    ensures E.IsRun(codec, from, longer)
    ensures
      var sub := s.mem.subs[id];
      var sent := sub.yielded + sub.pc.pending;
      var done := sub.(pc := M.Sending([]), yielded := sent);
      longer[|longer| - 1] == s.(mem := s.mem.(subs := s.mem.subs[id := done]), conn := Some(E.Pipe(id, sent, 0)))
    decreases |s.mem.subs[id].pc.pending|
  {
    var sub := s.mem.subs[id];
    var pending := sub.pc.pending;
    if pending == [] {
      assert sub.yielded + [] == sub.yielded;
      assert s.mem.subs[id := sub] == s.mem.subs;
      longer := trace;
    } else {
      var sub' := sub.(pc := M.Sending(pending[1..]), yielded := sub.yielded + [pending[0]]);
      var s' := s.(mem := s.mem.(subs := s.mem.subs[id := sub']), conn := Some(E.Pipe(id, sub'.yielded, 0)));
      assert M.Yield(s.mem, s'.mem, id);
      assert sub'.yielded + pending[1..] == sub.yielded + pending;
      var sent := sub.yielded + pending;
      var done := sub.(pc := M.Sending([]), yielded := sent);
      assert s'.mem.subs[id := done] == s.mem.subs[id := done];
      assert E.ServerStep(s, s');
      longer := RunOn(codec, from, trace, s');
      longer := Serve(codec, from, longer, s', id);
    }
  }

  /** The client connects, and is sent everything current from its resume time on. */
  lemma {:induction false} ConnectAndRead(
      codec: E.Codec, from: int, trace: seq<E.State>, s: seq<Submission>, next: nat, c: Client)
    returns (longer: seq<E.State>, entries: seq<Entry>)
    requires HavePaths(s) && E.Carries(codec, HistoryEach(s))
    requires E.IsRun(codec, from, trace) && trace[|trace| - 1] == E.State(Idle(s, next), c, None)
    ensures E.IsRun(codec, from, longer)
    ensures
      var last := longer[|longer| - 1];
      && IsSnapshot(entries, MemoryEach(s), 0, c.resume)
      && last.mem == Idle(s, next).(subs := last.mem.subs, nextSubscriber := next + 1)
      && last.mem.subs.Keys == {next + 1} && E.Quiescent(codec, last)
      && E.Now(codec, last) == EmitAll(c, E.Records(entries))
  {
    var log, id := MemoryEach(s), next + 1;
    M.EachHistoryInv(s);
    entries := M.SnapshotFrom(log, HistoryEach(s), c.resume);
    var sub := M.Sub(c.resume, log.nextSeq, false, M.Sending(entries), []);
    var mem := Idle(s, next).(subs := map[id := sub], nextSubscriber := id);
    var joined := E.State(mem, c, Some(E.Pipe(id, [], 0)));
    assert E.Connect(trace[|trace| - 1], joined, entries);
    longer := RunOn(codec, from, trace, joined);
    longer := Serve(codec, from, longer, joined, id);
    assert [] + entries == entries;
    var served := longer[|longer| - 1];
    var got := |E.Body(codec, entries)|;
    var read := served.(conn := Some(E.Pipe(id, entries, got)));
    assert E.Arrive(codec, served, read, got);
    longer := RunOn(codec, from, longer, read);
    AllRead(codec, s, entries, read);
  }

  lemma {:induction false} AllRead(codec: E.Codec, s: seq<Submission>, entries: seq<Entry>, read: E.State)
    requires HavePaths(s) && E.Carries(codec, HistoryEach(s))
    requires IsSnapshot(entries, MemoryEach(s), 0, read.client.resume)
    requires read.conn.Some? && read.conn.value.sent == entries && read.conn.value.got == |E.Body(codec, entries)|
    ensures E.Now(codec, read) == EmitAll(read.client, E.Records(entries))
  {
    M.EachHistoryInv(s);
    forall e | e in entries
      ensures e in HistoryEach(s)
    {
      assert M.InHistory(HistoryEach(s), e);
    }
    SsePrinter.AllWhole(E.Messages(codec, entries));
    assert entries[..|entries|] == entries;
    E.ReadingEmits(codec, read);
  }

  /** The connection is cut, and its subscriber leaves. */
  lemma {:induction false} CutAndLeave(
      codec: E.Codec, from: int, trace: seq<E.State>, s: seq<Submission>, next: nat, c: Client)
    returns (longer: seq<E.State>)
    requires HavePaths(s) && E.IsRun(codec, from, trace)
    requires
      var last := trace[|trace| - 1];
      && last.mem == Idle(s, next).(subs := last.mem.subs, nextSubscriber := next + 1)
      && last.mem.subs.Keys == {next + 1} && E.Quiescent(codec, last) && E.Now(codec, last) == c
    ensures E.IsRun(codec, from, longer) && longer[|longer| - 1] == E.State(Idle(s, next + 1), c, None)
  {
    var last := trace[|trace| - 1];
    longer := RunOn(codec, from, trace, E.State(last.mem, c, None));
    assert last.mem.subs - {next + 1} == map[];
    assert M.Leave(last.mem, Idle(s, next + 1), next + 1);
    assert E.ServerStep(E.State(last.mem, c, None), E.State(Idle(s, next + 1), c, None));
    longer := RunOn(codec, from, longer, E.State(Idle(s, next + 1), c, None));
  }

  lemma {:induction false} EmitAllAt(c: Client, rs: seq<Record>)
    ensures rs != [] ==> EmitAll(c, rs).resume == rs[|rs| - 1].recordedAt
    ensures forall r :: r in EmitAll(c, rs).yielded ==> r in c.yielded || r in rs
    decreases |rs|
  {
    if rs == [] {
    } else {
      EmitAllAt(c, rs[..|rs| - 1]);
    }
  }

  /** How many submissions it takes for the `k`-th entry to be stored, which is current then. */
  lemma {:induction false} StoredAt(s: seq<Submission>, k: nat) returns (m: nat)
    requires HavePaths(s) && k < |HistoryEach(s)|
    ensures m <= |s| && HavePaths(s[..m]) && |HistoryEach(s[..m])| == k + 1
    ensures HistoryEach(s[..m]) <= HistoryEach(s)
    ensures HistoryEach(s[..m])[k] in MemoryEach(s[..m]).records.Values
    decreases |s|
  {
    var n := |s| - 1;
    var before, x := s[..n], s[n];
    assert s == before + [x] && HasPath(x.r) && HavePaths(before);
    if k < |HistoryEach(before)| {
      m := StoredAt(before, k);
      assert before[..m] == s[..m];
    } else {
      m := |s|;
      assert s[..m] == s;
      assert MemoryEach(s).records[Revoked(x.r)] == HistoryEach(s)[k];
    }
  }

  /** Record times are not before time zero, and a cause superseded is not submitted again. */
  ghost predicate Submittable(s: seq<Submission>) {
    Steady(s) && forall i :: 0 <= i < |s| ==> s[i].at >= ZERO_TIME
  }

  lemma {:induction false} PassesBy(s: seq<Submission>, k: nat, e: Entry, first: seq<Entry>)
    requires HavePaths(s) && k < |HistoryEach(s)| && HistoryEach(s)[k] in MemoryEach(s).records.Values
    requires HistoryEach(s)[k].record.recordedAt > e.record.recordedAt
    requires IsSnapshot(first, MemoryEach(s), 0, e.record.recordedAt)
    ensures EmitAll(Client(e.record.recordedAt, {}, []), E.Records(first)).resume > e.record.recordedAt
  {
    M.EachHistoryInv(s);
    var x := HistoryEach(s)[k];
    assert x in first;
    var j :| 0 <= j < |first| && first[j] == x;
    assert j < |first| - 1 ==> Precedes(x, first[|first| - 1]);
    EmitAllAt(Client(e.record.recordedAt, {}, []), E.Records(first));
  }

  /** An entry has one record, which none stored before it has. */
  lemma {:induction false} NotStoredBefore(s: seq<Submission>, m: nat, e: Entry, entries: seq<Entry>, from: int)
    requires Steady(s) && m <= |s| && HavePaths(s[..m]) && HistoryEach(s[..m]) <= HistoryEach(s)
    requires M.InHistory(HistoryEach(s), e) && |HistoryEach(s[..m])| < e.number
    requires IsSnapshot(entries, MemoryEach(s[..m]), 0, from)
    ensures e.record !in E.Records(entries)
  {
    StoredOnceIff(s);
    M.EachHistoryInv(s[..m]);
    forall j | 0 <= j < |entries|
      ensures entries[j].record != e.record
    {
      assert entries[j] in entries && M.InHistory(HistoryEach(s[..m]), entries[j]);
      var history, i := HistoryEach(s), entries[j].number - 1;
      assert history[i] == entries[j] && history[e.number - 1] == e && i < e.number - 1;
    }
  }

  lemma {:induction false} NotAskedFor(log: Log, from: int, e: Entry, entries: seq<Entry>)
    requires IsSnapshot(entries, log, 0, from) && ZERO_TIME <= e.record.recordedAt < from
    ensures e.record !in E.Records(entries)
  {
    forall j | 0 <= j < |entries|
      ensures entries[j].record != e.record
    {
      assert entries[j] in entries;
    }
  }

  ghost predicate MissesNothing(codec: E.Codec, from: int, s: E.State) {
    E.Quiescent(codec, s) ==>
      forall e :: e in s.mem.log.records.Values && e.record.recordedAt >= from ==>
        e.record in E.Now(codec, s).yielded
  }

  /** A run of the whole system in which these were submitted. */
  ghost predicate Delivers(codec: E.Codec, from: int, trace: seq<E.State>, s: seq<Submission>) {
    E.IsRun(codec, from, trace) && trace[|trace| - 1].mem.submitted == s
  }

  ghost predicate NeverMisses(codec: E.Codec, s: seq<Submission>) {
    forall from: int, trace: seq<E.State> :: Delivers(codec, from, trace, s) ==>
      MissesNothing(codec, from, trace[|trace| - 1])
  }

  /** No current entry was stored after one with a later time. */
  ghost predicate CurrentInTurn(s: seq<Submission>)
    requires HavePaths(s)
  {
    forall e :: e in MemoryEach(s).records.Values ==> InTurn(HistoryEach(s), e)
  }

  /** A client connects once these are stored, is given what it asked for, and loses its connection. */
  lemma {:induction false} GivenAndCut(codec: E.Codec, from: int, s: seq<Submission>)
    returns (trace: seq<E.State>, first: seq<Entry>)
    requires HavePaths(s) && E.Carries(codec, HistoryEach(s))
    ensures E.IsRun(codec, from, trace) && IsSnapshot(first, MemoryEach(s), 0, from)
    ensures trace[|trace| - 1] == E.State(Idle(s, 1), EmitAll(Client(from, {}, []), E.Records(first)), None)
  {
    var c := Client(from, {}, []);
    trace := [E.State(Idle([], 0), c, None)];
    assert s[..0] == [];
    trace := Submit(codec, from, trace, s, 0, 0, c);
    trace, first := ConnectAndRead(codec, from, trace, s, 0, c);
    trace := CutAndLeave(codec, from, trace, s, 0, EmitAll(c, E.Records(first)));
  }

  /** The submissions up to a later entry stored before `e`. */
  lemma {:induction false} LaterBefore(s: seq<Submission>, e: Entry) returns (m: nat, k: nat)
    requires HavePaths(s) && e in MemoryEach(s).records.Values && !InTurn(HistoryEach(s), e)
    ensures M.InHistory(HistoryEach(s), e) && Later(s, e, m, k)
  {
    M.EachHistoryInv(s);
    k :| k < e.number - 1 && HistoryEach(s)[k].record.recordedAt > e.record.recordedAt;
    m := StoredAt(s, k);
  }

  /** The first `m` submissions end in storing the `k`-th entry, before `e` and with a later time. */
  ghost predicate Later(s: seq<Submission>, e: Entry, m: nat, k: nat)
    requires HavePaths(s)
  {
    && m <= |s| && HavePaths(s[..m]) && HistoryEach(s[..m]) <= HistoryEach(s)
    && |HistoryEach(s[..m])| == k + 1 < e.number
    && HistoryEach(s[..m])[k] in MemoryEach(s[..m]).records.Values
    && HistoryEach(s[..m])[k].record.recordedAt > e.record.recordedAt
  }

  /**
   * A client that asks from the time of `e` is given the later record stored
   * before it, loses its connection, and reconnects at that record's time once
   * `e` is stored.
   */
  lemma {:induction false} PassedIsMissed(codec: E.Codec, s: seq<Submission>, e: Entry) returns (trace: seq<E.State>)
    requires Submittable(s) && E.Carries(codec, HistoryEach(s))
    requires e in MemoryEach(s).records.Values && !InTurn(HistoryEach(s), e)
    ensures Delivers(codec, e.record.recordedAt, trace, s)
    ensures !MissesNothing(codec, e.record.recordedAt, trace[|trace| - 1])
  {
    var from := e.record.recordedAt;
    var m, k := LaterBefore(s, e);
    CarriedBefore(codec, s, m);
    var first, second;
    trace, first := GivenAndCut(codec, from, s[..m]);
    var c := EmitAll(Client(from, {}, []), E.Records(first));
    trace := Submit(codec, from, trace, s, m, 1, c);
    trace, second := ConnectAndRead(codec, from, trace, s, 1, c);
    NeverGiven(s, m, k, e, first, c, second);
  }

  lemma {:induction false} CarriedBefore(codec: E.Codec, s: seq<Submission>, m: nat)
    requires HavePaths(s) && m <= |s| && HavePaths(s[..m]) && HistoryEach(s[..m]) <= HistoryEach(s)
    requires E.Carries(codec, HistoryEach(s))
    ensures E.Carries(codec, HistoryEach(s[..m]))
  {
    assert forall x :: x in HistoryEach(s[..m]) ==> x in HistoryEach(s);
  }

  lemma {:induction false} NeverGiven(
      s: seq<Submission>, m: nat, k: nat, e: Entry, first: seq<Entry>, c: Client, second: seq<Entry>)
    requires Submittable(s) && M.InHistory(HistoryEach(s), e) && Later(s, e, m, k)
    requires IsSnapshot(first, MemoryEach(s[..m]), 0, e.record.recordedAt)
    requires c == EmitAll(Client(e.record.recordedAt, {}, []), E.Records(first))
    requires IsSnapshot(second, MemoryEach(s), 0, c.resume)
    ensures e.record !in EmitAll(c, E.Records(second)).yielded
  {
    NotBeforeZero(s, e);
    PassesBy(s[..m], k, e, first);
    NotStoredBefore(s, m, e, first, e.record.recordedAt);
    NotAskedFor(MemoryEach(s), c.resume, e, second);
    NotInEither(Client(e.record.recordedAt, {}, []), E.Records(first), E.Records(second), e.record);
  }

  lemma {:induction false} NotBeforeZero(s: seq<Submission>, e: Entry)
    requires Submittable(s) && M.InHistory(HistoryEach(s), e)
    ensures e.record.recordedAt >= ZERO_TIME
  {
    var i := EntryFrom(s, e.number - 1);
  }

  lemma {:induction false} NotInEither(c: Client, first: seq<Record>, second: seq<Record>, r: Record)
    requires c.yielded == [] && r !in first && r !in second
    ensures r !in EmitAll(EmitAll(c, first), second).yielded
  {
    EmitAllAt(c, first);
    EmitAllAt(EmitAll(c, first), second);
  }

  /**
   * The exact condition: given what the writers submit, no client ever misses a
   * current record, in any run, if and only if no current entry was stored after
   * an entry with a later time.
   */
  lemma {:induction false} NeverMissesIff(codec: E.Codec, s: seq<Submission>)
    requires Submittable(s) && E.Carries(codec, HistoryEach(s))
    ensures NeverMisses(codec, s) <==> CurrentInTurn(s)
  {
    if CurrentInTurn(s) {
      forall from: int, trace: seq<E.State> | Delivers(codec, from, trace, s)
        ensures MissesNothing(codec, from, trace[|trace| - 1])
      {
        NothingMissed(codec, from, trace, s);
      }
    } else {
      var e :| e in MemoryEach(s).records.Values && !InTurn(HistoryEach(s), e);
      var trace := PassedIsMissed(codec, s, e);
    }
  }

  lemma {:induction false} NothingMissed(codec: E.Codec, from: int, trace: seq<E.State>, s: seq<Submission>)
    requires Submittable(s) && E.Carries(codec, HistoryEach(s)) && CurrentInTurn(s)
    requires Delivers(codec, from, trace, s)
    ensures MissesNothing(codec, from, trace[|trace| - 1])
  {
    var last := trace[|trace| - 1];
    RunKeeps(codec, from, trace, |trace| - 1);
    E.RunRecords(codec, from, trace, |trace| - 1);
    StoredOnceIff(s);
    if E.Quiescent(codec, last) {
      forall e | e in last.mem.log.records.Values && e.record.recordedAt >= from
        ensures e.record in E.Now(codec, last).yielded
      {
        StandingYielded(codec, from, last, e);
      }
    }
  }

  /** Times read in lock order are enough. */
  lemma {:induction false} InTimeIsInTurn(s: seq<Submission>)
    requires HavePaths(s) && InTime(s)
    ensures CurrentInTurn(s)
  {
    M.EachHistoryInv(s);
    forall e, i | e in MemoryEach(s).records.Values && 0 <= i < e.number - 1
      ensures HistoryEach(s)[i].record.recordedAt <= e.record.recordedAt
    {
      HistoryInTime(s, i, e.number - 1);
    }
  }
}
