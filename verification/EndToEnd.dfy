// From a stored revocation to the consumer of a client's stream: the in-memory
// store feeds the event stream printer, connections are cut at arbitrary bytes,
// and the scanner and the client's reconnect loop read what arrives.

module EndToEnd {
  import opened Types
  import opened MemoryStore
  import opened ClientStream
  import opened Submissions
  import M = MemoryStream
  import R = ClientResume
  import Sse
  import SsePrinter

  // ------------------------------------------------------------------ wire

  /** How records and ids are written as text, and data is read back. */
  datatype Codec = Codec(encode: Record -> string, decode: Decoder, idText: Cid -> string)

  function Message(codec: Codec, e: Entry): SsePrinter.Message {
    SsePrinter.Revocation(codec.idText(e.record.cause), codec.encode(e.record))
  }

  function Messages(codec: Codec, sent: seq<Entry>): (ms: seq<SsePrinter.Message>)
    ensures |ms| == |sent|
    ensures forall i :: 0 <= i < |sent| ==> ms[i] == Message(codec, sent[i])
  {
    seq(|sent|, i requires 0 <= i < |sent| => Message(codec, sent[i]))
  }

  function Body(codec: Codec, sent: seq<Entry>): string {
    SsePrinter.PrintAll(Messages(codec, sent))
  }

  function Records(entries: seq<Entry>): (rs: seq<Record>)
    ensures |rs| == |entries|
    ensures forall i :: 0 <= i < |entries| ==> rs[i] == entries[i].record
  {
    seq(|entries|, i requires 0 <= i < |entries| => entries[i].record)
  }

  /** Every stored record is printable on one line within the bounds, and is read back as it was. */
  ghost predicate Carries(codec: Codec, history: seq<Entry>) {
    forall e :: e in history ==>
      SsePrinter.Printable(Message(codec, e)) && Decodes(codec, e.record)
  }

  // ---------------------------------------------------------------- system

  /** A connection: the subscriber that serves it, what that has written, and how many bytes have arrived. */
  datatype Pipe = Pipe(sub: nat, sent: seq<Entry>, got: nat)

  /** `client` is the client as it was when the connection, if there is one, was opened. */
  datatype State = State(mem: M.State, client: Client, conn: Option<Pipe>)

  /** What the client has made of the bytes that have arrived; its consumer never stops. */
  function Reading(codec: Codec, s: State): ClientStream.Conn
    requires s.conn.Some? && s.conn.value.got <= |Body(codec, s.conn.value.sent)|
  {
    var Pipe(_, sent, got) := s.conn.value;
    Read(s.client, |sent| + 1, Sse.ScanAll(Body(codec, sent)[..got]), codec.decode)
  }

  function Now(codec: Codec, s: State): Client
    requires s.conn.Some? ==> s.conn.value.got <= |Body(codec, s.conn.value.sent)|
  {
    if s.conn.Some? then Reading(codec, s).client else s.client
  }

  ghost predicate Init(from: int, s: State) {
    M.Init(s.mem) && s.client == Client(from, {}, []) && s.conn == None
  }

  /** Any step of the store, its writers and its subscribers; what the connection's one yields is written to it. */
  ghost predicate ServerStep(s: State, s': State) {
    && M.Next(s.mem, s'.mem)
    && s'.client == s.client
    && match s.conn
       case None => s'.conn == None
       case Some(Pipe(sub, sent, got)) =>
         s'.conn == Some(Pipe(sub, if sub in s'.mem.subs then s'.mem.subs[sub].yielded else sent, got))
  }

  /** The client connects at its resume time, which subscribes it to the store. */
  ghost predicate Connect(s: State, s': State, entries: seq<Entry>) {
    && s.conn == None && s'.client == s.client
    && M.Subscribe(s.mem, s'.mem, s.client.resume, entries)
    && s'.conn == Some(Pipe(s'.mem.nextSubscriber, [], 0))
  }

  ghost predicate Arrive(codec: Codec, s: State, s': State, got: nat) {
    && s.conn.Some? && s.conn.value.got <= got <= |Body(codec, s.conn.value.sent)|
    && s' == s.(conn := Some(s.conn.value.(got := got)))
  }

  /** The connection drops: the client keeps what it made of the bytes that had arrived. */
  ghost predicate Cut(codec: Codec, s: State, s': State) {
    && s.conn.Some? && s.conn.value.got <= |Body(codec, s.conn.value.sent)|
    && s' == State(s.mem, Now(codec, s), None)
  }

  ghost predicate Next(codec: Codec, s: State, s': State) {
    || ServerStep(s, s')
    || (exists entries :: Connect(s, s', entries))
    || (exists got :: Arrive(codec, s, s', got))
    || Cut(codec, s, s')
  }

  ghost predicate IsRun(codec: Codec, from: int, trace: seq<State>) {
    && |trace| > 0 && Init(from, trace[0])
    && (forall i :: 0 <= i < |trace| - 1 ==> Next(codec, trace[i], trace[i + 1]))
  }

  // ------------------------------------------------- reading what arrived

  lemma {:induction false} EmitFirst(c: Client, r: Record, rs: seq<Record>)
    ensures EmitAll(c, [r] + rs) == EmitAll(Emit(c, r), rs)
    decreases |rs|
  {
    var all := [r] + rs;
    if rs == [] {
      assert all == [r] && all[..0] == [];
      assert EmitAll(c, all[..0]) == c;
    } else {
      EmitFirst(c, r, rs[..|rs| - 1]);
      assert all[..|all| - 1] == [r] + rs[..|rs| - 1];
    }
  }

  predicate Decodes(codec: Codec, r: Record) {
    codec.decode(codec.encode(r)) == Some(r)
  }

  /** The events a scanner reports for the entries sent. */
  function Scanned(codec: Codec, sent: seq<Entry>): Sse.Scanned {
    Sse.Scanned(SsePrinter.EventsOf(Messages(codec, sent)), false)
  }

  lemma FirstScanned(codec: Codec, sent: seq<Entry>)
    requires sent != []
    ensures
      var scanned := Scanned(codec, sent);
      && scanned.events != []
      && scanned.events[0] == Sse.Event("revocation", codec.encode(sent[0].record))
      && Sse.Scanned(scanned.events[1..], false) == Scanned(codec, sent[1..])
  {
    assert Scanned(codec, sent).events[1..] == Scanned(codec, sent[1..]).events;
  }

  /** What the client makes of the entries sent. */
  function ReadSent(codec: Codec, c: Client, patience: nat, sent: seq<Entry>): ClientStream.Conn
    requires patience > 0
  {
    Read(c, patience, Scanned(codec, sent), codec.decode)
  }

  lemma {:induction false} ReadStep(codec: Codec, c: Client, patience: nat, sent: seq<Entry>)
    requires patience > 1 && sent != [] && Decodes(codec, sent[0].record)
    ensures ReadSent(codec, c, patience, sent)
         == ReadSent(codec, Emit(c, sent[0].record), patience - (if Skips(c, sent[0].record) then 0 else 1), sent[1..])
  {
    FirstScanned(codec, sent);
  }

  lemma EmitAllFirst(c: Client, sent: seq<Entry>)
    requires sent != []
    ensures EmitAll(c, Records(sent)) == EmitAll(Emit(c, sent[0].record), Records(sent[1..]))
  {
    assert Records(sent) == [sent[0].record] + Records(sent[1..]);
    EmitFirst(c, sent[0].record, Records(sent[1..]));
  }

  /** Everything sent is emitted, and the scan ends without an error. */
  ghost predicate ReadsAll(codec: Codec, c: Client, patience: nat, sent: seq<Entry>)
    requires patience > 0
  {
    && ReadSent(codec, c, patience, sent).client == EmitAll(c, Records(sent))
    && ReadSent(codec, c, patience, sent).ending == Ended
  }

  lemma {:induction false} ReadsOneMore(codec: Codec, c: Client, patience: nat, sent: seq<Entry>)
    returns (next: Client, left: nat)
    requires patience > |sent| > 0 && Decodes(codec, sent[0].record)
    ensures left > |sent| - 1
    ensures ReadsAll(codec, next, left, sent[1..]) ==> ReadsAll(codec, c, patience, sent)
  {
    next := Emit(c, sent[0].record);
    left := patience - (if Skips(c, sent[0].record) then 0 else 1);
    ReadStep(codec, c, patience, sent);
    EmitAllFirst(c, sent);
  }

  lemma {:induction false} ReadRecords(codec: Codec, c: Client, sent: seq<Entry>, patience: nat)
    requires patience > |sent| && forall i :: 0 <= i < |sent| ==> Decodes(codec, sent[i].record)
    ensures ReadsAll(codec, c, patience, sent)
    decreases |sent|
  {
    if sent == [] {
      assert Records(sent) == [];
    } else {
      var next, left := ReadsOneMore(codec, c, patience, sent);
      ReadRecords(codec, next, sent[1..], left);
    }
  }

  /** How many of the entries sent have arrived whole. */
  function Arrived(codec: Codec, s: State): (k: nat)
    requires s.conn.Some?
    ensures k <= |s.conn.value.sent|
  {
    SsePrinter.Whole(Messages(codec, s.conn.value.sent), s.conn.value.got)
  }

  /** The client has emitted exactly the entries that arrived whole, and its connection is not corrupt. */
  lemma ReadingEmits(codec: Codec, s: State)
    requires s.conn.Some? && s.conn.value.got <= |Body(codec, s.conn.value.sent)|
    requires Carries(codec, s.conn.value.sent)
    ensures Reading(codec, s).client == EmitAll(s.client, Records(s.conn.value.sent[..Arrived(codec, s)]))
    ensures Reading(codec, s).ending == Ended
  {
    var Pipe(_, sent, got) := s.conn.value;
    var k := Arrived(codec, s);
    ScanBody(codec, sent, got);
    forall i | 0 <= i < k
      ensures Decodes(codec, sent[i].record)
    {
      assert sent[i] in sent;
    }
    ReadRecords(codec, s.client, sent[..k], |sent| + 1);
  }

  lemma ScanBody(codec: Codec, sent: seq<Entry>, got: nat)
    requires Carries(codec, sent) && got <= |Body(codec, sent)|
    ensures
      var k := SsePrinter.Whole(Messages(codec, sent), got);
      Sse.ScanAll(Body(codec, sent)[..got]) == Scanned(codec, sent[..k])
  {
    var ms := Messages(codec, sent);
    var k := SsePrinter.Whole(ms, got);
    forall m | m in ms
      ensures SsePrinter.Printable(m)
    {
      var i :| 0 <= i < |ms| && ms[i] == m;
      assert sent[i] in sent;
    }
    SsePrinter.ScanPrinted(ms, got);
    assert ms[..k] == Messages(codec, sent[..k]);
  }

  // ------------------------------------------------------------- invariant

  /**
   * What is asked of the writers: record times are read in lock order and are
   * not before time zero, and no superseded cause is submitted again.
   */
  ghost predicate Orderly(submitted: seq<Submission>) {
    && Steady(submitted) && InTime(submitted)
    && (forall i :: 0 <= i < |submitted| ==> submitted[i].at >= ZERO_TIME)
  }

  /** What that makes of the entries stored. */
  ghost predicate OrderlyHistory(history: seq<Entry>) {
    && M.TimesFollowLock(history)
    && OneEntryPerCause(history)
    && (forall e :: e in history ==> e.record.recordedAt >= ZERO_TIME)
  }

  lemma {:induction false} WritersMakeOrder(mem: M.State)
    requires M.Recorded(mem) && Orderly(mem.submitted)
    ensures OrderlyHistory(mem.history)
  {
    StoredOnceIff(mem.submitted);
    M.TimesInHistory(mem);
    forall e | e in mem.history
      ensures e.record.recordedAt >= ZERO_TIME
    {
      var k :| 0 <= k < |mem.history| && mem.history[k] == e;
      var i := EntryFrom(mem.submitted, k);
    }
  }

  ghost predicate Stored(history: seq<Entry>, r: Record) {
    exists e :: e in history && e.record == r
  }

  ghost predicate ClientInv(from: int, mem: M.State, c: Client) {
    && from <= c.resume && (c.yielded == [] ==> c.resume == from)
    && DistinctCauses(c.yielded)
    && (forall i, j :: 0 <= i < j < |c.yielded| ==> c.yielded[i].recordedAt <= c.yielded[j].recordedAt)
    && (c.yielded != [] ==> c.yielded[|c.yielded| - 1].recordedAt == c.resume)
    && (forall r :: r in c.yielded ==> Stored(mem.history, r) && from <= r.recordedAt <= c.resume)
    && (forall x :: x in c.seen <==> exists r :: r in c.yielded && r.cause == x && r.recordedAt == c.resume)
    && (forall e :: e in mem.log.records.Values && from <= e.record.recordedAt < c.resume ==> e.record in c.yielded)
  }

  /** What was sent on a connection: stored, matching, in order, and without gaps among the current entries. */
  ghost predicate SentInv(mem: M.State, cursor: int, sent: seq<Entry>) {
    && M.Numbered(sent)
    && (forall e :: e in sent ==> M.InHistory(mem.history, e) && Matches(cursor, e))
    && (forall e, x :: e in mem.log.records.Values && Matches(cursor, e) && x in sent && e.number <= x.number ==>
          e in sent)
  }

  ghost predicate PipeInv(codec: Codec, s: State) {
    s.conn.Some? ==>
      var Pipe(sub, sent, got) := s.conn.value;
      && sub <= s.mem.nextSubscriber && got <= |Body(codec, sent)|
      && (sub in s.mem.subs ==> s.mem.subs[sub].from == s.client.resume && s.mem.subs[sub].yielded == sent)
      && SentInv(s.mem, s.client.resume, sent)
  }

  ghost predicate Inv(codec: Codec, from: int, s: State) {
    && M.Inv(s.mem)
    && (OrderlyHistory(s.mem.history) && Carries(codec, s.mem.history) ==>
          ClientInv(from, s.mem, s.client) && PipeInv(codec, s))
  }

  lemma TimesInOrder(history: seq<Entry>, a: Entry, b: Entry)
    requires M.TimesFollowLock(history) && M.InHistory(history, a) && M.InHistory(history, b)
    ensures a.number <= b.number ==> a.record.recordedAt <= b.record.recordedAt
  {
    var i, j := a.number - 1, b.number - 1;
    assert history[i] == a && history[j] == b;
  }

  lemma CauseNamesEntry(history: seq<Entry>, a: Entry, b: Entry)
    requires OneEntryPerCause(history) && M.InHistory(history, a) && M.InHistory(history, b)
    ensures a.record.cause == b.record.cause ==> a == b
  {
    var i, j := a.number - 1, b.number - 1;
    assert history[i] == a && history[j] == b;
    if i < j {
    } else if j < i {
    }
  }

  lemma StoredOnce(mem: M.State, r: Record, e: Entry)
    requires M.HistoryInv(mem.log, mem.history) && OrderlyHistory(mem.history)
    requires Stored(mem.history, r) && M.InHistory(mem.history, e) && r.cause == e.record.cause
    ensures r == e.record
  {
    var q :| q in mem.history && q.record == r;
    assert M.InHistory(mem.history, q);
    CauseNamesEntry(mem.history, q, e);
  }

  /** An entry at or past the resume point is skipped exactly when its record, or its cause, was yielded. */
  lemma SkipsIffYielded(from: int, mem: M.State, c: Client, e: Entry)
    requires M.HistoryInv(mem.log, mem.history) && OrderlyHistory(mem.history) && ClientInv(from, mem, c)
    requires M.InHistory(mem.history, e) && e.record.recordedAt >= c.resume
    ensures Skips(c, e.record) <==> e.record in c.yielded
    ensures Skips(c, e.record) <==> exists r :: r in c.yielded && r.cause == e.record.cause
  {
    forall r | r in c.yielded && r.cause == e.record.cause
      ensures r == e.record
    {
      StoredOnce(mem, r, e);
    }
  }

  /** Emitting the next entry sent keeps the client's invariant. */
  lemma {:induction false} EmitKeeps(from: int, mem: M.State, c: Client, e: Entry)
    requires M.HistoryInv(mem.log, mem.history) && OrderlyHistory(mem.history) && ClientInv(from, mem, c)
    requires M.InHistory(mem.history, e) && e.record.recordedAt >= c.resume
    requires forall x :: x in mem.log.records.Values && c.resume <= x.record.recordedAt < e.record.recordedAt ==>
      x.record in c.yielded
    ensures ClientInv(from, mem, Emit(c, e.record))
  {
    SkipsIffYielded(from, mem, c, e);
    var r := e.record;
    if !Skips(c, r) {
      assert Stored(mem.history, r);
      R.EmitKeepsSeen(c, r);
      assert R.SeenInv(Emit(c, r));
    }
  }

  ghost predicate Emitted(c: Client, sent: seq<Entry>, k: nat, c': Client)
    requires k <= |sent|
  {
    && c'.resume == (if k == 0 then c.resume else sent[k - 1].record.recordedAt)
    && c.yielded <= c'.yielded
    && (forall i :: 0 <= i < k ==> sent[i].record in c'.yielded)
  }

  lemma SentTimes(mem: M.State, cursor: int, sent: seq<Entry>, k: nat)
    requires M.HistoryInv(mem.log, mem.history) && OrderlyHistory(mem.history)
    requires SentInv(mem, cursor, sent) && k < |sent|
    ensures M.InHistory(mem.history, sent[k]) && sent[k].record.recordedAt >= cursor
    ensures k > 0 ==> sent[k - 1].record.recordedAt <= sent[k].record.recordedAt
  {
    assert sent[k] in sent && M.InHistory(mem.history, sent[k]) && sent[k] in mem.history;
    if k > 0 {
      assert sent[k - 1] in sent && M.InHistory(mem.history, sent[k - 1]);
      TimesInOrder(mem.history, sent[k - 1], sent[k]);
    }
  }

  /** A current entry that matches and is earlier than one sent was sent before it. */
  lemma EarlierWasSent(mem: M.State, cursor: int, sent: seq<Entry>, k: nat, x: Entry)
    requires M.HistoryInv(mem.log, mem.history) && M.TimesFollowLock(mem.history)
    requires SentInv(mem, cursor, sent) && k < |sent|
    requires x in mem.log.records.Values && cursor <= x.record.recordedAt < sent[k].record.recordedAt
    ensures exists i :: 0 <= i < k && sent[i] == x
  {
    assert sent[k] in sent && M.InHistory(mem.history, x);
    TimesInOrder(mem.history, sent[k], x);
    assert x in sent;
    var i :| 0 <= i < |sent| && sent[i] == x;
  }

  /** Emitting the next entry sent, after the ones before it. */
  lemma EmitNextKeeps(from: int, mem: M.State, c: Client, sent: seq<Entry>, k: nat, c1: Client)
    requires M.HistoryInv(mem.log, mem.history) && OrderlyHistory(mem.history)
    requires SentInv(mem, c.resume, sent) && k < |sent|
    requires ClientInv(from, mem, c1) && Emitted(c, sent, k, c1)
    ensures ClientInv(from, mem, Emit(c1, sent[k].record))
    ensures Skips(c1, sent[k].record) <==> sent[k].record in c1.yielded
    ensures sent[k].record.recordedAt >= c1.resume >= c.resume
  {
    SentTimes(mem, c.resume, sent, k);
    if k > 0 {
      SentTimes(mem, c.resume, sent, k - 1);
    }
    forall x | x in mem.log.records.Values && c1.resume <= x.record.recordedAt < sent[k].record.recordedAt
      ensures x.record in c1.yielded
    {
      EarlierWasSent(mem, c.resume, sent, k, x);
    }
    SkipsIffYielded(from, mem, c1, sent[k]);
    EmitKeeps(from, mem, c1, sent[k]);
  }

  lemma EmitNext(c: Client, sent: seq<Entry>, k: nat, c1: Client)
    requires k < |sent| && Emitted(c, sent, k, c1)
    requires Skips(c1, sent[k].record) <==> sent[k].record in c1.yielded
    ensures Emitted(c, sent, k + 1, Emit(c1, sent[k].record))
  {
  }

  /** The client after the first `k` of the entries sent. */
  function After(c: Client, sent: seq<Entry>, k: nat): Client
    requires k <= |sent|
  {
    EmitAll(c, Records(sent[..k]))
  }

  lemma {:induction false} AfterNext(c: Client, sent: seq<Entry>, k: nat)
    requires k < |sent|
    ensures After(c, sent, k + 1) == Emit(After(c, sent, k), sent[k].record)
  {
    assert Records(sent[..k + 1])[..k] == Records(sent[..k]);
  }

  lemma {:induction false} EmitAllKeeps(from: int, mem: M.State, c: Client, sent: seq<Entry>, k: nat)
    requires M.HistoryInv(mem.log, mem.history) && OrderlyHistory(mem.history)
    requires ClientInv(from, mem, c) && SentInv(mem, c.resume, sent) && k <= |sent|
    ensures ClientInv(from, mem, After(c, sent, k))
    ensures Emitted(c, sent, k, After(c, sent, k))
  {
    if k == 0 {
      assert Records(sent[..0]) == [];
    } else {
      EmitAllKeeps(from, mem, c, sent, k - 1);
      OneMoreKeeps(from, mem, c, sent, k - 1);
    }
  }

  lemma {:induction false} OneMoreKeeps(from: int, mem: M.State, c: Client, sent: seq<Entry>, k: nat)
    requires M.HistoryInv(mem.log, mem.history) && OrderlyHistory(mem.history)
    requires SentInv(mem, c.resume, sent) && k < |sent|
    requires ClientInv(from, mem, After(c, sent, k)) && Emitted(c, sent, k, After(c, sent, k))
    ensures ClientInv(from, mem, After(c, sent, k + 1))
    ensures Emitted(c, sent, k + 1, After(c, sent, k + 1))
  {
    var c1 := After(c, sent, k);
    AfterNext(c, sent, k);
    EmitNextKeeps(from, mem, c, sent, k, c1);
    EmitNext(c, sent, k, c1);
  }

  // ------------------------------------------------------------------ steps

  lemma {:induction false} HistoryGrows(mem: M.State, mem': M.State)
    requires M.Inv(mem) && M.Next(mem, mem')
    ensures mem.history <= mem'.history
    ensures forall e :: e in mem'.log.records.Values && e.number <= |mem.history| ==> e in mem.log.records.Values
  {
    if batch: seq<Revocation>, recordedAt: int :| M.Add(mem, mem', batch, recordedAt) {
      M.AddKeepsHistory(mem.log, mem.history, batch, recordedAt);
    }
  }

  lemma OrderlyBefore(codec: Codec, history: seq<Entry>, history': seq<Entry>)
    requires history <= history' && OrderlyHistory(history') && Carries(codec, history')
    ensures OrderlyHistory(history) && Carries(codec, history)
  {
    assert forall i :: 0 <= i < |history| ==> history[i] == history'[i];
    assert forall e :: e in history ==> e in history';
  }

  lemma {:induction false} StoredGrows(history: seq<Entry>, history': seq<Entry>, r: Record)
    requires history <= history' && Stored(history, r)
    ensures Stored(history', r)
  {
    var e :| e in history && e.record == r;
    assert e in history';
  }

  /** New entries are no earlier than anything stored. */
  lemma {:induction false} StoredIsEarlier(history: seq<Entry>, history': seq<Entry>, r: Record, e: Entry)
    requires M.TimesFollowLock(history') && history <= history' && Stored(history, r)
    requires M.InHistory(history', e) && e.number > |history|
    ensures r.recordedAt <= e.record.recordedAt
  {
    var q :| q in history && q.record == r;
    var k :| 0 <= k < |history| && history[k] == q;
    assert history'[k] == q && history'[e.number - 1] == e;
  }

  lemma {:induction false} ClientInvGrows(from: int, mem: M.State, mem': M.State, c: Client)
    requires M.Inv(mem) && M.Inv(mem') && M.Next(mem, mem') && OrderlyHistory(mem'.history)
    requires ClientInv(from, mem, c)
    ensures ClientInv(from, mem', c)
  {
    HistoryGrows(mem, mem');
    forall r | r in c.yielded
      ensures Stored(mem'.history, r)
    {
      StoredGrows(mem.history, mem'.history, r);
    }
    forall e | e in mem'.log.records.Values && from <= e.record.recordedAt < c.resume
      ensures e.record in c.yielded
    {
      if e.number > |mem.history| {
        var last := c.yielded[|c.yielded| - 1];
        assert last in c.yielded;
        StoredIsEarlier(mem.history, mem'.history, last, e);
      }
    }
  }

  lemma SentInvGrows(mem: M.State, mem': M.State, cursor: int, sent: seq<Entry>)
    requires M.Inv(mem) && M.Inv(mem') && M.Next(mem, mem') && SentInv(mem, cursor, sent)
    ensures SentInv(mem', cursor, sent)
  {
    HistoryGrows(mem, mem');
    forall e, x | e in mem'.log.records.Values && Matches(cursor, e) && x in sent && e.number <= x.number
      ensures e in sent
    {
      assert M.InHistory(mem.history, x);
    }
  }

  /** What a subscriber has yielded is what a connection may have been sent. */
  lemma YieldedIsSent(mem: M.State, id: nat)
    requires M.Inv(mem) && id in mem.subs && OrderlyHistory(mem.history)
    ensures SentInv(mem, mem.subs[id].from, mem.subs[id].yielded)
  {
    var sub := mem.subs[id];
    var sent, taken := sub.yielded, M.Taken(sub);
    assert forall i :: 0 <= i < |sent| ==> sent[i] == taken[i];
    assert M.SubInv(mem.log, mem.history, sub);
    forall e | e in sent
      ensures M.InHistory(mem.history, e) && Matches(sub.from, e)
    {
      assert e in taken;
    }
    forall e, x | e in mem.log.records.Values && Matches(sub.from, e) && x in sent && e.number <= x.number
      ensures e in sent
    {
      var i :| 0 <= i < |sent| && sent[i] == x;
      assert taken[i] == x && x in taken;
      var j :| 0 <= j < |taken| && taken[j] == e;
      assert j <= i;
      assert sent[j] == e;
    }
  }

  /** A step leaves a subscriber asking from where it did, and only adds to what it yielded. */
  lemma {:induction false} SubPersists(mem: M.State, mem': M.State, id: nat)
    requires M.Next(mem, mem') && id <= mem.nextSubscriber && id in mem'.subs
    ensures id in mem.subs && mem'.subs[id].from == mem.subs[id].from
    ensures mem.subs[id].yielded <= mem'.subs[id].yielded
    ensures mem.nextSubscriber <= mem'.nextSubscriber
  {
  }

  lemma BodyGrows(codec: Codec, sent: seq<Entry>, more: seq<Entry>)
    requires sent <= more
    ensures |Body(codec, sent)| <= |Body(codec, more)|
  {
    var rest := more[|sent|..];
    assert Messages(codec, more) == Messages(codec, sent) + Messages(codec, rest);
    SsePrinter.PrintAppend(Messages(codec, sent), Messages(codec, rest));
  }

  lemma {:induction false} ServerStepKeeps(codec: Codec, from: int, s: State, s': State)
    requires Inv(codec, from, s) && ServerStep(s, s')
    ensures Inv(codec, from, s')
  {
    M.NextKeeps(s.mem, s'.mem);
    if OrderlyHistory(s'.mem.history) && Carries(codec, s'.mem.history) {
      HistoryGrows(s.mem, s'.mem);
      OrderlyBefore(codec, s.mem.history, s'.mem.history);
      ClientInvGrows(from, s.mem, s'.mem, s.client);
      if s.conn.Some? {
        PipeKeeps(codec, from, s, s');
      }
    }
  }

  lemma {:induction false} PipeKeeps(codec: Codec, from: int, s: State, s': State)
    requires M.Inv(s.mem) && M.Inv(s'.mem) && PipeInv(codec, s) && s.conn.Some? && ServerStep(s, s')
    requires OrderlyHistory(s'.mem.history)
    ensures PipeInv(codec, s')
  {
    var Pipe(sub, sent, got) := s.conn.value;
    if sub in s'.mem.subs {
      SubPersists(s.mem, s'.mem, sub);
      YieldedIsSent(s'.mem, sub);
      BodyGrows(codec, sent, s'.mem.subs[sub].yielded);
    } else {
      SentInvGrows(s.mem, s'.mem, s.client.resume, sent);
    }
  }

  lemma {:induction false} ConnectKeeps(codec: Codec, from: int, s: State, s': State, entries: seq<Entry>)
    requires Inv(codec, from, s) && Connect(s, s', entries)
    ensures Inv(codec, from, s')
  {
    assert M.Next(s.mem, s'.mem);
    M.NextKeeps(s.mem, s'.mem);
  }

  lemma {:induction false} CutKeeps(codec: Codec, from: int, s: State, s': State)
    requires Inv(codec, from, s) && Cut(codec, s, s')
    ensures Inv(codec, from, s')
  {
    if OrderlyHistory(s.mem.history) && Carries(codec, s.mem.history) {
      NowInv(codec, from, s);
    }
  }

  /** The client's invariant holds of what it has read so far, connected or not. */
  lemma {:induction false} NowInv(codec: Codec, from: int, s: State)
    requires Inv(codec, from, s) && OrderlyHistory(s.mem.history) && Carries(codec, s.mem.history)
    ensures ClientInv(from, s.mem, Now(codec, s))
    ensures s.conn.Some? ==>
      && Reading(codec, s).ending == Ended
      && Emitted(s.client, s.conn.value.sent, Arrived(codec, s), Now(codec, s))
  {
    if s.conn.Some? {
      var sent := s.conn.value.sent;
      assert Carries(codec, sent) by {
        forall e | e in sent
          ensures e in s.mem.history
        {
          assert M.InHistory(s.mem.history, e);
        }
      }
      ReadingEmits(codec, s);
      EmitAllKeeps(from, s.mem, s.client, sent, Arrived(codec, s));
    }
  }

  lemma {:induction false} NextKeeps(codec: Codec, from: int, s: State, s': State)
    requires Inv(codec, from, s) && Next(codec, s, s')
    ensures Inv(codec, from, s')
  {
    if ServerStep(s, s') {
      ServerStepKeeps(codec, from, s, s');
    } else if entries: seq<Entry> :| Connect(s, s', entries) {
      ConnectKeeps(codec, from, s, s', entries);
    } else if Cut(codec, s, s') {
      CutKeeps(codec, from, s, s');
    }
  }

  lemma {:induction false} RunKeeps(codec: Codec, from: int, trace: seq<State>, i: nat)
    requires IsRun(codec, from, trace) && i < |trace|
    ensures Inv(codec, from, trace[i])
  {
    if i == 0 {
    } else {
      RunKeeps(codec, from, trace, i - 1);
      assert Next(codec, trace[i - 1], trace[i - 1 + 1]);
      NextKeeps(codec, from, trace[i - 1], trace[i]);
    }
  }

  lemma {:induction false} RunRecords(codec: Codec, from: int, trace: seq<State>, i: nat)
    requires IsRun(codec, from, trace) && i < |trace|
    ensures M.Recorded(trace[i].mem)
  {
    if i == 0 {
    } else {
      RunRecords(codec, from, trace, i - 1);
      assert Next(codec, trace[i - 1], trace[i - 1 + 1]);
      StepRecords(codec, trace[i - 1], trace[i]);
    }
  }

  lemma {:induction false} StepRecords(codec: Codec, s: State, s': State)
    requires Next(codec, s, s') && M.Recorded(s.mem)
    ensures M.Recorded(s'.mem)
  {
    if entries: seq<Entry> :| Connect(s, s', entries) {
      assert M.Next(s.mem, s'.mem);
    }
    if M.Next(s.mem, s'.mem) {
      M.NextRecords(s.mem, s'.mem);
    }
  }

  // -------------------------------------------------------------- delivery

  /** The connection's subscriber waits, and every byte written has arrived. */
  ghost predicate Quiescent(codec: Codec, s: State) {
    && s.conn.Some?
    && var Pipe(sub, sent, got) := s.conn.value;
       sub in s.mem.subs && M.Waiting(s.mem.subs[sub]) && got == |Body(codec, sent)|
  }

  /** What a client that asked from `from` has been given. */
  ghost predicate Delivered(codec: Codec, from: int, s: State, yielded: seq<Record>) {
    && DistinctCauses(yielded)
    && (forall r :: r in yielded ==> Stored(s.mem.history, r) && r.recordedAt >= from)
    && (forall i, j :: 0 <= i < j < |yielded| ==> yielded[i].recordedAt <= yielded[j].recordedAt)
    && (Quiescent(codec, s) ==>
          forall e :: e in s.mem.log.records.Values && e.record.recordedAt >= from ==> e.record in yielded)
  }

  /** The bytes that have arrived are of what was sent, and the client is not told that its stream is corrupt. */
  ghost predicate NotCorrupt(codec: Codec, s: State) {
    s.conn.Some? ==>
      s.conn.value.got <= |Body(codec, s.conn.value.sent)| && Reading(codec, s).ending == Ended
  }

  /** A waiting subscriber and its client, once the client has all that was yielded to it, have every current record. */
  lemma {:induction false} QuiescentIsComplete(
      from: int, mem: M.State, client: Client, sub: M.Sub, yielded: seq<Record>)
    requires M.HistoryInv(mem.log, mem.history) && M.SubInv(mem.log, mem.history, sub) && M.Waiting(sub)
    requires ClientInv(from, mem, client) && sub.from == client.resume && client.yielded <= yielded
    requires forall i :: 0 <= i < |sub.yielded| ==> sub.yielded[i].record in yielded
    ensures forall e :: e in mem.log.records.Values && e.record.recordedAt >= from ==> e.record in yielded
  {
    assert M.Taken(sub) == sub.yielded;
    forall e | e in mem.log.records.Values && e.record.recordedAt >= from
      ensures e.record in yielded
    {
      if e.record.recordedAt < client.resume {
        assert e.record in client.yielded;
      } else {
        assert M.InHistory(mem.history, e);
        assert e in sub.yielded;
        var i :| 0 <= i < |sub.yielded| && sub.yielded[i] == e;
      }
    }
  }

  lemma {:induction false} AllDelivered(codec: Codec, from: int, s: State)
    requires Inv(codec, from, s) && OrderlyHistory(s.mem.history) && Carries(codec, s.mem.history)
    requires Quiescent(codec, s)
    ensures forall e :: e in s.mem.log.records.Values && e.record.recordedAt >= from ==>
      e.record in Now(codec, s).yielded
  {
    var Pipe(id, sent, _) := s.conn.value;
    NowInv(codec, from, s);
    SsePrinter.AllWhole(Messages(codec, sent));
    assert Arrived(codec, s) == |sent|;
    QuiescentIsComplete(from, s.mem, s.client, s.mem.subs[id], Now(codec, s).yielded);
  }

  /**
   * Delivery: whatever the writers, the other subscribers and the network do,
   * the client never yields a cause twice, yields only records that were stored
   * at or after `from`, in record time order, and is never told its stream is
   * corrupt. At quiescence it has yielded every current record recorded at or
   * after `from`.
   */
  lemma {:induction false} Delivery(codec: Codec, from: int, trace: seq<State>, s: State)
    requires IsRun(codec, from, trace) && s == trace[|trace| - 1]
    requires Orderly(s.mem.submitted) && Carries(codec, s.mem.history)
    ensures NotCorrupt(codec, s) && Delivered(codec, from, s, Now(codec, s).yielded)
  {
    RunKeeps(codec, from, trace, |trace| - 1);
    RunRecords(codec, from, trace, |trace| - 1);
    WritersMakeOrder(s.mem);
    NowInv(codec, from, s);
    if Quiescent(codec, s) {
      AllDelivered(codec, from, s);
    }
  }
}
