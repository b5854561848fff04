// The client of the end-to-end systems is a call of Stream: what it has made of
// its connections is what the call makes of the bodies that arrived.

module CallDelivery {
  import opened Types
  import opened ClientStream
  import opened MemoryStore
  import E = EndToEnd
  import M = MemoryStream
  import PD = PostgresDelivery
  import PS = PostgresStream
  import Sse

  /** These attempts, answered so, make `now` of the client of a call from this time, and none of them ends it. */
  ghost predicate IsCall(from: int, attempts: seq<Attempt>, replies: seq<Reply>, decode: Decoder, now: Client) {
    && |replies| == |attempts|
    && Underway(Client(from, {}, []), attempts, replies, decode, AllOffered(replies, |replies|, decode), now)
  }

  /** Such a call returns when there is no attempt left, with that client, if its consumer is patient enough. */
  lemma {:induction false} CallReturns(from: int, attempts: seq<Attempt>, replies: seq<Reply>, decode: Decoder,
                                       now: Client, patience: nat)
    requires IsCall(from, attempts, replies, decode, now) && patience > |now.yielded|
    ensures
      var c, received := Client(from, {}, []), AllOffered(replies, |replies|, decode);
      Returns(c, patience, attempts, replies, decode, received, now, Left(patience, c, now), Running)
  {
  }

  lemma {:induction false} NoCall(from: int, decode: Decoder)
    ensures IsCall(from, [], [], decode, Client(from, {}, []))
  {
    var c := Client(from, {}, []);
    assert AllOffered([], 0, decode) == [] && EmitAll(c, []) == c;
  }

  /** What a patient reader made of a body that is not spoiled is what the body offers. */
  lemma {:induction false} ReadsOffered(c: Client, patience: nat, body: string, decode: Decoder)
    requires patience > 0 && Read(c, patience, Sse.ScanAll(body), decode).ending == Ended
    ensures Read(c, patience, Sse.ScanAll(body), decode).client == EmitAll(c, Offered(Opened(body), decode))
    ensures !SpoiledBody(Opened(body), decode)
  {
    var taken := ReadMeans(c, patience, Sse.ScanAll(body), decode);
  }

  /** A body that is read to its end is one more attempt of the call. */
  lemma {:induction false} BodyRead(from: int, attempts: seq<Attempt>, replies: seq<Reply>, decode: Decoder,
                                    now: Client, patience: nat, body: string)
    returns (more: seq<Attempt>, longer: seq<Reply>)
    requires IsCall(from, attempts, replies, decode, now)
    requires patience > 0 && Read(now, patience, Sse.ScanAll(body), decode).ending == Ended
    ensures IsCall(from, more, longer, decode, Read(now, patience, Sse.ScanAll(body), decode).client)
    ensures longer == replies + [Opened(body)]
  {
    var c, a := Client(from, {}, []), Attempt(_ => Opened(body), false, false);
    ReadsOffered(now, patience, body, decode);
    OneMoreAttempt(c, attempts, replies, decode, AllOffered(replies, |replies|, decode), now, a, body);
    more, longer := attempts + [a], replies + [Opened(body)];
  }

  // --------------------------------------------------- the in-memory store

  /** What a connection was sent is stored, and no more has arrived than that. */
  ghost predicate SentStored(codec: E.Codec, s: E.State) {
    && M.Inv(s.mem)
    && (s.conn.Some? ==>
          var Pipe(sub, sent, got) := s.conn.value;
          && sub <= s.mem.nextSubscriber && got <= |E.Body(codec, sent)|
          && (forall e :: e in sent ==> M.InHistory(s.mem.history, e))
          && (sub in s.mem.subs ==> s.mem.subs[sub].yielded == sent))
  }

  /** A reply is as much as has arrived of what was printed for stored entries. */
  ghost predicate OfStore(codec: E.Codec, history: seq<Entry>, reply: Reply) {
    && reply.Opened?
    && exists sent :: reply.body <= E.Body(codec, sent) && forall e :: e in sent ==> M.InHistory(history, e)
  }

  ghost predicate AllOfStore(codec: E.Codec, history: seq<Entry>, replies: seq<Reply>) {
    forall reply :: reply in replies ==> OfStore(codec, history, reply)
  }

  lemma {:induction false} StillOfStore(codec: E.Codec, history: seq<Entry>, history': seq<Entry>, replies: seq<Reply>)
    requires AllOfStore(codec, history, replies) && history <= history'
    ensures AllOfStore(codec, history', replies)
  {
    forall reply | reply in replies
      ensures OfStore(codec, history', reply)
    {
      assert OfStore(codec, history, reply);
      var sent :| reply.body <= E.Body(codec, sent) && forall e :: e in sent ==> M.InHistory(history, e);
      assert forall e :: e in sent ==> M.InHistory(history', e);
    }
  }

  lemma {:induction false} OneMoreOfStore(codec: E.Codec, history: seq<Entry>, replies: seq<Reply>, sent: seq<Entry>,
                                          got: nat)
    requires AllOfStore(codec, history, replies) && got <= |E.Body(codec, sent)|
    requires forall e :: e in sent ==> M.InHistory(history, e)
    ensures AllOfStore(codec, history, replies + [Opened(E.Body(codec, sent)[..got])])
  {
    var reply := Opened(E.Body(codec, sent)[..got]);
    assert reply.body <= E.Body(codec, sent);
    assert OfStore(codec, history, reply);
  }

  lemma {:induction false} YieldedStored(mem: M.State, id: nat)
    requires M.Inv(mem) && id in mem.subs
    ensures forall e :: e in mem.subs[id].yielded ==> M.InHistory(mem.history, e)
  {
    assert M.SubInv(mem.log, mem.history, mem.subs[id]);
    assert forall e :: e in mem.subs[id].yielded ==> e in M.Taken(mem.subs[id]);
  }

  lemma {:induction false} ServerStepKeeps(codec: E.Codec, s: E.State, s': E.State)
    requires SentStored(codec, s) && E.ServerStep(s, s')
    ensures SentStored(codec, s')
  {
    M.NextKeeps(s.mem, s'.mem);
    E.HistoryGrows(s.mem, s'.mem);
    if s.conn.Some? {
      var Pipe(sub, sent, got) := s.conn.value;
      if sub in s'.mem.subs {
        E.SubPersists(s.mem, s'.mem, sub);
        YieldedStored(s'.mem, sub);
        E.BodyGrows(codec, sent, s'.mem.subs[sub].yielded);
      } else {
        SubscribersGrow(s.mem, s'.mem);
      }
    }
  }

  lemma {:induction false} SubscribersGrow(mem: M.State, mem': M.State)
    requires M.Next(mem, mem')
    ensures mem.nextSubscriber <= mem'.nextSubscriber
  {
  }

  lemma {:induction false} NextKeeps(codec: E.Codec, s: E.State, s': E.State)
    requires SentStored(codec, s) && E.Next(codec, s, s')
    ensures SentStored(codec, s') && s.mem.history <= s'.mem.history
  {
    if E.ServerStep(s, s') {
      ServerStepKeeps(codec, s, s');
      E.HistoryGrows(s.mem, s'.mem);
    } else if entries: seq<Entry> :| E.Connect(s, s', entries) {
      assert M.Next(s.mem, s'.mem);
      M.NextKeeps(s.mem, s'.mem);
    }
  }

  /** A step leaves the client as it was, or cuts its connection. */
  lemma {:induction false} ClientStep(codec: E.Codec, s: E.State, s': E.State)
    requires E.Next(codec, s, s')
    ensures s'.client == s.client || E.Cut(codec, s, s')
  {
    if entries: seq<Entry> :| E.Connect(s, s', entries) {
    }
  }

  /** What has arrived on the connection, as the body of one more attempt. */
  lemma {:induction false} BodyIsAttempt(codec: E.Codec, from: int, s: E.State,
                                         attempts: seq<Attempt>, replies: seq<Reply>)
    returns (more: seq<Attempt>, longer: seq<Reply>)
    requires SentStored(codec, s) && E.Carries(codec, s.mem.history) && s.conn.Some?
    requires IsCall(from, attempts, replies, codec.decode, s.client) && AllOfStore(codec, s.mem.history, replies)
    ensures IsCall(from, more, longer, codec.decode, E.Now(codec, s)) && AllOfStore(codec, s.mem.history, longer)
  {
    var Pipe(sub, sent, got) := s.conn.value;
    var body := E.Body(codec, sent)[..got];
    assert forall e :: e in sent ==> e in s.mem.history;
    E.ReadingEmits(codec, s);
    more, longer := BodyRead(from, attempts, replies, codec.decode, s.client, |sent| + 1, body);
    OneMoreOfStore(codec, s.mem.history, replies, sent, got);
  }

  lemma {:induction false} RunIsStored(codec: E.Codec, from: int, trace: seq<E.State>, i: nat)
    requires E.IsRun(codec, from, trace) && i < |trace|
    ensures SentStored(codec, trace[i])
    ensures i > 0 ==> trace[i - 1].mem.history <= trace[i].mem.history
  {
    if i == 0 {
    } else {
      RunIsStored(codec, from, trace, i - 1);
      assert E.Next(codec, trace[i - 1], trace[i - 1 + 1]);
      NextKeeps(codec, trace[i - 1], trace[i]);
    }
  }

  lemma {:induction false} CarriedBefore(codec: E.Codec, history: seq<Entry>, history': seq<Entry>)
    requires history <= history' && E.Carries(codec, history')
    ensures E.Carries(codec, history)
  {
    assert forall e :: e in history ==> e in history';
  }

  lemma {:induction false} RunIsCallSoFar(codec: E.Codec, from: int, trace: seq<E.State>, i: nat)
    returns (attempts: seq<Attempt>, replies: seq<Reply>)
    requires E.IsRun(codec, from, trace) && i < |trace| && E.Carries(codec, trace[i].mem.history)
    ensures IsCall(from, attempts, replies, codec.decode, trace[i].client)
    ensures AllOfStore(codec, trace[i].mem.history, replies)
  {
    if i == 0 {
      attempts, replies := [], [];
      NoCall(from, codec.decode);
    } else {
      RunIsStored(codec, from, trace, i);
      RunIsStored(codec, from, trace, i - 1);
      CarriedBefore(codec, trace[i - 1].mem.history, trace[i].mem.history);
      attempts, replies := RunIsCallSoFar(codec, from, trace, i - 1);
      assert E.Next(codec, trace[i - 1], trace[i - 1 + 1]);
      attempts, replies := StepIsCall(codec, from, trace[i - 1], trace[i], attempts, replies);
    }
  }

  lemma {:induction false} StepIsCall(codec: E.Codec, from: int, s: E.State, s': E.State,
                                      attempts: seq<Attempt>, replies: seq<Reply>)
    returns (more: seq<Attempt>, longer: seq<Reply>)
    requires SentStored(codec, s) && E.Carries(codec, s.mem.history) && E.Next(codec, s, s')
    requires IsCall(from, attempts, replies, codec.decode, s.client) && AllOfStore(codec, s.mem.history, replies)
    ensures IsCall(from, more, longer, codec.decode, s'.client) && AllOfStore(codec, s'.mem.history, longer)
  {
    more, longer := attempts, replies;
    ClientStep(codec, s, s');
    NextKeeps(codec, s, s');
    if s'.client != s.client {
      more, longer := BodyIsAttempt(codec, from, s, attempts, replies);
    }
    StillOfStore(codec, s.mem.history, s'.mem.history, longer);
  }

  /**
   * Every run of the in-memory store, its printer and the network is a Stream
   * call: over the bodies that arrived, connection by connection, the call's
   * client is the run's.
   */
  lemma {:induction false} RunIsCall(codec: E.Codec, from: int, trace: seq<E.State>)
    returns (attempts: seq<Attempt>, replies: seq<Reply>)
    requires E.IsRun(codec, from, trace) && E.Carries(codec, trace[|trace| - 1].mem.history)
    ensures SentStored(codec, trace[|trace| - 1])
    ensures IsCall(from, attempts, replies, codec.decode, E.Now(codec, trace[|trace| - 1]))
    ensures AllOfStore(codec, trace[|trace| - 1].mem.history, replies)
  {
    var s := trace[|trace| - 1];
    attempts, replies := RunIsCallSoFar(codec, from, trace, |trace| - 1);
    RunIsStored(codec, from, trace, |trace| - 1);
    if s.conn.Some? {
      attempts, replies := BodyIsAttempt(codec, from, s, attempts, replies);
    }
  }

  // ---------------------------------------------------------- Postgres

  /** A reply is as much as has arrived of what was printed for rows of the table. */
  ghost predicate OfTable(codec: E.Codec, table: set<PS.Row>, reply: Reply) {
    && reply.Opened?
    && exists rows :: reply.body <= PD.Body(codec, rows) && forall row :: row in rows ==> row in table
  }

  ghost predicate AllOfTable(codec: E.Codec, table: set<PS.Row>, replies: seq<Reply>) {
    forall reply :: reply in replies ==> OfTable(codec, table, reply)
  }

  lemma {:induction false} StillOfTable(codec: E.Codec, table: set<PS.Row>, table': set<PS.Row>, replies: seq<Reply>)
    requires AllOfTable(codec, table, replies) && table <= table'
    ensures AllOfTable(codec, table', replies)
  {
    forall reply | reply in replies
      ensures OfTable(codec, table', reply)
    {
      assert OfTable(codec, table, reply);
      var rows :| reply.body <= PD.Body(codec, rows) && forall row :: row in rows ==> row in table;
      assert forall row :: row in rows ==> row in table';
    }
  }

  lemma {:induction false} OneMoreOfTable(codec: E.Codec, table: set<PS.Row>, replies: seq<Reply>, rows: seq<PS.Row>,
                                          got: nat)
    requires AllOfTable(codec, table, replies) && got <= |PD.Body(codec, rows)|
    requires forall row :: row in rows ==> row in table
    ensures AllOfTable(codec, table, replies + [Opened(PD.Body(codec, rows)[..got])])
  {
    var reply := Opened(PD.Body(codec, rows)[..got]);
    assert reply.body <= PD.Body(codec, rows);
    assert OfTable(codec, table, reply);
  }

  lemma {:induction false} BytesAreAttempt(codec: E.Codec, from: int, s: PD.Net,
                                           attempts: seq<Attempt>, replies: seq<Reply>)
    returns (more: seq<Attempt>, longer: seq<Reply>)
    requires PD.Bound(codec, s) && PD.Carries(codec, s.server.table)
    requires IsCall(from, attempts, replies, codec.decode, s.client) && AllOfTable(codec, s.server.table, replies)
    ensures IsCall(from, more, longer, codec.decode, PD.Reading(codec, s).client)
    ensures AllOfTable(codec, s.server.table, longer)
  {
    var rows := s.server.stream.delivered;
    var body := PD.Body(codec, rows)[..s.bytes];
    PD.DeliveredCarried(codec, s);
    PD.ReadingIsSeen(codec, s);
    more, longer := BodyRead(from, attempts, replies, codec.decode, s.client, |rows| + 1, body);
    OneMoreOfTable(codec, s.server.table, replies, rows, s.bytes);
  }

  lemma {:induction false} NetStep(codec: E.Codec, lag: int, s: PD.Net, s': PD.Net)
    requires PD.Next(codec, lag, s, s')
    ensures s'.client == s.client || PD.Reconnect(codec, s, s')
  {
  }

  lemma {:induction false} NetRunIsCallSoFar(codec: E.Codec, from: int, lag: int, trace: seq<PD.Net>, i: nat)
    returns (attempts: seq<Attempt>, replies: seq<Reply>)
    requires PD.IsRun(codec, from, lag, trace) && i < |trace| && PD.Carries(codec, trace[i].server.table)
    ensures IsCall(from, attempts, replies, codec.decode, trace[i].client)
    ensures AllOfTable(codec, trace[i].server.table, replies)
  {
    if i == 0 {
      attempts, replies := [], [];
      NoCall(from, codec.decode);
    } else {
      PD.RunKeepsBound(codec, from, lag, trace, i - 1);
      PD.CarriedBefore(codec, from, lag, trace, i - 1);
      attempts, replies := NetRunIsCallSoFar(codec, from, lag, trace, i - 1);
      assert PD.Next(codec, lag, trace[i - 1], trace[i - 1 + 1]);
      attempts, replies := NetStepIsCall(codec, from, lag, trace[i - 1], trace[i], attempts, replies);
    }
  }

  lemma {:induction false} NetStepIsCall(codec: E.Codec, from: int, lag: int, s: PD.Net, s': PD.Net,
                                         attempts: seq<Attempt>, replies: seq<Reply>)
    returns (more: seq<Attempt>, longer: seq<Reply>)
    requires PD.Bound(codec, s) && PD.Carries(codec, s.server.table) && PD.Next(codec, lag, s, s')
    requires IsCall(from, attempts, replies, codec.decode, s.client) && AllOfTable(codec, s.server.table, replies)
    ensures IsCall(from, more, longer, codec.decode, s'.client) && AllOfTable(codec, s'.server.table, longer)
  {
    more, longer := attempts, replies;
    NetStep(codec, lag, s, s');
    PD.NextKeepsBound(codec, lag, s, s');
    if s'.client != s.client {
      more, longer := BytesAreAttempt(codec, from, s, attempts, replies);
    }
    StillOfTable(codec, s.server.table, s'.server.table, longer);
  }

  /** So is every run of the Postgres firehose and the network. */
  lemma {:induction false} NetRunIsCall(codec: E.Codec, from: int, lag: int, trace: seq<PD.Net>)
    returns (attempts: seq<Attempt>, replies: seq<Reply>)
    requires PD.IsRun(codec, from, lag, trace) && PD.Carries(codec, trace[|trace| - 1].server.table)
    ensures PD.InBounds(codec, trace[|trace| - 1])
    ensures IsCall(from, attempts, replies, codec.decode, PD.Reading(codec, trace[|trace| - 1]).client)
    ensures AllOfTable(codec, trace[|trace| - 1].server.table, replies)
  {
    attempts, replies := NetRunIsCallSoFar(codec, from, lag, trace, |trace| - 1);
    PD.RunKeepsBound(codec, from, lag, trace, |trace| - 1);
    attempts, replies := BytesAreAttempt(codec, from, trace[|trace| - 1], attempts, replies);
  }
}
