// The client's stream over the Postgres firehose. Rows can be emitted out of
// record time order, and the client resumes at the last record time it was
// given: whether that yields each revocation once depends on how long a row
// takes to become visible.

module PostgresClient {
  import opened Types
  import opened ClientStream
  import P = PostgresStream
  import R = ClientResume

  /** What the client is sent of a row. */
  function RecordOf(r: P.Row): Record {
    Record(r.id, [], r.id, r.recordedAt)
  }

  // ---------------------------------------------------------------- system

  /**
   * A client and the firehose stream that serves its connection, which it
   * opened at `asked` and over which it has received `got` records; and how
   * often it has reconnected.
   */
  datatype Net = Net(server: P.State, asked: int, client: Client, got: nat, reconnects: nat)

  ghost predicate Init(from: int, s: Net) {
    P.Init(from, s.server) && s == Net(s.server, from, Client(from, {}, []), 0, 0)
  }

  /** Any step of the clock, the writers and the stream. */
  ghost predicate Serve(lag: int, s: Net, s': Net) {
    P.Next(lag, s.server, s'.server) && s' == s.(server := s'.server)
  }

  /** The next record that the stream yielded arrives. */
  ghost predicate Receive(s: Net, s': Net) {
    var sent := s.server.stream.delivered;
    s.got < |sent| && s' == s.(client := Emit(s.client, RecordOf(sent[s.got])), got := s.got + 1)
  }

  /** The connection drops, wherever it was, and a stream is opened where the client resumes. */
  ghost predicate Reconnect(s: Net, s': Net) {
    s' == Net(Begun(s.server.now, s.server.table, s.client.resume), s.client.resume, s.client, 0, s.reconnects + 1)
  }

  function Begun(now: int, table: set<P.Row>, from: int): P.State {
    P.State(now, table, P.Stream(from, map[], []), P.Idle, [])
  }

  ghost predicate Next(lag: int, s: Net, s': Net) {
    Serve(lag, s, s') || Receive(s, s') || Reconnect(s, s')
  }

  ghost predicate IsRun(from: int, lag: int, trace: seq<Net>) {
    && |trace| > 0 && Init(from, trace[0])
    && (forall i :: 0 <= i < |trace| - 1 ==> Next(lag, trace[i], trace[i + 1]))
  }

  /** The connection's stream has completed a poll, and all it yielded has arrived. */
  ghost predicate CaughtUp(s: Net) {
    !s.server.phase.Reading? && s.server.polls != [] && s.got == |s.server.stream.delivered|
  }

  /** Once caught up, the client has yielded every row the last poll showed, from where it first asked. */
  ghost predicate MissesNothing(from: int, s: Net) {
    CaughtUp(s) ==>
      forall r :: r in s.server.polls[|s.server.polls| - 1].snapshot && r.recordedAt >= from ==>
        RecordOf(r) in s.client.yielded
  }

  /** A run that has reconnected no more than `most` times. */
  ghost predicate Within(most: nat, from: int, lag: int, trace: seq<Net>) {
    IsRun(from, lag, trace) && trace[|trace| - 1].reconnects <= most
  }

  ghost predicate NeverTwice(lag: int, most: nat) {
    forall from: int, trace: seq<Net> :: Within(most, from, lag, trace) ==>
      DistinctCauses(trace[|trace| - 1].client.yielded)
  }

  ghost predicate NeverMisses(lag: int, most: nat) {
    forall from: int, trace: seq<Net> :: Within(most, from, lag, trace) ==>
      MissesNothing(from, trace[|trace| - 1])
  }

  // --------------------------------------- rows visible when recorded

  /** The rows as the records of the resume protocol. */
  ghost function Log(rows: set<P.Row>): set<Record> {
    set r | r in rows :: RecordOf(r)
  }

  ghost function Received(s: Net): set<Record>
    requires s.got <= |s.server.stream.delivered|
  {
    set r | r in s.server.stream.delivered[..s.got] :: RecordOf(r)
  }

  /** The state of the resume protocol this is. */
  ghost function View(s: Net): R.Net
    requires s.got <= |s.server.stream.delivered|
  {
    R.Net(Log(s.server.table), s.client, Some(R.Link(s.asked, Received(s))))
  }

  ghost predicate Inv(from: int, s: Net) {
    && P.Inv(s.asked, 0, s.server)
    && s.got <= |s.server.stream.delivered|
    && R.Inv(from, View(s))
  }

  lemma InitInv(from: int, s: Net)
    requires Init(from, s)
    ensures Inv(from, s)
  {
    P.InitInv(from, 0, s.server);
  }

  /** The other steps of the server leave the table as it is, and only add to what was delivered. */
  lemma {:induction false} ServedGrows(lag: int, s: P.State, s': P.State)
    requires P.Next(lag, s, s')
    ensures s.stream.delivered <= s'.stream.delivered
    ensures s'.table == s.table || exists row :: P.Commit(lag, s, s', row)
  {
  }

  lemma {:induction false} CommitIsPublish(from: int, s: Net, s': Net, row: P.Row)
    requires Inv(from, s) && P.Commit(0, s.server, s'.server, row) && s' == s.(server := s'.server)
    ensures R.Publish(true, View(s), View(s'), RecordOf(row))
  {
    assert Log(s'.server.table) == Log(s.server.table) + {RecordOf(row)};
    assert forall q :: q in s.client.yielded ==> q in View(s).log;
  }

  lemma {:induction false} ServeKeepsView(from: int, s: Net, s': Net)
    requires Inv(from, s) && Serve(0, s, s')
    ensures s'.got <= |s'.server.stream.delivered| && R.Inv(from, View(s'))
  {
    ServedGrows(0, s.server, s'.server);
    SameReceived(s, s');
    if s'.server.table != s.server.table {
      var row: P.Row :| P.Commit(0, s.server, s'.server, row);
      CommitIsPublish(from, s, s', row);
      R.PublishKeeps(from, View(s), View(s'), RecordOf(row));
    }
  }

  lemma {:induction false} SameReceived(s: Net, s': Net)
    requires s.got <= |s.server.stream.delivered| && s.server.stream.delivered <= s'.server.stream.delivered
    requires s' == s.(server := s'.server)
    ensures Received(s') == Received(s)
  {
    assert s'.server.stream.delivered[..s.got] == s.server.stream.delivered[..s.got];
  }

  lemma {:induction false} ServeKeeps(from: int, s: Net, s': Net)
    requires Inv(from, s) && Serve(0, s, s')
    ensures Inv(from, s')
  {
    P.NextKeeps(s.asked, 0, s.server, s'.server);
    ServeKeepsView(from, s, s');
  }

  /** Of the rows a connection is still to be sent, the next is an earliest. */
  lemma {:induction false} NextIsEarliest(asked: int, server: P.State, got: nat, q: P.Row)
    requires P.Inv(asked, 0, server) && got < |server.stream.delivered|
    requires q in server.table && q.recordedAt >= asked && q !in server.stream.delivered[..got]
    ensures server.stream.delivered[got].recordedAt <= q.recordedAt
  {
    var sent := server.stream.delivered;
    if q in sent {
      SentLater(sent, got, q);
    } else {
      P.UndeliveredIsLater(asked, 0, server, sent[got], q);
    }
  }

  lemma {:induction false} SentLater(sent: seq<P.Row>, got: nat, q: P.Row)
    requires got < |sent| && q in sent && q !in sent[..got]
    requires forall i, j :: 0 <= i < j < |sent| ==> sent[i].recordedAt <= sent[j].recordedAt
    ensures sent[got].recordedAt <= q.recordedAt
  {
    assert forall i :: 0 <= i < got ==> sent[i] in sent[..got];
    var j :| 0 <= j < |sent| && sent[j] == q;
  }

  lemma {:induction false} ReceivedMore(s: Net, s': Net)
    requires Receive(s, s')
    ensures Received(s') == Received(s) + {RecordOf(s.server.stream.delivered[s.got])}
  {
    var sent := s.server.stream.delivered;
    assert sent[..s.got + 1] == sent[..s.got] + [sent[s.got]];
  }

  lemma {:induction false} ReceiveIsReceive(from: int, s: Net, s': Net)
    requires Inv(from, s) && Receive(s, s')
    ensures R.Receive(View(s), View(s'), RecordOf(s.server.stream.delivered[s.got]))
  {
    var sent := s.server.stream.delivered;
    var row, r := sent[s.got], RecordOf(sent[s.got]);
    assert row in sent && row in s.server.table && r in Log(s.server.table);
    ReceivedMore(s, s');
    assert r !in Received(s);
    forall q | q in View(s).log && q.recordedAt >= s.asked && q !in Received(s)
      ensures r.recordedAt <= q.recordedAt
    {
      var other :| other in s.server.table && RecordOf(other) == q;
      NextIsEarliest(s.asked, s.server, s.got, other);
    }
  }

  lemma {:induction false} ReconnectKeeps(from: int, s: Net, s': Net)
    requires Inv(from, s) && Reconnect(s, s')
    ensures Inv(from, s')
  {
    P.InitInv(s.client.resume, 0, s'.server);
    var dropped := View(s).(link := None);
    R.NextKeeps(from, View(s), dropped);
    assert Received(s') == {};
    assert R.Open(dropped, View(s'));
    R.NextKeeps(from, dropped, View(s'));
  }

  lemma {:induction false} NextKeeps(from: int, s: Net, s': Net)
    requires Inv(from, s) && Next(0, s, s')
    ensures Inv(from, s')
  {
    if Serve(0, s, s') {
      ServeKeeps(from, s, s');
    } else if Receive(s, s') {
      ReceiveIsReceive(from, s, s');
      R.ReceiveKeeps(from, View(s), View(s'), RecordOf(s.server.stream.delivered[s.got]));
    } else {
      ReconnectKeeps(from, s, s');
    }
  }

  lemma {:induction false} RunKeeps(from: int, trace: seq<Net>, i: nat)
    requires IsRun(from, 0, trace) && i < |trace|
    ensures Inv(from, trace[i])
  {
    if i == 0 {
      InitInv(from, trace[0]);
    } else {
      RunKeeps(from, trace, i - 1);
      assert Next(0, trace[i - 1], trace[i - 1 + 1]);
      NextKeeps(from, trace[i - 1], trace[i]);
    }
  }

  /** A caught up connection has received every row that its last poll showed and that it asked for. */
  lemma {:induction false} ShownIsReceived(lag: int, s: Net, r: P.Row)
    requires P.Inv(s.asked, lag, s.server) && CaughtUp(s)
    requires r in s.server.polls[|s.server.polls| - 1].snapshot && r.recordedAt >= s.asked
    ensures r in s.server.table && r in s.server.stream.delivered[..s.got]
  {
    var server := s.server;
    var k := |server.polls|;
    assert P.AllPolls(server)[k - 1] == server.polls[k - 1];
    assert r in P.Shown(server.polls, k) && r in server.stream.delivered;
    assert server.stream.delivered[..s.got] == server.stream.delivered;
  }

  lemma {:induction false} ShownIsPublished(lag: int, s: P.State, r: P.Row)
    requires P.HistoryInv(lag, s.now, s.table, P.AllPolls(s)) && s.polls != []
    requires r in s.polls[|s.polls| - 1].snapshot
    ensures r in s.table
  {
    var k := |s.polls|;
    assert P.AllPolls(s)[k - 1] == s.polls[k - 1];
  }

  lemma {:induction false} InvMissesNothing(from: int, s: Net)
    requires Inv(from, s)
    ensures MissesNothing(from, s)
  {
    if CaughtUp(s) {
      forall r | r in s.server.polls[|s.server.polls| - 1].snapshot && r.recordedAt >= from
        ensures RecordOf(r) in s.client.yielded
      {
        ShownIsPublished(0, s.server, r);
        assert RecordOf(r) in View(s).log;
        if r.recordedAt >= s.asked {
          ShownIsReceived(0, s, r);
          assert RecordOf(r) in Received(s);
        }
      }
    }
  }

  /** A client of a firehose whose rows are visible when recorded yields each once and misses none. */
  lemma {:induction false} OnceWhenVisibleAtOnce(from: int, trace: seq<Net>)
    requires IsRun(from, 0, trace)
    ensures DistinctCauses(trace[|trace| - 1].client.yielded) && MissesNothing(from, trace[|trace| - 1])
  {
    RunKeeps(from, trace, |trace| - 1);
    R.InvYieldsOnce(from, View(trace[|trace| - 1]));
    InvMissesNothing(from, trace[|trace| - 1]);
  }

  // ------------------------------------------------------- one connection

  function Records(rows: seq<P.Row>): (rs: seq<Record>)
    ensures |rs| == |rows|
    ensures forall i :: 0 <= i < |rows| ==> rs[i] == RecordOf(rows[i])
  {
    seq(|rows|, i requires 0 <= i < |rows| => RecordOf(rows[i]))
  }

  /** Before it reconnects, the client is what it made of what its one stream yielded. */
  ghost predicate FirstInv(from: int, s: Net) {
    && P.OnceInv(s.server) && s.got <= |s.server.stream.delivered|
    && (s.reconnects == 0 ==>
          && s.asked == from
          && s.client == EmitAll(Client(from, {}, []), Records(s.server.stream.delivered[..s.got])))
  }

  lemma {:induction false} EmitAllMore(c: Client, rows: seq<P.Row>, k: nat)
    requires k < |rows|
    ensures EmitAll(c, Records(rows[..k + 1])) == Emit(EmitAll(c, Records(rows[..k])), RecordOf(rows[k]))
  {
    assert Records(rows[..k + 1])[..k] == Records(rows[..k]);
  }

  lemma {:induction false} NextKeepsFirst(from: int, lag: int, s: Net, s': Net)
    requires FirstInv(from, s) && Next(lag, s, s')
    ensures FirstInv(from, s')
  {
    if Serve(lag, s, s') {
      P.NextKeepsOnce(lag, s.server, s'.server);
      ServedGrows(lag, s.server, s'.server);
      assert s'.server.stream.delivered[..s.got] == s.server.stream.delivered[..s.got];
    } else if Receive(s, s') {
      EmitAllMore(Client(from, {}, []), s.server.stream.delivered, s.got);
    }
  }

  lemma {:induction false} RunKeepsFirst(from: int, lag: int, trace: seq<Net>, i: nat)
    requires IsRun(from, lag, trace) && i < |trace|
    ensures FirstInv(from, trace[i])
  {
    if i == 0 {
      assert Records(trace[0].server.stream.delivered[..0]) == [];
    } else {
      RunKeepsFirst(from, lag, trace, i - 1);
      assert Next(lag, trace[i - 1], trace[i - 1 + 1]);
      NextKeepsFirst(from, lag, trace[i - 1], trace[i]);
    }
  }

  /** The server's state, while it serves the first connection, is one of a run of the stream. */
  lemma {:induction false} RunKeepsServer(from: int, lag: int, trace: seq<Net>, i: nat)
    requires 0 <= lag <= P.SETTLE_WINDOW && IsRun(from, lag, trace) && i < |trace|
    ensures P.Inv(trace[i].asked, lag, trace[i].server)
  {
    if i == 0 {
      P.InitInv(from, lag, trace[0].server);
    } else {
      var s, s' := trace[i - 1], trace[i];
      RunKeepsServer(from, lag, trace, i - 1);
      assert Next(lag, trace[i - 1], trace[i - 1 + 1]);
      if Serve(lag, s, s') {
        P.NextKeeps(s.asked, lag, s.server, s'.server);
      } else if Reconnect(s, s') {
        P.InitInv(s.client.resume, lag, s'.server);
      }
    }
  }

  /** What is yielded was received. */
  lemma {:induction false} YieldedIsReceived(c: Client, rs: seq<Record>, r: Record)
    requires r in EmitAll(c, rs).yielded && r !in c.yielded
    ensures r in rs
    decreases |rs|
  {
    if rs == [] {
    } else {
      var n := |rs| - 1;
      if r in EmitAll(c, rs[..n]).yielded {
        YieldedIsReceived(c, rs[..n], r);
      }
    }
  }

  /** Rows with ids of their own, received once each, are all yielded, and yielded once. */
  lemma {:induction false} DistinctRowsYieldOnce(from: int, rows: seq<P.Row>)
    requires forall i, j :: 0 <= i < j < |rows| ==> rows[i].id != rows[j].id
    ensures
      var yielded := EmitAll(Client(from, {}, []), Records(rows)).yielded;
      DistinctCauses(yielded) && forall r :: r in rows ==> RecordOf(r) in yielded
  {
    var c, rs := Client(from, {}, []), Records(rows);
    R.YieldsOnceIff(from, rs);
    R.EmitTracks(from, rs);
    forall row | row in rows
      ensures RecordOf(row) in EmitAll(c, rs).yielded
    {
      var i :| 0 <= i < |rows| && rows[i] == row;
      assert rs[i].cause == row.id && R.HasCause(rs, row.id);
      var j :| 0 <= j < |EmitAll(c, rs).yielded| && EmitAll(c, rs).yielded[j].cause == row.id;
      var y := EmitAll(c, rs).yielded[j];
      YieldedIsReceived(c, rs, y);
      var k :| 0 <= k < |rs| && rs[k] == y;
      assert k == i;
    }
  }

  lemma {:induction false} ReceivedIdsDistinct(s: Net)
    requires P.OnceInv(s.server) && s.got <= |s.server.stream.delivered|
    ensures
      var rows := s.server.stream.delivered[..s.got];
      forall i, j :: 0 <= i < j < |rows| ==> rows[i].id != rows[j].id
  {
    var sent := s.server.stream.delivered;
    forall i, j | 0 <= i < j < s.got
      ensures sent[i].id != sent[j].id
    {
      assert sent[i] in sent && sent[j] in sent;
    }
  }

  /** Over one connection nothing is yielded twice, whatever the delay. */
  lemma {:induction false} OneConnectionYieldsOnce(from: int, lag: int, trace: seq<Net>)
    requires Within(0, from, lag, trace)
    ensures DistinctCauses(trace[|trace| - 1].client.yielded)
  {
    var s := trace[|trace| - 1];
    RunKeepsFirst(from, lag, trace, |trace| - 1);
    ReceivedIdsDistinct(s);
    DistinctRowsYieldOnce(from, s.server.stream.delivered[..s.got]);
  }

  /** And nothing is missed, when rows settle within the window. */
  lemma {:induction false} OneConnectionMissesNothing(from: int, lag: int, trace: seq<Net>)
    requires 0 <= lag <= P.SETTLE_WINDOW && Within(0, from, lag, trace)
    ensures MissesNothing(from, trace[|trace| - 1])
  {
    var s := trace[|trace| - 1];
    RunKeepsFirst(from, lag, trace, |trace| - 1);
    RunKeepsServer(from, lag, trace, |trace| - 1);
    ReceivedIdsDistinct(s);
    DistinctRowsYieldOnce(from, s.server.stream.delivered[..s.got]);
    if CaughtUp(s) {
      forall r | r in s.server.polls[|s.server.polls| - 1].snapshot && r.recordedAt >= from
        ensures RecordOf(r) in s.client.yielded
      {
        ShownIsReceived(lag, s, r);
      }
    }
  }

  // --------------------------------------------------- rows visible later

  lemma RunOn(from: int, lag: int, trace: seq<Net>, s': Net) returns (longer: seq<Net>)
    requires IsRun(from, lag, trace) && Next(lag, trace[|trace| - 1], s')
    ensures IsRun(from, lag, longer) && longer[|longer| - 1] == s'
  {
    longer := trace + [s'];
    forall i | 0 <= i < |longer| - 1
      ensures Next(lag, longer[i], longer[i + 1])
    {
      if i < |trace| - 1 {
        assert Next(lag, trace[i], trace[i + 1]);
      }
    }
  }

  /** Steps of the server alone. */
  lemma {:induction false} ServeAll(from: int, lag: int, trace: seq<Net>, s: Net, more: seq<P.State>)
    returns (longer: seq<Net>)
    requires IsRun(from, lag, trace) && s == trace[|trace| - 1]
    requires |more| > 0 && more[0] == s.server
    requires forall i :: 0 <= i < |more| - 1 ==> P.Next(lag, more[i], more[i + 1])
    ensures IsRun(from, lag, longer) && longer[|longer| - 1] == s.(server := more[|more| - 1])
    decreases |more|
  {
    if |more| == 1 {
      longer := trace;
    } else {
      assert P.Next(lag, more[0], more[0 + 1]);
      var s' := s.(server := more[1]);
      assert Serve(lag, s, s');
      longer := RunOn(from, lag, trace, s');
      longer := ServeAll(from, lag, longer, s', more[1..]);
    }
  }

  lemma CommitOne(from: int, lag: int, trace: seq<Net>, s: Net, row: P.Row) returns (longer: seq<Net>)
    requires IsRun(from, lag, trace) && s == trace[|trace| - 1]
    requires row.recordedAt <= s.server.now <= row.recordedAt + lag
    requires forall r :: r in s.server.table ==> r.id != row.id
    ensures IsRun(from, lag, longer)
    ensures longer[|longer| - 1] == s.(server := s.server.(table := s.server.table + {row}))
  {
    var server' := s.server.(table := s.server.table + {row});
    assert P.Commit(lag, s.server, server', row);
    longer := RunOn(from, lag, trace, s.(server := server'));
  }

  /** A poll that leaves the stream as `stream`. */
  lemma PollAll(from: int, lag: int, trace: seq<Net>, s: Net, rows: seq<P.Row>, stream: P.Stream)
    returns (longer: seq<Net>, s': Net)
    requires IsRun(from, lag, trace) && s == trace[|trace| - 1] && s.server.phase.Idle?
    requires P.IsQuery(rows, s.server.table, s.server.stream.cursor)
    requires stream == P.Advance(P.DeliverAll(s.server.stream, rows), s.server.now)
    ensures IsRun(from, lag, longer) && longer[|longer| - 1] == s'
    ensures s' == s.(server := s'.server)
    ensures s'.server == s.server.(stream := stream, polls := s'.server.polls)
    ensures P.PolledOnce(s.server.polls, s'.server.polls, s.server.table)
  {
    var more := P.PollSteps(lag, s.server, rows);
    longer := ServeAll(from, lag, trace, s, more);
    s' := s.(server := more[|more| - 1]);
  }

  lemma ReceiveOne(from: int, lag: int, trace: seq<Net>, s: Net, client: Client) returns (longer: seq<Net>)
    requires IsRun(from, lag, trace) && s == trace[|trace| - 1] && s.got < |s.server.stream.delivered|
    requires client == Emit(s.client, RecordOf(s.server.stream.delivered[s.got]))
    ensures IsRun(from, lag, longer) && longer[|longer| - 1] == s.(client := client, got := s.got + 1)
  {
    var s' := s.(client := client, got := s.got + 1);
    assert Receive(s, s');
    longer := RunOn(from, lag, trace, s');
  }

  // Two rows: EARLY is recorded before LATE, and appears after it.
  const LATE: P.Row := P.Row(Cid(1), 1)
  const EARLY: P.Row := P.Row(Cid(2), 0)

  lemma DeliverOne(s: P.Stream, row: P.Row)
    ensures P.DeliverAll(s, [row]) == P.Deliver(s, row)
  {
    assert [row][1..] == [];
  }

  lemma DeliverBoth(s: P.Stream, one: P.Row, other: P.Row)
    ensures P.DeliverAll(s, [one, other]) == P.Deliver(P.Deliver(s, one), other)
  {
    assert [one, other][1..] == [other];
    DeliverOne(P.Deliver(s, one), other);
  }

  /** The client has LATE, and the stream has yet to show EARLY. */
  lemma {:induction false} LateFirst(lag: int) returns (trace: seq<Net>, s: Net)
    requires lag > 0
    ensures IsRun(0, lag, trace) && s == trace[|trace| - 1]
    ensures s.server.now == 1 && s.server.table == {LATE} && s.server.phase.Idle?
    ensures s.server.stream == P.Stream(0, map[LATE.id := 1], [LATE])
    ensures s.asked == 0 && s.got == 1 && s.client == Client(1, {LATE.id}, [RecordOf(LATE)]) && s.reconnects == 0
  {
    s := Net(Begun(1, {}, 0), 0, Client(0, {}, []), 0, 0);
    trace := [s];
    trace := CommitOne(0, lag, trace, s, LATE);
    s := trace[|trace| - 1];
    assert s.server.table == {LATE};
    var stream := P.Stream(0, map[LATE.id := 1], [LATE]);
    DeliverOne(s.server.stream, LATE);
    trace, s := PollAll(0, lag, trace, s, [LATE], stream);
    trace := ReceiveOne(0, lag, trace, s, Client(1, {LATE.id}, [RecordOf(LATE)]));
    s := trace[|trace| - 1];
  }

  /**
   * With any delay, one Stream call that reconnects once can yield a revocation
   * twice: EARLY takes the client's resume time back, and reconnecting there
   * sends LATE again.
   */
  lemma {:induction false} OnceFailsOverPostgres(lag: int) returns (trace: seq<Net>)
    requires lag > 0
    ensures IsRun(0, lag, trace) && trace[|trace| - 1].reconnects == 1
    ensures trace[|trace| - 1].server.table == {LATE, EARLY}
    ensures !DistinctCauses(trace[|trace| - 1].client.yielded)
  {
    var s;
    trace, s := LateFirst(lag);
    trace := CommitOne(0, lag, trace, s, EARLY);
    s := trace[|trace| - 1];
    assert s.server.table == {LATE, EARLY};
    var both := P.Stream(0, map[LATE.id := 1, EARLY.id := 0], [LATE, EARLY]);
    DeliverBoth(s.server.stream, EARLY, LATE);
    trace, s := PollAll(0, lag, trace, s, [EARLY, LATE], both);
    trace := ReceiveOne(0, lag, trace, s, Client(0, {EARLY.id}, [RecordOf(LATE), RecordOf(EARLY)]));
    trace := ReconnectAndReceive(lag, trace, trace[|trace| - 1]);
  }

  lemma {:induction false} ReconnectAndReceive(lag: int, trace: seq<Net>, s: Net) returns (longer: seq<Net>)
    requires IsRun(0, lag, trace) && s == trace[|trace| - 1]
    requires s.server.now == 1 && s.server.table == {LATE, EARLY}
    requires s.client == Client(0, {EARLY.id}, [RecordOf(LATE), RecordOf(EARLY)])
    ensures IsRun(0, lag, longer) && longer[|longer| - 1].reconnects == s.reconnects + 1
    ensures longer[|longer| - 1].server.table == {LATE, EARLY}
    ensures !DistinctCauses(longer[|longer| - 1].client.yielded)
  {
    var again := Net(Begun(1, {LATE, EARLY}, 0), 0, s.client, 0, s.reconnects + 1);
    assert Reconnect(s, again);
    longer := RunOn(0, lag, trace, again);
    var stream := P.Stream(0, map[EARLY.id := 0, LATE.id := 1], [EARLY, LATE]);
    DeliverBoth(again.server.stream, EARLY, LATE);
    longer, again := PollAll(0, lag, longer, again, [EARLY, LATE], stream);
    longer := ReceiveOne(0, lag, longer, again, s.client);
    var twice := s.client.yielded + [RecordOf(LATE)];
    longer := ReceiveOne(0, lag, longer, longer[|longer| - 1], Client(1, {LATE.id}, twice));
    assert twice[0].cause == twice[2].cause;
  }

  /**
   * With any delay, one Stream call that reconnects once can miss a revocation:
   * the client reconnects at LATE's time before EARLY appears, and no query from
   * there returns EARLY.
   */
  lemma {:induction false} LostOverPostgres(lag: int) returns (trace: seq<Net>)
    requires lag > 0
    ensures IsRun(0, lag, trace) && trace[|trace| - 1].reconnects == 1
    ensures trace[|trace| - 1].server.table == {LATE, EARLY}
    ensures !MissesNothing(0, trace[|trace| - 1])
  {
    var s;
    trace, s := LateFirst(lag);
    var again := Net(Begun(1, {LATE}, 1), 1, s.client, 0, 1);
    assert Reconnect(s, again);
    trace := RunOn(0, lag, trace, again);
    trace := CommitOne(0, lag, trace, again, EARLY);
    s := trace[|trace| - 1];
    assert s.server.table == {LATE, EARLY};
    DeliverOne(s.server.stream, LATE);
    trace, s := PollAll(0, lag, trace, s, [LATE], P.Stream(1, map[LATE.id := 1], [LATE]));
    trace := ReceiveOne(0, lag, trace, s, s.client);
    s := trace[|trace| - 1];
    assert EARLY in s.server.polls[|s.server.polls| - 1].snapshot && EARLY.recordedAt >= 0;
    assert CaughtUp(s) && RecordOf(EARLY) !in s.client.yielded;
  }

  /** Past the settle window the first connection can miss a row already. */
  lemma {:induction false} MissedByTheStream(lag: int) returns (trace: seq<Net>)
    requires lag > P.SETTLE_WINDOW
    ensures IsRun(0, lag, trace) && trace[|trace| - 1].reconnects == 0
    ensures trace[|trace| - 1].server.table == {P.LATE}
    ensures !MissesNothing(0, trace[|trace| - 1])
  {
    var server := P.LateRowIsMissed(lag);
    var start := Net(server[0], 0, Client(0, {}, []), 0, 0);
    trace := ServeAll(0, lag, [start], start, server);
    var s := trace[|trace| - 1];
    assert CaughtUp(s) && s.client.yielded == [];
    assert P.LATE in s.server.polls[|s.server.polls| - 1].snapshot && P.LATE.recordedAt >= 0;
  }

  /**
   * The exact conditions: over the Postgres firehose, one Stream call that
   * reconnects no more than `most` times never yields a revocation twice if and
   * only if rows are visible as soon as they are recorded or it does not
   * reconnect; and it never misses one if and only if rows are visible at once,
   * or it does not reconnect and rows are visible within the settle window.
   */
  lemma OnceIff(lag: nat, most: nat)
    ensures NeverTwice(lag, most) <==> lag == 0 || most == 0
    ensures NeverMisses(lag, most) <==> lag == 0 || (most == 0 && lag <= P.SETTLE_WINDOW)
  {
    NeverTwiceIff(lag, most);
    NeverMissesIff(lag, most);
  }

  lemma {:induction false} NeverTwiceIff(lag: nat, most: nat)
    ensures NeverTwice(lag, most) <==> lag == 0 || most == 0
  {
    if lag == 0 || most == 0 {
      forall from: int, trace: seq<Net> | Within(most, from, lag, trace)
        ensures DistinctCauses(trace[|trace| - 1].client.yielded)
      {
        if lag == 0 {
          OnceWhenVisibleAtOnce(from, trace);
        } else {
          OneConnectionYieldsOnce(from, lag, trace);
        }
      }
    } else {
      var twice := OnceFailsOverPostgres(lag);
      assert Within(most, 0, lag, twice);
    }
  }

  lemma {:induction false} NeverMissesIff(lag: nat, most: nat)
    ensures NeverMisses(lag, most) <==> lag == 0 || (most == 0 && lag <= P.SETTLE_WINDOW)
  {
    if lag == 0 || (most == 0 && lag <= P.SETTLE_WINDOW) {
      forall from: int, trace: seq<Net> | Within(most, from, lag, trace)
        ensures MissesNothing(from, trace[|trace| - 1])
      {
        if lag == 0 {
          OnceWhenVisibleAtOnce(from, trace);
        } else {
          OneConnectionMissesNothing(from, lag, trace);
        }
      }
    } else if most > 0 {
      var lost := LostOverPostgres(lag);
      assert Within(most, 0, lag, lost);
    } else {
      var lost := MissedByTheStream(lag);
      assert Within(most, 0, lag, lost);
    }
  }

  /** So, however often it is interrupted, a call keeps both promises if and only if rows are visible at once. */
  lemma {:induction false} OnceIffVisibleAtOnce(lag: nat)
    ensures (forall most :: NeverTwice(lag, most)) <==> lag == 0
    ensures (forall most :: NeverMisses(lag, most)) <==> lag == 0
  {
    forall most: nat
      ensures NeverTwice(lag, most) <==> lag == 0 || most == 0
      ensures NeverMisses(lag, most) <==> lag == 0 || (most == 0 && lag <= P.SETTLE_WINDOW)
    {
      OnceIff(lag, most);
    }
    assert NeverTwice(lag, 1) <==> lag == 0;
    assert NeverMisses(lag, 1) <==> lag == 0;
  }

  // ------------------------------------------------ how far order goes back

  ghost predicate Between(lag: int, delay: int, trace: seq<P.State>, table: set<P.Row>, stream: P.Stream) {
    && P.IsRun(0, lag, trace)
    && var s := trace[|trace| - 1];
       s.now == delay && s.phase.Idle? && s.table == table && s.stream == stream
  }

  /** A row is committed, and then a poll reads it. */
  lemma CommitAndPoll(lag: int, delay: int, trace: seq<P.State>, table: set<P.Row>, stream: P.Stream,
                      row: P.Row, rows: seq<P.Row>)
    returns (longer: seq<P.State>)
    requires Between(lag, delay, trace, table, stream) && delay <= lag
    requires 0 <= row.recordedAt <= delay && forall r :: r in table ==> r.id != row.id
    requires P.IsQuery(rows, table + {row}, stream.cursor)
    ensures Between(lag, delay, longer, table + {row}, P.Advance(P.DeliverAll(stream, rows), delay))
  {
    var s := trace[|trace| - 1];
    var s' := s.(table := s.table + {row});
    assert P.Commit(lag, s, s', row);
    P.RunOn(0, lag, trace, [s, s']);
    var committed := trace + [s, s'][1..];
    longer := P.PollOnce(0, lag, committed, s', rows);
  }

  /** The stream has yielded a row of time `delay`. */
  lemma {:induction false} LaterFirst(lag: int, delay: int, a: P.Row) returns (trace: seq<P.State>)
    requires 0 < delay <= lag && delay <= P.SETTLE_WINDOW && a.recordedAt == delay
    ensures Between(lag, delay, trace, {a}, P.Stream(0, map[a.id := delay], [a]))
  {
    var s0 := P.Stream(0, map[], []);
    trace := [P.State(delay, {}, s0, P.Idle, [])];
    DeliverOne(s0, a);
    assert {} + {a} == {a};
    trace := CommitAndPoll(lag, delay, trace, {}, s0, a, [a]);
  }

  /** The firehose can emit a row recorded before one already emitted, by as much as the delay. */
  lemma {:induction false} EmissionGoesBack(lag: int, delay: int) returns (trace: seq<P.State>, a: P.Row, b: P.Row)
    requires 0 < delay <= lag && delay <= P.SETTLE_WINDOW
    ensures P.IsRun(0, lag, trace) && trace[|trace| - 1].stream.delivered == [a, b]
    ensures a.recordedAt - b.recordedAt == delay
  {
    a, b := P.Row(Cid(1), delay), P.Row(Cid(2), 0);
    var s1 := P.Stream(0, map[a.id := delay], [a]);
    trace := LaterFirst(lag, delay, a);
    DeliverBoth(s1, b, a);
    assert IsPair(b, a, {a} + {b});
    trace := CommitAndPoll(lag, delay, trace, {a}, s1, b, [b, a]);
  }

  /** The pair is the ordered listing of the two rows from time zero. */
  ghost predicate IsPair(one: P.Row, other: P.Row, rows: set<P.Row>) {
    P.IsQuery([one, other], rows, 0)
  }

  /** No run yields one row before another that was recorded the settle window or more earlier. */
  ghost predicate DisorderWithinWindow(lag: int) {
    forall from: int, trace: seq<P.State> :: P.IsRun(from, lag, trace) ==>
      ShortOfWindow(trace[|trace| - 1].stream.delivered)
  }

  ghost predicate ShortOfWindow(rows: seq<P.Row>) {
    forall i, j :: 0 <= i < j < |rows| ==> rows[i].recordedAt - rows[j].recordedAt < P.SETTLE_WINDOW
  }

  /** Disorder is strictly less than the settle window if and only if the delay is. */
  lemma DisorderWithinWindowIff(lag: nat)
    ensures DisorderWithinWindow(lag) <==> lag < P.SETTLE_WINDOW
  {
    if lag < P.SETTLE_WINDOW {
      forall from: int, trace: seq<P.State> | P.IsRun(from, lag, trace)
        ensures ShortOfWindow(trace[|trace| - 1].stream.delivered)
      {
        P.BoundedDisorder(from, lag, trace);
      }
    } else {
      var trace, a, b := EmissionGoesBack(lag, P.SETTLE_WINDOW);
      var d := trace[|trace| - 1].stream.delivered;
      assert d[0].recordedAt - d[1].recordedAt == P.SETTLE_WINDOW;
    }
  }
}
