// The Postgres firehose read from bytes: the stream's rows are printed as
// events, connections are cut at arbitrary bytes, and the scanner and the
// client read what arrives.

module PostgresDelivery {
  import opened Types
  import opened ClientStream
  import C = PostgresClient
  import E = EndToEnd
  import M = MemoryStore
  import P = PostgresStream
  import Sse
  import SsePrinter

  // ------------------------------------------------------------------ wire

  /** Rows as what the printer is handed; the number plays no part here. */
  function Sent(rows: seq<P.Row>): (sent: seq<M.Entry>)
    ensures |sent| == |rows|
    ensures forall i :: 0 <= i < |rows| ==> sent[i] == M.Entry(C.RecordOf(rows[i]), 0)
  {
    seq(|rows|, i requires 0 <= i < |rows| => M.Entry(C.RecordOf(rows[i]), 0))
  }

  function Body(codec: E.Codec, rows: seq<P.Row>): string {
    E.Body(codec, Sent(rows))
  }

  /** The codec carries these rows: each is printed on one line within the bounds, and read back. */
  ghost predicate Carries(codec: E.Codec, rows: set<P.Row>) {
    forall r :: r in rows ==> CarriesRow(codec, r)
  }

  ghost predicate CarriesRow(codec: E.Codec, r: P.Row) {
    SsePrinter.Printable(E.Message(codec, M.Entry(C.RecordOf(r), 0))) && E.Decodes(codec, C.RecordOf(r))
  }

  // ---------------------------------------------------------------- system

  /**
   * The stream of the current connection, the client as it was when that was
   * opened, at `asked`, and how many of its bytes have arrived.
   */
  datatype Net = Net(server: P.State, asked: int, client: Client, bytes: nat, reconnects: nat)

  ghost predicate InBounds(codec: E.Codec, s: Net) {
    s.bytes <= |Body(codec, s.server.stream.delivered)|
  }

  /** What the client has made of the bytes that have arrived. */
  function Reading(codec: E.Codec, s: Net): Conn
    requires InBounds(codec, s)
  {
    var rows := s.server.stream.delivered;
    Read(s.client, |rows| + 1, Sse.ScanAll(Body(codec, rows)[..s.bytes]), codec.decode)
  }

  ghost predicate Init(from: int, s: Net) {
    P.Init(from, s.server) && s == Net(s.server, from, Client(from, {}, []), 0, 0)
  }

  ghost predicate Serve(lag: int, s: Net, s': Net) {
    P.Next(lag, s.server, s'.server) && s' == s.(server := s'.server)
  }

  ghost predicate Arrive(codec: E.Codec, s: Net, s': Net) {
    s.bytes <= s'.bytes <= |Body(codec, s.server.stream.delivered)| && s' == s.(bytes := s'.bytes)
  }

  /** The connection is cut after any byte; the client keeps what it made of those before. */
  ghost predicate Reconnect(codec: E.Codec, s: Net, s': Net) {
    && InBounds(codec, s)
    && var client := Reading(codec, s).client;
       s' == Net(C.Begun(s.server.now, s.server.table, client.resume), client.resume, client, 0, s.reconnects + 1)
  }

  ghost predicate Next(codec: E.Codec, lag: int, s: Net, s': Net) {
    Serve(lag, s, s') || Arrive(codec, s, s') || Reconnect(codec, s, s')
  }

  ghost predicate IsRun(codec: E.Codec, from: int, lag: int, trace: seq<Net>) {
    && |trace| > 0 && Init(from, trace[0])
    && (forall i :: 0 <= i < |trace| - 1 ==> Next(codec, lag, trace[i], trace[i + 1]))
  }

  /** A run over rows the codec carries that has reconnected no more than `most` times. */
  ghost predicate Within(codec: E.Codec, most: nat, from: int, lag: int, trace: seq<Net>) {
    && IsRun(codec, from, lag, trace)
    && Carries(codec, trace[|trace| - 1].server.table) && trace[|trace| - 1].reconnects <= most
  }

  // ------------------------------------------------- bytes and records

  function Messages(codec: E.Codec, rows: seq<P.Row>): seq<SsePrinter.Message> {
    E.Messages(codec, Sent(rows))
  }

  /** How many rows have arrived whole. */
  function Arrived(codec: E.Codec, s: Net): (k: nat)
    ensures k <= |s.server.stream.delivered|
  {
    SsePrinter.Whole(Messages(codec, s.server.stream.delivered), s.bytes)
  }

  /** The state of the record-level system this is. */
  function Seen(codec: E.Codec, s: Net): C.Net {
    var k := Arrived(codec, s);
    C.Net(s.server, s.asked, EmitAll(s.client, C.Records(s.server.stream.delivered[..k])), k, s.reconnects)
  }

  lemma {:induction false} SentCarried(codec: E.Codec, rows: seq<P.Row>)
    requires forall r :: r in rows ==> CarriesRow(codec, r)
    ensures E.Carries(codec, Sent(rows))
  {
    forall e | e in Sent(rows)
      ensures SsePrinter.Printable(E.Message(codec, e)) && E.Decodes(codec, e.record)
    {
      var i :| 0 <= i < |rows| && Sent(rows)[i] == e;
      assert rows[i] in rows;
    }
  }

  lemma {:induction false} SameRecords(rows: seq<P.Row>, k: nat)
    requires k <= |rows|
    ensures E.Records(Sent(rows)[..k]) == C.Records(rows[..k])
  {
  }

  /** The client has made of the bytes what it makes of the rows that arrived whole. */
  lemma {:induction false} ReadingIsSeen(codec: E.Codec, s: Net)
    requires InBounds(codec, s) && forall r :: r in s.server.stream.delivered ==> CarriesRow(codec, r)
    ensures Reading(codec, s).client == Seen(codec, s).client && Reading(codec, s).ending == Ended
  {
    var rows := s.server.stream.delivered;
    var sent, k := Sent(rows), Arrived(codec, s);
    SentCarried(codec, rows);
    E.ScanBody(codec, sent, s.bytes);
    forall i | 0 <= i < k
      ensures E.Decodes(codec, sent[i].record)
    {
      assert rows[i] in rows;
    }
    E.ReadRecords(codec, s.client, sent[..k], |rows| + 1);
    SameRecords(rows, k);
  }

  // ---------------------------------------------- what arrives meanwhile

  lemma {:induction false} PiecesGrow(pieces: seq<string>, more: seq<string>, bytes: nat)
    requires bytes <= |SsePrinter.Concat(pieces)| && forall i :: 0 <= i < |more| ==> more[i] != ""
    ensures SsePrinter.WholePieces(pieces + more, bytes) == SsePrinter.WholePieces(pieces, bytes)
    decreases |pieces|
  {
    if pieces == [] {
      assert pieces + more == more;
    } else if bytes >= |pieces[0]| {
      assert (pieces + more)[1..] == pieces[1..] + more;
      PiecesGrow(pieces[1..], more, bytes - |pieces[0]|);
    }
  }

  /** More rows leave what has arrived as it was. */
  lemma {:induction false} ArrivedStays(codec: E.Codec, rows: seq<P.Row>, more: seq<P.Row>, bytes: nat)
    requires rows <= more && bytes <= |Body(codec, rows)|
    ensures bytes <= |Body(codec, more)|
    ensures SsePrinter.Whole(Messages(codec, more), bytes) == SsePrinter.Whole(Messages(codec, rows), bytes)
  {
    var rest := more[|rows|..];
    var pieces := SsePrinter.Printed(Messages(codec, rows));
    var others := SsePrinter.Printed(Messages(codec, rest));
    assert SsePrinter.Printed(Messages(codec, more)) == pieces + others;
    SsePrinter.ConcatAppend(pieces, others);
    PiecesGrow(pieces, others, bytes);
  }

  lemma {:induction false} PiecesWithin(pieces: seq<string>, k: nat)
    requires k <= |pieces| && forall i :: 0 <= i < |pieces| ==> pieces[i] != ""
    ensures |SsePrinter.Concat(pieces[..k])| <= |SsePrinter.Concat(pieces)|
    ensures SsePrinter.WholePieces(pieces, |SsePrinter.Concat(pieces[..k])|) == k
  {
    var first, rest := pieces[..k], pieces[k..];
    assert pieces == first + rest;
    SsePrinter.ConcatAppend(first, rest);
    PiecesGrow(first, rest, |SsePrinter.Concat(first)|);
    SsePrinter.AllPiecesWhole(first);
  }

  /** After the bytes of the first `k` rows, those have arrived. */
  lemma {:induction false} ArrivedAfter(codec: E.Codec, rows: seq<P.Row>, k: nat)
    requires k <= |rows|
    ensures |Body(codec, rows[..k])| <= |Body(codec, rows)|
    ensures SsePrinter.Whole(Messages(codec, rows), |Body(codec, rows[..k])|) == k
  {
    var pieces := SsePrinter.Printed(Messages(codec, rows));
    assert SsePrinter.Printed(Messages(codec, rows[..k])) == pieces[..k];
    PiecesWithin(pieces, k);
  }

  lemma {:induction false} MoreArrives(pieces: seq<string>, bytes: nat, more: nat)
    requires bytes <= more
    ensures SsePrinter.WholePieces(pieces, bytes) <= SsePrinter.WholePieces(pieces, more)
    decreases |pieces|
  {
    if pieces == [] {
    } else if bytes >= |pieces[0]| {
      MoreArrives(pieces[1..], bytes - |pieces[0]|, more - |pieces[0]|);
    }
  }

  // -------------------------------------------- from bytes to records

  /** What the record-level system receives when bytes arrive. */
  lemma {:induction false} ReceivesUpTo(from: int, lag: int, trace: seq<C.Net>, s: C.Net, client: Client, k: nat)
    returns (longer: seq<C.Net>)
    requires C.IsRun(from, lag, trace) && s == trace[|trace| - 1]
    requires s.got <= k <= |s.server.stream.delivered|
    requires s.client == EmitAll(client, C.Records(s.server.stream.delivered[..s.got]))
    ensures C.IsRun(from, lag, longer)
    ensures longer[|longer| - 1]
         == s.(client := EmitAll(client, C.Records(s.server.stream.delivered[..k])), got := k)
    decreases k - s.got
  {
    if s.got == k {
      longer := trace;
    } else {
      var rows := s.server.stream.delivered;
      C.EmitAllMore(client, rows, s.got);
      var next := EmitAll(client, C.Records(rows[..s.got + 1]));
      longer := C.ReceiveOne(from, lag, trace, s, next);
      longer := ReceivesUpTo(from, lag, longer, s.(client := next, got := s.got + 1), client, k);
    }
  }

  ghost predicate Bound(codec: E.Codec, s: Net) {
    InBounds(codec, s) && P.OnceInv(s.server)
  }

  lemma {:induction false} NextKeepsBound(codec: E.Codec, lag: int, s: Net, s': Net)
    requires Bound(codec, s) && Next(codec, lag, s, s')
    ensures Bound(codec, s') && s.server.table <= s'.server.table
  {
    if Serve(lag, s, s') {
      P.NextKeepsOnce(lag, s.server, s'.server);
      C.ServedGrows(lag, s.server, s'.server);
      ArrivedStays(codec, s.server.stream.delivered, s'.server.stream.delivered, s.bytes);
    }
  }

  lemma {:induction false} RunKeepsBound(codec: E.Codec, from: int, lag: int, trace: seq<Net>, i: nat)
    requires IsRun(codec, from, lag, trace) && i < |trace|
    ensures Bound(codec, trace[i])
  {
    if i == 0 {
    } else {
      RunKeepsBound(codec, from, lag, trace, i - 1);
      assert Next(codec, lag, trace[i - 1], trace[i - 1 + 1]);
      NextKeepsBound(codec, lag, trace[i - 1], trace[i]);
    }
  }

  lemma {:induction false} DeliveredCarried(codec: E.Codec, s: Net)
    requires Bound(codec, s) && Carries(codec, s.server.table)
    ensures forall r :: r in s.server.stream.delivered ==> CarriesRow(codec, r)
  {
  }

  /** One step of the byte-level system, in the record-level one. */
  lemma {:induction false} StepSeen(codec: E.Codec, from: int, lag: int, s: Net, s': Net, trace: seq<C.Net>)
    returns (longer: seq<C.Net>)
    requires Bound(codec, s) && Carries(codec, s.server.table) && Next(codec, lag, s, s')
    requires C.IsRun(from, lag, trace) && trace[|trace| - 1] == Seen(codec, s)
    ensures C.IsRun(from, lag, longer) && longer[|longer| - 1] == Seen(codec, s')
  {
    if Serve(lag, s, s') {
      ServeSeen(codec, lag, s, s');
      longer := C.RunOn(from, lag, trace, Seen(codec, s'));
    } else if Arrive(codec, s, s') {
      MoreArrives(SsePrinter.Printed(Messages(codec, s.server.stream.delivered)), s.bytes, s'.bytes);
      longer := ReceivesUpTo(from, lag, trace, Seen(codec, s), s.client, Arrived(codec, s'));
    } else {
      DeliveredCarried(codec, s);
      ReadingIsSeen(codec, s);
      BegunSeen(codec, s');
      assert C.Reconnect(Seen(codec, s), Seen(codec, s'));
      longer := C.RunOn(from, lag, trace, Seen(codec, s'));
    }
  }

  lemma {:induction false} ServeSeen(codec: E.Codec, lag: int, s: Net, s': Net)
    requires Bound(codec, s) && Serve(lag, s, s')
    ensures C.Serve(lag, Seen(codec, s), Seen(codec, s'))
  {
    var rows, more := s.server.stream.delivered, s'.server.stream.delivered;
    C.ServedGrows(lag, s.server, s'.server);
    ArrivedStays(codec, rows, more, s.bytes);
    assert more[..Arrived(codec, s)] == rows[..Arrived(codec, s)];
  }

  /** A connection from which nothing has arrived. */
  lemma {:induction false} BegunSeen(codec: E.Codec, s: Net)
    requires s.server.stream.delivered == []
    ensures Seen(codec, s) == C.Net(s.server, s.asked, s.client, 0, s.reconnects)
  {
    assert C.Records(s.server.stream.delivered[..0]) == [];
  }

  lemma {:induction false} CarriedBefore(codec: E.Codec, from: int, lag: int, trace: seq<Net>, i: nat)
    requires IsRun(codec, from, lag, trace) && i < |trace| - 1 && Bound(codec, trace[i])
    requires Carries(codec, trace[i + 1].server.table)
    ensures Carries(codec, trace[i].server.table)
  {
    assert Next(codec, lag, trace[i], trace[i + 1]);
    NextKeepsBound(codec, lag, trace[i], trace[i + 1]);
  }

  lemma {:induction false} OneMoreSeen(
      codec: E.Codec, from: int, lag: int, trace: seq<Net>, i: nat, seen: seq<C.Net>)
    returns (longer: seq<C.Net>)
    requires IsRun(codec, from, lag, trace) && i < |trace| - 1
    requires Bound(codec, trace[i]) && Carries(codec, trace[i].server.table)
    requires C.IsRun(from, lag, seen) && seen[|seen| - 1] == Seen(codec, trace[i])
    ensures C.IsRun(from, lag, longer) && longer[|longer| - 1] == Seen(codec, trace[i + 1])
  {
    assert Next(codec, lag, trace[i], trace[i + 1]);
    longer := StepSeen(codec, from, lag, trace[i], trace[i + 1], seen);
  }

  /** Every byte-level run is a record-level one. */
  lemma {:induction false} RunSeen(codec: E.Codec, from: int, lag: int, trace: seq<Net>, i: nat)
    returns (seen: seq<C.Net>)
    requires IsRun(codec, from, lag, trace) && i < |trace| && Carries(codec, trace[i].server.table)
    ensures C.IsRun(from, lag, seen) && seen[|seen| - 1] == Seen(codec, trace[i])
  {
    if i == 0 {
      BegunSeen(codec, trace[0]);
      seen := [Seen(codec, trace[0])];
    } else {
      RunKeepsBound(codec, from, lag, trace, i - 1);
      CarriedBefore(codec, from, lag, trace, i - 1);
      seen := RunSeen(codec, from, lag, trace, i - 1);
      seen := OneMoreSeen(codec, from, lag, trace, i - 1, seen);
    }
  }

  // -------------------------------------------- from records to bytes

  lemma {:induction false} RunOn(codec: E.Codec, from: int, lag: int, trace: seq<Net>, s': Net)
    returns (longer: seq<Net>)
    requires IsRun(codec, from, lag, trace) && Next(codec, lag, trace[|trace| - 1], s')
    ensures IsRun(codec, from, lag, longer) && longer[|longer| - 1] == s'
  {
    longer := trace + [s'];
    forall i | 0 <= i < |longer| - 1
      ensures Next(codec, lag, longer[i], longer[i + 1])
    {
      if i < |trace| - 1 {
        assert Next(codec, lag, trace[i], trace[i + 1]);
      }
    }
  }

  /** Exactly the bytes of the rows received have arrived. */
  ghost predicate OnTheDot(codec: E.Codec, s: Net, seen: C.Net) {
    && Seen(codec, s) == seen && seen.got <= |seen.server.stream.delivered|
    && s.bytes == |Body(codec, seen.server.stream.delivered[..seen.got])|
  }

  lemma {:induction false} ServeOnTheDot(codec: E.Codec, lag: int, s: Net, seen: C.Net, seen': C.Net)
    returns (s': Net)
    requires Bound(codec, s) && OnTheDot(codec, s, seen) && C.Serve(lag, seen, seen')
    ensures Serve(lag, s, s') && OnTheDot(codec, s', seen')
  {
    s' := s.(server := seen'.server);
    ServeSeen(codec, lag, s, s');
    C.ServedGrows(lag, s.server, s'.server);
    assert seen'.server.stream.delivered[..seen.got] == seen.server.stream.delivered[..seen.got];
  }

  lemma {:induction false} ReceiveOnTheDot(codec: E.Codec, s: Net, seen: C.Net, seen': C.Net) returns (s': Net)
    requires Bound(codec, s) && OnTheDot(codec, s, seen) && C.Receive(seen, seen')
    ensures Arrive(codec, s, s') && OnTheDot(codec, s', seen')
  {
    var rows, k := s.server.stream.delivered, seen.got;
    ArrivedAfter(codec, rows, k);
    ArrivedAfter(codec, rows, k + 1);
    assert rows[..k + 1][..k] == rows[..k];
    ArrivedAfter(codec, rows[..k + 1], k);
    C.EmitAllMore(s.client, rows, k);
    s' := s.(bytes := |Body(codec, rows[..k + 1])|);
  }

  lemma {:induction false} ReconnectOnTheDot(codec: E.Codec, s: Net, seen: C.Net, seen': C.Net) returns (s': Net)
    requires Bound(codec, s) && Carries(codec, s.server.table)
    requires OnTheDot(codec, s, seen) && C.Reconnect(seen, seen')
    ensures Reconnect(codec, s, s') && OnTheDot(codec, s', seen')
  {
    DeliveredCarried(codec, s);
    ReadingIsSeen(codec, s);
    s' := Net(seen'.server, seen'.asked, seen'.client, 0, seen'.reconnects);
    BegunSeen(codec, s');
    assert seen'.server.stream.delivered[..0] == [] && Body(codec, []) == "";
  }

  /** One step of the record-level system, in the byte-level one. */
  lemma {:induction false} StepOnTheDot(codec: E.Codec, lag: int, s: Net, seen: C.Net, seen': C.Net) returns (s': Net)
    requires Bound(codec, s) && Carries(codec, s.server.table)
    requires OnTheDot(codec, s, seen) && C.Next(lag, seen, seen')
    ensures Next(codec, lag, s, s') && OnTheDot(codec, s', seen')
  {
    if C.Serve(lag, seen, seen') {
      s' := ServeOnTheDot(codec, lag, s, seen, seen');
    } else if C.Receive(seen, seen') {
      s' := ReceiveOnTheDot(codec, s, seen, seen');
    } else {
      s' := ReconnectOnTheDot(codec, s, seen, seen');
    }
  }

  lemma {:induction false} StartOnTheDot(codec: E.Codec, from: int, seen: C.Net) returns (s: Net)
    requires C.Init(from, seen)
    ensures Init(from, s) && OnTheDot(codec, s, seen)
  {
    s := Net(seen.server, from, seen.client, 0, 0);
    BegunSeen(codec, s);
    assert seen.server.stream.delivered[..0] == [] && Body(codec, []) == "";
  }

  /** Every record-level run is the view of a byte-level one. */
  lemma {:induction false} RunInBytes(codec: E.Codec, from: int, lag: int, seen: seq<C.Net>, i: nat)
    returns (trace: seq<Net>)
    requires C.IsRun(from, lag, seen) && i < |seen| && Carries(codec, seen[i].server.table)
    ensures IsRun(codec, from, lag, trace) && OnTheDot(codec, trace[|trace| - 1], seen[i])
  {
    if i == 0 {
      var s := StartOnTheDot(codec, from, seen[0]);
      trace := [s];
    } else {
      assert C.Next(lag, seen[i - 1], seen[i - 1 + 1]);
      TableGrows(lag, seen[i - 1], seen[i]);
      trace := RunInBytes(codec, from, lag, seen, i - 1);
      trace := OneMoreInBytes(codec, from, lag, trace, seen[i - 1], seen[i]);
    }
  }

  lemma {:induction false} OneMoreInBytes(
      codec: E.Codec, from: int, lag: int, trace: seq<Net>, seen: C.Net, seen': C.Net)
    returns (longer: seq<Net>)
    requires IsRun(codec, from, lag, trace) && OnTheDot(codec, trace[|trace| - 1], seen)
    requires Carries(codec, seen.server.table) && C.Next(lag, seen, seen')
    ensures IsRun(codec, from, lag, longer) && OnTheDot(codec, longer[|longer| - 1], seen')
  {
    RunKeepsBound(codec, from, lag, trace, |trace| - 1);
    var s' := StepOnTheDot(codec, lag, trace[|trace| - 1], seen, seen');
    longer := RunOn(codec, from, lag, trace, s');
  }

  lemma {:induction false} TableGrows(lag: int, s: C.Net, s': C.Net)
    requires C.Next(lag, s, s')
    ensures s.server.table <= s'.server.table
  {
  }

  // ------------------------------------------------------------- delivery

  /** The connection's stream has completed a poll, and all its bytes have arrived. */
  ghost predicate CaughtUp(codec: E.Codec, s: Net) {
    && !s.server.phase.Reading? && s.server.polls != []
    && s.bytes == |Body(codec, s.server.stream.delivered)|
  }

  ghost predicate MissesNothing(codec: E.Codec, from: int, s: Net)
    requires InBounds(codec, s)
  {
    CaughtUp(codec, s) ==>
      forall r :: r in s.server.polls[|s.server.polls| - 1].snapshot && r.recordedAt >= from ==>
        C.RecordOf(r) in Reading(codec, s).client.yielded
  }

  ghost predicate NeverTwice(codec: E.Codec, lag: int, most: nat) {
    forall from: int, trace: seq<Net> ::
      Within(codec, most, from, lag, trace) ==> YieldsOnce(codec, trace[|trace| - 1])
  }

  ghost predicate YieldsOnce(codec: E.Codec, s: Net) {
    InBounds(codec, s) && DistinctCauses(Reading(codec, s).client.yielded)
  }

  ghost predicate NeverMisses(codec: E.Codec, lag: int, most: nat) {
    forall from: int, trace: seq<Net> ::
      Within(codec, most, from, lag, trace) ==> YieldsAll(codec, from, trace[|trace| - 1])
  }

  ghost predicate YieldsAll(codec: E.Codec, from: int, s: Net) {
    InBounds(codec, s) && MissesNothing(codec, from, s)
  }

  /** What holds of the record-level state holds of the bytes. */
  lemma {:induction false} StateTells(codec: E.Codec, from: int, s: Net)
    requires Bound(codec, s) && Carries(codec, s.server.table)
    ensures DistinctCauses(Seen(codec, s).client.yielded) <==> YieldsOnce(codec, s)
    ensures C.MissesNothing(from, Seen(codec, s)) ==> YieldsAll(codec, from, s)
  {
    DeliveredCarried(codec, s);
    ReadingIsSeen(codec, s);
    if CaughtUp(codec, s) {
      SsePrinter.AllWhole(Messages(codec, s.server.stream.delivered));
    }
  }

  /** And what is missed there is missed in the bytes. */
  lemma {:induction false} StateMisses(codec: E.Codec, from: int, s: Net, seen: C.Net)
    requires Bound(codec, s) && Carries(codec, s.server.table) && OnTheDot(codec, s, seen)
    ensures YieldsAll(codec, from, s) ==> C.MissesNothing(from, seen)
  {
    DeliveredCarried(codec, s);
    ReadingIsSeen(codec, s);
    if C.CaughtUp(seen) {
      var rows := s.server.stream.delivered;
      assert rows[..|rows|] == rows;
    }
  }

  lemma {:induction false} SeenTells(codec: E.Codec, most: nat, from: int, lag: int, trace: seq<Net>)
    returns (seen: seq<C.Net>)
    requires Within(codec, most, from, lag, trace)
    ensures C.Within(most, from, lag, seen)
    ensures DistinctCauses(seen[|seen| - 1].client.yielded) ==> YieldsOnce(codec, trace[|trace| - 1])
    ensures C.MissesNothing(from, seen[|seen| - 1]) ==> YieldsAll(codec, from, trace[|trace| - 1])
  {
    seen := RunSeen(codec, from, lag, trace, |trace| - 1);
    RunKeepsBound(codec, from, lag, trace, |trace| - 1);
    StateTells(codec, from, trace[|trace| - 1]);
  }

  lemma {:induction false} FailsInBytes(codec: E.Codec, most: nat, from: int, lag: int, seen: seq<C.Net>)
    returns (trace: seq<Net>)
    requires C.Within(most, from, lag, seen) && Carries(codec, seen[|seen| - 1].server.table)
    ensures Within(codec, most, from, lag, trace)
    ensures !DistinctCauses(seen[|seen| - 1].client.yielded) ==> !YieldsOnce(codec, trace[|trace| - 1])
    ensures !C.MissesNothing(from, seen[|seen| - 1]) ==> !YieldsAll(codec, from, trace[|trace| - 1])
  {
    trace := RunInBytes(codec, from, lag, seen, |seen| - 1);
    RunKeepsBound(codec, from, lag, trace, |trace| - 1);
    StateTells(codec, from, trace[|trace| - 1]);
    StateMisses(codec, from, trace[|trace| - 1], seen[|seen| - 1]);
  }

  /** The rows the failing runs are about. */
  ghost predicate CarriesExamples(codec: E.Codec) {
    Carries(codec, {C.LATE, C.EARLY}) && Carries(codec, {P.LATE})
  }

  /**
   * The exact conditions, from bytes up: over the Postgres firehose, one Stream
   * call whose connections are cut at any bytes, `most` times at most, never
   * yields a revocation twice if and only if rows are visible as soon as they
   * are recorded or it does not reconnect; and it never misses one if and only
   * if rows are visible at once, or it does not reconnect and rows are visible
   * within the settle window.
   */
  lemma OnceInBytesIff(codec: E.Codec, lag: nat, most: nat)
    requires CarriesExamples(codec)
    ensures NeverTwice(codec, lag, most) <==> lag == 0 || most == 0
    ensures NeverMisses(codec, lag, most) <==> lag == 0 || (most == 0 && lag <= P.SETTLE_WINDOW)
  {
    NeverTwiceIff(codec, lag, most);
    NeverMissesIff(codec, lag, most);
  }

  lemma {:induction false} NeverTwiceIff(codec: E.Codec, lag: nat, most: nat)
    requires CarriesExamples(codec)
    ensures NeverTwice(codec, lag, most) <==> lag == 0 || most == 0
  {
    C.NeverTwiceIff(lag, most);
    if lag == 0 || most == 0 {
      forall from: int, trace: seq<Net> | Within(codec, most, from, lag, trace)
        ensures YieldsOnce(codec, trace[|trace| - 1])
      {
        var seen := SeenTells(codec, most, from, lag, trace);
      }
    } else {
      var twice := C.OnceFailsOverPostgres(lag);
      var trace := FailsInBytes(codec, most, 0, lag, twice);
    }
  }

  lemma {:induction false} NeverMissesIff(codec: E.Codec, lag: nat, most: nat)
    requires CarriesExamples(codec)
    ensures NeverMisses(codec, lag, most) <==> lag == 0 || (most == 0 && lag <= P.SETTLE_WINDOW)
  {
    C.NeverMissesIff(lag, most);
    if lag == 0 || (most == 0 && lag <= P.SETTLE_WINDOW) {
      forall from: int, trace: seq<Net> | Within(codec, most, from, lag, trace)
        ensures YieldsAll(codec, from, trace[|trace| - 1])
      {
        var seen := SeenTells(codec, most, from, lag, trace);
      }
    } else if most > 0 {
      var lost := C.LostOverPostgres(lag);
      var trace := FailsInBytes(codec, most, 0, lag, lost);
    } else {
      var lost := C.MissedByTheStream(lag);
      var trace := FailsInBytes(codec, most, 0, lag, lost);
    }
  }
}
