// The polling firehose of pkg/store/postgres/store.go: a low-water cursor that
// advances only through settled history, and a pruned map of delivered rows.

module PostgresStream {
  import opened Types

  // streamSettleWindow, in nanoseconds.
  const SETTLE_WINDOW: int := 10_000_000_000

  /** What a row of the table is to the stream: its key and its record time. */
  datatype Row = Row(id: Cid, recordedAt: int)

  // ---------------------------------------------------------------- query

  ghost predicate Before(a: Row, b: Row) {
    a.recordedAt < b.recordedAt || (a.recordedAt == b.recordedAt && a.id.rank < b.id.rank)
  }

  /** Sorted by record time and then id. */
  ghost predicate Ordered(rows: seq<Row>) {
    forall i, j :: 0 <= i < j < |rows| ==> Before(rows[i], rows[j])
  }

  /** The answer to recordsFrom's query on one snapshot of the table. */
  ghost predicate IsQuery(rows: seq<Row>, snapshot: set<Row>, cursor: int) {
    && Ordered(rows)
    && (forall r :: r in rows <==> r in snapshot && r.recordedAt >= cursor)
  }

  lemma {:induction false} InsertedInOrder(rows: seq<Row>, row: Row, i: nat)
    requires Ordered(rows) && i <= |rows|
    requires forall k :: 0 <= k < i ==> Before(rows[k], row)
    requires i < |rows| ==> Before(row, rows[i])
    ensures
      var sorted := rows[..i] + [row] + rows[i..];
      Ordered(sorted) && forall r :: r in sorted <==> r in rows || r == row
  {
    var sorted := rows[..i] + [row] + rows[i..];
    assert rows == rows[..i] + rows[i..];
    forall j, k | 0 <= j < k < |sorted|
      ensures Before(sorted[j], sorted[k])
    {
      assert i < |rows| && k > i ==> rows[i] == rows[k - 1] || Before(rows[i], rows[k - 1]);
    }
  }

  /** One step of ORDER BY: places a row whose id no other has. */
  method InsertRow(rows: seq<Row>, row: Row) returns (sorted: seq<Row>)
    requires Ordered(rows) && forall r :: r in rows ==> r.id != row.id
    ensures Ordered(sorted) && forall r :: r in sorted <==> r in rows || r == row
  {
    var i := 0;
    while i < |rows| && (rows[i].recordedAt < row.recordedAt
                         || (rows[i].recordedAt == row.recordedAt && rows[i].id.rank < row.id.rank))
      invariant 0 <= i <= |rows|
      invariant forall k :: 0 <= k < i ==> Before(rows[k], row)
    {
      i := i + 1;
    }
    if i < |rows| {
      assert rows[i] in rows;
      assert rows[i].id.rank != row.id.rank;
    }
    InsertedInOrder(rows, row, i);
    sorted := rows[..i] + [row] + rows[i..];
  }

  /** Every snapshot has an answer, found here by inserting one row at a time. */
  method RecordsFrom(snapshot: set<Row>, cursor: int) returns (rows: seq<Row>)
    requires UniqueIds(snapshot)
    ensures IsQuery(rows, snapshot, cursor)
    ensures forall r :: r in rows <==> r in snapshot && r.recordedAt >= cursor
    ensures forall i, j :: 0 <= i < j < |rows| ==>
      rows[i].recordedAt < rows[j].recordedAt
      || (rows[i].recordedAt == rows[j].recordedAt && rows[i].id.rank < rows[j].id.rank)
  {
    rows := [];
    var todo := snapshot;
    while todo != {}
      invariant todo <= snapshot
      invariant IsQuery(rows, snapshot - todo, cursor)
      decreases todo
    {
      var row :| row in todo;
      if row.recordedAt >= cursor {
        rows := InsertRow(rows, row);
      }
      todo := todo - {row};
    }
  }

  /** Two ordered listings of the same rows are the same listing. */
  lemma {:induction false} OrderedUnique(a: seq<Row>, b: seq<Row>)
    requires Ordered(a) && Ordered(b)
    requires forall r :: r in a <==> r in b
    ensures a == b
    decreases |a|
  {
    assert a != [] ==> a[0] in a && a[0] in b;
    assert b != [] ==> b[0] in b && b[0] in a;
    if a == [] {
    } else {
      assert a[0] == b[0];
      forall r
        ensures r in a[1..] <==> r in b[1..]
      {
        if r in a[1..] {
          assert r in a && Before(a[0], r);
        }
        if r in b[1..] {
          assert r in b && Before(b[0], r);
        }
      }
      OrderedUnique(a[1..], b[1..]);
    }
  }

  // --------------------------------------------------------------- stream

  /** The local variables of Stream, and what it has yielded. */
  datatype Stream = Stream(cursor: int, seen: map<Cid, int>, delivered: seq<Row>)

  /** One row of a poll: skipped when seen, otherwise yielded and remembered. */
  function Deliver(s: Stream, row: Row): Stream {
    if row.id in s.seen then s
    else Stream(s.cursor, s.seen[row.id := row.recordedAt], s.delivered + [row])
  }

  /** The end of a poll: the cursor moves up to the horizon and drops what is below it. */
  function Advance(s: Stream, dbNow: int): Stream {
    var horizon := dbNow - SETTLE_WINDOW;
    if horizon > s.cursor
    then Stream(horizon, map id | id in s.seen && s.seen[id] >= horizon :: s.seen[id], s.delivered)
    else s
  }

  function DeliverAll(s: Stream, rows: seq<Row>): Stream
    decreases |rows|
  {
    if rows == [] then s else DeliverAll(Deliver(s, rows[0]), rows[1..])
  }

  lemma {:induction false} DeliverAllGrows(s: Stream, rows: seq<Row>)
    ensures s.delivered <= DeliverAll(s, rows).delivered
    decreases |rows|
  {
    if rows == [] {
    } else {
      DeliverAllGrows(Deliver(s, rows[0]), rows[1..]);
    }
  }

  /** What rows bring to the map: those newly yielded, under their ids. */
  lemma {:induction false} DeliverAllSeen(s: Stream, rows: seq<Row>)
    ensures
      var all := DeliverAll(s, rows);
      && s.delivered <= all.delivered && all.cursor == s.cursor
      && (forall id :: id in s.seen ==> id in all.seen && all.seen[id] == s.seen[id])
      && (forall id :: id in all.seen && id !in s.seen ==> Row(id, all.seen[id]) in all.delivered[|s.delivered|..])
      && (forall r :: r in all.delivered[|s.delivered|..] ==>
            r in rows && r.id !in s.seen && r.id in all.seen && all.seen[r.id] == r.recordedAt)
    decreases |rows|
  {
    if rows == [] {
    } else {
      var next := Deliver(s, rows[0]);
      var all := DeliverAll(s, rows);
      DeliverAllSeen(next, rows[1..]);
      if rows[0].id !in s.seen {
        assert all.delivered[|s.delivered|] == next.delivered[|s.delivered|] == rows[0];
        assert all.delivered[|s.delivered|..] == [rows[0]] + all.delivered[|next.delivered|..];
      }
    }
  }

  /** Of what was seen, and of what was yielded since, `now` holds exactly what is not below `low`, if that is given. */
  ghost predicate Keeps(seen: map<Cid, int>, yielded: seq<Row>, low: Option<int>, now: map<Cid, int>) {
    && (forall id :: id in now ==> (id in seen && seen[id] == now[id]) || Row(id, now[id]) in yielded)
    && (forall id :: id in seen ==> (id in now <==> low == None || seen[id] >= low.value))
    && (forall r :: r in yielded ==> (r.id in now <==> low == None || r.recordedAt >= low.value))
  }

  lemma {:induction false} PollSettles(s: Stream, rows: seq<Row>, dbNow: int)
    ensures
      var s', horizon := Advance(DeliverAll(s, rows), dbNow), dbNow - SETTLE_WINDOW;
      && s.delivered <= s'.delivered
      && s'.cursor == (if horizon > s.cursor then horizon else s.cursor)
      && Keeps(s.seen, s'.delivered[|s.delivered|..], if horizon > s.cursor then Some(horizon) else None, s'.seen)
  {
    DeliverAllSeen(s, rows);
  }

  /** How a turn of the loop ends: with a completed poll, or with the stream over. */
  datatype PollEnd = Polled | ConsumerStopped | QueryFailed

  class Firehose {
    var cursor: int
    var seen: map<Cid, int>
    ghost var delivered: seq<Row>  // what has been yielded

    ghost function Value(): Stream
      reads this
    {
      Stream(cursor, seen, delivered)
    }

    constructor (from: int)
      ensures Value() == Stream(from, map[], [])
    {
      cursor, seen, delivered := from, map[], [];
    }

    /** The loop that drops from the map what is below the cursor. */
    method Prune()
      modifies this`seen
      ensures seen == map id | id in old(seen) && old(seen)[id] >= cursor :: old(seen)[id]
    {
      var links := seen.Keys;
      while links != {}
        invariant links <= old(seen).Keys && seen.Keys <= old(seen).Keys
        invariant forall id :: id in old(seen) ==> (id in seen <==> id in links || old(seen)[id] >= cursor)
        invariant forall id :: id in seen ==> seen[id] == old(seen)[id]
        decreases links
      {
        var link :| link in links;
        if seen[link] < cursor {
          seen := seen - {link};
        }
        links := links - {link};
      }
    }

    /**
     * One turn of the polling loop, given the clock it read and the rows it
     * then read, after which the query may fail. The consumer takes `patience`
     * more rows and stops with the last of them.
     */
    method Poll(dbNow: int, rows: seq<Row>, queryFails: bool, patience: nat) returns (end: PollEnd)
      requires patience > 0
      modifies this
      ensures
        var all := DeliverAll(old(Value()), rows);
        var wanted := |all.delivered| - |old(delivered)|;
        && (end == ConsumerStopped <==> wanted >= patience)
        && (end == QueryFailed <==> wanted < patience && queryFails)
        && (end == Polled ==> Value() == Advance(all, dbNow))
        && (end == QueryFailed ==> Value() == all)
        && (end == ConsumerStopped ==> delivered == all.delivered[..|old(delivered)| + patience])
      ensures end == Polled ==>
        var horizon := dbNow - SETTLE_WINDOW;
        && cursor == (if horizon > old(cursor) then horizon else old(cursor))
        && old(delivered) <= delivered
        && Keeps(old(seen), delivered[|old(delivered)|..], if horizon > old(cursor) then Some(horizon) else None, seen)
    {
      var i, taken := 0, 0;
      while i < |rows|
        invariant 0 <= i <= |rows| && taken < patience
        invariant |delivered| == |old(delivered)| + taken
        invariant DeliverAll(Value(), rows[i..]) == DeliverAll(old(Value()), rows)
      {
        var rec := rows[i];
        assert rows[i..][1..] == rows[i + 1..];
        i := i + 1;
        if rec.id in seen {
          continue;
        }
        ghost var next := Deliver(Value(), rec);
        delivered := delivered + [rec];
        taken := taken + 1;
        if taken == patience {
          DeliverAllGrows(next, rows[i..]);
          return ConsumerStopped;
        }
        seen := seen[rec.id := rec.recordedAt];
      }
      if queryFails {
        return QueryFailed;
      }
      var horizon := dbNow - SETTLE_WINDOW;
      if horizon > cursor {
        cursor := horizon;
        Prune();
      }
      PollSettles(old(Value()), rows, dbNow);
      return Polled;
    }
  }

  // ------------------------------------------------- transition system

  /** A completed or current poll: when its snapshot was taken, what that showed, what it yielded. */
  datatype Poll = Poll(at: int, snapshot: set<Row>, yielded: seq<Row>)

  datatype Phase =
    | Idle
    | Clocked(dbNow: int)
    | Reading(dbNow: int, pending: seq<Row>, poll: Poll)

  datatype State = State(now: int, table: set<Row>, stream: Stream, phase: Phase, polls: seq<Poll>)

  ghost predicate UniqueIds(table: set<Row>) {
    forall r, q :: r in table && q in table && r.id == q.id ==> r == q
  }

  ghost predicate Init(from: int, s: State) {
    && UniqueIds(s.table)
    && (forall r :: r in s.table ==> r.recordedAt <= s.now)
    && s.stream == Stream(from, map[], [])
    && s.phase == Idle && s.polls == []
  }

  ghost predicate Tick(s: State, s': State) {
    s'.now >= s.now && s' == s.(now := s'.now)
  }

  /** A row becomes visible, at most `lag` after its record time. An id already stored is left alone. */
  ghost predicate Commit(lag: int, s: State, s': State, row: Row) {
    && row.recordedAt <= s.now <= row.recordedAt + lag
    && (forall r :: r in s.table ==> r.id != row.id)
    && s' == s.(table := s.table + {row})
  }

  ghost predicate ReadClock(s: State, s': State) {
    s.phase.Idle? && s' == s.(phase := Clocked(s.now))
  }

  ghost predicate Snapshot(s: State, s': State, rows: seq<Row>) {
    && s.phase.Clocked?
    && IsQuery(rows, s.table, s.stream.cursor)
    && s' == s.(phase := Reading(s.phase.dbNow, rows, Poll(s.now, s.table, [])))
  }

  ghost predicate DeliverNext(s: State, s': State) {
    && s.phase.Reading? && s.phase.pending != []
    && var row, poll := s.phase.pending[0], s.phase.poll;
       var stream := Deliver(s.stream, row);
       var yielded := if stream == s.stream then poll.yielded else poll.yielded + [row];
       s' == s.(stream := stream,
                phase := Reading(s.phase.dbNow, s.phase.pending[1..], poll.(yielded := yielded)))
  }

  ghost predicate FinishPoll(s: State, s': State) {
    && s.phase.Reading? && s.phase.pending == []
    && s' == s.(stream := Advance(s.stream, s.phase.dbNow), phase := Idle, polls := s.polls + [s.phase.poll])
  }

  ghost predicate Next(lag: int, s: State, s': State) {
    || Tick(s, s')
    || (exists row :: Commit(lag, s, s', row))
    || ReadClock(s, s')
    || (exists rows :: Snapshot(s, s', rows))
    || DeliverNext(s, s')
    || FinishPoll(s, s')
  }

  ghost predicate IsRun(from: int, lag: int, trace: seq<State>) {
    && |trace| > 0
    && Init(from, trace[0])
    && (forall i :: 0 <= i < |trace| - 1 ==> Next(lag, trace[i], trace[i + 1]))
  }

  /** One more poll has completed, with this snapshot. */
  ghost predicate PolledOnce(polls: seq<Poll>, polls': seq<Poll>, snapshot: set<Row>) {
    |polls'| == |polls| + 1 && polls <= polls' && polls'[|polls|].snapshot == snapshot
  }

  /** What Firehose.Poll does at once is what the steps of the system do, whatever else happens between them. */
  lemma {:induction false} StepsDoPoll(lag: int, s: State) returns (trace: seq<State>)
    requires s.phase.Reading?
    ensures |trace| > 0 && trace[0] == s
    ensures forall i :: 0 <= i < |trace| - 1 ==> Next(lag, trace[i], trace[i + 1])
    ensures trace[|trace| - 1].phase.Idle?
    ensures trace[|trace| - 1].table == s.table && trace[|trace| - 1].now == s.now
    ensures trace[|trace| - 1].stream == Advance(DeliverAll(s.stream, s.phase.pending), s.phase.dbNow)
    ensures PolledOnce(s.polls, trace[|trace| - 1].polls, s.phase.poll.snapshot)
    decreases |s.phase.pending|
  {
    var Reading(dbNow, pending, poll) := s.phase;
    if pending == [] {
      var s' := s.(stream := Advance(s.stream, dbNow), phase := Idle, polls := s.polls + [poll]);
      assert FinishPoll(s, s');
      trace := [s, s'];
    } else {
      var stream := Deliver(s.stream, pending[0]);
      var yielded := if stream == s.stream then poll.yielded else poll.yielded + [pending[0]];
      var s' := s.(stream := stream, phase := Reading(dbNow, pending[1..], poll.(yielded := yielded)));
      assert DeliverNext(s, s');
      var more := StepsDoPoll(lag, s');
      trace := [s] + more;
    }
  }

  lemma RunOn(from: int, lag: int, trace: seq<State>, more: seq<State>)
    requires IsRun(from, lag, trace) && more != [] && more[0] == trace[|trace| - 1]
    requires forall i :: 0 <= i < |more| - 1 ==> Next(lag, more[i], more[i + 1])
    ensures IsRun(from, lag, trace + more[1..])
  {
    var all, k := trace + more[1..], |trace| - 1;
    forall i | 0 <= i < |all| - 1
      ensures Next(lag, all[i], all[i + 1])
    {
      if i < k {
        assert Next(lag, trace[i], trace[i + 1]);
      } else {
        assert Next(lag, more[i - k], more[i - k + 1]);
      }
    }
  }

  lemma {:induction false} GoOn(from: int, lag: int, trace: seq<State>, more: seq<State>) returns (longer: seq<State>)
    requires IsRun(from, lag, trace) && more != [] && more[0] == trace[|trace| - 1]
    requires forall i :: 0 <= i < |more| - 1 ==> Next(lag, more[i], more[i + 1])
    ensures IsRun(from, lag, longer) && trace <= longer && longer[|longer| - 1] == more[|more| - 1]
  {
    RunOn(from, lag, trace, more);
    longer := trace + more[1..];
  }

  /** The steps of a poll made at once. */
  lemma PollSteps(lag: int, s: State, rows: seq<Row>) returns (more: seq<State>)
    requires s.phase.Idle? && IsQuery(rows, s.table, s.stream.cursor)
    ensures |more| > 0 && more[0] == s
    ensures forall i :: 0 <= i < |more| - 1 ==> Next(lag, more[i], more[i + 1])
    ensures
      var s' := more[|more| - 1];
      && s'.phase.Idle? && s'.table == s.table && s'.now == s.now
      && s'.stream == Advance(DeliverAll(s.stream, rows), s.now)
      && PolledOnce(s.polls, s'.polls, s.table)
  {
    var s1 := s.(phase := Clocked(s.now));
    var s2 := s.(phase := Reading(s.now, rows, Poll(s.now, s.table, [])));
    assert ReadClock(s, s1) && Snapshot(s1, s2, rows);
    var steps := StepsDoPoll(lag, s2);
    more := [s, s1] + steps;
    forall i | 0 <= i < |more| - 1
      ensures Next(lag, more[i], more[i + 1])
    {
      if i >= 2 {
        assert Next(lag, steps[i - 2], steps[i - 2 + 1]);
      }
    }
  }

  /** Any run between polls can go on with one, made at once. */
  lemma PollOnce(from: int, lag: int, trace: seq<State>, s: State, rows: seq<Row>) returns (longer: seq<State>)
    requires IsRun(from, lag, trace) && s == trace[|trace| - 1] && s.phase.Idle?
    requires IsQuery(rows, s.table, s.stream.cursor)
    ensures IsRun(from, lag, longer) && trace <= longer
    ensures
      var s' := longer[|longer| - 1];
      && s'.phase.Idle? && s'.table == s.table && s'.now == s.now
      && s'.stream == Advance(DeliverAll(s.stream, rows), s.now)
  {
    var more := PollSteps(lag, s, rows);
    longer := GoOn(from, lag, trace, more);
  }

  // ------------------------------------------------------------ invariant

  function AllPolls(s: State): seq<Poll> {
    s.polls + if s.phase.Reading? then [s.phase.poll] else []
  }

  /** What polls[..k] have shown: the snapshot of the last of them. */
  function Shown(polls: seq<Poll>, k: nat): set<Row>
    requires k <= |polls|
  {
    if k == 0 then {} else polls[k - 1].snapshot
  }

  /** The rows poll `k` is the first to show, of those asked for. */
  ghost predicate FirstShown(from: int, polls: seq<Poll>, k: nat, r: Row)
    requires k < |polls|
  {
    r in polls[k].snapshot && r.recordedAt >= from && r !in Shown(polls, k)
  }

  function Yielded(polls: seq<Poll>): seq<Row> {
    if polls == [] then [] else Yielded(polls[..|polls| - 1]) + polls[|polls| - 1].yielded
  }

  /** Cursor, seen and delivered against the table. */
  ghost predicate StreamInv(from: int, s: State) {
    var Stream(cursor, seen, delivered) := s.stream;
    && from <= cursor && (cursor == from || cursor + SETTLE_WINDOW <= s.now)
    && Distinct(delivered)
    && (forall r :: r in delivered ==> r in s.table && r.recordedAt >= from)
    && (forall r :: r in delivered && r.recordedAt >= cursor ==> r.id in seen && seen[r.id] == r.recordedAt)
    && (forall id :: id in seen ==> seen[id] >= cursor && Row(id, seen[id]) in delivered)
    && (forall r :: r in s.table && from <= r.recordedAt < cursor ==> r in delivered)
  }

  ghost predicate TableInv(s: State) {
    && UniqueIds(s.table)
    && (forall r :: r in s.table ==> r.recordedAt <= s.now)
  }

  /** Snapshots grow, and a row missing from one was recorded no more than `lag` before it. */
  ghost predicate HistoryInv(lag: int, now: int, table: set<Row>, polls: seq<Poll>) {
    && (forall k :: 0 <= k < |polls| ==> polls[k].at <= now)
    && (forall k :: 0 <= k < |polls| ==> Shown(polls, k) <= polls[k].snapshot <= table)
    && (forall k, r :: 0 <= k < |polls| && r in polls[k].snapshot ==> r.recordedAt <= polls[k].at)
    && (forall k, r :: 0 <= k < |polls| && r in table && r !in polls[k].snapshot ==>
          polls[k].at <= r.recordedAt + lag)
  }

  /** Each poll yields, in order, exactly the rows it is the first to show. */
  ghost predicate YieldInv(from: int, polls: seq<Poll>) {
    && (forall k :: 0 <= k < |polls| ==> Ordered(polls[k].yielded))
    && (forall k, r :: 0 <= k < |polls| ==> (r in polls[k].yielded <==> FirstShown(from, polls, k, r)))
  }

  ghost predicate PollInv(from: int, s: State) {
    && YieldInv(from, s.polls)
    && Yielded(AllPolls(s)) == s.stream.delivered
    && (forall r :: r in s.stream.delivered <==>
          || (r in Shown(s.polls, |s.polls|) && r.recordedAt >= from)
          || (s.phase.Reading? && r in s.phase.poll.yielded))
  }

  /** The poll in progress: what it has yielded precedes what is left, and together they are all it must yield. */
  ghost predicate PhaseInv(from: int, s: State) {
    match s.phase
    case Idle => true
    case Clocked(dbNow) => dbNow <= s.now
    case Reading(dbNow, pending, poll) =>
      && dbNow <= poll.at <= s.now
      && Ordered(poll.yielded + pending)
      && (forall r :: r in pending ==> r in poll.snapshot && r.recordedAt >= s.stream.cursor)
      && (forall r :: r in poll.yielded ==>
            r in poll.snapshot && r.recordedAt >= from && r !in Shown(s.polls, |s.polls|))
      && (forall r :: r in poll.snapshot && r.recordedAt >= from ==> r in pending || r in s.stream.delivered)
  }

  ghost predicate DisorderInv(lag: int, s: State) {
    var d := s.stream.delivered;
    forall i, j :: 0 <= i < j < |d| ==> d[i].recordedAt - d[j].recordedAt <= lag
  }

  ghost predicate Inv(from: int, lag: int, s: State) {
    && TableInv(s) && StreamInv(from, s) && HistoryInv(lag, s.now, s.table, AllPolls(s))
    && PollInv(from, s) && PhaseInv(from, s) && DisorderInv(lag, s)
  }

  lemma InitInv(from: int, lag: int, s: State)
    requires Init(from, s)
    ensures Inv(from, lag, s)
  {
  }

  lemma {:induction false} TickKeeps(from: int, lag: int, s: State, s': State)
    requires Inv(from, lag, s) && Tick(s, s')
    ensures Inv(from, lag, s')
  {
    assert AllPolls(s') == AllPolls(s);
  }

  /** A row that becomes visible within the settle window is never below the cursor. */
  lemma {:induction false} CommitKeepsStream(from: int, lag: int, s: State, s': State, row: Row)
    requires lag <= SETTLE_WINDOW && TableInv(s) && StreamInv(from, s) && Commit(lag, s, s', row)
    ensures TableInv(s') && StreamInv(from, s')
  {
  }

  lemma {:induction false} CommitKeepsHistory(lag: int, s: State, s': State, row: Row, polls: seq<Poll>)
    requires HistoryInv(lag, s.now, s.table, polls) && Commit(lag, s, s', row)
    ensures HistoryInv(lag, s'.now, s'.table, polls)
  {
  }

  lemma {:induction false} CommitKeeps(from: int, lag: int, s: State, s': State, row: Row)
    requires lag <= SETTLE_WINDOW && Inv(from, lag, s) && Commit(lag, s, s', row)
    ensures Inv(from, lag, s')
  {
    assert AllPolls(s') == AllPolls(s);
    CommitKeepsStream(from, lag, s, s', row);
    CommitKeepsHistory(lag, s, s', row, AllPolls(s));
  }

  lemma ClockKeeps(from: int, lag: int, s: State, s': State)
    requires Inv(from, lag, s) && ReadClock(s, s')
    ensures Inv(from, lag, s')
  {
    assert AllPolls(s') == AllPolls(s);
  }

  lemma YieldedAppend(polls: seq<Poll>, poll: Poll)
    ensures Yielded(polls + [poll]) == Yielded(polls) + poll.yielded
  {
    assert (polls + [poll])[..|polls|] == polls;
  }

  lemma HistoryAppend(lag: int, now: int, table: set<Row>, polls: seq<Poll>, poll: Poll)
    requires HistoryInv(lag, now, table, polls)
    requires poll.at == now && poll.snapshot == table && (forall r :: r in table ==> r.recordedAt <= now)
    ensures HistoryInv(lag, now, table, polls + [poll])
  {
    assert forall k :: 0 <= k <= |polls| ==> Shown(polls + [poll], k) == Shown(polls, k);
  }

  /** Only what a poll yields changes while it is read. */
  lemma HistoryReplace(lag: int, now: int, table: set<Row>, polls: seq<Poll>, poll: Poll, poll': Poll)
    requires HistoryInv(lag, now, table, polls + [poll])
    requires poll'.at == poll.at && poll'.snapshot == poll.snapshot
    ensures HistoryInv(lag, now, table, polls + [poll'])
  {
    var before, after := polls + [poll], polls + [poll'];
    assert forall k :: 0 <= k <= |polls| ==> Shown(after, k) == Shown(before, k);
    assert forall k :: 0 <= k <= |polls| ==> after[k].at == before[k].at && after[k].snapshot == before[k].snapshot;
  }

  lemma YieldAppend(from: int, polls: seq<Poll>, poll: Poll)
    requires YieldInv(from, polls) && Ordered(poll.yielded)
    requires forall r :: r in poll.yielded <==>
      r in poll.snapshot && r.recordedAt >= from && r !in Shown(polls, |polls|)
    ensures YieldInv(from, polls + [poll])
  {
    var all := polls + [poll];
    forall k, r | 0 <= k < |all|
      ensures r in all[k].yielded <==> FirstShown(from, all, k, r)
    {
      assert Shown(all, k) == Shown(polls, k);
      if k < |polls| {
        assert r in polls[k].yielded <==> FirstShown(from, polls, k, r);
      }
    }
  }

  lemma SnapshotKeepsPolls(from: int, lag: int, s: State, s': State, rows: seq<Row>)
    requires Inv(from, lag, s) && Snapshot(s, s', rows)
    ensures HistoryInv(lag, s'.now, s'.table, AllPolls(s')) && PollInv(from, s')
  {
    assert AllPolls(s) == s.polls;
    HistoryAppend(lag, s.now, s.table, s.polls, s'.phase.poll);
    YieldedAppend(s.polls, s'.phase.poll);
  }

  lemma SnapshotKeepsPhase(from: int, lag: int, s: State, s': State, rows: seq<Row>)
    requires Inv(from, lag, s) && Snapshot(s, s', rows)
    ensures PhaseInv(from, s')
  {
    assert [] + rows == rows;
  }

  lemma SnapshotKeeps(from: int, lag: int, s: State, s': State, rows: seq<Row>)
    requires Inv(from, lag, s) && Snapshot(s, s', rows)
    ensures Inv(from, lag, s')
  {
    SnapshotKeepsPolls(from, lag, s, s', rows);
    SnapshotKeepsPhase(from, lag, s, s', rows);
  }

  lemma YieldedFirst(yielded: seq<Row>, pending: seq<Row>)
    requires Ordered(yielded + pending) && pending != []
    ensures forall r :: r in yielded ==> Before(r, pending[0])
  {
    forall r | r in yielded
      ensures Before(r, pending[0])
    {
      var i :| 0 <= i < |yielded| && yielded[i] == r;
      var all := yielded + pending;
      assert Before(all[i], all[|yielded|]);
    }
  }

  /** The next row is skipped exactly when an earlier poll showed it. */
  lemma SeenIffShown(from: int, lag: int, s: State)
    requires Inv(from, lag, s) && s.phase.Reading? && s.phase.pending != []
    ensures
      var row := s.phase.pending[0];
      && row in s.table && row.recordedAt >= from
      && (row.id in s.stream.seen <==> row in s.stream.delivered)
      && (row in s.stream.delivered <==> row in Shown(s.polls, |s.polls|))
  {
    var Reading(dbNow, pending, poll) := s.phase;
    var row := pending[0];
    assert row in pending && poll == AllPolls(s)[|s.polls|];
    YieldedFirst(poll.yielded, pending);
    if row.id in s.stream.seen {
      assert Row(row.id, s.stream.seen[row.id]) in s.stream.delivered;
    }
  }

  lemma {:induction false} DeliverKeepsStream(from: int, lag: int, s: State, s': State)
    requires Inv(from, lag, s) && DeliverNext(s, s')
    ensures StreamInv(from, s')
  {
    SeenIffShown(from, lag, s);
  }

  lemma {:induction false} DeliverKeepsPolls(from: int, lag: int, s: State, s': State)
    requires Inv(from, lag, s) && DeliverNext(s, s')
    ensures HistoryInv(lag, s'.now, s'.table, AllPolls(s')) && PollInv(from, s')
  {
    SeenIffShown(from, lag, s);
    var poll, poll' := s.phase.poll, s'.phase.poll;
    HistoryReplace(lag, s.now, s.table, s.polls, poll, poll');
    YieldedAppend(s.polls, poll);
    YieldedAppend(s.polls, poll');
  }

  lemma SkipKeepsOrder(yielded: seq<Row>, pending: seq<Row>)
    requires Ordered(yielded + pending) && pending != []
    ensures Ordered(yielded + pending[1..])
  {
    var all, k := yielded + pending, |yielded|;
    assert yielded + pending[1..] == all[..k] + all[k + 1..];
  }

  lemma {:induction false} MoveOver(yielded: seq<Row>, pending: seq<Row>)
    requires pending != []
    ensures yielded + [pending[0]] + pending[1..] == yielded + pending
  {
  }

  lemma {:induction false} DeliverKeepsPending(s: State, s': State)
    requires DeliverNext(s, s') && Ordered(s.phase.poll.yielded + s.phase.pending)
    ensures Ordered(s'.phase.poll.yielded + s'.phase.pending)
  {
    var yielded, pending := s.phase.poll.yielded, s.phase.pending;
    SkipKeepsOrder(yielded, pending);
    MoveOver(yielded, pending);
  }

  lemma DeliverKeepsPhase(from: int, lag: int, s: State, s': State)
    requires Inv(from, lag, s) && DeliverNext(s, s')
    ensures PhaseInv(from, s')
  {
    SeenIffShown(from, lag, s);
    DeliverKeepsPending(s, s');
    var pending := s.phase.pending;
    assert forall r :: r in pending <==> r == pending[0] || r in pending[1..];
    assert pending[0] in s'.stream.delivered;
  }

  /** A row yielded late was missing from every earlier snapshot. */
  lemma {:induction false} DeliverKeepsOrder(from: int, lag: int, s: State, s': State)
    requires lag >= 0 && Inv(from, lag, s) && DeliverNext(s, s')
    ensures DisorderInv(lag, s')
  {
    SeenIffShown(from, lag, s);
    var Reading(dbNow, pending, poll) := s.phase;
    var row, k := pending[0], |s.polls|;
    if s'.stream != s.stream {
      forall r | r in s.stream.delivered
        ensures r.recordedAt - row.recordedAt <= lag
      {
        if r in poll.yielded {
          YieldedFirst(poll.yielded, pending);
        } else {
          assert r in Shown(s.polls, k) && row !in Shown(s.polls, k);
          var last := AllPolls(s)[k - 1];
          assert last == s.polls[k - 1];
        }
      }
    }
  }

  lemma DeliverKeeps(from: int, lag: int, s: State, s': State)
    requires lag >= 0 && Inv(from, lag, s) && DeliverNext(s, s')
    ensures Inv(from, lag, s')
  {
    DeliverKeepsStream(from, lag, s, s');
    DeliverKeepsPolls(from, lag, s, s');
    DeliverKeepsPhase(from, lag, s, s');
    DeliverKeepsOrder(from, lag, s, s');
  }

  /** Everything below the new cursor was in the snapshot just read. */
  lemma FinishKeepsStream(from: int, lag: int, s: State, s': State)
    requires lag <= SETTLE_WINDOW && Inv(from, lag, s) && FinishPoll(s, s')
    ensures StreamInv(from, s')
  {
    var poll := s.phase.poll;
    assert AllPolls(s)[|s.polls|] == poll;
  }

  lemma FinishKeepsPolls(from: int, lag: int, s: State, s': State)
    requires Inv(from, lag, s) && FinishPoll(s, s')
    ensures PollInv(from, s')
  {
    var poll := s.phase.poll;
    assert AllPolls(s') == AllPolls(s) == s.polls + [poll];
    assert poll.yielded + [] == poll.yielded;
    YieldAppend(from, s.polls, poll);
  }

  lemma FinishKeeps(from: int, lag: int, s: State, s': State)
    requires lag <= SETTLE_WINDOW && Inv(from, lag, s) && FinishPoll(s, s')
    ensures Inv(from, lag, s')
  {
    assert AllPolls(s') == AllPolls(s);
    FinishKeepsStream(from, lag, s, s');
    FinishKeepsPolls(from, lag, s, s');
  }

  lemma {:induction false} NextKeeps(from: int, lag: int, s: State, s': State)
    requires 0 <= lag <= SETTLE_WINDOW && Inv(from, lag, s) && Next(lag, s, s')
    ensures Inv(from, lag, s')
  {
    if Tick(s, s') {
      TickKeeps(from, lag, s, s');
    } else if row: Row :| Commit(lag, s, s', row) {
      CommitKeeps(from, lag, s, s', row);
    } else if ReadClock(s, s') {
      ClockKeeps(from, lag, s, s');
    } else if rows: seq<Row> :| Snapshot(s, s', rows) {
      SnapshotKeeps(from, lag, s, s', rows);
    } else if DeliverNext(s, s') {
      DeliverKeeps(from, lag, s, s');
    } else {
      FinishKeeps(from, lag, s, s');
    }
  }

  lemma {:induction false} RunKeeps(from: int, lag: int, trace: seq<State>, i: nat)
    requires 0 <= lag <= SETTLE_WINDOW && IsRun(from, lag, trace) && i < |trace|
    ensures Inv(from, lag, trace[i])
  {
    if i == 0 {
      InitInv(from, lag, trace[0]);
    } else {
      RunKeeps(from, lag, trace, i - 1);
      assert Next(lag, trace[i - 1], trace[i - 1 + 1]);
      NextKeeps(from, lag, trace[i - 1], trace[i]);
    }
  }

  // ----------------------------------------------------------- properties

  /**
   * Exactly once: in every interleaving of inserts and polls, each completed
   * poll yields, in (recorded_at, id) order, exactly the rows recorded at or
   * after `from` that its snapshot shows and no earlier snapshot did. Nothing
   * is ever yielded twice.
   */
  lemma ExactlyOnce(from: int, lag: int, trace: seq<State>)
    requires 0 <= lag <= SETTLE_WINDOW && IsRun(from, lag, trace)
    ensures
      var s := trace[|trace| - 1];
      && Distinct(s.stream.delivered)
      && Yielded(AllPolls(s)) == s.stream.delivered
      && (forall k :: 0 <= k < |s.polls| ==> Ordered(s.polls[k].yielded))
      && (forall k, r :: 0 <= k < |s.polls| ==> (r in s.polls[k].yielded <==> FirstShown(from, s.polls, k, r)))
  {
    RunKeeps(from, lag, trace, |trace| - 1);
  }

  /** Why nothing is yielded twice, however late rows appear: what is delivered at or above the cursor is seen. */
  ghost predicate OnceInv(s: State) {
    var Stream(cursor, seen, delivered) := s.stream;
    && UniqueIds(s.table) && Distinct(delivered)
    && (forall r :: r in delivered ==> r in s.table)
    && (forall r :: r in delivered && r.recordedAt >= cursor ==> r.id in seen && seen[r.id] == r.recordedAt)
    && (forall id :: id in seen ==> Row(id, seen[id]) in delivered && seen[id] >= cursor)
    && (s.phase.Reading? ==> forall r :: r in s.phase.pending ==> r in s.table && r.recordedAt >= cursor)
  }

  lemma {:induction false} DeliverKeepsOnce(s: State, s': State)
    requires OnceInv(s) && DeliverNext(s, s')
    ensures OnceInv(s')
  {
    var row := s.phase.pending[0];
    assert row in s.phase.pending;
    if row.id in s.stream.seen {
      assert Row(row.id, s.stream.seen[row.id]) in s.stream.delivered;
    }
  }

  lemma {:induction false} NextKeepsOnce(lag: int, s: State, s': State)
    requires OnceInv(s) && Next(lag, s, s')
    ensures OnceInv(s')
  {
    if DeliverNext(s, s') {
      DeliverKeepsOnce(s, s');
    }
  }

  lemma {:induction false} RunKeepsOnce(from: int, lag: int, trace: seq<State>, i: nat)
    requires IsRun(from, lag, trace) && i < |trace|
    ensures OnceInv(trace[i])
  {
    if i == 0 {
    } else {
      RunKeepsOnce(from, lag, trace, i - 1);
      assert Next(lag, trace[i - 1], trace[i - 1 + 1]);
      NextKeepsOnce(lag, trace[i - 1], trace[i]);
    }
  }

  /** Nothing is ever yielded twice, whatever the delay between a row's record time and its appearance. */
  lemma {:induction false} NothingTwice(from: int, lag: int, trace: seq<State>)
    requires IsRun(from, lag, trace)
    ensures Distinct(trace[|trace| - 1].stream.delivered)
  {
    RunKeepsOnce(from, lag, trace, |trace| - 1);
  }

  /**
   * Finishing a poll, whatever the delay: the cursor is at the horizon, or where
   * it was when that is higher, and seen has lost exactly what is now below it.
   */
  lemma {:induction false} FinishSettles(from: int, lag: int, trace: seq<State>, i: nat)
    requires IsRun(from, lag, trace) && i < |trace| - 1 && FinishPoll(trace[i], trace[i + 1])
    ensures
      var s, s', horizon := trace[i].stream, trace[i + 1].stream, trace[i].phase.dbNow - SETTLE_WINDOW;
      && s'.delivered == s.delivered && s'.cursor == (if horizon > s.cursor then horizon else s.cursor)
      && (forall id :: id in s'.seen <==> id in s.seen && s.seen[id] >= s'.cursor)
      && (forall id :: id in s'.seen ==> s'.seen[id] == s.seen[id])
  {
    RunKeepsOnce(from, lag, trace, i);
  }

  /** After every step, seen is exactly the delivered rows at or above the cursor. */
  lemma SeenIsUnsettled(from: int, lag: int, trace: seq<State>)
    requires 0 <= lag <= SETTLE_WINDOW && IsRun(from, lag, trace)
    ensures
      var Stream(cursor, seen, delivered) := trace[|trace| - 1].stream;
      forall id, t :: id in seen && seen[id] == t <==> Row(id, t) in delivered && t >= cursor
  {
    RunKeeps(from, lag, trace, |trace| - 1);
    var Stream(cursor, seen, delivered) := trace[|trace| - 1].stream;
    forall id, t | Row(id, t) in delivered && t >= cursor
      ensures id in seen && seen[id] == t
    {
      assert Row(id, t).recordedAt >= cursor;
    }
  }

  /** Bounded disorder: a row yielded before another was recorded at most `lag` after it. */
  lemma BoundedDisorder(from: int, lag: int, trace: seq<State>)
    requires 0 <= lag <= SETTLE_WINDOW && IsRun(from, lag, trace)
    ensures
      var d := trace[|trace| - 1].stream.delivered;
      forall i, j :: 0 <= i < j < |d| ==> d[i].recordedAt - d[j].recordedAt <= lag
  {
    RunKeeps(from, lag, trace, |trace| - 1);
  }

  /** A row not delivered yet was recorded at most `lag` before any that is. */
  lemma {:induction false} UndeliveredIsLater(from: int, lag: int, s: State, delivered: Row, other: Row)
    requires lag >= 0 && Inv(from, lag, s)
    requires delivered in s.stream.delivered
    requires other in s.table && other.recordedAt >= from && other !in s.stream.delivered
    ensures delivered.recordedAt - other.recordedAt <= lag
  {
    var k, all := |s.polls|, AllPolls(s);
    if s.phase.Reading? && delivered in s.phase.poll.yielded {
      var poll := s.phase.poll;
      assert all[k] == poll;
      if other in poll.snapshot {
        PrecedesPending(poll.yielded, s.phase.pending, delivered, other);
      }
    } else {
      assert delivered in Shown(s.polls, k) && other !in Shown(s.polls, k);
      assert all[k - 1] == s.polls[k - 1];
    }
  }

  lemma PrecedesPending(yielded: seq<Row>, pending: seq<Row>, one: Row, other: Row)
    requires Ordered(yielded + pending) && one in yielded && other in pending
    ensures Before(one, other)
  {
    var i :| 0 <= i < |yielded| && yielded[i] == one;
    var j :| 0 <= j < |pending| && pending[j] == other;
    var all := yielded + pending;
    assert Before(all[i], all[|yielded| + j]);
  }

  // ------------------------------------------------ the simple stream

  /** The rows of a poll whose causes are not among those already delivered. */
  function Fresh(rows: seq<Row>, delivered: seq<Row>): seq<Row> {
    if rows == [] then []
    else
      (if exists r :: r in delivered && r.id == rows[0].id then [] else [rows[0]])
      + Fresh(rows[1..], delivered)
  }

  /**
   * What a stream yields that re-reads everything from `from` in each poll and
   * remembers every cause it ever delivered. `listings` are its queries' answers.
   */
  function SimpleStream(listings: seq<seq<Row>>): seq<Row> {
    if listings == [] then []
    else
      var k := |listings| - 1;
      var before := SimpleStream(listings[..k]);
      before + Fresh(listings[k], before)
  }

  lemma {:induction false} FreshRows(rows: seq<Row>, delivered: seq<Row>)
    requires Ordered(rows)
    ensures Ordered(Fresh(rows, delivered))
    ensures forall r :: r in Fresh(rows, delivered) <==>
      r in rows && forall q :: q in delivered ==> q.id != r.id
  {
    if rows == [] {
    } else {
      FreshRows(rows[1..], delivered);
      assert forall r :: r in rows <==> r == rows[0] || r in rows[1..];
      assert forall r :: r in rows[1..] ==> Before(rows[0], r);
    }
  }

  /** Every row a snapshot shows has been yielded by the poll that read it, or by one before. */
  lemma {:induction false} ShownIsYielded(from: int, polls: seq<Poll>, table: set<Row>, k: nat)
    requires YieldInv(from, polls) && k <= |polls|
    requires forall j :: 0 <= j < |polls| ==> Shown(polls, j) <= polls[j].snapshot <= table
    ensures forall r :: r in Yielded(polls[..k]) <==> r in Shown(polls, k) && r.recordedAt >= from
  {
    if k == 0 {
    } else {
      ShownIsYielded(from, polls, table, k - 1);
      assert polls[..k][..k - 1] == polls[..k - 1];
      forall r
        ensures r in Yielded(polls[..k]) <==> r in Shown(polls, k) && r.recordedAt >= from
      {
        assert r in polls[k - 1].yielded <==> FirstShown(from, polls, k - 1, r);
        assert Shown(polls, k - 1) <= polls[k - 1].snapshot;
      }
    }
  }

  ghost predicate AreListings(from: int, listings: seq<seq<Row>>, polls: seq<Poll>) {
    && |listings| == |polls|
    && (forall k :: 0 <= k < |polls| ==> IsQuery(listings[k], polls[k].snapshot, from))
  }

  /** What is fresh of a listing is what its poll is the first to show. */
  lemma {:induction false} FreshIsFirstShown(from: int, s: State, listing: seq<Row>, k: nat, before: seq<Row>)
    requires UniqueIds(s.table) && k < |s.polls| && IsQuery(listing, s.polls[k].snapshot, from)
    requires Shown(s.polls, k) <= s.polls[k].snapshot <= s.table
    requires forall r :: r in before <==> r in Shown(s.polls, k) && r.recordedAt >= from
    ensures Ordered(Fresh(listing, before))
    ensures forall r :: r in Fresh(listing, before) <==> FirstShown(from, s.polls, k, r)
  {
    FreshRows(listing, before);
    forall r
      ensures r in Fresh(listing, before) <==> FirstShown(from, s.polls, k, r)
    {
      if r in s.polls[k].snapshot {
        assert forall q :: q in before && q.id == r.id ==> q in s.table && q == r;
      }
    }
  }

  lemma {:induction false} PollShows(from: int, polls: seq<Poll>, k: nat)
    requires YieldInv(from, polls) && k < |polls|
    ensures Ordered(polls[k].yielded)
    ensures forall r :: r in polls[k].yielded <==> FirstShown(from, polls, k, r)
  {
  }

  lemma {:induction false} FreshIsYielded(from: int, s: State, listing: seq<Row>, k: nat, before: seq<Row>)
    requires YieldInv(from, s.polls) && UniqueIds(s.table)
    requires k < |s.polls| && IsQuery(listing, s.polls[k].snapshot, from)
    requires Shown(s.polls, k) <= s.polls[k].snapshot <= s.table
    requires forall r :: r in before <==> r in Shown(s.polls, k) && r.recordedAt >= from
    ensures Fresh(listing, before) == s.polls[k].yielded
  {
    FreshIsFirstShown(from, s, listing, k, before);
    PollShows(from, s.polls, k);
    OrderedUnique(Fresh(listing, before), s.polls[k].yielded);
  }

  lemma {:induction false} YieldedStep(polls: seq<Poll>, k: nat)
    requires 0 < k <= |polls|
    ensures Yielded(polls[..k]) == Yielded(polls[..k - 1]) + polls[k - 1].yielded
  {
    assert polls[..k][..k - 1] == polls[..k - 1];
  }

  lemma {:induction false} SimpleStep(listings: seq<seq<Row>>, k: nat)
    requires 0 < k <= |listings|
    ensures
      var before := SimpleStream(listings[..k - 1]);
      SimpleStream(listings[..k]) == before + Fresh(listings[k - 1], before)
  {
    assert listings[..k][..k - 1] == listings[..k - 1];
  }

  /** Poll `k` yields what is fresh of its listing after what the polls before it yielded. */
  ghost predicate YieldsFresh(listings: seq<seq<Row>>, polls: seq<Poll>, k: nat)
    requires k < |listings| == |polls|
  {
    Fresh(listings[k], Yielded(polls[..k])) == polls[k].yielded
  }

  lemma {:induction false} PollYieldsFresh(from: int, s: State, listings: seq<seq<Row>>, k: nat)
    requires YieldInv(from, s.polls) && UniqueIds(s.table)
    requires forall j :: 0 <= j < |s.polls| ==> Shown(s.polls, j) <= s.polls[j].snapshot <= s.table
    requires AreListings(from, listings, s.polls) && k < |s.polls|
    ensures YieldsFresh(listings, s.polls, k)
  {
    ShownIsYielded(from, s.polls, s.table, k);
    FreshIsYielded(from, s, listings[k], k, Yielded(s.polls[..k]));
  }

  lemma {:induction false} SimpleYieldsSame(listings: seq<seq<Row>>, polls: seq<Poll>, k: nat)
    requires k <= |listings| == |polls| && forall j :: 0 <= j < |polls| ==> YieldsFresh(listings, polls, j)
    ensures Yielded(polls[..k]) == SimpleStream(listings[..k])
  {
    if k == 0 {
    } else {
      SimpleYieldsSame(listings, polls, k - 1);
      assert YieldsFresh(listings, polls, k - 1);
      YieldedStep(polls, k);
      SimpleStep(listings, k);
    }
  }

  /**
   * Pruning refines the simple stream: with an advancing cursor and a pruned
   * map, the stream yields exactly the same sequence as one that reads
   * everything and forgets nothing.
   */
  lemma {:induction false} PruningRefinesSimple(from: int, lag: int, trace: seq<State>, listings: seq<seq<Row>>)
    requires 0 <= lag <= SETTLE_WINDOW && IsRun(from, lag, trace)
    requires !trace[|trace| - 1].phase.Reading?
    requires AreListings(from, listings, trace[|trace| - 1].polls)
    ensures trace[|trace| - 1].stream.delivered == SimpleStream(listings)
  {
    var s := trace[|trace| - 1];
    RunKeeps(from, lag, trace, |trace| - 1);
    assert AllPolls(s) == s.polls;
    forall k | 0 <= k < |s.polls|
      ensures YieldsFresh(listings, s.polls, k)
    {
      PollYieldsFresh(from, s, listings, k);
    }
    SimpleYieldsSame(listings, s.polls, |listings|);
    assert s.polls[..|listings|] == s.polls && listings[..|listings|] == listings;
  }

  // ------------------------------------------ the window is exactly enough

  /** Every completed poll has, with those before it, yielded all that its snapshot shows. */
  ghost predicate MissesNothing(from: int, s: State) {
    forall k, r :: 0 <= k < |s.polls| && r in s.polls[k].snapshot && r.recordedAt >= from ==>
      r in Yielded(s.polls[..k + 1])
  }

  ghost predicate NeverMisses(lag: int) {
    forall from, trace :: IsRun(from, lag, trace) ==> MissesNothing(from, trace[|trace| - 1])
  }

  lemma {:induction false} SettledRunMissesNothing(from: int, lag: int, trace: seq<State>)
    requires 0 <= lag <= SETTLE_WINDOW && IsRun(from, lag, trace)
    ensures MissesNothing(from, trace[|trace| - 1])
  {
    RunKeeps(from, lag, trace, |trace| - 1);
    var s := trace[|trace| - 1];
    CompletedGrow(lag, s);
    InvMissesNothing(from, s);
  }

  lemma {:induction false} CompletedGrow(lag: int, s: State)
    requires HistoryInv(lag, s.now, s.table, AllPolls(s))
    ensures forall j :: 0 <= j < |s.polls| ==> Shown(s.polls, j) <= s.polls[j].snapshot <= s.table
  {
    var all := AllPolls(s);
    forall j | 0 <= j < |s.polls|
      ensures Shown(s.polls, j) <= s.polls[j].snapshot <= s.table
    {
      assert all[j] == s.polls[j] && Shown(all, j) == Shown(s.polls, j);
    }
  }

  lemma {:induction false} InvMissesNothing(from: int, s: State)
    requires YieldInv(from, s.polls)
    requires forall j :: 0 <= j < |s.polls| ==> Shown(s.polls, j) <= s.polls[j].snapshot <= s.table
    ensures MissesNothing(from, s)
  {
    forall k, r | 0 <= k < |s.polls| && r in s.polls[k].snapshot && r.recordedAt >= from
      ensures r in Yielded(s.polls[..k + 1])
    {
      assert Shown(s.polls, k + 1) == s.polls[k].snapshot;
      ShownIsYielded(from, s.polls, s.table, k + 1);
    }
  }

  // A row recorded at time zero, and a moment too late for it to appear.
  const LATE: Row := Row(Cid(0), 0)
  const TOO_LATE: int := SETTLE_WINDOW + 1

  function EmptyPoll(snapshot: set<Row>): Poll {
    Poll(TOO_LATE, snapshot, [])
  }

  /** The cursor has passed LATE, which has appeared and been shown, and not been yielded. */
  function LateState(): State {
    State(TOO_LATE, {LATE}, Stream(1, map[], []), Idle, [EmptyPoll({}), EmptyPoll({LATE})])
  }

  lemma {:induction false} LateStateMisses()
    ensures !MissesNothing(0, LateState())
  {
    var polls := LateState().polls;
    YieldedStep(polls, 2);
    YieldedStep(polls, 1);
    assert LATE in polls[1].snapshot && LATE.recordedAt >= 0;
  }

  /** A poll that reads no rows. */
  lemma {:induction false} EmptyTurn(lag: int, s: State, snapshot: set<Row>) returns (more: seq<State>)
    requires s.now == TOO_LATE && s.phase == Idle && s.table == snapshot
    requires s.stream == Stream(s.stream.cursor, map[], []) && IsQuery([], snapshot, s.stream.cursor)
    ensures |more| > 0 && more[0] == s && forall i :: 0 <= i < |more| - 1 ==> Next(lag, more[i], more[i + 1])
    ensures more[|more| - 1]
         == s.(stream := Advance(s.stream, TOO_LATE), polls := s.polls + [EmptyPoll(snapshot)])
  {
    var s1 := s.(phase := Clocked(TOO_LATE));
    var s2 := s.(phase := Reading(TOO_LATE, [], EmptyPoll(snapshot)));
    var s3 := s.(stream := Advance(s.stream, TOO_LATE), polls := s.polls + [EmptyPoll(snapshot)]);
    assert ReadClock(s, s1) && Snapshot(s1, s2, []) && FinishPoll(s2, s3);
    more := [s, s1, s2, s3];
  }

  /** A first poll, of an empty table, moves the cursor past LATE. */
  lemma {:induction false} CursorPasses(lag: int) returns (trace: seq<State>, s: State)
    ensures IsRun(0, lag, trace) && trace[|trace| - 1] == s
    ensures s == State(TOO_LATE, {}, Stream(1, map[], []), Idle, [EmptyPoll({})])
  {
    s := State(TOO_LATE, {}, Stream(0, map[], []), Idle, []);
    var more := EmptyTurn(lag, s, {});
    assert Advance(Stream(0, map[], []), TOO_LATE) == Stream(1, map[], []);
    trace := GoOn(0, lag, [s], more);
    s := trace[|trace| - 1];
  }

  /** A row that takes longer than the window to appear can fall below the cursor first. */
  lemma {:induction false} LateRowIsMissed(lag: int) returns (trace: seq<State>)
    requires lag > SETTLE_WINDOW
    ensures IsRun(0, lag, trace) && trace[|trace| - 1] == LateState()
    ensures !MissesNothing(0, trace[|trace| - 1])
  {
    var s;
    trace, s := CursorPasses(lag);
    var s' := s.(table := {LATE});
    assert s.table + {LATE} == {LATE};
    assert Commit(lag, s, s', LATE);
    trace := GoOn(0, lag, trace, [s, s']);
    var more := EmptyTurn(lag, s', {LATE});
    assert Advance(s'.stream, TOO_LATE) == s'.stream;
    trace := GoOn(0, lag, trace, more);
    LateStateMisses();
  }

  /**
   * The settle window is exactly enough: no run misses a row if and only if
   * rows never take longer than the window to become visible.
   */
  lemma NeverMissesIffSettled(lag: int)
    requires lag >= 0
    ensures NeverMisses(lag) <==> lag <= SETTLE_WINDOW
  {
    if lag <= SETTLE_WINDOW {
      forall from, trace | IsRun(from, lag, trace)
        ensures MissesNothing(from, trace[|trace| - 1])
      {
        SettledRunMissesNothing(from, lag, trace);
      }
    } else {
      var trace := LateRowIsMissed(lag);
      assert IsRun(0, lag, trace);
    }
  }
}
