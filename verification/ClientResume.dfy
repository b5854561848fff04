// When one Stream call of the client yields each revocation once.

module ClientResume {
  import opened Types
  import opened ClientStream

  // -------------------------------------------- any sequence of records

  /** Everything received from position `i` to position `j` has the same record time. */
  ghost predicate OneTime(rs: seq<Record>, i: nat, j: nat)
    requires i <= j < |rs|
  {
    forall k :: i <= k <= j ==> rs[k].recordedAt == rs[j].recordedAt
  }

  /** A cause is received again only before any other record time is. */
  ghost predicate RepeatsStayTogether(rs: seq<Record>) {
    forall i, j :: 0 <= i < j < |rs| && rs[i].cause == rs[j].cause ==> OneTime(rs, i, j)
  }

  ghost predicate HasCause(rs: seq<Record>, x: Cid) {
    exists i :: 0 <= i < |rs| && rs[i].cause == x
  }

  /** The state after `rs`: resume is the last time received, seen the causes received since it was first. */
  ghost predicate Tracks(from: int, rs: seq<Record>, c: Client) {
    && c.resume == (if rs == [] then from else rs[|rs| - 1].recordedAt)
    && (forall x :: x in c.seen <==> exists i :: 0 <= i < |rs| && rs[i].cause == x && OneTime(rs, i, |rs| - 1))
    && (forall x :: HasCause(c.yielded, x) <==> HasCause(rs, x))
  }

  lemma OneTimePrefix(rs: seq<Record>, more: Record)
    ensures forall i, j :: 0 <= i <= j < |rs| ==> (OneTime(rs + [more], i, j) <==> OneTime(rs, i, j))
  {
    var all := rs + [more];
    forall i, j | 0 <= i <= j < |rs|
      ensures OneTime(all, i, j) <==> OneTime(rs, i, j)
    {
      assert forall k :: i <= k <= j ==> all[k] == rs[k];
    }
  }

  lemma CausesAppend(rs: seq<Record>, r: Record)
    ensures forall x :: HasCause(rs + [r], x) <==> HasCause(rs, x) || x == r.cause
  {
    var all := rs + [r];
    assert all[|rs|] == r;
    assert forall i :: 0 <= i < |rs| ==> all[i] == rs[i];
  }

  lemma {:induction false} EmitTracks(from: int, rs: seq<Record>)
    ensures Tracks(from, rs, EmitAll(Client(from, {}, []), rs))
    decreases |rs|
  {
    if rs == [] {
    } else {
      var n := |rs| - 1;
      var before, r := rs[..n], rs[n];
      EmitTracks(from, before);
      assert rs == before + [r];
      OneMoreTracks(from, before, r, EmitAll(Client(from, {}, []), before));
    }
  }

  lemma {:induction false} OneMoreTracks(from: int, before: seq<Record>, r: Record, c: Client)
    requires Tracks(from, before, c)
    ensures Tracks(from, before + [r], Emit(c, r))
  {
    var rs, n, c' := before + [r], |before|, Emit(c, r);
    OneTimePrefix(before, r);
    CausesAppend(before, r);
    CausesAppend(c.yielded, r);
    forall x
      ensures x in c'.seen <==> exists i :: 0 <= i < |rs| && rs[i].cause == x && OneTime(rs, i, n)
    {
      if x in c'.seen {
        if x == r.cause {
          assert OneTime(rs, n, n);
        } else {
          assert x in c.seen && r.recordedAt == c.resume;
          var i :| 0 <= i < n && before[i].cause == x && OneTime(before, i, n - 1);
          assert rs[i].cause == x && OneTime(rs, i, n);
        }
      }
      if i :| 0 <= i < |rs| && rs[i].cause == x && OneTime(rs, i, n) {
        if i < n {
          assert OneTime(before, i, n - 1) && before[i].cause == x;
        }
      }
    }
  }

  lemma {:induction false} RepeatsTogetherYieldOnce(from: int, rs: seq<Record>)
    requires RepeatsStayTogether(rs)
    ensures DistinctCauses(EmitAll(Client(from, {}, []), rs).yielded)
    decreases |rs|
  {
    if rs == [] {
    } else {
      var n := |rs| - 1;
      var before, r := rs[..n], rs[n];
      assert rs == before + [r];
      OneTimePrefix(before, r);
      assert RepeatsStayTogether(before) by {
        forall i, j | 0 <= i < j < n && before[i].cause == before[j].cause
          ensures OneTime(before, i, j)
        {
          assert OneTime(rs, i, j);
        }
      }
      RepeatsTogetherYieldOnce(from, before);
      EmitTracks(from, before);
      var c := EmitAll(Client(from, {}, []), before);
      if HasCause(c.yielded, r.cause) {
        var i :| 0 <= i < n && before[i].cause == r.cause;
        assert rs[i].cause == rs[n].cause && OneTime(rs, i, n);
        assert OneTime(before, i, n - 1);
        assert Skips(c, r);
      }
    }
  }

  /** Yields are only ever added to. */
  lemma {:induction false} YieldedGrows(c: Client, rs: seq<Record>, k: nat)
    requires k <= |rs|
    ensures EmitAll(c, rs[..k]).yielded <= EmitAll(c, rs).yielded
    decreases |rs|
  {
    if k == |rs| {
      assert rs[..k] == rs;
    } else {
      YieldedGrows(c, rs[..|rs| - 1], k);
      assert rs[..|rs| - 1][..k] == rs[..k];
    }
  }

  /** A cause that arrives again after some other record time is yielded again. */
  lemma {:induction false} RepeatApartYieldsTwice(from: int, rs: seq<Record>, i: nat, k: nat, j: nat)
    requires i <= k < j < |rs| && rs[i].cause == rs[j].cause
    requires rs[k].recordedAt != rs[j].recordedAt
    ensures !DistinctCauses(EmitAll(Client(from, {}, []), rs).yielded)
    decreases j - k
  {
    var start, before := Client(from, {}, []), rs[..j];
    var c := EmitAll(start, before);
    EmitTracks(from, before);
    if Skips(c, rs[j]) {
      var m :| 0 <= m < j && before[m].cause == rs[j].cause && OneTime(before, m, j - 1);
      assert before[m].recordedAt == before[j - 1].recordedAt == rs[j].recordedAt;
      assert before[k].recordedAt != before[m].recordedAt;
      RepeatApartYieldsTwice(from, rs, i, k, m);
    } else {
      assert before[i].cause == rs[j].cause && HasCause(before, rs[j].cause);
      YieldedAgain(start, rs, j, c);
    }
  }

  lemma {:induction false} YieldedAgain(start: Client, rs: seq<Record>, j: nat, c: Client)
    requires j < |rs| && c == EmitAll(start, rs[..j]) && !Skips(c, rs[j]) && HasCause(c.yielded, rs[j].cause)
    ensures !DistinctCauses(EmitAll(start, rs).yielded)
  {
    var c' := EmitAll(start, rs[..j + 1]);
    assert rs[..j + 1][..j] == rs[..j];
    assert c'.yielded == c.yielded + [rs[j]];
    YieldedGrows(start, rs, j + 1);
    var p :| 0 <= p < |c.yielded| && c.yielded[p].cause == rs[j].cause;
    var all := EmitAll(start, rs).yielded;
    assert all[p] == c'.yielded[p] && all[|c.yielded|] == c'.yielded[|c.yielded|] == rs[j];
  }

  /**
   * Whatever a Stream call receives, over however many connections, it yields
   * no cause twice if and only if no cause is received again after another
   * record time was.
   */
  lemma {:induction false} YieldsOnceIff(from: int, rs: seq<Record>)
    ensures DistinctCauses(EmitAll(Client(from, {}, []), rs).yielded) <==> RepeatsStayTogether(rs)
  {
    if RepeatsStayTogether(rs) {
      RepeatsTogetherYieldOnce(from, rs);
    } else {
      var i, j :| 0 <= i < j < |rs| && rs[i].cause == rs[j].cause && !OneTime(rs, i, j);
      var k :| i <= k <= j && rs[k].recordedAt != rs[j].recordedAt;
      RepeatApartYieldsTwice(from, rs, i, k, j);
    }
  }

  /**
   * Stream itself: the call of a consumer that takes `patience` records, over
   * any attempts. It yields no cause twice exactly when repeats stay together in
   * what is received of them.
   */
  method Stream(from: int, patience: nat, attempts: seq<Attempt>, decode: Decoder)
    returns (exit: Exit, ghost replies: seq<Reply>, ghost received: seq<Record>, ghost yielded: seq<Record>)
    requires patience > 0
    ensures yielded == EmitAll(Client(from, {}, []), received).yielded
    ensures
      var now := EmitAll(Client(from, {}, []), received);
      Returns(Client(from, {}, []), patience, attempts, replies, decode, received, now, patience - |yielded|, exit)
    ensures DistinctCauses(yielded) <==> RepeatsStayTogether(received)
  {
    var call := new StreamCall(from, patience);
    exit, replies, received := call.Stream(attempts, decode);
    yielded := call.yielded;
    YieldsOnceIff(from, received);
  }

  // ---------------------------------------------------- resume protocol

  /** One connection: where it resumed, and the records received over it. */
  datatype Link = Link(cursor: int, received: set<Record>)

  /** The published records, the client, and its connection if it has one. */
  datatype Net = Net(log: set<Record>, client: Client, link: Option<Link>)

  ghost predicate Init(from: int, s: Net) {
    && UniqueCauses(s.log)
    && s.client == Client(from, {}, []) && s.link == None
  }

  ghost predicate UniqueCauses(log: set<Record>) {
    forall r, q :: r in log && q in log && r.cause == q.cause ==> r == q
  }

  /** A new record. In the ordered protocol it does not predate any record already delivered. */
  ghost predicate Publish(ordered: bool, s: Net, s': Net, r: Record) {
    && (forall q :: q in s.log ==> q.cause != r.cause)
    && (ordered ==> forall q :: q in s.client.yielded ==> q.recordedAt <= r.recordedAt)
    && s' == s.(log := s.log + {r})
  }

  /** A connection opens, inclusively, at the last delivered timestamp. */
  ghost predicate Open(s: Net, s': Net) {
    s.link == None && s' == s.(link := Some(Link(s.client.resume, {})))
  }

  /** The next record of a connection: of those at or after its cursor, an earliest one not yet sent on it. */
  ghost predicate Receive(s: Net, s': Net, r: Record) {
    && s.link.Some?
    && var Link(cursor, received) := s.link.value;
       && r in s.log && r.recordedAt >= cursor && r !in received
       && (forall q :: q in s.log && q.recordedAt >= cursor && q !in received ==> r.recordedAt <= q.recordedAt)
       && s' == s.(client := Emit(s.client, r), link := Some(Link(cursor, received + {r})))
  }

  /** A connection drops, at any point. */
  ghost predicate Drop(s: Net, s': Net) {
    s' == s.(link := None)
  }

  ghost predicate Next(ordered: bool, s: Net, s': Net) {
    || (exists r :: Publish(ordered, s, s', r))
    || Open(s, s')
    || (exists r :: Receive(s, s', r))
    || Drop(s, s')
  }

  ghost predicate IsRun(ordered: bool, from: int, trace: seq<Net>) {
    && |trace| > 0
    && Init(from, trace[0])
    && (forall i :: 0 <= i < |trace| - 1 ==> Next(ordered, trace[i], trace[i + 1]))
  }

  ghost predicate ClientInv(from: int, s: Net) {
    var Client(resume, seen, yielded) := s.client;
    && from <= resume && (yielded == [] ==> resume == from)
    && Distinct(yielded)
    && (forall i, j :: 0 <= i < j < |yielded| ==> yielded[i].recordedAt <= yielded[j].recordedAt)
    && (yielded != [] ==> yielded[|yielded| - 1].recordedAt == resume)
    && (forall r :: r in yielded ==> r in s.log && from <= r.recordedAt <= resume)
    && (forall x :: x in seen <==> exists r :: r in yielded && r.cause == x && r.recordedAt == resume)
    && (forall r :: r in s.log && from <= r.recordedAt < resume ==> r in yielded)
  }

  ghost predicate LinkInv(from: int, s: Net) {
    s.link.Some? ==>
      var Link(cursor, received) := s.link.value;
      && from <= cursor <= s.client.resume
      && (forall r :: r in received ==> r in s.client.yielded)
      && (forall r :: r in s.log && cursor <= r.recordedAt < s.client.resume ==> r in received)
  }

  ghost predicate Inv(from: int, s: Net) {
    UniqueCauses(s.log) && ClientInv(from, s) && LinkInv(from, s)
  }

  lemma PublishKeeps(from: int, s: Net, s': Net, r: Record)
    requires Inv(from, s) && Publish(true, s, s', r)
    ensures Inv(from, s')
  {
    var yielded := s.client.yielded;
    if yielded != [] {
      assert yielded[|yielded| - 1] in yielded;
      assert r.recordedAt >= s.client.resume;
    }
  }

  /** A received record is at or past the resume point, and is skipped exactly when it was yielded. */
  lemma ReceivedInOrder(from: int, s: Net, s': Net, r: Record)
    requires Inv(from, s) && Receive(s, s', r)
    ensures r.recordedAt >= s.client.resume
    ensures Skips(s.client, r) <==> r in s.client.yielded
  {
    if Skips(s.client, r) {
      var q :| q in s.client.yielded && q.cause == r.cause && q.recordedAt == s.client.resume;
      assert q == r;
    }
  }

  ghost predicate SeenInv(c: Client) {
    forall x :: x in c.seen <==> exists r :: r in c.yielded && r.cause == x && r.recordedAt == c.resume
  }

  /** A record that moves the resume time on, or is new at it, is seen there. */
  lemma {:induction false} EmitKeepsSeen(c: Client, r: Record)
    requires SeenInv(c) && r.recordedAt >= c.resume && !Skips(c, r)
    requires forall q :: q in c.yielded ==> q.recordedAt <= c.resume
    ensures SeenInv(Emit(c, r))
  {
    var Client(resume, seen, yielded) := Emit(c, r);
    assert r in yielded;
    forall x
      ensures x in seen <==> exists q :: q in yielded && q.cause == x && q.recordedAt == resume
    {
      if x in seen && x != r.cause {
        var q :| q in c.yielded && q.cause == x && q.recordedAt == c.resume;
        assert q in yielded;
      }
      if q :| q in yielded && q.cause == x && q.recordedAt == resume {
        if q != r {
          assert q in c.yielded;
        }
      }
    }
  }

  /** A new record leaves no gap behind the resume time it moves to, as it is an earliest one not yet sent. */
  lemma {:induction false} ReceiveLeavesNoGap(from: int, s: Net, s': Net, r: Record)
    requires Inv(from, s) && Receive(s, s', r) && r.recordedAt >= s.client.resume && !Skips(s.client, r)
    ensures forall q :: q in s'.log && from <= q.recordedAt < s'.client.resume ==> q in s'.client.yielded
  {
    forall q | q in s'.log && from <= q.recordedAt < s'.client.resume
      ensures q in s.client.yielded
    {
      if q.recordedAt >= s.client.resume {
        assert q in s.link.value.received;
      }
    }
  }

  lemma {:induction false} ReceiveKeepsClient(from: int, s: Net, s': Net, r: Record)
    requires Inv(from, s) && Receive(s, s', r)
    ensures ClientInv(from, s')
  {
    ReceivedInOrder(from, s, s', r);
    if !Skips(s.client, r) {
      EmitKeepsSeen(s.client, r);
      ReceiveLeavesNoGap(from, s, s', r);
      assert SeenInv(s'.client);
    }
  }

  lemma ReceiveKeeps(from: int, s: Net, s': Net, r: Record)
    requires Inv(from, s) && Receive(s, s', r)
    ensures Inv(from, s')
  {
    ReceivedInOrder(from, s, s', r);
    ReceiveKeepsClient(from, s, s', r);
  }

  lemma {:induction false} NextKeeps(from: int, s: Net, s': Net)
    requires Inv(from, s) && Next(true, s, s')
    ensures Inv(from, s')
  {
    if r: Record :| Publish(true, s, s', r) {
      PublishKeeps(from, s, s', r);
    } else if r: Record :| Receive(s, s', r) {
      ReceiveKeeps(from, s, s', r);
    }
  }

  lemma {:induction false} RunKeeps(from: int, trace: seq<Net>, i: nat)
    requires IsRun(true, from, trace) && i < |trace|
    ensures Inv(from, trace[i])
  {
    if i == 0 {
    } else {
      RunKeeps(from, trace, i - 1);
      assert Next(true, trace[i - 1], trace[i - 1 + 1]);
      NextKeeps(from, trace[i - 1], trace[i]);
    }
  }

  /** Every published record the client asked for has been received over the connection it has. */
  ghost predicate CaughtUp(s: Net) {
    s.link.Some? && forall r :: r in s.log && r.recordedAt >= s.link.value.cursor ==> r in s.link.value.received
  }

  /**
   * One Stream call yields each revocation once, over any number of
   * interruptions: never twice, in record time order, without gaps behind the
   * resume point, and all of them once a connection has caught up.
   */
  lemma OnceAcrossReconnects(from: int, trace: seq<Net>)
    requires IsRun(true, from, trace)
    ensures
      var s := trace[|trace| - 1];
      var yielded := s.client.yielded;
      && DistinctCauses(yielded)
      && (forall i, j :: 0 <= i < j < |yielded| ==> yielded[i].recordedAt <= yielded[j].recordedAt)
      && (forall r :: r in yielded ==> r in s.log && r.recordedAt >= from)
      && (forall r :: r in s.log && from <= r.recordedAt < s.client.resume ==> r in yielded)
      && (CaughtUp(s) ==> forall r :: r in s.log && r.recordedAt >= from ==> r in yielded)
  {
    RunKeeps(from, trace, |trace| - 1);
    InvYieldsOnce(from, trace[|trace| - 1]);
  }

  lemma InvYieldsOnce(from: int, s: Net)
    requires Inv(from, s)
    ensures DistinctCauses(s.client.yielded)
  {
    var yielded := s.client.yielded;
    forall i, j | 0 <= i < j < |yielded|
      ensures yielded[i].cause != yielded[j].cause
    {
      assert yielded[i] in s.log && yielded[j] in s.log;
    }
  }

  /** seen is always exactly the causes yielded at the resume timestamp. */
  lemma SeenIsYieldedAtResume(from: int, trace: seq<Net>)
    requires IsRun(true, from, trace)
    ensures
      var c := trace[|trace| - 1].client;
      forall x :: x in c.seen <==> exists r :: r in c.yielded && r.cause == x && r.recordedAt == c.resume
  {
    RunKeeps(from, trace, |trace| - 1);
  }

  /**
   * The order of publication is needed. A record published late, with an
   * earlier time, moves the resume point back, and reconnecting there yields
   * again what was delivered before it.
   */
  lemma {:induction false} LateRecordRepeats() returns (trace: seq<Net>)
    ensures IsRun(false, 0, trace) && !DistinctCauses(trace[|trace| - 1].client.yielded)
  {
    var a := Record(Cid(0), [], Cid(1), 10);
    var b := Record(Cid(2), [], Cid(3), 5);
    var start := Client(0, {}, []);
    var one, two := Client(10, {a.cause}, [a]), Client(5, {b.cause}, [a, b]);
    var three := Client(10, {a.cause}, [a, b, a]);
    trace := [
      Net({}, start, None),
      Net({a}, start, None),
      Net({a}, start, Some(Link(0, {}))),
      Net({a}, one, Some(Link(0, {a}))),
      Net({a, b}, one, Some(Link(0, {a}))),
      Net({a, b}, two, Some(Link(0, {a, b}))),
      Net({a, b}, two, None),
      Net({a, b}, two, Some(Link(5, {}))),
      Net({a, b}, two, Some(Link(5, {b}))),
      Net({a, b}, three, Some(Link(5, {b, a})))];
    assert Publish(false, trace[0], trace[1], a);
    assert Open(trace[1], trace[2]);
    assert Receive(trace[2], trace[3], a);
    assert Publish(false, trace[3], trace[4], b);
    assert Receive(trace[4], trace[5], b);
    assert Drop(trace[5], trace[6]);
    assert Open(trace[6], trace[7]);
    assert Emit(two, b) == two && {} + {b} == {b};
    assert Receive(trace[7], trace[8], b);
    assert Emit(two, a) == three && {b} + {a} == {b, a};
    assert Receive(trace[8], trace[9], a);
    assert trace[9].client.yielded[0].cause == trace[9].client.yielded[2].cause;
  }

  ghost predicate NeverTwice(ordered: bool) {
    forall from: int, trace: seq<Net> :: IsRun(ordered, from, trace) ==>
      DistinctCauses(trace[|trace| - 1].client.yielded)
  }

  /** Of the protocol that orders publication and the one that does not, the first alone never yields a cause twice. */
  lemma OnceIffOrdered(ordered: bool)
    ensures NeverTwice(ordered) <==> ordered
  {
    if ordered {
      forall from: int, trace: seq<Net> | IsRun(ordered, from, trace)
        ensures DistinctCauses(trace[|trace| - 1].client.yielded)
      {
        OnceAcrossReconnects(from, trace);
      }
    } else {
      var trace := LateRecordRepeats();
    }
  }

  // ----------------------------------------- what a state can still repeat

  /** A step that publishes nothing. */
  ghost predicate Quiet(s: Net, s': Net) {
    Open(s, s') || Drop(s, s') || exists r :: Receive(s, s', r)
  }

  ghost predicate Continues(s: Net, trace: seq<Net>) {
    && |trace| > 0 && trace[0] == s
    && (forall i :: 0 <= i < |trace| - 1 ==> Quiet(trace[i], trace[i + 1]))
  }

  /** The records the connection has still to send. */
  ghost function Unsent(s: Net): set<Record>
    requires s.link.Some?
  {
    set q | q in s.log && q.recordedAt >= s.link.value.cursor && q !in s.link.value.received
  }

  /** A delivered record is ahead of where the client resumes: at a later time, or at that time and forgotten. */
  ghost predicate Ahead(c: Client, r: Record) {
    r in c.yielded && (r.recordedAt > c.resume || (r.recordedAt == c.resume && r.cause !in c.seen))
  }

  /** The connection has still to send a record from before where the client is. */
  ghost predicate LateToCome(s: Net) {
    s.link.Some? && exists q :: q in Unsent(s) && q.recordedAt < s.client.resume
  }

  /** The client has gone back behind something it delivered, or is about to. */
  ghost predicate Behind(s: Net) {
    (exists r :: Ahead(s.client, r)) || LateToCome(s)
  }

  /** What holds in every state, ordered or not. */
  ghost predicate BaseInv(from: int, s: Net) {
    var c := s.client;
    && UniqueCauses(s.log)
    && (forall r :: r in c.yielded ==> r in s.log)
    && (if c.yielded == [] then c.resume == from && c.seen == {}
        else c.yielded[|c.yielded| - 1].recordedAt == c.resume)
    && (forall x :: x in c.seen ==> exists r :: r in c.yielded && r.cause == x && r.recordedAt == c.resume)
    && (s.link.Some? && c.yielded == [] ==> s.link.value.cursor == from)
  }

  lemma {:induction false} EmitKeepsSeenBy(c: Client, r: Record)
    requires forall x :: x in c.seen ==> exists q :: q in c.yielded && q.cause == x && q.recordedAt == c.resume
    ensures
      var c' := Emit(c, r);
      forall x :: x in c'.seen ==> exists q :: q in c'.yielded && q.cause == x && q.recordedAt == c'.resume
  {
    var c' := Emit(c, r);
    if !Skips(c, r) {
      assert r in c'.yielded;
      forall x | x in c'.seen
        ensures exists q :: q in c'.yielded && q.cause == x && q.recordedAt == c'.resume
      {
        if x != r.cause {
          var q :| q in c.yielded && q.cause == x && q.recordedAt == c.resume;
          assert q in c'.yielded;
        }
      }
    }
  }

  lemma {:induction false} BaseKeeps(from: int, s: Net, s': Net)
    requires BaseInv(from, s) && Next(false, s, s')
    ensures BaseInv(from, s')
  {
    if r: Record :| Receive(s, s', r) {
      EmitKeepsSeenBy(s.client, r);
    }
  }

  lemma {:induction false} RunKeepsBase(from: int, trace: seq<Net>, i: nat)
    requires IsRun(false, from, trace) && i < |trace|
    ensures BaseInv(from, trace[i])
  {
    if i == 0 {
    } else {
      RunKeepsBase(from, trace, i - 1);
      assert Next(false, trace[i - 1], trace[i - 1 + 1]);
      BaseKeeps(from, trace[i - 1], trace[i]);
    }
  }

  // Not behind, the client repeats nothing that is published already.

  lemma {:induction false} NotBehindReceives(from: int, s: Net, s': Net, r: Record)
    requires BaseInv(from, s) && !Behind(s) && DistinctCauses(s.client.yielded) && Receive(s, s', r)
    ensures !Behind(s') && DistinctCauses(s'.client.yielded)
  {
    var c, c' := s.client, s'.client;
    assert r in Unsent(s) && r.recordedAt >= c.resume;
    assert !Ahead(c, r);
    if !Skips(c, r) {
      forall q | q in c.yielded
        ensures q.cause != r.cause
      {
        assert !Ahead(c, q) && q in s.log;
      }
      forall q
        ensures !Ahead(c', q)
      {
        assert !Ahead(c, q);
      }
    } else {
      assert c' == c;
    }
    forall q | q in Unsent(s')
      ensures q.recordedAt >= c'.resume
    {
      assert q in Unsent(s);
    }
  }

  lemma {:induction false} NotBehindContinues(from: int, trace: seq<Net>, i: nat)
    requires |trace| > 0 && Continues(trace[0], trace) && i < |trace|
    requires BaseInv(from, trace[0]) && !Behind(trace[0]) && DistinctCauses(trace[0].client.yielded)
    ensures BaseInv(from, trace[i]) && !Behind(trace[i]) && DistinctCauses(trace[i].client.yielded)
  {
    if i == 0 {
    } else {
      var s, s' := trace[i - 1], trace[i];
      NotBehindContinues(from, trace, i - 1);
      assert Quiet(trace[i - 1], trace[i - 1 + 1]);
      BaseKeeps(from, s, s');
      if r: Record :| Receive(s, s', r) {
        NotBehindReceives(from, s, s', r);
      } else {
        assert forall r :: Ahead(s'.client, r) <==> Ahead(s.client, r);
      }
    }
  }

  // Behind, it can be made to repeat something.

  lemma {:induction false} Earliest(rs: set<Record>) returns (r: Record)
    requires rs != {}
    ensures r in rs && forall q :: q in rs ==> r.recordedAt <= q.recordedAt
    decreases |rs|
  {
    r :| r in rs;
    var rest := rs - {r};
    if rest == {} {
      assert rs == {r};
    } else {
      var q := Earliest(rest);
      if q.recordedAt < r.recordedAt {
        r := q;
      }
    }
  }

  ghost function AfterReceiving(s: Net, r: Record): Net
    requires s.link.Some?
  {
    var Link(cursor, received) := s.link.value;
    s.(client := Emit(s.client, r), link := Some(Link(cursor, received + {r})))
  }

  /** The connection goes on sending until it sends a delivered record that is ahead. */
  lemma {:induction false} SendsAhead(s: Net, r: Record) returns (trace: seq<Net>)
    requires UniqueCauses(s.log) && s.link.Some? && !LateToCome(s) && r in Unsent(s) && Ahead(s.client, r)
    ensures Continues(s, trace) && !DistinctCauses(trace[|trace| - 1].client.yielded)
    decreases |Unsent(s)|
  {
    var x := Earliest(Unsent(s));
    var s' := AfterReceiving(s, x);
    assert Receive(s, s', x);
    assert Unsent(s') == Unsent(s) - {x};
    if x.cause == r.cause {
      RepeatedYield(s.client, x, r);
      trace := [s, s'];
    } else {
      assert x.recordedAt >= s.client.resume && Ahead(s'.client, r);
      var more := SendsAhead(s', r);
      trace := [s] + more;
    }
  }

  lemma {:induction false} RepeatedYield(c: Client, x: Record, r: Record)
    requires r in c.yielded && x.cause == r.cause && !Skips(c, x)
    ensures !DistinctCauses(Emit(c, x).yielded)
  {
    var yielded := Emit(c, x).yielded;
    var i :| 0 <= i < |c.yielded| && c.yielded[i] == r;
    assert yielded[i].cause == yielded[|c.yielded|].cause;
  }

  /** Reconnecting where the client resumes makes it send again what is ahead. */
  lemma {:induction false} ReconnectRepeats(from: int, s: Net, r: Record) returns (trace: seq<Net>)
    requires BaseInv(from, s) && Ahead(s.client, r)
    ensures Continues(s, trace) && !DistinctCauses(trace[|trace| - 1].client.yielded)
  {
    var dropped := s.(link := None);
    var resumed := s.(link := Some(Link(s.client.resume, {})));
    assert Drop(s, dropped) && Open(dropped, resumed);
    assert r in Unsent(resumed);
    var more := SendsAhead(resumed, r);
    trace := [s, dropped] + more;
  }

  /** A late record that is sent goes behind everything delivered since. */
  lemma {:induction false} LateRepeats(from: int, s: Net) returns (trace: seq<Net>)
    requires BaseInv(from, s) && LateToCome(s)
    ensures Continues(s, trace) && !DistinctCauses(trace[|trace| - 1].client.yielded)
  {
    var x := Earliest(Unsent(s));
    var s' := AfterReceiving(s, x);
    assert Receive(s, s', x);
    if r :| r in s.client.yielded && r.cause == x.cause {
      RepeatedYield(s.client, x, r);
      trace := [s, s'];
    } else {
      var last := s.client.yielded[|s.client.yielded| - 1];
      assert last in s'.client.yielded && Ahead(s'.client, last);
      BaseKeeps(from, s, s');
      var more := ReconnectRepeats(from, s', last);
      trace := [s] + more;
    }
  }

  /** Some course of the network alone, with nothing more published, makes the client yield a cause twice. */
  ghost predicate CanRepeat(s: Net) {
    exists trace: seq<Net> :: Continues(s, trace) && !DistinctCauses(trace[|trace| - 1].client.yielded)
  }

  /**
   * The exact condition on a state: what is published already can still be
   * yielded twice if and only if the client has gone back behind a record it
   * delivered, or its connection has a record from before its resume time to send.
   */
  lemma {:induction false} RepeatsIffBehind(from: int, run: seq<Net>, s: Net)
    requires IsRun(false, from, run) && s == run[|run| - 1] && DistinctCauses(s.client.yielded)
    ensures CanRepeat(s) <==> Behind(s)
  {
    RunKeepsBase(from, run, |run| - 1);
    if Behind(s) {
      if r :| Ahead(s.client, r) {
        var trace := ReconnectRepeats(from, s, r);
      } else {
        var trace := LateRepeats(from, s);
      }
    } else {
      forall trace: seq<Net> | Continues(s, trace)
        ensures DistinctCauses(trace[|trace| - 1].client.yielded)
      {
        NotBehindContinues(from, trace, |trace| - 1);
      }
    }
  }
}
