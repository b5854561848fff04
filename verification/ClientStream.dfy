// The reconnecting stream of pkg/client/client.go: one call that resumes at the
// last delivered timestamp and skips what it already delivered there.

module ClientStream {
  import opened Types
  import Sse

  // --------------------------------------------------------- one record

  /** The variables of a Stream call, and what it has yielded. */
  datatype Client = Client(resume: int, seen: set<Cid>, yielded: seq<Record>)

  predicate Skips(c: Client, r: Record) {
    r.recordedAt == c.resume && r.cause in c.seen
  }

  /** The callback streamConn runs on each record. */
  function Emit(c: Client, r: Record): Client {
    if Skips(c, r) then c
    else Client(r.recordedAt, (if r.recordedAt == c.resume then c.seen else {}) + {r.cause}, c.yielded + [r])
  }

  function EmitAll(c: Client, rs: seq<Record>): Client {
    if rs == [] then c else Emit(EmitAll(c, rs[..|rs| - 1]), rs[|rs| - 1])
  }

  // ----------------------------------------------------- one connection

  /** How streamConn returns: errStreamStopped, a connectError, a corruptError or nil. */
  datatype Ending = Stopped | ConnectFailed | Corrupt | Ended

  datatype Conn = Conn(client: Client, patience: nat, ending: Ending)

  type Decoder = string -> Option<Record>

  /**
   * The scanning loop of streamConn over the events a body holds. `patience` is
   * how many more records the consumer will take before it stops iterating.
   */
  function Read(c: Client, patience: nat, scanned: Sse.Scanned, decode: Decoder): Conn
    requires patience > 0
    decreases |scanned.events|
  {
    var Scanned(events, tooLong) := scanned;
    if events == [] then Conn(c, patience, if tooLong then Corrupt else Ended)
    else
      var rest := Sse.Scanned(events[1..], tooLong);
      if events[0].name != "revocation" then Read(c, patience, rest, decode)
      else
        match decode(events[0].data)
        case None => Conn(c, patience, Corrupt)
        case Some(r) =>
          if Skips(c, r) then Read(c, patience, rest, decode)
          else if patience == 1 then Conn(Emit(c, r), 0, Stopped)
          else Read(Emit(c, r), patience - 1, rest, decode)
  }

  /** What is left to read after the first event. */
  function Rest(scanned: Sse.Scanned): Sse.Scanned
    requires scanned.events != []
  {
    Sse.Scanned(scanned.events[1..], scanned.tooLong)
  }

  lemma {:induction false} ReadFirst(c: Client, patience: nat, scanned: Sse.Scanned, decode: Decoder)
    requires patience > 0 && scanned.events != []
    ensures
      var event := scanned.events[0];
      Read(c, patience, scanned, decode) ==
        if event.name != "revocation" then Read(c, patience, Rest(scanned), decode)
        else
          match decode(event.data)
          case None => Conn(c, patience, Corrupt)
          case Some(r) =>
            if Skips(c, r) then Read(c, patience, Rest(scanned), decode)
            else if patience == 1 then Conn(Emit(c, r), 0, Stopped)
            else Read(Emit(c, r), patience - 1, Rest(scanned), decode)
  {
  }

  // ----------------------------------------------------------- one call

  /** What the service answers: no stream at all, or a body that ends after these bytes. */
  datatype Reply = Refused | Opened(body: string)

  /**
   * One turn of the reconnect loop: what the service answers to a request from a
   * time, and whether ctx was done after it or during the back-off.
   */
  datatype Attempt = Attempt(reply: int -> Reply, cancelled: bool, cancelledAsleep: bool)

  /** Why Stream returned; Running when it has not. */
  datatype Exit = ConsumerStopped | Cancelled | CorruptStream | NeverConnected | Running

  predicate Undecodable(e: Sse.Event, decode: Decoder) {
    e.name == "revocation" && decode(e.data) == None
  }

  /**
   * With a consumer that keeps reading, a connection is reported corrupt if and
   * only if an event on it is too long or some revocation cannot be decoded;
   * anything else is an interruption, after which the call reconnects.
   */
  lemma {:induction false} CorruptIff(c: Client, patience: nat, scanned: Sse.Scanned, decode: Decoder)
    requires patience > |scanned.events|
    ensures
      var ending := Read(c, patience, scanned, decode).ending;
      && (ending == Corrupt <==>
            scanned.tooLong || exists i :: 0 <= i < |scanned.events| && Undecodable(scanned.events[i], decode))
      && (ending != Corrupt ==> ending == Ended)
    decreases |scanned.events|
  {
    var Scanned(events, tooLong) := scanned;
    if events == [] {
    } else {
      var rest := Sse.Scanned(events[1..], tooLong);
      assert forall i :: 0 < i < |events| ==> events[i] == rest.events[i - 1];
      assert forall i :: 0 <= i < |rest.events| ==> rest.events[i] == events[i + 1];
      if events[0].name != "revocation" {
        CorruptIff(c, patience, rest, decode);
      } else if !Undecodable(events[0], decode) {
        var r := decode(events[0].data).value;
        if Skips(c, r) {
          CorruptIff(c, patience, rest, decode);
        } else {
          CorruptIff(Emit(c, r), patience - 1, rest, decode);
        }
      }
    }
  }

  // ------------------------------------------------ what a call receives

  /** The records of the revocations among events, up to the first that cannot be decoded. */
  function Decoded(events: seq<Sse.Event>, decode: Decoder): seq<Record> {
    if events == [] then []
    else if events[0].name != "revocation" then Decoded(events[1..], decode)
    else
      match decode(events[0].data)
      case None => []
      case Some(r) => [r] + Decoded(events[1..], decode)
  }

  /** An event of the body is too long, or a revocation in it cannot be decoded. */
  ghost predicate Spoiled(scanned: Sse.Scanned, decode: Decoder) {
    scanned.tooLong || exists i :: 0 <= i < |scanned.events| && Undecodable(scanned.events[i], decode)
  }

  /** What a reply offers to a consumer that keeps reading. */
  function Offered(reply: Reply, decode: Decoder): seq<Record> {
    if reply.Refused? then [] else Decoded(Sse.ScanAll(reply.body).events, decode)
  }

  /** What the first `k` replies offer, one after another. */
  function AllOffered(replies: seq<Reply>, k: nat, decode: Decoder): seq<Record>
    requires k <= |replies|
  {
    if k == 0 then [] else AllOffered(replies, k - 1, decode) + Offered(replies[k - 1], decode)
  }

  /** The resume time of a client that was `c`, once it has received what the first `k` replies offer. */
  function ResumeAfter(c: Client, replies: seq<Reply>, k: nat, decode: Decoder): int
    requires k <= |replies|
  {
    EmitAll(c, AllOffered(replies, k, decode)).resume
  }

  /** Attempt `i` is answered by reply `i`, at the resume time that those before it leave. */
  ghost predicate AnsweredAt(c: Client, attempts: seq<Attempt>, replies: seq<Reply>, i: nat, decode: Decoder)
    requires i < |replies| <= |attempts|
  {
    replies[i] == attempts[i].reply(ResumeAfter(c, replies, i, decode))
  }

  /** So are the first `k` of them. */
  ghost predicate Answered(c: Client, attempts: seq<Attempt>, replies: seq<Reply>, k: nat, decode: Decoder)
    requires k <= |replies| <= |attempts|
  {
    forall i :: 0 <= i < k ==> AnsweredAt(c, attempts, replies, i, decode)
  }

  ghost predicate SpoiledBody(reply: Reply, decode: Decoder) {
    reply.Opened? && Spoiled(Sse.ScanAll(reply.body), decode)
  }

  /** Whether an attempt ends a call whose consumer keeps reading; `first` is said of the first of them. */
  ghost predicate EndsCall(a: Attempt, reply: Reply, first: bool, decode: Decoder) {
    a.cancelled || SpoiledBody(reply, decode) || (first && reply.Refused?) || a.cancelledAsleep
  }

  /** None of the first `k` attempts does. */
  ghost predicate NoneEnds(attempts: seq<Attempt>, replies: seq<Reply>, k: nat, decode: Decoder)
    requires k <= |replies| <= |attempts|
  {
    forall i :: 0 <= i < k ==> !EndsCall(attempts[i], replies[i], i == 0, decode)
  }

  lemma {:induction false} FirstAnswer(c: Client, attempts: seq<Attempt>, replies: seq<Reply>, k: nat, decode: Decoder)
    requires 0 < k <= |replies| <= |attempts| && Answered(c, attempts, replies, k, decode)
    ensures replies[0] == attempts[0].reply(c.resume)
  {
    assert AnsweredAt(c, attempts, replies, 0, decode);
    assert AllOffered(replies, 0, decode) == [] && EmitAll(c, []) == c;
  }

  /** What replies offer, and whether they end the call, does not depend on those after them. */
  lemma {:induction false} OfferedStays(replies: seq<Reply>, longer: seq<Reply>, k: nat, decode: Decoder)
    requires k <= |replies| && replies <= longer
    ensures AllOffered(longer, k, decode) == AllOffered(replies, k, decode)
  {
    if k == 0 {
    } else {
      OfferedStays(replies, longer, k - 1, decode);
    }
  }

  lemma {:induction false} AnsweredStays(c: Client, attempts: seq<Attempt>, more: seq<Attempt>,
                                         replies: seq<Reply>, longer: seq<Reply>, k: nat, decode: Decoder)
    requires k <= |replies| <= |attempts| && replies <= longer && attempts <= more && |longer| <= |more|
    requires Answered(c, attempts, replies, k, decode)
    ensures Answered(c, more, longer, k, decode)
  {
    forall i | 0 <= i < k
      ensures AnsweredAt(c, more, longer, i, decode)
    {
      assert AnsweredAt(c, attempts, replies, i, decode);
      OfferedStays(replies, longer, i, decode);
    }
  }

  lemma {:induction false} EmitAllAppend(c: Client, rs: seq<Record>, more: seq<Record>)
    ensures EmitAll(c, rs + more) == EmitAll(EmitAll(c, rs), more)
    decreases |more|
  {
    if more == [] {
      assert rs + more == rs;
    } else {
      EmitAllAppend(c, rs, more[..|more| - 1]);
      assert (rs + more)[..|rs + more| - 1] == rs + more[..|more| - 1];
    }
  }

  lemma {:induction false} EmitAllOne(c: Client, r: Record)
    ensures EmitAll(c, [r]) == Emit(c, r) && EmitAll(c, []) == c
  {
    assert [r][..0] == [];
  }

  /** Each record received is yielded once at most. */
  lemma {:induction false} YieldsNoMore(c: Client, rs: seq<Record>)
    ensures |c.yielded| <= |EmitAll(c, rs).yielded| <= |c.yielded| + |rs|
    decreases |rs|
  {
    if rs == [] {
    } else {
      YieldsNoMore(c, rs[..|rs| - 1]);
    }
  }

  /** How many more records a consumer of `patience` takes after a client went from `c` to `c'`. */
  function Left(patience: nat, c: Client, c': Client): int {
    patience - (|c'.yielded| - |c.yielded|)
  }

  /** The consumer's last record is the last one received. */
  ghost predicate StopsThere(c: Client, patience: nat, taken: seq<Record>) {
    taken != [] && Left(patience, c, EmitAll(c, taken)) == 0 && Left(patience, c, EmitAll(c, taken[..|taken| - 1])) > 0
  }

  /** What an event that is not the end of its connection gives. */
  lemma {:induction false} DecodedFirst(scanned: Sse.Scanned, decode: Decoder)
    requires scanned.events != []
    ensures
      var event := scanned.events[0];
      Decoded(scanned.events, decode) ==
        if event.name != "revocation" then Decoded(Rest(scanned).events, decode)
        else
          match decode(event.data)
          case None => []
          case Some(r) => [r] + Decoded(Rest(scanned).events, decode)
    ensures Spoiled(scanned, decode) <==> Undecodable(scanned.events[0], decode) || Spoiled(Rest(scanned), decode)
  {
    var events, rest := scanned.events, Rest(scanned).events;
    assert forall i :: 0 < i < |events| ==> events[i] == rest[i - 1];
    assert forall i :: 0 <= i < |rest| ==> rest[i] == events[i + 1];
  }

  lemma {:induction false} StopsOneLater(c: Client, patience: nat, r: Record, taken: seq<Record>)
    requires Left(patience, c, Emit(c, r)) >= 0
    requires StopsThere(Emit(c, r), Left(patience, c, Emit(c, r)), taken)
    ensures StopsThere(c, patience, [r] + taken)
  {
    var all := [r] + taken;
    EmitAllOne(c, r);
    EmitAllAppend(c, [r], taken);
    EmitAllAppend(c, [r], taken[..|taken| - 1]);
    assert all[..|all| - 1] == [r] + taken[..|taken| - 1];
  }

  /**
   * One connection in terms of what its events are: the client has emitted the
   * decoded revocations, all of them or up to the one the consumer stops at; it
   * is corrupt when one of the events is, unless the consumer stops before.
   */
  lemma {:induction false} ReadMeans(c: Client, patience: nat, scanned: Sse.Scanned, decode: Decoder)
    returns (taken: seq<Record>)
    requires patience > 0
    ensures
      var out := Read(c, patience, scanned, decode);
      && taken <= Decoded(scanned.events, decode) && out.client == EmitAll(c, taken)
      && out.patience == Left(patience, c, out.client) && !out.ending.ConnectFailed?
      && (out.ending == Stopped <==> out.patience == 0)
      && (out.patience == 0 ==> StopsThere(c, patience, taken))
      && (out.patience > 0 ==> taken == Decoded(scanned.events, decode))
      && (out.patience > 0 ==> (out.ending == Corrupt <==> Spoiled(scanned, decode)))
    decreases |scanned.events|
  {
    taken := [];
    if scanned.events == [] {
    } else {
      var event := scanned.events[0];
      ReadFirst(c, patience, scanned, decode);
      DecodedFirst(scanned, decode);
      if event.name != "revocation" {
        taken := ReadMeans(c, patience, Rest(scanned), decode);
      } else if decode(event.data).Some? {
        taken := ReadRecord(c, patience, scanned, decode, decode(event.data).value);
      }
    }
  }

  lemma {:induction false} ReadRecord(c: Client, patience: nat, scanned: Sse.Scanned, decode: Decoder, r: Record)
    returns (taken: seq<Record>)
    requires patience > 0 && scanned.events != [] && scanned.events[0].name == "revocation"
    requires decode(scanned.events[0].data) == Some(r)
    ensures
      var out := Read(c, patience, scanned, decode);
      && taken <= Decoded(scanned.events, decode) && out.client == EmitAll(c, taken)
      && out.patience == Left(patience, c, out.client) && !out.ending.ConnectFailed?
      && (out.ending == Stopped <==> out.patience == 0)
      && (out.patience == 0 ==> StopsThere(c, patience, taken))
      && (out.patience > 0 ==> taken == Decoded(scanned.events, decode))
      && (out.patience > 0 ==> (out.ending == Corrupt <==> Spoiled(scanned, decode)))
    decreases |scanned.events|, 0
  {
    ReadFirst(c, patience, scanned, decode);
    DecodedFirst(scanned, decode);
    EmitAllOne(c, r);
    var left := Left(patience, c, Emit(c, r));
    if left == 0 {
      taken := [r];
      assert taken[..0] == [];
    } else {
      var rest := ReadMeans(Emit(c, r), left, Rest(scanned), decode);
      EmitAllAppend(c, [r], rest);
      taken := [r] + rest;
      if Read(c, patience, scanned, decode).patience == 0 {
        StopsOneLater(c, patience, r, rest);
      }
    }
  }

  lemma {:induction false} StopsFurther(c: Client, patience: nat, before: seq<Record>, taken: seq<Record>)
    requires
      var left := Left(patience, c, EmitAll(c, before));
      left >= 0 && StopsThere(EmitAll(c, before), left, taken)
    ensures StopsThere(c, patience, before + taken)
  {
    var all := before + taken;
    EmitAllAppend(c, before, taken);
    EmitAllAppend(c, before, taken[..|taken| - 1]);
    assert all[..|all| - 1] == before + taken[..|taken| - 1];
  }

  /** Why an attempt ends a call whose consumer keeps reading, if it does. */
  ghost function ExitOf(a: Attempt, reply: Reply, first: bool, decode: Decoder): Option<Exit> {
    if a.cancelled then Some(Cancelled)
    else if SpoiledBody(reply, decode) then Some(CorruptStream)
    else if first && reply.Refused? then Some(NeverConnected)
    else if a.cancelledAsleep then Some(Cancelled)
    else None
  }

  /** What is received of one more attempt, whole or up to where the consumer stops. */
  lemma {:induction false} ReceivesMore(c: Client, patience: nat, received: seq<Record>, offered: seq<Record>,
                                        more: seq<Record>, now: Client, next: Client)
    requires now == EmitAll(c, received) && next == EmitAll(now, more) && more <= offered
    requires Left(patience, c, now) >= 0 && Left(patience, c, next) >= 0
    requires Left(patience, c, next) == 0 ==> StopsThere(now, Left(patience, c, now), more)
    ensures next == EmitAll(c, received + more) && received + more <= received + offered
    ensures Left(patience, c, next) == 0 ==>
      |received| < |received + more| && StopsThere(c, patience, received + more)
  {
    EmitAllAppend(c, received, more);
    if Left(patience, c, next) == 0 {
      StopsFurther(c, patience, received, more);
    }
  }

  /** These attempts have been made, answered and received whole, and none of them ends the call. */
  ghost predicate Underway(c: Client, attempts: seq<Attempt>, replies: seq<Reply>, decode: Decoder,
                           received: seq<Record>, now: Client) {
    && |replies| <= |attempts|
    && Answered(c, attempts, replies, |replies|, decode) && NoneEnds(attempts, replies, |replies|, decode)
    && received == AllOffered(replies, |replies|, decode) && now == EmitAll(c, received)
  }

  /**
   * How a call returns. The attempts made are answered by `replies`, each at the
   * resume time that those before it leave. What they offer is received, all of
   * it or up to the record, in the last of them, at which the consumer stops. No
   * attempt before the last ends the call, and the last one tells the exit.
   */
  ghost predicate Returns(c: Client, patience: nat, attempts: seq<Attempt>, replies: seq<Reply>, decode: Decoder,
                          received: seq<Record>, now: Client, left: int, exit: Exit) {
    var made := |replies|;
    && made <= |attempts| && Answered(c, attempts, replies, made, decode)
    && now == EmitAll(c, received) && left >= 0 && (made > 0 ==> NoneEnds(attempts, replies, made - 1, decode))
    && (left == 0 ==>
          && exit == ConsumerStopped && StopsThere(c, patience, received)
          && made > 0 && |AllOffered(replies, made - 1, decode)| < |received|
          && received <= AllOffered(replies, made, decode))
    && (left > 0 ==> received == AllOffered(replies, made, decode))
    && (left > 0 && NoneEnds(attempts, replies, made, decode) ==> made == |attempts| && exit == Running)
    && (left > 0 && !NoneEnds(attempts, replies, made, decode) ==>
          var a, reply := attempts[made - 1], replies[made - 1];
          exit ==
            if a.cancelled then Cancelled
            else if SpoiledBody(reply, decode) then CorruptStream
            else if made == 1 && reply.Refused? then NeverConnected
            else Cancelled)
  }

  /** One more attempt is answered. */
  lemma {:induction false} OneMoreAnswer(c: Client, attempts: seq<Attempt>, replies: seq<Reply>, reply: Reply,
                                         decode: Decoder)
    requires |replies| < |attempts| && Answered(c, attempts, replies, |replies|, decode)
    requires reply == attempts[|replies|].reply(ResumeAfter(c, replies, |replies|, decode))
    ensures
      var longer, k := replies + [reply], |replies|;
      && Answered(c, attempts, longer, k + 1, decode)
      && AllOffered(longer, k, decode) == AllOffered(replies, k, decode)
      && AllOffered(longer, k + 1, decode) == AllOffered(replies, k, decode) + Offered(reply, decode)
  {
    var longer, k := replies + [reply], |replies|;
    OfferedStays(replies, longer, k, decode);
    AnsweredStays(c, attempts, attempts, replies, longer, k, decode);
    assert AnsweredAt(c, attempts, longer, k, decode);
  }

  /** It ends the call or does not, whatever those before it do. */
  lemma {:induction false} OneMoreEnds(attempts: seq<Attempt>, replies: seq<Reply>, reply: Reply, decode: Decoder)
    requires |replies| < |attempts| && NoneEnds(attempts, replies, |replies|, decode)
    ensures
      var longer, k := replies + [reply], |replies|;
      && NoneEnds(attempts, longer, k, decode)
      && (NoneEnds(attempts, longer, k + 1, decode) <==> !EndsCall(attempts[k], reply, k == 0, decode))
  {
    var longer, k := replies + [reply], |replies|;
    forall i | 0 <= i < k
      ensures !EndsCall(attempts[i], longer[i], i == 0, decode)
    {
      assert longer[i] == replies[i];
    }
    assert longer[k] == reply;
  }

  lemma {:induction false} OneMore(c: Client, attempts: seq<Attempt>, replies: seq<Reply>, decode: Decoder,
                                   received: seq<Record>, now: Client, longer: seq<Reply>)
    requires Underway(c, attempts, replies, decode, received, now) && |replies| < |attempts|
    requires longer == replies + [attempts[|replies|].reply(now.resume)]
    ensures
      var k, reply := |replies|, longer[|replies|];
      && Answered(c, attempts, longer, k + 1, decode) && NoneEnds(attempts, longer, k, decode)
      && AllOffered(longer, k, decode) == received
      && AllOffered(longer, k + 1, decode) == received + Offered(reply, decode)
      && EmitAll(now, Offered(reply, decode)) == EmitAll(c, received + Offered(reply, decode))
      && (NoneEnds(attempts, longer, k + 1, decode) <==> !EndsCall(attempts[k], reply, k == 0, decode))
  {
    var reply := longer[|replies|];
    OneMoreAnswer(c, attempts, replies, reply, decode);
    OneMoreEnds(attempts, replies, reply, decode);
    EmitAllAppend(c, received, Offered(reply, decode));
  }

  /** One more attempt, received whole, that does not end the call. */
  lemma {:induction false} GoesOn(c: Client, attempts: seq<Attempt>, replies: seq<Reply>, decode: Decoder,
                                  received: seq<Record>, now: Client, reply: Reply)
    requires Underway(c, attempts, replies, decode, received, now) && |replies| < |attempts|
    requires reply == attempts[|replies|].reply(now.resume)
    requires !EndsCall(attempts[|replies|], reply, |replies| == 0, decode)
    ensures
      var more := Offered(reply, decode);
      Underway(c, attempts, replies + [reply], decode, received + more, EmitAll(now, more))
  {
    var longer := replies + [reply];
    OneMore(c, attempts, replies, decode, received, now, longer);
    assert NoneEnds(attempts, longer, |longer|, decode) && Answered(c, attempts, longer, |longer|, decode);
  }

  /** A call returns with its last attempt, which ends it unless the consumer stops in it. */
  lemma {:induction false} LastAttempt(c: Client, patience: nat, attempts: seq<Attempt>, replies: seq<Reply>,
                                       decode: Decoder, received: seq<Record>, now: Client, exit: Exit)
    requires 0 < |replies| <= |attempts| && now == EmitAll(c, received) && Left(patience, c, now) >= 0
    requires Answered(c, attempts, replies, |replies|, decode) && NoneEnds(attempts, replies, |replies| - 1, decode)
    requires
      var made, left := |replies|, Left(patience, c, now);
      var all := AllOffered(replies, made, decode);
      && (left == 0 ==>
            && exit == ConsumerStopped && StopsThere(c, patience, received)
            && |AllOffered(replies, made - 1, decode)| < |received| && received <= all)
      && (left > 0 ==>
            && received == all && !NoneEnds(attempts, replies, made, decode)
            && Some(exit) == ExitOf(attempts[made - 1], replies[made - 1], made == 1, decode))
    ensures Returns(c, patience, attempts, replies, decode, received, now, Left(patience, c, now), exit)
  {
  }

  /** The last attempt, with which the call returns. */
  lemma {:induction false} CallEnds(c: Client, patience: nat, attempts: seq<Attempt>, replies: seq<Reply>,
                                    decode: Decoder, received: seq<Record>, now: Client, reply: Reply,
                                    more: seq<Record>, next: Client, exit: Exit)
    requires Underway(c, attempts, replies, decode, received, now) && |replies| < |attempts|
    requires reply == attempts[|replies|].reply(now.resume)
    requires next == EmitAll(now, more) && more <= Offered(reply, decode) && Left(patience, c, now) >= 0
    requires
      var left := Left(patience, c, next);
      && left >= 0
      && (left == 0 ==> StopsThere(now, Left(patience, c, now), more) && exit == ConsumerStopped)
      && (left > 0 ==>
            && more == Offered(reply, decode)
            && Some(exit) == ExitOf(attempts[|replies|], reply, |replies| == 0, decode))
    ensures Returns(c, patience, attempts, replies + [reply], decode, received + more, next,
                    Left(patience, c, next), exit)
  {
    var longer := replies + [reply];
    OneMore(c, attempts, replies, decode, received, now, longer);
    ReceivesMore(c, patience, received, Offered(reply, decode), more, now, next);
    LastAttempt(c, patience, attempts, longer, decode, received + more, next, exit);
  }

  /** One more attempt, whatever it is asked, that does not end the call: it may be added to those made. */
  lemma {:induction false} OneMoreAttempt(c: Client, attempts: seq<Attempt>, replies: seq<Reply>, decode: Decoder,
                                          received: seq<Record>, now: Client, a: Attempt, body: string)
    requires Underway(c, attempts, replies, decode, received, now) && |replies| == |attempts|
    requires a.reply(now.resume) == Opened(body) && !EndsCall(a, Opened(body), attempts == [], decode)
    ensures
      var more := Offered(Opened(body), decode);
      Underway(c, attempts + [a], replies + [Opened(body)], decode, received + more, EmitAll(now, more))
  {
    var all, k := attempts + [a], |replies|;
    AnsweredStays(c, attempts, all, replies, replies, k, decode);
    GoesOn(c, all, replies, decode, received, now, Opened(body));
  }

  /**
   * Failing to connect is fatal if and only if it is the first thing that
   * happens: an established stream is always reconnected.
   */
  lemma {:induction false} ConnectFailureIsFatalIff(
      c: Client, patience: nat, attempts: seq<Attempt>, replies: seq<Reply>, decode: Decoder,
      received: seq<Record>, now: Client, left: int, exit: Exit)
    requires Returns(c, patience, attempts, replies, decode, received, now, left, exit)
    ensures exit == NeverConnected <==>
      attempts != [] && attempts[0].reply(c.resume).Refused? && !attempts[0].cancelled
  {
    var made := |replies|;
    if made > 0 {
      FirstAnswer(c, attempts, replies, made, decode);
      assert AllOffered(replies, 0, decode) == [];
    }
  }

  class StreamCall {
    var resume: int
    var seen: set<Cid>
    var connected: bool
    var patience: nat  // the consumer's
    ghost var yielded: seq<Record>

    ghost function Value(): Client
      reads this
    {
      Client(resume, seen, yielded)
    }

    constructor (from: int, patience: nat)
      ensures Value() == Client(from, {}, []) && !connected && this.patience == patience
    {
      resume, seen, connected, yielded := from, {}, false, [];
      this.patience := patience;
    }

    /** The emit callback; the result is false when the consumer stops. */
    method EmitRecord(record: Record) returns (more: bool)
      requires patience > 0
      modifies this
      ensures connected == old(connected) && Value() == Emit(old(Value()), record)
      ensures if Skips(old(Value()), record) then more && patience == old(patience)
              else patience == old(patience) - 1 && more == (patience > 0)
    {
      if record.recordedAt == resume {
        if record.cause in seen {
          return true;
        }
      } else {
        resume := record.recordedAt;
        seen := {};
      }
      seen := seen + {record.cause};
      yielded := yielded + [record];
      patience := patience - 1;
      return patience > 0;
    }

    /** One connection: what of its reply is received, and how it ends. */
    method StreamConn(reply: Reply, decode: Decoder) returns (ending: Ending, ghost received: seq<Record>)
      requires patience > 0
      modifies this
      ensures connected == old(connected)
      ensures Value() == EmitAll(old(Value()), received) && received <= Offered(reply, decode)
      ensures patience == Left(old(patience), old(Value()), Value())
      ensures ending == ConnectFailed <==> reply.Refused?
      ensures ending == Stopped <==> patience == 0
      ensures patience == 0 ==> StopsThere(old(Value()), old(patience), received)
      ensures patience > 0 ==> received == Offered(reply, decode)
      ensures patience > 0 ==> (ending == Corrupt <==> SpoiledBody(reply, decode))
    {
      received := [];
      if reply.Refused? {
        return ConnectFailed, received;
      }
      var events := new Sse.Scanner(reply.body);
      received := ReadMeans(Value(), patience, events.Remaining(), decode);
      ending := ReadEvents(events, decode);
    }

    /** One event of the scanning loop: how the connection ends with it, if it does, and how the rest goes on. */
    method HandleEvent(event: string, data: string, decode: Decoder, ghost left: Sse.Scanned)
      returns (stop: Option<Ending>)
      requires patience > 0 && left.events != [] && left.events[0] == Sse.Event(event, data)
      modifies this
      ensures connected == old(connected) && (stop == None ==> patience > 0)
      ensures Read(old(Value()), old(patience), left, decode) ==
        if stop == None then Read(Value(), patience, Rest(left), decode) else Conn(Value(), patience, stop.value)
    {
      ReadFirst(Value(), patience, left, decode);
      if event == "revocation" {
        match decode(data) {
          case None =>
            return Some(Corrupt);
          case Some(record) =>
            var wanted := EmitRecord(record);
            if !wanted {
              return Some(Stopped);
            }
        }
      }
      return None;
    }

    /** The scanning loop, over whatever the scanner has yet to report. */
    method ReadEvents(events: Sse.Scanner, decode: Decoder) returns (ending: Ending)
      requires patience > 0
      modifies this, events
      ensures connected == old(connected)
      ensures Conn(Value(), patience, ending) == Read(old(Value()), old(patience), old(events.Remaining()), decode)
    {
      ghost var left := events.Remaining();
      ghost var goal := Read(Value(), patience, left, decode);
      var more := events.Scan();
      while more
        invariant patience > 0 && connected == old(connected)
        invariant Read(Value(), patience, left, decode) == goal
        invariant left ==
          if more
          then
            Sse.Scanned([Sse.Event(events.event, events.data)] + events.Remaining().events, events.Remaining().tooLong)
          else Sse.Scanned([], events.Failed())
        decreases |events.lines|, more
      {
        var stop := HandleEvent(events.event, events.data, decode, left);
        if stop.Some? {
          return stop.value;
        }
        left := Rest(left);
        assert left == events.Remaining();
        more := events.Scan();
      }
      if events.Failed() {
        return Corrupt;
      }
      return Ended;
    }

    /** One turn of the reconnect loop: what is received, and why the call returns with it, unless it goes on. */
    method Turn(a: Attempt, decode: Decoder) returns (exit: Option<Exit>, ghost more: seq<Record>)
      requires patience > 0
      modifies this
      ensures
        var reply := a.reply(old(resume));
        && Value() == EmitAll(old(Value()), more) && more <= Offered(reply, decode)
        && (patience > 0 ==> more == Offered(reply, decode))
        && (patience > 0 ==> exit == ExitOf(a, reply, !old(connected), decode))
      ensures patience == Left(old(patience), old(Value()), Value())
      ensures patience == 0 ==> StopsThere(old(Value()), old(patience), more) && exit == Some(ConsumerStopped)
      ensures exit == None ==> connected
    {
      var ending;
      ending, more := StreamConn(a.reply(resume), decode);
      if ending == Stopped {
        return Some(ConsumerStopped), more;
      }
      if a.cancelled {
        return Some(Cancelled), more;
      }
      if ending == Corrupt {
        return Some(CorruptStream), more;
      }
      if ending == ConnectFailed {
        if !connected {
          return Some(NeverConnected), more;
        }
      } else {
        connected := true;
      }
      if a.cancelledAsleep {
        return Some(Cancelled), more;
      }
      return None, more;
    }

    /** A turn of the call, after what was received before it. */
    method TurnAfter(attempts: seq<Attempt>, i: nat, decode: Decoder,
                     ghost c: Client, ghost most: nat, ghost before: seq<Reply>, ghost had: seq<Record>)
      returns (exit: Option<Exit>, ghost replies: seq<Reply>, ghost received: seq<Record>)
      requires connected == (i > 0) && patience == Left(most, c, Value()) && patience > 0
      requires |before| == i < |attempts| && Underway(c, attempts, before, decode, had, Value())
      modifies this
      ensures patience == Left(most, c, Value()) && |replies| == i + 1
      ensures exit == None ==> connected && patience > 0 && Underway(c, attempts, replies, decode, received, Value())
      ensures exit.Some? ==> Returns(c, most, attempts, replies, decode, received, Value(), patience, exit.value)
    {
      ghost var now := Value();
      ghost var reply := attempts[i].reply(resume);
      ghost var more;
      exit, more := Turn(attempts[i], decode);
      replies, received := before + [reply], had + more;
      if exit.Some? {
        CallEnds(c, most, attempts, before, decode, had, now, reply, more, Value(), exit.value);
      } else {
        GoesOn(c, attempts, before, decode, had, now, reply);
      }
    }

    /**
     * The whole call: it makes attempts, which are answered by `replies`, until
     * one of them ends it, and `received` is what is received of them.
     */
    method Stream(attempts: seq<Attempt>, decode: Decoder)
      returns (exit: Exit, ghost replies: seq<Reply>, ghost received: seq<Record>)
      requires patience > 0 && !connected
      modifies this
      ensures Value() == EmitAll(old(Value()), received)
      ensures patience == Left(old(patience), old(Value()), Value())
      ensures Returns(old(Value()), old(patience), attempts, replies, decode, received, Value(), patience, exit)
    {
      ghost var c, most := Value(), patience;
      var i := 0;
      replies, received := [], [];
      while i < |attempts|
        invariant 0 <= i <= |attempts| && connected == (i > 0) && patience == Left(most, c, Value()) && patience > 0
        invariant |replies| == i && Underway(c, attempts, replies, decode, received, Value())
      {
        var ended;
        ended, replies, received := TurnAfter(attempts, i, decode, c, most, replies, received);
        i := i + 1;
        if ended.Some? {
          return ended.value, replies, received;
        }
      }
      assert i > 0 ==> NoneEnds(attempts, replies, i, decode);
      return Running, replies, received;
    }
  }
}
