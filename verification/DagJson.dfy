// The generated DAG-JSON codecs of pkg/api/json_gen.go, token by token: the
// firehose record (links) and the full record (bytes) share one shape.

module DagJson {
  import opened Types

  const MAX_FIELDS: nat := 8192
  const MAX_PATH: nat := 8192
  const MAX_NAME: nat := 8192
  const MAX_BYTES: nat := 2097152

  datatype Token =
    | ObjectOpen | ObjectClose | ArrayOpen | ArrayClose | Colon | Comma
    | Text(text: string)
    | Link(cid: Cid)
    | Undef                    // the zero CID, which has no JSON
    | Bytes(bytes: seq<bv8>)
    | Time(time: int)
    | Other                    // null, booleans and numbers

  /** FirehoseRevocation, whose cause and path are links, or Revocation, where they are bytes. */
  datatype Shape = Firehose | Full

  datatype Value = Value(cause: Token, path: seq<Token>, recordedAt: int, revoke: Token)

  /** A link or byte string that the codec of a shape reads and writes. */
  predicate Fits(shape: Shape, t: Token) {
    match shape
    case Firehose => t.Link?
    case Full => t.Bytes? && |t.bytes| <= MAX_BYTES
  }

  function Zero(shape: Shape): Value {
    Value(if shape.Firehose? then Undef else Bytes([]), [], 0, Undef)
  }

  // ---------------------------------------------------------------- encoder

  /** The values the encoder accepts. */
  predicate Encodable(shape: Shape, v: Value) {
    && Fits(shape, v.cause) && |v.path| <= MAX_PATH && v.revoke.Link?
    && (forall i :: 0 <= i < |v.path| ==> Fits(shape, v.path[i]))
  }

  /** A value is encodable when it is within the bounds and has its links, or its bytes, where its shape has them. */
  lemma {:induction false} EncodableIff(shape: Shape, v: Value)
    ensures Encodable(shape, v) <==>
      && |v.path| <= MAX_PATH && v.revoke.Link?
      && forall t :: t in [v.cause] + v.path ==>
           if shape.Firehose? then t.Link? else t.Bytes? && |t.bytes| <= MAX_BYTES
  {
    var all := [v.cause] + v.path;
    assert all[0] == v.cause && forall i :: 0 <= i < |v.path| ==> v.path[i] == all[i + 1];
  }

  /** Elements with commas between them. */
  function Separated(ts: seq<Token>): seq<Token> {
    if |ts| <= 1 then ts else Separated(ts[..|ts| - 1]) + [Comma, ts[|ts| - 1]]
  }

  function Encode(v: Value): seq<Token> {
    [ObjectOpen, Text("cause"), Colon, v.cause, Comma, Text("path"), Colon, ArrayOpen]
    + Separated(v.path)
    + [ArrayClose, Comma, Text("recorded_at"), Colon, Time(v.recordedAt), Comma, Text("revoke"), Colon,
       v.revoke, ObjectClose]
  }

  /** What is written for a record, or for a nil one. */
  function Encoding(v: Option<Value>): seq<Token> {
    if v.None? then [Other] else Encode(v.value)
  }

  /** The stretches the encoder writes between its checks, but for the path's elements. */
  function Opening(): seq<Token> {
    [ObjectOpen, Text("cause"), Colon]
  }

  function CauseOn(v: Value): seq<Token> {
    [v.cause, Comma, Text("path"), Colon]
  }

  function TimeOn(v: Value): seq<Token> {
    [ArrayClose, Comma, Text("recorded_at"), Colon, Time(v.recordedAt), Comma, Text("revoke"), Colon]
  }

  function RevokeOn(v: Value): seq<Token> {
    [v.revoke, ObjectClose]
  }

  function ToPath(v: Value): seq<Token> {
    Opening() + CauseOn(v) + [ArrayOpen]
  }

  lemma {:induction false} EncodeStretches(v: Value)
    ensures Encode(v) == ToPath(v) + Separated(v.path) + TimeOn(v) + RevokeOn(v)
  {
    assert ToPath(v) == [ObjectOpen, Text("cause"), Colon, v.cause, Comma, Text("path"), Colon, ArrayOpen];
    Regroup(ToPath(v) + Separated(v.path), TimeOn(v), RevokeOn(v));
  }

  lemma Regroup(a: seq<Token>, b: seq<Token>, c: seq<Token>)
    ensures a + b + c == a + (b + c)
  {
  }

  /** Each stretch leaves something to write after it. */
  lemma {:induction false} EncodeBegins(v: Value)
    ensures Opening() < Encode(v)
    ensures Opening() + CauseOn(v) < Encode(v)
    ensures ToPath(v) < Encode(v)
    ensures ToPath(v) + Separated(v.path) < Encode(v)
    ensures ToPath(v) + Separated(v.path) + TimeOn(v) < Encode(v)
  {
    EncodeStretches(v);
  }

  lemma {:induction false} SeparatedMore(ts: seq<Token>, i: nat)
    requires i < |ts|
    ensures Separated(ts[..i + 1]) == Separated(ts[..i]) + ((if i > 0 then [Comma] else []) + [ts[i]])
  {
    assert ts[..i + 1][..i] == ts[..i];
    if i == 0 {
      assert Separated(ts[..1]) == [ts[0]] && Separated(ts[..0]) == [];
    }
  }

  /** What is written of the first elements is how all of them begin. */
  lemma {:induction false} SeparatedBegins(ts: seq<Token>, i: nat)
    requires i <= |ts|
    ensures Separated(ts[..i]) <= Separated(ts)
    decreases |ts|
  {
    var n := |ts| - 1;
    if i == |ts| {
      assert ts[..i] == ts;
    } else {
      SeparatedBegins(ts[..n], i);
      assert ts[..n][..i] == ts[..i];
      if n > 0 {
        SeparatedMore(ts, n);
        assert ts[..n + 1] == ts;
      }
    }
  }

  /** More than was there has been written of `goal`, but not all of it. */
  ghost predicate Begun(start: seq<Token>, goal: seq<Token>, now: seq<Token>) {
    start <= now && now < start + goal
  }

  lemma {:induction false} BegunFurther(start: seq<Token>, part: seq<Token>, goal: seq<Token>, now: seq<Token>)
    requires start <= now <= start + part && part < goal
    ensures Begun(start, goal, now)
  {
    assert start + goal == start + part + goal[|part|..];
  }

  /** The underlying writer, which fails once it has taken `room` tokens. */
  class Writer {
    var written: seq<Token>
    const room: nat

    ghost predicate Valid()
      reads this
    {
      |written| <= room
    }

    constructor (room: nat)
      ensures Valid() && written == [] && this.room == room
    {
      written := [];
      this.room := room;
    }

    method Put(t: Token) returns (ok: bool)
      requires Valid()
      modifies this
      ensures Valid() && (ok <==> |old(written)| < room)
      ensures written == if ok then old(written) + [t] else old(written)
    {
      if |written| == room {
        return false;
      }
      written := written + [t];
      return true;
    }

    /** Writes tokens one after another, as far as they go; `done` was written since `start`. */
    method PutAll(ts: seq<Token>, ghost start: seq<Token>, ghost done: seq<Token>) returns (ok: bool)
      requires Valid() && written == start + done
      modifies this
      ensures Valid() && (ok <==> |old(written)| + |ts| <= room)
      ensures ok ==> written == start + (done + ts)
      ensures !ok ==> Begun(start, done + ts, written)
    {
      var i := 0;
      while i < |ts|
        invariant 0 <= i <= |ts| && Valid()
        invariant |written| == |old(written)| + i && written == start + (done + ts[..i])
      {
        var put := Put(ts[i]);
        if !put {
          CutShort(start, done, ts, i);
          return false;
        }
        OneFurther(start, done, ts, i);
        i := i + 1;
      }
      assert ts[..i] == ts;
      return true;
    }

    /** The loop over the path's elements, each after a comma but the first. */
    method MarshalPath(shape: Shape, path: seq<Token>, ghost start: seq<Token>, ghost done: seq<Token>)
      returns (ok: bool)
      requires Valid() && written == start + done
      modifies this
      ensures Valid()
      ensures ok <==>
        (forall i :: 0 <= i < |path| ==> Fits(shape, path[i])) && |old(written)| + |Separated(path)| <= room
      ensures ok ==> written == start + (done + Separated(path))
      ensures !ok ==> start <= written <= start + (done + Separated(path))
    {
      ghost var before := |written|;
      for i := 0 to |path|
        invariant Valid() && |written| == before + |Separated(path[..i])|
        invariant written == start + (done + Separated(path[..i]))
        invariant forall j :: 0 <= j < i ==> Fits(shape, path[j])
      {
        SeparatedMore(path, i);
        SeparatedBegins(path, i);
        SeparatedBegins(path, i + 1);
        ghost var so := Separated(path[..i]);
        ghost var comma := if i > 0 then [Comma] else [];
        var put := true;
        if i > 0 {
          put := PutAll([Comma], start, done + so);
        }
        BeginsFurther(start, done, so, comma, path[i], Separated(path));
        if !put || !Fits(shape, path[i]) {
          return false;
        }
        put := PutAll([path[i]], start, done + so + comma);
        if !put {
          return false;
        }
      }
      assert path[..|path|] == path;
      return true;
    }

    /** Writes a record: all of its tokens, or, on an error, a proper beginning of them. */
    method Marshal(shape: Shape, v: Option<Value>) returns (ok: bool)
      requires Valid()
      modifies this
      ensures Valid()
      ensures ok <==>
        (v.None? || Encodable(shape, v.value)) && |old(written)| + |Encoding(v)| <= room
      ensures ok && v.Some? ==>
        && |v.value.path| <= MAX_PATH && v.value.revoke.Link?
        && forall t :: t in [v.value.cause] + v.value.path ==>
             if shape.Firehose? then t.Link? else t.Bytes? && |t.bytes| <= MAX_BYTES
      ensures ok ==> written == old(written) + Encoding(v)
      ensures !ok ==> Begun(old(written), Encoding(v), written)
    {
      if v == None {
        ok := Put(Other);
        return;
      }
      EncodableIff(shape, v.value);
      ok := MarshalValue(shape, v.value);
    }

    method MarshalValue(shape: Shape, v: Value) returns (ok: bool)
      requires Valid()
      modifies this
      ensures Valid()
      ensures ok <==> Encodable(shape, v) && |old(written)| + |Encode(v)| <= room
      ensures ok ==> written == old(written) + Encode(v)
      ensures !ok ==> Begun(old(written), Encode(v), written)
    {
      ghost var start := written;
      EncodeStretches(v);
      EncodeBegins(v);
      assert start == start + [];
      ok := PutAll(Opening(), start, []);
      assert [] + Opening() == Opening();
      if !ok || !Fits(shape, v.cause) {
        BegunFurther(start, Opening(), Encode(v), written);
        return false;
      }
      ok := PutAll(CauseOn(v), start, Opening());
      if !ok || |v.path| > MAX_PATH {
        BegunFurther(start, Opening() + CauseOn(v), Encode(v), written);
        return false;
      }
      ok := PutAll([ArrayOpen], start, Opening() + CauseOn(v));
      if !ok {
        BegunFurther(start, ToPath(v), Encode(v), written);
        return false;
      }
      ok := MarshalPath(shape, v.path, start, ToPath(v));
      if !ok {
        BegunFurther(start, ToPath(v) + Separated(v.path), Encode(v), written);
        return false;
      }
      ok := PutAll(TimeOn(v), start, ToPath(v) + Separated(v.path));
      if !ok || !v.revoke.Link? {
        BegunFurther(start, ToPath(v) + Separated(v.path) + TimeOn(v), Encode(v), written);
        return false;
      }
      ok := PutAll(RevokeOn(v), start, ToPath(v) + Separated(v.path) + TimeOn(v));
    }
  }

  lemma {:induction false} OneFurther(start: seq<Token>, done: seq<Token>, ts: seq<Token>, i: nat)
    requires i < |ts|
    ensures start + (done + ts[..i]) + [ts[i]] == start + (done + ts[..i + 1])
  {
    assert ts[..i + 1] == ts[..i] + [ts[i]];
  }

  lemma {:induction false} CutShort(start: seq<Token>, done: seq<Token>, ts: seq<Token>, i: nat)
    requires i < |ts|
    ensures Begun(start, done + ts, start + (done + ts[..i]))
  {
    assert done + ts == done + ts[..i] + ts[i..];
    BegunFurther(start, done + ts[..i], done + ts, start + (done + ts[..i]));
  }

  /** From `so`, a comma and an element: nothing written on the way goes past all of them. */
  lemma {:induction false} BeginsFurther(start: seq<Token>, done: seq<Token>, so: seq<Token>, comma: seq<Token>,
                                         t: Token, all: seq<Token>)
    requires so <= all && so + (comma + [t]) <= all
    ensures start + (done + so) <= start + (done + all)
    ensures done + so + comma == done + (so + comma)
    ensures done + so + comma + [t] == done + (so + (comma + [t]))
    ensures start + (done + so + comma) <= start + (done + all)
    ensures start + (done + so + comma + [t]) <= start + (done + all)
  {
    Regroup(done, so, comma);
    Regroup(done + so, comma, [t]);
    Regroup(done, so, comma + [t]);
    Regroup(so, comma, [t]);
    var rest := all[|so + (comma + [t])|..];
    assert all == so + (comma + ([t] + rest));
  }

  // ---------------------------------------------------------------- decoder

  /** Skips one value: the tokens up to where its own brackets balance. */
  function Discard(ts: seq<Token>, depth: nat): (rest: Option<seq<Token>>)
    ensures rest.Some? ==> |rest.value| < |ts|
    decreases |ts|
  {
    if ts == [] then None
    else
      match ts[0]
      case ObjectOpen => Discard(ts[1..], depth + 1)
      case ArrayOpen => Discard(ts[1..], depth + 1)
      case ObjectClose => if depth == 0 then None else if depth == 1 then Some(ts[1..]) else Discard(ts[1..], depth - 1)
      case ArrayClose => if depth == 0 then None else if depth == 1 then Some(ts[1..]) else Discard(ts[1..], depth - 1)
      case _ => if depth == 0 then Some(ts[1..]) else Discard(ts[1..], depth)
  }

  datatype Step<T> = Read(value: T, rest: seq<Token>) | Bad

  /** The elements of an array whose `count` first ones are in `path`, up to its close. */
  function ReadElements(shape: Shape, ts: seq<Token>, path: seq<Token>, count: nat): (r: Step<seq<Token>>)
    ensures r.Read? ==> |r.rest| < |ts|
    decreases |ts|
  {
    if |ts| < 2 || !Fits(shape, ts[0]) then Bad
    else if ts[1] == ArrayClose then Read(path + [ts[0]], ts[2..])
    else if ts[1] != Comma || count == MAX_PATH - 1 then Bad
    else ReadElements(shape, ts[2..], path + [ts[0]], count + 1)
  }

  /** A field's value; a repeated path adds to what is there, and an empty byte string leaves it. */
  function ReadValue(shape: Shape, v: Value, name: string, ts: seq<Token>): (r: Step<Value>)
    ensures r.Read? ==> |r.rest| < |ts|
  {
    if ts == [] then Bad
    else if name == "cause" then
      if !Fits(shape, ts[0]) then Bad
      else Read(if ts[0] == Bytes([]) then v else v.(cause := ts[0]), ts[1..])
    else if name == "path" then
      if ts[0] != ArrayOpen || |ts| < 2 then Bad
      else if ts[1] == ArrayClose then Read(v, ts[2..])
      else
        match ReadElements(shape, ts[1..], v.path, 0)
        case Bad => Bad
        case Read(path, rest) => Read(v.(path := path), rest)
    else if name == "recorded_at" then
      if !ts[0].Time? then Bad else Read(v.(recordedAt := ts[0].time), ts[1..])
    else if name == "revoke" then
      if !ts[0].Link? then Bad else Read(v.(revoke := ts[0]), ts[1..])
    else
      match Discard(ts, 0)
      case None => Bad
      case Some(rest) => Read(v, rest)
  }

  /** The fields of an object of which `count` have been read into `v`. */
  function ReadFields(shape: Shape, v: Value, ts: seq<Token>, count: nat): Option<Value>
    decreases |ts|
  {
    if |ts| < 2 || !ts[0].Text? || |ts[0].text| > MAX_NAME || ts[1] != Colon then None
    else
      match ReadValue(shape, v, ts[0].text, ts[2..])
      case Bad => None
      case Read(v', rest) =>
        if rest == [] then None
        else if rest[0] == ObjectClose then Some(v')
        else if rest[0] != Comma || count == MAX_FIELDS - 1 then None
        else ReadFields(shape, v', rest[1..], count + 1)
  }

  function Decode(shape: Shape, ts: seq<Token>): Option<Value> {
    if |ts| < 2 || ts[0] != ObjectOpen then None
    else if ts[1] == ObjectClose then Some(Zero(shape))
    else ReadFields(shape, Zero(shape), ts[1..], 0)
  }

  /** How a turn of the loop over fields ends. */
  datatype Turn = Fails | Closes(value: Value) | Goes(value: Value)

  class Reader {
    var rest: seq<Token>

    constructor (ts: seq<Token>)
      ensures rest == ts
    {
      rest := ts;
    }

    /** Takes the next token, if there is one. */
    method Take() returns (t: Option<Token>)
      modifies this
      ensures if old(rest) == [] then t == None && rest == [] else t == Some(old(rest)[0]) && rest == old(rest)[1..]
    {
      if |rest| == 0 {
        return None;
      }
      t := Some(rest[0]);
      rest := rest[1..];
    }

    method ReadPath(shape: Shape, have: seq<Token>) returns (r: Option<seq<Token>>)
      modifies this
      ensures
        var read := ReadElements(shape, old(rest), have, 0);
        if read.Bad? then r == None else r == Some(read.value) && rest == read.rest
    {
      var path := have;
      var i := 0;
      while i < MAX_PATH
        invariant 0 <= i < MAX_PATH
        invariant ReadElements(shape, rest, path, i) == ReadElements(shape, old(rest), have, 0)
        decreases MAX_PATH - i
      {
        var item := Take();
        var next := Take();
        if item == None || next == None || !Fits(shape, item.value) {
          return None;
        }
        path := path + [item.value];
        if next.value == ArrayClose {
          return Some(path);
        }
        if next.value != Comma || i == MAX_PATH - 1 {
          return None;
        }
        i := i + 1;
      }
      return None;
    }

    method ReadField(shape: Shape, v: Value) returns (r: Option<Value>)
      modifies this
      ensures
        var was := old(rest);
        if |was| < 2 || !was[0].Text? || |was[0].text| > MAX_NAME || was[1] != Colon then r == None
        else
          match ReadValue(shape, v, was[0].text, was[2..])
          case Bad => r == None
          case Read(v', left) => r == Some(v') && rest == left
    {
      var name := Take();
      var colon := Take();
      if name == None || colon == None || !name.value.Text? || |name.value.text| > MAX_NAME || colon.value != Colon {
        return None;
      }
      assert rest == old(rest)[2..];
      match name.value.text {
        case "cause" =>
          var item := Take();
          if item == None || !Fits(shape, item.value) {
            return None;
          }
          return Some(if item.value == Bytes([]) then v else v.(cause := item.value));
        case "path" =>
          var open := Take();
          if open != Some(ArrayOpen) || |rest| == 0 {
            return None;
          }
          if rest[0] == ArrayClose {
            var close := Take();
            return Some(v);
          }
          var path := ReadPath(shape, v.path);
          return if path == None then None else Some(v.(path := path.value));
        case "recorded_at" =>
          var item := Take();
          if item == None || !item.value.Time? {
            return None;
          }
          return Some(v.(recordedAt := item.value.time));
        case "revoke" =>
          var item := Take();
          if item == None || !item.value.Link? {
            return None;
          }
          return Some(v.(revoke := item.value));
        case _ =>
          var left := Discard(rest, 0);
          if left == None {
            return None;
          }
          rest := left.value;
          return Some(v);
      }
    }

    /** One turn of the loop over an object's fields: a field, and the separator or close after it. */
    method ReadNext(shape: Shape, v: Value, i: nat) returns (turn: Turn)
      modifies this
      ensures
        match turn
        case Fails => ReadFields(shape, v, old(rest), i) == None
        case Closes(v') => ReadFields(shape, v, old(rest), i) == Some(v')
        case Goes(v') => i != MAX_FIELDS - 1 && ReadFields(shape, v, old(rest), i) == ReadFields(shape, v', rest, i + 1)
    {
      var read := ReadField(shape, v);
      if read == None {
        return Fails;
      }
      var next := Take();
      if next == None {
        return Fails;
      }
      if next.value == ObjectClose {
        return Closes(read.value);
      }
      if next.value != Comma || i == MAX_FIELDS - 1 {
        return Fails;
      }
      return Goes(read.value);
    }

    method Unmarshal(shape: Shape) returns (r: Option<Value>)
      modifies this
      ensures r == Decode(shape, old(rest))
    {
      var open := Take();
      if open != Some(ObjectOpen) || |rest| == 0 {
        return None;
      }
      var v := Zero(shape);
      if rest[0] == ObjectClose {
        return Some(v);
      }
      ghost var goal := ReadFields(shape, v, rest, 0);
      var i := 0;
      while i < MAX_FIELDS
        invariant 0 <= i < MAX_FIELDS
        invariant ReadFields(shape, v, rest, i) == goal
        decreases MAX_FIELDS - i
      {
        var turn := ReadNext(shape, v, i);
        match turn {
          case Fails =>
            return None;
          case Closes(value) =>
            return Some(value);
          case Goes(value) =>
            v := value;
        }
        i := i + 1;
      }
      return None;
    }
  }

  // ------------------------------------------------------------- any object

  /** A well-formed value that the codecs do not know. */
  datatype Json = Scalar(token: Token) | Array(items: seq<Json>) | Object(members: seq<Member>)

  datatype Member = Member(name: string, value: Json)

  predicate IsScalar(t: Token) {
    t.Text? || t.Link? || t.Bytes? || t.Time? || t.Other?
  }

  predicate WellFormed(j: Json) {
    match j
    case Scalar(t) => IsScalar(t)
    case Array(items) => forall i :: 0 <= i < |items| ==> WellFormed(items[i])
    case Object(members) => forall i :: 0 <= i < |members| ==> WellFormed(members[i].value)
  }

  function Tokens(j: Json): seq<Token> {
    match j
    case Scalar(t) => [t]
    case Array(items) => [ArrayOpen] + ItemTokens(items, 0) + [ArrayClose]
    case Object(members) => [ObjectOpen] + MemberTokens(members, 0) + [ObjectClose]
  }

  function ItemTokens(items: seq<Json>, i: nat): seq<Token>
    requires i <= |items|
    decreases items, |items| - i
  {
    if i == |items| then []
    else (if i > 0 then [Comma] else []) + Tokens(items[i]) + ItemTokens(items, i + 1)
  }

  function MemberTokens(members: seq<Member>, i: nat): seq<Token>
    requires i <= |members|
    decreases members, |members| - i
  {
    if i == |members| then []
    else
      (if i > 0 then [Comma] else []) + [Text(members[i].name), Colon] + Tokens(members[i].value)
      + MemberTokens(members, i + 1)
  }
}
