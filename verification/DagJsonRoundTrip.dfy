// What the DAG-JSON decoders make of any object, and the round trip.

module DagJsonRoundTrip {
  import opened Types
  import opened DagJson
  import Sse

  // ---------------------------------------------------------------- unknown

  lemma DiscardOne(t: Token, rest: seq<Token>, depth: nat)
    requires IsScalar(t) || t.Comma? || t.Colon?
    requires depth > 0 || IsScalar(t)
    ensures Discard([t] + rest, depth) == if depth == 0 then Some(rest) else Discard(rest, depth)
  {
    assert ([t] + rest)[1..] == rest;
  }

  lemma DiscardOpen(t: Token, rest: seq<Token>, depth: nat)
    requires t.ArrayOpen? || t.ObjectOpen?
    ensures Discard([t] + rest, depth) == Discard(rest, depth + 1)
  {
    assert ([t] + rest)[1..] == rest;
  }

  lemma DiscardClose(t: Token, rest: seq<Token>, depth: nat)
    requires t.ArrayClose? || t.ObjectClose?
    ensures Discard([t] + rest, depth + 1) == if depth == 0 then Some(rest) else Discard(rest, depth)
  {
    assert ([t] + rest)[1..] == rest;
  }

  lemma Assoc3(a: seq<Token>, b: seq<Token>, c: seq<Token>)
    ensures a + b + c == a + (b + c)
  {
  }

  /** Discarding skips exactly one well-formed value, however it is nested. */
  lemma {:induction false} DiscardsValue(j: Json, rest: seq<Token>, depth: nat)
    requires WellFormed(j)
    ensures Discard(Tokens(j) + rest, depth) == if depth == 0 then Some(rest) else Discard(rest, depth)
    decreases j, 0
  {
    match j
    case Scalar(t) =>
      DiscardOne(t, rest, depth);
    case Array(items) =>
      var inner, tail := ItemTokens(items, 0), [ArrayClose] + rest;
      assert Tokens(j) + rest == [ArrayOpen] + (inner + tail);
      DiscardOpen(ArrayOpen, inner + tail, depth);
      DiscardsItems(items, 0, tail, depth);
      DiscardClose(ArrayClose, rest, depth);
    case Object(members) =>
      var inner, tail := MemberTokens(members, 0), [ObjectClose] + rest;
      assert Tokens(j) + rest == [ObjectOpen] + (inner + tail);
      DiscardOpen(ObjectOpen, inner + tail, depth);
      DiscardsMembers(members, 0, tail, depth);
      DiscardClose(ObjectClose, rest, depth);
  }

  lemma {:induction false} DiscardsItems(items: seq<Json>, i: nat, rest: seq<Token>, depth: nat)
    requires i <= |items| && forall k :: 0 <= k < |items| ==> WellFormed(items[k])
    ensures Discard(ItemTokens(items, i) + rest, depth + 1) == Discard(rest, depth + 1)
    decreases items, |items| - i
  {
    if i == |items| {
      assert ItemTokens(items, i) + rest == rest;
    } else {
      var more := ItemTokens(items, i + 1) + rest;
      var here := Tokens(items[i]) + more;
      DiscardsItems(items, i + 1, rest, depth);
      DiscardsValue(items[i], more, depth + 1);
      ItemFirst(items, i, rest);
      if i > 0 {
        DiscardOne(Comma, here, depth + 1);
      }
    }
  }

  lemma {:induction false} ItemFirst(items: seq<Json>, i: nat, rest: seq<Token>)
    requires i < |items|
    ensures
      var here := Tokens(items[i]) + (ItemTokens(items, i + 1) + rest);
      ItemTokens(items, i) + rest == if i > 0 then [Comma] + here else here
  {
    var head, tail := if i > 0 then [Comma] else [], ItemTokens(items, i + 1);
    Assoc3(Tokens(items[i]), tail, rest);
    Assoc3(head + Tokens(items[i]), tail, rest);
    Assoc3(head, Tokens(items[i]), tail + rest);
  }

  lemma {:induction false} DiscardsMembers(members: seq<Member>, i: nat, rest: seq<Token>, depth: nat)
    requires i <= |members| && forall k :: 0 <= k < |members| ==> WellFormed(members[k].value)
    ensures Discard(MemberTokens(members, i) + rest, depth + 1) == Discard(rest, depth + 1)
    decreases members, |members| - i
  {
    if i == |members| {
      assert MemberTokens(members, i) + rest == rest;
    } else {
      var m := members[i];
      var more := MemberTokens(members, i + 1) + rest;
      var value := Tokens(m.value) + more;
      var here := [Text(m.name)] + ([Colon] + value);
      DiscardsMembers(members, i + 1, rest, depth);
      DiscardsValue(m.value, more, depth + 1);
      DiscardsName(m.name, value, depth);
      MemberFirst(members, i, rest);
      if i > 0 {
        DiscardOne(Comma, here, depth + 1);
      }
    }
  }

  lemma {:induction false} DiscardsName(name: string, rest: seq<Token>, depth: nat)
    ensures Discard([Text(name)] + ([Colon] + rest), depth + 1) == Discard(rest, depth + 1)
  {
    DiscardOne(Colon, rest, depth + 1);
    DiscardOne(Text(name), [Colon] + rest, depth + 1);
  }

  lemma {:induction false} MemberFirst(members: seq<Member>, i: nat, rest: seq<Token>)
    requires i < |members|
    ensures
      var m := members[i];
      var here := [Text(m.name)] + ([Colon] + (Tokens(m.value) + (MemberTokens(members, i + 1) + rest)));
      MemberTokens(members, i) + rest == if i > 0 then [Comma] + here else here
  {
    var m, tail := members[i], MemberTokens(members, i + 1);
    Assoc3(Tokens(m.value), tail, rest);
    var head := (if i > 0 then [Comma] else []) + [Text(m.name), Colon];
    assert MemberTokens(members, i) == head + Tokens(m.value) + tail;
    Assoc3(head + Tokens(m.value), tail, rest);
    Assoc3(head, Tokens(m.value), tail + rest);
  }

  // ---------------------------------------------------------------- brackets

  function Weight(t: Token): int {
    if t.ObjectOpen? || t.ArrayOpen? then 1 else if t.ObjectClose? || t.ArrayClose? then -1 else 0
  }

  /** How many brackets tokens open and do not close. */
  function Depth(ts: seq<Token>): int {
    if ts == [] then 0 else Weight(ts[0]) + Depth(ts[1..])
  }

  /** `ts` closes the `depth` brackets it starts within, and not before its end. */
  ghost predicate Closed(ts: seq<Token>, depth: nat) {
    && ts != [] && depth + Depth(ts) == 0
    && (forall k :: 0 < k < |ts| ==> depth + Depth(ts[..k]) > 0)
  }

  lemma {:induction false} DepthCons(t: Token, tail: seq<Token>)
    ensures Depth([t] + tail) == Weight(t) + Depth(tail)
    ensures forall k :: 0 <= k <= |tail| ==> Depth(([t] + tail)[..k + 1]) == Weight(t) + Depth(tail[..k])
  {
    var all := [t] + tail;
    assert all[1..] == tail;
    forall k | 0 <= k <= |tail|
      ensures Depth(all[..k + 1]) == Weight(t) + Depth(tail[..k])
    {
      assert all[..k + 1][1..] == tail[..k];
    }
  }

  lemma {:induction false} ClosedCons(t: Token, tail: seq<Token>, depth: nat)
    ensures Closed([t] + tail, depth) <==>
      if depth + Weight(t) == 0 then tail == []
      else depth + Weight(t) > 0 && Closed(tail, depth + Weight(t))
  {
    var all, next := [t] + tail, depth + Weight(t);
    DepthCons(t, tail);
    assert all[..1] == [t] + tail[..0] && Depth(tail[..0]) == 0;
    if tail != [] {
      assert Depth(all[..1]) == Weight(t);
      if Closed(all, depth) {
        forall k | 0 < k < |tail|
          ensures next + Depth(tail[..k]) > 0
        {
          assert depth + Depth(all[..k + 1]) > 0;
        }
      } else if next > 0 && Closed(tail, next) {
        forall k | 0 < k < |all|
          ensures depth + Depth(all[..k]) > 0
        {
          var j := k - 1;
          assert all[..j + 1] == all[..k];
          assert j > 0 ==> next + Depth(tail[..j]) > 0;
        }
      }
    }
  }

  /** Discarding one token, and then what is left. */
  lemma {:induction false} DiscardCons(t: Token, tail: seq<Token>, depth: nat)
    ensures Discard([t] + tail, depth) ==
      if depth + Weight(t) == 0 then Some(tail)
      else if depth + Weight(t) < 0 then None
      else Discard(tail, depth + Weight(t))
  {
    assert ([t] + tail)[1..] == tail;
  }

  /** What closes its brackets is discarded, and nothing after it. */
  lemma {:induction false} DiscardsClosed(ts: seq<Token>, rest: seq<Token>, depth: nat)
    requires Closed(ts, depth)
    ensures Discard(ts + rest, depth) == Some(rest)
    decreases |ts|
  {
    var t, tail := ts[0], ts[1..];
    assert ts == [t] + tail && ts + rest == [t] + (tail + rest);
    ClosedCons(t, tail, depth);
    DiscardCons(t, tail + rest, depth);
    if tail == [] {
      assert tail + rest == rest;
    } else {
      DiscardsClosed(tail, rest, depth + Weight(t));
    }
  }

  /** And only that: what is discarded closes its brackets. */
  lemma {:induction false} DiscardedCloses(ts: seq<Token>, depth: nat) returns (value: seq<Token>)
    requires Discard(ts, depth).Some?
    ensures Closed(value, depth) && ts == value + Discard(ts, depth).value
    decreases |ts|
  {
    var t, tail := ts[0], ts[1..];
    assert ts == [t] + tail;
    DiscardCons(t, tail, depth);
    if depth + Weight(t) == 0 {
      value := [t];
      assert [t] + [] == [t];
      ClosedCons(t, [], depth);
    } else {
      var more := DiscardedCloses(tail, depth + Weight(t));
      ClosedCons(t, more, depth);
      value := [t] + more;
      assert value + Discard(ts, depth).value == [t] + (more + Discard(ts, depth).value);
    }
  }

  /** A well-formed value closes its own brackets. */
  lemma {:induction false} WellFormedCloses(j: Json)
    requires WellFormed(j)
    ensures Closed(Tokens(j), 0)
  {
    DiscardsValue(j, [], 0);
    assert Tokens(j) + [] == Tokens(j);
    var value := DiscardedCloses(Tokens(j), 0);
    assert value + [] == value;
  }

  // ------------------------------------------------------------------ fields

  /** A field of an object: one the codecs know, or any other with a value that closes its brackets. */
  datatype Field =
    | Cause(cause: Token)
    | Path(path: seq<Token>)
    | RecordedAt(time: int)
    | Revoke(revoke: Cid)
    | Unknown(name: string, value: seq<Token>)

  const KNOWN := {"cause", "path", "recorded_at", "revoke"}

  ghost predicate FieldFits(shape: Shape, f: Field) {
    match f
    case Cause(t) => Fits(shape, t)
    case Path(ts) => forall i :: 0 <= i < |ts| ==> Fits(shape, ts[i])
    case RecordedAt(_) => true
    case Revoke(_) => true
    case Unknown(name, value) => name !in KNOWN && |name| <= MAX_NAME && Closed(value, 0)
  }

  ghost predicate FieldsFit(shape: Shape, fs: seq<Field>) {
    forall i :: 0 <= i < |fs| ==> FieldFits(shape, fs[i])
  }

  function Name(f: Field): string {
    match f
    case Cause(_) => "cause"
    case Path(_) => "path"
    case RecordedAt(_) => "recorded_at"
    case Revoke(_) => "revoke"
    case Unknown(name, _) => name
  }

  function ValueTokens(f: Field): seq<Token> {
    match f
    case Cause(t) => [t]
    case Path(ts) => [ArrayOpen] + Separated(ts) + [ArrayClose]
    case RecordedAt(t) => [Time(t)]
    case Revoke(c) => [Link(c)]
    case Unknown(_, value) => value
  }

  function FieldTokens(f: Field): seq<Token> {
    [Text(Name(f)), Colon] + ValueTokens(f)
  }

  /** The fields, separated, and the close of their object. */
  function PrintFields(fs: seq<Field>): seq<Token>
    requires fs != []
  {
    FieldTokens(fs[0]) + if |fs| == 1 then [ObjectClose] else [Comma] + PrintFields(fs[1..])
  }

  function PrintObject(fs: seq<Field>): seq<Token> {
    [ObjectOpen] + if fs == [] then [ObjectClose] else PrintFields(fs)
  }

  /** What a field does to the value read so far. */
  function Apply(v: Value, f: Field): Value {
    match f
    case Cause(t) => if t == Bytes([]) then v else v.(cause := t)
    case Path(ts) => v.(path := v.path + ts)
    case RecordedAt(t) => v.(recordedAt := t)
    case Revoke(c) => v.(revoke := Link(c))
    case Unknown(_, _) => v
  }

  function ApplyAll(v: Value, fs: seq<Field>): Value
    decreases |fs|
  {
    if fs == [] then v else ApplyAll(Apply(v, fs[0]), fs[1..])
  }

  // ---------------------------------------------------------------- decoding

  lemma {:induction false} SeparatedHead(ts: seq<Token>)
    requires |ts| >= 2
    ensures Separated(ts) == [ts[0], Comma] + Separated(ts[1..])
    decreases |ts|
  {
    var n := |ts| - 1;
    var middle := ts[1..n];
    assert ts[..n][1..] == middle && ts[1..][..n - 1] == middle;
    if n > 1 {
      SeparatedHead(ts[..n]);
      SeparatedLast(ts[1..], middle);
      Assoc3([ts[0], Comma], Separated(middle), [Comma, ts[n]]);
    } else {
      assert Separated(ts[1..]) == [ts[1]] && Separated(ts[..1]) == [ts[0]];
    }
  }

  lemma {:induction false} SeparatedLast(ts: seq<Token>, before: seq<Token>)
    requires |ts| >= 2 && before == ts[..|ts| - 1]
    ensures Separated(ts) == Separated(before) + [Comma, ts[|ts| - 1]]
  {
  }

  /** An array is read whole when it has at most MAX_PATH elements, and refused otherwise. */
  lemma {:induction false} ReadsElements(shape: Shape, ts: seq<Token>, rest: seq<Token>, path: seq<Token>, count: nat)
    requires ts != [] && count < MAX_PATH && forall i :: 0 <= i < |ts| ==> Fits(shape, ts[i])
    ensures ReadElements(shape, Separated(ts) + ([ArrayClose] + rest), path, count)
         == if count + |ts| <= MAX_PATH then Read(path + ts, rest) else Bad
    decreases |ts|
  {
    var all := Separated(ts) + ([ArrayClose] + rest);
    if |ts| == 1 {
      assert all[0] == ts[0] && all[1] == ArrayClose && all[2..] == rest;
      assert path + ts == path + [ts[0]];
    } else {
      SeparatedHead(ts);
      var more := Separated(ts[1..]) + ([ArrayClose] + rest);
      assert all == [ts[0], Comma] + more;
      assert all[0] == ts[0] && all[1] == Comma && all[2..] == more;
      if count < MAX_PATH - 1 {
        ReadsElements(shape, ts[1..], rest, path + [ts[0]], count + 1);
        assert path + [ts[0]] + ts[1..] == path + ts;
      }
    }
  }

  predicate Short(f: Field) {
    f.Path? ==> |f.path| <= MAX_PATH
  }

  lemma ReadsPath(shape: Shape, v: Value, ts: seq<Token>, rest: seq<Token>)
    requires forall i :: 0 <= i < |ts| ==> Fits(shape, ts[i])
    ensures ReadValue(shape, v, "path", ValueTokens(Path(ts)) + rest)
         == if |ts| <= MAX_PATH then Read(v.(path := v.path + ts), rest) else Bad
  {
    var all, inner := ValueTokens(Path(ts)) + rest, Separated(ts) + ([ArrayClose] + rest);
    assert all == [ArrayOpen] + inner;
    assert all[0] == ArrayOpen && all[1..] == inner;
    if ts == [] {
      assert all[1] == ArrayClose && all[2..] == rest;
      assert v.path + ts == v.path;
    } else {
      FirstFits(shape, ts);
      ReadsElements(shape, ts, rest, v.path, 0);
    }
  }

  lemma FirstFits(shape: Shape, ts: seq<Token>)
    requires ts != [] && Fits(shape, ts[0])
    ensures Separated(ts) != [] && Separated(ts)[0] == ts[0] && ts[0] != ArrayClose
  {
    if |ts| >= 2 {
      SeparatedHead(ts);
    }
  }

  /** A field's value is read as that field, leaving what follows it. */
  lemma ReadsValue(shape: Shape, v: Value, f: Field, rest: seq<Token>)
    requires FieldFits(shape, f)
    ensures ReadValue(shape, v, Name(f), ValueTokens(f) + rest) == if Short(f) then Read(Apply(v, f), rest) else Bad
  {
    var all := ValueTokens(f) + rest;
    match f
    case Path(ts) =>
      ReadsPath(shape, v, ts, rest);
    case Unknown(name, value) =>
      DiscardsClosed(value, rest, 0);
    case _ =>
      assert all[0] == ValueTokens(f)[0] && all[1..] == rest;
  }

  ghost predicate AllShort(fs: seq<Field>) {
    forall i :: 0 <= i < |fs| ==> Short(fs[i])
  }

  lemma AllShortFirst(fs: seq<Field>)
    requires fs != []
    ensures AllShort(fs) <==> Short(fs[0]) && AllShort(fs[1..])
  {
    assert forall i :: 0 < i < |fs| ==> fs[i] == fs[1..][i - 1];
  }

  /** One field, and then whatever follows its value. */
  lemma ReadsField(shape: Shape, v: Value, f: Field, tail: seq<Token>, count: nat)
    requires FieldFits(shape, f) && tail != []
    ensures ReadFields(shape, v, FieldTokens(f) + tail, count)
         == if !Short(f) then None
            else if tail[0] == ObjectClose then Some(Apply(v, f))
            else if tail[0] != Comma || count == MAX_FIELDS - 1 then None
            else ReadFields(shape, Apply(v, f), tail[1..], count + 1)
  {
    var all := FieldTokens(f) + tail;
    assert all[0] == Text(Name(f)) && |Name(f)| <= MAX_NAME && all[1] == Colon;
    assert all[2..] == ValueTokens(f) + tail;
    ReadsValue(shape, v, f, tail);
  }

  /** What the decoder makes of printed fields, and of what follows them, when `count` have been read before. */
  ghost function Outcome(shape: Shape, v: Value, fs: seq<Field>, count: nat, rest: seq<Token>): Option<Value>
    requires fs != []
  {
    ReadFields(shape, v, PrintFields(fs) + rest, count)
  }

  /** What reading fields should come to when `count` have been read before them. */
  ghost function Expected(v: Value, fs: seq<Field>, count: nat): Option<Value> {
    if count + |fs| <= MAX_FIELDS && AllShort(fs) then Some(ApplyAll(v, fs)) else None
  }

  lemma {:induction false} ExpectedFirst(v: Value, fs: seq<Field>, count: nat)
    requires fs != [] && count < MAX_FIELDS
    ensures Expected(v, fs, count)
         == if !Short(fs[0]) then None
            else if |fs| == 1 then Some(ApplyAll(v, fs))
            else if count == MAX_FIELDS - 1 then None
            else Expected(Apply(v, fs[0]), fs[1..], count + 1)
  {
    AllShortFirst(fs);
  }

  /** The fields of an object, from any point: all applied in order, or refused for being too many or too long. */
  lemma {:induction false} ReadsFields(shape: Shape, v: Value, fs: seq<Field>, count: nat, rest: seq<Token>)
    requires fs != [] && FieldsFit(shape, fs) && count < MAX_FIELDS
    ensures Outcome(shape, v, fs, count, rest) == Expected(v, fs, count)
    decreases |fs|
  {
    ReadsFirst(shape, v, fs, count, rest);
    ExpectedFirst(v, fs, count);
    if |fs| == 1 || count == MAX_FIELDS - 1 {
    } else {
      RestFits(shape, fs);
      ReadsFields(shape, Apply(v, fs[0]), fs[1..], count + 1, rest);
    }
  }

  lemma {:induction false} RestFits(shape: Shape, fs: seq<Field>)
    requires fs != [] && FieldsFit(shape, fs)
    ensures FieldsFit(shape, fs[1..])
  {
  }

  lemma {:induction false} ReadsFirst(shape: Shape, v: Value, fs: seq<Field>, count: nat, rest: seq<Token>)
    requires fs != [] && FieldsFit(shape, fs)
    ensures Outcome(shape, v, fs, count, rest)
         == if !Short(fs[0]) then None
            else if |fs| == 1 then Some(ApplyAll(v, fs))
            else if count == MAX_FIELDS - 1 then None
            else Outcome(shape, Apply(v, fs[0]), fs[1..], count + 1, rest)
  {
    if |fs| == 1 {
      var tail := [ObjectClose] + rest;
      Assoc3(FieldTokens(fs[0]), [ObjectClose], rest);
      ReadsField(shape, v, fs[0], tail, count);
      assert ApplyAll(Apply(v, fs[0]), fs[1..]) == Apply(v, fs[0]);
    } else {
      var tail := [Comma] + (PrintFields(fs[1..]) + rest);
      Assoc3(FieldTokens(fs[0]), [Comma] + PrintFields(fs[1..]), rest);
      Assoc3([Comma], PrintFields(fs[1..]), rest);
      ReadsField(shape, v, fs[0], tail, count);
      assert tail[1..] == PrintFields(fs[1..]) + rest;
    }
  }

  /**
   * Any object of known and unknown fields, in any order and with any repeats,
   * is decoded by applying its fields in turn, whatever follows it; it is
   * refused exactly when it has more than MAX_FIELDS fields or a path of more
   * than MAX_PATH entries.
   */
  lemma {:induction false} DecodesObject(shape: Shape, fs: seq<Field>, rest: seq<Token>)
    requires FieldsFit(shape, fs)
    ensures Decode(shape, PrintObject(fs) + rest)
         == if |fs| <= MAX_FIELDS && AllShort(fs) then Some(ApplyAll(Zero(shape), fs)) else None
  {
    var ts := PrintObject(fs) + rest;
    if fs != [] {
      Assoc3([ObjectOpen], PrintFields(fs), rest);
      assert ts[1..] == PrintFields(fs) + rest;
      assert PrintFields(fs)[0] == FieldTokens(fs[0])[0] == Text(Name(fs[0]));
      ReadsFields(shape, Zero(shape), fs, 0, rest);
    }
  }

  // -------------------------------------------------------------- round trip

  function Known(v: Value): seq<Field>
    requires v.revoke.Link?
  {
    [Cause(v.cause), Path(v.path), RecordedAt(v.recordedAt), Revoke(v.revoke.cid)]
  }

  lemma {:induction false} EncodeIsObject(v: Value)
    requires v.revoke.Link?
    ensures Encode(v) == PrintObject(Known(v))
  {
    PrintsKnown(v);
    EncodeHead(v);
  }

  /** What follows the path in a printed object. */
  function AfterPath(v: Value): seq<Token>
    requires v.revoke.Link?
  {
    var last := FieldTokens(Revoke(v.revoke.cid)) + [ObjectClose];
    [Comma] + (FieldTokens(RecordedAt(v.recordedAt)) + ([Comma] + last))
  }

  lemma {:induction false} PrintsKnown(v: Value)
    requires v.revoke.Link?
    ensures PrintObject(Known(v))
         == [ObjectOpen] + (FieldTokens(Cause(v.cause)) + ([Comma] + (FieldTokens(Path(v.path)) + AfterPath(v))))
  {
    var fs := Known(v);
    PrintsFirst(fs);
    PrintsFirst(fs[1..]);
    PrintsFirst(fs[2..]);
    assert fs[1..][1..] == fs[2..] && fs[2..][1..] == fs[3..];
    assert PrintFields(fs[3..]) == FieldTokens(fs[3]) + [ObjectClose];
  }

  lemma {:induction false} PrintsFirst(fs: seq<Field>)
    requires |fs| > 1
    ensures PrintFields(fs) == FieldTokens(fs[0]) + ([Comma] + PrintFields(fs[1..]))
  {
  }

  lemma {:induction false} EncodeHead(v: Value)
    requires v.revoke.Link?
    ensures Encode(v)
         == [ObjectOpen] + (FieldTokens(Cause(v.cause)) + ([Comma] + (FieldTokens(Path(v.path)) + AfterPath(v))))
  {
    var s, open, end := Separated(v.path), [Text("path"), Colon, ArrayOpen], [ArrayClose] + AfterPath(v);
    var first := [Text("cause"), Colon, v.cause];
    AfterPathIsEnd(v);
    assert FieldTokens(Cause(v.cause)) == first;
    PathTokens(v.path, AfterPath(v));
    Assoc5([ObjectOpen], first, [Comma], open, s + end);
    assert [ObjectOpen] + (first + ([Comma] + open))
        == [ObjectOpen, Text("cause"), Colon, v.cause, Comma, Text("path"), Colon, ArrayOpen];
    Assoc3([ObjectOpen] + (first + ([Comma] + open)), s, end);
  }

  lemma {:induction false} AfterPathIsEnd(v: Value)
    requires v.revoke.Link?
    ensures [ArrayClose] + AfterPath(v)
         == [ArrayClose, Comma, Text("recorded_at"), Colon, Time(v.recordedAt), Comma, Text("revoke"), Colon,
             v.revoke, ObjectClose]
  {
    assert FieldTokens(Revoke(v.revoke.cid)) == [Text("revoke"), Colon, v.revoke];
    assert FieldTokens(RecordedAt(v.recordedAt)) == [Text("recorded_at"), Colon, Time(v.recordedAt)];
  }

  lemma {:induction false} PathTokens(path: seq<Token>, after: seq<Token>)
    ensures FieldTokens(Path(path)) + after
         == [Text("path"), Colon, ArrayOpen] + (Separated(path) + ([ArrayClose] + after))
  {
    var s := Separated(path);
    assert [Text("path"), Colon] + [ArrayOpen] == [Text("path"), Colon, ArrayOpen];
    Assoc5([Text("path"), Colon], [ArrayOpen], s, [ArrayClose], after);
    Assoc3([ArrayOpen], s, [ArrayClose]);
    Assoc3([Text("path"), Colon], [ArrayOpen], s + ([ArrayClose] + after));
  }

  lemma Assoc5(a: seq<Token>, b: seq<Token>, c: seq<Token>, d: seq<Token>, e: seq<Token>)
    ensures (a + (b + (c + d))) + e == a + (b + (c + (d + e)))
  {
    Assoc3(a, b + (c + d), e);
    Assoc3(b, c + d, e);
    Assoc3(c, d, e);
  }

  /** The fields present `v`: each known one with v's value, the path once, the others at least once. */
  ghost predicate Presents(v: Value, fs: seq<Field>) {
    && v.revoke.Link?
    && (forall f :: f in fs && !f.Unknown? ==> f in Known(v))
    && (forall f :: f in Known(v) ==> f in fs)
    && (forall i, j :: 0 <= i < j < |fs| && fs[i].Path? ==> !fs[j].Path?)
  }

  lemma KnownCases(v: Value, f: Field)
    requires v.revoke.Link? && f in Known(v)
    ensures f == Cause(v.cause) || f == Path(v.path) || f == RecordedAt(v.recordedAt) || f == Revoke(v.revoke.cid)
  {
  }

  lemma {:induction false} AppliesOthers(v: Value, v0: Value, fs: seq<Field>)
    requires v.revoke.Link? && forall f :: f in fs && !f.Unknown? ==> f in Known(v)
    ensures
      var r := ApplyAll(v0, fs);
      && r.cause == (if Cause(v.cause) in fs && v.cause != Bytes([]) then v.cause else v0.cause)
      && r.recordedAt == (if RecordedAt(v.recordedAt) in fs then v.recordedAt else v0.recordedAt)
      && r.revoke == (if Revoke(v.revoke.cid) in fs then v.revoke else v0.revoke)
    decreases |fs|
  {
    if fs == [] {
    } else {
      assert fs[0] in fs;
      if !fs[0].Unknown? {
        KnownCases(v, fs[0]);
      }
      AppliesOthers(v, Apply(v0, fs[0]), fs[1..]);
      assert forall f :: f in fs <==> f == fs[0] || f in fs[1..];
    }
  }

  lemma {:induction false} AppliesPath(v: Value, v0: Value, fs: seq<Field>)
    requires v.revoke.Link? && forall f :: f in fs && !f.Unknown? ==> f in Known(v)
    requires forall i, j :: 0 <= i < j < |fs| && fs[i].Path? ==> !fs[j].Path?
    ensures ApplyAll(v0, fs).path == v0.path + (if Path(v.path) in fs then v.path else [])
    decreases |fs|
  {
    if fs == [] {
    } else {
      assert fs[0] in fs;
      if !fs[0].Unknown? {
        KnownCases(v, fs[0]);
      }
      AppliesPath(v, Apply(v0, fs[0]), fs[1..]);
      assert forall f :: f in fs <==> f == fs[0] || f in fs[1..];
      assert forall i :: 0 < i < |fs| ==> fs[i] == fs[1..][i - 1];
      if fs[0].Path? {
        assert Path(v.path) !in fs[1..];
        assert v0.path + v.path + [] == v0.path + v.path;
      }
    }
  }

  /**
   * Every value the encoder accepts, a path of MAX_PATH entries included, is
   * read back equal from any object that presents it: its fields in any order,
   * among any unknown ones, up to MAX_FIELDS in all.
   */
  lemma PresentedIsDecoded(shape: Shape, v: Value, fs: seq<Field>)
    requires Encodable(shape, v) && FieldsFit(shape, fs) && Presents(v, fs) && |fs| <= MAX_FIELDS
    ensures Decode(shape, PrintObject(fs)) == Some(v)
  {
    DecodesObject(shape, fs, []);
    assert PrintObject(fs) + [] == PrintObject(fs);
    AppliesOthers(v, Zero(shape), fs);
    AppliesPath(v, Zero(shape), fs);
    var known := Known(v);
    assert known[0] in known && known[1] in known && known[2] in known && known[3] in known;
    assert [] + v.path == v.path;
    forall i | 0 <= i < |fs|
      ensures Short(fs[i])
    {
      assert fs[i] in fs;
    }
  }

  /** In particular the encoder's own output. */
  lemma {:induction false} RoundTrip(shape: Shape, v: Value)
    requires Encodable(shape, v)
    ensures Decode(shape, Encode(v)) == Some(v)
  {
    EncodeIsObject(v);
    PresentedIsDecoded(shape, v, Known(v));
  }

  // -------------------------------------------------------------------- size

  /** The length of a token's text: CIDs and times as given, strings quoted, bytes not in firehose records. */
  function Width(t: Token, cidWidth: Cid -> nat, timeWidth: int -> nat): nat {
    match t
    case Text(s) => |s| + 2
    case Link(c) => cidWidth(c)
    case Time(x) => timeWidth(x)
    case _ => 1
  }

  function TextWidth(ts: seq<Token>, cidWidth: Cid -> nat, timeWidth: int -> nat): nat {
    if ts == [] then 0
    else TextWidth(ts[..|ts| - 1], cidWidth, timeWidth) + Width(ts[|ts| - 1], cidWidth, timeWidth)
  }

  lemma {:induction false} WidthAppend(a: seq<Token>, b: seq<Token>, cidWidth: Cid -> nat, timeWidth: int -> nat)
    ensures TextWidth(a + b, cidWidth, timeWidth)
         == TextWidth(a, cidWidth, timeWidth) + TextWidth(b, cidWidth, timeWidth)
    decreases |b|
  {
    if b == [] {
      assert a + b == a;
    } else {
      WidthAppend(a, b[..|b| - 1], cidWidth, timeWidth);
      assert (a + b)[..|a + b| - 1] == a + b[..|b| - 1];
    }
  }

  lemma {:induction false} SeparatedWidth(ts: seq<Token>, cidWidth: Cid -> nat, timeWidth: int -> nat, max: nat)
    requires forall c :: cidWidth(c) <= max
    requires forall i :: 0 <= i < |ts| ==> ts[i].Link?
    ensures TextWidth(Separated(ts), cidWidth, timeWidth) <= |ts| * (max + 1)
    decreases |ts|
  {
    if |ts| == 0 {
    } else if |ts| == 1 {
      assert TextWidth(ts[..0], cidWidth, timeWidth) == 0;
    } else {
      var n := |ts| - 1;
      SeparatedWidth(ts[..n], cidWidth, timeWidth, max);
      PairWidth(ts[n], cidWidth, timeWidth);
      WidthAppend(Separated(ts[..n]), [Comma, ts[n]], cidWidth, timeWidth);
    }
  }

  lemma PairWidth(t: Token, cidWidth: Cid -> nat, timeWidth: int -> nat)
    ensures TextWidth([Comma, t], cidWidth, timeWidth) == 1 + Width(t, cidWidth, timeWidth)
    ensures TextWidth([t], cidWidth, timeWidth) == Width(t, cidWidth, timeWidth)
  {
    assert [Comma, t][..1] == [Comma] && [Comma][..0] == [] && [t][..0] == [];
    assert TextWidth([Comma], cidWidth, timeWidth) == 1;
  }

  lemma {:induction false} WidthBound(ts: seq<Token>, cidWidth: Cid -> nat, timeWidth: int -> nat, max: nat)
    requires forall i :: 0 <= i < |ts| ==> Width(ts[i], cidWidth, timeWidth) <= max
    ensures TextWidth(ts, cidWidth, timeWidth) <= |ts| * max
    decreases |ts|
  {
    if ts == [] {
    } else {
      var n := |ts| - 1;
      WidthBound(ts[..n], cidWidth, timeWidth, max);
      assert n * max + max == |ts| * max;
    }
  }

  /**
   * The scanner's limit leaves room for every firehose record: with at most 500
   * bytes for a CID and 100 for a time, any encodable one fits MAX_EVENT_BYTES.
   */
  lemma {:induction false} FirehoseFits(v: Value, cidWidth: Cid -> nat, timeWidth: int -> nat)
    requires Encodable(Firehose, v)
    requires forall c :: cidWidth(c) <= 500
    requires forall t :: timeWidth(t) <= 100
    ensures TextWidth(Encode(v), cidWidth, timeWidth) <= Sse.MAX_EVENT_BYTES
  {
    var head := [ObjectOpen, Text("cause"), Colon, v.cause, Comma, Text("path"), Colon, ArrayOpen];
    var tail := [ArrayClose, Comma, Text("recorded_at"), Colon, Time(v.recordedAt), Comma, Text("revoke"), Colon,
                 v.revoke, ObjectClose];
    WidthBound(head, cidWidth, timeWidth, 500);
    WidthBound(tail, cidWidth, timeWidth, 500);
    SeparatedWidth(v.path, cidWidth, timeWidth, 500);
    WidthAppend(head, Separated(v.path), cidWidth, timeWidth);
    WidthAppend(head + Separated(v.path), tail, cidWidth, timeWidth);
  }
}
