// Exactly what the DAG-JSON decoders accept: whatever they decode is an object
// of fields, applied in turn, and nothing that is cut off or malformed is decoded.

module DagJsonReading {
  import opened Types
  import opened DagJson
  import opened DagJsonRoundTrip

  // --------------------------------------------------------- what is decoded

  /** The elements that an array was read as. */
  lemma {:induction false} ElementsRead(shape: Shape, ts: seq<Token>, path: seq<Token>, count: nat)
    returns (es: seq<Token>)
    requires count < MAX_PATH && ReadElements(shape, ts, path, count).Read?
    ensures es != [] && count + |es| <= MAX_PATH && forall i :: 0 <= i < |es| ==> Fits(shape, es[i])
    ensures
      var read := ReadElements(shape, ts, path, count);
      read.value == path + es && ts == Separated(es) + ([ArrayClose] + read.rest)
    decreases |ts|
  {
    if ts[1] == ArrayClose {
      es := [ts[0]];
    } else {
      var more := ElementsRead(shape, ts[2..], path + [ts[0]], count + 1);
      es := [ts[0]] + more;
      OneMoreElement(ts, path, more, ReadElements(shape, ts, path, count).rest);
    }
  }

  lemma {:induction false} OneMoreElement(ts: seq<Token>, path: seq<Token>, more: seq<Token>, rest: seq<Token>)
    requires |ts| >= 2 && ts[1] == Comma && more != [] && ts[2..] == Separated(more) + ([ArrayClose] + rest)
    ensures ts == Separated([ts[0]] + more) + ([ArrayClose] + rest) && path + [ts[0]] + more == path + ([ts[0]] + more)
  {
    var es := [ts[0]] + more;
    SeparatedHead(es);
    assert es[1..] == more && ts == [ts[0], Comma] + ts[2..];
    Assoc3([ts[0], Comma], Separated(more), [ArrayClose] + rest);
  }

  /** The field that a name and a value were read as. */
  lemma {:induction false} ValueRead(shape: Shape, v: Value, name: string, ts: seq<Token>) returns (f: Field)
    requires |name| <= MAX_NAME && ReadValue(shape, v, name, ts).Read?
    ensures Name(f) == name && FieldFits(shape, f) && Short(f)
    ensures
      var read := ReadValue(shape, v, name, ts);
      read.value == Apply(v, f) && ts == ValueTokens(f) + read.rest
  {
    if name == "cause" {
      f := Cause(ts[0]);
      assert ts == [ts[0]] + ts[1..];
    } else if name == "path" {
      f := PathRead(shape, v, ts);
    } else if name == "recorded_at" {
      f := RecordedAt(ts[0].time);
      assert ts == [ts[0]] + ts[1..];
    } else if name == "revoke" {
      f := Revoke(ts[0].cid);
      assert ts == [ts[0]] + ts[1..];
    } else {
      var value := DiscardedCloses(ts, 0);
      f := Unknown(name, value);
    }
  }

  lemma {:induction false} PathRead(shape: Shape, v: Value, ts: seq<Token>) returns (f: Field)
    requires ReadValue(shape, v, "path", ts).Read?
    ensures f.Path? && FieldFits(shape, f) && Short(f)
    ensures
      var read := ReadValue(shape, v, "path", ts);
      read.value == Apply(v, f) && ts == ValueTokens(f) + read.rest
  {
    if ts[1] == ArrayClose {
      f := Path([]);
      assert v.path + [] == v.path && ts == [ArrayOpen, ArrayClose] + ts[2..];
      assert ValueTokens(f) == [ArrayOpen, ArrayClose];
    } else {
      var es := ElementsRead(shape, ts[1..], v.path, 0);
      f := Path(es);
      var rest := ReadValue(shape, v, "path", ts).rest;
      assert ts == [ArrayOpen] + ts[1..];
      Assoc3([ArrayOpen], Separated(es), [ArrayClose] + rest);
      Assoc3([ArrayOpen] + Separated(es), [ArrayClose], rest);
    }
  }

  /** One field, with its name and the colon after that. */
  lemma {:induction false} FieldRead(shape: Shape, v: Value, ts: seq<Token>) returns (f: Field, after: seq<Token>)
    requires |ts| >= 2 && ts[0].Text? && |ts[0].text| <= MAX_NAME && ts[1] == Colon
    requires ReadValue(shape, v, ts[0].text, ts[2..]).Read?
    ensures FieldFits(shape, f) && Short(f) && ts == FieldTokens(f) + after
    ensures ReadValue(shape, v, ts[0].text, ts[2..]) == Read(Apply(v, f), after)
  {
    f := ValueRead(shape, v, ts[0].text, ts[2..]);
    after := ReadValue(shape, v, ts[0].text, ts[2..]).rest;
    assert ts == [Text(Name(f)), Colon] + ts[2..];
    Assoc3([Text(Name(f)), Colon], ValueTokens(f), after);
  }

  lemma {:induction false} LastField(v: Value, f: Field, ts: seq<Token>, after: seq<Token>)
    requires ts == FieldTokens(f) + after && after != [] && after[0] == ObjectClose
    ensures ApplyAll(v, [f]) == Apply(v, f) && ts == PrintFields([f]) + after[1..]
  {
    assert [f][1..] == [] && after == [ObjectClose] + after[1..];
    Assoc3(FieldTokens(f), [ObjectClose], after[1..]);
  }

  /** The fields that an object was read as. */
  lemma {:induction false} FieldsRead(shape: Shape, v: Value, ts: seq<Token>, count: nat)
    returns (fs: seq<Field>, rest: seq<Token>)
    requires count < MAX_FIELDS && ReadFields(shape, v, ts, count).Some?
    ensures fs != [] && FieldsFit(shape, fs) && AllShort(fs) && count + |fs| <= MAX_FIELDS
    ensures ReadFields(shape, v, ts, count) == Some(ApplyAll(v, fs)) && ts == PrintFields(fs) + rest
    decreases |ts|
  {
    var f, after := FieldRead(shape, v, ts);
    if after[0] == ObjectClose {
      fs, rest := [f], after[1..];
      LastField(v, f, ts, after);
    } else {
      var more;
      more, rest := FieldsRead(shape, Apply(v, f), after[1..], count + 1);
      fs := [f] + more;
      OneMoreField(shape, v, f, more, ts, after, rest);
    }
  }

  lemma {:induction false} OneMoreField(shape: Shape, v: Value, f: Field, more: seq<Field>,
                                        ts: seq<Token>, after: seq<Token>, rest: seq<Token>)
    requires more != [] && FieldFits(shape, f) && Short(f) && FieldsFit(shape, more) && AllShort(more)
    requires ts == FieldTokens(f) + after && after != [] && after[0] == Comma && after[1..] == PrintFields(more) + rest
    ensures
      var fs := [f] + more;
      && FieldsFit(shape, fs) && AllShort(fs)
      && ApplyAll(v, fs) == ApplyAll(Apply(v, f), more) && ts == PrintFields(fs) + rest
  {
    var fs := [f] + more;
    assert fs[1..] == more;
    PrintsFirst(fs);
    assert after == [Comma] + (PrintFields(more) + rest);
    Assoc3([Comma], PrintFields(more), rest);
    Assoc3(FieldTokens(f), [Comma] + PrintFields(more), rest);
  }

  /** Fields that make an object the decoder accepts. */
  ghost predicate Acceptable(shape: Shape, fs: seq<Field>) {
    FieldsFit(shape, fs) && AllShort(fs) && |fs| <= MAX_FIELDS
  }

  /** Whatever is decoded begins with such an object, and is what its fields make of a zero value, in turn. */
  lemma {:induction false} DecodedIsObject(shape: Shape, ts: seq<Token>) returns (fs: seq<Field>)
    requires Decode(shape, ts).Some?
    ensures Acceptable(shape, fs) && PrintObject(fs) <= ts
    ensures Decode(shape, ts) == Some(ApplyAll(Zero(shape), fs))
  {
    if ts[1] == ObjectClose {
      fs := [];
    } else {
      var rest;
      fs, rest := FieldsRead(shape, Zero(shape), ts[1..], 0);
      assert ts == [ObjectOpen] + ts[1..];
      Assoc3([ObjectOpen], PrintFields(fs), rest);
    }
  }

  lemma {:induction false} ObjectIsDecoded(shape: Shape, ts: seq<Token>, fs: seq<Field>)
    requires Acceptable(shape, fs) && PrintObject(fs) <= ts
    ensures Decode(shape, ts) == Some(ApplyAll(Zero(shape), fs))
  {
    var rest := ts[|PrintObject(fs)|..];
    assert ts == PrintObject(fs) + rest;
    DecodesObject(shape, fs, rest);
  }

  /**
   * The decoder accepts exactly the inputs that begin with an object of fitting
   * fields, within its bounds, and decodes that.
   */
  lemma {:induction false} DecodesIff(shape: Shape, ts: seq<Token>, v: Value)
    ensures Decode(shape, ts) == Some(v) <==>
      exists fs :: Acceptable(shape, fs) && PrintObject(fs) <= ts && v == ApplyAll(Zero(shape), fs)
  {
    if Decode(shape, ts) == Some(v) {
      var fs := DecodedIsObject(shape, ts);
    } else if fs :| Acceptable(shape, fs) && PrintObject(fs) <= ts && v == ApplyAll(Zero(shape), fs) {
      ObjectIsDecoded(shape, ts, fs);
    }
  }

  /** The decoder itself: it returns a value exactly when the input begins with such an object that makes it. */
  method Unmarshal(shape: Shape, ts: seq<Token>) returns (r: Option<Value>)
    ensures forall v ::
      r == Some(v) <==>
      exists fs :: Acceptable(shape, fs) && PrintObject(fs) <= ts && v == ApplyAll(Zero(shape), fs)
  {
    var reader := new Reader(ts);
    r := reader.Unmarshal(shape);
    forall v
      ensures Decode(shape, ts) == Some(v) <==>
        exists fs :: Acceptable(shape, fs) && PrintObject(fs) <= ts && v == ApplyAll(Zero(shape), fs)
    {
      DecodesIff(shape, ts, v);
    }
  }

  // ----------------------------------------------------------- what is not

  /** Discarding what closes `open` more brackets than it opens leaves the rest to discard at the depth before. */
  lemma {:induction false} DiscardsNested(value: seq<Token>, rest: seq<Token>, inner: nat, depth: nat)
    requires Closed(value, inner) && depth > 0
    ensures Discard(value + rest, inner + depth) == Discard(rest, depth)
    decreases |value|
  {
    var t, tail := value[0], value[1..];
    assert value == [t] + tail && value + rest == [t] + (tail + rest);
    ClosedCons(t, tail, inner);
    DiscardCons(t, tail + rest, inner + depth);
    if tail == [] {
      assert tail + rest == rest;
    } else {
      DiscardsNested(tail, rest, inner + Weight(t), depth);
    }
  }

  lemma {:induction false} ScalarCloses(t: Token)
    requires Weight(t) == 0
    ensures Closed([t], 0)
  {
    assert [t] + [] == [t];
    ClosedCons(t, [], 0);
  }

  /** Elements and the close of their array. */
  lemma {:induction false} ElementsClose(shape: Shape, ts: seq<Token>)
    requires forall i :: 0 <= i < |ts| ==> Fits(shape, ts[i])
    ensures Closed(Separated(ts) + [ArrayClose], 1)
    decreases |ts|
  {
    assert [ArrayClose] + [] == [ArrayClose];
    ClosedCons(ArrayClose, [], 1);
    if ts == [] {
      assert Separated(ts) + [ArrayClose] == [ArrayClose];
    } else if |ts| == 1 {
      assert Separated(ts) + [ArrayClose] == [ts[0]] + [ArrayClose];
      ClosedCons(ts[0], [ArrayClose], 1);
    } else {
      var more := Separated(ts[1..]) + [ArrayClose];
      ElementsClose(shape, ts[1..]);
      SeparatedHead(ts);
      Assoc3([ts[0], Comma], Separated(ts[1..]), [ArrayClose]);
      assert [ts[0], Comma] + more == [ts[0]] + ([Comma] + more);
      ClosedCons(Comma, more, 1);
      ClosedCons(ts[0], [Comma] + more, 1);
    }
  }

  lemma {:induction false} ValueCloses(shape: Shape, f: Field)
    requires FieldFits(shape, f)
    ensures Closed(ValueTokens(f), 0)
  {
    match f
    case Path(ts) =>
      ElementsClose(shape, ts);
      Assoc3([ArrayOpen], Separated(ts), [ArrayClose]);
      ClosedCons(ArrayOpen, Separated(ts) + [ArrayClose], 0);
    case Unknown(_, _) =>
    case _ =>
      ScalarCloses(ValueTokens(f)[0]);
  }

  /** Skipping goes through a name and the colon after it. */
  lemma {:induction false} DiscardsName(name: string, value: seq<Token>)
    ensures Discard([Text(name)] + ([Colon] + value), 1) == Discard(value, 1)
  {
    DiscardCons(Text(name), [Colon] + value, 1);
    DiscardCons(Colon, value, 1);
  }

  lemma {:induction false} FieldThen(f: Field, tail: seq<Token>)
    ensures FieldTokens(f) + tail == [Text(Name(f))] + ([Colon] + (ValueTokens(f) + tail))
  {
  }

  lemma {:induction false} DiscardsFieldValue(shape: Shape, f: Field, tail: seq<Token>)
    requires FieldFits(shape, f)
    ensures Discard(ValueTokens(f) + tail, 1) == Discard(tail, 1)
  {
    ValueCloses(shape, f);
    DiscardsNested(ValueTokens(f), tail, 0, 1);
  }

  lemma {:induction false} DiscardsField(shape: Shape, f: Field, tail: seq<Token>)
    requires FieldFits(shape, f)
    ensures Discard(FieldTokens(f) + tail, 1) == Discard(tail, 1)
  {
    FieldThen(f, tail);
    DiscardsName(Name(f), ValueTokens(f) + tail);
    DiscardsFieldValue(shape, f, tail);
  }

  lemma {:induction false} DiscardsFields(shape: Shape, fs: seq<Field>)
    requires fs != [] && FieldsFit(shape, fs)
    ensures Discard(PrintFields(fs), 1) == Some([])
    decreases |fs|
  {
    if |fs| == 1 {
      DiscardsField(shape, fs[0], [ObjectClose]);
      assert [ObjectClose] + [] == [ObjectClose];
      DiscardCons(ObjectClose, [], 1);
    } else {
      DiscardsField(shape, fs[0], [Comma] + PrintFields(fs[1..]));
      DiscardCons(Comma, PrintFields(fs[1..]), 1);
      DiscardsFields(shape, fs[1..]);
    }
  }

  /** A printed object closes its one bracket with its last token. */
  lemma {:induction false} ObjectCloses(shape: Shape, fs: seq<Field>)
    requires FieldsFit(shape, fs)
    ensures Closed(PrintObject(fs), 0)
  {
    var inner := if fs == [] then [ObjectClose] else PrintFields(fs);
    if fs == [] {
      assert [ObjectClose] + [] == [ObjectClose];
      DiscardCons(ObjectClose, [], 1);
    } else {
      DiscardsFields(shape, fs);
    }
    var value := DiscardedCloses(inner, 1);
    assert value + [] == value;
    ClosedCons(ObjectOpen, inner, 0);
  }

  /** What closes its brackets does not begin with something shorter that does. */
  lemma {:induction false} ClosedIsWhole(whole: seq<Token>, part: seq<Token>, n: nat)
    requires Closed(whole, 0) && Closed(part, 0) && n < |whole|
    ensures !(part <= whole[..n])
  {
    if |part| <= n {
      assert whole[..n][..|part|] == whole[..|part|];
      assert Depth(whole[..|part|]) > 0;
      assert whole[..n][..|part|] != part;
    }
  }

  /** A record that is cut off, after any of its tokens but the last, is refused. */
  lemma {:induction false} CutOffIsRefused(shape: Shape, fs: seq<Field>, n: nat)
    requires FieldsFit(shape, fs) && n < |PrintObject(fs)|
    ensures Decode(shape, PrintObject(fs)[..n]) == None
  {
    ObjectCloses(shape, fs);
    forall other | Acceptable(shape, other)
      ensures !(PrintObject(other) <= PrintObject(fs)[..n])
    {
      ObjectCloses(shape, other);
      ClosedIsWhole(PrintObject(fs), PrintObject(other), n);
    }
    if Decode(shape, PrintObject(fs)[..n]).Some? {
      var other := DecodedIsObject(shape, PrintObject(fs)[..n]);
    }
  }

  /** So is what the encoder wrote, if it is not all there. */
  lemma {:induction false} CutOffEncodingIsRefused(shape: Shape, v: Value, n: nat)
    requires Encodable(shape, v) && n < |Encode(v)|
    ensures Decode(shape, Encode(v)[..n]) == None
  {
    EncodeIsObject(v);
    CutOffIsRefused(shape, Known(v), n);
  }

  // ------------------------------------------------------------- wrong kinds

  /** Fields, each with the comma after it. */
  function Listed(fs: seq<Field>): seq<Token> {
    if fs == [] then [] else FieldTokens(fs[0]) + ([Comma] + Listed(fs[1..]))
  }

  /** A token that cannot be how the value of a known field begins. */
  predicate WrongKind(shape: Shape, name: string, t: Token) {
    || (name == "cause" && !Fits(shape, t))
    || (name == "path" && t != ArrayOpen)
    || (name == "recorded_at" && !t.Time?)
    || (name == "revoke" && !t.Link?)
  }

  lemma {:induction false} ReadsNoFurther(shape: Shape, v: Value, fs: seq<Field>, name: string, t: Token,
                                          rest: seq<Token>, count: nat)
    requires FieldsFit(shape, fs) && WrongKind(shape, name, t)
    ensures ReadFields(shape, v, Listed(fs) + ([Text(name), Colon, t] + rest), count) == None
    decreases |fs|
  {
    var last := [Text(name), Colon, t] + rest;
    if fs == [] {
      assert Listed(fs) + last == last;
      assert last[0] == Text(name) && last[2..][0] == t;
    } else {
      var tail := [Comma] + (Listed(fs[1..]) + last);
      Assoc3(FieldTokens(fs[0]), [Comma] + Listed(fs[1..]), last);
      Assoc3([Comma], Listed(fs[1..]), last);
      ReadsField(shape, v, fs[0], tail, count);
      assert tail[1..] == Listed(fs[1..]) + last;
      RestFits(shape, fs);
      ReadsNoFurther(shape, Apply(v, fs[0]), fs[1..], name, t, rest, count + 1);
    }
  }

  /** An object with a known field whose value is of the wrong kind is refused, whatever is around it. */
  lemma {:induction false} WrongKindIsRefused(shape: Shape, fs: seq<Field>, name: string, t: Token, rest: seq<Token>)
    requires FieldsFit(shape, fs) && WrongKind(shape, name, t)
    ensures Decode(shape, [ObjectOpen] + (Listed(fs) + ([Text(name), Colon, t] + rest))) == None
  {
    var inner := Listed(fs) + ([Text(name), Colon, t] + rest);
    var ts := [ObjectOpen] + inner;
    assert ts[1..] == inner && inner[0].Text?;
    ReadsNoFurther(shape, Zero(shape), fs, name, t, rest, 0);
  }
}
