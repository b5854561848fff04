// What a client written to the standard makes of the event stream the server
// prints: the same events as the scanner, and the ids of the records.

module SseStandard {
  import opened Sse
  import opened SsePrinter
  import opened SseReference
  import SseBytes

  /** The lines printed for messages, each with the blank one that ends it. */
  function LinesOf(ms: seq<Message>): seq<string> {
    if ms == [] then [] else Block(ms[0]) + ([""] + LinesOf(ms[1..]))
  }

  lemma {:induction false} BlockThen(block: seq<string>, lines: seq<string>)
    ensures Text(block + ([""] + lines)) == Text(block) + "\n" + Text(lines)
  {
    SseBytes.TextAppend(block, [""] + lines);
    assert ([""] + lines)[1..] == lines;
    Assoc(Text(block), "\n", Text(lines));
  }

  lemma {:induction false} PrintsLines(ms: seq<Message>)
    ensures PrintAll(ms) == Text(LinesOf(ms))
    decreases |ms|
  {
    if ms == [] {
    } else {
      PrintsLines(ms[1..]);
      assert Printed(ms)[1..] == Printed(ms[1..]);
      BlockThen(Block(ms[0]), LinesOf(ms[1..]));
    }
  }

  predicate AllReadable(lines: seq<string>) {
    forall l :: l in lines ==> Readable(l) && Plain(l)
  }

  lemma {:induction false} TypesArePlain()
    ensures Plain("event: revocation") && Plain("event: error")
  {
    TypeLines();
    assert "event: revocation"[6..] == " revocation" && "event: error"[6..] == " error";
  }

  lemma {:induction false} OthersArePlain(line: string)
    requires line != "" && line[0] != 'e' && line != "data"
    ensures Plain(line)
  {
    StartsOtherwise(line, "event:");
  }

  lemma {:induction false} DataIsPlain(data: string)
    ensures Plain("data: " + data)
  {
    var line := "data: " + data;
    assert |line| >= 6 && line[0] == 'd';
    OthersArePlain(line);
  }

  lemma {:induction false} IdIsPlain(id: string)
    ensures Plain("id: " + id)
  {
    var line := "id: " + id;
    assert line[0] == 'i';
    OthersArePlain(line);
  }

  lemma {:induction false} BlockIsPlain(m: Message)
    ensures forall i :: 0 <= i < |Block(m)| ==> Plain(Block(m)[i])
  {
    TypesArePlain();
    DataIsPlain(m.data);
    if m.Revocation? {
      IdIsPlain(m.id);
    }
  }

  lemma {:induction false} BlockIsReadable(m: Message, block: seq<string>)
    requires Printable(m) && block == Block(m)
    ensures AllReadable(block + [""])
  {
    BlockIsHarmless(m);
    BlockIsPlain(m);
    BlankIsPlain();
  }

  lemma BlankIsPlain()
    ensures Plain("") && Readable("")
  {
  }

  lemma {:induction false} LinesAreReadable(ms: seq<Message>)
    requires AllPrintable(ms)
    ensures AllReadable(LinesOf(ms))
    decreases |ms|
  {
    if ms == [] {
    } else {
      assert ms[0] in ms;
      BlockIsReadable(ms[0], Block(ms[0]));
      LinesAreReadable(ms[1..]);
    }
  }

  /** A text of readable lines is one the scanner and the standard agree on, line by line. */
  lemma {:induction false} TextIsPlain(lines: seq<string>)
    requires AllReadable(lines)
    ensures '\r' !in Text(lines) && ShortLines(Text(lines))
    decreases |lines|
  {
    if lines == [] {
    } else {
      assert lines[0] in lines;
      TextIsPlain(lines[1..]);
      LineLengthOf(lines[0], Text(lines[1..]));
      assert Rest(Text(lines)) == Text(lines[1..]);
    }
  }

  lemma {:induction false} TextSplitsBack(lines: seq<string>)
    requires AllReadable(lines)
    ensures Split(Text(lines), "") == lines
  {
    TextIsPlain(lines);
    assert Text(lines) == Text(lines) + "";
    ReadText(lines, "", Text(lines));
    ReadLinesSplits(Text(lines));
  }

  /** The id of the last record among messages. */
  function IdAfter(ms: seq<Message>, id: string): string {
    if ms == [] then id else IdAfter(ms[1..], if ms[0].Revocation? then ms[0].id else id)
  }

  lemma {:induction false} IdLine(line: string, more: seq<string>, id: string)
    requires Field(line) == "id" && '\0' !in Value(line)
    ensures LastId([line] + more, id) == LastId(more, Value(line))
  {
    assert ([line] + more)[1..] == more;
  }

  lemma {:induction false} OtherLine(line: string, more: seq<string>, id: string)
    requires Field(line) != "id"
    ensures LastId([line] + more, id) == LastId(more, id)
  {
    assert ([line] + more)[1..] == more;
  }

  lemma {:induction false} FieldOf(name: string, value: string)
    requires ':' !in name
    ensures Field(name + ": " + value) == name && Value(name + ": " + value) == value
  {
    var line := name + ": " + value;
    assert line[..|name| + 1] == name + ":" && line[|name| + 1..] == " " + value;
    ColonOf(line, name);
  }

  lemma {:induction false} EventField(line: string)
    requires line == "event: revocation" || line == "event: error"
    ensures Field(line) == "event"
  {
    assert HasPrefix(line, "event:") && "event" + ":" == "event:";
    ColonOf(line, "event");
  }

  lemma {:induction false} IdOfTwo(name: string, data: string, more: seq<string>, id: string)
    requires Field(name) != "id" && Field(data) != "id"
    ensures LastId([name, data] + more, id) == LastId(more, id)
  {
    assert [name, data] + more == [name] + ([data] + more);
    OtherLine(name, [data] + more, id);
    OtherLine(data, more, id);
  }

  lemma {:induction false} IdOfThree(line: string, name: string, data: string, more: seq<string>, id: string)
    requires Field(line) == "id" && '\0' !in Value(line) && Field(name) != "id" && Field(data) != "id"
    ensures LastId([line, name, data] + more, id) == LastId(more, Value(line))
  {
    assert [line, name, data] + more == [line] + ([name, data] + more);
    IdLine(line, [name, data] + more, id);
    IdOfTwo(name, data, more, Value(line));
  }

  lemma {:induction false} IdOfBlock(m: Message, more: seq<string>, id: string)
    requires m.Revocation? ==> '\0' !in m.id
    ensures LastId(Block(m) + more, id) == LastId(more, if m.Revocation? then m.id else id)
  {
    var block := Block(m);
    DataField(m.data);
    if m.Revocation? {
      assert block == [block[0], block[1], block[2]];
      IdField(m.id);
      EventField(block[1]);
      IdOfThree(block[0], block[1], block[2], more, id);
    } else {
      assert block == [block[0], block[1]];
      EventField(block[0]);
      IdOfTwo(block[0], block[1], more, id);
    }
  }

  lemma {:induction false} DataField(data: string)
    ensures Field("data: " + data) == "data"
  {
    assert "data" + ": " == "data: ";
    FieldOf("data", data);
  }

  lemma {:induction false} IdField(id: string)
    ensures Field("id: " + id) == "id" && Value("id: " + id) == id
  {
    assert "id" + ": " == "id: ";
    FieldOf("id", id);
  }

  lemma {:induction false} IdOfLines(ms: seq<Message>, id: string)
    requires forall m :: m in ms && m.Revocation? ==> '\0' !in m.id
    ensures LastId(LinesOf(ms), id) == IdAfter(ms, id)
    decreases |ms|
  {
    if ms == [] {
    } else {
      assert ms[0] in ms;
      var now := if ms[0].Revocation? then ms[0].id else id;
      IdOfBlock(ms[0], [""] + LinesOf(ms[1..]), id);
      assert ([""] + LinesOf(ms[1..]))[1..] == LinesOf(ms[1..]);
      assert LastId([""] + LinesOf(ms[1..]), now) == LastId(LinesOf(ms[1..]), now);
      IdOfLines(ms[1..], now);
    }
  }

  /**
   * Any client written to the standard reads what the server prints: every
   * message as its event, and after each of them the id of the last record.
   */
  lemma {:induction false} PrintedForAnyone(ms: seq<Message>)
    requires AllPrintable(ms) && forall m :: m in ms && m.Revocation? ==> '\0' !in m.id
    ensures Reference(PrintAll(ms)) == EventsOf(ms)
    ensures LastId(Split(PrintAll(ms), ""), "") == IdAfter(ms, "")
  {
    PrintsLines(ms);
    LinesAreReadable(ms);
    TextIsPlain(LinesOf(ms));
    TextSplitsBack(LinesOf(ms));
    IdOfLines(ms, "");
    RoundTrip(ms);
    AgreesWithStandard(PrintAll(ms));
  }
}
