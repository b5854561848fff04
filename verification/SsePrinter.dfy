// The event stream the server prints (pkg/fx/app.go), and what the scanner
// reads back from any part of it.

module SsePrinter {
  import opened Sse
  import opened SseLimit

  /** What the firehose handler writes: a record's event, or the error that ends a stream. */
  datatype Message =
    | Revocation(id: string, data: string)
    | Failure(data: string)

  /** Each line with the newline that ends it. */
  function Text(lines: seq<string>): string {
    if lines == [] then "" else lines[0] + "\n" + Text(lines[1..])
  }

  /** The lines the handler's format string gives a message, without the blank one that ends it. */
  function Block(m: Message): seq<string> {
    match m
    case Revocation(id, data) => ["id: " + id, "event: revocation", "data: " + data]
    case Failure(data) => ["event: error", "data: " + data]
  }

  function Print(m: Message): string {
    Text(Block(m)) + "\n"
  }

  /** Texts, end to end. */
  function Concat(pieces: seq<string>): string {
    if pieces == [] then "" else pieces[0] + Concat(pieces[1..])
  }

  function Printed(ms: seq<Message>): (pieces: seq<string>)
    ensures |pieces| == |ms| && forall i :: 0 <= i < |ms| ==> pieces[i] == Print(ms[i])
  {
    seq(|ms|, i requires 0 <= i < |ms| => Print(ms[i]))
  }

  function PrintAll(ms: seq<Message>): string {
    Concat(Printed(ms))
  }

  function EventOf(m: Message): Event {
    Event(if m.Revocation? then "revocation" else "error", m.data)
  }

  function EventsOf(ms: seq<Message>): (events: seq<Event>)
    ensures |events| == |ms|
    ensures forall i :: 0 <= i < |ms| ==> events[i] == EventOf(ms[i])
  {
    seq(|ms|, i requires 0 <= i < |ms| => EventOf(ms[i]))
  }

  predicate OneLine(s: string) {
    '\n' !in s && '\r' !in s
  }

  /** A message the printer is meant for: no line breaks, and within the bounds. */
  predicate Printable(m: Message) {
    && OneLine(m.data) && |m.data| <= MAX_EVENT_BYTES
    && (m.Revocation? ==> OneLine(m.id) && 4 + |m.id| < MAX_LINE_BYTES)
  }

  ghost predicate AllPrintable(ms: seq<Message>) {
    forall m :: m in ms ==> Printable(m)
  }

  /** How many pieces lie entirely within the first `bytes` bytes of them all. */
  function WholePieces(pieces: seq<string>, bytes: nat): (k: nat)
    ensures k <= |pieces|
  {
    if pieces == [] || bytes < |pieces[0]| then 0 else 1 + WholePieces(pieces[1..], bytes - |pieces[0]|)
  }

  /** How many messages lie entirely within the first `bytes` bytes of the stream. */
  function Whole(ms: seq<Message>, bytes: nat): (k: nat)
    ensures k <= |ms|
  {
    WholePieces(Printed(ms), bytes)
  }

  // ------------------------------------------------------ reading lines

  /** A line and its terminator are read as that line. */
  lemma {:induction false} LineLengthOf(line: string, rest: string)
    requires '\n' !in line
    ensures LineLength(line + "\n" + rest) == |line|
    ensures LineLength(line) == |line|
  {
    if line == "" {
    } else {
      LineLengthOf(line[1..], rest);
      assert (line + "\n" + rest)[1..] == line[1..] + "\n" + rest;
    }
  }

  predicate Readable(line: string) {
    OneLine(line) && |line| < MAX_LINE_BYTES
  }

  lemma Assoc(a: string, b: string, c: string)
    ensures (a + b) + c == a + (b + c)
  {
  }

  lemma {:induction false} CutWithin(a: string, b: string, n: nat)
    requires n <= |a|
    ensures (a + b)[..n] == a[..n]
  {
  }

  lemma {:induction false} CutPast(a: string, b: string, n: nat)
    requires |a| <= n <= |a| + |b|
    ensures (a + b)[..n] == a + b[..n - |a|]
  {
  }

  lemma ReadOne(line: string, rest: string, s: string)
    requires Readable(line) && s == line + "\n" + rest
    ensures ReadLines(s) == Lines([line] + ReadLines(rest).lines, ReadLines(rest).overlong)
  {
    LineLengthOf(line, rest);
    assert s[..|line|] == line && s[|line| + 1..] == rest;
  }

  lemma TextSplits(lines: seq<string>, rest: string)
    requires lines != []
    ensures Text(lines) + rest == lines[0] + "\n" + (Text(lines[1..]) + rest)
  {
    Assoc(lines[0] + "\n", Text(lines[1..]), rest);
  }

  lemma {:induction false} PrependFirst(lines: seq<string>, read: seq<string>)
    requires lines != []
    ensures [lines[0]] + (lines[1..] + read) == lines + read
  {
  }

  lemma {:induction false} ReadText(lines: seq<string>, rest: string, s: string)
    requires forall l :: l in lines ==> Readable(l)
    requires s == Text(lines) + rest
    ensures ReadLines(s) == Lines(lines + ReadLines(rest).lines, ReadLines(rest).overlong)
    decreases |lines|
  {
    if lines == [] {
      assert s == rest && lines + ReadLines(rest).lines == ReadLines(rest).lines;
    } else {
      assert lines[0] in lines;
      var tail := Text(lines[1..]) + rest;
      ReadText(lines[1..], rest, tail);
      TextSplits(lines, rest);
      ReadOne(lines[0], tail, s);
      PrependFirst(lines, ReadLines(rest).lines);
    }
  }

  // --------------------------------------------------- one printed event

  lemma TrimmedType()
    ensures TrimSpace(" revocation") == "revocation" && TrimSpace(" error") == "error"
  {
    assert TrimLeft(" revocation") == "revocation" by { assert " revocation"[1..] == "revocation"; }
    assert TrimLeft(" error") == "error" by { assert " error"[1..] == "error"; }
  }

  lemma StartsOtherwise(line: string, prefix: string)
    requires line != "" && prefix != "" && line[0] != prefix[0]
    ensures !HasPrefix(line, prefix)
  {
  }

  lemma DataLine(data: string)
    ensures IsDataLine("data: " + data) && !IsEventLine("data: " + data)
    ensures DataValue("data: " + data) == data
  {
    assert ("data: " + data)[5..] == " " + data;
    StartsOtherwise("data: " + data, "event:");
  }

  lemma {:induction false} TypeLines()
    ensures IsEventLine("event: revocation") && EventValue("event: revocation") == "revocation"
    ensures IsEventLine("event: error") && EventValue("event: error") == "error"
    ensures !IsDataLine("event: revocation") && !IsDataLine("event: error")
  {
    TrimmedType();
    assert "event: revocation"[6..] == " revocation" && "event: error"[6..] == " error";
    StartsOtherwise("event: revocation", "data:");
    StartsOtherwise("event: error", "data:");
  }

  /** A type line and a data line carry that type and those data. */
  lemma {:induction false} PairCarries(line: string, data: string, name: string)
    requires IsEventLine(line) && !IsDataLine(line)
    ensures DataOf([line, "data: " + data]) == [data] && NameOf([line, "data: " + data], name) == EventValue(line)
  {
    var last := ["data: " + data];
    DataLine(data);
    assert [line, "data: " + data][1..] == last && last[1..] == [];
    assert DataOf(last) == [data] && NameOf(last, EventValue(line)) == EventValue(line);
  }

  lemma {:induction false} OtherFirst(line: string, block: seq<string>, name: string)
    requires !IsEventLine(line) && !IsDataLine(line)
    ensures DataOf([line] + block) == DataOf(block) && NameOf([line] + block, name) == NameOf(block, name)
  {
    assert ([line] + block)[1..] == block;
  }

  /** A message's lines carry its data and its type. */
  lemma {:induction false} BlockCarries(m: Message)
    ensures DataOf(Block(m)) == [m.data]
    ensures NameOf(Block(m), "") == EventOf(m).name
  {
    TypeLines();
    if m.Revocation? {
      var pair := ["event: revocation", "data: " + m.data];
      StartsOtherwise("id: " + m.id, "data:");
      StartsOtherwise("id: " + m.id, "event:");
      PairCarries("event: revocation", m.data, "");
      OtherFirst("id: " + m.id, pair, "");
      assert Block(m) == ["id: " + m.id] + pair;
    } else {
      PairCarries("event: error", m.data, "");
    }
  }

  lemma {:induction false} ReadPrinted(m: Message, rest: string, s: string)
    requires Printable(m) && s == Print(m) + rest
    ensures ReadLines(s) == Lines(Block(m) + [""] + ReadLines(rest).lines, ReadLines(rest).overlong)
  {
    var tail, read := "\n" + rest, ReadLines(rest).lines;
    assert ReadLines(s) == Lines(Block(m) + ReadLines(tail).lines, ReadLines(tail).overlong) by {
      BlockIsHarmless(m);
      Assoc(Text(Block(m)), "\n", rest);
      ReadText(Block(m), tail, s);
    }
    assert ReadLines(tail) == Lines([""] + read, ReadLines(rest).overlong) by {
      ReadOne("", rest, tail);
    }
    assert Block(m) + ([""] + read) == Block(m) + [""] + read;
  }

  /** What follows a whole message is read as if it came first. */
  lemma WholeMessageScans(m: Message, rest: string, s: string)
    requires Printable(m) && s == Print(m) + rest
    ensures ScanAll(s) == Scanned([EventOf(m)] + ScanAll(rest).events, ScanAll(rest).tooLong)
  {
    ReadPrinted(m, rest, s);
    BlockIsHarmless(m);
    BlockCarries(m);
    LimitIsExact(Block(m), ReadLines(rest).lines);
  }

  // ------------------------------------------------- an interrupted event

  /** A line that is no part of an event too long: not blank, and its data, if any, within the bound. */
  predicate Harmless(line: string) {
    line != "" && (IsDataLine(line) ==> |DataValue(line)| <= MAX_EVENT_BYTES)
  }

  /** Lines with no blank one among them, and data on the last at most, report no event. */
  lemma {:induction false} NothingReported(lines: seq<string>, name: string)
    requires forall l :: l in lines ==> Harmless(l)
    requires forall i :: 0 <= i < |lines| - 1 ==> !IsDataLine(lines[i])
    ensures Next(lines, name, []) == Exhausted
  {
    if lines == [] {
    } else {
      var line := lines[0];
      assert line in lines;
      var name' := if IsEventLine(line) then EventValue(line) else name;
      if IsDataLine(line) {
        var value := DataValue(line);
        var none: seq<string> := [];
        assert none + [value] == [value] && lines[1..] == [];
        assert |Join(none + [value])| <= MAX_EVENT_BYTES;
        assert Next(lines[1..], name', none + [value]) == Exhausted;
      } else {
        NothingReported(lines[1..], name');
      }
    }
  }

  lemma PrefixIsReadable(part: string, line: string)
    requires part <= line && Readable(line)
    ensures Readable(part)
  {
    assert forall c :: c in part ==> c in line;
  }

  /** The lines read from a text cut short are its first lines, the last of them perhaps in part. */
  ghost predicate Begins(read: seq<string>, lines: seq<string>) {
    && |read| <= |lines|
    && (forall i :: 0 <= i < |read| ==> read[i] != "" && read[i] <= lines[i])
  }

  lemma {:induction false} BeginsMore(line: string, read: seq<string>, lines: seq<string>)
    requires lines != [] && lines[0] != "" && lines[0] == line && Begins(read, lines[1..])
    ensures Begins([line] + read, lines)
  {
    assert forall i :: 0 < i < |lines| ==> lines[1..][i - 1] == lines[i];
  }

  lemma {:induction false} ReadCut(lines: seq<string>, cut: nat) returns (read: seq<string>)
    requires forall l :: l in lines ==> Readable(l) && l != ""
    requires cut <= |Text(lines)|
    ensures ReadLines(Text(lines)[..cut]) == Lines(read, false) && Begins(read, lines)
    decreases |lines|
  {
    if cut == 0 {
      read := [];
      assert Text(lines)[..cut] == "";
    } else {
      TextSplits(lines, "");
      assert lines[0] in lines;
      if cut <= |lines[0]| {
        read := ReadCutFirst(lines, cut);
      } else {
        var left := cut - |lines[0]| - 1;
        var tail := ReadCut(lines[1..], left);
        CutText(lines, cut);
        ReadOne(lines[0], Text(lines[1..])[..left], lines[0] + "\n" + Text(lines[1..])[..left]);
        read := [lines[0]] + tail;
        BeginsMore(lines[0], tail, lines);
      }
    }
  }

  lemma {:induction false} ReadCutFirst(lines: seq<string>, cut: nat) returns (read: seq<string>)
    requires lines != [] && Readable(lines[0]) && 0 < cut <= |lines[0]|
    ensures cut <= |Text(lines)|
    ensures ReadLines(Text(lines)[..cut]) == Lines(read, false) && Begins(read, lines)
  {
    var part := lines[0][..cut];
    assert Text(lines) == lines[0] + ("\n" + Text(lines[1..]));
    CutWithin(lines[0], "\n" + Text(lines[1..]), cut);
    ReadPart(part, lines[0]);
    read := [part];
  }

  lemma {:induction false} ReadPart(part: string, line: string)
    requires part != "" && part <= line && Readable(line)
    ensures ReadLines(part) == Lines([part], false)
  {
    PrefixIsReadable(part, line);
    LineLengthOf(part, "");
    assert part[..|part|] == part;
  }

  lemma {:induction false} CutText(lines: seq<string>, cut: nat)
    requires lines != [] && |lines[0]| < cut <= |Text(lines)|
    ensures Text(lines)[..cut] == lines[0] + "\n" + Text(lines[1..])[..cut - |lines[0]| - 1]
  {
  }

  lemma PartIsHarmless(part: string, line: string)
    requires part != "" && part <= line && Harmless(line)
    ensures Harmless(part) && (IsDataLine(part) ==> IsDataLine(line))
  {
    if IsDataLine(part) {
      assert part[5..] <= line[5..];
      assert HasPrefix(part[5..], " ") ==> HasPrefix(line[5..], " ");
    }
  }

  lemma {:induction false} BlockIsHarmless(m: Message)
    requires Printable(m)
    ensures forall l :: l in Block(m) ==> Readable(l) && l != ""
    ensures forall i :: 0 <= i < |Block(m)| - 1 ==> !IsDataLine(Block(m)[i])
    ensures forall l :: l in Block(m) ==> Harmless(l)
  {
    DataLine(m.data);
    StartsOtherwise("event: error", "data:");
    StartsOtherwise("event: revocation", "data:");
    if m.Revocation? {
      StartsOtherwise("id: " + m.id, "data:");
    }
  }

  /** Nothing is reported of a message until its last byte has arrived. */
  lemma CutReportsNothing(m: Message, cut: nat)
    requires Printable(m) && cut < |Print(m)|
    ensures ScanAll(Print(m)[..cut]) == Scanned([], false)
  {
    var block := Block(m);
    BlockIsHarmless(m);
    assert Print(m)[..cut] == Text(block)[..cut];
    var read := ReadCut(block, cut);
    forall i | 0 <= i < |read|
      ensures Harmless(read[i]) && (IsDataLine(read[i]) ==> IsDataLine(block[i]))
    {
      PartIsHarmless(read[i], block[i]);
    }
    NothingReported(read, "");
  }

  // ------------------------------------------------------------ round trip

  function Adds(event: Event, more: Scanned): Scanned {
    Scanned([event] + more.events, more.tooLong)
  }

  /** A piece is read as its event, whatever follows it, and as nothing until all of it is there. */
  ghost predicate PieceReads(scan: string -> Scanned, piece: string, event: Event) {
    && (forall rest :: scan(piece + rest) == Adds(event, scan(rest)))
    && (forall cut: nat :: cut < |piece| ==> scan(piece[..cut]) == Scanned([], false))
  }

  /** Then any first bytes of the pieces are read as those that are whole. */
  lemma {:induction false} PiecesRead(
      pieces: seq<string>, events: seq<Event>, bytes: nat, scan: string -> Scanned)
    requires |pieces| == |events| && bytes <= |Concat(pieces)| && scan("") == Scanned([], false)
    requires forall i :: 0 <= i < |pieces| ==> PieceReads(scan, pieces[i], events[i])
    ensures scan(Concat(pieces)[..bytes]) == Scanned(events[..WholePieces(pieces, bytes)], false)
    decreases |pieces|
  {
    if pieces == [] {
      assert Concat(pieces)[..bytes] == "";
    } else {
      var piece, rest := pieces[0], Concat(pieces[1..]);
      assert PieceReads(scan, piece, events[0]);
      if bytes < |piece| {
        CutWithin(piece, rest, bytes);
        assert events[..0] == [];
      } else {
        var left := bytes - |piece|;
        var k := WholePieces(pieces[1..], left);
        CutPast(piece, rest, bytes);
        PiecesRead(pieces[1..], events[1..], left, scan);
        assert events[..k + 1] == [events[0]] + events[1..][..k];
      }
    }
  }

  lemma {:induction false} PrintedReads(m: Message)
    requires Printable(m)
    ensures PieceReads(ScanAll, Print(m), EventOf(m))
  {
    forall rest
      ensures ScanAll(Print(m) + rest) == Adds(EventOf(m), ScanAll(rest))
    {
      WholeMessageScans(m, rest, Print(m) + rest);
    }
    forall cut: nat | cut < |Print(m)|
      ensures ScanAll(Print(m)[..cut]) == Scanned([], false)
    {
      CutReportsNothing(m, cut);
    }
  }

  /**
   * Scanning the first `bytes` bytes of what was printed gives back exactly the
   * messages that lie entirely within them, in order: never part of one, and
   * never an error.
   */
  lemma {:induction false} ScanPrinted(ms: seq<Message>, bytes: nat)
    requires AllPrintable(ms) && bytes <= |PrintAll(ms)|
    ensures ScanAll(PrintAll(ms)[..bytes]) == Scanned(EventsOf(ms[..Whole(ms, bytes)]), false)
  {
    forall i | 0 <= i < |ms|
      ensures PieceReads(ScanAll, Printed(ms)[i], EventsOf(ms)[i])
    {
      assert ms[i] in ms;
      PrintedReads(ms[i]);
    }
    NothingScans();
    PiecesRead(Printed(ms), EventsOf(ms), bytes, ScanAll);
    assert EventsOf(ms)[..Whole(ms, bytes)] == EventsOf(ms[..Whole(ms, bytes)]);
  }

  lemma NothingScans()
    ensures ScanAll("") == Scanned([], false)
  {
  }

  /** All of it: every message, in order. */
  lemma {:induction false} RoundTrip(ms: seq<Message>)
    requires AllPrintable(ms)
    ensures ScanAll(PrintAll(ms)) == Scanned(EventsOf(ms), false)
  {
    AllWhole(ms);
    ScanPrinted(ms, |PrintAll(ms)|);
    assert PrintAll(ms)[..|PrintAll(ms)|] == PrintAll(ms);
    assert ms[..|ms|] == ms;
  }

  lemma {:induction false} AllPiecesWhole(pieces: seq<string>)
    ensures WholePieces(pieces, |Concat(pieces)|) == |pieces|
    decreases |pieces|
  {
    if pieces == [] {
    } else {
      AllPiecesWhole(pieces[1..]);
    }
  }

  lemma {:induction false} AllWhole(ms: seq<Message>)
    ensures Whole(ms, |PrintAll(ms)|) == |ms|
  {
    AllPiecesWhole(Printed(ms));
  }

  lemma {:induction false} ConcatAppend(pieces: seq<string>, more: seq<string>)
    ensures Concat(pieces + more) == Concat(pieces) + Concat(more)
    decreases |pieces|
  {
    if pieces == [] {
      assert pieces + more == more;
    } else {
      ConcatAppend(pieces[1..], more);
      assert (pieces + more)[1..] == pieces[1..] + more;
      Assoc(pieces[0], Concat(pieces[1..]), Concat(more));
    }
  }

  /** Printing more leaves what was already received as it was read. */
  lemma {:induction false} PrintAppend(ms: seq<Message>, more: seq<Message>)
    ensures PrintAll(ms + more) == PrintAll(ms) + PrintAll(more)
  {
    ConcatAppend(Printed(ms), Printed(more));
    PrintedAppend(ms, more);
  }

  lemma {:induction false} PrintedAppend(ms: seq<Message>, more: seq<Message>)
    ensures Printed(ms + more) == Printed(ms) + Printed(more)
  {
  }
}
