// A reference interpreter of event streams, written from section 9.2.6
// ("Interpreting an event stream") of the WHATWG HTML standard, and the streams
// on which the scanner agrees with it.

module SseReference {
  import opened Sse

  // ------------------------------------------------------------ reference

  /**
   * The lines of a stream, each ended by CRLF, LF or CR, or by the end of the
   * stream when there is something of it; `line` is what has been read of the
   * current one.
   */
  function Split(input: string, line: string): seq<string>
    decreases |input|
  {
    if input == "" then (if line == "" then [] else [line])
    else if input[0] == '\r' && |input| > 1 && input[1] == '\n' then [line] + Split(input[2..], "")
    else if input[0] == '\n' || input[0] == '\r' then [line] + Split(input[1..], "")
    else Split(input[1..], line + [input[0]])
  }

  /** Where the first colon of a line is, or its length when it has none. */
  function Colon(line: string): (n: nat)
    ensures n <= |line|
    ensures forall k :: 0 <= k < n ==> line[k] != ':'
    ensures n < |line| ==> line[n] == ':'
  {
    if line == "" || line[0] == ':' then 0 else 1 + Colon(line[1..])
  }

  function Field(line: string): string {
    line[..Colon(line)]
  }

  function Value(line: string): string {
    if Colon(line) == |line| then ""
    else
      var value := line[Colon(line) + 1..];
      if value != "" && value[0] == ' ' then value[1..] else value
  }

  /** Every event dispatched for `lines`, from the given data and event type buffers. */
  function Interpret(lines: seq<string>, dataBuffer: string, typeBuffer: string): seq<Event>
    decreases |lines|
  {
    if lines == [] then []
    else if lines[0] == "" then
      (if dataBuffer == "" then []
       else [Event(typeBuffer,
                   if dataBuffer[|dataBuffer| - 1] == '\n' then dataBuffer[..|dataBuffer| - 1] else dataBuffer)])
      + Interpret(lines[1..], "", "")
    else if Field(lines[0]) == "event" then Interpret(lines[1..], dataBuffer, Value(lines[0]))
    else if Field(lines[0]) == "data" then Interpret(lines[1..], dataBuffer + Value(lines[0]) + "\n", typeBuffer)
    else Interpret(lines[1..], dataBuffer, typeBuffer)
  }

  /** The last event ID that `lines` leave: the last one given without a NULL in it. */
  function LastId(lines: seq<string>, id: string): string {
    if lines == [] then id
    else LastId(lines[1..], if Field(lines[0]) == "id" && '\0' !in Value(lines[0]) then Value(lines[0]) else id)
  }

  function Reference(input: string): seq<Event> {
    Interpret(Split(input, ""), "", "")
  }

  // -------------------------------------------------------------- one line

  /** Space, tab, line feed, vertical tab, form feed or carriage return. */
  predicate White(c: char) {
    c == ' ' || '\t' <= c <= '\r'
  }

  predicate AllWhite(s: string) {
    forall i :: 0 <= i < |s| ==> White(s[i])
  }

  lemma {:induction false} WhiteIsSpace(c: char)
    ensures White(c) <==> IsSpace(c)
  {
  }

  lemma {:induction false} WhiteMore(a: string, b: string)
    requires AllWhite(a) && AllWhite(b)
    ensures AllWhite(a + b)
  {
  }

  lemma {:induction false} TrimsLeft(s: string) returns (left: string)
    ensures s == left + TrimLeft(s) && AllWhite(left) && (TrimLeft(s) != "" ==> !White(TrimLeft(s)[0]))
    decreases |s|
  {
    left := "";
    if s == "" {
    } else {
      WhiteIsSpace(s[0]);
      if IsSpace(s[0]) {
        var more := TrimsLeft(s[1..]);
        left := [s[0]] + more;
        WhiteMore([s[0]], more);
      }
    }
  }

  lemma {:induction false} TrimsRight(s: string) returns (right: string)
    ensures s == TrimRight(s) + right && AllWhite(right)
    ensures TrimRight(s) != "" ==> !White(TrimRight(s)[|TrimRight(s)| - 1]) && TrimRight(s)[0] == s[0]
    decreases |s|
  {
    right := "";
    if s == "" {
    } else {
      var n := |s| - 1;
      WhiteIsSpace(s[n]);
      if IsSpace(s[n]) {
        var more := TrimsRight(s[..n]);
        right := more + [s[n]];
        WhiteMore(more, [s[n]]);
      }
    }
  }

  /** Trimming takes white space from both ends, and all of it. */
  lemma {:induction false} TrimsSpace(s: string) returns (left: string, right: string)
    ensures s == left + (TrimSpace(s) + right) && AllWhite(left) && AllWhite(right)
    ensures
      var trimmed := TrimSpace(s);
      trimmed != "" ==> !White(trimmed[0]) && !White(trimmed[|trimmed| - 1])
  {
    left := TrimsLeft(s);
    right := TrimsRight(TrimLeft(s));
  }

  /** The lines the scanner gives the meaning the standard does. */
  predicate Plain(line: string) {
    && line != "data" && line != "event"
    && (IsEventLine(line) ==> EventValue(line) == TrimOneSpace(line[6..]))
  }

  lemma ColonOf(line: string, name: string)
    requires ':' !in name && HasPrefix(line, name + ":")
    ensures Colon(line) == |name| && Field(line) == name
  {
    assert line[|name|] == (name + ":")[|name|] == ':';
    assert forall k :: 0 <= k < |name| ==> line[k] == (name + ":")[k] == name[k];
    assert line[..|name|] == name;
  }

  lemma FieldPrefix(line: string, n: nat, name: string)
    requires n < |line| && line[n] == ':' && name == line[..n]
    ensures HasPrefix(line, name + ":")
  {
    assert name + ":" == line[..n + 1];
  }

  /** On exactly the plain lines, the scanner and the standard read the same type and the same data. */
  lemma {:induction false} PlainIffSameReading(line: string)
    ensures
      Plain(line) <==>
        && (IsEventLine(line) <==> Field(line) == "event")
        && (IsDataLine(line) <==> Field(line) == "data")
        && (IsEventLine(line) ==> EventValue(line) == Value(line))
        && (IsDataLine(line) ==> DataValue(line) == Value(line))
  {
    assert "event" + ":" == "event:" && "data" + ":" == "data:";
    assert ':' !in "event" && ':' !in "data";
    if IsEventLine(line) {
      ColonOf(line, "event");
      assert Value(line) == TrimOneSpace(line[6..]);
    }
    if IsDataLine(line) {
      ColonOf(line, "data");
      assert Value(line) == DataValue(line);
    }
    if Colon(line) < |line| {
      FieldPrefix(line, Colon(line), Field(line));
    } else {
      assert Field(line) == line;
    }
  }

  // ------------------------------------------------------------- all lines

  /** The data buffer the standard keeps for the data lines read so far. */
  function Buffer(data: seq<string>): string {
    if data == [] then "" else Join(data) + "\n"
  }

  lemma BufferGrows(data: seq<string>, value: string)
    ensures Buffer(data + [value]) == Buffer(data) + value + "\n"
  {
    var more := data + [value];
    assert more[..|more| - 1] == data;
    if data == [] {
      assert "" + value == value;
    }
  }

  /** One call to the scanner, from the middle of any event, against the standard. */
  lemma {:induction false} NextAgrees(lines: seq<string>, name: string, data: seq<string>)
    requires forall l :: l in lines ==> Plain(l)
    ensures
      var all := Interpret(lines, Buffer(data), name);
      match Next(lines, name, data)
      case Found(event, rest) =>
        all == [event] + Interpret(rest, "", "") && (forall l :: l in rest ==> Plain(l))
      case Exhausted => all == []
      case TooLong(_) => true
    decreases |lines|
  {
    if lines == [] {
    } else {
      var line, rest := lines[0], lines[1..];
      assert line in lines;
      if line == "" {
        if data == [] {
          NextAgrees(rest, "", []);
        } else {
          assert Buffer(data)[..|Buffer(data)| - 1] == Join(data);
        }
      } else {
        PlainIffSameReading(line);
        if IsDataLine(line) {
          assert !IsEventLine(line);
          BufferGrows(data, DataValue(line));
          if |Join(data + [DataValue(line)])| <= MAX_EVENT_BYTES {
            NextAgrees(rest, name, data + [DataValue(line)]);
          }
        } else {
          NextAgrees(rest, if IsEventLine(line) then EventValue(line) else name, data);
        }
      }
    }
  }

  /**
   * On plain lines the scanner reports the events the standard dispatches: all
   * of them, or those before the first that is too long.
   */
  lemma {:induction false} ScanAgrees(lines: seq<string>)
    requires forall l :: l in lines ==> Plain(l)
    ensures ScanLines(lines).events <= Interpret(lines, "", "")
    ensures !ScanLines(lines).tooLong ==> ScanLines(lines).events == Interpret(lines, "", "")
    decreases |lines|
  {
    NextAgrees(lines, "", []);
    var out := Next(lines, "", []);
    if !out.Found? {
    } else {
      ScanAgrees(out.rest);
    }
  }

  // ------------------------------------------------------------- all bytes

  /** Every carriage return is part of a line's end, as CRLF or at the end of the stream. */
  ghost predicate NoLoneReturn(input: string) {
    forall i :: 0 <= i < |input| - 1 && input[i] == '\r' ==> input[i + 1] == '\n'
  }

  /** What the scanner reads as a line: up to the first line feed, the carriage return before that included. */
  function First(input: string): string {
    input[..LineLength(input)]
  }

  function Rest(input: string): string {
    var n := LineLength(input);
    if n < |input| then input[n + 1..] else ""
  }

  /** Every line of the input is within the scanner's bound, its carriage return included. */
  predicate ShortLines(input: string)
    decreases |input|
  {
    input == "" || (LineLength(input) < MAX_LINE_BYTES && ShortLines(Rest(input)))
  }

  lemma {:induction false} RestHasNoLone(input: string)
    requires NoLoneReturn(input)
    ensures NoLoneReturn(Rest(input))
  {
    var n := LineLength(input);
    if n < |input| {
      forall i | 0 <= i < |Rest(input)| - 1 && Rest(input)[i] == '\r'
        ensures Rest(input)[i + 1] == '\n'
      {
        assert input[n + 1 + i] == '\r';
      }
    }
  }

  /** The next character of a line that does not end yet. */
  lemma {:induction false} StepsOn(input: string, line: string)
    requires input != "" && input[0] != '\n' && input[0] != '\r'
    ensures Split(input, line) == Split(input[1..], line + [input[0]])
    ensures LineLength(input) == LineLength(input[1..]) + 1 && Rest(input) == Rest(input[1..])
    ensures First(input) == [input[0]] + First(input[1..])
    ensures NoLoneReturn(input) ==> NoLoneReturn(input[1..])
  {
    var tail := input[1..];
    assert forall i :: 0 <= i < |tail| ==> tail[i] == input[i + 1];
    assert First(input) == [input[0]] + First(tail);
    if LineLength(tail) < |tail| {
      assert tail[LineLength(tail) + 1..] == input[LineLength(input) + 1..];
    }
  }

  /** A line ends where the standard ends it. */
  lemma {:induction false} EndsLine(input: string, line: string)
    requires input != "" && (input[0] == '\n' || input[0] == '\r') && NoLoneReturn(input)
    ensures Split(input, line) == [line] + Split(Rest(input), "") && DropCR(First(input)) == ""
  {
    if input[0] == '\n' {
      assert First(input) == "" && Rest(input) == input[1..];
    } else if |input| > 1 {
      assert input[1] == '\n' && input[1..][0] == '\n' && LineLength(input[1..]) == 0;
      assert First(input) == "\r" && Rest(input) == input[2..];
    } else {
      assert First(input) == "\r" && Rest(input) == "" && input[1..] == "";
    }
  }

  /** A line without a carriage return before its end is dropped one after, and not another. */
  lemma {:induction false} DropsAfter(c: char, line: string)
    requires c != '\r'
    ensures DropCR([c] + line) == [c] + DropCR(line)
  {
    if line != "" && line[|line| - 1] == '\r' {
      assert ([c] + line)[..|line|] == [c] + line[..|line| - 1];
    }
  }

  lemma {:induction false} FirstOn(input: string, line: string)
    requires input != "" && input[0] != '\n' && input[0] != '\r'
    ensures line + [input[0]] + DropCR(First(input[1..])) == line + DropCR(First(input))
  {
    StepsOn(input, line);
    DropsAfter(input[0], First(input[1..]));
    Associates(line, [input[0]], DropCR(First(input[1..])));
  }

  lemma Associates(a: string, b: string, c: string)
    ensures a + b + c == a + (b + c)
  {
  }

  lemma {:induction false} SplitFirst(input: string, line: string)
    requires NoLoneReturn(input) && line + input != ""
    ensures Split(input, line) == [line + DropCR(First(input))] + Split(Rest(input), "")
    decreases |input|
  {
    if input == "" {
      assert First(input) == "" && Rest(input) == "" && line + "" == line;
    } else if input[0] == '\n' || input[0] == '\r' {
      EndsLine(input, line);
      assert line + "" == line;
    } else {
      StepsOn(input, line);
      SplitFirst(input[1..], line + [input[0]]);
      FirstOn(input, line);
    }
  }

  lemma {:induction false} ReadsFirst(input: string)
    requires input != "" && |First(input)| < MAX_LINE_BYTES
    ensures
      var rest := ReadLines(Rest(input));
      ReadLines(input) == Lines([DropCR(First(input))] + rest.lines, rest.overlong)
  {
  }

  lemma {:induction false} ReadLinesSplits(input: string)
    requires NoLoneReturn(input) && ShortLines(input)
    ensures ReadLines(input) == Lines(Split(input, ""), false)
    decreases |input|
  {
    if input == "" {
    } else {
      RestHasNoLone(input);
      ReadLinesSplits(Rest(input));
      ReadsFirst(input);
      SplitFirst(input, "");
      assert "" + DropCR(First(input)) == DropCR(First(input)) && "" + input == input;
    }
  }

  /**
   * The scanner agrees with the standard on every stream, with CRLF or LF line
   * ends, whose lines are plain and short: when no event is too long it reports
   * exactly the events the standard dispatches, and otherwise exactly those
   * before the first that is.
   */
  lemma AgreesWithStandard(input: string)
    requires NoLoneReturn(input) && ShortLines(input)
    requires forall l :: l in Split(input, "") ==> Plain(l)
    ensures ScanAll(input).events <= Reference(input)
    ensures !ScanAll(input).tooLong ==> ScanAll(input).events == Reference(input)
  {
    ReadLinesSplits(input);
    ScanAgrees(Split(input, ""));
  }
}
