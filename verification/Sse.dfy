// The event stream scanner of internal/sse/scanner.go.

module Sse {

  const MAX_EVENT_BYTES: nat := 4 * 1024 * 1024
  const MAX_LINE_BYTES: nat := MAX_EVENT_BYTES + 1024

  // ---------------------------------------------------------------- lines

  /** The length of the first line of `s`, its terminator not counted. */
  function LineLength(s: string): (n: nat)
    ensures n <= |s|
    ensures forall k :: 0 <= k < n ==> s[k] != '\n'
    ensures n < |s| ==> s[n] == '\n'
  {
    if s == "" || s[0] == '\n' then 0 else 1 + LineLength(s[1..])
  }

  function DropCR(line: string): string {
    if line != "" && line[|line| - 1] == '\r' then line[..|line| - 1] else line
  }

  /** What a line reader gives for an input: its lines, and whether it stopped at one that is too long. */
  datatype Lines = Lines(lines: seq<string>, overlong: bool)

  function ReadLines(s: string): Lines
    decreases |s|
  {
    var n := LineLength(s);
    if s == "" then Lines([], false)
    else if n >= MAX_LINE_BYTES then Lines([], true)
    else
      var rest := ReadLines(if n < |s| then s[n + 1..] else "");
      Lines([DropCR(s[..n])] + rest.lines, rest.overlong)
  }

  // --------------------------------------------------------------- fields

  predicate HasPrefix(line: string, prefix: string) {
    prefix <= line
  }

  predicate IsSpace(c: char) {
    c in {' ', '\t', '\n', '\r', '\U{000B}', '\U{000C}'}
  }

  function TrimLeft(s: string): string {
    if s != "" && IsSpace(s[0]) then TrimLeft(s[1..]) else s
  }

  function TrimRight(s: string): string {
    if s != "" && IsSpace(s[|s| - 1]) then TrimRight(s[..|s| - 1]) else s
  }

  /** Removes all surrounding white space, as is done for an event's type. */
  function TrimSpace(s: string): string {
    TrimRight(TrimLeft(s))
  }

  /** Removes one leading space, as is done for a data line. */
  function TrimOneSpace(s: string): string {
    if HasPrefix(s, " ") then s[1..] else s
  }

  predicate IsEventLine(line: string) {
    HasPrefix(line, "event:")
  }

  function EventValue(line: string): string
    requires IsEventLine(line)
  {
    TrimSpace(line[6..])
  }

  predicate IsDataLine(line: string) {
    HasPrefix(line, "data:")
  }

  function DataValue(line: string): string
    requires IsDataLine(line)
  {
    TrimOneSpace(line[5..])
  }

  /** The data lines of an event, joined by newlines. */
  function Join(data: seq<string>): string {
    if |data| == 0 then ""
    else if |data| == 1 then data[0]
    else Join(data[..|data| - 1]) + "\n" + data[|data| - 1]
  }

  // --------------------------------------------------------------- events

  datatype Event = Event(name: string, data: string)

  /** What one call to Scan meets, with the lines it leaves unread. */
  datatype Outcome =
    | Found(event: Event, rest: seq<string>)
    | Exhausted
    | TooLong(rest: seq<string>)

  /**
   * The outcome of scanning `lines` in the middle of an event whose type so
   * far is `name` and whose data lines so far are `data`. The bound is on the
   * joined data.
   */
  function Next(lines: seq<string>, name: string, data: seq<string>): (out: Outcome)
    ensures !out.Exhausted? ==> |out.rest| < |lines|
    decreases |lines|
  {
    if lines == [] then Exhausted
    else
      var line, rest := lines[0], lines[1..];
      if line == "" then
        if data != [] then Found(Event(name, Join(data)), rest) else Next(rest, "", [])
      else
        var name' := if IsEventLine(line) then EventValue(line) else name;
        if IsDataLine(line) then
          var data' := data + [DataValue(line)];
          if |Join(data')| > MAX_EVENT_BYTES then TooLong(rest) else Next(rest, name', data')
        else
          Next(rest, name', data)
  }

  /** Every event the scanner reports, and whether it ends in the too-long error. */
  datatype Scanned = Scanned(events: seq<Event>, tooLong: bool)

  function ScanLines(lines: seq<string>): Scanned
    decreases |lines|
  {
    match Next(lines, "", [])
    case Found(event, rest) =>
      var more := ScanLines(rest);
      Scanned([event] + more.events, more.tooLong)
    case Exhausted => Scanned([], false)
    case TooLong(_) => Scanned([], true)
  }

  function ScanAll(input: string): Scanned {
    var read := ReadLines(input);
    var scanned := ScanLines(read.lines);
    Scanned(scanned.events, scanned.tooLong || read.overlong)
  }

  // -------------------------------------------------------------- scanner

  class Scanner {
    // The lines not yet read, and whether an overlong line follows them.
    var lines: seq<string>
    var overlong: bool
    var event: string
    var data: string
    var err: bool  // set once an event has exceeded MAX_EVENT_BYTES

    constructor (input: string)
      ensures lines == ReadLines(input).lines && overlong == ReadLines(input).overlong
      ensures event == "" && data == "" && !err && Remaining() == ScanAll(input)
    {
      var read := ReadLines(input);
      lines, overlong := read.lines, read.overlong;
      event, data, err := "", "", false;
    }

    /** What the scanner has yet to report. */
    ghost function Remaining(): Scanned
      reads this
    {
      if err then Scanned([], true)
      else
        var scanned := ScanLines(lines);
        Scanned(scanned.events, scanned.tooLong || overlong)
    }

    method Scan() returns (ok: bool)
      modifies this
      ensures overlong == old(overlong)
      ensures old(err) ==> !ok && err && lines == old(lines) && event == old(event) && data == old(data)
      ensures !old(err) ==>
        match Next(old(lines), "", [])
        case Found(e, rest) => ok && !err && Event(event, data) == e && lines == rest
        case Exhausted => !ok && !err && event == "" && data == "" && lines == []
        case TooLong(rest) => !ok && err && event == "" && data == "" && lines == rest
      ensures old(Remaining()) ==
        if ok then Scanned([Event(event, data)] + Remaining().events, Remaining().tooLong)
        else Scanned([], Failed())
      ensures |lines| <= |old(lines)| && (ok ==> |lines| < |old(lines)|)
    {
      if err {
        return false;
      }
      var name: string := "";
      var pieces: seq<string> := [];
      var size := 0;
      while lines != []
        invariant !err && overlong == old(overlong)
        invariant size == |Join(pieces)|
        invariant Next(lines, name, pieces) == Next(old(lines), "", [])
        decreases |lines|
      {
        var line := lines[0];
        lines := lines[1..];
        if line == "" {
          if |pieces| > 0 {
            event, data := name, Join(pieces);
            return true;
          }
          name := "";
          continue;
        }
        if IsEventLine(line) {
          name := EventValue(line);
        }
        if IsDataLine(line) {
          var value := DataValue(line);
          if |pieces| > 0 {
            size := size + 1;
          }
          size := size + |value|;
          assert (pieces + [value])[..|pieces|] == pieces;
          if size > MAX_EVENT_BYTES {
            err := true;
            break;
          }
          pieces := pieces + [value];
        }
      }
      event, data := "", "";
      return false;
    }

    /** Whether Err returns the too-long error: either bound reports the one error. */
    predicate Failed()
      reads this
    {
      err || (lines == [] && overlong)
    }
  }

  /** What is reported in all when this has been, and that is to come. */
  function After(events: seq<Event>, more: Scanned): Scanned {
    Scanned(events + more.events, more.tooLong)
  }

  lemma {:induction false} AfterNext(events: seq<Event>, event: Event, more: Scanned)
    ensures After(events, Scanned([event] + more.events, more.tooLong)) == After(events + [event], more)
  {
    assert events + ([event] + more.events) == events + [event] + more.events;
  }

  /** The whole scanning loop, as its callers run it. */
  method ScanEverything(input: string) returns (events: seq<Event>, tooLong: bool)
    ensures Scanned(events, tooLong) == ScanAll(input)
  {
    var scanner := new Scanner(input);
    ghost var all, left := scanner.Remaining(), scanner.Remaining();
    events := [];
    var more := scanner.Scan();
    assert After(events, left) == all;
    while more
      invariant fresh(scanner) && all == After(events, left)
      invariant left ==
        if more
        then Scanned([Event(scanner.event, scanner.data)] + scanner.Remaining().events, scanner.Remaining().tooLong)
        else Scanned([], scanner.Failed())
      decreases |scanner.lines|, more
    {
      left := scanner.Remaining();
      AfterNext(events, Event(scanner.event, scanner.data), left);
      events := events + [Event(scanner.event, scanner.data)];
      more := scanner.Scan();
    }
    assert After(events, left).events == events;
    tooLong := scanner.Failed();
  }
}
