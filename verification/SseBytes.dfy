// The scanner's two size bounds together, from the bytes of an event up.

module SseBytes {
  import opened Sse
  import opened SseLimit
  import opened SsePrinter

  /** The lines of an event: unbroken, not blank, and within the line bound unless they carry data. */
  ghost predicate IsEventText(block: seq<string>) {
    forall l :: l in block ==> OneLine(l) && l != "" && (!IsDataLine(l) ==> |l| < MAX_LINE_BYTES)
  }

  lemma {:induction false} JoinCovers(data: seq<string>, i: nat)
    requires i < |data|
    ensures |data[i]| <= |Join(data)|
    decreases |data|
  {
    if i == |data| - 1 {
    } else {
      JoinCovers(data[..|data| - 1], i);
    }
  }

  lemma {:induction false} DataIn(block: seq<string>, k: nat)
    requires k < |block| && IsDataLine(block[k])
    ensures DataValue(block[k]) in DataOf(block)
    decreases |block|
  {
    if k == 0 {
    } else {
      DataIn(block[1..], k - 1);
      assert block[1..][k - 1] == block[k];
    }
  }

  /** A data line too long for the line bound is also too long for the event bound. */
  lemma OverlongIsOverEvent(block: seq<string>, k: nat)
    requires k < |block| && IsDataLine(block[k]) && |block[k]| >= MAX_LINE_BYTES
    ensures |Join(DataOf(block))| > MAX_EVENT_BYTES
  {
    DataIn(block, k);
    var data := DataOf(block);
    var i :| 0 <= i < |data| && data[i] == DataValue(block[k]);
    JoinCovers(data, i);
  }

  lemma ReadOverlong(line: string, rest: string, s: string)
    requires OneLine(line) && |line| >= MAX_LINE_BYTES && s == line + "\n" + rest
    ensures ReadLines(s) == Lines([], true)
  {
    LineLengthOf(line, rest);
  }

  /** Lines with no blank one among them report no event. */
  lemma {:induction false} NoBlankNoEvent(lines: seq<string>, name: string, data: seq<string>)
    requires NoBlank(lines)
    ensures !Next(lines, name, data).Found?
    decreases |lines|
  {
    if lines == [] {
    } else {
      var line := lines[0];
      assert line in lines;
      var name' := if IsEventLine(line) then EventValue(line) else name;
      NoBlankNoEvent(lines[1..], name', if IsDataLine(line) then data + [DataValue(line)] else data);
    }
  }

  lemma {:induction false} FirstOverlong(block: seq<string>) returns (k: nat)
    ensures k <= |block| && forall i :: 0 <= i < k ==> |block[i]| < MAX_LINE_BYTES
    ensures k < |block| ==> |block[k]| >= MAX_LINE_BYTES
    decreases |block|
  {
    if block == [] || |block[0]| >= MAX_LINE_BYTES {
      k := 0;
    } else {
      var j := FirstOverlong(block[1..]);
      k := j + 1;
      assert forall i :: 0 < i < |block| ==> block[i] == block[1..][i - 1];
    }
  }

  lemma {:induction false} TextAppend(a: seq<string>, b: seq<string>)
    ensures Text(a + b) == Text(a) + Text(b)
    decreases |a|
  {
    if a == [] {
      assert a + b == b;
    } else {
      TextAppend(a[1..], b);
      assert (a + b)[1..] == a[1..] + b;
      Assoc(a[0] + "\n", Text(a[1..]), Text(b));
    }
  }

  /** What comes after the lines before `k`, from line `k` on. */
  function From(block: seq<string>, k: nat, rest: string): string
    requires k < |block|
  {
    block[k] + "\n" + (Text(block[k + 1..]) + ("\n" + rest))
  }

  lemma {:induction false} TextFrom(block: seq<string>, k: nat, rest: string)
    requires k < |block|
    ensures Text(block) + "\n" + rest == Text(block[..k]) + From(block, k, rest)
  {
    var before, line, after := block[..k], block[k], block[k + 1..];
    assert block == before + ([line] + after);
    TextAppend(before, [line] + after);
    TextOne(line, after);
    Assoc(Text(block), "\n", rest);
    Assoc(Text(before), line + "\n" + Text(after), "\n" + rest);
    Assoc(line + "\n", Text(after), "\n" + rest);
  }

  lemma {:induction false} TextOne(line: string, after: seq<string>)
    ensures Text([line] + after) == line + "\n" + Text(after)
  {
    assert ([line] + after)[1..] == after;
  }

  lemma {:induction false} BeforeIsReadable(block: seq<string>, k: nat)
    requires IsEventText(block) && k <= |block| && forall i :: 0 <= i < k ==> |block[i]| < MAX_LINE_BYTES
    ensures forall l :: l in block[..k] ==> Readable(l)
    ensures NoBlank(block[..k])
  {
    forall l | l in block[..k]
      ensures Readable(l) && l != ""
    {
      var i :| 0 <= i < k && block[..k][i] == l;
      assert block[i] in block;
    }
  }

  /** An event one of whose lines is past the line bound stops the scanner. */
  lemma {:induction false} OverlongStops(block: seq<string>, k: nat, rest: string, s: string)
    requires IsEventText(block) && k < |block| && |block[k]| >= MAX_LINE_BYTES
    requires forall i :: 0 <= i < k ==> |block[i]| < MAX_LINE_BYTES
    requires s == Text(block) + "\n" + rest
    ensures ScanAll(s) == Scanned([], true)
  {
    var before, tail := block[..k], From(block, k, rest);
    assert block[k] in block;
    TextFrom(block, k, rest);
    BeforeIsReadable(block, k);
    ReadOverlong(block[k], Text(block[k + 1..]) + ("\n" + rest), tail);
    ReadText(before, tail, s);
    NoBlankNoEvent(before, "", []);
    assert before + [] == before;
  }

  lemma {:induction false} EndsInBlank(rest: string)
    ensures ReadLines("\n" + rest) == Lines([""] + ReadLines(rest).lines, ReadLines(rest).overlong)
  {
    assert "" + "\n" + rest == "\n" + rest;
    ReadOne("", rest, "\n" + rest);
  }

  /** An event within the line bound is read line by line. */
  lemma {:induction false} ShortIsRead(block: seq<string>, rest: string, s: string)
    requires IsEventText(block) && forall i :: 0 <= i < |block| ==> |block[i]| < MAX_LINE_BYTES
    requires s == Text(block) + "\n" + rest
    ensures ReadLines(s) == Lines(block + [""] + ReadLines(rest).lines, ReadLines(rest).overlong)
  {
    Assoc(Text(block), "\n", rest);
    BeforeIsReadable(block, |block|);
    assert block[..|block|] == block;
    ReadText(block, "\n" + rest, s);
    EndsInBlank(rest);
    LinesAssoc(block, [""], ReadLines(rest).lines);
  }

  lemma {:induction false} LinesAssoc(a: seq<string>, b: seq<string>, c: seq<string>)
    ensures a + (b + c) == a + b + c
  {
  }

  /**
   * One limit, however an event is laid out: followed by a blank line and by
   * anything, an event with data is reported if and only if its joined data is
   * at most MAX_EVENT_BYTES, even where single lines run into the line bound;
   * otherwise scanning ends with the too-long error and no event.
   */
  lemma LimitIsExactInBytes(block: seq<string>, rest: string, s: string)
    requires IsEventText(block) && DataOf(block) != []
    requires s == Text(block) + "\n" + rest
    ensures
      var data := Join(DataOf(block));
      if |data| <= MAX_EVENT_BYTES
      then ScanAll(s) == Scanned([Event(NameOf(block, ""), data)] + ScanAll(rest).events, ScanAll(rest).tooLong)
      else ScanAll(s) == Scanned([], true)
  {
    var k := FirstOverlong(block);
    if k < |block| {
      assert block[k] in block;
      OverlongIsOverEvent(block, k);
      OverlongStops(block, k, rest, s);
    } else {
      ShortIsRead(block, rest, s);
      LimitIsExact(block, ReadLines(rest).lines);
    }
  }
}
