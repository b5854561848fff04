// The size limit of the scanner, and what the scanner makes of a whole event.

module SseLimit {
  import opened Sse

  /** The data lines among `block`, with their field name removed. */
  function DataOf(block: seq<string>): seq<string> {
    if block == [] then []
    else
      (if IsDataLine(block[0]) then [DataValue(block[0])] else [])
      + DataOf(block[1..])
  }

  /** The type `block` leaves an event with, when it was `name` before. */
  function NameOf(block: seq<string>, name: string): string {
    if block == [] then name
    else NameOf(block[1..], if IsEventLine(block[0]) then EventValue(block[0]) else name)
  }

  predicate NoBlank(block: seq<string>) {
    "" !in block
  }

  lemma {:induction false} JoinGrows(data: seq<string>, more: seq<string>)
    ensures |Join(data)| <= |Join(data + more)|
  {
    if more == [] {
      assert data + more == data;
    } else {
      var last := |more| - 1;
      JoinGrows(data, more[..last]);
      assert (data + more)[..|data + more| - 1] == data + more[..last];
    }
  }

  /**
   * From any point inside an event, the non-blank lines up to the blank one
   * that ends it decide the outcome through their type and their joined data alone.
   */
  lemma {:induction false} BlockOutcome(block: seq<string>, rest: seq<string>, name: string, data: seq<string>)
    requires NoBlank(block) && |Join(data)| <= MAX_EVENT_BYTES
    ensures
      var all := data + DataOf(block);
      var out := Next(block + [""] + rest, name, data);
      if |Join(all)| > MAX_EVENT_BYTES then out.TooLong?
      else if all != [] then out == Found(Event(NameOf(block, name), Join(all)), rest)
      else out == Next(rest, "", [])
    decreases |block|
  {
    var lines := block + [""] + rest;
    if block == [] {
      assert lines[0] == "" && lines[1..] == rest;
      assert data + DataOf(block) == data;
    } else {
      assert lines[0] == block[0] && lines[1..] == block[1..] + [""] + rest;
      var name' := if IsEventLine(block[0]) then EventValue(block[0]) else name;
      if IsDataLine(block[0]) {
        var data' := data + [DataValue(block[0])];
        assert data + DataOf(block) == data' + DataOf(block[1..]);
        JoinGrows(data', DataOf(block[1..]));
        if |Join(data')| <= MAX_EVENT_BYTES {
          BlockOutcome(block[1..], rest, name', data');
        }
      } else {
        assert data + DataOf(block) == data + DataOf(block[1..]);
        BlockOutcome(block[1..], rest, name', data);
      }
    }
  }

  /**
   * The limit is exact: an event that carries data is reported if and only if
   * its joined data is within MAX_EVENT_BYTES, whole and under its own type;
   * otherwise scanning ends there with the too-long error.
   */
  lemma LimitIsExact(block: seq<string>, rest: seq<string>)
    requires NoBlank(block) && DataOf(block) != []
    ensures
      var data := Join(DataOf(block));
      var scanned := ScanLines(block + [""] + rest);
      if |data| <= MAX_EVENT_BYTES
      then scanned == Scanned([Event(NameOf(block, ""), data)] + ScanLines(rest).events, ScanLines(rest).tooLong)
      else scanned == Scanned([], true)
  {
    BlockOutcome(block, rest, "", []);
    assert [] + DataOf(block) == DataOf(block);
  }

  /** Two layouts of the same type and data are read alike, whatever follows. */
  lemma LayoutDoesNotMatter(one: seq<string>, other: seq<string>, rest: seq<string>)
    requires NoBlank(one) && NoBlank(other) && DataOf(one) != [] && DataOf(other) != []
    requires NameOf(one, "") == NameOf(other, "") && Join(DataOf(one)) == Join(DataOf(other))
    ensures ScanLines(one + [""] + rest) == ScanLines(other + [""] + rest)
  {
    LimitIsExact(one, rest);
    LimitIsExact(other, rest);
  }

  /** Once an event was too long, or a line was, later scans report nothing. */
  method ScanAfterFailure(scanner: Scanner) returns (ok: bool)
    requires scanner.Failed() && scanner.event == "" && scanner.data == ""
    modifies scanner
    ensures !ok && scanner.Failed() && scanner.event == "" && scanner.data == ""
  {
    ok := scanner.Scan();
  }
}
