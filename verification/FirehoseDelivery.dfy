// Delivery with the firehose's own codec: records travel as the generated
// DAG-JSON encoder's tokens, which a JSON library writes and reads as text.

module FirehoseDelivery {
  import opened Types
  import opened DagJson
  import opened DagJsonRoundTrip
  import opened Submissions
  import M = MemoryStore
  import S = MemoryStream
  import C = PostgresClient
  import D = MemoryDelivery
  import E = EndToEnd
  import P = PostgresStream
  import PD = PostgresDelivery
  import Sse
  import SsePrinter

  // --------------------------------------------------------------- library

  /** The library: the text it writes for a token and for an event's id, and the tokens it reads from a text. */
  datatype Library = Library(text: Token -> string, idText: Cid -> string, read: string -> Option<seq<Token>>)

  function Write(lib: Library, ts: seq<Token>): string {
    if ts == [] then "" else Write(lib, ts[..|ts| - 1]) + lib.text(ts[|ts| - 1])
  }

  predicate Punctuation(t: Token) {
    t.ObjectOpen? || t.ObjectClose? || t.ArrayOpen? || t.ArrayClose? || t.Colon? || t.Comma?
  }

  /** Of any token: text is on one line, punctuation is one byte, names are quoted. */
  ghost predicate IsLibrary(lib: Library) {
    && (forall t :: SsePrinter.OneLine(lib.text(t)))
    && (forall t :: Punctuation(t) ==> |lib.text(t)| == 1)
    && (forall s :: s in KNOWN ==> |lib.text(Text(s))| == |s| + 2)
  }

  /**
   * Of one record: its path is no longer than the encoder accepts, its CIDs take
   * at most 500 bytes each and its time 100, and what is written of it is read
   * back as the same tokens.
   */
  ghost predicate Handles(lib: Library, r: Record) {
    && |r.path| <= MAX_PATH
    && ShortText(lib, Link(r.cause)) && ShortText(lib, Link(r.revoke)) && ShortText(lib, Time(r.recordedAt))
    && (forall i :: 0 <= i < |r.path| ==> ShortText(lib, Link(r.path[i])))
    && SsePrinter.OneLine(lib.idText(r.cause)) && |lib.idText(r.cause)| <= 500
    && lib.read(EncodeText(lib, r)) == Some(Encode(ValueOf(r)))
  }

  predicate ShortText(lib: Library, t: Token) {
    |lib.text(t)| <= if t.Time? then 100 else 500
  }

  // ----------------------------------------------------------------- codec

  function LinkTokens(cs: seq<Cid>): (ts: seq<Token>)
    ensures |ts| == |cs| && forall i :: 0 <= i < |ts| ==> ts[i] == Link(cs[i])
  {
    seq(|cs|, i requires 0 <= i < |cs| => Link(cs[i]))
  }

  function ValueOf(r: Record): Value {
    Value(Link(r.cause), LinkTokens(r.path), r.recordedAt, Link(r.revoke))
  }

  predicate AllLinks(ts: seq<Token>) {
    forall i :: 0 <= i < |ts| ==> ts[i].Link?
  }

  /** The record of a value whose links are all there. */
  function RecordOf(v: Value): Option<Record> {
    if v.cause.Link? && v.revoke.Link? && AllLinks(v.path) then
      var path := seq(|v.path|, i requires 0 <= i < |v.path| => v.path[i].cid);
      Some(Record(v.revoke.cid, path, v.cause.cid, v.recordedAt))
    else None
  }

  function EncodeText(lib: Library, r: Record): string {
    Write(lib, Encode(ValueOf(r)))
  }

  function DecodeText(lib: Library, data: string): Option<Record> {
    match lib.read(data)
    case None => None
    case Some(ts) =>
      match Decode(Firehose, ts)
      case None => None
      case Some(v) => RecordOf(v)
  }

  function CodecOf(lib: Library): E.Codec {
    E.Codec(r => EncodeText(lib, r), data => DecodeText(lib, data), lib.idText)
  }

  // ------------------------------------------------------ what it carries

  lemma {:induction false} ReadsBack(lib: Library, r: Record)
    requires Handles(lib, r)
    ensures DecodeText(lib, EncodeText(lib, r)) == Some(r)
  {
    var v := ValueOf(r);
    assert Encodable(Firehose, v);
    RoundTrip(Firehose, v);
    var path := seq(|v.path|, i requires 0 <= i < |v.path| => v.path[i].cid);
    assert path == r.path;
  }

  lemma {:induction false} WrittenOnOneLine(lib: Library, ts: seq<Token>)
    requires IsLibrary(lib)
    ensures SsePrinter.OneLine(Write(lib, ts))
    decreases |ts|
  {
    if ts == [] {
    } else {
      WrittenOnOneLine(lib, ts[..|ts| - 1]);
      assert SsePrinter.OneLine(lib.text(ts[|ts| - 1]));
    }
  }

  lemma {:induction false} WrittenWidth(lib: Library, ts: seq<Token>, cidWidth: Cid -> nat, timeWidth: int -> nat)
    requires forall i :: 0 <= i < |ts| ==> |lib.text(ts[i])| == Width(ts[i], cidWidth, timeWidth)
    ensures |Write(lib, ts)| == TextWidth(ts, cidWidth, timeWidth)
    decreases |ts|
  {
    if ts == [] {
    } else {
      WrittenWidth(lib, ts[..|ts| - 1], cidWidth, timeWidth);
    }
  }

  /** The tokens of a record the library handles, encoded. */
  predicate FirehoseToken(lib: Library, t: Token) {
    Punctuation(t) || ((t.Link? || t.Time?) && ShortText(lib, t)) || (t.Text? && t.text in KNOWN)
  }

  lemma {:induction false} SeparatedTokens(lib: Library, ts: seq<Token>)
    requires forall i :: 0 <= i < |ts| ==> ts[i].Link? && ShortText(lib, ts[i])
    ensures forall t :: t in Separated(ts) ==> FirehoseToken(lib, t)
    decreases |ts|
  {
    if |ts| <= 1 {
    } else {
      SeparatedTokens(lib, ts[..|ts| - 1]);
    }
  }

  lemma {:induction false} EncodedTokens(lib: Library, r: Record)
    requires Handles(lib, r)
    ensures forall t :: t in Encode(ValueOf(r)) ==> FirehoseToken(lib, t)
  {
    var v := ValueOf(r);
    SeparatedTokens(lib, v.path);
    var head := [ObjectOpen, Text("cause"), Colon, v.cause, Comma, Text("path"), Colon, ArrayOpen];
    var tail := [ArrayClose, Comma, Text("recorded_at"), Colon, Time(v.recordedAt), Comma, Text("revoke"), Colon,
                 v.revoke, ObjectClose];
    assert Encode(v) == head + Separated(v.path) + tail;
    assert forall t :: t in head ==> FirehoseToken(lib, t);
    assert forall t :: t in tail ==> FirehoseToken(lib, t);
  }

  /** The length of a CID's text, where it is short enough to count on. */
  function CidWidth(lib: Library, c: Cid): nat {
    if ShortText(lib, Link(c)) then |lib.text(Link(c))| else 0
  }

  function TimeWidth(lib: Library, x: int): nat {
    if ShortText(lib, Time(x)) then |lib.text(Time(x))| else 0
  }

  lemma {:induction false} WrittenFits(lib: Library, r: Record)
    requires IsLibrary(lib) && Handles(lib, r)
    ensures |EncodeText(lib, r)| <= Sse.MAX_EVENT_BYTES
  {
    var v := ValueOf(r);
    var cidWidth, timeWidth := c => CidWidth(lib, c), x => TimeWidth(lib, x);
    EncodedTokens(lib, r);
    forall i | 0 <= i < |Encode(v)|
      ensures |lib.text(Encode(v)[i])| == Width(Encode(v)[i], cidWidth, timeWidth)
    {
      assert Encode(v)[i] in Encode(v);
    }
    WrittenWidth(lib, Encode(v), cidWidth, timeWidth);
    FirehoseFits(v, cidWidth, timeWidth);
  }

  /** The firehose's codec carries the records that the library handles. */
  lemma {:induction false} CodecCarries(lib: Library, history: seq<M.Entry>)
    requires IsLibrary(lib) && forall e :: e in history ==> Handles(lib, e.record)
    ensures E.Carries(CodecOf(lib), history)
  {
    forall e | e in history
      ensures SsePrinter.Printable(E.Message(CodecOf(lib), e)) && E.Decodes(CodecOf(lib), e.record)
    {
      ReadsBack(lib, e.record);
      WrittenOnOneLine(lib, Encode(ValueOf(e.record)));
      WrittenFits(lib, e.record);
    }
  }

  /** The library handles the record each submission would make. */
  ghost predicate HandlesAll(lib: Library, submitted: seq<Submission>)
    requires HavePaths(submitted)
  {
    forall i :: 0 <= i < |submitted| ==>
      Handles(lib, Record(Revoked(submitted[i].r), submitted[i].r.path, submitted[i].r.cause, submitted[i].at))
  }

  lemma {:induction false} StoredIsHandled(lib: Library, submitted: seq<Submission>)
    requires HavePaths(submitted) && HandlesAll(lib, submitted)
    ensures forall e :: e in HistoryEach(submitted) ==> Handles(lib, e.record)
  {
    var history := HistoryEach(submitted);
    forall e | e in history
      ensures Handles(lib, e.record)
    {
      var k :| 0 <= k < |history| && history[k] == e;
      var i := EntryFrom(submitted, k);
    }
  }

  /**
   * Delivery as the service makes it: when writers keep time order, bring back
   * no superseded cause and submit what the library handles, everything is
   * delivered as EndToEnd.Delivery says, by the generated codec and within the
   * scanner's bounds.
   */
  lemma {:induction false} FirehoseDelivers(lib: Library, from: int, trace: seq<E.State>, s: E.State)
    requires IsLibrary(lib) && E.IsRun(CodecOf(lib), from, trace) && s == trace[|trace| - 1]
    requires E.Orderly(s.mem.submitted) && HandlesAll(lib, s.mem.submitted)
    ensures E.NotCorrupt(CodecOf(lib), s) && E.Delivered(CodecOf(lib), from, s, E.Now(CodecOf(lib), s).yielded)
  {
    E.RunRecords(CodecOf(lib), from, trace, |trace| - 1);
    StoredIsHandled(lib, s.mem.submitted);
    CodecCarries(lib, s.mem.history);
    E.Delivery(CodecOf(lib), from, trace, s);
  }

  /** With this codec too, whether anything current can be missed depends on the times submitted alone. */
  lemma {:induction false} FirehoseNeverMissesIff(lib: Library, submitted: seq<Submission>)
    requires IsLibrary(lib) && D.Submittable(submitted) && HandlesAll(lib, submitted)
    ensures D.NeverMisses(CodecOf(lib), submitted) <==> D.CurrentInTurn(submitted)
  {
    StoredIsHandled(lib, submitted);
    CodecCarries(lib, HistoryEach(submitted));
    D.NeverMissesIff(CodecOf(lib), submitted);
  }

  lemma {:induction false} RowCarried(lib: Library, r: P.Row)
    requires IsLibrary(lib) && Handles(lib, C.RecordOf(r))
    ensures PD.CarriesRow(CodecOf(lib), r)
  {
    var e := M.Entry(C.RecordOf(r), 0);
    CodecCarries(lib, [e]);
    assert e in [e];
  }

  /** The library handles the rows the failing runs are about. */
  ghost predicate HandlesExamples(lib: Library) {
    Handles(lib, C.RecordOf(C.LATE)) && Handles(lib, C.RecordOf(C.EARLY)) && Handles(lib, C.RecordOf(P.LATE))
  }

  lemma {:induction false} ExamplesCarried(lib: Library)
    requires IsLibrary(lib) && HandlesExamples(lib)
    ensures PD.CarriesExamples(CodecOf(lib))
  {
    RowCarried(lib, C.LATE);
    RowCarried(lib, C.EARLY);
    RowCarried(lib, P.LATE);
  }

  /**
   * And over Postgres, read from bytes, a call keeps its two promises exactly
   * when rows are visible soon enough for the reconnections it makes.
   */
  lemma {:induction false} FirehoseOnceIff(lib: Library, lag: nat, most: nat)
    requires IsLibrary(lib) && HandlesExamples(lib)
    ensures PD.NeverTwice(CodecOf(lib), lag, most) <==> lag == 0 || most == 0
    ensures PD.NeverMisses(CodecOf(lib), lag, most) <==> lag == 0 || (most == 0 && lag <= P.SETTLE_WINDOW)
  {
    ExamplesCarried(lib);
    PD.OnceInBytesIff(CodecOf(lib), lag, most);
  }
}
