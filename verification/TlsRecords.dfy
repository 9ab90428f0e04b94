/**
 The application-data phase of the BoGo shim's client: `completeRecordLen`, `consumePrefix` and the
 read-decrypt-echo pump `echoClient`.  Record layout: section 5.1 of RFC 8446.
 */
module TlsRecords {
  import opened Bytes
  import opened Collections
  import opened Framing

  const HEADER_LEN := 5

  /** The longest buffer that can still be short of a complete record. */
  const MAX_PARTIAL := 65539

  /** `completeRecordLen`: header and body length of the record at the front, once all of it is there. */
  function CompleteRecordLen(buf: seq<byte>): (r: Option<nat>)
    ensures r.Some? ==> HEADER_LEN <= r.value <= |buf|
    ensures r.None? ==> |buf| <= MAX_PARTIAL
  {
    if |buf| < HEADER_LEN then None
    else
      Pow256Values();
      var wireLen := HEADER_LEN + FromBigEndian(buf[3..5]);
      if |buf| < wireLen then None else Some(wireLen)
  }

  lemma RecordFramer()
    ensures Framer(CompleteRecordLen)
  {
    forall b: seq<byte>, c: seq<byte> {:trigger CompleteRecordLen(b + c)} | CompleteRecordLen(b).Some?
      ensures CompleteRecordLen(b + c) == CompleteRecordLen(b)
    {
      assert (b + c)[3..5] == b[3..5];
    }
    forall b: seq<byte> {:trigger CompleteRecordLen(b)} | CompleteRecordLen(b).Some?
      ensures CompleteRecordLen(b[..CompleteRecordLen(b).value]) == CompleteRecordLen(b)
    {
      assert b[..CompleteRecordLen(b).value][3..5] == b[3..5];
    }
  }

  /** The records at the front of the stream, and the bytes of the one still incomplete. */
  function Records(stream: seq<byte>): (r: Peeled<byte>)
    ensures Flatten(r.units) + r.rest == stream
  {
    RecordFramer();
    Peel(CompleteRecordLen, stream)
  }

  lemma RecordsStep(stream: seq<byte>)
    ensures match CompleteRecordLen(stream)
            case None => Records(stream) == Peeled([], stream)
            case Some(n) => var more := Records(stream[n..]);
                            Records(stream) == Peeled([stream[..n]] + more.units, more.rest)
  {
    RecordFramer();
  }

  // ----- Written records are the records handed over -----------------------------------------------------

  /** A record as section 5.1 of RFC 8446 lays it out: type, version, length, fragment. */
  datatype Written = Written(kind: byte, major: byte, minor: byte, body: seq<byte>)

  type Record = w: Written | |w.body| < 0x1_0000 witness Written(0, 0, 0, [])

  function RecordBytes(w: Record): seq<byte> {
    [w.kind, w.major, w.minor, |w.body| / 256, |w.body| % 256] + w.body
  }

  /** A whole record is recognised as such, and nothing less. */
  lemma RecordIsUnit(w: Record)
    ensures Complete(CompleteRecordLen, RecordBytes(w))
  {
    TwoBytes(|w.body|);
    assert RecordBytes(w)[3..5] == [|w.body| / 256, |w.body| % 256];
  }

  /** Records written one after another are the records of the stream, with nothing left over. */
  lemma WrittenRecordsRead(ws: seq<Record>)
    ensures Records(Flatten(Map(RecordBytes, ws))) == Peeled(Map(RecordBytes, ws), [])
  {
    var units := Map(RecordBytes, ws);
    RecordFramer();
    forall u | u in units
      ensures Complete(CompleteRecordLen, u)
    {
      var i :| 0 <= i < |units| && units[i] == u;
      RecordIsUnit(ws[i]);
    }
    PeelInvertsConcatenation(CompleteRecordLen, units, []);
    assert Flatten(units) + [] == Flatten(units);
  }

  lemma RecordsTwice(a: seq<byte>, b: seq<byte>)
    ensures var late := Records(Records(a).rest + b);
            Records(a + b) == Peeled(Records(a).units + late.units, late.rest)
  {
    RecordFramer();
    PeelTwice(CompleteRecordLen, a, b);
  }

  // ----- The accumulation buffer ------------------------------------------------------------

  /** The shim's growable byte list: a backing array and the number of bytes in use. */
  class ByteList {
    var items: array<byte>
    var len: nat

    ghost predicate Valid()
      reads this
    {
      len <= items.Length
    }

    ghost function Contents(): seq<byte>
      requires Valid()
      reads this, items
    {
      items[..len]
    }

    constructor ()
      ensures Valid() && Contents() == [] && fresh(items)
    {
      items := new byte[0];
      len := 0;
    }

    /** Append, moving to a larger array when the capacity is exhausted. */
    method AppendSlice(chunk: seq<byte>)
      requires Valid()
      modifies this, items
      ensures Valid() && (items == old(items) || fresh(items))
      ensures Contents() == old(Contents()) + chunk
    {
      if items.Length < len + |chunk| {
        var larger := new byte[2 * (len + |chunk|)];
        forall i | 0 <= i < len {
          larger[i] := items[i];
        }
        items := larger;
      }
      forall i | 0 <= i < |chunk| {
        items[len + i] := chunk[i];
      }
      len := len + |chunk|;
      assert items[..len] == old(Contents()) + chunk;
    }

    /** `consumePrefix`: slide the remainder to the front, in place, lowest index first. */
    method ConsumePrefix(n: nat)
      requires Valid() && n <= len
      modifies this`len, items
      ensures Valid() && items == old(items)
      ensures Contents() == old(Contents())[n..]
      ensures forall k :: len <= k < items.Length ==> items[k] == old(items[k])
    {
      var remaining := len - n;
      var i := 0;
      while i < remaining
        invariant 0 <= i <= remaining
        invariant forall k :: 0 <= k < i ==> items[k] == old(items[n + k])
        invariant forall k :: i <= k < items.Length ==> items[k] == old(items[k])
      {
        items[i] := items[n + i];
        i := i + 1;
      }
      len := remaining;
    }
  }

  // ----- The echo pump ----------------------------------------------------------------------

  /** What becomes of one more record; `Unsent` is an echo or a reply that could not be encrypted or written. */
  datatype Outcome =
    | Alert
    | Failed
    | Unsent
    | Control(reply: Option<seq<byte>>)
    | Data(plaintext: seq<byte>)

  /** The engine and its socket: what becomes of a record depends on the records handed over before. */
  type Engine = (seq<seq<byte>>, seq<byte>) -> Outcome

  /** Bytes handed to the socket: a queued control reply, or plaintext for the engine to encrypt. */
  datatype Output = Reply(bytes: seq<byte>) | Echo(plaintext: seq<byte>)

  datatype End = Eof | ReadError | PeerAlert | DecryptError | SendError

  /** The ways the stream itself can stop. */
  predicate StreamEnd(e: End) {
    e == Eof || e == ReadError
  }

  /** The whole observable behaviour of one echo session. */
  datatype Session = Session(handed: seq<seq<byte>>, sent: seq<Output>, end: Option<End>)

  /** Every plaintext byte XOR 0xff. */
  function Invert(s: seq<byte>): (r: seq<byte>)
    ensures |r| == |s|
  {
    seq(|s|, i requires 0 <= i < |s| => Xor(s[i], 0xFF))
  }

  function HandOne(engine: Engine, s: Session, record: seq<byte>): Session
    requires s.end == None
  {
    var handed := s.handed + [record];
    match engine(s.handed, record)
    case Alert => Session(handed, s.sent, Some(PeerAlert))
    case Failed => Session(handed, s.sent, Some(DecryptError))
    case Unsent => Session(handed, s.sent, Some(SendError))
    case Control(None) => Session(handed, s.sent, None)
    case Control(Some(reply)) => Session(handed, s.sent + [Reply(reply)], None)
    case Data(pt) => Session(handed, s.sent + [Echo(Invert(pt))], None)
  }

  /** Hand over records until one ends the session. */
  function HandAll(engine: Engine, s: Session, records: seq<seq<byte>>): Session
    decreases |records|
  {
    if records == [] || s.end.Some? then s
    else HandAll(engine, HandOne(engine, s, records[0]), records[1..])
  }

  lemma {:induction false} HandAppend(engine: Engine, s: Session, a: seq<seq<byte>>, b: seq<seq<byte>>)
    ensures HandAll(engine, s, a + b) == HandAll(engine, HandAll(engine, s, a), b)
    decreases |a|
  {
    if a == [] {
      assert a + b == b;
    } else if s.end == None {
      HandAppend(engine, HandOne(engine, s, a[0]), a[1..], b);
      assert (a + b)[1..] == a[1..] + b;
    }
  }

  const FRESH := Session([], [], None)

  /** The session after the records of `stream`, whether or not more is to come. */
  function Handled(engine: Engine, stream: seq<byte>): Session {
    HandAll(engine, FRESH, Records(stream).units)
  }

  /**
   The reference: cut the whole stream into records, then hand them over one by one; `last` is how the
   stream stops if no record ends the session before.
   */
  function Reference(engine: Engine, stream: seq<byte>, last: End): Session {
    var s := Handled(engine, stream);
    if s.end.Some? then s else s.(end := Some(last))
  }

  lemma HandledExtend(engine: Engine, a: seq<byte>, b: seq<byte>)
    ensures Handled(engine, a + b) == HandAll(engine, Handled(engine, a), Records(Records(a).rest + b).units)
  {
    RecordsTwice(a, b);
    HandAppend(engine, FRESH, Records(a).units, Records(Records(a).rest + b).units);
  }

  /** The engine is handed a prefix of the stream's records: all of them unless one ended the session. */
  lemma {:induction false} HandedRecords(engine: Engine, s: Session, records: seq<seq<byte>>)
    requires s.end.Some? ==> !StreamEnd(s.end.value)
    ensures var r := HandAll(engine, s, records);
            && (r.end.Some? ==> !StreamEnd(r.end.value))
            && s.handed <= r.handed <= s.handed + records
            && (r.end == None ==> r.handed == s.handed + records)
    decreases |records|
  {
    if records == [] || s.end.Some? {
      assert s.handed + [] == s.handed;
    } else {
      var next := HandOne(engine, s, records[0]);
      HandedRecords(engine, next, records[1..]);
      assert next.handed + records[1..] == s.handed + records;
    }
  }

  /** The inner loop: hand over every complete record at the front of the accumulator. */
  method DrainRecords(engine: Engine, start: Session, acc: ByteList) returns (s: Session)
    requires acc.Valid() && start.end == None
    modifies acc, acc.items
    ensures acc.Valid() && acc.items == old(acc.items)
    ensures s == HandAll(engine, start, Records(old(acc.Contents())).units)
    ensures s.end == None ==> acc.Contents() == Records(old(acc.Contents())).rest && acc.len <= MAX_PARTIAL
  {
    s := start;
    ghost var before := acc.Contents();
    while true
      invariant acc.Valid() && acc.items == old(acc.items) && s.end == None
      invariant HandAll(engine, start, Records(before).units) == HandAll(engine, s, Records(acc.Contents()).units)
      invariant Records(before).rest == Records(acc.Contents()).rest
      decreases acc.len
    {
      var buf := acc.items[..acc.len];
      RecordsStep(buf);
      var wire := CompleteRecordLen(buf);
      if wire.None? {
        return;
      }
      var more := buf[wire.value..];
      assert ([buf[..wire.value]] + Records(more).units)[1..] == Records(more).units;
      s := HandOne(engine, s, buf[..wire.value]);
      if s.end.Some? {
        return;
      }
      acc.ConsumePrefix(wire.value);
    }
  }

  lemma Advance(engine: Engine, chunks: seq<seq<byte>>, k: nat)
    requires k < |chunks|
    ensures var a, b := Flatten(chunks[..k]), Flatten(chunks[..k + 1]);
            && Handled(engine, b) == HandAll(engine, Handled(engine, a), Records(Records(a).rest + chunks[k]).units)
            && Records(b).rest == Records(Records(a).rest + chunks[k]).rest
  {
    FlattenLast(chunks, k);
    HandledExtend(engine, Flatten(chunks[..k]), chunks[k]);
    RecordsTwice(Flatten(chunks[..k]), chunks[k]);
  }

  /** `echoClient`, reading chunks until the stream stops or a record ends the session. */
  method EchoClient(engine: Engine, chunks: seq<seq<byte>>, last: End) returns (s: Session)
    ensures s == Reference(engine, Flatten(chunks), last)
  {
    var acc := new ByteList();
    s := FRESH;
    var k := 0;
    while k < |chunks|
      invariant k <= |chunks| && acc.Valid() && fresh(acc) && fresh(acc.items)
      invariant s.end == None && acc.len <= MAX_PARTIAL
      invariant s == Handled(engine, Flatten(chunks[..k]))
      invariant acc.Contents() == Records(Flatten(chunks[..k])).rest
    {
      Advance(engine, chunks, k);
      acc.AppendSlice(chunks[k]);
      s := DrainRecords(engine, s, acc);
      k := k + 1;
      if s.end.Some? {
        FlattenSplit(chunks, k);
        EndIsFinal(engine, Flatten(chunks[..k]), Flatten(chunks[k..]));
        return;
      }
    }
    assert chunks[..k] == chunks;
    s := s.(end := Some(last));
  }

  /** Once a record has ended the session, the rest of the stream cannot change anything. */
  lemma EndIsFinal(engine: Engine, a: seq<byte>, b: seq<byte>)
    requires Handled(engine, a).end.Some?
    ensures Handled(engine, a + b) == Handled(engine, a)
  {
    HandledExtend(engine, a, b);
  }

  /** Exactly the records of the stream, up to and including the one that ended the session. */
  lemma HandedInOrder(engine: Engine, stream: seq<byte>, last: End)
    requires StreamEnd(last)
    ensures var s := Reference(engine, stream, last);
            && s.handed <= Records(stream).units
            && (s.end == Some(last) ==> s.handed == Records(stream).units)
            && forall i :: 0 <= i < |s.handed| ==> Complete(CompleteRecordLen, s.handed[i])
  {
    HandedRecords(engine, FRESH, Records(stream).units);
    assert [] + Records(stream).units == Records(stream).units;
    RecordFramer();
    PeeledUnitsComplete(CompleteRecordLen, stream);
  }

  /** What is sent for one record: the engine's reply, or the complement of what it decrypted. */
  function Answer(o: Outcome): seq<Output> {
    match o
    case Control(Some(reply)) => [Reply(reply)]
    case Data(pt) => [Echo(seq(|pt|, j requires 0 <= j < |pt| => 255 - pt[j]))]
    case _ => []
  }

  /** How a record ends the session, if it does. */
  function EndOf(o: Outcome): Option<End> {
    match o
    case Alert => Some(PeerAlert)
    case Failed => Some(DecryptError)
    case Unsent => Some(SendError)
    case _ => None
  }

  /** What the engine makes of each record handed over, in order. */
  function Outcomes(engine: Engine, handed: seq<seq<byte>>): seq<Outcome> {
    if handed == [] then []
    else
      var k := |handed| - 1;
      Outcomes(engine, handed[..k]) + [engine(handed[..k], handed[k])]
  }

  /** The session has sent the answers to all records in order; only the last of them can have ended it. */
  ghost predicate Explained(engine: Engine, s: Session) {
    var os := Outcomes(engine, s.handed);
    && |os| == |s.handed|
    && s.sent == Flatten(Map(Answer, os))
    && (forall i :: 0 <= i < |os| - 1 ==> EndOf(os[i]) == None)
    && s.end == if os == [] then None else EndOf(os[|os| - 1])
  }

  lemma ExplainOne(engine: Engine, s: Session, record: seq<byte>)
    requires Explained(engine, s) && s.end == None
    ensures Explained(engine, HandOne(engine, s, record))
  {
    var os, o := Outcomes(engine, s.handed), engine(s.handed, record);
    assert (s.handed + [record])[..|s.handed|] == s.handed;
    assert Outcomes(engine, s.handed + [record]) == os + [o];
    MapAppend(Answer, os, [o]);
    assert Map(Answer, [o]) == [Answer(o)];
    FlattenAppend(Map(Answer, os), [Answer(o)]);
    FlattenOne(Answer(o));
    assert s.sent + [] == s.sent;
    AnswerSent(engine, s, record);
  }

  lemma AnswerSent(engine: Engine, s: Session, record: seq<byte>)
    requires s.end == None
    ensures var r, o := HandOne(engine, s, record), engine(s.handed, record);
            r.handed == s.handed + [record] && r.sent == s.sent + Answer(o) && r.end == EndOf(o)
  {
    assert s.sent + [] == s.sent;
    match engine(s.handed, record) {
      case Data(pt) =>
        EchoIsComplement(pt);
        assert Invert(pt) == seq(|pt|, j requires 0 <= j < |pt| => 255 - pt[j]);
      case _ =>
    }
  }

  lemma {:induction false} ExplainAll(engine: Engine, s: Session, records: seq<seq<byte>>)
    requires Explained(engine, s)
    ensures Explained(engine, HandAll(engine, s, records))
    decreases |records|
  {
    if records != [] && s.end == None {
      ExplainOne(engine, s, records[0]);
      ExplainAll(engine, HandOne(engine, s, records[0]), records[1..]);
    }
  }

  /**
   The whole session in the engine's terms: each record's reply, or the complement of its plaintext, is sent
   in order, and the first record that is an alert, fails or cannot be answered ends the session.
   */
  lemma SessionExplained(engine: Engine, stream: seq<byte>, last: End)
    ensures var s := Reference(engine, stream, last);
            var os := Outcomes(engine, s.handed);
            && |os| == |s.handed| && s.sent == Flatten(Map(Answer, os))
            && (forall i :: 0 <= i < |os| - 1 ==> EndOf(os[i]) == None)
            && s.end == if os == [] || EndOf(os[|os| - 1]) == None then Some(last) else EndOf(os[|os| - 1])
  {
    ExplainAll(engine, FRESH, Records(stream).units);
  }

  /**
   Written records through any chunking: they are handed over in order, all of them unless one ended the
   session.
   */
  method EchoWritten(engine: Engine, ws: seq<Record>, chunks: seq<seq<byte>>, last: End) returns (s: Session)
    requires Flatten(chunks) == Flatten(Map(RecordBytes, ws)) && StreamEnd(last)
    ensures s.handed <= Map(RecordBytes, ws) && (s.end == Some(last) ==> s.handed == Map(RecordBytes, ws))
    ensures s.sent == Flatten(Map(Answer, Outcomes(engine, s.handed)))
  {
    s := EchoClient(engine, chunks, last);
    WrittenRecordsRead(ws);
    HandedInOrder(engine, Flatten(chunks), last);
    SessionExplained(engine, Flatten(chunks), last);
  }

  /** Every echoed byte is the complement of the received one, and inverting again gives it back. */
  lemma EchoIsComplement(s: seq<byte>)
    ensures forall i :: 0 <= i < |s| ==> Invert(s)[i] == 255 - s[i]
    ensures Invert(Invert(s)) == s
  {
    forall i | 0 <= i < |s|
      ensures Invert(s)[i] == 255 - s[i] && Invert(Invert(s))[i] == s[i]
    {
      XorOnes(s[i]);
      XorTwice(s[i], 0xFF);
    }
  }
}
