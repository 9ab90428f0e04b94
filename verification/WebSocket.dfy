/**
 The WebSocket client helpers of the upgrade smoke test: `ws_frame`, which writes one masked text
 frame, and `ws_recv_text`, which chunks unmasked server frames out of an arbitrarily chunked stream.
 The reference they are compared with is written from sections 5.2 and 5.3 of RFC 6455.
 */
module WebSocket {
  import opened Bytes
  import opened Collections
  import opened Framing
  import Utf8

  const NEWLINE: byte := 10

  // ----- The frame layout of RFC 6455 ------------------------------------------------------

  datatype LengthField = LengthField(length: nat, size: nat)

  /** The payload length and the header size up to and including it (section 5.2), once it has arrived. */
  function ReadLength(b: seq<byte>): (r: Option<LengthField>)
    ensures r.Some? ==> 2 <= r.value.size <= |b|
  {
    if |b| < 2 then None
    else
      var n := b[1] % 128;
      if n == 126 then
        if |b| < 4 then None else Some(LengthField(FromBigEndian(b[2..4]), 4))
      else if n == 127 then
        if |b| < 10 then None else Some(LengthField(FromBigEndian(b[2..10]), 10))
      else Some(LengthField(n, 2))
  }

  /** The MASK bit of section 5.2. */
  predicate Masked(b: seq<byte>)
    requires |b| >= 2
  {
    b[1] >= 0x80
  }

  /** The opcode of a text or binary frame. */
  predicate IsText(first: byte) {
    first % 16 == 1 || first % 16 == 2
  }

  /** The frame at the front of the buffer, masking key included when the MASK bit is set. */
  function RfcUnit(b: seq<byte>): Option<nat> {
    match ReadLength(b)
    case None => None
    case Some(h) =>
      var total := h.size + (if Masked(b) then 4 else 0) + h.length;
      if |b| < total then None else Some(total)
  }

  /** What `ws_recv_text` takes for a frame: it never looks at the MASK bit. */
  function ServerUnit(b: seq<byte>): (r: Option<nat>)
    ensures r.Some? ==> ReadLength(b).Some? && 2 <= ReadLength(b).value.size <= r.value <= |b|
  {
    match ReadLength(b)
    case None => None
    case Some(h) => if |b| < h.size + h.length then None else Some(h.size + h.length)
  }

  lemma LengthStable(b: seq<byte>, c: seq<byte>)
    requires ReadLength(b).Some?
    ensures ReadLength(b + c) == ReadLength(b)
  {
    if |b| >= 4 { assert (b + c)[2..4] == b[2..4]; }
    if |b| >= 10 { assert (b + c)[2..10] == b[2..10]; }
  }

  lemma LengthLocal(b: seq<byte>, n: nat)
    requires ReadLength(b).Some? && ReadLength(b).value.size <= n <= |b|
    ensures ReadLength(b[..n]) == ReadLength(b)
  {
    if n >= 4 { assert b[..n][2..4] == b[2..4]; }
    if n >= 10 { assert b[..n][2..10] == b[2..10]; }
  }

  lemma RfcUnitFramer()
    ensures Framer(RfcUnit)
  {
    forall b: seq<byte>, c: seq<byte> {:trigger RfcUnit(b + c)} | RfcUnit(b).Some?
      ensures RfcUnit(b + c) == RfcUnit(b)
    {
      LengthStable(b, c);
    }
    forall b: seq<byte> {:trigger RfcUnit(b)} | RfcUnit(b).Some?
      ensures RfcUnit(b[..RfcUnit(b).value]) == RfcUnit(b)
    {
      LengthLocal(b, RfcUnit(b).value);
    }
  }

  lemma ServerUnitStable(b: seq<byte>, c: seq<byte>)
    requires ServerUnit(b).Some?
    ensures ReadLength(b + c) == ReadLength(b) && ServerUnit(b + c) == ServerUnit(b)
  {
    LengthStable(b, c);
  }

  datatype Frame = Frame(first: byte, key: Option<seq<byte>>, payload: seq<byte>)

  /** Section 5.3: octet i of the payload is combined with octet i modulo 4 of the key. */
  function Mask(payload: seq<byte>, key: seq<byte>): (r: seq<byte>)
    requires |key| == 4
    ensures |r| == |payload|
  {
    seq(|payload|, i requires 0 <= i < |payload| => Xor(payload[i], key[i % 4]))
  }

  lemma MaskTwice(payload: seq<byte>, key: seq<byte>)
    requires |key| == 4
    ensures Mask(Mask(payload, key), key) == payload
  {
    forall i | 0 <= i < |payload|
      ensures Mask(Mask(payload, key), key)[i] == payload[i]
    {
      XorTwice(payload[i], key[i % 4]);
    }
  }

  /** The reference decoder of one complete frame. */
  function RfcDecode(u: seq<byte>): (f: Frame)
    requires Complete(RfcUnit, u)
  {
    var h := ReadLength(u).value;
    if Masked(u) then
      var key := u[h.size..h.size + 4];
      Frame(u[0], Some(key), Mask(u[h.size + 4..], key))
    else
      Frame(u[0], None, u[h.size..])
  }

  // ----- ws_frame ---------------------------------------------------------------------------

  /**
   The bytes of a final, masked text frame (section 5.2): the length in one byte or in two more, the key,
   and every payload byte combined with its byte of the key.
   */
  ghost predicate LaidOut(f: seq<byte>, payload: seq<byte>, key: seq<byte>)
    requires |key| == 4
  {
    var n, h := |payload|, if |payload| < 126 then 2 else 4;
    && |f| == h + 4 + n && f[0] == 0x81
    && (if n < 126 then f[1] == 0x80 + n else f[1] == 0xFE && f[2] == n / 256 && f[3] == n % 256)
    && f[h] == key[0] && f[h + 1] == key[1] && f[h + 2] == key[2] && f[h + 3] == key[3]
    && forall i :: 0 <= i < n ==> f[h + 4 + i] == Xor(payload[i], key[i % 4])
  }

  lemma FrameLaidOut(payload: seq<byte>, mask: seq<byte>)
    requires |mask| == 4 && |payload| < 0x1_0000
    ensures LaidOut(ClientFrame(payload, mask).value, payload, mask)
  {
    var f, h := ClientFrame(payload, mask).value, if |payload| < 126 then 2 else 4;
    ClientHeader(payload, mask);
    if |payload| >= 126 {
      TwoBytes(|payload|);
    }
    assert f[h..h + 4][0] == f[h] && f[h..h + 4][1] == f[h + 1] && f[h..h + 4][2] == f[h + 2];
    assert f[h..h + 4][3] == f[h + 3];
    forall i | 0 <= i < |payload|
      ensures f[h + 4 + i] == Xor(payload[i], mask[i % 4])
    {
      assert f[h + 4..][i] == f[h + 4 + i];
    }
  }

  /** `ws_frame`; None is the OverflowError that to_bytes(2, ...) raises on a longer payload. */
  method WsFrame(payload: seq<byte>, mask: seq<byte>) returns (frame: Option<seq<byte>>)
    requires |mask| == 4
    ensures frame.Some? <==> |payload| < 0x1_0000
    ensures frame.Some? ==> LaidOut(frame.value, payload, mask)
    ensures frame == ClientFrame(payload, mask)
  {
    var header: seq<byte> := [0x81];
    var n := |payload|;
    if n < 126 {
      header := header + [0x80 + n];
      assert header == [0x81, 0x80 + n];
    } else {
      Pow256Values();
      if n >= 0x1_0000 {
        return None;
      }
      header := header + ([0x80 + 126] + ToBigEndian(n, 2));
      assert header == [0x81, 0xFE] + ToBigEndian(n, 2);
    }
    var body: seq<byte> := [];
    for i := 0 to n
      invariant body == Mask(payload, mask)[..i]
    {
      body := body + [Xor(payload[i], mask[i % 4])];
    }
    assert body == Mask(payload, mask);
    frame := Some(header + mask + body);
    FrameLaidOut(payload, mask);
  }

  function ClientFrame(payload: seq<byte>, mask: seq<byte>): (frame: Option<seq<byte>>)
    requires |mask| == 4
    ensures frame.Some? <==> |payload| < 0x1_0000
  {
    Pow256Values();
    var n := |payload|;
    if n < 126 then Some([0x81, 0x80 + n] + mask + Mask(payload, mask))
    else if n < 0x1_0000 then Some([0x81, 0xFE] + ToBigEndian(n, 2) + mask + Mask(payload, mask))
    else None
  }

  /** The header of a client frame announces the payload it carries. */
  lemma ClientHeader(payload: seq<byte>, mask: seq<byte>)
    requires |mask| == 4 && |payload| < 0x1_0000
    ensures var f := ClientFrame(payload, mask).value;
            var size := if |payload| < 126 then 2 else 4;
            && ReadLength(f) == Some(LengthField(|payload|, size))
            && |f| == size + 4 + |payload|
            && f[0] == 0x81 && Masked(f)
            && f[size..size + 4] == mask && f[size + 4..] == Mask(payload, mask)
  {
    var n := |payload|;
    var f := ClientFrame(payload, mask).value;
    if n >= 126 {
      Pow256Values();
      assert f[2..4] == ToBigEndian(n, 2);
    }
  }

  /** Round trip: the reference decoder recovers the payload under every mask. */
  lemma ClientFrameRoundTrip(payload: seq<byte>, mask: seq<byte>)
    requires |mask| == 4 && |payload| < 0x1_0000
    ensures var f := ClientFrame(payload, mask).value;
            Complete(RfcUnit, f) && RfcDecode(f) == Frame(0x81, Some(mask), payload)
  {
    ClientHeader(payload, mask);
    MaskTwice(payload, mask);
  }

  datatype Draft = Draft(payload: seq<byte>, mask: seq<byte>)

  type Message = m: Draft | |m.mask| == 4 && |m.payload| < 0x1_0000 witness Draft([], [0, 0, 0, 0])

  function FrameOf(m: Message): seq<byte> {
    ClientFrame(m.payload, m.mask).value
  }

  /** A deframer for client frames, fed chunk by chunk from what it held before. */
  function Deframe(held: seq<byte>, chunks: seq<seq<byte>>): Peeled<byte> {
    RfcUnitFramer();
    Feed(RfcUnit, held, chunks)
  }

  /** Any list of messages survives any chunking: same frames, same order, no byte left over. */
  lemma ClientStreamRoundTrip(ms: seq<Message>, chunks: seq<seq<byte>>)
    requires Flatten(chunks) == Flatten(Map(FrameOf, ms))
    ensures var got := Deframe([], chunks);
            && got.rest == [] && |got.units| == |ms|
            && forall i :: 0 <= i < |ms| ==> Decodes(got.units[i], ms[i])
  {
    RfcUnitFramer();
    FramesDecode(ms);
    ReadBack(RfcUnit, Map(FrameOf, ms), chunks);
  }

  ghost predicate Decodes(u: seq<byte>, m: Message) {
    Complete(RfcUnit, u) && RfcDecode(u) == Frame(0x81, Some(m.mask), m.payload)
  }

  lemma FramesDecode(ms: seq<Message>)
    ensures forall i :: 0 <= i < |ms| ==> Decodes(Map(FrameOf, ms)[i], ms[i])
  {
    forall i | 0 <= i < |ms|
      ensures Decodes(Map(FrameOf, ms)[i], ms[i])
    {
      ClientFrameRoundTrip(ms[i].payload, ms[i].mask);
    }
  }

  /**
   The mid-frame cut of the upgrade test: wherever a frame is cut, the deframer holds back exactly
   the bytes of the first part, yields nothing, and completes the frame when the rest arrives.
   */
  lemma MidFrameCut(m: Message, k: nat)
    requires k < |FrameOf(m)|
    ensures Deframe([], [FrameOf(m)[..k]]) == Peeled([], FrameOf(m)[..k])
    ensures Deframe(FrameOf(m)[..k], [FrameOf(m)[k..]]) == Peeled([FrameOf(m)], [])
  {
    RfcUnitFramer();
    ClientFrameRoundTrip(m.payload, m.mask);
    CutAnywhere(RfcUnit, FrameOf(m), k);
  }

  // ----- ws_recv_text -----------------------------------------------------------------------

  /** The text the front frame contributes: the payload of a text or binary frame, and a newline. */
  function FrontText(b: seq<byte>): seq<byte>
    requires ServerUnit(b).Some?
  {
    var h := ReadLength(b).value;
    if IsText(b[0]) then b[h.size..h.size + h.length] + [NEWLINE] else []
  }

  datatype Reading = Reading(text: seq<byte>, rest: seq<byte>) {
    function Prepend(t: seq<byte>): Reading {
      Reading(t + text, rest)
    }
  }

  /** The reference: parse the whole stream at once. */
  function OneShot(b: seq<byte>): Reading
    decreases |b|
  {
    match ServerUnit(b)
    case None => Reading([], b)
    case Some(n) => OneShot(b[n..]).Prepend(FrontText(b))
  }

  /** Parsing what has arrived and continuing later equals parsing everything at once. */
  lemma {:induction false} OneShotExtend(b: seq<byte>, c: seq<byte>)
    ensures OneShot(b + c) == OneShot(OneShot(b).rest + c).Prepend(OneShot(b).text)
    decreases |b|
  {
    match ServerUnit(b)
    case None => PrependNothing(OneShot(b + c).text);
    case Some(n) =>
      ServerUnitStable(b, c);
      var h := ReadLength(b).value;
      assert (b + c)[h.size..h.size + h.length] == b[h.size..h.size + h.length];
      assert (b + c)[n..] == b[n..] + c;
      OneShotExtend(b[n..], c);
      Reassociate(FrontText(b), OneShot(b[n..]).text, OneShot(OneShot(b[n..]).rest + c).text);
  }

  predicate Contains(text: seq<byte>, needle: seq<byte>) {
    exists i :: 0 <= i <= |text| && needle <= text[i..]
  }

  /** The needle occurs with something, or nothing, on either side. */
  lemma ContainsIff(text: seq<byte>, needle: seq<byte>)
    ensures Contains(text, needle) <==> exists before, behind :: text == before + needle + behind
  {
    if Contains(text, needle) {
      var i :| 0 <= i <= |text| && needle <= text[i..];
      assert text == text[..i] + needle + text[i + |needle|..];
    }
    if before, behind :| text == before + needle + behind {
      assert needle <= text[|before|..];
    }
  }

  lemma PrependTwice(r: Reading, x: seq<byte>, t: seq<byte>)
    ensures r.Prepend(x).Prepend(t) == r.Prepend(t + x)
  {
    Reassociate(t, x, r.text);
  }

  lemma FrontTextIs(buf: seq<byte>, n: nat, off: nat)
    requires ReadLength(buf) == Some(LengthField(n, off)) && off + n <= |buf|
    ensures ServerUnit(buf) == Some(off + n)
    ensures FrontText(buf) == if buf[0] % 16 == 1 || buf[0] % 16 == 2 then buf[off..off + n] + [NEWLINE] else []
  {}

  /** A frame taken off the buffer adds its text, if it is a text or binary one. */
  lemma FrameTaken(text: seq<byte>, buf: seq<byte>, n: nat, off: nat)
    requires ReadLength(buf) == Some(LengthField(n, off)) && off + n <= |buf|
    ensures OneShot(buf).Prepend(text) == OneShot(buf[off + n..]).Prepend(text + FrontText(buf))
  {
    FrontTextIs(buf, n, off);
    PrependTwice(OneShot(buf[off + n..]), FrontText(buf), text);
  }

  /** The inner loop of `ws_recv_text`: take every complete frame off the buffer. */
  method DrainFrames(received: seq<byte>) returns (text: seq<byte>, buf: seq<byte>)
    ensures Reading(text, buf) == OneShot(received)
  {
    buf, text := received, [];
    PrependNothing(OneShot(received).text);
    while |buf| >= 2
      invariant OneShot(received) == OneShot(buf).Prepend(text)
      decreases |buf|
    {
      var n := buf[1] % 128;
      var off := 2;
      if n == 126 {
        if |buf| < 4 {
          break;
        }
        n := FromBigEndian(buf[2..4]);
        off := 4;
      } else if n == 127 {
        if |buf| < 10 {
          break;
        }
        n := FromBigEndian(buf[2..10]);
        off := 10;
      }
      if |buf| < off + n {
        break;
      }
      assert ReadLength(buf) == Some(LengthField(n, off));
      FrontTextIs(buf, n, off);
      FrameTaken(text, buf, n, off);
      var opcode := buf[0] % 16;
      if opcode == 1 || opcode == 2 {
        text := text + (buf[off..off + n] + [NEWLINE]);
      } else {
        assert text + [] == text;
      }
      buf := buf[off + n..];
    }
    assert ServerUnit(buf) == None;
    assert text + [] == text;
  }

  /**
   `ws_recv_text`.  `chunks` are the successive results of recv; the list ends where the deadline or
   a socket timeout ends the loop, and an empty chunk is the end of the stream.  `used` counts the
   non-empty chunks consumed.
   */
  method WsRecvText(chunks: seq<seq<byte>>, needle: seq<byte>) returns (decoded: string, used: nat)
    ensures used <= |chunks|
    ensures decoded == Utf8.Decode(After(chunks, used).text)
    ensures forall k :: 0 <= k < used ==> chunks[k] != [] && !Contains(OneShot(Flatten(chunks[..k])).text, needle)
    ensures used < |chunks| ==> chunks[used] == [] || Contains(OneShot(Flatten(chunks[..used])).text, needle)
  {
    var buf: seq<byte>, text: seq<byte> := [], [];
    used := 0;
    while used < |chunks| && !Contains(text, needle)
      invariant used <= |chunks|
      invariant After(chunks, used) == Reading(text, buf)
      invariant forall k :: 0 <= k < used ==> ReadsOn(chunks, needle, k)
    {
      if chunks[used] == [] {
        break;
      }
      ReadOneMore(chunks, used);
      var more;
      more, buf := DrainFrames(buf + chunks[used]);
      text := text + more;
      used := used + 1;
    }
    decoded := Utf8.Decode(text);
    WhileReading(chunks, needle, used);
  }

  lemma WhileReading(chunks: seq<seq<byte>>, needle: seq<byte>, used: nat)
    requires used <= |chunks| && forall k :: 0 <= k < used ==> ReadsOn(chunks, needle, k)
    ensures forall k :: 0 <= k < used ==> chunks[k] != [] && !Contains(OneShot(Flatten(chunks[..k])).text, needle)
  {
    forall k | 0 <= k < used
      ensures chunks[k] != [] && !Contains(OneShot(Flatten(chunks[..k])).text, needle)
    {
      assert ReadsOn(chunks, needle, k);
    }
  }

  /** All there is to know after the first k chunks. */
  function After(chunks: seq<seq<byte>>, k: nat): Reading
    requires k <= |chunks|
  {
    OneShot(Flatten(chunks[..k]))
  }

  /** After k chunks the loop goes on: no end of stream, and the needle not yet seen. */
  predicate ReadsOn(chunks: seq<seq<byte>>, needle: seq<byte>, k: nat)
    requires k < |chunks|
  {
    chunks[k] != [] && !Contains(After(chunks, k).text, needle)
  }

  lemma ReadOneMore(chunks: seq<seq<byte>>, k: nat)
    requires k < |chunks|
    ensures After(chunks, k + 1) == OneShot(After(chunks, k).rest + chunks[k]).Prepend(After(chunks, k).text)
  {
    FlattenLast(chunks, k);
    OneShotExtend(Flatten(chunks[..k]), chunks[k]);
  }

  // ----- Server frames ----------------------------------------------------------------------

  /** The three length forms of section 5.2. */
  datatype LengthForm = Short | Medium | Long

  predicate Fits(form: LengthForm, n: nat) {
    match form
    case Short => n < 126
    case Medium => n < 0x1_0000
    case Long => n < 0x8000_0000_0000_0000
  }

  /** An unmasked frame as section 5.2 lays it out, with any length form that can hold the payload. */
  function ServerFrame(first: byte, form: LengthForm, payload: seq<byte>): seq<byte>
    requires Fits(form, |payload|)
  {
    Pow256Values();
    match form
    case Short => [first, |payload|] + payload
    case Medium => [first, 126] + ToBigEndian(|payload|, 2) + payload
    case Long => [first, 127] + ToBigEndian(|payload|, 8) + payload
  }

  lemma ServerHeader(first: byte, form: LengthForm, payload: seq<byte>)
    requires Fits(form, |payload|)
    ensures var u := ServerFrame(first, form, payload);
            && ReadLength(u).Some? && ReadLength(u).value.length == |payload|
            && u[0] == first && u[ReadLength(u).value.size..] == payload
  {
    var u := ServerFrame(first, form, payload);
    Pow256Values();
    match form {
      case Short =>
      case Medium => assert u[2..4] == ToBigEndian(|payload|, 2);
      case Long => assert u[2..10] == ToBigEndian(|payload|, 8);
    }
  }

  lemma ServerFrameFront(first: byte, form: LengthForm, payload: seq<byte>, more: seq<byte>)
    requires Fits(form, |payload|)
    ensures var u := ServerFrame(first, form, payload);
            && ServerUnit(u + more) == Some(|u|)
            && FrontText(u + more) == if IsText(first) then payload + [NEWLINE] else []
  {
    var u := ServerFrame(first, form, payload);
    ServerHeader(first, form, payload);
    ServerUnitStable(u, more);
    var h := ReadLength(u).value;
    assert (u + more)[h.size..h.size + h.length] == u[h.size..];
  }

  datatype ServerDraft = ServerDraft(first: byte, form: LengthForm, payload: seq<byte>)

  type ServerMessage = m: ServerDraft | Fits(m.form, |m.payload|) witness ServerDraft(0x81, Short, [])

  function ServerWire(ms: seq<ServerMessage>): seq<byte> {
    if ms == [] then [] else ServerFrame(ms[0].first, ms[0].form, ms[0].payload) + ServerWire(ms[1..])
  }

  /** What a reader of the messages expects to see: opcode 1 is text, opcode 2 is binary (section 5.2). */
  function Transcript(ms: seq<ServerMessage>): seq<byte> {
    if ms == [] then []
    else
      (if ms[0].first % 16 == 1 || ms[0].first % 16 == 2 then ms[0].payload + [10] else [])
      + Transcript(ms[1..])
  }

  /**
   Whatever unmasked frames the server wrote, and however much of a further frame has arrived,
   exactly the text and binary payloads come out, in order, and the partial frame is kept.
   */
  lemma {:induction false} ServerFramesRead(ms: seq<ServerMessage>, tail: seq<byte>)
    requires ServerUnit(tail) == None
    ensures OneShot(ServerWire(ms) + tail) == Reading(Transcript(ms), tail)
  {
    if ms == [] {
      assert [] + tail == tail;
    } else {
      var m := ms[0];
      var u, more := ServerFrame(m.first, m.form, m.payload), ServerWire(ms[1..]) + tail;
      ServerFrameFront(m.first, m.form, m.payload, more);
      assert ServerWire(ms) + tail == u + more;
      assert (u + more)[|u|..] == more;
      ServerFramesRead(ms[1..], tail);
    }
  }

  /** The texts, each with a newline. */
  function Joined(ts: seq<string>): string {
    if ts == [] then [] else ts[0] + "\n" + Joined(ts[1..])
  }

  /** Text or binary messages whose payloads are these encoded texts. */
  predicate Carry(ms: seq<ServerMessage>, ts: seq<string>) {
    |ms| == |ts| && forall i :: 0 <= i < |ms| ==> IsText(ms[i].first) && ms[i].payload == Utf8.Encode(ts[i])
  }

  lemma {:induction false} TranscriptIsEncoded(ms: seq<ServerMessage>, ts: seq<string>)
    requires Carry(ms, ts)
    ensures Transcript(ms) == Utf8.Encode(Joined(ts))
  {
    if ms != [] {
      TranscriptIsEncoded(ms[1..], ts[1..]);
      assert ms[0].payload == Utf8.Encode(ts[0]);
      Utf8.EncodeAppend(ts[0], "\n");
      Utf8.EncodeAppend(ts[0] + "\n", Joined(ts[1..]));
      assert "\n"[1..] == [] && Utf8.EncodeChar('\n') == [NEWLINE];
      assert Utf8.Encode("\n") == [NEWLINE] + Utf8.Encode([]) == [NEWLINE];
    }
  }

  /**
   The same through any chunking, while the needle has not been seen and chunks keep coming: the decoded
   transcript, and for encoded texts the texts themselves.
   */
  method ReadServerFrames(ms: seq<ServerMessage>, chunks: seq<seq<byte>>, needle: seq<byte>, ghost ts: seq<string>)
    returns (decoded: string, used: nat)
    requires Flatten(chunks) == ServerWire(ms)
    ensures used == |chunks| ==> decoded == Utf8.Decode(Transcript(ms))
    ensures used == |chunks| && Carry(ms, ts) ==> decoded == Joined(ts)
  {
    decoded, used := WsRecvText(chunks, needle);
    if used == |chunks| {
      assert chunks[..used] == chunks;
      ServerFramesRead(ms, []);
      assert ServerWire(ms) + [] == ServerWire(ms);
    }
    if Carry(ms, ts) {
      TranscriptIsEncoded(ms, ts);
      Utf8.DecodeEncoded(Joined(ts));
    }
  }
}
