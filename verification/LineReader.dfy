/**
 The browser harness's IRC line reader: it appends the decoded chunks of a stream to `buf`, moves complete
 non-empty lines to `queue`, and hands them out until one satisfies a predicate.
 */
module LineReader {
  import opened Collections
  import opened Framing
  import opened Bytes
  import Utf8

  /** A line with its terminator: everything through the first line feed. */
  function LineUnit(b: string): (r: Option<nat>)
    ensures r.Some? ==> 0 < r.value <= |b| && b[r.value - 1] == '\n'
    ensures forall i :: 0 <= i < (if r.Some? then r.value - 1 else |b|) ==> b[i] != '\n'
  {
    if b == [] then None
    else if b[0] == '\n' then Some(1)
    else
      match LineUnit(b[1..])
      case None => None
      case Some(n) => Some(n + 1)
  }

  lemma LineUnitIs(b: string, n: nat)
    requires n < |b| && b[n] == '\n' && forall i :: 0 <= i < n ==> b[i] != '\n'
    ensures LineUnit(b) == Some(n + 1)
  {}

  lemma LineFramer()
    ensures Framer(LineUnit)
  {
    forall b: string, c: string {:trigger LineUnit(b + c)} | LineUnit(b).Some?
      ensures LineUnit(b + c) == LineUnit(b)
    {
      var n := LineUnit(b).value - 1;
      LineUnitIs(b + c, n);
    }
    forall b: string {:trigger LineUnit(b)} | LineUnit(b).Some?
      ensures LineUnit(b[..LineUnit(b).value]) == LineUnit(b)
    {
      var n := LineUnit(b).value - 1;
      LineUnitIs(b[..n + 1], n);
    }
  }

  /** The line itself: the terminator is a line feed, with a carriage return before it if there is one. */
  function LineOf(u: string): string {
    if u == [] then []
    else if |u| >= 2 && u[|u| - 2] == '\r' then u[..|u| - 2]
    else u[..|u| - 1]
  }

  predicate NonEmpty(line: string) {
    line != []
  }

  datatype Parsed = Parsed(lines: seq<string>, rest: string)

  /** The reference: the non-empty lines of a text, and what follows the last line feed. */
  function Lines(text: string): Parsed {
    LineFramer();
    var p := Peel(LineUnit, text);
    Parsed(Filter(NonEmpty, Map(LineOf, p.units)), p.rest)
  }

  lemma LinesStep(text: string)
    ensures match LineUnit(text)
            case None => Lines(text) == Parsed([], text)
            case Some(n) =>
              var more := Lines(text[n..]);
              var line := LineOf(text[..n]);
              Lines(text) == Parsed((if line != [] then [line] else []) + more.lines, more.rest)
  {
    LineFramer();
    if LineUnit(text).Some? {
      var n := LineUnit(text).value;
      var us := Peel(LineUnit, text[n..]).units;
      MapCons(LineOf, text[..n], us);
      assert ([LineOf(text[..n])] + Map(LineOf, us))[1..] == Map(LineOf, us);
    }
  }

  /** No line is lost or torn by a chunk boundary, even one between a CR and its LF. */
  lemma LinesTwice(a: string, b: string)
    ensures var late := Lines(Lines(a).rest + b);
            Lines(a + b) == Parsed(Lines(a).lines + late.lines, late.rest)
  {
    LineFramer();
    PeelTwice(LineUnit, a, b);
    var early := Peel(LineUnit, a);
    var late := Peel(LineUnit, early.rest + b);
    MapAppend(LineOf, early.units, late.units);
    FilterAppend(NonEmpty, Map(LineOf, early.units), Map(LineOf, late.units));
  }

  // ----- Written lines come back ------------------------------------------------------------

  datatype Written = Written(line: string, crlf: bool)

  /** A line without line feeds, which a bare LF must not follow when it ends in a carriage return. */
  predicate Writable(w: Written) {
    '\n' !in w.line && (w.line != [] && w.line[|w.line| - 1] == '\r' ==> w.crlf)
  }

  function Terminated(w: Written): string {
    w.line + (if w.crlf then "\r\n" else "\n")
  }

  function Stream(ws: seq<Written>): string {
    if ws == [] then [] else Terminated(ws[0]) + Stream(ws[1..])
  }

  function NonEmptyLines(ws: seq<Written>): seq<string> {
    if ws == [] then [] else (if ws[0].line != [] then [ws[0].line] else []) + NonEmptyLines(ws[1..])
  }

  lemma {:induction false} WrittenLinesRead(ws: seq<Written>, tail: string)
    requires forall i :: 0 <= i < |ws| ==> Writable(ws[i])
    requires '\n' !in tail
    ensures Lines(Stream(ws) + tail) == Parsed(NonEmptyLines(ws), tail)
  {
    if ws == [] {
      PrependNothing(tail);
      LinesStep(tail);
    } else {
      var u, more := Terminated(ws[0]), Stream(ws[1..]) + tail;
      Reassociate(u, Stream(ws[1..]), tail);
      TerminatedFirst(ws[0], more);
      WrittenLinesRead(ws[1..], tail);
      LinesStep(u + more);
    }
  }

  lemma TerminatedFirst(w: Written, more: string)
    requires Writable(w)
    ensures var u := Terminated(w);
            && LineUnit(u + more) == Some(|u|) && LineOf(u) == w.line
            && (u + more)[..|u|] == u && (u + more)[|u|..] == more
  {
    TerminatedIs(w);
    FrontOfConcat(Terminated(w), more);
    LineUnitIs(Terminated(w) + more, |Terminated(w)| - 1);
  }

  lemma TerminatedIs(w: Written)
    requires Writable(w)
    ensures var u := Terminated(w);
            && |u| >= 1 && u[|u| - 1] == '\n' && LineOf(u) == w.line
            && forall i :: 0 <= i < |u| - 1 ==> u[i] != '\n'
  {
    var u, n := Terminated(w), |w.line|;
    assert u[..n] == w.line;
    assert forall i :: 0 <= i < n ==> u[i] == w.line[i] && w.line[i] in w.line;
    if !w.crlf && n > 0 { assert u[|u| - 2] == w.line[n - 1]; }
  }

  lemma FrontOfConcat(u: string, more: string)
    ensures (u + more)[..|u|] == u && (u + more)[|u|..] == more
    ensures forall i :: 0 <= i < |u| ==> (u + more)[i] == u[i]
  {}

  /**
   Exactly when a line comes back: a bare LF after a final carriage return is taken for one
   terminator, and the carriage return is lost.
   */
  lemma LineComesBackIff(w: Written)
    requires '\n' !in w.line && w.line != []
    ensures Lines(Terminated(w)) == Parsed([w.line], []) <==> Writable(w)
  {
    if Writable(w) {
      WrittenLinesRead([w], []);
      assert [w][1..] == [] && Terminated(w) + [] == Terminated(w);
    } else {
      CarriageReturnLost(w);
    }
  }

  lemma CarriageReturnLost(w: Written)
    requires '\n' !in w.line && w.line != [] && !Writable(w)
    ensures Lines(Terminated(w)).lines == One(w.line[..|w.line| - 1])
  {
    var u, n := Terminated(w), |w.line|;
    assert forall i :: 0 <= i < n ==> u[i] == w.line[i] && w.line[i] in w.line;
    LineUnitIs(u, n);
    assert u[..n + 1] == u && u[n + 1..] == [];
    assert LineOf(u) == w.line[..n - 1];
    NoLine([]);
    LinesStep(u);
  }

  /** The line "a" CR, ended by a bare LF, comes back without its CR. */
  lemma CarriageReturnLostFrom()
    ensures Lines("a\r" + "\n").lines == ["a"]
  {
    var w := Written("a\r", false);
    assert Terminated(w) == "a\r" + "\n";
    CarriageReturnLost(w);
    assert "a\r"[..1] == "a";
  }

  function One(line: string): seq<string> {
    if line != [] then [line] else []
  }

  // ----- The reader -------------------------------------------------------------------------

  /** The regular expression \r?\n matches at `idx` and nowhere to the left of it. */
  ghost predicate LeftmostMatch(b: string, idx: int) {
    && 0 <= idx < |b| && (forall i :: 0 <= i < idx ==> b[i] != '\n')
    && (b[idx] == '\n' || (idx + 1 < |b| && b[idx] == '\r' && b[idx + 1] == '\n'))
    && (b[idx] == '\n' && idx > 0 ==> b[idx - 1] != '\r')
  }

  /** Where the leftmost match of \r?\n starts, or -1. */
  method Search(buf: string) returns (idx: int)
    ensures idx == -1 ==> '\n' !in buf
    ensures idx != -1 ==> LeftmostMatch(buf, idx)
  {
    idx := 0;
    while idx < |buf|
      invariant idx <= |buf| && forall i :: 0 <= i < idx ==> buf[i] != '\n'
      invariant 0 < idx < |buf| && buf[idx] == '\n' ==> buf[idx - 1] != '\r'
    {
      if buf[idx] == '\n' || (idx + 1 < |buf| && buf[idx] == '\r' && buf[idx + 1] == '\n') {
        return;
      }
      idx := idx + 1;
    }
    idx := -1;
  }

  function AfterMatch(b: string, idx: int): (next: int)
    requires 0 <= idx < |b|
  {
    if b[idx] == '\r' then idx + 2 else idx + 1
  }

  /** The leftmost match ends the first line, and the line is what stands before it. */
  lemma MatchEndsLine(b: string, idx: int)
    requires LeftmostMatch(b, idx)
    ensures LineUnit(b) == Some(AfterMatch(b, idx))
  {
    LineUnitIs(b, AfterMatch(b, idx) - 1);
  }

  lemma MatchFollowsLine(b: string, idx: int)
    requires LeftmostMatch(b, idx)
    ensures LineOf(b[..AfterMatch(b, idx)]) == b[..idx]
  {
    var next := AfterMatch(b, idx);
    assert next >= 2 ==> b[..next][next - 2] == b[next - 2];
    assert b[..next][..idx] == b[..idx];
  }

  /** Cutting at the leftmost match takes exactly the first line off. */
  lemma CutAtMatch(b: string, idx: int)
    requires LeftmostMatch(b, idx)
    ensures var next := AfterMatch(b, idx);
            Lines(b) == Parsed(One(b[..idx]) + Lines(b[next..]).lines, Lines(b[next..]).rest)
  {
    MatchEndsLine(b, idx);
    MatchFollowsLine(b, idx);
    LinesStep(b);
  }

  lemma NoLine(b: string)
    requires '\n' !in b
    ensures Lines(b) == Parsed([], b)
  {
    LinesStep(b);
  }

  /** What is left after the last line feed holds no line. */
  lemma LinesOfRest(text: string)
    ensures Lines(Lines(text).rest) == Parsed([], Lines(text).rest)
  {
    LinesStep(Lines(text).rest);
  }

  /** The lines seen by a call end at the first one that satisfies the predicate, if any does. */
  ghost predicate StopsAtFirst(pred: string -> bool, matched: Option<string>, seen: seq<string>) {
    match matched
    case None => forall l :: l in seen ==> !pred(l)
    case Some(m) => seen != [] && seen[|seen| - 1] == m && pred(m)
                    && forall l :: l in seen[..|seen| - 1] ==> !pred(l)
  }

  lemma StopsLater(pred: string -> bool, before: seq<string>, matched: Option<string>, more: seq<string>)
    requires StopsAtFirst(pred, None, before) && StopsAtFirst(pred, matched, more)
    ensures StopsAtFirst(pred, matched, before + more)
  {
    if matched.Some? {
      assert (before + more)[..|before + more| - 1] == before + more[..|more| - 1];
    }
  }

  predicate BeginsWithBom(t: string) {
    t != [] && t[0] == Utf8.BOM
  }

  /**
   Encoded lines, in any mix of terminators and cut into chunks anywhere, even inside a character, are read
   back if and only if the text does not begin with a byte order mark, which the decoder drops.
   */
  lemma EncodedLinesReadIff(ws: seq<Written>, tail: string, chunks: seq<seq<byte>>)
    requires forall i :: 0 <= i < |ws| ==> Writable(ws[i])
    requires '\n' !in tail
    requires Flatten(chunks) == Utf8.Encode(Stream(ws) + tail)
    ensures Lines(Utf8.StreamText(Flatten(chunks))) == Parsed(NonEmptyLines(ws), tail)
            <==> !BeginsWithBom(Stream(ws) + tail)
  {
    Utf8.StreamEncoded(Stream(ws) + tail);
    WrittenLinesRead(ws, tail);
    if BeginsWithBom(Stream(ws) + tail) {
      BomDropped(ws, tail);
    }
  }

  /** The line "a" behind a byte order mark comes back without it. */
  lemma BomLost()
    ensures Lines(Utf8.StreamText(Utf8.Encode([Utf8.BOM] + "a\r\n"))) != Parsed([[Utf8.BOM] + "a"], [])
  {
    var w := Written([Utf8.BOM] + "a", true);
    var text := [Utf8.BOM] + "a\r\n";
    assert [w][1..] == [] && Terminated(w) == text;
    assert Stream([w]) + [] == Terminated(w) + [] + [] == text;
    FlattenOne(Utf8.Encode(text));
    EncodedLinesReadIff([w], [], [Utf8.Encode(text)]);
    assert NonEmptyLines([w]) == [w.line] + NonEmptyLines([w][1..]) == [w.line];
  }

  lemma BomDropped(ws: seq<Written>, tail: string)
    requires forall i :: 0 <= i < |ws| ==> Writable(ws[i])
    requires '\n' !in tail && BeginsWithBom(Stream(ws) + tail)
    ensures Lines(Utf8.WithoutBom(Stream(ws) + tail)) != Parsed(NonEmptyLines(ws), tail)
  {
    if ws == [] {
      PrependNothing(tail);
      NoLine(tail[1..]);
    } else {
      assert ws == [ws[0]] + ws[1..];
      StreamFront(ws[0], ws[1..], tail);
      LineCut(ws[0], ws[1..], tail);
    }
  }

  lemma LineCut(w: Written, vs: seq<Written>, tail: string)
    requires Writable(w) && w.line != [] && forall i :: 0 <= i < |vs| ==> Writable(vs[i])
    requires '\n' !in tail
    ensures Lines((Stream([w] + vs) + tail)[1..]).lines != NonEmptyLines([w] + vs)
  {
    var cut := Written(w.line[1..], w.crlf);
    CutFront(w, vs, tail);
    assert Writable(cut);
    WrittenLinesRead([cut] + vs, tail);
    assert ([cut] + vs)[1..] == vs && ([w] + vs)[1..] == vs;
    FirstLineDiffers(w.line, NonEmptyLines(vs));
  }

  lemma StreamFront(w: Written, vs: seq<Written>, tail: string)
    ensures Stream([w] + vs) + tail == Terminated(w) + (Stream(vs) + tail)
    ensures w.line == [] ==> (Stream([w] + vs) + tail)[0] in "\r\n"
    ensures w.line != [] ==> (Stream([w] + vs) + tail)[0] == w.line[0]
  {
    assert ([w] + vs)[1..] == vs;
    Reassociate(Terminated(w), Stream(vs), tail);
  }

  lemma CutFront(w: Written, vs: seq<Written>, tail: string)
    requires w.line != []
    ensures (Stream([w] + vs) + tail)[1..] == Stream([Written(w.line[1..], w.crlf)] + vs) + tail
  {
    var cut := Written(w.line[1..], w.crlf);
    StreamFront(w, vs, tail);
    StreamFront(cut, vs, tail);
    WithoutFirst(w.line, if w.crlf then "\r\n" else "\n");
    WithoutFirst(Terminated(w), Stream(vs) + tail);
  }

  lemma WithoutFirst(a: string, b: string)
    requires a != []
    ensures (a + b)[1..] == a[1..] + b
  {}

  lemma FirstLineDiffers(line: string, rest: seq<string>)
    requires line != []
    ensures (if line[1..] != [] then [line[1..]] else []) + rest != [line] + rest
  {
    var short := (if line[1..] != [] then [line[1..]] else []) + rest;
    if line[1..] != [] {
      assert short[0] == line[1..] && |line[1..]| < |line|;
      assert ([line] + rest)[0] == line;
    } else {
      assert |short| < |[line] + rest|;
    }
  }

  datatype Stage = Decoding | Holding | Handing

  /** One stage of a reader that has received these bytes: its decoder, its buffer, its lines. */
  predicate StageInStep(stage: Stage, received: seq<byte>, dec: Utf8.Decoder, buf: string,
                        delivered: seq<string>, queue: seq<string>)
  {
    match stage
    case Decoding => dec == Utf8.Stream(Utf8.NEW, received).1
    case Holding => buf == Lines(Utf8.StreamText(received)).rest
    case Handing => delivered + queue == Lines(Utf8.StreamText(received)).lines
  }

  ghost predicate InStep(received: seq<byte>, dec: Utf8.Decoder, buf: string, delivered: seq<string>,
                         queue: seq<string>)
  {
    forall stage: Stage :: StageInStep(stage, received, dec, buf, delivered, queue)
  }

  lemma InStepMeans(received: seq<byte>, dec: Utf8.Decoder, buf: string, delivered: seq<string>, queue: seq<string>)
    requires InStep(received, dec, buf, delivered, queue)
    ensures dec == Utf8.Stream(Utf8.NEW, received).1
    ensures Lines(Utf8.StreamText(received)) == Parsed(delivered + queue, buf)
  {
    assert StageInStep(Decoding, received, dec, buf, delivered, queue);
    assert StageInStep(Holding, received, dec, buf, delivered, queue);
    assert StageInStep(Handing, received, dec, buf, delivered, queue);
  }

  lemma FreshInStep()
    ensures InStep([], Utf8.NEW, [], [], [])
  {
    NoLine([]);
  }

  /** What is held is no line yet. */
  lemma HeldIsNoLine(received: seq<byte>, dec: Utf8.Decoder, buf: string, delivered: seq<string>, queue: seq<string>)
    requires InStep(received, dec, buf, delivered, queue)
    ensures Lines(buf) == Parsed([], buf)
  {
    InStepMeans(received, dec, buf, delivered, queue);
    LinesOfRest(Utf8.StreamText(received));
  }

  /** One more chunk: its text is appended, and the lines that are complete now are queued. */
  lemma ChunkInStep(received: seq<byte>, dec: Utf8.Decoder, buf: string, delivered: seq<string>, queue: seq<string>,
                    chunk: seq<byte>)
    requires InStep(received, dec, buf, delivered, queue)
    ensures var text := Utf8.Stream(dec, chunk);
            var p := Lines(buf + text.0);
            InStep(received + chunk, text.1, p.rest, delivered, queue + p.lines)
  {
    var text := Utf8.Stream(dec, chunk);
    InStepMeans(received, dec, buf, delivered, queue);
    Utf8.StreamTwice(received, chunk);
    LinesTwice(Utf8.StreamText(received), text.0);
    Reassociate(delivered, queue, Lines(buf + text.0).lines);
  }

  /** Handing queued lines out keeps step. */
  lemma HandedInStep(received: seq<byte>, dec: Utf8.Decoder, buf: string, delivered: seq<string>, queue: seq<string>,
                     delivered': seq<string>, queue': seq<string>)
    requires InStep(received, dec, buf, delivered, queue) && delivered' + queue' == delivered + queue
    ensures InStep(received, dec, buf, delivered', queue')
  {
    InStepMeans(received, dec, buf, delivered, queue);
  }

  class IrcLineReader {
    var dec: Utf8.Decoder
    var buf: string
    var queue: seq<string>
    var closed: bool
    /** Reads of earlier calls that timed out and still wait in the stream: each takes a chunk before any later read. */
    var abandoned: nat
    /** All bytes received, and all lines handed out, since construction. */
    ghost var received: seq<byte>
    ghost var delivered: seq<string>

    ghost predicate Valid()
      reads this
    {
      InStep(received, dec, buf, delivered, queue)
    }

    constructor ()
      ensures Valid() && received == [] && delivered == [] && queue == [] && !closed && abandoned == 0
    {
      dec, buf, queue, closed, abandoned := Utf8.NEW, [], [], false, 0;
      received, delivered := [], [];
      new;
      FreshInStep();
    }

    /** `_drain`: the regular expression is searched from the left, one match at a time. */
    method Drain()
      modifies this`buf, this`queue
      ensures buf == Lines(old(buf)).rest
      ensures queue == old(queue) + Lines(old(buf)).lines
    {
      while true
        invariant queue + Lines(buf).lines == old(queue) + Lines(old(buf)).lines
        invariant Lines(buf).rest == Lines(old(buf)).rest
        decreases |buf|
      {
        var idx := Search(buf);
        if idx == -1 {
          NoLine(buf);
          assert queue + [] == queue;
          return;
        }
        CutAtMatch(buf, idx);
        var line := buf[..idx];
        var next := buf[AfterMatch(buf, idx)..];
        Reassociate(queue, One(line), Lines(next).lines);
        assert queue + [] == queue;
        buf := next;
        if |line| > 0 {
          queue := queue + [line];
        }
      }
    }

    /** The inner loop of `until`: shift queued lines out through the first match. */
    method Shift(pred: string -> bool) returns (matched: Option<string>, seen: seq<string>)
      modifies this`queue, this`delivered
      ensures delivered == old(delivered) + seen && delivered + queue == old(delivered + queue)
      ensures StopsAtFirst(pred, matched, seen) && (matched.None? ==> queue == [])
    {
      matched, seen := None, [];
      while |queue| > 0
        invariant delivered == old(delivered) + seen && delivered + queue == old(delivered + queue)
        invariant StopsAtFirst(pred, None, seen)
        decreases |queue|
      {
        var l := queue[0];
        assert delivered + queue == delivered + [l] + queue[1..];
        StopsLater(pred, seen, if pred(l) then Some(l) else None, [l]);
        queue, delivered, seen := queue[1..], delivered + [l], seen + [l];
        if pred(l) {
          return Some(l), seen;
        }
      }
    }

    /** The beginning of `until`: hand out lines that are already there. */
    method FlushQueue(pred: string -> bool) returns (matched: Option<string>, seen: seq<string>)
      requires Valid()
      modifies this`buf, this`queue, this`delivered
      ensures Valid() && delivered == old(delivered) + seen
      ensures StopsAtFirst(pred, matched, seen) && (matched.None? ==> queue == [])
    {
      HeldIsNoLine(received, dec, buf, delivered, queue);
      Drain();
      assert queue == old(queue) + [];
      matched, seen := Shift(pred);
      HandedInStep(received, dec, buf, old(delivered), old(queue), delivered, queue);
    }

    /** Decode and append one chunk, queue its complete lines and hand lines out through the first match. */
    method Receive(pred: string -> bool, chunk: seq<byte>) returns (matched: Option<string>, seen: seq<string>)
      requires Valid()
      modifies this`dec, this`buf, this`queue, this`received, this`delivered
      ensures Valid() && received == old(received) + chunk && delivered == old(delivered) + seen
      ensures StopsAtFirst(pred, matched, seen) && (matched.None? ==> queue == [])
    {
      ChunkInStep(received, dec, buf, delivered, queue, chunk);
      var decoded := Utf8.Stream(dec, chunk);
      received := received + chunk;
      dec, buf := decoded.1, buf + decoded.0;
      Drain();
      ghost var drained := queue;
      matched, seen := Shift(pred);
      HandedInStep(received, dec, buf, old(delivered), drained, delivered, queue);
    }

    /**
     `until`.  `chunks` are those that the stream hands out from the last one of the calls before until
     this call stops reading, and `outcome` is why it stops when no line matches; `used` says how many were
     handed out.  The first of them, in this call or before it, go to the abandoned reads and are lost; all
     others are received.
     */
    method Until(pred: string -> bool, chunks: seq<seq<byte>>, outcome: Outcome)
      returns (matched: Option<string>, lines: seq<string>, used: nat)
      requires Valid()
      modifies this
      ensures Valid() && used <= |chunks|
      ensures received == old(received)
                          + Flatten(chunks[if old(abandoned) < used then old(abandoned) else used..used])
      ensures delivered == old(delivered) + lines
      ensures StopsAtFirst(pred, matched, lines)
      ensures matched.None? ==> used == |chunks| && queue == []
      ensures closed == (old(closed) || (matched.None? && outcome.Done?))
      ensures abandoned == if matched.None? && outcome.Done? then 0
                           else (if old(abandoned) < used then 0 else old(abandoned) - used)
                                + if matched.None? && outcome.TimedOut? then 1 else 0
    {
      matched, lines := FlushQueue(pred);
      used := 0;
      NothingKeptYet(chunks, abandoned, received);
      if matched.None? {
        matched, lines, used := ReadOn(pred, chunks, lines, old(delivered));
      }
      if matched.None? {
        Stop(outcome);
      }
    }

    /** The reading loop of `until`. */
    method ReadOn(pred: string -> bool, chunks: seq<seq<byte>>, before: seq<string>, ghost start: seq<string>)
      returns (matched: Option<string>, lines: seq<string>, used: nat)
      requires Valid() && queue == [] && delivered == start + before && StopsAtFirst(pred, None, before)
      modifies this`dec, this`buf, this`queue, this`received, this`delivered, this`abandoned
      ensures Valid() && used <= |chunks| && delivered == start + lines
      ensures received == old(received) + KeptBytes(chunks, old(abandoned), used)
      ensures abandoned == old(abandoned) - Lost(old(abandoned), used)
      ensures StopsAtFirst(pred, matched, lines) && (matched.None? ==> used == |chunks| && queue == [])
    {
      matched, lines, used := None, before, 0;
      NothingKeptYet(chunks, abandoned, received);
      while matched.None? && used < |chunks|
        invariant Valid() && used <= |chunks| && delivered == start + lines
        invariant abandoned == old(abandoned) - Lost(old(abandoned), used)
        invariant received == old(received) + KeptBytes(chunks, old(abandoned), used)
        invariant StopsAtFirst(pred, matched, lines) && (matched.None? ==> queue == [])
      {
        OneChunkMore(chunks, old(abandoned), used, old(received));
        matched, lines := Next(pred, chunks[used], lines, start);
        used := used + 1;
      }
    }

    /** The stream hands out one chunk: to the oldest abandoned read if there is one, else to this call. */
    method Next(pred: string -> bool, chunk: seq<byte>, before: seq<string>, ghost start: seq<string>)
      returns (matched: Option<string>, seen: seq<string>)
      requires Valid() && queue == [] && delivered == start + before && StopsAtFirst(pred, None, before)
      modifies this`dec, this`buf, this`queue, this`received, this`delivered, this`abandoned
      ensures Valid() && delivered == start + seen
      ensures received == old(received) + if old(abandoned) > 0 then [] else chunk
      ensures abandoned == old(abandoned) - if old(abandoned) > 0 then 1 else 0
      ensures StopsAtFirst(pred, matched, seen) && (matched.None? ==> queue == [])
    {
      matched, seen := None, before;
      if abandoned > 0 {
        abandoned := abandoned - 1;
        assert received + [] == received;
      } else {
        var more;
        matched, more := Receive(pred, chunk);
        StopsLater(pred, before, matched, more);
        Reassociate(start, before, more);
        seen := seen + more;
      }
    }

    method Stop(outcome: Outcome)
      modifies this`closed, this`abandoned
      ensures closed == (old(closed) || outcome.Done?)
      ensures abandoned == if outcome.Done? then 0 else old(abandoned) + if outcome.TimedOut? then 1 else 0
    {
      match outcome {
        case Done => closed, abandoned := true, 0;
        case TimedOut => abandoned := abandoned + 1;
        case Expired =>
      }
    }
  }

  /**
   Why a call stops without a match: the stream is done, the timer won the race against a read that
   goes on waiting, or the deadline had passed before another read began.
   */
  datatype Outcome = Done | TimedOut | Expired

  /** How many of the chunks handed out go to abandoned reads. */
  function Lost(abandoned: nat, used: nat): nat {
    if abandoned < used then abandoned else used
  }

  /** The bytes of the chunks that go to the calls themselves. */
  function KeptBytes(chunks: seq<seq<byte>>, abandoned: nat, used: nat): seq<byte>
    requires used <= |chunks|
  {
    Flatten(chunks[Lost(abandoned, used)..used])
  }

  lemma NothingKeptYet(chunks: seq<seq<byte>>, abandoned: nat, before: seq<byte>)
    ensures before + KeptBytes(chunks, abandoned, 0) == before
  {
    assert chunks[0..0] == [];
  }

  lemma OneChunkMore(chunks: seq<seq<byte>>, abandoned: nat, used: nat, before: seq<byte>)
    requires used < |chunks|
    ensures before + KeptBytes(chunks, abandoned, used + 1)
            == before + KeptBytes(chunks, abandoned, used) + if abandoned > used then [] else chunks[used]
  {
    var lost, now := Lost(abandoned, used), KeptBytes(chunks, abandoned, used);
    if abandoned > used {
      assert chunks[used..used] == chunks[used + 1..used + 1] == [];
      assert before + now + [] == before + now;
    } else {
      var parts := chunks[lost..];
      FlattenLast(parts, used - lost);
      assert parts[..used - lost + 1] == chunks[lost..used + 1] && parts[..used - lost] == chunks[lost..used];
      Reassociate(before, now, chunks[used]);
    }
  }

  /**
   Nothing that is handed out gets lost in a call if and only if no read was abandoned before it; a
   call that hands out at least one non-empty chunk shows the difference.
   */
  lemma NothingLostIff(chunks: seq<seq<byte>>, abandoned: nat, used: nat)
    requires 0 < used <= |chunks| && forall i :: 0 <= i < |chunks| ==> chunks[i] != []
    ensures KeptBytes(chunks, abandoned, used) == Flatten(chunks[..used]) <==> abandoned == 0
  {
    var lost := Lost(abandoned, used);
    assert chunks[..used] == chunks[..lost] + chunks[lost..used];
    FlattenAppend(chunks[..lost], chunks[lost..used]);
    if lost > 0 {
      assert chunks[..lost][0] == chunks[0];
      assert |Flatten(chunks[..lost])| >= |chunks[0]| > 0;
    } else {
      assert chunks[..used] == chunks[0..used];
    }
  }

  lemma NothingSeen(dec: Utf8.Decoder, buf: string, delivered: seq<string>, queue: seq<string>)
    requires InStep([], dec, buf, delivered, queue)
    ensures delivered == [] && queue == []
  {
    InStepMeans([], dec, buf, delivered, queue);
    NoLine([]);
  }

  /** A reader whose first call has timed out before anything arrived. */
  method TimedOutReader(pred: string -> bool) returns (reader: IrcLineReader)
    ensures fresh(reader) && reader.Valid() && reader.received == [] && reader.abandoned == 1
  {
    reader := new IrcLineReader();
    var matched, lines, used := reader.Until(pred, [], TimedOut);
    NothingSeen(reader.dec, reader.buf, reader.delivered, reader.queue);
  }

  /** A chunk that arrives after a timed-out call is never seen by the next call, whatever lines it holds. */
  method ChunkAfterTimeout(pred: string -> bool, chunk: seq<byte>) returns (lines: seq<string>)
    ensures lines == []
  {
    var reader := TimedOutReader(pred);
    var matched, used;
    matched, lines, used := reader.Until(pred, [chunk], Expired);
    AllLost(chunk, used);
    NothingSeen(reader.dec, reader.buf, reader.delivered, reader.queue);
  }

  lemma AllLost(chunk: seq<byte>, used: nat)
    requires used <= 1
    ensures [] + KeptBytes([chunk], 1, used) == []
  {
    assert [chunk][used..used] == [];
  }
}
