/**
 The announce bot as the object it is: fields updated in place by one method per source method.  Every
 method keeps the object in agreement with its log, from which the promises follow, and the methods of
 the read loop perform exactly the runs that the session model speaks about.
 */
module AnnounceBot {
  import opened Collections
  import opened Framing
  import opened Bytes
  import opened Session
  import Replies
  import Utf8

  // ----- CRLF lines out of received data ------------------------------------------------------------

  const CR: byte := 13
  const LF: byte := 10

  /** The end of the line at the front: just past the first CR LF. */
  function CrlfUnit(b: seq<byte>): (r: Option<nat>)
    ensures r.Some? ==> 2 <= r.value <= |b|
  {
    if |b| < 2 then None
    else if b[0] == CR && b[1] == LF then Some(2)
    else
      match CrlfUnit(b[1..])
      case None => None
      case Some(n) => Some(n + 1)
  }

  /** It is the first CR LF, and nothing before it is mistaken for one. */
  lemma {:induction false} CrlfUnitIsFirst(b: seq<byte>, n: nat)
    ensures CrlfUnit(b) == Some(n + 2)
            <==> n + 2 <= |b| && b[n] == CR && b[n + 1] == LF
                 && forall i :: 0 <= i < n ==> !(b[i] == CR && b[i + 1] == LF)
    decreases |b|
  {
    if |b| >= 2 && !(b[0] == CR && b[1] == LF) && n > 0 {
      CrlfUnitIsFirst(b[1..], n - 1);
      assert forall i :: 1 <= i < |b| ==> b[i] == b[1..][i - 1];
    }
  }

  lemma {:induction false} CrlfStable(b: seq<byte>, c: seq<byte>)
    requires CrlfUnit(b).Some?
    ensures CrlfUnit(b + c) == CrlfUnit(b)
  {
    if !(b[0] == CR && b[1] == LF) {
      assert (b + c)[1..] == b[1..] + c;
      CrlfStable(b[1..], c);
    }
  }

  lemma {:induction false} CrlfLocal(b: seq<byte>)
    requires CrlfUnit(b).Some?
    ensures CrlfUnit(b[..CrlfUnit(b).value]) == CrlfUnit(b)
  {
    if !(b[0] == CR && b[1] == LF) {
      assert b[..CrlfUnit(b).value][1..] == b[1..][..CrlfUnit(b).value - 1];
      CrlfLocal(b[1..]);
    }
  }

  lemma CrlfFramer()
    ensures Framer(CrlfUnit)
  {
    forall b: seq<byte>, c: seq<byte> {:trigger CrlfUnit(b + c)} | CrlfUnit(b).Some?
      ensures CrlfUnit(b + c) == CrlfUnit(b)
    {
      CrlfStable(b, c);
    }
    forall b: seq<byte> {:trigger CrlfUnit(b)} | CrlfUnit(b).Some?
      ensures CrlfUnit(b[..CrlfUnit(b).value]) == CrlfUnit(b)
    {
      CrlfLocal(b);
    }
  }

  function WithoutCrlf(u: seq<byte>): seq<byte> {
    if |u| < 2 then [] else u[..|u| - 2]
  }

  /** The line that a unit holds; each is decoded on its own. */
  function TextOf(u: seq<byte>): string {
    Utf8.Decode(WithoutCrlf(u))
  }

  datatype Received = Received(lines: seq<string>, buf: seq<byte>)

  /** The complete lines of a byte stream, and the unfinished one. */
  function ReceivedLines(stream: seq<byte>): Received {
    CrlfFramer();
    var p := Peel(CrlfUnit, stream);
    Received(Map(TextOf, p.units), p.rest)
  }

  /** Splitting what has arrived, and later what was held with the rest, is splitting all at once. */
  lemma SplitTwice(a: seq<byte>, b: seq<byte>)
    ensures var late := ReceivedLines(ReceivedLines(a).buf + b);
            ReceivedLines(a + b) == Received(ReceivedLines(a).lines + late.lines, late.buf)
  {
    CrlfFramer();
    PeelTwice(CrlfUnit, a, b);
    var early := Peel(CrlfUnit, a);
    MapAppend(TextOf, early.units, Peel(CrlfUnit, early.rest + b).units);
  }

  lemma FirstLine(b: seq<byte>, n: nat)
    requires 2 <= n <= |b|
    ensures WithoutCrlf(b[..n]) == b[..n - 2]
  {
    assert b[..n][..n - 2] == b[..n - 2];
  }

  lemma ReceivedStep(b: seq<byte>)
    ensures match CrlfUnit(b)
            case None => ReceivedLines(b) == Received([], b)
            case Some(n) => var more := ReceivedLines(b[n..]);
                            ReceivedLines(b) == Received([Utf8.Decode(b[..n - 2])] + more.lines, more.buf)
  {
    CrlfFramer();
    if CrlfUnit(b).Some? {
      var n := CrlfUnit(b).value;
      var us := Peel(CrlfUnit, b[n..]).units;
      MapCons(TextOf, b[..n], us);
      FirstLine(b, n);
    }
  }

  // ----- Written lines are the lines received --------------------------------------------------------

  /** The text holds no CR LF. */
  predicate OneLine(t: string) {
    forall i :: 0 <= i < |t| - 1 ==> !(t[i] == '\r' && t[i + 1] == '\n')
  }

  function Terminated(t: string): seq<byte> {
    Utf8.Encode(t) + [CR, LF]
  }

  lemma {:induction false} NoCrAhead(p: seq<byte>, rest: seq<byte>)
    requires forall i :: 0 <= i < |p| ==> p[i] != CR
    ensures CrlfUnit(p + rest) == match CrlfUnit(rest) case None => None case Some(n) => Some(|p| + n)
  {
    if p == [] {
      PrependNothing(rest);
    } else {
      assert (p + rest)[0] == p[0] && (p + rest)[1..] == p[1..] + rest;
      NoCrAhead(p[1..], rest);
    }
  }

  lemma LateBytesHigh(c: char)
    ensures c as int >= 0x80 ==> forall b :: b in Utf8.EncodeChar(c) ==> b >= 0x80
  {}

  lemma OneLineOn(t: string)
    requires OneLine(t) && t != []
    ensures OneLine(t[1..]) && (t[0] == '\r' && t[1..] != [] ==> t[1..][0] != '\n')
  {
    var rest := t[1..];
    forall i | 0 <= i < |rest| - 1
      ensures !(rest[i] == '\r' && rest[i + 1] == '\n')
    {
      assert rest[i] == t[i + 1];
    }
  }

  /** An encoded line ends at its own CR LF. */
  lemma {:induction false} TerminatedIsUnit(t: string)
    requires OneLine(t)
    ensures CrlfUnit(Terminated(t)) == Some(|Terminated(t)|)
  {
    if t == [] {
      PrependNothing([CR, LF]);
    } else {
      var p, rest := Utf8.EncodeChar(t[0]), Terminated(t[1..]);
      Reassociate(p, Utf8.Encode(t[1..]), [CR, LF]);
      OneLineOn(t);
      TerminatedIsUnit(t[1..]);
      if t[0] == '\r' {
        FirstByte(t[1..]);
        assert (p + rest)[0] == CR && (p + rest)[1..] == rest && (p + rest)[1] == rest[0];
      } else {
        LateBytesHigh(t[0]);
        NoCrAhead(p, rest);
      }
    }
  }

  /** Behind a CR inside a line there is no LF. */
  lemma FirstByte(t: string)
    requires t == [] || t[0] != '\n'
    ensures Terminated(t)[0] != LF
  {
    if t == [] {
      PrependNothing([CR, LF]);
    } else {
      LateBytesHigh(t[0]);
      assert Terminated(t)[0] == Utf8.EncodeChar(t[0])[0];
    }
  }

  lemma {:induction false} UnitTexts(ts: seq<string>)
    ensures Map(TextOf, Map(Terminated, ts)) == ts
  {
    if ts != [] {
      UnitTexts(ts[1..]);
      MapCons(TextOf, Terminated(ts[0]), Map(Terminated, ts[1..]));
      assert WithoutCrlf(Terminated(ts[0])) == Utf8.Encode(ts[0]);
      Utf8.DecodeEncoded(ts[0]);
    }
  }

  lemma UnitsComplete(ts: seq<string>, u: seq<byte>)
    requires forall i :: 0 <= i < |ts| ==> OneLine(ts[i])
    requires u in Map(Terminated, ts)
    ensures Complete(CrlfUnit, u)
  {
    var i :| 0 <= i < |ts| && Map(Terminated, ts)[i] == u;
    TerminatedIsUnit(ts[i]);
  }

  /** Any texts without CR LF, encoded and terminated, are received as those lines, with nothing left over. */
  lemma WrittenLinesReceived(ts: seq<string>)
    requires forall i :: 0 <= i < |ts| ==> OneLine(ts[i])
    ensures ReceivedLines(Flatten(Map(Terminated, ts))) == Received(ts, [])
  {
    var units := Map(Terminated, ts);
    CrlfFramer();
    forall u | u in units
      ensures Complete(CrlfUnit, u)
    {
      UnitsComplete(ts, u);
    }
    PeelInvertsConcatenation(CrlfUnit, units, []);
    assert Flatten(units) + [] == Flatten(units);
    UnitTexts(ts);
  }

  // ----- The events of the read loop -------------------------------------------------------------------

  /**
   What one pass of the loop meets: `data` is None when nothing was readable and empty at end of
   stream; `replies` is the reaction to each line, `effects` what the rest of the pass announces.
   */
  datatype Tick = Tick(data: Option<seq<byte>>, rxAt: real, replies: seq<seq<Effect>>, tested: real, stamped: real,
                       now: real, effects: seq<Effect>)

  function Arrived(t: Tick): seq<byte> {
    if t.data.Some? then t.data.value else []
  }

  function FirstReply(replies: seq<seq<Effect>>): seq<Effect> {
    if replies == [] then [] else replies[0]
  }

  function OtherReplies(replies: seq<seq<Effect>>): seq<seq<Effect>> {
    if replies == [] then [] else replies[1..]
  }

  function LineEvents(lines: seq<string>, replies: seq<seq<Effect>>): seq<Event>
    decreases |lines|
  {
    if lines == [] then []
    else [Line(lines[0], FirstReply(replies))] + LineEvents(lines[1..], OtherReplies(replies))
  }

  /** Data behind the unfinished line `buf`. */
  function ReadEvents(buf: seq<byte>, data: seq<byte>, at: real, replies: seq<seq<Effect>>): seq<Event> {
    [Receive(at)] + LineEvents(ReceivedLines(buf + data).lines, replies)
  }

  /** The end of a pass. */
  function EndEvents(t: Tick): seq<Event> {
    [Pump(t.tested, t.stamped), Check(t.now, t.effects)]
  }

  function TickEvents(buf: seq<byte>, t: Tick): seq<Event> {
    if t.data == Some([]) then [Lost]
    else (if t.data.Some? then ReadEvents(buf, t.data.value, t.rxAt, t.replies) else [])
         + EndEvents(t)
  }

  function LoopEvents(buf: seq<byte>, ticks: seq<Tick>): seq<Event>
    decreases |ticks|
  {
    if ticks == [] then []
    else TickEvents(buf, ticks[0]) + LoopEvents(ReceivedLines(buf + Arrived(ticks[0])).buf, ticks[1..])
  }

  /** One connection: the readings of `connect` and of the head of `loop`, and the passes of the loop. */
  datatype Connection = Connection(at: real, rxAt: real, kaAt: real, ticks: seq<Tick>)

  function ConnectionEvents(c: Connection): seq<Event> {
    [Connect(c.at, c.rxAt, c.kaAt)] + LoopEvents([], c.ticks)
  }

  function LifeEvents(connections: seq<Connection>): seq<Event> {
    if connections == [] then [] else ConnectionEvents(connections[0]) + LifeEvents(connections[1..])
  }

  /** Each line comes with its reply, in order. */
  lemma {:induction false} LineEventsAt(lines: seq<string>, replies: seq<seq<Effect>>, i: nat)
    requires i < |lines|
    ensures |LineEvents(lines, replies)| == |lines|
    ensures LineEvents(lines, replies)[i] == Line(lines[i], if i < |replies| then replies[i] else [])
    decreases |lines|
  {
    if |lines| > 1 {
      LineEventsAt(lines[1..], OtherReplies(replies), if i == 0 then 0 else i - 1);
    }
  }

  /**
   A pass of the loop in order: end of stream is a lost connection; otherwise data are stamped and their
   lines handled, then one queued line may go out, then come the checks.
   */
  lemma PassInOrder(buf: seq<byte>, t: Tick)
    ensures match t.data
            case None => TickEvents(buf, t) == [Pump(t.tested, t.stamped), Check(t.now, t.effects)]
            case Some(d) =>
              TickEvents(buf, t)
              == if d == [] then [Lost]
                 else [Receive(t.rxAt)] + LineEvents(ReceivedLines(buf + d).lines, t.replies)
                      + [Pump(t.tested, t.stamped), Check(t.now, t.effects)]
  {
    PrependNothing(EndEvents(t));
  }

  /** The lines that a run handles. */
  function LinesOf(es: seq<Event>): seq<string> {
    if es == [] then [] else (if es[0].Line? then [es[0].text] else []) + LinesOf(es[1..])
  }

  lemma {:induction false} LinesOfAppend(x: seq<Event>, y: seq<Event>)
    ensures LinesOf(x + y) == LinesOf(x) + LinesOf(y)
  {
    if x == [] {
      PrependNothing(y);
      PrependNothing(LinesOf(y));
    } else {
      assert (x + y)[1..] == x[1..] + y;
      LinesOfAppend(x[1..], y);
      Reassociate(if x[0].Line? then [x[0].text] else [], LinesOf(x[1..]), LinesOf(y));
    }
  }

  /** The line at the front of a buffer that holds a CR LF, and what follows it. */
  function FrontLine(buf: seq<byte>): string
    requires CrlfUnit(buf).Some?
  {
    Utf8.Decode(buf[..CrlfUnit(buf).value - 2])
  }

  function BehindFront(buf: seq<byte>): seq<byte>
    requires CrlfUnit(buf).Some?
  {
    buf[CrlfUnit(buf).value..]
  }

  /** The first line of the buffer is the first to be handled. */
  lemma FirstComes(buf: seq<byte>, replies: seq<seq<Effect>>)
    requires CrlfUnit(buf).Some?
    ensures var later := ReceivedLines(BehindFront(buf));
            && ReceivedLines(buf) == Received([FrontLine(buf)] + later.lines, later.buf)
            && LineEvents(ReceivedLines(buf).lines, replies)
               == [Line(FrontLine(buf), FirstReply(replies))] + LineEvents(later.lines, OtherReplies(replies))
  {
    ReceivedStep(buf);
    var line, later := FrontLine(buf), ReceivedLines(BehindFront(buf)).lines;
    assert ([line] + later)[0] == line && ([line] + later)[1..] == later;
  }

  /** One part of saying that handling the lines of the buffer leads to `goal`. */
  predicate PartToGo(part: Part, cfg: Config, m: Moment, buf: seq<byte>, todo: seq<seq<Effect>>, goal: Moment) {
    PartLeads(part, cfg, m, LineEvents(ReceivedLines(buf).lines, todo), goal)
  }

  ghost predicate ToGo(cfg: Config, m: Moment, buf: seq<byte>, todo: seq<seq<Effect>>, goal: Moment) {
    forall part: Part :: PartToGo(part, cfg, m, buf, todo, goal)
  }

  lemma ToGoMeans(cfg: Config, m: Moment, buf: seq<byte>, todo: seq<seq<Effect>>, goal: Moment)
    ensures ToGo(cfg, m, buf, todo, goal) <==> Leads(cfg, m, LineEvents(ReceivedLines(buf).lines, todo), goal)
  {
    var es := LineEvents(ReceivedLines(buf).lines, todo);
    assert forall part: Part :: PartToGo(part, cfg, m, buf, todo, goal) <==> PartLeads(part, cfg, m, es, goal);
  }

  lemma FirstIsNext(cfg: Config, m: Moment, buf: seq<byte>, todo: seq<seq<Effect>>, goal: Moment)
    requires CrlfUnit(buf).Some? && ToGo(cfg, m, buf, todo, goal)
    ensures Possible(m.state, m.clock, Line(FrontLine(buf), FirstReply(todo)))
  {
    ToGoMeans(cfg, m, buf, todo, goal);
    FirstComes(buf, todo);
    var coming := LineEvents(ReceivedLines(BehindFront(buf)).lines, OtherReplies(todo));
    FirstIsPossible(cfg, m, Line(FrontLine(buf), FirstReply(todo)), coming, goal);
  }

  /** Once it has been handled, what is left of the run is that of the lines behind it. */
  lemma FirstIsDone(cfg: Config, m: Moment, buf: seq<byte>, todo: seq<seq<Effect>>, mid: Moment, goal: Moment)
    requires CrlfUnit(buf).Some? && ToGo(cfg, m, buf, todo, goal)
    requires Leads(cfg, m, [Line(FrontLine(buf), FirstReply(todo))], mid)
    ensures ToGo(cfg, mid, BehindFront(buf), OtherReplies(todo), goal)
  {
    ToGoMeans(cfg, m, buf, todo, goal);
    FirstComes(buf, todo);
    var coming := LineEvents(ReceivedLines(BehindFront(buf)).lines, OtherReplies(todo));
    LeadsOn(cfg, m, [Line(FrontLine(buf), FirstReply(todo))], mid, coming, goal);
    ToGoMeans(cfg, mid, BehindFront(buf), OtherReplies(todo), goal);
  }

  datatype Half = Split | Remaining

  /** One half of saying that the stream's lines are those handled, then those of the buffer. */
  predicate HalfSplit(half: Half, stream: seq<byte>, handled: seq<string>, buf: seq<byte>) {
    match half
    case Split => ReceivedLines(stream).lines == handled + ReceivedLines(buf).lines
    case Remaining => ReceivedLines(stream).buf == ReceivedLines(buf).buf
  }

  ghost predicate SplitSoFar(stream: seq<byte>, handled: seq<string>, buf: seq<byte>) {
    forall half: Half :: HalfSplit(half, stream, handled, buf)
  }

  /** So it is when only the unfinished line is held, and more data has been appended to both. */
  lemma SplitAfterMore(stream: seq<byte>, handled: seq<string>, buf: seq<byte>, data: seq<byte>)
    requires ReceivedLines(stream) == Received(handled, buf)
    ensures SplitSoFar(stream + data, handled, buf + data)
  {
    SplitTwice(stream, data);
  }

  /** Moving the first line from the buffer to the handled lines keeps it so. */
  lemma FirstMoves(stream: seq<byte>, handled: seq<string>, buf: seq<byte>)
    requires CrlfUnit(buf).Some? && SplitSoFar(stream, handled, buf)
    ensures SplitSoFar(stream, handled + [FrontLine(buf)], BehindFront(buf))
  {
    assert HalfSplit(Split, stream, handled, buf) && HalfSplit(Remaining, stream, handled, buf);
    FirstComes(buf, []);
    Reassociate(handled, [FrontLine(buf)], ReceivedLines(BehindFront(buf)).lines);
  }

  /** When no complete line is left, the handled lines are all, and the buffer is the unfinished one. */
  lemma SplitIsDone(stream: seq<byte>, handled: seq<string>, buf: seq<byte>)
    requires CrlfUnit(buf).None? && SplitSoFar(stream, handled, buf)
    ensures ReceivedLines(stream) == Received(handled, buf)
  {
    assert HalfSplit(Split, stream, handled, buf) && HalfSplit(Remaining, stream, handled, buf);
    assert handled + [] == handled;
    ReceivedStep(buf);
  }

  lemma {:induction false} LinesOfLines(lines: seq<string>, replies: seq<seq<Effect>>)
    ensures LinesOf(LineEvents(lines, replies)) == lines
    decreases |lines|
  {
    if lines != [] {
      var es := LineEvents(lines[1..], OtherReplies(replies));
      assert ([Line(lines[0], FirstReply(replies))] + es)[1..] == es;
      LinesOfLines(lines[1..], OtherReplies(replies));
    }
  }

  lemma LinesOfTick(buf: seq<byte>, t: Tick)
    requires CrlfUnit(buf).None?
    ensures LinesOf(TickEvents(buf, t)) == ReceivedLines(buf + Arrived(t)).lines
  {
    if t.data.None? || t.data.value == [] {
      assert buf + [] == buf;
      ReceivedStep(buf);
      PrependNothing(EndEvents(t));
      LinesOfEnd(t);
      assert LinesOf([Lost]) == LinesOf([Lost][1..]) == [];
    } else {
      LinesOfRead(buf, t.data.value, t.rxAt, t.replies);
      LinesOfAppend(ReadEvents(buf, t.data.value, t.rxAt, t.replies), EndEvents(t));
      LinesOfEnd(t);
      var lines := ReceivedLines(buf + t.data.value).lines;
      assert lines + [] == lines;
    }
  }

  lemma LinesOfEnd(t: Tick)
    ensures LinesOf(EndEvents(t)) == []
  {
    var es := EndEvents(t);
    assert LinesOf(es[1..]) == LinesOf(es[1..][1..]) == [];
  }

  lemma LinesOfRead(buf: seq<byte>, data: seq<byte>, at: real, replies: seq<seq<Effect>>)
    ensures LinesOf(ReadEvents(buf, data, at, replies)) == ReceivedLines(buf + data).lines
  {
    var lines := ReceivedLines(buf + data).lines;
    var es := LineEvents(lines, replies);
    assert ([Receive(at)] + es)[1..] == es;
    LinesOfLines(lines, replies);
    PrependNothing(lines);
  }

  lemma BufIncomplete(b: seq<byte>)
    ensures CrlfUnit(ReceivedLines(b).buf).None?
  {
    CrlfFramer();
    assert CrlfUnit(Peel(CrlfUnit, b).rest) == None;
  }

  /**
   The lines handled by a whole run of the loop are those of the stream: idle passes, the sizes of the
   reads and cuts inside a line or inside its CR LF make no difference.
   */
  lemma {:induction false} ReadsDoNotMatter(buf: seq<byte>, ticks: seq<Tick>)
    requires CrlfUnit(buf).None?
    ensures LinesOf(LoopEvents(buf, ticks)) == ReceivedLines(buf + Flatten(Map(Arrived, ticks))).lines
    decreases |ticks|
  {
    if ticks == [] {
      assert buf + [] == buf;
      ReceivedStep(buf);
    } else {
      var now, later := Arrived(ticks[0]), Flatten(Map(Arrived, ticks[1..]));
      var held := ReceivedLines(buf + now).buf;
      BufIncomplete(buf + now);
      LinesOfTick(buf, ticks[0]);
      ReadsDoNotMatter(held, ticks[1..]);
      LinesOfAppend(TickEvents(buf, ticks[0]), LoopEvents(held, ticks[1..]));
      SplitTwice(buf + now, later);
      FlattenCons(now, Map(Arrived, ticks[1..]));
      Reassociate(buf, now, later);
    }
  }

  // ----- The bot ------------------------------------------------------------------------------------------

  class Bot {
    const cfg: Config
    var alive: bool
    var nick: string
    var caps: set<string>
    var capLs: set<string>
    var capEnded: bool
    var connectTs: real
    var saslActive: bool
    var registered: bool
    var joined: bool
    var outq: seq<string>
    var lastSend: real
    var lastRx: real
    var lastKeepalive: real
    var buf: seq<byte>
    /** Everything observable so far, and the last clock reading. */
    ghost var log: seq<Out>
    ghost var clock: real
    /** What this connection has received, and the lines handled of it. */
    ghost var stream: seq<byte>
    ghost var handled: seq<string>

    ghost function View(): BotState
      reads this
    {
      BotState(alive, nick, caps, capLs, capEnded, connectTs, saslActive, registered, joined, outq,
               lastSend, lastRx, lastKeepalive)
    }

    ghost function Now(): Moment
      reads this
    {
      Moment(View(), log, clock)
    }

    /** The bot agrees with everything it has said and heard. */
    ghost predicate Sound()
      reads this
    {
      Inv(View(), log, clock)
    }

    /** And it has handled exactly the complete lines of the stream, and holds the unfinished one. */
    ghost predicate Valid()
      reads this
    {
      Sound() && ReceivedLines(stream) == Received(handled, buf)
    }

    constructor (cfg: Config)
      ensures this.cfg == cfg && Now() == Moment(Initial(cfg), [], 0.0)
      ensures Valid() && stream == [] && handled == []
    {
      this.cfg := cfg;
      alive, nick, caps, capLs, capEnded, connectTs := false, cfg.nick, {}, {}, false, 0.0;
      saslActive, registered, joined, outq := false, false, false, [];
      lastSend, lastRx, lastKeepalive := 0.0, 0.0, 0.0;
      buf, log, clock, stream, handled := [], [], 0.0, [], [];
      new;
      FreshStart(cfg);
      ReceivedStep([]);
    }

    // ----- Sending -----

    /** `send_raw` of a line the bot built. */
    method SendRaw(line: string)
      requires Sound()
      modifies this`log
      ensures Sound() && log == old(log) + [Sent(line)]
    {
      EntryKeepsInv(View(), log, Sent(line), View(), clock);
      log := log + [Sent(line)];
    }

    /** `enqueue`: the line waits behind all others. */
    method EnqueueLine(line: string)
      requires Sound()
      modifies this`outq, this`log
      ensures Sound() && outq == old(outq) + [line] && log == old(log) + [Enqueued(line)]
    {
      outq := outq + [line];
      log := log + [Enqueued(line)];
      EntryKeepsInv(old(View()), old(log), Enqueued(line), View(), clock);
    }

    /**
     `channel_say(..., immediate=True)`: goes out at once, ahead of the queue, which it leaves alone.  No
     send is stamped later than this one, so the next queued line will keep its distance from it too.
     */
    method SayNow(line: string, at: real)
      requires Sound() && clock <= at
      modifies this`lastSend, this`clock, this`log
      ensures Sound() && clock == at && lastSend == at && log == old(log) + [Said(line, at)]
      ensures StampsBy(log, lastSend) && Paced(log)
      ensures Enqueues(log) == old(Enqueues(log)) && Drains(log) == old(Drains(log))
    {
      LaterClock(View(), log, clock, at);
      clock, lastSend := at, at;
      log := log + [Said(line, at)];
      LogEntry(old(log), Said(line, at));
      EntryKeepsInv(old(View()), old(log), Said(line, at), View(), clock);
      assert Kept(Paces, View(), log, clock);
    }

    method PerformOne(e: Effect)
      requires Sound() && (e.Say? ==> clock <= e.at)
      modifies this`outq, this`lastSend, this`clock, this`log
      ensures Sound() && clock == if e.Say? then e.at else old(clock)
      ensures View() == DoEffect(old(View()), e).state && log == old(log) + DoEffect(old(View()), e).outs
    {
      match e {
        case Queue(line) => EnqueueLine(line);
        case Say(line, at) => SayNow(line, at);
        case Raw(line) => SendRaw(line);
      }
    }

    /** What the commands, announcements and topic refreshes amount to. */
    method Perform(effects: seq<Effect>)
      requires Sound() && InOrder(clock, effects)
      modifies this`outq, this`lastSend, this`clock, this`log
      ensures Sound() && clock == ClockAfter(old(clock), effects)
      ensures View() == DoEffects(old(View()), effects).state
      ensures log == old(log) + DoEffects(old(View()), effects).outs
    {
      ghost var goal := DoEffects(View(), effects);
      assert effects[0..] == effects;
      for i := 0 to |effects|
        invariant Sound() && InOrder(clock, effects[i..])
        invariant ClockAfter(clock, effects[i..]) == ClockAfter(old(clock), effects)
        invariant DoEffects(View(), effects[i..]).state == goal.state
        invariant log + DoEffects(View(), effects[i..]).outs == old(log) + goal.outs
      {
        assert effects[i..][1..] == effects[i + 1..];
        ghost var first := DoEffect(View(), effects[i]);
        Reassociate(log, first.outs, DoEffects(first.state, effects[i + 1..]).outs);
        PerformOne(effects[i]);
      }
      assert effects[|effects|..] == [];
      assert log + [] == log;
    }

    /**
     `pump_out`: sends the oldest waiting line when the interval since the last send has passed.  What
     was sent so far and what still waits are together the lines enqueued, before and after.
     */
    method Pump(tested: real, stamped: real)
      requires Sound() && alive && clock <= tested <= stamped
      modifies this`outq, this`lastSend, this`clock, this`log
      ensures Sound() && Paced(log)
      ensures Enqueues(log) == old(Enqueues(log)) && Drains(log) + outq == Enqueues(log)
      ensures |outq| == |old(outq)| - if old(outq) != [] && tested - old(lastSend) >= SEND_INTERVAL then 1 else 0
      ensures Leads(cfg, old(Now()), [Event.Pump(tested, stamped)], Now())
    {
      LaterClock(View(), log, clock, stamped);
      clock := stamped;
      if outq != [] && tested - lastSend >= SEND_INTERVAL {
        SendFirst(tested, stamped);
      } else {
        assert log + [] == log;
      }
      PumpLeads(cfg, old(Now()), tested, stamped, Now());
      QueuePromise(View(), log, clock);
    }

    method SendFirst(ghost tested: real, stamped: real)
      requires Sound() && outq != [] && tested - lastSend >= SEND_INTERVAL && tested <= stamped <= clock
      modifies this`outq, this`lastSend, this`log
      ensures Sound() && outq == old(outq)[1..] && lastSend == stamped
      ensures log == old(log) + [Drained(old(outq)[0], tested, stamped)]
      ensures Enqueues(log) == old(Enqueues(log))
    {
      ghost var sent := Drained(outq[0], tested, stamped);
      outq := outq[1..];
      lastSend := stamped;
      log := log + [sent];
      LogEntry(old(log), sent);
      EntryKeepsInv(old(View()), old(log), sent, View(), clock);
    }

    // ----- Negotiation -----

    /** `cap_end`: afterwards this connection has seen exactly one CAP END, now or before. */
    method CapEndOnce()
      requires Sound()
      modifies this`capEnded, this`log
      ensures Sound() && capEnded && CapEnds(log) == 1
      ensures log == old(log) + if old(capEnded) then [] else [CapEnd]
    {
      NegotiationPromise(View(), log, clock);
      assert log + [] == log;
      if !capEnded {
        capEnded := true;
        log := log + [CapEnd];
        EntryKeepsInv(old(View()), old(log), CapEnd, View(), clock);
        NegotiationPromise(View(), log, clock);
      }
    }

    /**
     `handle_cap` for LS: an unfinished offer is remembered and not answered; the end of the offer is
     answered once, by a request for what is worth asking for in all of it, or by the end of negotiation.
     */
    method HandleCapLs(more: bool, offered: seq<string>)
      requires Sound()
      modifies this`capLs, this`capEnded, this`log
      ensures Sound() && capLs == old(capLs) + CapNames(offered)
      ensures more ==> log == old(log) && capEnded == old(capEnded)
      ensures !more && Tempts(cfg, capLs) ==>
          && capEnded == old(capEnded) && log == old(log) + [CapReq(Sorted(Wanted(cfg, capLs)))]
          && Requests(cfg, capLs, log[|old(log)|])
      ensures !more && !Tempts(cfg, capLs) ==>
          capEnded && CapEnds(log) == 1 && log == old(log) + if old(capEnded) then [] else [CapEnd]
    {
      capLs := capLs + CapNames(offered);
      OtherFields(old(View()), log, clock, View());
      if more {
        return;
      }
      AnswerOffer();
    }

    /** The answer to all that was offered. */
    method AnswerOffer()
      requires Sound()
      modifies this`capEnded, this`log
      ensures Sound()
      ensures Tempts(cfg, capLs) ==>
          && capEnded == old(capEnded) && log == old(log) + [CapReq(Sorted(Wanted(cfg, capLs)))]
          && Requests(cfg, capLs, log[|old(log)|])
      ensures !Tempts(cfg, capLs) ==>
          capEnded && CapEnds(log) == 1 && log == old(log) + if old(capEnded) then [] else [CapEnd]
    {
      RequestNames(cfg, capLs);
      var want := WANT_CAPS * capLs;
      if cfg.sasl && "sasl" in capLs {
        want := want + {"sasl"};
      }
      assert want == Wanted(cfg, capLs);
      if want != {} {
        EntryKeepsInv(View(), log, CapReq(Sorted(want)), View(), clock);
        log := log + [CapReq(Sorted(want))];
      } else {
        CapEndOnce();
      }
    }

    /** `handle_cap` for ACK: SASL begins when it is acknowledged and configured; otherwise negotiation ends. */
    method HandleCapAck(acked: seq<string>)
      requires Sound()
      modifies this`caps, this`saslActive, this`capEnded, this`log
      ensures Sound() && caps == old(caps) + set c | c in acked
      ensures if "sasl" in acked && cfg.sasl
              then saslActive && capEnded == old(capEnded) && log == old(log) + [Sent("AUTHENTICATE PLAIN")]
              else && saslActive == old(saslActive) && capEnded && CapEnds(log) == 1
                   && log == old(log) + if old(capEnded) then [] else [CapEnd]
    {
      caps := caps + set c | c in acked;
      OtherFields(old(View()), log, clock, View());
      if "sasl" in acked && cfg.sasl {
        StartSasl();
      } else {
        CapEndOnce();
      }
    }

    method StartSasl()
      requires Sound()
      modifies this`saslActive, this`log
      ensures Sound() && saslActive && log == old(log) + [Sent("AUTHENTICATE PLAIN")]
    {
      saslActive := true;
      OtherFields(old(View()), log, clock, View());
      SendRaw("AUTHENTICATE PLAIN");
    }

    /** `handle_cap`. */
    method HandleCap(c: Command)
      requires Sound() && (c.CapLs? || c.CapAck? || c.CapNak? || c.CapOther?)
      modifies this`caps, this`saslActive, this`capLs, this`capEnded, this`log
      ensures Sound() && CapEnds(log) <= 1
      ensures View() == Session.HandleCap(cfg, old(View()), c).state
      ensures log == old(log) + Session.HandleCap(cfg, old(View()), c).outs
    {
      assert log + [] == log;
      match c {
        case CapLs(more, offered) =>
          LsCases(cfg, View(), more, offered);
          HandleCapLs(more, offered);
        case CapAck(acked) => HandleCapAck(acked);
        case CapNak => CapEndOnce();
        case CapOther =>
      }
      NegotiationPromise(View(), log, clock);
    }

    // ----- Received lines -----

    /** The first welcome numeric of a connection joins the channel. */
    method HandleWelcome(effects: seq<Effect>)
      requires Sound() && InOrder(clock, effects)
      modifies this`registered, this`joined, this`outq, this`lastSend, this`clock, this`log
      ensures Sound() && joined && clock == ClockAfter(old(clock), effects)
      ensures View() == Join(cfg, old(View()), effects).state
      ensures log == old(log) + Join(cfg, old(View()), effects).outs
    {
      if joined {
        Perform(effects);
        return;
      }
      ghost var r := DoEffects(View().(registered := true), effects);
      Reassociate(log, [Sent("JOIN " + cfg.channel)], r.outs);
      registered := true;
      OtherFields(old(View()), log, clock, View());
      SendRaw("JOIN " + cfg.channel);
      Perform(effects);
      ghost var last := View();
      joined := true;
      OtherFields(last, log, clock, View());
    }

    method NextNick()
      requires Sound()
      modifies this`nick, this`log
      ensures Sound() && nick == old(nick) + "_" && log == old(log) + [Sent("NICK " + nick)]
    {
      nick := nick + "_";
      OtherFields(old(View()), log, clock, View());
      SendRaw("NICK " + nick);
    }

    /** The dispatch of `handle`. */
    method React(c: Command, effects: seq<Effect>)
      requires Sound() && InOrder(clock, effects)
      modifies this`nick, this`caps, this`capLs, this`capEnded, this`saslActive, this`registered, this`joined
      modifies this`outq, this`lastSend, this`clock, this`log
      ensures Sound() && clock <= ClockAfter(old(clock), effects)
      ensures View() == Handle(cfg, old(View()), c, effects).state
      ensures log == old(log) + Handle(cfg, old(View()), c, effects).outs
    {
      EffectsTakeTime(clock, effects);
      assert log + [] == log;
      match c {
        case Ping(token) => SendRaw("PONG :" + token);
        case Authenticate(ready) =>
          if ready {
            SendRaw("AUTHENTICATE " + cfg.saslPayload);
          }
        case SaslOutcome => CapEndOnce();
        case NickInUse => NextNick();
        case Welcome => HandleWelcome(effects);
        case Other => Perform(effects);
        case _ => HandleCap(c);
      }
    }

    /** `handle`: react to one line. */
    method HandleLine(line: string, effects: seq<Effect>)
      requires Sound() && alive && InOrder(clock, effects)
      modifies this`nick, this`caps, this`capLs, this`capEnded, this`saslActive, this`registered, this`joined
      modifies this`outq, this`lastSend, this`clock, this`log
      ensures Sound() && CapEnds(log) <= 1 && Paced(log) && Drains(log) + outq == Enqueues(log)
      ensures Classify(line).Ping? ==> log == old(log) + [Sent("PONG :" + Classify(line).token)]
      ensures Replies.Told(cfg, line, effects, old(Now()), Now())
      ensures Leads(cfg, old(Now()), [Line(line, effects)], Now())
    {
      React(Classify(line), effects);
      LaterClock(View(), log, clock, ClockAfter(old(clock), effects));
      clock := ClockAfter(old(clock), effects);
      Replies.TurnTold(cfg, line, effects, old(Now()), Now());
      LeadsOne(cfg, old(Now()), Line(line, effects), Now());
      NegotiationPromise(View(), log, clock);
      QueuePromise(View(), log, clock);
    }

    // ----- The loop body -----

    /**
     The keepalive of the loop body, once the link is known not to be dead: the silent stretch has at
     most three probes, spaced, and an idle link has one of the last 60 s.
     */
    method ProbeIfIdle(now: real)
      requires Sound() && clock <= now && now - lastRx <= READ_TIMEOUT
      modifies this`lastKeepalive, this`clock, this`log
      ensures Sound() && clock == now
      ensures |Probes(log)| <= 3 && ProbesSpaced(Probes(log), lastRx)
      ensures now - lastRx > PROBE_AFTER ==> (ProbedLately(log, now) <==> now - lastRx > PROBE_GAP + Gap(log))
      ensures View() == KeepAlive(old(View()), now).state && log == old(log) + KeepAlive(old(View()), now).outs
    {
      LaterClock(View(), log, clock, now);
      clock := now;
      if now - lastRx > PROBE_AFTER && now - lastKeepalive > PROBE_GAP {
        SendProbe(now);
      } else {
        assert log + [] == log;
      }
      LinkPromise(View(), log, clock, now);
    }

    method SendProbe(now: real)
      requires Sound() && PROBE_AFTER < now - lastRx <= READ_TIMEOUT && now - lastKeepalive > PROBE_GAP && now <= clock
      modifies this`lastKeepalive, this`log
      ensures Sound() && lastKeepalive == now && log == old(log) + [Probe(now)]
    {
      lastKeepalive := now;
      log := log + [Probe(now)];
      EntryKeepsInv(old(View()), old(log), Probe(now), View(), clock);
    }

    /** The CAP safety net of the loop body: nothing stays unregistered and in negotiation for over 5 s. */
    method ForceCapEnd(now: real)
      requires Sound()
      modifies this`capEnded, this`log
      ensures Sound() && CapEnds(log) <= 1
      ensures registered || capEnded || now - connectTs <= CAP_TIMEOUT
      ensures registered || now - connectTs <= CAP_TIMEOUT ==> log == old(log)
      ensures View() == CapSafetyNet(old(View()), now).state
      ensures log == old(log) + CapSafetyNet(old(View()), now).outs
    {
      NegotiationPromise(View(), log, clock);
      if !registered && !capEnded && now - connectTs > CAP_TIMEOUT {
        CapEndOnce();
      } else {
        assert log + [] == log;
      }
    }

    /** Keepalive, safety net and announcements, once the link is known not to be dead. */
    method Upkeep(now: real, effects: seq<Effect>)
      requires Sound() && clock <= now && InOrder(now, effects) && now - lastRx <= READ_TIMEOUT
      modifies this`capEnded, this`outq, this`lastSend, this`lastKeepalive, this`clock, this`log
      ensures Sound() && clock <= ClockAfter(now, effects)
      ensures View() == LoopChecks(old(View()), now, effects).state
      ensures log == old(log) + LoopChecks(old(View()), now, effects).outs
    {
      EffectsTakeTime(now, effects);
      ghost var k := KeepAlive(View(), now);
      ghost var c := CapSafetyNet(k.state, now);
      var announced := if joined then effects else [];
      Reassociate(log, k.outs, c.outs);
      Reassociate(log, k.outs + c.outs, DoEffects(c.state, announced).outs);
      ProbeIfIdle(now);
      ForceCapEnd(now);
      Perform(announced);
    }

    /**
     The rest of the loop body; false is the raised ConnectionError.  Otherwise the bot is registered,
     past negotiation or fresh, and an idle link has been probed lately.
     */
    method Check(now: real, effects: seq<Effect>) returns (ok: bool)
      requires Sound() && alive && clock <= now && InOrder(now, effects)
      modifies this`alive, this`capEnded, this`outq, this`lastSend, this`lastKeepalive, this`clock, this`log
      ensures Sound() && alive == ok
      ensures ok <==> now - lastRx <= READ_TIMEOUT
      ensures ok ==> registered || capEnded || now - connectTs <= CAP_TIMEOUT
      ensures ok && now - lastRx > PROBE_AFTER ==> (ProbedLately(log, now) <==> now - lastRx > PROBE_GAP + Gap(log))
      ensures Leads(cfg, old(Now()), [Event.Check(now, effects)], Now())
    {
      EffectsTakeTime(now, effects);
      if now - lastRx > READ_TIMEOUT {
        alive := false;
        OtherFields(old(View()), log, clock, View());
        assert log + [] == log;
      } else {
        Upkeep(now, effects);
      }
      ok := alive;
      LaterClock(View(), log, clock, ClockAfter(now, effects));
      clock := ClockAfter(now, effects);
      LeadsOne(cfg, old(Now()), Event.Check(now, effects), Now());
      TickPromises(cfg, old(View()), now, effects);
      LaterClock(old(View()), old(log), old(clock), now);
      if ok {
        LinkPromise(View(), log, clock, now);
      }
    }

    // ----- Connections -----

    /** The registration lines. */
    method Greet()
      requires Sound() && nick == cfg.nick
      modifies this`log
      ensures Sound() && log == old(log) + Greeting(cfg)
      ensures CapEnds(log) == old(CapEnds(log)) && Enqueues(log) == old(Enqueues(log))
    {
      NothingQueued(log, Greeting(cfg));
      SendRaw("CAP LS 302");
      if cfg.password != [] {
        SendRaw("PASS " + cfg.password);
      }
      SendRaw("NICK " + nick);
      SendRaw("USER " + cfg.nick + " 0 * :Onyx+Onyx Server build announcer");
    }

    /** `connect` and the head of `loop`: whatever the last connection left behind, a clean start. */
    method Connect(at: real, rxAt: real, kaAt: real)
      requires Sound() && clock <= at <= rxAt <= kaAt
      modifies this
      ensures Valid() && alive && stream == [] && handled == [] && buf == []
      ensures CapEnds(log) == 0 && Enqueues(log) == []
      ensures Leads(cfg, old(Now()), [Event.Connect(at, rxAt, kaAt)], Now())
    {
      ghost var before := Now();
      ResetNegotiation(at);
      ResetTraffic();
      Begin(before, rxAt, kaAt);
      Greet();
      Reassociate(old(log), [Connected(rxAt, kaAt)], Greeting(cfg));
      OpenLeads(cfg, old(Now()), at, rxAt, kaAt, Now());
    }

    method ResetNegotiation(at: real)
      modifies this`nick, this`caps, this`capLs, this`capEnded, this`connectTs, this`saslActive, this`registered
      ensures nick == cfg.nick && caps == {} && capLs == {} && !capEnded && connectTs == at
      ensures !saslActive && !registered
    {
      nick, caps, capLs, capEnded, connectTs := cfg.nick, {}, {}, false, at;
      saslActive, registered := false, false;
    }

    method ResetTraffic()
      modifies this`alive, this`joined, this`outq, this`buf, this`stream, this`handled
      ensures alive && !joined && outq == [] && buf == [] && stream == [] && handled == []
      ensures ReceivedLines(stream) == Received(handled, buf)
    {
      ReceivedStep([]);
      outq := [];
      joined, alive := false, true;
      buf, stream, handled := [], [], [];
    }

    /** The two stamps at the head of `loop`. */
    method Begin(ghost before: Moment, rxAt: real, kaAt: real)
      requires Inv(before.state, log, before.clock) && before.log == log
      requires before.clock <= rxAt <= kaAt
      requires outq == [] && !capEnded && lastSend == before.state.lastSend
      modifies this`lastRx, this`lastKeepalive, this`clock, this`log
      ensures Sound() && lastRx == rxAt && lastKeepalive == kaAt && clock == kaAt
      ensures log == old(log) + [Connected(rxAt, kaAt)] && CapEnds(log) == 0 && Enqueues(log) == []
    {
      lastRx, lastKeepalive, clock := rxAt, kaAt, kaAt;
      log := log + [Connected(rxAt, kaAt)];
      LaterClock(before.state, before.log, before.clock, kaAt);
      EntryKeepsInv(before.state, before.log, Connected(rxAt, kaAt), View(), clock);
      LogEntry(before.log, Connected(rxAt, kaAt));
    }

    /** Data arrived: stamp the link. */
    method Stamp(at: real)
      requires Sound() && alive && clock <= at
      modifies this`lastRx, this`clock, this`log
      ensures Sound() && Probes(log) == []
      ensures Leads(cfg, old(Now()), [Receive(at)], Now())
    {
      LaterClock(View(), log, clock, at);
      lastRx, clock := at, at;
      log := log + [Heard(at)];
      EntryKeepsInv(old(View()), old(log), Heard(at), View(), clock);
      LogEntry(old(log), Heard(at));
      LeadsOne(cfg, old(Now()), Receive(at), Now());
    }

    /** The handled lines and those still in the buffer are the stream's, and to handle these leads to `goal`. */
    ghost predicate Midway(todo: seq<seq<Effect>>, goal: Moment)
      reads this
    {
      && Sound()
      && SplitSoFar(stream, handled, buf)
      && ToGo(cfg, Now(), buf, todo, goal)
    }

    /** Data arrived: append, and handle line after line while there is a CR LF. */
    method Read(data: seq<byte>, at: real, replies: seq<seq<Effect>>, ghost goal: Moment)
      requires Valid() && Leads(cfg, Now(), ReadEvents(buf, data, at, replies), goal)
      modifies this
      ensures Valid() && stream == old(stream) + data && Now() == goal
    {
      Append(data, at, replies, goal);
      var todo := replies;
      while CrlfUnit(buf).Some?
        invariant stream == old(stream) + data && Midway(todo, goal)
        decreases |buf|
      {
        todo := HandleFirst(todo, goal);
      }
      AllHandled(todo, goal);
    }

    method Append(data: seq<byte>, at: real, replies: seq<seq<Effect>>, ghost goal: Moment)
      requires Valid() && Leads(cfg, Now(), ReadEvents(buf, data, at, replies), goal)
      modifies this`lastRx, this`clock, this`log, this`buf, this`stream
      ensures stream == old(stream) + data && Midway(replies, goal)
    {
      ghost var coming := LineEvents(ReceivedLines(buf + data).lines, replies);
      FirstIsPossible(cfg, Now(), Receive(at), coming, goal);
      SplitAfterMore(stream, handled, buf, data);
      Stamp(at);
      LeadsOn(cfg, old(Now()), [Receive(at)], Now(), coming, goal);
      ToGoMeans(cfg, Now(), buf + data, replies, goal);
      Hold(data);
    }

    method Hold(data: seq<byte>)
      requires Sound()
      modifies this`buf, this`stream
      ensures Sound() && Now() == old(Now()) && buf == old(buf) + data && stream == old(stream) + data
    {
      buf, stream := buf + data, stream + data;
    }

    /** Without a CR LF in the buffer nothing is left to handle. */
    lemma AllHandled(todo: seq<seq<Effect>>, goal: Moment)
      requires Midway(todo, goal) && CrlfUnit(buf).None?
      ensures Valid() && Now() == goal
    {
      SplitIsDone(stream, handled, buf);
      ReceivedStep(buf);
      ToGoMeans(cfg, Now(), buf, todo, goal);
      LeadsNowhere(cfg, Now(), goal);
    }

    /** Cut the first line off the buffer and handle it. */
    method HandleFirst(todo: seq<seq<Effect>>, ghost goal: Moment) returns (rest: seq<seq<Effect>>)
      requires Midway(todo, goal) && CrlfUnit(buf).Some?
      modifies this
      ensures Midway(rest, goal) && stream == old(stream) && |buf| < |old(buf)|
    {
      ghost var before, m := buf, Now();
      FirstIsNext(cfg, m, before, todo, goal);
      FirstMoves(stream, handled, before);
      var line := TakeLine();
      HandleLine(line, FirstReply(todo));
      FirstIsDone(cfg, m, before, todo, Now(), goal);
      rest := OtherReplies(todo);
    }

    method TakeLine() returns (line: string)
      requires Sound() && CrlfUnit(buf).Some?
      modifies this`buf, this`handled
      ensures Sound() && Now() == old(Now()) && handled == old(handled) + [line]
      ensures line == FrontLine(old(buf)) && buf == BehindFront(old(buf))
    {
      var end := CrlfUnit(buf).value;
      line := Utf8.Decode(buf[..end - 2]);
      buf, handled := buf[end..], handled + [line];
    }

    /** The end of a pass: pump, then check; false when it raises. */
    method EndOfTick(t: Tick, ghost goal: Moment) returns (ok: bool)
      requires Sound() && Leads(cfg, Now(), EndEvents(t), goal)
      modifies this`alive, this`capEnded, this`outq, this`lastSend, this`lastKeepalive, this`clock, this`log
      ensures Sound() && ok == alive && Now() == goal
    {
      ghost var pump, check := Event.Pump(t.tested, t.stamped), Event.Check(t.now, t.effects);
      assert EndEvents(t) == [pump] + [check];
      FirstIsPossible(cfg, Now(), pump, [check], goal);
      Pump(t.tested, t.stamped);
      LeadsOn(cfg, old(Now()), [pump], Now(), [check], goal);
      ok := CheckAt(t, goal);
    }

    method CheckAt(t: Tick, ghost goal: Moment) returns (ok: bool)
      requires Sound() && Leads(cfg, Now(), [Event.Check(t.now, t.effects)], goal)
      modifies this`alive, this`capEnded, this`outq, this`lastSend, this`lastKeepalive, this`clock, this`log
      ensures Sound() && ok == alive && Now() == goal
    {
      LeadsOne(cfg, Now(), Event.Check(t.now, t.effects), goal);
      ok := Check(t.now, t.effects);
      LeadsOneWay(cfg, old(Now()), [Event.Check(t.now, t.effects)], Now(), goal);
    }

    /** One pass of the loop, whose events lead to `goal`; false when it raises. */
    method RunTick(t: Tick, ghost goal: Moment) returns (ok: bool)
      requires Valid() && Leads(cfg, Now(), TickEvents(buf, t), goal)
      modifies this
      ensures Valid() && ok == alive && stream == old(stream) + Arrived(t) && Now() == goal
      ensures t.data == Some([]) ==> !ok
    {
      if t.data == Some([]) {
        assert stream + [] == stream && log + [] == log;
        LeadsOne(cfg, Now(), Lost, goal);
        alive := false;
        OtherFields(old(View()), log, clock, View());
        return false;
      }
      if t.data.Some? {
        ghost var reading := ReadEvents(buf, t.data.value, t.rxAt, t.replies);
        ghost var read := LeadsBetween(cfg, Now(), reading, EndEvents(t), goal);
        Read(t.data.value, t.rxAt, t.replies, read);
      } else {
        assert stream + [] == stream;
        PrependNothing(EndEvents(t));
      }
      ok := EndOfTick(t, goal);
    }

    /**
     `loop`, for as long as the connection lasts: whatever run of the specification these passes are, the
     bot is afterwards where that run leads, it keeps every promise, and the lines it has handled are
     those of the stream, however this was cut into reads.
     */
    method Loop(ticks: seq<Tick>, ghost goal: Moment)
      requires Valid() && Leads(cfg, Now(), LoopEvents(buf, ticks), goal)
      modifies this
      ensures Valid() && Now() == goal
      ensures handled == ReceivedLines(old(stream) + Flatten(Map(Arrived, ticks))).lines
      ensures CapEnds(log) <= 1 && Paced(log) && Drains(log) + outq == Enqueues(log) && |Probes(log)| <= 3
    {
      assert ticks[0..] == ticks && ticks[..0] == [];
      assert stream + [] == stream;
      for i := 0 to |ticks|
        invariant Valid() && stream == old(stream) + Flatten(Map(Arrived, ticks[..i]))
        invariant Leads(cfg, Now(), LoopEvents(buf, ticks[i..]), goal)
      {
        ghost var held := ReceivedLines(buf + Arrived(ticks[i])).buf;
        assert ticks[i..][1..] == ticks[i + 1..];
        ghost var next := LeadsBetween(cfg, Now(), TickEvents(buf, ticks[i]), LoopEvents(held, ticks[i + 1..]), goal);
        SplitTwice(stream, Arrived(ticks[i]));
        MoreArrived(old(stream), ticks, i);
        var ok := RunTick(ticks[i], next);
      }
      assert ticks[|ticks|..] == [] && ticks[..|ticks|] == ticks;
      LeadsNowhere(cfg, Now(), goal);
      NegotiationPromise(View(), log, clock);
      QueuePromise(View(), log, clock);
      ProbePromise(View(), log, clock);
    }

    /** `run`: connection after connection, each with the passes of its loop. */
    method Serve(connections: seq<Connection>, ghost goal: Moment)
      requires Valid() && Leads(cfg, Now(), LifeEvents(connections), goal)
      modifies this
      ensures Valid() && Now() == goal
      ensures connections != [] ==>
          handled == ReceivedLines(Flatten(Map(Arrived, connections[|connections| - 1].ticks))).lines
    {
      assert connections[0..] == connections;
      for i := 0 to |connections|
        invariant Valid() && Leads(cfg, Now(), LifeEvents(connections[i..]), goal)
        invariant i > 0 ==> handled == ReceivedLines(Flatten(Map(Arrived, connections[i - 1].ticks))).lines
      {
        assert connections[i..][1..] == connections[i + 1..];
        ghost var later := LifeEvents(connections[i + 1..]);
        ghost var next := LeadsBetween(cfg, Now(), ConnectionEvents(connections[i]), later, goal);
        ServeOne(connections[i], next);
      }
      assert connections[|connections|..] == [];
      LeadsNowhere(cfg, Now(), goal);
    }

    method ServeOne(c: Connection, ghost goal: Moment)
      requires Sound() && Leads(cfg, Now(), ConnectionEvents(c), goal)
      modifies this
      ensures Valid() && Now() == goal && handled == ReceivedLines(Flatten(Map(Arrived, c.ticks))).lines
    {
      ghost var open, coming := Event.Connect(c.at, c.rxAt, c.kaAt), LoopEvents([], c.ticks);
      FirstIsPossible(cfg, Now(), open, coming, goal);
      Connect(c.at, c.rxAt, c.kaAt);
      LeadsOn(cfg, old(Now()), [open], Now(), coming, goal);
      Loop(c.ticks, goal);
      PrependNothing(Flatten(Map(Arrived, c.ticks)));
    }
  }

  lemma {:induction false} NothingQueued(log: seq<Out>, outs: seq<Out>)
    requires forall i :: 0 <= i < |outs| ==> outs[i].Sent?
    ensures CapEnds(log + outs) == CapEnds(log) && Enqueues(log + outs) == Enqueues(log)
    decreases |outs|
  {
    if outs == [] {
      assert log + [] == log;
    } else {
      NothingQueued(log + [outs[0]], outs[1..]);
      LogEntry(log, outs[0]);
      Reassociate(log, [outs[0]], outs[1..]);
      assert [outs[0]] + outs[1..] == outs;
    }
  }

  lemma MoreArrived(before: seq<byte>, ticks: seq<Tick>, i: nat)
    requires i < |ticks|
    ensures before + Flatten(Map(Arrived, ticks[..i])) + Arrived(ticks[i])
            == before + Flatten(Map(Arrived, ticks[..i + 1]))
  {
    var parts := Map(Arrived, ticks);
    assert Map(Arrived, ticks[..i]) == parts[..i] && Map(Arrived, ticks[..i + 1]) == parts[..i + 1];
    FlattenLast(parts, i);
    Reassociate(before, Flatten(parts[..i]), parts[i]);
  }
}
