/**
 One process lifetime of the announce bot as a state machine: capability negotiation, the paced
 output queue, keepalive and reconnect.  `Step` is the specification; the class performs the same
 steps on mutable fields.  Clock readings, received lines and the replies of bot commands are inputs.
 */
module Session {
  import opened Collections
  import Unicode

  const SEND_INTERVAL := 0.4
  const PROBE_AFTER := 90.0
  const PROBE_GAP := 60.0
  const READ_TIMEOUT := 240.0
  const CAP_TIMEOUT := 5.0

  const WANT_CAPS: set<string> := {"server-time", "message-tags", "account-tag", "echo-message"}

  // ----- Received lines ---------------------------------------------------------------------------

  predicate IsBlank(c: char) {
    Unicode.IsSpace(c as int)
  }

  /** The length of the run of non-space characters at the front. */
  function WordLen(s: string): (n: nat)
    ensures n <= |s|
  {
    if s == [] || IsBlank(s[0]) then 0 else 1 + WordLen(s[1..])
  }

  /** Python's s.split(): the maximal runs of non-space characters. */
  function Fields(s: string): seq<string>
    decreases |s|
  {
    if s == [] then []
    else if IsBlank(s[0]) then Fields(s[1..])
    else [s[..WordLen(s)]] + Fields(s[WordLen(s)..])
  }

  /** What follows the first occurrence of `sep`. */
  function After(s: string, sep: string): Option<string> {
    if sep <= s then Some(s[|sep|..])
    else if s == [] then None
    else After(s[1..], sep)
  }

  function Strip(s: string): string
    decreases |s|
  {
    if s == [] then s
    else if IsBlank(s[0]) then Strip(s[1..])
    else if IsBlank(s[|s| - 1]) then Strip(s[..|s| - 1])
    else s
  }

  /** The part of a capability before any "=". */
  function CapName(c: string): string {
    if c == [] || c[0] == '=' then [] else [c[0]] + CapName(c[1..])
  }

  function CapNames(caps: seq<string>): set<string> {
    set i | 0 <= i < |caps| :: CapName(caps[i])
  }

  datatype Command =
    | Ping(token: string)
    | CapLs(more: bool, offered: seq<string>)
    | CapAck(acked: seq<string>)
    | CapNak
    | CapOther
    | Authenticate(ready: bool)
    | SaslOutcome
    | NickInUse
    | Welcome
    | Other

  /** The line without a leading IRCv3 message-tag block. */
  function StripTags(line: string): string {
    if line != [] && line[0] == '@' then
      match After(line, " ")
      case None => ""
      case Some(rest) => rest
    else line
  }

  function CapCommand(work: string, parts: seq<string>): Command {
    var sub := if |parts| > 3 then parts[3] else "";
    var offered := match After(work, " :") case None => [] case Some(rest) => Fields(rest);
    if sub == "LS" then CapLs(|parts| > 4 && parts[4] == "*", offered)
    else if sub == "ACK" then CapAck(offered)
    else if sub == "NAK" then CapNak
    else CapOther
  }

  /** The dispatch of `handle`, in its order. */
  function Classify(line: string): Command {
    var work := StripTags(line);
    var parts := Fields(work);
    if parts != [] && (parts[0] == "PING" || (|parts| > 1 && parts[1] == "PING")) then
      var token := match After(work, "PING") case None => "" case Some(rest) => Strip(rest);
      Ping(if token != [] && token[0] == ':' then token[1..] else token)
    else if |parts| >= 3 && parts[1] == "CAP" then CapCommand(work, parts)
    else if |parts| >= 2 && parts[0] == "AUTHENTICATE" then Authenticate(parts[1] == "+")
    else if |parts| < 2 then Other
    else if parts[1] in {"902", "903", "904", "905", "906", "907"} then SaslOutcome
    else if parts[1] in {"433", "436"} then NickInUse
    else if parts[1] in {"001", "376", "422"} then Welcome
    else Other
  }

  // ----- The state machine --------------------------------------------------------------------------

  datatype Config = Config(nick: string, channel: string, password: string, sasl: bool, saslPayload: string)

  datatype BotState = BotState(
    alive: bool,
    nick: string,
    caps: set<string>,
    capLs: set<string>,
    capEnded: bool,
    connectTs: real,
    saslActive: bool,
    registered: bool,
    joined: bool,
    outq: seq<string>,
    lastSend: real,
    lastRx: real,
    lastKeepalive: real)

  function Initial(cfg: Config): BotState {
    BotState(false, cfg.nick, {}, {}, false, 0.0, false, false, false, [], 0.0, 0.0, 0.0)
  }

  /**
   What the parts of the bot outside this model do in reaction to a line or a tick.  Every immediate
   message is stamped by a clock reading of its own: any amount of work may lie between two of them.
   */
  datatype Effect = Queue(line: string) | Say(line: string, at: real) | Raw(line: string)

  /** The log of everything observable, oldest first. */
  datatype Out =
    | Connected(rxAt: real, kaAt: real)
    | Heard(at: real)
    | Enqueued(line: string)
    | Drained(line: string, tested: real, stamped: real)
    | Said(line: string, stamped: real)
    | Sent(line: string)
    | CapReq(caps: seq<string>)                    // the names in the order of the line
    | CapEnd
    | Probe(at: real)

  datatype Event =
    | Connect(at: real, rxAt: real, kaAt: real)    // connect(), and the two readings at the head of loop()
    | Receive(at: real)                            // recv returned data
    | Line(text: string, effects: seq<Effect>)
    | Pump(tested: real, stamped: real)            // pump_out and its two clock readings
    | Check(now: real, effects: seq<Effect>)       // the rest of the loop body
    | Lost                                         // end of stream or a socket error

  datatype Result = Result(state: BotState, outs: seq<Out>)

  function Enqueue(b: BotState, line: string): Result {
    Result(b.(outq := b.outq + [line]), [Enqueued(line)])
  }

  function DoEffect(b: BotState, e: Effect): Result {
    match e
    case Queue(line) => Enqueue(b, line)
    case Say(line, at) => Result(b.(lastSend := at), [Said(line, at)])
    case Raw(line) => Result(b, [Sent(line)])
  }

  function DoEffects(b: BotState, es: seq<Effect>): Result
    decreases |es|
  {
    if es == [] then Result(b, [])
    else
      var first := DoEffect(b, es[0]);
      var rest := DoEffects(first.state, es[1..]);
      Result(rest.state, first.outs + rest.outs)
  }

  /** `cap_end`. */
  function EndCap(b: BotState): Result {
    if b.capEnded then Result(b, []) else Result(b.(capEnded := true), [CapEnd])
  }

  function Wanted(cfg: Config, offered: set<string>): set<string> {
    (WANT_CAPS * offered) + (if cfg.sasl && "sasl" in offered then {"sasl"} else {})
  }

  /** Every capability the bot may ask for, in the order of code points. */
  const CAP_ORDER: seq<string> := ["account-tag", "echo-message", "message-tags", "sasl", "server-time"]

  /** Python's sorted(want), for a set of capabilities the bot may ask for. */
  function Sorted(want: set<string>): seq<string> {
    Filter(c => c in want, CAP_ORDER)
  }

  /** `handle_cap` for LS. */
  function HandleLs(cfg: Config, b: BotState, more: bool, offered: seq<string>): Result {
    var b := b.(capLs := b.capLs + CapNames(offered));
    if more then Result(b, [])
    else if Wanted(cfg, b.capLs) != {} then Result(b, [CapReq(Sorted(Wanted(cfg, b.capLs)))])
    else EndCap(b)
  }

  /** `handle_cap` for ACK. */
  function HandleAck(cfg: Config, b: BotState, acked: seq<string>): Result {
    var b := b.(caps := b.caps + set c | c in acked);
    if "sasl" in acked && cfg.sasl then Result(b.(saslActive := true), [Sent("AUTHENTICATE PLAIN")])
    else EndCap(b)
  }

  /** `handle_cap`. */
  function HandleCap(cfg: Config, b: BotState, c: Command): Result {
    match c
    case CapLs(more, offered) => HandleLs(cfg, b, more, offered)
    case CapAck(acked) => HandleAck(cfg, b, acked)
    case CapNak => EndCap(b)
    case _ => Result(b, [])
  }

  /** The first welcome numeric of a connection joins the channel. */
  function Join(cfg: Config, b: BotState, effects: seq<Effect>): Result {
    if b.joined then DoEffects(b, effects)
    else
      var r := DoEffects(b.(registered := true), effects);
      Result(r.state.(joined := true), [Sent("JOIN " + cfg.channel)] + r.outs)
  }

  /** `handle`; `effects` is what the code outside this model does for the line. */
  function Handle(cfg: Config, b: BotState, c: Command, effects: seq<Effect>): Result {
    match c
    case Ping(token) => Result(b, [Sent("PONG :" + token)])
    case Authenticate(ready) => Result(b, if ready then [Sent("AUTHENTICATE " + cfg.saslPayload)] else [])
    case SaslOutcome => EndCap(b)
    case NickInUse => Result(b.(nick := b.nick + "_"), [Sent("NICK " + (b.nick + "_"))])
    case Welcome => Join(cfg, b, effects)
    case Other => DoEffects(b, effects)
    case _ => HandleCap(cfg, b, c)
  }

  function PumpOut(b: BotState, tested: real, stamped: real): Result {
    if b.outq != [] && tested - b.lastSend >= SEND_INTERVAL then
      Result(b.(outq := b.outq[1..], lastSend := stamped), [Drained(b.outq[0], tested, stamped)])
    else Result(b, [])
  }

  /** Keepalive: a probe when the link has been idle and none was sent lately. */
  function KeepAlive(b: BotState, now: real): Result {
    if now - b.lastRx > PROBE_AFTER && now - b.lastKeepalive > PROBE_GAP
    then Result(b.(lastKeepalive := now), [Probe(now)])
    else Result(b, [])
  }

  function CapSafetyNet(b: BotState, now: real): Result {
    if !b.registered && !b.capEnded && now - b.connectTs > CAP_TIMEOUT then EndCap(b) else Result(b, [])
  }

  /** The rest of the loop body; a state that is no longer alive is the raised ConnectionError. */
  function LoopChecks(b: BotState, now: real, effects: seq<Effect>): Result {
    if now - b.lastRx > READ_TIMEOUT then Result(b.(alive := false), [])
    else
      var k := KeepAlive(b, now);
      var c := CapSafetyNet(k.state, now);
      var e := DoEffects(c.state, if b.joined then effects else []);
      Result(e.state, k.outs + c.outs + e.outs)
  }

  function Open(cfg: Config, b: BotState, at: real, rxAt: real, kaAt: real): Result {
    Result(
      BotState(true, cfg.nick, {}, {}, false, at, false, false, false, [], b.lastSend, rxAt, kaAt),
      [Connected(rxAt, kaAt)] + Greeting(cfg))
  }

  /** The lines `connect` sends before anything has been received. */
  function Greeting(cfg: Config): seq<Out> {
    [Sent("CAP LS 302")]
    + (if cfg.password != [] then [Sent("PASS " + cfg.password)] else [])
    + [Sent("NICK " + cfg.nick), Sent("USER " + cfg.nick + " 0 * :Onyx+Onyx Server build announcer")]
  }

  function Step(cfg: Config, b: BotState, e: Event): Result {
    match e
    case Connect(at, rxAt, kaAt) => Open(cfg, b, at, rxAt, kaAt)
    case Receive(at) => Result(b.(lastRx := at), [Heard(at)])
    case Line(text, effects) => Handle(cfg, b, Classify(text), effects)
    case Pump(tested, stamped) => PumpOut(b, tested, stamped)
    case Check(now, effects) => LoopChecks(b, now, effects)
    case Lost => Result(b.(alive := false), [])
  }

  // ----- Runs -----------------------------------------------------------------------------------------

  /** The last clock reading once the effects are done. */
  function ClockAfter(clock: real, es: seq<Effect>): real
    decreases |es|
  {
    if es == [] then clock else ClockAfter(if es[0].Say? then es[0].at else clock, es[1..])
  }

  /** The clock does not go back from one immediate message to the next. */
  predicate InOrder(clock: real, es: seq<Effect>)
    decreases |es|
  {
    if es == [] then true
    else if es[0].Say? then clock <= es[0].at && InOrder(es[0].at, es[1..])
    else InOrder(clock, es[1..])
  }

  /** The clock does not go back before or within an event. */
  predicate ClockRuns(clock: real, e: Event) {
    match e
    case Connect(at, rxAt, kaAt) => clock <= at <= rxAt <= kaAt
    case Receive(at) => clock <= at
    case Line(_, effects) => InOrder(clock, effects)
    case Pump(tested, stamped) => clock <= tested <= stamped
    case Check(now, effects) => clock <= now && InOrder(now, effects)
    case Lost => true
  }

  /** The last clock reading of an event, given the reading before it. */
  function Ends(e: Event, clock: real): real {
    match e
    case Connect(_, _, kaAt) => kaAt
    case Receive(at) => at
    case Line(_, effects) => ClockAfter(clock, effects)
    case Pump(_, stamped) => stamped
    case Check(now, effects) => ClockAfter(now, effects)
    case Lost => clock
  }

  lemma {:induction false} EffectsTakeTime(clock: real, es: seq<Effect>)
    requires InOrder(clock, es)
    ensures clock <= ClockAfter(clock, es)
    decreases |es|
  {
    if es != [] {
      EffectsTakeTime(if es[0].Say? then es[0].at else clock, es[1..]);
    }
  }

  lemma ClockAdvances(clock: real, e: Event)
    requires ClockRuns(clock, e)
    ensures clock <= Ends(e, clock)
  {
    match e {
      case Line(_, effects) => EffectsTakeTime(clock, effects);
      case Check(now, effects) => EffectsTakeTime(now, effects);
      case _ =>
    }
  }

  /** An event can happen: the clock does not go back, and only a fresh connection follows a lost one. */
  predicate Possible(b: BotState, clock: real, e: Event) {
    ClockRuns(clock, e) && (e.Connect? || b.alive)
  }

  predicate Run(cfg: Config, b: BotState, clock: real, es: seq<Event>)
    decreases |es|
  {
    es != [] ==> Possible(b, clock, es[0]) && Run(cfg, Step(cfg, b, es[0]).state, Ends(es[0], clock), es[1..])
  }

  function Exec(cfg: Config, b: BotState, es: seq<Event>): Result
    decreases |es|
  {
    if es == [] then Result(b, [])
    else
      var first := Step(cfg, b, es[0]);
      var rest := Exec(cfg, first.state, es[1..]);
      Result(rest.state, first.outs + rest.outs)
  }

  // ----- What the log says about the current connection -------------------------------------------------

  /** CAP END lines since the last connect. */
  function CapEnds(log: seq<Out>): nat {
    if log == [] then 0
    else
      match log[|log| - 1]
      case Connected(_, _) => 0
      case CapEnd => CapEnds(log[..|log| - 1]) + 1
      case _ => CapEnds(log[..|log| - 1])
  }

  /** Lines enqueued since the last connect. */
  function Enqueues(log: seq<Out>): seq<string> {
    if log == [] then []
    else
      match log[|log| - 1]
      case Connected(_, _) => []
      case Enqueued(line) => Enqueues(log[..|log| - 1]) + [line]
      case _ => Enqueues(log[..|log| - 1])
  }

  /** Lines drained since the last connect. */
  function Drains(log: seq<Out>): seq<string> {
    if log == [] then []
    else
      match log[|log| - 1]
      case Connected(_, _) => []
      case Drained(line, _, _) => Drains(log[..|log| - 1]) + [line]
      case _ => Drains(log[..|log| - 1])
  }

  /** Times of the keepalive probes since the link was last heard. */
  function Probes(log: seq<Out>): seq<real> {
    if log == [] then []
    else
      match log[|log| - 1]
      case Connected(_, _) => []
      case Heard(_) => []
      case Probe(at) => Probes(log[..|log| - 1]) + [at]
      case _ => Probes(log[..|log| - 1])
  }

  /** The last received byte, or connection, to the start of the 60 s: zero once something was heard. */
  function Gap(log: seq<Out>): real {
    if log == [] then 0.0
    else
      match log[|log| - 1]
      case Connected(rxAt, kaAt) => kaAt - rxAt
      case Heard(_) => 0.0
      case _ => Gap(log[..|log| - 1])
  }

  predicate StampsBy(log: seq<Out>, t: real) {
    forall i :: 0 <= i < |log| ==> (log[i].Drained? || log[i].Said?) ==> log[i].stamped <= t
  }

  /** Every drain is tested at least SEND_INTERVAL after every earlier drain and immediate message. */
  predicate Paced(log: seq<Out>) {
    forall i, j :: 0 <= i < j < |log| && (log[i].Drained? || log[i].Said?) && log[j].Drained? ==>
      log[j].tested - log[i].stamped >= SEND_INTERVAL
  }

  /** Probe k comes more than 90 + 60k seconds after the last byte, and none after 240. */
  predicate ProbesSpaced(ps: seq<real>, lastRx: real) {
    && (forall i :: 0 <= i < |ps| ==> PROBE_AFTER < ps[i] - lastRx <= READ_TIMEOUT)
    && (forall i, j :: 0 <= i < j < |ps| ==> ps[j] - ps[i] > PROBE_GAP * (j - i) as real)
  }

  /**
   The probes of the current silent stretch are spaced, and the last of them stamped lastKeepalive.  The
   first comes more than 60 s after the start of the stretch plus the gap; as long as there is none,
   lastKeepalive is no later than that start plus the gap, and just there if the gap is not zero.
   */
  predicate ProbesFit(ps: seq<real>, gap: real, lastRx: real, lastKeepalive: real) {
    && ProbesSpaced(ps, lastRx)
    && if ps == [] then lastKeepalive - lastRx <= gap && (gap > 0.0 ==> lastKeepalive - lastRx == gap)
       else ps[|ps| - 1] == lastKeepalive && ps[0] - lastRx > PROBE_GAP + gap
  }

  datatype Promise = NegotiatesOnce | FirstInFirstOut | Paces | IdleProbed

  /** What the state says about the log, promise by promise. */
  predicate Kept(p: Promise, b: BotState, log: seq<Out>, clock: real) {
    match p
    case NegotiatesOnce => CapEnds(log) == if b.capEnded then 1 else 0
    case FirstInFirstOut => Enqueues(log) == Drains(log) + b.outq
    case Paces => Paced(log) && StampsBy(log, b.lastSend) && b.lastSend <= clock
    case IdleProbed =>
      && b.lastRx <= clock && b.lastKeepalive <= clock
      && ProbesFit(Probes(log), Gap(log), b.lastRx, b.lastKeepalive)
  }

  /** The invariant of every run: the state agrees with the log. */
  ghost predicate Inv(b: BotState, log: seq<Out>, clock: real) {
    forall p: Promise :: Kept(p, b, log, clock)
  }

  /** The state change that goes with one entry of the log. */
  predicate Justified(b: BotState, o: Out, b': BotState, clock: real) {
    var same := b'.(outq := b.outq, lastSend := b.lastSend, capEnded := b.capEnded, lastRx := b.lastRx,
                    lastKeepalive := b.lastKeepalive);
    match o
    case Enqueued(line) => b' == same.(outq := b.outq + [line])
    case Drained(line, tested, stamped) =>
      && b.outq != [] && line == b.outq[0] && tested - b.lastSend >= SEND_INTERVAL && tested <= stamped <= clock
      && b' == same.(outq := b.outq[1..], lastSend := stamped)
    case Said(_, stamped) => b.lastSend <= stamped <= clock && b' == same.(lastSend := stamped)
    case Sent(_) => b' == same
    case CapReq(_) => b' == same
    case CapEnd => !b.capEnded && b' == same.(capEnded := true)
    case Probe(at) =>
      && PROBE_AFTER < at - b.lastRx <= READ_TIMEOUT && at - b.lastKeepalive > PROBE_GAP && at <= clock
      && b' == same.(lastKeepalive := at)
    case Heard(at) => b.lastRx <= at <= clock && b.lastKeepalive <= at && b' == same.(lastRx := at)
    case Connected(rxAt, kaAt) =>
      && rxAt <= kaAt <= clock
      && b' == same.(outq := [], capEnded := false, lastRx := rxAt, lastKeepalive := kaAt)
  }

  lemma LogEntry(log: seq<Out>, o: Out)
    ensures CapEnds(log + [o]) == if o.Connected? then 0 else CapEnds(log) + if o.CapEnd? then 1 else 0
    ensures Enqueues(log + [o]) == if o.Connected? then [] else Enqueues(log) + if o.Enqueued? then [o.line] else []
    ensures Drains(log + [o]) == if o.Connected? then [] else Drains(log) + if o.Drained? then [o.line] else []
    ensures Probes(log + [o])
            == if o.Connected? || o.Heard? then [] else Probes(log) + if o.Probe? then [o.at] else []
    ensures Gap(log + [o]) == if o.Connected? then o.kaAt - o.rxAt else if o.Heard? then 0.0 else Gap(log)
  {
    assert (log + [o])[..|log|] == log;
  }

  lemma PacingEntry(b: BotState, log: seq<Out>, o: Out, b': BotState, clock: real)
    requires Kept(Paces, b, log, clock) && Justified(b, o, b', clock)
    ensures Kept(Paces, b', log + [o], clock)
  {}

  lemma ProbeEntry(ps: seq<real>, lastRx: real, at: real)
    requires ProbesSpaced(ps, lastRx)
    requires ps != [] ==> at - ps[|ps| - 1] > PROBE_GAP
    requires PROBE_AFTER < at - lastRx <= READ_TIMEOUT
    ensures ProbesSpaced(ps + [at], lastRx)
  {
    var qs := ps + [at];
    forall i, j | 0 <= i < j < |qs|
      ensures qs[j] - qs[i] > PROBE_GAP * (j - i) as real
    {
      if j == |ps| && i < |ps| - 1 {
        assert ps[|ps| - 1] - ps[i] > PROBE_GAP * (|ps| - 1 - i) as real;
      }
    }
  }

  lemma QueueEntry(b: BotState, log: seq<Out>, o: Out, b': BotState, clock: real)
    requires Kept(FirstInFirstOut, b, log, clock) && Justified(b, o, b', clock)
    ensures Kept(FirstInFirstOut, b', log + [o], clock)
  {
    LogEntry(log, o);
    match o {
      case Enqueued(line) => Reassociate(Drains(log), b.outq, [line]);
      case Drained(line, _, _) =>
        assert b.outq == [line] + b'.outq;
        Reassociate(Drains(log), [line], b'.outq);
      case _ =>
    }
  }

  lemma LinkEntry(b: BotState, log: seq<Out>, o: Out, b': BotState, clock: real)
    requires Kept(IdleProbed, b, log, clock) && Justified(b, o, b', clock)
    ensures Kept(IdleProbed, b', log + [o], clock)
  {
    LogEntry(log, o);
    var ps := Probes(log);
    if o.Probe? {
      ProbeEntry(ps, b.lastRx, o.at);
      assert (ps + [o.at])[|ps|] == o.at;
    } else if !o.Connected? && !o.Heard? {
      assert ps + [] == ps;
      assert b'.lastRx == b.lastRx && b'.lastKeepalive == b.lastKeepalive;
    }
  }

  lemma CapEntry(b: BotState, log: seq<Out>, o: Out, b': BotState, clock: real)
    requires Kept(NegotiatesOnce, b, log, clock) && Justified(b, o, b', clock)
    ensures Kept(NegotiatesOnce, b', log + [o], clock)
  {
    LogEntry(log, o);
  }

  lemma EntryKeepsInv(b: BotState, log: seq<Out>, o: Out, b': BotState, clock: real)
    requires Inv(b, log, clock) && Justified(b, o, b', clock)
    ensures Inv(b', log + [o], clock)
  {
    forall p: Promise
      ensures Kept(p, b', log + [o], clock)
    {
      assert Kept(p, b, log, clock);
      match p {
        case NegotiatesOnce => CapEntry(b, log, o, b', clock);
        case FirstInFirstOut => QueueEntry(b, log, o, b', clock);
        case Paces => PacingEntry(b, log, o, b', clock);
        case IdleProbed => LinkEntry(b, log, o, b', clock);
      }
    }
  }

  /** A sequence of log entries, each justified by the state change it goes with. */
  ghost predicate Explained(b: BotState, outs: seq<Out>, b': BotState, clock: real)
    decreases |outs|
  {
    if outs == [] then Irrelevant(b, b')
    else exists m :: Justified(b, outs[0], m, clock) && Explained(m, outs[1..], b', clock)
  }

  /** The two states agree on everything the log speaks about. */
  predicate Irrelevant(b: BotState, b': BotState) {
    && b'.outq == b.outq && b'.lastSend == b.lastSend && b'.capEnded == b.capEnded
    && b'.lastRx == b.lastRx && b'.lastKeepalive == b.lastKeepalive
  }

  /** Fields that the log does not speak about may change at any time. */
  lemma OtherFields(b: BotState, log: seq<Out>, clock: real, b': BotState)
    requires Inv(b, log, clock) && Irrelevant(b, b')
    ensures Inv(b', log, clock)
  {
    forall p: Promise
      ensures Kept(p, b', log, clock)
    {
      assert Kept(p, b, log, clock);
    }
  }

  lemma {:induction false} ExplainedKeepsInv(b: BotState, log: seq<Out>, outs: seq<Out>, b': BotState, clock: real)
    requires Inv(b, log, clock) && Explained(b, outs, b', clock)
    ensures Inv(b', log + outs, clock)
    decreases |outs|
  {
    if outs == [] {
      assert log + [] == log;
      OtherFields(b, log, clock, b');
    } else {
      var m :| Justified(b, outs[0], m, clock) && Explained(m, outs[1..], b', clock);
      EntryKeepsInv(b, log, outs[0], m, clock);
      ExplainedKeepsInv(m, log + [outs[0]], outs[1..], b', clock);
      assert log + [outs[0]] + outs[1..] == log + outs;
    }
  }

  lemma ExplainOne(b: BotState, o: Out, b': BotState, clock: real)
    requires Justified(b, o, b', clock)
    ensures Explained(b, [o], b', clock)
  {
    assert [o][1..] == [];
    assert Explained(b', [], b', clock);
  }

  lemma {:induction false} ExplainBoth(b: BotState, x: seq<Out>, m: BotState, y: seq<Out>, b': BotState, clock: real)
    requires Explained(b, x, m, clock) && Explained(m, y, b', clock)
    ensures Explained(b, x + y, b', clock)
    decreases |x|
  {
    if x == [] {
      PrependNothing(y);
      IrrelevantStart(b, m, y, b', clock);
    } else {
      var n :| Justified(b, x[0], n, clock) && Explained(n, x[1..], m, clock);
      ExplainBoth(n, x[1..], m, y, b', clock);
      assert (x + y)[1..] == x[1..] + y;
    }
  }

  lemma {:induction false} IrrelevantStart(b: BotState, m: BotState, outs: seq<Out>, b': BotState, clock: real)
    requires Irrelevant(b, m) && Explained(m, outs, b', clock)
    ensures Explained(b, outs, b', clock)
  {
    if outs != [] {
      var n :| Justified(m, outs[0], n, clock) && Explained(n, outs[1..], b', clock);
      assert Justified(b, outs[0], n, clock);
    }
  }

  // ----- Every step is explained by what it logs ----------------------------------------------------------

  ghost predicate Accounts(b: BotState, r: Result, clock: real) {
    Explained(b, r.outs, r.state, clock)
  }

  lemma {:induction false} EffectsAccount(b: BotState, es: seq<Effect>, from: real, clock: real)
    requires b.lastSend <= from && InOrder(from, es) && ClockAfter(from, es) <= clock
    ensures Accounts(b, DoEffects(b, es), clock)
    decreases |es|
  {
    if es != [] {
      var first, next := DoEffect(b, es[0]), if es[0].Say? then es[0].at else from;
      EffectsTakeTime(next, es[1..]);
      ExplainOne(b, first.outs[0], first.state, clock);
      EffectsAccount(first.state, es[1..], next, clock);
      var rest := DoEffects(first.state, es[1..]);
      ExplainBoth(b, first.outs, first.state, rest.outs, rest.state, clock);
    }
  }

  lemma EndCapAccounts(b: BotState, at: real)
    ensures Accounts(b, EndCap(b), at)
  {
    if !b.capEnded { ExplainOne(b, CapEnd, EndCap(b).state, at); }
  }

  lemma HandleAccounts(cfg: Config, b: BotState, c: Command, effects: seq<Effect>, from: real, clock: real)
    requires b.lastSend <= from && InOrder(from, effects) && ClockAfter(from, effects) <= clock
    ensures Accounts(b, Handle(cfg, b, c, effects), clock)
  {
    var r := Handle(cfg, b, c, effects);
    match c {
      case Ping(token) => ExplainOne(b, r.outs[0], b, clock);
      case CapLs(more, offered) => LsAccounts(cfg, b, more, offered, clock);
      case CapAck(acked) => AckAccounts(cfg, b, acked, clock);
      case CapNak => EndCapAccounts(b, clock);
      case CapOther =>
      case Authenticate(ready) => if ready { ExplainOne(b, r.outs[0], b, clock); }
      case SaslOutcome => EndCapAccounts(b, clock);
      case NickInUse => ExplainOne(b, r.outs[0], r.state, clock);
      case Welcome => WelcomeAccounts(cfg, b, effects, from, clock);
      case Other => EffectsAccount(b, effects, from, clock);
    }
  }

  lemma LsAccounts(cfg: Config, b: BotState, more: bool, offered: seq<string>, at: real)
    ensures Accounts(b, HandleLs(cfg, b, more, offered), at)
  {
    var r, n := HandleLs(cfg, b, more, offered), b.(capLs := b.capLs + CapNames(offered));
    if !more {
      if Wanted(cfg, n.capLs) != {} {
        ExplainOne(n, r.outs[0], r.state, at);
      } else {
        EndCapAccounts(n, at);
      }
      IrrelevantStart(b, n, r.outs, r.state, at);
    }
  }

  lemma AckAccounts(cfg: Config, b: BotState, acked: seq<string>, at: real)
    ensures Accounts(b, HandleAck(cfg, b, acked), at)
  {
    var r, n := HandleAck(cfg, b, acked), b.(caps := b.caps + set c | c in acked);
    if "sasl" in acked && cfg.sasl {
      ExplainOne(n, r.outs[0], r.state, at);
    } else {
      EndCapAccounts(n, at);
    }
    IrrelevantStart(b, n, r.outs, r.state, at);
  }

  lemma WelcomeAccounts(cfg: Config, b: BotState, effects: seq<Effect>, from: real, clock: real)
    requires b.lastSend <= from && InOrder(from, effects) && ClockAfter(from, effects) <= clock
    ensures Accounts(b, Handle(cfg, b, Welcome, effects), clock)
  {
    if b.joined {
      EffectsAccount(b, effects, from, clock);
    } else {
      var n := b.(registered := true);
      var r := DoEffects(n, effects);
      ExplainOne(b, Sent("JOIN " + cfg.channel), n, clock);
      EffectsAccount(n, effects, from, clock);
      ExplainBoth(b, [Sent("JOIN " + cfg.channel)], n, r.outs, r.state, clock);
      var outs := [Sent("JOIN " + cfg.channel)] + r.outs;
      ExplainNothing(r.state, r.state.(joined := true), clock);
      ExplainBoth(b, outs, r.state, [], r.state.(joined := true), clock);
      assert outs + [] == outs;
    }
  }

  lemma ExplainNothing(b: BotState, b': BotState, clock: real)
    requires Irrelevant(b, b')
    ensures Explained(b, [], b', clock)
  {}

  lemma ChecksAccount(b: BotState, now: real, effects: seq<Effect>)
    requires b.lastSend <= now && InOrder(now, effects)
    ensures Accounts(b, LoopChecks(b, now, effects), ClockAfter(now, effects))
  {
    if now - b.lastRx <= READ_TIMEOUT {
      var clock := ClockAfter(now, effects);
      var k := KeepAlive(b, now);
      var c := CapSafetyNet(k.state, now);
      var es := if b.joined then effects else [];
      var e := DoEffects(c.state, es);
      EffectsTakeTime(now, effects);
      if k.outs != [] { ExplainOne(b, Probe(now), k.state, clock); }
      if c.outs != [] { EndCapAccounts(k.state, clock); }
      EffectsAccount(c.state, es, now, clock);
      ExplainBoth(b, k.outs, k.state, c.outs, c.state, clock);
      ExplainBoth(b, k.outs + c.outs, c.state, e.outs, e.state, clock);
    }
  }

  lemma OpenAccounts(cfg: Config, b: BotState, at: real, rxAt: real, kaAt: real)
    requires rxAt <= kaAt
    ensures Accounts(b, Open(cfg, b, at, rxAt, kaAt), kaAt)
  {
    var r := Open(cfg, b, at, rxAt, kaAt);
    ExplainOne(b, Connected(rxAt, kaAt), r.state, kaAt);
    SentAccounts(r.state, Greeting(cfg), kaAt);
    ExplainBoth(b, [Connected(rxAt, kaAt)], r.state, Greeting(cfg), r.state, kaAt);
  }

  lemma {:induction false} SentAccounts(b: BotState, outs: seq<Out>, clock: real)
    requires forall i :: 0 <= i < |outs| ==> outs[i].Sent?
    ensures Explained(b, outs, b, clock)
  {
    if outs != [] {
      SentAccounts(b, outs[1..], clock);
      assert Justified(b, outs[0], b, clock);
    }
  }

  lemma LaterClock(b: BotState, log: seq<Out>, clock: real, later: real)
    requires Inv(b, log, clock) && clock <= later
    ensures Inv(b, log, later) && b.lastSend <= clock && b.lastRx <= clock && b.lastKeepalive <= clock
  {
    assert Kept(Paces, b, log, clock) && Kept(IdleProbed, b, log, clock);
    forall p: Promise
      ensures Kept(p, b, log, later)
    {
      assert Kept(p, b, log, clock);
    }
  }

  /** Every step of every run keeps the invariant. */
  lemma StepKeepsInv(cfg: Config, b: BotState, log: seq<Out>, clock: real, e: Event)
    requires Inv(b, log, clock) && Possible(b, clock, e)
    ensures Inv(Step(cfg, b, e).state, log + Step(cfg, b, e).outs, Ends(e, clock))
  {
    var last, r := Ends(e, clock), Step(cfg, b, e);
    ClockAdvances(clock, e);
    LaterClock(b, log, clock, last);
    match e {
      case Connect(at, rxAt, kaAt) => OpenAccounts(cfg, b, at, rxAt, kaAt);
      case Receive(at) => ExplainOne(b, r.outs[0], r.state, last);
      case Line(text, effects) => HandleAccounts(cfg, b, Classify(text), effects, clock, last);
      case Pump(tested, stamped) => if r.outs != [] { ExplainOne(b, r.outs[0], r.state, last); }
      case Check(now, effects) => ChecksAccount(b, now, effects);
      case Lost =>
    }
    ExplainedKeepsInv(b, log, r.outs, r.state, last);
  }

  function LastClock(clock: real, es: seq<Event>): real
    decreases |es|
  {
    if es == [] then clock else LastClock(Ends(es[0], clock), es[1..])
  }

  lemma {:induction false} RunKeepsInv(cfg: Config, b: BotState, log: seq<Out>, clock: real, es: seq<Event>)
    requires Inv(b, log, clock) && Run(cfg, b, clock, es)
    ensures Inv(Exec(cfg, b, es).state, log + Exec(cfg, b, es).outs, LastClock(clock, es))
    decreases |es|
  {
    if es == [] {
      assert log + [] == log;
    } else {
      var r := Step(cfg, b, es[0]);
      StepKeepsInv(cfg, b, log, clock, es[0]);
      RunKeepsInv(cfg, r.state, log + r.outs, Ends(es[0], clock), es[1..]);
      Reassociate(log, r.outs, Exec(cfg, r.state, es[1..]).outs);
    }
  }

  /** A run in two parts. */
  lemma {:induction false} RunAppend(cfg: Config, b: BotState, clock: real, x: seq<Event>, y: seq<Event>)
    ensures var first := Exec(cfg, b, x);
            var rest := Exec(cfg, first.state, y);
            && Exec(cfg, b, x + y) == Result(rest.state, first.outs + rest.outs)
            && (Run(cfg, b, clock, x + y)
                <==> Run(cfg, b, clock, x) && Run(cfg, first.state, LastClock(clock, x), y))
            && LastClock(clock, x + y) == LastClock(LastClock(clock, x), y)
    decreases |x|
  {
    if x == [] {
      PrependNothing(y);
      PrependNothing(Exec(cfg, b, y).outs);
    } else {
      var one := Step(cfg, b, x[0]);
      assert (x + y)[0] == x[0] && (x + y)[1..] == x[1..] + y;
      RunAppend(cfg, one.state, Ends(x[0], clock), x[1..], y);
      var first := Exec(cfg, one.state, x[1..]);
      Reassociate(one.outs, first.outs, Exec(cfg, first.state, y).outs);
    }
  }

  /** The bot, its log and its clock between two events. */
  datatype Moment = Moment(state: BotState, log: seq<Out>, clock: real)

  datatype Part = Events | State | Log | Clock

  /** One part of saying that the events can happen at `m` and end at `m'`. */
  predicate PartLeads(part: Part, cfg: Config, m: Moment, es: seq<Event>, m': Moment) {
    match part
    case Events => Run(cfg, m.state, m.clock, es)
    case State => m'.state == Exec(cfg, m.state, es).state
    case Log => m'.log == m.log + Exec(cfg, m.state, es).outs
    case Clock => m'.clock == LastClock(m.clock, es)
  }

  /** The events can happen at `m`, and `m'` is the moment after the last of them. */
  ghost predicate Leads(cfg: Config, m: Moment, es: seq<Event>, m': Moment) {
    forall part: Part :: PartLeads(part, cfg, m, es, m')
  }

  lemma LeadsMeans(cfg: Config, m: Moment, es: seq<Event>, m': Moment)
    ensures Leads(cfg, m, es, m')
            <==> Run(cfg, m.state, m.clock, es)
                 && m' == Moment(Exec(cfg, m.state, es).state, m.log + Exec(cfg, m.state, es).outs,
                                 LastClock(m.clock, es))
  {
    if Leads(cfg, m, es, m') {
      assert PartLeads(Events, cfg, m, es, m') && PartLeads(State, cfg, m, es, m');
      assert PartLeads(Log, cfg, m, es, m') && PartLeads(Clock, cfg, m, es, m');
    }
  }

  lemma LeadsOne(cfg: Config, m: Moment, e: Event, m': Moment)
    ensures Leads(cfg, m, [e], m')
            <==> Possible(m.state, m.clock, e)
                 && m' == Moment(Step(cfg, m.state, e).state, m.log + Step(cfg, m.state, e).outs, Ends(e, m.clock))
  {
    LeadsMeans(cfg, m, [e], m');
    var r := Step(cfg, m.state, e);
    assert [e][1..] == [];
    assert r.outs + [] == r.outs;
  }

  lemma PumpLeads(cfg: Config, m: Moment, tested: real, stamped: real, m': Moment)
    requires m.state.alive && m.clock <= tested <= stamped
    requires var r := PumpOut(m.state, tested, stamped); m' == Moment(r.state, m.log + r.outs, stamped)
    ensures Leads(cfg, m, [Pump(tested, stamped)], m')
  {
    LeadsOne(cfg, m, Pump(tested, stamped), m');
  }

  lemma OpenLeads(cfg: Config, m: Moment, at: real, rxAt: real, kaAt: real, m': Moment)
    requires m.clock <= at <= rxAt <= kaAt
    requires var r := Open(cfg, m.state, at, rxAt, kaAt); m' == Moment(r.state, m.log + r.outs, kaAt)
    ensures Leads(cfg, m, [Connect(at, rxAt, kaAt)], m')
  {
    LeadsOne(cfg, m, Connect(at, rxAt, kaAt), m');
  }

  lemma LeadsNowhere(cfg: Config, m: Moment, m': Moment)
    ensures Leads(cfg, m, [], m') <==> m == m'
  {
    LeadsMeans(cfg, m, [], m');
    assert m.log + [] == m.log;
  }

  /** The moment between the two halves of a run. */
  lemma LeadsBetween(cfg: Config, m: Moment, x: seq<Event>, y: seq<Event>, m': Moment) returns (mid: Moment)
    requires Leads(cfg, m, x + y, m')
    ensures Leads(cfg, m, x, mid) && Leads(cfg, mid, y, m')
  {
    RunAppend(cfg, m.state, m.clock, x, y);
    var first := Exec(cfg, m.state, x);
    mid := Moment(first.state, m.log + first.outs, LastClock(m.clock, x));
    Reassociate(m.log, first.outs, Exec(cfg, first.state, y).outs);
    LeadsMeans(cfg, m, x + y, m');
    LeadsMeans(cfg, m, x, mid);
    LeadsMeans(cfg, mid, y, m');
  }

  lemma LeadsOneWay(cfg: Config, m: Moment, es: seq<Event>, one: Moment, two: Moment)
    requires Leads(cfg, m, es, one) && Leads(cfg, m, es, two)
    ensures one == two
  {
    LeadsMeans(cfg, m, es, one);
    LeadsMeans(cfg, m, es, two);
  }

  /** What remains of a run once its first part has happened. */
  lemma LeadsOn(cfg: Config, m: Moment, x: seq<Event>, mid: Moment, y: seq<Event>, m': Moment)
    requires Leads(cfg, m, x + y, m') && Leads(cfg, m, x, mid)
    ensures Leads(cfg, mid, y, m')
  {
    var between := LeadsBetween(cfg, m, x, y, m');
    LeadsOneWay(cfg, m, x, mid, between);
  }

  lemma FirstIsPossible(cfg: Config, m: Moment, e: Event, es: seq<Event>, m': Moment)
    requires Leads(cfg, m, [e] + es, m')
    ensures Possible(m.state, m.clock, e)
  {
    var mid := LeadsBetween(cfg, m, [e], es, m');
    LeadsOne(cfg, m, e, mid);
  }

  lemma FreshStart(cfg: Config)
    ensures Inv(Initial(cfg), [], 0.0)
  {}

  lemma WholeRun(cfg: Config, es: seq<Event>)
    requires Run(cfg, Initial(cfg), 0.0, es)
    ensures Inv(Exec(cfg, Initial(cfg), es).state, Exec(cfg, Initial(cfg), es).outs, LastClock(0.0, es))
  {
    FreshStart(cfg);
    RunKeepsInv(cfg, Initial(cfg), [], 0.0, es);
    PrependNothing(Exec(cfg, Initial(cfg), es).outs);
  }

  // ----- The promises -----------------------------------------------------------------------------------

  lemma NegotiationPromise(b: BotState, log: seq<Out>, clock: real)
    requires Inv(b, log, clock)
    ensures CapEnds(log) == if b.capEnded then 1 else 0
  {
    assert Kept(NegotiatesOnce, b, log, clock);
  }

  lemma QueuePromise(b: BotState, log: seq<Out>, clock: real)
    requires Inv(b, log, clock)
    ensures Drains(log) + b.outq == Enqueues(log) && Paced(log)
  {
    assert Kept(FirstInFirstOut, b, log, clock) && Kept(Paces, b, log, clock);
  }

  lemma ProbePromise(b: BotState, log: seq<Out>, clock: real)
    requires Inv(b, log, clock)
    ensures |Probes(log)| <= 3 && ProbesSpaced(Probes(log), b.lastRx)
  {
    assert Kept(IdleProbed, b, log, clock);
    FewProbes(Probes(log), b.lastRx);
  }

  /** Three gaps of more than 60 s do not fit between 90 s and 240 s. */
  lemma FewProbes(ps: seq<real>, lastRx: real)
    requires ProbesSpaced(ps, lastRx)
    ensures |ps| <= 3
  {
    var n := |ps| - 1;
    if n >= 1 {
      assert ps[n] - ps[0] > PROBE_GAP * (n - 0) as real;
    }
  }

  /** CAP END is sent at most once per connection, whatever the server says and however often. */
  lemma CapEndAtMostOnce(cfg: Config, es: seq<Event>)
    requires Run(cfg, Initial(cfg), 0.0, es)
    ensures var r := Exec(cfg, Initial(cfg), es);
            CapEnds(r.outs) <= 1 && (CapEnds(r.outs) == 1 <==> r.state.capEnded)
  {
    WholeRun(cfg, es);
    var r := Exec(cfg, Initial(cfg), es);
    NegotiationPromise(r.state, r.outs, LastClock(0.0, es));
  }

  /** Paced queue: first in, first out, nothing lost or repeated, and never faster than the interval. */
  lemma PacedQueue(cfg: Config, es: seq<Event>)
    requires Run(cfg, Initial(cfg), 0.0, es)
    ensures var r := Exec(cfg, Initial(cfg), es);
            Drains(r.outs) + r.state.outq == Enqueues(r.outs) && Paced(r.outs)
  {
    WholeRun(cfg, es);
    var r := Exec(cfg, Initial(cfg), es);
    QueuePromise(r.state, r.outs, LastClock(0.0, es));
  }

  /** Keepalive: at most three probes per silent stretch, late enough and far enough apart. */
  lemma AtMostThreeProbes(cfg: Config, es: seq<Event>)
    requires Run(cfg, Initial(cfg), 0.0, es)
    ensures var r := Exec(cfg, Initial(cfg), es);
            |Probes(r.outs)| <= 3 && ProbesSpaced(Probes(r.outs), r.state.lastRx)
  {
    WholeRun(cfg, es);
    var r := Exec(cfg, Initial(cfg), es);
    ProbePromise(r.state, r.outs, LastClock(0.0, es));
  }

  /**
   One loop tick, at any state of any run: it gives up on the connection exactly when nothing has been
   received for more than 240 s, and otherwise leaves the bot registered, past CAP END, or within 5 s
   of connecting.
   */
  lemma TickPromises(cfg: Config, b: BotState, now: real, effects: seq<Effect>)
    requires b.alive
    ensures var r := Step(cfg, b, Check(now, effects)).state;
            && (r.alive <==> now - b.lastRx <= READ_TIMEOUT)
            && (r.alive ==> r.registered || r.capEnded || now - r.connectTs <= CAP_TIMEOUT)
            && (r.alive && now - r.lastRx > PROBE_AFTER ==> now - r.lastKeepalive <= PROBE_GAP)
            && (r.alive ==> r.lastRx == b.lastRx && (r.lastKeepalive == now || r.lastKeepalive == b.lastKeepalive))
  {
    var k := KeepAlive(b, now);
    var c := CapSafetyNet(k.state, now);
    EffectsFrame(c.state, if b.joined then effects else []);
  }

  /** The log has a probe of the current silent stretch, no more than PROBE_GAP ago. */
  predicate ProbedLately(log: seq<Out>, now: real) {
    var ps := Probes(log);
    ps != [] && now - ps[|ps| - 1] <= PROBE_GAP
  }

  /**
   In a state that agrees with its log, a keepalive stamp of the last 60 s is a probe in the log exactly
   when the silence has outlasted the gap by 60 s.
   */
  lemma StampIsProbe(b: BotState, log: seq<Out>, clock: real, now: real)
    requires Inv(b, log, clock)
    requires b.lastKeepalive <= now <= b.lastKeepalive + PROBE_GAP
    ensures ProbedLately(log, now) <==> now - b.lastRx > PROBE_GAP + Gap(log)
  {
    assert Kept(IdleProbed, b, log, clock);
    var ps := Probes(log);
    if |ps| > 1 {
      assert ps[|ps| - 1] - ps[0] > PROBE_GAP * (|ps| - 1) as real;
    }
  }

  /** The promises about the link, in a state whose keepalive stamp is fresh when the link is idle. */
  lemma LinkPromise(b: BotState, log: seq<Out>, clock: real, now: real)
    requires Inv(b, log, clock)
    requires b.lastKeepalive <= now && (now - b.lastRx > PROBE_AFTER ==> now - b.lastKeepalive <= PROBE_GAP)
    ensures |Probes(log)| <= 3 && ProbesSpaced(Probes(log), b.lastRx)
    ensures now - b.lastRx > PROBE_AFTER ==> (ProbedLately(log, now) <==> now - b.lastRx > PROBE_GAP + Gap(log))
  {
    ProbePromise(b, log, clock);
    if now - b.lastRx > PROBE_AFTER {
      StampIsProbe(b, log, clock, now);
    }
  }

  /**
   When an idle link has been probed: after any run that ends with a tick which did not give up, a link
   silent for more than 90 s has a probe in the log of the last 60 s if and only if it has been silent
   for more than 60 s plus the gap.  The head of `loop` stamps the keepalive without a probe, the gap
   after it stamps the link; until something is heard, a gap of more than 30 s delays the first probe.
   */
  lemma IdleLinkProbed(cfg: Config, es: seq<Event>, now: real, effects: seq<Effect>)
    requires Run(cfg, Initial(cfg), 0.0, es + [Check(now, effects)])
    ensures var r := Exec(cfg, Initial(cfg), es + [Check(now, effects)]);
            var idle := now - r.state.lastRx;
            r.state.alive && idle > PROBE_AFTER ==> (ProbedLately(r.outs, now) <==> idle > PROBE_GAP + Gap(r.outs))
  {
    var tick := Check(now, effects);
    var before, r := Exec(cfg, Initial(cfg), es), Exec(cfg, Initial(cfg), es + [tick]);
    RunAppend(cfg, Initial(cfg), 0.0, es, [tick]);
    WholeRun(cfg, es);
    WholeRun(cfg, es + [tick]);
    LaterClock(before.state, before.outs, LastClock(0.0, es), LastClock(0.0, es));
    assert [tick][1..] == [];
    TickPromises(cfg, before.state, now, effects);
    if r.state.alive {
      LinkPromise(r.state, r.outs, LastClock(0.0, es + [tick]), now);
    }
  }

  /** It happens: 50 s between the two readings, and at 100 s of silence there is no probe. */
  lemma GapDelaysProbe(cfg: Config)
    ensures var es := [Connect(0.0, 0.0, 50.0)] + [Check(100.0, [])];
            var r := Exec(cfg, Initial(cfg), es);
            Run(cfg, Initial(cfg), 0.0, es) && r.state.alive && r.state.lastRx == 0.0 && Probes(r.outs) == []
  {
    var open, tick := Connect(0.0, 0.0, 50.0), Check(100.0, []);
    var es := [open] + [tick];
    var b, r := Open(cfg, Initial(cfg), 0.0, 0.0, 50.0).state, Exec(cfg, Initial(cfg), es);
    assert es[0] == open && es[1..] == [tick] && [tick][1..] == [];
    var after := Step(cfg, b, tick).state;
    TickPromises(cfg, b, 100.0, []);
    assert Exec(cfg, b, [tick]).state == Exec(cfg, after, [tick][1..]).state == after;
    assert after.lastKeepalive == 50.0;
    assert Run(cfg, b, 50.0, [tick]);
    WholeRun(cfg, es);
    assert Kept(IdleProbed, r.state, r.outs, LastClock(0.0, es));
  }

  /** Pumps whose tests come at least the interval after the send before. */
  predicate SpacedPumps(lastSend: real, pumps: seq<(real, real)>)
    decreases |pumps|
  {
    pumps == [] || (pumps[0].0 - lastSend >= SEND_INTERVAL && SpacedPumps(pumps[0].1, pumps[1..]))
  }

  function PumpEvents(pumps: seq<(real, real)>): seq<Event> {
    if pumps == [] then [] else [Pump(pumps[0].0, pumps[0].1)] + PumpEvents(pumps[1..])
  }

  /** Progress: k spaced pumps of a queue that holds k lines or more send exactly its first k lines. */
  lemma {:induction false} SpacedPumpsDrain(cfg: Config, b: BotState, pumps: seq<(real, real)>)
    requires SpacedPumps(b.lastSend, pumps) && |pumps| <= |b.outq|
    ensures var r := Exec(cfg, b, PumpEvents(pumps));
            && r.state.outq == b.outq[|pumps|..]
            && |r.outs| == |pumps|
            && forall i :: 0 <= i < |pumps| ==> r.outs[i] == Drained(b.outq[i], pumps[i].0, pumps[i].1)
    decreases |pumps|
  {
    if pumps != [] {
      var n := PumpOut(b, pumps[0].0, pumps[0].1).state;
      assert n.outq == b.outq[1..];
      SpacedPumpsDrain(cfg, n, pumps[1..]);
      PumpFirst(cfg, b, pumps[0].0, pumps[0].1, PumpEvents(pumps[1..]));
      assert n.outq[|pumps| - 1..] == b.outq[|pumps|..];
    }
  }

  lemma PumpFirst(cfg: Config, b: BotState, tested: real, stamped: real, es: seq<Event>)
    ensures var first := PumpOut(b, tested, stamped);
            var rest := Exec(cfg, first.state, es);
            Exec(cfg, b, [Pump(tested, stamped)] + es) == Result(rest.state, first.outs + rest.outs)
  {
    assert ([Pump(tested, stamped)] + es)[0] == Pump(tested, stamped);
    assert ([Pump(tested, stamped)] + es)[1..] == es;
  }

  /** The capabilities worth asking for: wanted ones that were offered, SASL only when it is configured. */
  predicate Asked(cfg: Config, offered: set<string>, c: string) {
    c in offered && (c in WANT_CAPS || (c == "sasl" && cfg.sasl))
  }

  predicate Precedes(a: string, b: string) {
    if a == [] then b != []
    else b != [] && (a[0] < b[0] || (a[0] == b[0] && Precedes(a[1..], b[1..])))
  }

  /** Strictly ascending in the order of code points. */
  predicate Ascending(s: seq<string>) {
    forall i, j :: 0 <= i < j < |s| ==> Precedes(s[i], s[j])
  }

  /** The output asks for exactly the capabilities worth asking for, in ascending order. */
  ghost predicate Requests(cfg: Config, offered: set<string>, o: Out) {
    o.CapReq? && Ascending(o.caps) && forall c :: c in o.caps <==> Asked(cfg, offered, c)
  }

  /** The offer holds something worth asking for. */
  ghost predicate Tempts(cfg: Config, offered: set<string>) {
    exists c :: Asked(cfg, offered, c)
  }

  /**
   The reply to a complete offer: a request that names exactly the capabilities worth asking for, in
   ascending order; or, when there are none, the end of negotiation.
   */
  lemma ReplyToOffer(cfg: Config, b: BotState, offered: seq<string>)
    ensures var r, all := HandleLs(cfg, b, false, offered), b.capLs + CapNames(offered);
            if Tempts(cfg, all)
            then |r.outs| == 1 && Requests(cfg, all, r.outs[0]) && r.state.capEnded == b.capEnded
            else r.state.capEnded && r.outs == if b.capEnded then [] else [CapEnd]
  {
    RequestNames(cfg, b.capLs + CapNames(offered));
  }

  /** The code's set of wanted names, sorted, is such a request; it is empty when there is nothing to ask for. */
  lemma RequestNames(cfg: Config, offered: set<string>)
    ensures Requests(cfg, offered, CapReq(Sorted(Wanted(cfg, offered))))
    ensures Wanted(cfg, offered) != {} <==> Tempts(cfg, offered)
  {
    WantedIsAsked(cfg, offered);
    SortedNames(Wanted(cfg, offered));
    if want :| want in Wanted(cfg, offered) {
      assert Asked(cfg, offered, want);
    }
  }

  /** `handle_cap` for LS, case by case. */
  lemma LsCases(cfg: Config, b: BotState, more: bool, offered: seq<string>)
    ensures var r, all := HandleLs(cfg, b, more, offered), b.capLs + CapNames(offered);
            if more then r == Result(b.(capLs := all), [])
            else if Tempts(cfg, all) then r == Result(b.(capLs := all), [CapReq(Sorted(Wanted(cfg, all)))])
            else r == Result(b.(capLs := all, capEnded := true), if b.capEnded then [] else [CapEnd])
  {
    RequestNames(cfg, b.capLs + CapNames(offered));
  }

  lemma WantedIsAsked(cfg: Config, offered: set<string>)
    ensures forall c :: c in Wanted(cfg, offered) <==> Asked(cfg, offered, c)
    ensures forall c :: c in Wanted(cfg, offered) ==> c in CAP_ORDER
  {
    assert CAP_ORDER[0] == "account-tag" && CAP_ORDER[1] == "echo-message" && CAP_ORDER[2] == "message-tags";
    assert CAP_ORDER[3] == "sasl" && CAP_ORDER[4] == "server-time";
  }

  lemma SortedNames(want: set<string>)
    requires forall c :: c in want ==> c in CAP_ORDER
    ensures Ascending(Sorted(want)) && forall c :: c in Sorted(want) <==> c in want
  {
    CapOrderAscends();
    FilterAscends(c => c in want, CAP_ORDER);
  }

  lemma CapOrderAscends()
    ensures Ascending(CAP_ORDER)
  {
    var o := CAP_ORDER;
    assert o[0][0] == 'a' && o[1][0] == 'e' && o[2][0] == 'm' && o[3][0] == 's' && o[4][0] == 's';
    assert o[3][1..][0] == 'a' && o[4][1..][0] == 'e';
    assert Precedes(o[3][1..], o[4][1..]);
  }

  lemma {:induction false} FilterAscends(p: string -> bool, s: seq<string>)
    requires Ascending(s)
    ensures Ascending(Filter(p, s)) && forall c :: c in Filter(p, s) <==> c in s && p(c)
  {
    if s != [] {
      FilterAscends(p, s[1..]);
      var rest := Filter(p, s[1..]);
      forall j | 0 <= j < |rest|
        ensures Precedes(s[0], rest[j])
      {
        assert rest[j] in s[1..];
      }
    }
  }

  /** Replies of the rest of the bot touch the queue and the pacing stamp only. */
  lemma {:induction false} EffectsFrame(b: BotState, es: seq<Effect>)
    ensures var r := DoEffects(b, es).state;
            r == b.(outq := r.outq, lastSend := r.lastSend)
    decreases |es|
  {
    if es != [] {
      var first := DoEffect(b, es[0]).state;
      assert first == b.(outq := first.outq, lastSend := first.lastSend);
      EffectsFrame(first, es[1..]);
    }
  }
}
