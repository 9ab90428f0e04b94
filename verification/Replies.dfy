/**
 What the bot says to each kind of line: the answers that go out, and the state they leave, told from the
 text of the line.
 */
module Replies {
  import opened Collections
  import opened Session
  import opened CapLines

  // ----- What other parts of the bot send ---------------------------------------------------------------

  /** The log entry of a reply that the rest of the bot makes. */
  function EntryOf(e: Effect): Out {
    match e
    case Queue(line) => Enqueued(line)
    case Say(line, at) => Said(line, at)
    case Raw(line) => Sent(line)
  }

  function Queued(es: seq<Effect>): seq<string> {
    if es == [] then [] else (if es[0].Queue? then [es[0].line] else []) + Queued(es[1..])
  }

  function LastSaid(stamp: real, es: seq<Effect>): real
    decreases |es|
  {
    if es == [] then stamp else LastSaid(if es[0].Say? then es[0].at else stamp, es[1..])
  }

  function WithEffects(b: BotState, es: seq<Effect>): BotState {
    b.(outq := b.outq + Queued(es), lastSend := LastSaid(b.lastSend, es))
  }

  /** All of them are logged, in order; queued lines join the queue, immediate ones stamp the pacing clock. */
  lemma {:induction false} EffectsLogged(b: BotState, es: seq<Effect>)
    ensures DoEffects(b, es) == Result(WithEffects(b, es), Map(EntryOf, es))
    decreases |es|
  {
    if es == [] {
      assert b.outq + [] == b.outq;
    } else {
      var first := DoEffect(b, es[0]);
      EffectsLogged(first.state, es[1..]);
      assert first.outs == [EntryOf(es[0])];
      assert first.state.outq == b.outq + if es[0].Queue? then [es[0].line] else [];
      Reassociate(b.outq, if es[0].Queue? then [es[0].line] else [], Queued(es[1..]));
    }
  }

  // ----- The reaction to a command ----------------------------------------------------------------------

  /** A step that says `outs` and leads from `b` to `b'` is the right reaction to the command. */
  ghost predicate Reacted(cfg: Config, c: Command, effects: seq<Effect>, b: BotState, b': BotState, outs: seq<Out>) {
    match c
    case Ping(token) => b' == b && outs == [Sent("PONG :" + token)]
    case CapLs(more, offered) => OfferTaken(cfg, more, offered, b, b', outs)
    case CapAck(acked) => AckTaken(cfg, acked, b, b', outs)
    case CapNak => NegotiationOver(b, b', outs)
    case CapOther => b' == b && outs == []
    case Authenticate(ready) => b' == b && outs == if ready then [Sent("AUTHENTICATE " + cfg.saslPayload)] else []
    case SaslOutcome => NegotiationOver(b, b', outs)
    case NickInUse => b' == b.(nick := b.nick + "_") && outs == [Sent("NICK " + (b.nick + "_"))]
    case Welcome =>
      if b.joined then b' == WithEffects(b, effects) && outs == Map(EntryOf, effects)
      else
        && b' == WithEffects(b, effects).(registered := true, joined := true)
        && outs == [Sent("JOIN " + cfg.channel)] + Map(EntryOf, effects)
    case Other => b' == WithEffects(b, effects) && outs == Map(EntryOf, effects)
  }

  /** One CAP END, unless there was one already. */
  predicate NegotiationOver(b: BotState, b': BotState, outs: seq<Out>) {
    b' == b.(capEnded := true) && outs == if b.capEnded then [] else [CapEnd]
  }

  ghost predicate OfferTaken(cfg: Config, more: bool, offered: seq<string>, b: BotState, b': BotState, outs: seq<Out>) {
    var known := b.(capLs := b.capLs + set c | c in offered :: CapName(c));
    if more then b' == known && outs == []
    else if Tempts(cfg, known.capLs) then b' == known && |outs| == 1 && Requests(cfg, known.capLs, outs[0])
    else NegotiationOver(known, b', outs)
  }

  ghost predicate AckTaken(cfg: Config, acked: seq<string>, b: BotState, b': BotState, outs: seq<Out>) {
    var known := b.(caps := b.caps + set c | c in acked);
    if "sasl" in acked && cfg.sasl then b' == known.(saslActive := true) && outs == [Sent("AUTHENTICATE PLAIN")]
    else NegotiationOver(known, b', outs)
  }

  lemma OffersTaken(cfg: Config, b: BotState, more: bool, offered: seq<string>)
    ensures var r := HandleLs(cfg, b, more, offered); OfferTaken(cfg, more, offered, b, r.state, r.outs)
  {
    LsCases(cfg, b, more, offered);
    RequestNames(cfg, b.capLs + CapNames(offered));
    NamesOf(offered);
  }

  lemma NamesOf(offered: seq<string>)
    ensures CapNames(offered) == set c | c in offered :: CapName(c)
  {
    forall i | 0 <= i < |offered|
      ensures CapName(offered[i]) in set c | c in offered :: CapName(c)
    {
      assert offered[i] in offered;
    }
    forall c | c in offered
      ensures CapName(c) in CapNames(offered)
    {
      var i :| 0 <= i < |offered| && offered[i] == c;
    }
  }

  /** The dispatcher reacts to every command as it should. */
  lemma AlwaysReacts(cfg: Config, c: Command, effects: seq<Effect>, b: BotState)
    ensures var r := Handle(cfg, b, c, effects); Reacted(cfg, c, effects, b, r.state, r.outs)
  {
    match c {
      case CapLs(more, offered) => OffersTaken(cfg, b, more, offered);
      case Welcome =>
        EffectsLogged(b, effects);
        EffectsLogged(b.(registered := true), effects);
      case Other => EffectsLogged(b, effects);
      case _ =>
    }
  }

  /** The run that is one line. */
  function OnLine(cfg: Config, b: BotState, text: string, effects: seq<Effect>): Result {
    Exec(cfg, b, [Line(text, effects)])
  }

  lemma LineReacts(cfg: Config, b: BotState, text: string, effects: seq<Effect>)
    ensures var r := OnLine(cfg, b, text, effects); Reacted(cfg, Classify(text), effects, b, r.state, r.outs)
  {
    HeardIs(cfg, b, text, effects);
    AlwaysReacts(cfg, Classify(text), effects, b);
  }

  lemma HeardIs(cfg: Config, b: BotState, text: string, effects: seq<Effect>)
    ensures OnLine(cfg, b, text, effects) == Handle(cfg, b, Classify(text), effects)
  {
    var es, h := [Line(text, effects)], Handle(cfg, b, Classify(text), effects);
    assert es[1..] == [] && es[0] == Line(text, effects);
    assert Exec(cfg, h.state, es[1..]) == Result(h.state, []);
    assert h.outs + [] == h.outs;
  }

  // ----- Lines of the protocol --------------------------------------------------------------------------

  predicate NoBlanks(s: string) {
    forall i :: 0 <= i < |s| ==> !IsBlank(s[i])
  }

  /** A server's line: its name, a command or numeric, and whatever follows. */
  function ServerLine(server: string, code: string, rest: string): string {
    ":" + server + " " + code + rest
  }

  predicate Parameters(rest: string) {
    rest == [] || IsBlank(rest[0])
  }

  lemma ServerLineFields(server: string, code: string, rest: string)
    requires NoBlanks(server) && Word(code) && Parameters(rest)
    ensures var line := ServerLine(server, code, rest);
            && StripTags(line) == line && |Fields(line)| >= 2
            && Fields(line)[0] == ":" + server && Fields(line)[1] == code
  {
    var line, ws := ServerLine(server, code, rest), [":" + server, code];
    assert Word(ws[0]) && Word(ws[1]);
    FieldsOfSpaced(ws, rest);
    assert ws[1..] == [code];
    assert Spaced(ws) + rest == line;
    assert line[0] == ':';
  }

  lemma ColonIsNoCommand(server: string)
    ensures ":" + server != "PING" && ":" + server != "AUTHENTICATE"
  {
    assert (":" + server)[0] == ':' && "PING"[0] == 'P' && "AUTHENTICATE"[0] == 'A';
  }

  /**
   A server's PING is answered with PONG and its token if and only if the token does not end in a blank
   and the server's name does not contain "PING"; the answer is a single line either way.
   */
  lemma ServerPingAnsweredIff(cfg: Config, b: BotState, server: string, token: string, effects: seq<Effect>)
    requires NoBlanks(server)
    ensures var r := OnLine(cfg, b, ServerLine(server, "PING", " :" + token), effects);
            && r.state == b && |r.outs| == 1 && r.outs[0].Sent?
            && (r.outs == [Sent("PONG :" + token)] <==> !EndsBlank(token) && !Occurs("PING", ":" + server + " "))
  {
    var line := PingLine(server, token);
    assert line == ServerLine(server, "PING", " :" + token);
    PingDispatched(server, token);
    TokenIsServersIff(server, token);
    LineReacts(cfg, b, line, effects);
    MentionsIsOccurs(":" + server + " ");
    SamePong(TokenOf(line), token);
  }

  lemma SamePong(a: string, b: string)
    ensures [Sent("PONG :" + a)] == [Sent("PONG :" + b)] <==> a == b
  {
    assert ("PONG :" + a)[6..] == a && ("PONG :" + b)[6..] == b;
  }

  /** The form without a server. */
  lemma PlainPingAnsweredIff(cfg: Config, b: BotState, token: string, effects: seq<Effect>)
    ensures var r := OnLine(cfg, b, "PING" + (" :" + token), effects);
            && r.state == b && |r.outs| == 1 && r.outs[0].Sent?
            && (r.outs == [Sent("PONG :" + token)] <==> !EndsBlank(token))
  {
    var line := "PING" + (" :" + token);
    PlainPingEchoedIff(token);
    LineReacts(cfg, b, line, effects);
    SamePong(Classify(line).token, token);
  }

  predicate IsWelcome(code: string) {
    code == "001" || code == "376" || code == "422"
  }

  /** The first welcome numeric registers the bot and joins the channel; a later one does neither again. */
  lemma WelcomeJoins(cfg: Config, b: BotState, server: string, code: string, rest: string, effects: seq<Effect>)
    requires NoBlanks(server) && IsWelcome(code) && Parameters(rest)
    ensures var r := OnLine(cfg, b, ServerLine(server, code, rest), effects);
            && r.outs == (if b.joined then [] else [Sent("JOIN " + cfg.channel)]) + Map(EntryOf, effects)
            && r.state.joined && r.state.registered == (b.registered || !b.joined)
            && r.state.outq == b.outq + Queued(effects)
  {
    NumericFields(server, code, rest);
    LineReacts(cfg, b, ServerLine(server, code, rest), effects);
    PrependNothing(Map(EntryOf, effects));
  }

  /** A nickname in use: the next one has one more underscore. */
  lemma NickRecovered(cfg: Config, b: BotState, server: string, code: string, rest: string, effects: seq<Effect>)
    requires NoBlanks(server) && (code == "433" || code == "436") && Parameters(rest)
    ensures var r := OnLine(cfg, b, ServerLine(server, code, rest), effects);
            r.outs == [Sent("NICK " + (b.nick + "_"))] && r.state == b.(nick := b.nick + "_")
  {
    NumericFields(server, code, rest);
    LineReacts(cfg, b, ServerLine(server, code, rest), effects);
  }

  predicate IsSaslNumeric(code: string) {
    code == "902" || code == "903" || code == "904" || code == "905" || code == "906" || code == "907"
  }

  /** However SASL ends, negotiation ends with it. */
  lemma SaslEndsNegotiation(cfg: Config, b: BotState, server: string, code: string, rest: string, effects: seq<Effect>)
    requires NoBlanks(server) && IsSaslNumeric(code) && Parameters(rest)
    ensures var r := OnLine(cfg, b, ServerLine(server, code, rest), effects);
            r.outs == (if b.capEnded then [] else [CapEnd]) && r.state == b.(capEnded := true)
  {
    NumericFields(server, code, rest);
    LineReacts(cfg, b, ServerLine(server, code, rest), effects);
  }

  /** Lines with any other command are left to the rest of the bot: what it replies is all that happens. */
  lemma OtherLinesPassOn(cfg: Config, b: BotState, server: string, code: string, rest: string, effects: seq<Effect>)
    requires NoBlanks(server) && Word(code) && Parameters(rest)
    requires code != "PING" && code != "CAP" && code != "433" && code != "436"
    requires !IsWelcome(code) && !IsSaslNumeric(code)
    ensures OnLine(cfg, b, ServerLine(server, code, rest), effects)
            == Result(WithEffects(b, effects), Map(EntryOf, effects))
  {
    ServerLineFields(server, code, rest);
    ColonIsNoCommand(server);
    assert Classify(ServerLine(server, code, rest)) == Other;
    LineReacts(cfg, b, ServerLine(server, code, rest), effects);
  }

  /** Three digits are a word, and no command that the dispatcher looks for first. */
  lemma NumericFields(server: string, code: string, rest: string)
    requires NoBlanks(server) && Parameters(rest)
    requires IsWelcome(code) || IsSaslNumeric(code) || code == "433" || code == "436"
    ensures var line := ServerLine(server, code, rest);
            Classify(line)
            == if IsWelcome(code) then Welcome else if IsSaslNumeric(code) then SaslOutcome else NickInUse
  {
    assert |code| == 3 && Word(code);
    assert "PING"[0] == 'P' && "CAP"[0] == 'C' && code[0] != 'P' && code[0] != 'C';
    ServerLineFields(server, code, rest);
    ColonIsNoCommand(server);
  }

  /** The server is ready for the SASL payload. */
  lemma PayloadSent(cfg: Config, b: BotState, effects: seq<Effect>)
    ensures var r := OnLine(cfg, b, "AUTHENTICATE +", effects);
            r.outs == [Sent("AUTHENTICATE " + cfg.saslPayload)] && r.state == b
  {
    ChallengeDispatched("AUTHENTICATE", "+");
    LineReacts(cfg, b, "AUTHENTICATE" + " " + "+", effects);
    assert "AUTHENTICATE" + " " + "+" == "AUTHENTICATE +";
  }

  /** Anything else that the server wants authenticated is not answered. */
  lemma OtherChallengeIgnored(cfg: Config, b: BotState, more: string, effects: seq<Effect>)
    requires Word(more) && more != "+" && more != "PING"
    ensures OnLine(cfg, b, "AUTHENTICATE" + " " + more, effects) == Result(b, [])
  {
    ChallengeDispatched("AUTHENTICATE", more);
    LineReacts(cfg, b, "AUTHENTICATE" + " " + more, effects);
  }

  lemma ChallengeDispatched(command: string, more: string)
    requires command == "AUTHENTICATE" && Word(more) && more != "PING"
    ensures Classify(command + " " + more) == Authenticate(more == "+")
  {
    var line, ws := command + " " + more, [command, more];
    TwoWords(command, more);
    assert line[0] == 'A' && StripTags(line) == line;
    assert command[0] != "PING"[0];
    assert Fields(line)[0] == command && Fields(line)[1] == more && |Fields(line)| == 2;
  }

  lemma TwoWords(a: string, b: string)
    requires Word(a) && Word(b)
    ensures Fields(a + " " + b) == [a, b]
  {
    var ws := [a, b];
    FieldsOfSpaced(ws, []);
    assert ws[1..] == [b] && ws + Fields([]) == ws;
    assert Spaced(ws) == a + " " + b && Spaced(ws) + [] == Spaced(ws);
  }

  // ----- Answers to requests for capabilities -------------------------------------------------------------

  /** ":server CAP target SUB :caps". */
  function CapLine(s: Sender, sub: string, caps: seq<string>): string {
    Spaced([":" + s.server, "CAP", s.target, sub]) + (" :" + Spaced(caps))
  }

  lemma CapLineParses(s: Sender, sub: string, caps: seq<string>)
    requires ValidSender(s) && Word(sub) && sub[0] != ':' && sub != "LS"
    requires forall i :: 0 <= i < |caps| ==> Word(caps[i])
    ensures Classify(CapLine(s, sub, caps))
            == if sub == "ACK" then CapAck(caps) else if sub == "NAK" then CapNak else CapOther
  {
    var line, ws, tail := CapLine(s, sub, caps), [":" + s.server, "CAP", s.target, sub], " :" + Spaced(caps);
    assert Word(ws[0]) && Word(ws[1]) && Word(ws[2]) && Word(ws[3]);
    assert "CAP"[0] != ':' && sub[0] != ':' && s.target[0] != ':' && "PING"[0] == 'P' && "CAP"[0] == 'C';
    FieldsOfSpaced(ws, tail);
    AfterOfSpaced(ws, Spaced(caps));
    FieldsOfCaps(caps);
    SpacedFirst(ws, tail);
    assert line[0] == ':' && StripTags(line) == line;
    ColonIsNoCommand(s.server);
    var parts := Fields(line);
    assert parts[0] == ws[0] && parts[1] == "CAP" && parts[3] == sub;
  }

  /** Other news about capabilities is ignored. */
  lemma OtherCapIgnored(cfg: Config, b: BotState, s: Sender, sub: string, caps: seq<string>, effects: seq<Effect>)
    requires ValidSender(s) && Word(sub) && sub[0] != ':' && sub != "LS" && sub != "ACK" && sub != "NAK"
    requires forall i :: 0 <= i < |caps| ==> Word(caps[i])
    ensures OnLine(cfg, b, CapLine(s, sub, caps), effects) == Result(b, [])
  {
    CapLineParses(s, sub, caps);
    LineReacts(cfg, b, CapLine(s, sub, caps), effects);
  }

  /** What the bot asks for, by name. */
  lemma AskedNames(cfg: Config, offered: set<string>, c: string)
    ensures Asked(cfg, offered, c)
            <==> c in offered
                 && (c == "server-time" || c == "message-tags" || c == "account-tag" || c == "echo-message"
                     || (c == "sasl" && cfg.sasl))
  {}

  /** The server refuses the request. */
  lemma NakEndsNegotiation(cfg: Config, b: BotState, s: Sender, caps: seq<string>, effects: seq<Effect>)
    requires ValidSender(s) && forall i :: 0 <= i < |caps| ==> Word(caps[i])
    ensures var r := OnLine(cfg, b, CapLine(s, "NAK", caps), effects);
            r.outs == (if b.capEnded then [] else [CapEnd]) && r.state == b.(capEnded := true)
  {
    CapLineParses(s, "NAK", caps);
    LineReacts(cfg, b, CapLine(s, "NAK", caps), effects);
  }

  /** The server grants it: SASL begins if it is among the granted ones, and otherwise negotiation ends. */
  lemma AckAnswered(cfg: Config, b: BotState, s: Sender, caps: seq<string>, effects: seq<Effect>)
    requires ValidSender(s) && forall i :: 0 <= i < |caps| ==> Word(caps[i])
    ensures var r := OnLine(cfg, b, CapLine(s, "ACK", caps), effects);
            && (forall c :: c in r.state.caps <==> c in b.caps || c in caps)
            && if "sasl" in caps && cfg.sasl
               then r.outs == [Sent("AUTHENTICATE PLAIN")] && r.state.saslActive && r.state.capEnded == b.capEnded
               else r.outs == (if b.capEnded then [] else [CapEnd]) && r.state.capEnded
                    && r.state.saslActive == b.saslActive
  {
    CapLineParses(s, "ACK", caps);
    LineReacts(cfg, b, CapLine(s, "ACK", caps), effects);
  }

  // ----- The other events ---------------------------------------------------------------------------------

  /** The run that is one event. */
  function OnEvent(cfg: Config, b: BotState, e: Event): Result {
    Exec(cfg, b, [e])
  }

  lemma EventIs(cfg: Config, b: BotState, e: Event)
    ensures OnEvent(cfg, b, e) == Step(cfg, b, e)
  {
    var es, r := [e], Step(cfg, b, e);
    assert es[1..] == [] && es[0] == e;
    assert Exec(cfg, r.state, es[1..]) == Result(r.state, []);
    assert r.outs + [] == r.outs;
  }

  /**
   The end of a pass.  After 240 s of silence the connection is given up and nothing is said; before that
   a probe when the link has been silent for 90 s and 60 s have passed since the last stamp, then CAP END
   when registration has not completed within 5 s, then what there is to announce, once joined.
   */
  lemma TickSays(cfg: Config, b: BotState, now: real, effects: seq<Effect>)
    ensures var r := OnEvent(cfg, b, Check(now, effects));
            var probes := now - b.lastRx > 90.0 && now - b.lastKeepalive > 60.0;
            var ends := !b.registered && !b.capEnded && now - b.connectTs > 5.0;
            if now - b.lastRx > 240.0 then r == Result(b.(alive := false), [])
            else && r.outs == (if probes then [Probe(now)] else []) + (if ends then [CapEnd] else [])
                              + (if b.joined then Map(EntryOf, effects) else [])
                 && r.state == WithEffects(b, if b.joined then effects else []).(
                      lastKeepalive := if probes then now else b.lastKeepalive, capEnded := b.capEnded || ends)
  {
    EventIs(cfg, b, Check(now, effects));
    if now - b.lastRx <= 240.0 {
      var k := KeepAlive(b, now);
      var c := CapSafetyNet(k.state, now);
      EffectsLogged(c.state, if b.joined then effects else []);
      assert Map(EntryOf, []) == [];
    }
  }

  /** A queued line goes out when 0.4 s have passed since the last send, and one at a time. */
  lemma PumpSays(cfg: Config, b: BotState, tested: real, stamped: real)
    ensures var r := OnEvent(cfg, b, Pump(tested, stamped));
            if b.outq != [] && tested - b.lastSend >= 0.4
            then r == Result(b.(outq := b.outq[1..], lastSend := stamped), [Drained(b.outq[0], tested, stamped)])
            else r == Result(b, [])
  {
    EventIs(cfg, b, Pump(tested, stamped));
  }

  /** A new connection: CAP LS first, then the password if there is one, then nickname and user. */
  lemma ConnectSays(cfg: Config, b: BotState, at: real, rxAt: real, kaAt: real)
    ensures var r := OnEvent(cfg, b, Connect(at, rxAt, kaAt));
            && r.outs == [Connected(rxAt, kaAt), Sent("CAP LS 302")]
                         + (if cfg.password == "" then [] else [Sent("PASS " + cfg.password)])
                         + [Sent("NICK " + cfg.nick),
                            Sent("USER " + cfg.nick + " 0 * :Onyx+Onyx Server build announcer")]
            && r.state == BotState(true, cfg.nick, {}, {}, false, at, false, false, false, [], b.lastSend, rxAt, kaAt)
  {
    EventIs(cfg, b, Connect(at, rxAt, kaAt));
  }

  /** Received data only stamp the link, and a lost connection says nothing. */
  lemma LinkSays(cfg: Config, b: BotState, at: real)
    ensures OnEvent(cfg, b, Receive(at)) == Result(b.(lastRx := at), [Heard(at)])
    ensures OnEvent(cfg, b, Lost) == Result(b.(alive := false), [])
  {
    EventIs(cfg, b, Receive(at));
    EventIs(cfg, b, Lost);
  }

  // ----- Said of two moments ------------------------------------------------------------------------------

  /** Between the two moments the bot has reacted to the line as it should, and the log tells so. */
  ghost predicate Told(cfg: Config, text: string, effects: seq<Effect>, m: Moment, m': Moment) {
    m.log <= m'.log && Reacted(cfg, Classify(text), effects, m.state, m'.state, m'.log[|m.log|..])
  }

  lemma TurnTold(cfg: Config, text: string, effects: seq<Effect>, m: Moment, m': Moment)
    requires var r := Handle(cfg, m.state, Classify(text), effects); m'.state == r.state && m'.log == m.log + r.outs
    ensures Told(cfg, text, effects, m, m')
  {
    var r := Handle(cfg, m.state, Classify(text), effects);
    AlwaysReacts(cfg, Classify(text), effects, m.state);
    assert m'.log[|m.log|..] == r.outs;
  }
}
