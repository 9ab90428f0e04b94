/**
 The text of capability lines.  The server may spread its offer over any number of CAP LS lines, all
 but the last marked with "*" (IRCv3 Capability Negotiation, CAP LS 302); message tags may precede any
 line.  Neither must make a difference to the bot.
 */
module CapLines {
  import opened Collections
  import opened Session

  predicate Word(w: string) {
    w != [] && forall i :: 0 <= i < |w| ==> !IsBlank(w[i])
  }

  /** The words with single spaces between them. */
  function Spaced(ws: seq<string>): string {
    if ws == [] then [] else if |ws| == 1 then ws[0] else ws[0] + " " + Spaced(ws[1..])
  }

  // ----- Splitting what was joined ------------------------------------------------------------------

  lemma {:induction false} WordLenIs(w: string, rest: string)
    requires (forall i :: 0 <= i < |w| ==> !IsBlank(w[i])) && (rest == [] || IsBlank(rest[0]))
    ensures WordLen(w + rest) == |w|
  {
    if w == [] {
      assert w + rest == rest;
    } else {
      WordLenIs(w[1..], rest);
      assert (w + rest)[1..] == w[1..] + rest;
    }
  }

  lemma FieldsOfWord(w: string, rest: string)
    requires Word(w) && (rest == [] || IsBlank(rest[0]))
    ensures Fields(w + rest) == [w] + Fields(rest)
  {
    WordLenIs(w, rest);
    assert (w + rest)[..|w|] == w && (w + rest)[|w|..] == rest;
  }

  lemma FieldsAfterSpace(s: string)
    ensures Fields(" " + s) == Fields(s)
  {
    assert (" " + s)[1..] == s;
  }

  lemma {:induction false} FieldsOfSpaced(ws: seq<string>, rest: string)
    requires forall i :: 0 <= i < |ws| ==> Word(ws[i])
    requires rest == [] || IsBlank(rest[0])
    ensures Fields(Spaced(ws) + rest) == ws + Fields(rest)
  {
    if ws == [] {
      assert Spaced(ws) + rest == rest;
      PrependNothing(Fields(rest));
    } else if |ws| == 1 {
      FieldsOfWord(ws[0], rest);
    } else {
      var more := Spaced(ws[1..]) + rest;
      FieldsOfSpaced(ws[1..], rest);
      FieldsAfterSpace(more);
      FieldsOfWord(ws[0], " " + more);
      SpacedStep(ws, rest);
      Reassociate([ws[0]], ws[1..], Fields(rest));
      assert [ws[0]] + ws[1..] == ws;
    }
  }

  lemma SpacedStep(ws: seq<string>, rest: string)
    requires |ws| >= 2
    ensures Spaced(ws) + rest == ws[0] + (" " + (Spaced(ws[1..]) + rest))
  {}

  lemma {:induction false} AfterSkipsWord(w: string, rest: string)
    requires forall i :: 0 <= i < |w| ==> !IsBlank(w[i])
    ensures After(w + rest, " :") == After(rest, " :")
  {
    if w == [] {
      assert w + rest == rest;
    } else {
      assert (w + rest)[0] != ' ';
      assert (w + rest)[1..] == w[1..] + rest;
      AfterSkipsWord(w[1..], rest);
    }
  }

  /** The trailing parameter of a line whose middle parameters do not begin with a colon. */
  lemma {:induction false} AfterOfSpaced(ws: seq<string>, tail: string)
    requires ws != [] && forall i :: 0 <= i < |ws| ==> Word(ws[i])
    requires forall i :: 1 <= i < |ws| ==> !([':'] <= ws[i])
    ensures After(Spaced(ws) + (" :" + tail), " :") == Some(tail)
  {
    if |ws| == 1 {
      AfterSkipsWord(ws[0], " :" + tail);
      assert (" :" + tail)[2..] == tail;
    } else {
      var more := Spaced(ws[1..]) + (" :" + tail);
      AfterOfSpaced(ws[1..], tail);
      SpacedStep(ws, " :" + tail);
      AfterSkipsWord(ws[0], " " + more);
      SpacedFirst(ws[1..], " :" + tail);
      assert (" " + more)[1] == more[0] == ws[1][0];
      assert (" " + more)[1..] == more;
    }
  }

  lemma SpacedFirst(ws: seq<string>, rest: string)
    requires ws != [] && Word(ws[0])
    ensures |Spaced(ws) + rest| > 0 && (Spaced(ws) + rest)[0] == ws[0][0]
  {}

  // ----- CAP LS lines ---------------------------------------------------------------------------------

  datatype Sender = Sender(server: string, target: string)

  predicate ValidSender(s: Sender) {
    Word(s.server) && Word(s.target) && s.target[0] != ':'
  }

  function Middle(s: Sender, more: bool): seq<string> {
    [":" + s.server, "CAP", s.target, "LS"] + if more then ["*"] else []
  }

  /** One CAP LS line; `more` marks it as not the last. */
  function LsLine(s: Sender, more: bool, caps: seq<string>): string {
    Spaced(Middle(s, more)) + (" :" + Spaced(caps))
  }

  lemma MiddleWords(s: Sender, more: bool)
    requires ValidSender(s)
    ensures forall i :: 0 <= i < |Middle(s, more)| ==> Word(Middle(s, more)[i])
    ensures forall i :: 1 <= i < |Middle(s, more)| ==> !([':'] <= Middle(s, more)[i])
  {
    var m := Middle(s, more);
    assert Word(":" + s.server) && Word("CAP") && Word("LS") && Word("*");
    assert m[1] == "CAP" && m[2] == s.target && m[3] == "LS" && (more ==> m[4] == "*");
    assert !([':'] <= s.target) && "CAP"[0] != ':' && "LS"[0] != ':' && "*"[0] != ':';
    assert |m| == if more then 5 else 4;
  }

  /** How the line falls into fields, and what follows its " :". */
  lemma LsLineFields(s: Sender, more: bool, tail: string)
    requires ValidSender(s)
    ensures var line := Spaced(Middle(s, more)) + (" :" + tail);
            Fields(line) == Middle(s, more) + Fields(" :" + tail) && After(line, " :") == Some(tail)
            && line != [] && line[0] == ':'
  {
    MiddleWords(s, more);
    FieldsOfSpaced(Middle(s, more), " :" + tail);
    AfterOfSpaced(Middle(s, more), tail);
    SpacedFirst(Middle(s, more), " :" + tail);
  }

  lemma FieldsOfCaps(caps: seq<string>)
    requires forall i :: 0 <= i < |caps| ==> Word(caps[i])
    ensures Fields(Spaced(caps)) == caps
  {
    FieldsOfSpaced(caps, []);
    assert Spaced(caps) + [] == Spaced(caps) && caps + Fields([]) == caps;
  }

  lemma LsLineParses(s: Sender, more: bool, caps: seq<string>)
    requires ValidSender(s) && forall i :: 0 <= i < |caps| ==> Word(caps[i])
    ensures Classify(LsLine(s, more, caps)) == CapLs(more, caps)
  {
    LsLineFields(s, more, Spaced(caps));
    FieldsOfCaps(caps);
    ColonFirst(Spaced(caps));
    LsDispatch(s, more, LsLine(s, more, caps), Spaced(caps), Fields(" :" + Spaced(caps)));
  }

  lemma LsDispatch(s: Sender, more: bool, line: string, tail: string, last: seq<string>)
    requires line != [] && line[0] == ':' && Fields(line) == Middle(s, more) + last
    requires last != [] && last[0] != [] && last[0][0] == ':'
    requires After(line, " :") == Some(tail)
    ensures Classify(line) == CapLs(more, Fields(tail))
  {
    var parts := Fields(line);
    assert StripTags(line) == line;
    assert parts[0] == ":" + s.server && parts[1] == "CAP" && parts[3] == "LS";
    assert more ==> parts[4] == "*";
    assert !more ==> parts[4] == last[0];
  }

  /** The trailing parameter's first word begins with its colon. */
  lemma ColonFirst(tail: string)
    ensures Fields(" :" + tail) != [] && Fields(" :" + tail)[0] != [] && Fields(" :" + tail)[0][0] == ':'
  {
    assert (" :" + tail)[1..] == ":" + tail;
    var s := ":" + tail;
    assert !IsBlank(s[0]) && WordLen(s) >= 1;
    assert Fields(s) == [s[..WordLen(s)]] + Fields(s[WordLen(s)..]);
  }

  /** The lines of an offer spread over several lines, in order; all but the last are marked. */
  function LsLines(s: Sender, pieces: seq<seq<string>>): seq<string>
    requires pieces != []
  {
    if |pieces| == 1 then [LsLine(s, false, pieces[0])]
    else [LsLine(s, true, pieces[0])] + LsLines(s, pieces[1..])
  }

  /** Handling lines one after another. */
  function HandleLines(cfg: Config, b: BotState, lines: seq<string>): Result
    decreases |lines|
  {
    if lines == [] then Result(b, [])
    else
      var first := Handle(cfg, b, Classify(lines[0]), []);
      var rest := HandleLines(cfg, first.state, lines[1..]);
      Result(rest.state, first.outs + rest.outs)
  }

  lemma CapNamesAppend(a: seq<string>, b: seq<string>)
    ensures CapNames(a + b) == CapNames(a) + CapNames(b)
  {
    var ab := a + b;
    forall x | x in CapNames(a) + CapNames(b)
      ensures x in CapNames(ab)
    {
      if x in CapNames(a) {
        var i :| 0 <= i < |a| && x == CapName(a[i]);
        assert x == CapName(ab[i]);
      } else {
        var i :| 0 <= i < |b| && x == CapName(b[i]);
        assert x == CapName(ab[|a| + i]);
      }
    }
  }

  /** An unfinished line is only remembered: the next one is answered as if it held both offers. */
  lemma LsRemembered(cfg: Config, b: BotState, early: seq<string>, late: seq<string>)
    ensures HandleLs(cfg, b, true, early).outs == []
    ensures HandleLs(cfg, HandleLs(cfg, b, true, early).state, false, late) == HandleLs(cfg, b, false, early + late)
  {
    CapNamesAppend(early, late);
    assert b.capLs + CapNames(early) + CapNames(late) == b.capLs + (CapNames(early) + CapNames(late));
  }

  lemma HandleOneLine(cfg: Config, b: BotState, line: string)
    ensures HandleLines(cfg, b, [line]) == Handle(cfg, b, Classify(line), [])
  {
    var r := Handle(cfg, b, Classify(line), []);
    assert [line][1..] == [];
    assert r.outs + [] == r.outs;
  }

  /** However the offer is spread over lines, the bot's single reply and its state are those for one line. */
  lemma {:induction false} OfferSpreadOverLines(cfg: Config, b: BotState, s: Sender, pieces: seq<seq<string>>)
    requires ValidSender(s) && pieces != []
    requires forall i, j :: 0 <= i < |pieces| && 0 <= j < |pieces[i]| ==> Word(pieces[i][j])
    ensures HandleLines(cfg, b, LsLines(s, pieces)) == HandleLs(cfg, b, false, Flatten(pieces))
    decreases |pieces|
  {
    if |pieces| == 1 {
      LsLineParses(s, false, pieces[0]);
      FlattenOne(pieces[0]);
      assert pieces == [pieces[0]];
      HandleOneLine(cfg, b, LsLine(s, false, pieces[0]));
    } else {
      var early, late := pieces[0], pieces[1..];
      assert forall i, j :: 0 <= i < |late| && 0 <= j < |late[i]| ==> late[i][j] == pieces[i + 1][j];
      LsLineParses(s, true, early);
      LsRemembered(cfg, b, early, Flatten(late));
      OfferSpreadOverLines(cfg, HandleLs(cfg, b, true, early).state, s, late);
      FirstLineSilent(cfg, b, LsLine(s, true, early), LsLines(s, late));
    }
  }

  lemma FirstLineSilent(cfg: Config, b: BotState, line: string, lines: seq<string>)
    requires Handle(cfg, b, Classify(line), []).outs == []
    ensures HandleLines(cfg, b, [line] + lines)
            == HandleLines(cfg, Handle(cfg, b, Classify(line), []).state, lines)
  {
    assert ([line] + lines)[1..] == lines;
    PrependNothing(HandleLines(cfg, Handle(cfg, b, Classify(line), []).state, lines).outs);
  }

  /** The same, said of the text: several lines are handled like the one line with the whole offer. */
  lemma SpreadOfferEqualsOneLine(cfg: Config, b: BotState, s: Sender, pieces: seq<seq<string>>)
    requires ValidSender(s) && pieces != []
    requires forall i, j :: 0 <= i < |pieces| && 0 <= j < |pieces[i]| ==> Word(pieces[i][j])
    ensures HandleLines(cfg, b, LsLines(s, pieces))
            == HandleLines(cfg, b, [LsLine(s, false, Flatten(pieces))])
  {
    var all := Flatten(pieces);
    OfferSpreadOverLines(cfg, b, s, pieces);
    FlattenWords(pieces);
    FlattenOne(all);
    OfferSpreadOverLines(cfg, b, s, [all]);
  }

  lemma {:induction false} FlattenWords(pieces: seq<seq<string>>)
    requires forall i, j :: 0 <= i < |pieces| && 0 <= j < |pieces[i]| ==> Word(pieces[i][j])
    ensures forall k :: 0 <= k < |Flatten(pieces)| ==> Word(Flatten(pieces)[k])
  {
    if pieces != [] {
      assert forall i, j :: 0 <= i < |pieces[1..]| && 0 <= j < |pieces[1..][i]| ==>
          pieces[1..][i][j] == pieces[i + 1][j];
      FlattenWords(pieces[1..]);
    }
  }

  // ----- An offer among other events ------------------------------------------------------------------------

  /** The CAP LS lines among the events, as they are dispatched. */
  function LsCommands(es: seq<Event>): seq<Command> {
    if es == [] then []
    else (if es[0].Line? && Classify(es[0].text).CapLs? then [Classify(es[0].text)] else []) + LsCommands(es[1..])
  }

  function Unfinished(pieces: seq<seq<string>>): seq<Command> {
    Map((p: seq<string>) => CapLs(true, p), pieces)
  }

  predicate IsAnswer(o: Out) {
    o.CapReq? || o.CapEnd?
  }

  /** What the bot has said in answer to offers: requests and ends of negotiation. */
  function Answers(outs: seq<Out>): seq<Out> {
    Filter(IsAnswer, outs)
  }

  /** CAP END, if negotiation ended between the two states. */
  function EndBetween(b: BotState, b': BotState): seq<Out> {
    if b'.capEnded && !b.capEnded then [CapEnd] else []
  }

  lemma {:induction false} EffectsAnswerNothing(b: BotState, es: seq<Effect>)
    ensures Answers(DoEffects(b, es).outs) == []
    decreases |es|
  {
    if es != [] {
      var first := DoEffect(b, es[0]);
      EffectsAnswerNothing(first.state, es[1..]);
      FilterAppend(IsAnswer, first.outs, DoEffects(first.state, es[1..]).outs);
      assert first.outs[1..] == [];
    }
  }

  /** A step that neither connects nor is a line of an offer: at most it ends negotiation, saying so. */
  lemma OtherStep(cfg: Config, b: BotState, e: Event)
    requires !e.Connect? && (e.Line? ==> !Classify(e.text).CapLs?)
    ensures var r := Step(cfg, b, e);
            && r.state.capLs == b.capLs && (b.capEnded ==> r.state.capEnded)
            && Answers(r.outs) == EndBetween(b, r.state)
  {
    match e {
      case Line(text, effects) => OtherLine(cfg, b, Classify(text), effects);
      case Check(now, effects) => CheckAnswers(cfg, b, now, effects);
      case Pump(tested, stamped) => NoAnswer(Step(cfg, b, e).outs);
      case Receive(at) => NoAnswer(Step(cfg, b, e).outs);
      case Lost =>
    }
  }

  lemma NoAnswer(outs: seq<Out>)
    requires |outs| <= 1 && forall i :: 0 <= i < |outs| ==> !IsAnswer(outs[i])
    ensures Answers(outs) == []
  {
    if outs != [] {
      assert !IsAnswer(outs[0]) && outs[1..] == [];
      assert Answers(outs[1..]) == [];
    }
  }

  lemma EndAnswers(b: BotState)
    ensures Answers(EndCap(b).outs) == EndBetween(b, EndCap(b).state)
  {
    if !b.capEnded { assert [CapEnd][1..] == []; }
  }

  lemma OtherLine(cfg: Config, b: BotState, c: Command, effects: seq<Effect>)
    requires !c.CapLs?
    ensures var r := Handle(cfg, b, c, effects);
            && r.state.capLs == b.capLs && (b.capEnded ==> r.state.capEnded)
            && Answers(r.outs) == EndBetween(b, r.state)
  {
    var r := Handle(cfg, b, c, effects);
    match c {
      case CapNak => EndAnswers(b);
      case SaslOutcome => EndAnswers(b);
      case CapAck(acked) =>
        if "sasl" in acked && cfg.sasl {
          NoAnswer(r.outs);
        } else {
          EndAnswers(b.(caps := b.caps + set c | c in acked));
        }
      case Welcome => JoinAnswers(cfg, b, effects);
      case Other =>
        EffectsAnswerNothing(b, effects);
        EffectsFrame(b, effects);
      case _ => NoAnswer(r.outs);
    }
  }

  lemma JoinAnswers(cfg: Config, b: BotState, effects: seq<Effect>)
    ensures var r := Join(cfg, b, effects);
            r.state.capLs == b.capLs && r.state.capEnded == b.capEnded && Answers(r.outs) == []
  {
    if b.joined {
      EffectsAnswerNothing(b, effects);
      EffectsFrame(b, effects);
    } else {
      var n, sent := b.(registered := true), [Sent("JOIN " + cfg.channel)];
      EffectsAnswerNothing(n, effects);
      EffectsFrame(n, effects);
      NoAnswer(sent);
      FilterAppend(IsAnswer, sent, DoEffects(n, effects).outs);
    }
  }

  lemma NetAnswers(b: BotState, now: real)
    ensures var r := CapSafetyNet(b, now);
            r.state == b.(capEnded := r.state.capEnded) && (b.capEnded ==> r.state.capEnded)
            && Answers(r.outs) == EndBetween(b, r.state)
  {
    EndAnswers(b);
  }

  lemma ProbeAnswers(b: BotState, now: real)
    ensures var r := KeepAlive(b, now);
            r.state.capLs == b.capLs && r.state.capEnded == b.capEnded && Answers(r.outs) == []
  {
    NoAnswer(KeepAlive(b, now).outs);
  }

  lemma CheckAnswers(cfg: Config, b: BotState, now: real, effects: seq<Effect>)
    ensures var r := LoopChecks(b, now, effects);
            && r.state.capLs == b.capLs && (b.capEnded ==> r.state.capEnded)
            && Answers(r.outs) == EndBetween(b, r.state)
  {
    if now - b.lastRx <= READ_TIMEOUT {
      var k := KeepAlive(b, now);
      var c := CapSafetyNet(k.state, now);
      var es := if b.joined then effects else [];
      ProbeAnswers(b, now);
      NetAnswers(k.state, now);
      EffectsAnswerNothing(c.state, es);
      EffectsFrame(c.state, es);
      AnswersInTurn(k.outs, c.outs, DoEffects(c.state, es).outs);
    }
  }

  lemma AnswersInTurn(x: seq<Out>, y: seq<Out>, z: seq<Out>)
    requires Answers(x) == [] && Answers(z) == []
    ensures Answers(x + y + z) == Answers(y)
  {
    FilterAppend(IsAnswer, x + y, z);
    FilterAppend(IsAnswer, x, y);
    PrependNothing(Answers(y));
    assert Answers(y) + [] == Answers(y);
  }

  /**
   While an offer is unfinished it is only remembered, whatever else happens: lines, ticks, sends and
   timeouts may come between its lines.
   */
  lemma {:induction false} OfferRemembered(cfg: Config, b: BotState, es: seq<Event>, early: seq<seq<string>>)
    requires forall i :: 0 <= i < |es| ==> !es[i].Connect?
    requires LsCommands(es) == Unfinished(early)
    ensures var r := Exec(cfg, b, es);
            && r.state.capLs == b.capLs + CapNames(Flatten(early)) && (b.capEnded ==> r.state.capEnded)
            && Answers(r.outs) == EndBetween(b, r.state)
    decreases |es|
  {
    if es == [] {
      assert early == [];
      assert CapNames([]) == {};
    } else {
      var first := Step(cfg, b, es[0]);
      if es[0].Line? && Classify(es[0].text).CapLs? {
        FirstOffer(es, early);
        OfferRemembered(cfg, first.state, es[1..], early[1..]);
        OfferStep(cfg, b, es[0], early, Exec(cfg, first.state, es[1..]));
      } else {
        PrependNothing(LsCommands(es[1..]));
        OfferRemembered(cfg, first.state, es[1..], early);
        OtherThenRest(cfg, b, es[0], Exec(cfg, first.state, es[1..]));
      }
    }
  }

  /** A line of the offer adds its capabilities and says nothing. */
  lemma OfferStep(cfg: Config, b: BotState, e: Event, early: seq<seq<string>>, rest: Result)
    requires e.Line? && early != [] && Classify(e.text) == CapLs(true, early[0])
    requires var first := Step(cfg, b, e);
             && rest.state.capLs == first.state.capLs + CapNames(Flatten(early[1..]))
             && Answers(rest.outs) == EndBetween(first.state, rest.state)
    ensures var first := Step(cfg, b, e);
            && first.state.capEnded == b.capEnded
            && rest.state.capLs == b.capLs + CapNames(Flatten(early))
            && Answers(first.outs + rest.outs) == EndBetween(b, rest.state)
  {
    LsCases(cfg, b, true, early[0]);
    CapNamesOfAll(b.capLs, early);
    PrependNothing(rest.outs);
  }

  lemma OtherThenRest(cfg: Config, b: BotState, e: Event, rest: Result)
    requires !e.Connect? && (e.Line? ==> !Classify(e.text).CapLs?)
    requires var first := Step(cfg, b, e);
             && (first.state.capEnded ==> rest.state.capEnded)
             && Answers(rest.outs) == EndBetween(first.state, rest.state)
    ensures var first := Step(cfg, b, e);
            && first.state.capLs == b.capLs && (b.capEnded ==> rest.state.capEnded)
            && Answers(first.outs + rest.outs) == EndBetween(b, rest.state)
  {
    var first := Step(cfg, b, e);
    OtherStep(cfg, b, e);
    FilterAppend(IsAnswer, first.outs, rest.outs);
    JoinEnds(b, first.state, rest.state);
  }

  lemma CapNamesOfAll(known: set<string>, pieces: seq<seq<string>>)
    requires pieces != []
    ensures known + CapNames(pieces[0]) + CapNames(Flatten(pieces[1..])) == known + CapNames(Flatten(pieces))
  {
    CapNamesAppend(pieces[0], Flatten(pieces[1..]));
  }

  lemma JoinEnds(a: BotState, b: BotState, c: BotState)
    requires (a.capEnded ==> b.capEnded) && (b.capEnded ==> c.capEnded)
    ensures EndBetween(a, b) + EndBetween(b, c) == EndBetween(a, c)
  {}

  lemma FirstOffer(es: seq<Event>, early: seq<seq<string>>)
    requires es != [] && es[0].Line? && Classify(es[0].text).CapLs? && LsCommands(es) == Unfinished(early)
    ensures early != [] && Classify(es[0].text) == CapLs(true, early[0])
    ensures LsCommands(es[1..]) == Unfinished(early[1..])
  {
    var all := [Classify(es[0].text)] + LsCommands(es[1..]);
    assert all == Unfinished(early);
    assert |all| == |early| && all[0] == CapLs(true, early[0]);
    assert all[1..] == LsCommands(es[1..]);
    forall i | 0 <= i < |early| - 1
      ensures LsCommands(es[1..])[i] == Unfinished(early[1..])[i]
    {
      assert all[i + 1] == CapLs(true, early[i + 1]);
    }
  }

  /**
   However the offer is spread over lines, and whatever happens between them, its end is answered as if
   all of it had come in one line; the only other thing said to the offer is a CAP END meanwhile.
   */
  lemma OfferAmidEvents(cfg: Config, b: BotState, es: seq<Event>, early: seq<seq<string>>, late: seq<string>,
                        text: string, effects: seq<Effect>)
    requires forall i :: 0 <= i < |es| ==> !es[i].Connect?
    requires LsCommands(es) == Unfinished(early) && Classify(text) == CapLs(false, late)
    ensures var mid, r := Exec(cfg, b, es).state, Exec(cfg, b, es + [Line(text, effects)]);
            && r.state.capLs == b.capLs + CapNames(Flatten(early + [late]))
            && Answers(r.outs) == EndBetween(b, mid)
               + HandleLs(cfg, b.(capEnded := mid.capEnded), false, Flatten(early + [late])).outs
  {
    var last := Line(text, effects);
    var before := Exec(cfg, b, es);
    var answer := HandleLs(cfg, before.state, false, late);
    OfferRemembered(cfg, b, es, early);
    RunAppend(cfg, b, 0.0, es, [last]);
    assert [last][1..] == [] && answer.outs + [] == answer.outs;
    assert Exec(cfg, before.state, [last]).outs == answer.outs;
    FilterAppend(IsAnswer, before.outs, answer.outs);
    FlattenAppend(early, [late]);
    FlattenOne(late);
    CapNamesAppend(Flatten(early), late);
    assert b.capLs + CapNames(Flatten(early)) + CapNames(late) == b.capLs + (CapNames(Flatten(early)) + CapNames(late));
    AnswerIsAnswer(cfg, before.state, late);
    LsCases(cfg, before.state, false, late);
    LsCases(cfg, b.(capEnded := before.state.capEnded), false, Flatten(early + [late]));
  }

  lemma AnswerIsAnswer(cfg: Config, b: BotState, offered: seq<string>)
    ensures var outs := HandleLs(cfg, b, false, offered).outs; Answers(outs) == outs
  {
    var outs := HandleLs(cfg, b, false, offered).outs;
    LsCases(cfg, b, false, offered);
    if outs != [] {
      assert IsAnswer(outs[0]) && outs[1..] == [];
      assert Answers(outs[1..]) == [] && [outs[0]] + [] == outs;
    }
  }

  /** So a negotiation that has not ended meanwhile gets exactly one answer. */
  lemma OneAnswer(cfg: Config, b: BotState, es: seq<Event>, early: seq<seq<string>>, late: seq<string>,
                  text: string, effects: seq<Effect>)
    requires forall i :: 0 <= i < |es| ==> !es[i].Connect?
    requires LsCommands(es) == Unfinished(early) && Classify(text) == CapLs(false, late)
    requires !Exec(cfg, b, es).state.capEnded
    ensures var outs, all := Exec(cfg, b, es + [Line(text, effects)]).outs, b.capLs + CapNames(Flatten(early + [late]));
            Answers(outs) == if Tempts(cfg, all) then [CapReq(Sorted(Wanted(cfg, all)))] else [CapEnd]
  {
    OfferRemembered(cfg, b, es, early);
    OfferAmidEvents(cfg, b, es, early, late, text, effects);
    LsCases(cfg, b, false, Flatten(early + [late]));
    PrependNothing(HandleLs(cfg, b, false, Flatten(early + [late])).outs);
  }

  // ----- Message tags ------------------------------------------------------------------------------------

  /** A leading tag block is invisible to the dispatch of a line that does not itself begin with one. */
  lemma TagsInvisible(tags: string, line: string)
    requires ' ' !in tags
    requires line == [] || line[0] != '@'
    ensures Classify("@" + tags + " " + line) == Classify(line)
  {
    AfterFirstSpace("@" + tags, line);
    assert StripTags("@" + tags + " " + line) == line;
  }

  lemma {:induction false} AfterFirstSpace(w: string, rest: string)
    requires ' ' !in w
    ensures After(w + " " + rest, " ") == Some(rest)
  {
    if w == [] {
      assert w + " " + rest == " " + rest;
      assert (" " + rest)[1..] == rest;
    } else {
      assert (w + " " + rest)[0] == w[0] && w[0] in w;
      assert (w + " " + rest)[1..] == w[1..] + " " + rest;
      AfterFirstSpace(w[1..], rest);
    }
  }

  // ----- PING -----------------------------------------------------------------------------------------------

  /** "PING" occurs in the text. */
  predicate MentionsPing(s: string) {
    After(s, "PING").Some?
  }

  /** The word occurs somewhere in the text. */
  ghost predicate Occurs(word: string, s: string) {
    exists before, behind :: s == before + word + behind
  }

  lemma MentionsIsOccurs(s: string)
    ensures MentionsPing(s) <==> Occurs("PING", s)
  {
    if MentionsPing(s) {
      AfterIsBehind(s, "PING");
    }
    if before, behind :| s == before + "PING" + behind {
      OccursIsFound(before, "PING", behind);
    }
  }

  /** What `After` finds stands behind the separator. */
  lemma {:induction false} AfterIsBehind(s: string, sep: string)
    requires After(s, sep).Some?
    ensures exists before :: s == before + sep + After(s, sep).value
  {
    if sep <= s {
      assert s == [] + sep + s[|sep|..];
    } else {
      AfterIsBehind(s[1..], sep);
      var rest := After(s[1..], sep).value;
      var before :| s[1..] == before + sep + rest;
      PutInFront(s, before, sep, rest);
    }
  }

  lemma PutInFront(s: string, a: string, b: string, c: string)
    requires s != [] && s[1..] == a + b + c
    ensures s == ([s[0]] + a) + b + c
  {
    assert s == [s[0]] + s[1..];
  }

  lemma PutBehind(s: string, a: string, b: string, c: string)
    requires s != [] && s[..|s| - 1] == a + b + c
    ensures s == a + b + (c + [s[|s| - 1]])
  {
    assert s == s[..|s| - 1] + [s[|s| - 1]];
  }

  /** And it finds the first occurrence: what comes back is no shorter than what stands behind any other. */
  lemma {:induction false} OccursIsFound(before: string, sep: string, behind: string)
    ensures var s := before + sep + behind; After(s, sep).Some? && |After(s, sep).value| >= |behind|
  {
    var s := before + sep + behind;
    if before == [] {
      assert s == sep + behind && sep <= s;
    } else if sep <= s {
      assert |s[|sep|..]| == |before| + |behind|;
    } else {
      assert s[1..] == before[1..] + sep + behind;
      OccursIsFound(before[1..], sep, behind);
    }
  }

  /** Stripping takes blanks off both ends and nothing else, until none is left there. */
  lemma {:induction false} StripIs(s: string) returns (left: string, right: string)
    ensures s == left + Strip(s) + right
    ensures forall c :: c in left + right ==> IsBlank(c)
    ensures Strip(s) != [] ==> !IsBlank(Strip(s)[0]) && !IsBlank(Strip(s)[|Strip(s)| - 1])
    decreases |s|
  {
    left, right := [], [];
    if s == [] {
      assert s == [] + [] + [];
    } else if IsBlank(s[0]) {
      left, right := StripIs(s[1..]);
      PutInFront(s, left, Strip(s), right);
      left := [s[0]] + left;
    } else if IsBlank(s[|s| - 1]) {
      left, right := StripIs(s[..|s| - 1]);
      PutBehind(s, left, Strip(s), right);
      right := right + [s[|s| - 1]];
    } else {
      assert s == [] + s + [];
    }
  }

  /** A capability's name ends before its first "=". */
  lemma {:induction false} CapNameIs(name: string, value: string)
    requires '=' !in name
    ensures CapName(name) == name && CapName(name + "=" + value) == name
  {
    var whole := name + "=" + value;
    if name == [] {
      assert whole[0] == '=';
    } else {
      CapNameIs(name[1..], value);
      assert whole[0] == name[0] && name[0] in name && whole[1..] == name[1..] + "=" + value;
      assert name == [name[0]] + name[1..];
    }
  }

  lemma {:induction false} AfterPing(s: string, rest: string)
    requires !MentionsPing(s) && (s == [] || s[|s| - 1] == ' ')
    ensures After(s + "PING" + rest, "PING") == Some(rest)
  {
    if s == [] {
      assert s + "PING" + rest == "PING" + rest;
      assert ("PING" + rest)[4..] == rest;
    } else {
      var t := s + "PING" + rest;
      assert t[1..] == s[1..] + "PING" + rest;
      assert !("PING" <= t) by {
        if |s| < 4 {
          assert t[|s| - 1] == ' ';
        } else {
          assert t[..4] == s[..4];
          assert "PING" <= t ==> "PING" <= s;
        }
      }
      AfterPing(s[1..], rest);
    }
  }

  lemma {:induction false} AfterEarlyPing(s: string, rest: string)
    requires MentionsPing(s)
    ensures MentionsPing(s + rest) && After(s + rest, "PING").value == After(s, "PING").value + rest
  {
    if "PING" <= s {
      assert (s + rest)[..4] == s[..4];
      assert (s + rest)[4..] == s[4..] + rest;
    } else {
      assert (s + rest)[1..] == s[1..] + rest;
      assert !("PING" <= s + rest) by {
        EarlyPingIsLong(s);
        assert (s + rest)[..4] == s[..4];
      }
      AfterEarlyPing(s[1..], rest);
    }
  }

  lemma {:induction false} EarlyPingIsLong(s: string)
    requires MentionsPing(s)
    ensures |s| >= 4
  {
    if !("PING" <= s) {
      EarlyPingIsLong(s[1..]);
    }
  }

  /** Stripping keeps everything between two non-space characters. */
  lemma {:induction false} StripKeepsMiddle(left: string, middle: string)
    requires middle != [] && !IsBlank(middle[0]) && !IsBlank(middle[|middle| - 1])
    ensures |Strip(left + middle)| >= |middle|
    ensures (left == [] || left == " ") ==> Strip(left + middle) == middle
    decreases |left|
  {
    var s := left + middle;
    assert s[|s| - 1] == middle[|middle| - 1];
    if left == [] {
      assert s == middle;
    } else if IsBlank(left[0]) {
      assert s[1..] == left[1..] + middle;
      StripKeepsMiddle(left[1..], middle);
    }
  }

  function PingLine(server: string, token: string): string {
    ":" + server + " " + "PING" + (" :" + token)
  }

  /** The token as `handle` extracts it. */
  function TokenOf(line: string): string {
    var found := match After(line, "PING") case None => "" case Some(rest) => Strip(rest);
    if found != [] && found[0] == ':' then found[1..] else found
  }

  predicate EndsBlank(s: string) {
    s != [] && IsBlank(s[|s| - 1])
  }

  lemma {:induction false} StripEndsSolid(s: string)
    ensures !EndsBlank(Strip(s))
    decreases |s|
  {
    if s != [] {
      if IsBlank(s[0]) {
        StripEndsSolid(s[1..]);
      } else if IsBlank(s[|s| - 1]) {
        StripEndsSolid(s[..|s| - 1]);
      }
    }
  }

  /** Stripping takes the blank off the front of a trailing parameter that ends solidly, and nothing else. */
  lemma StripTrailing(token: string)
    requires !EndsBlank(token)
    ensures Strip(" :" + token) == ":" + token
  {
    var shown := ":" + token;
    assert token != [] ==> shown[|shown| - 1] == token[|token| - 1];
    StripKeepsMiddle(" ", shown);
    assert " " + shown == " :" + token;
  }

  /** No extracted token ends in a blank. */
  lemma TokenEndsSolid(line: string)
    ensures !EndsBlank(TokenOf(line))
  {
    var found := match After(line, "PING") case None => "" case Some(rest) => Strip(rest);
    match After(line, "PING") {
      case None =>
      case Some(rest) => StripEndsSolid(rest);
    }
    assert |found| > 1 ==> found[1..][|found| - 2] == found[|found| - 1];
  }

  lemma TokenAfterOnlyPing(server: string, token: string)
    requires !EndsBlank(token) && !MentionsPing(":" + server + " ")
    ensures TokenOf(PingLine(server, token)) == token
  {
    var prefix := ":" + server + " ";
    AfterPing(prefix, " :" + token);
    assert prefix + "PING" + (" :" + token) == PingLine(server, token);
    StripTrailing(token);
  }

  lemma TokenAfterEarlyPing(server: string, token: string)
    requires !EndsBlank(token) && MentionsPing(":" + server + " ")
    ensures |TokenOf(PingLine(server, token))| > |token|
  {
    var prefix, shown := ":" + server + " ", "PING :" + token;
    AfterEarlyPing(prefix, shown);
    assert prefix + shown == PingLine(server, token);
    assert |shown| == |token| + 6 && (token != [] ==> shown[|shown| - 1] == token[|token| - 1]);
    StripKeepsMiddle(After(prefix, "PING").value, shown);
  }

  /**
   The token taken from a server's PING is the server's own exactly when it does not end in a blank, and
   the server's name does not contain "PING": the code strips what follows the first occurrence, wherever
   that is.
   */
  lemma TokenIsServersIff(server: string, token: string)
    ensures TokenOf(PingLine(server, token)) == token <==> !EndsBlank(token) && !MentionsPing(":" + server + " ")
  {
    if EndsBlank(token) {
      TokenEndsSolid(PingLine(server, token));
    } else if MentionsPing(":" + server + " ") {
      TokenAfterEarlyPing(server, token);
    } else {
      TokenAfterOnlyPing(server, token);
    }
  }

  /** Said of the answer, for every server name without blanks and every token. */
  lemma PongEchoesTokenIff(server: string, token: string)
    requires forall i :: 0 <= i < |server| ==> !IsBlank(server[i])
    ensures Classify(PingLine(server, token)).Ping?
    ensures Classify(PingLine(server, token)) == Ping(token)
            <==> !EndsBlank(token) && !MentionsPing(":" + server + " ")
  {
    PingDispatched(server, token);
    TokenIsServersIff(server, token);
  }

  /** A server's PING line is dispatched as one, with whatever follows the first "PING". */
  lemma PingDispatched(server: string, token: string)
    requires forall i :: 0 <= i < |server| ==> !IsBlank(server[i])
    ensures Classify(PingLine(server, token)) == Ping(TokenOf(PingLine(server, token)))
  {
    var line, tail, ws := PingLine(server, token), " :" + token, [":" + server, "PING"];
    assert Word(ws[0]) && Word(ws[1]);
    FieldsOfSpaced(ws, tail);
    assert ws[1..] == ["PING"];
    assert Spaced(ws) + tail == line;
    assert line[0] == ':' && StripTags(line) == line;
    assert Fields(line)[1] == "PING";
  }

  /** The form without a server: the answer echoes the token exactly when that does not end in a blank. */
  lemma PlainPingEchoedIff(token: string)
    ensures Classify("PING" + (" :" + token)).Ping?
    ensures Classify("PING" + (" :" + token)) == Ping(token) <==> !EndsBlank(token)
  {
    var line, tail, ws := "PING" + (" :" + token), " :" + token, ["PING"];
    assert Word(ws[0]);
    FieldsOfSpaced(ws, tail);
    assert Fields(line)[0] == "PING" && StripTags(line) == line;
    assert line[4..] == tail && After(line, "PING") == Some(tail);
    assert Classify(line) == Ping(TokenOf(line));
    if EndsBlank(token) {
      TokenEndsSolid(line);
    } else {
      StripTrailing(token);
    }
  }

  /** A server whose name contains "PING" is answered with more than its token. */
  lemma PingInServerName()
    ensures Classify(PingLine("PING.example", "x")) != Ping("x")
  {
    assert MentionsPing("PING.example ") by { assert "PING" <= "PING.example "; }
    var prefix := ":" + "PING.example" + " ";
    assert prefix[1..] == "PING.example ";
    assert MentionsPing(prefix);
    PongEchoesTokenIff("PING.example", "x");
  }

  /** A token that ends in a blank comes back without it. */
  lemma BlankLostFromToken()
    ensures Classify(PingLine("srv", "x ")) != Ping("x ")
  {
    assert EndsBlank("x ");
    PongEchoesTokenIff("srv", "x ");
  }
}
