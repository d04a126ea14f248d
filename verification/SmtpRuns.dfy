/** Whole SMTP sessions: lines are parsed and handled until the session is over. */
module SmtpRuns {
  import opened Options
  import opened SmtpWindow
  import opened SmtpSession

  // ---------- Command lines ----------

  function Arg(line: string, at: nat): string { if at < |line| then line[at..] else "" }

  /** Whether `word` stands at position `at`, ignoring case. */
  predicate Word(line: string, at: nat, word: string) {
    at + |word| <= |line| && Uppers(line[at..at + |word|]) == word
  }

  function Parse(line: string): Command {
    if |line| < 4 then Unrecognized
    else if Word(line, 0, "HELO") || Word(line, 0, "EHLO") then Hello(Arg(line, 5))
    else if Word(line, 0, "DATA") then Data("")
    else if Word(line, 0, "RCPT") then (if Word(line, 4, " TO") then RcptTo(Arg(line, 7)) else Unrecognized)
    else if Word(line, 0, "MAIL") then (if Word(line, 4, " FROM") then MailFrom(Arg(line, 9)) else Unrecognized)
    else if Word(line, 0, "NOOP") then Noop
    else if Word(line, 0, "RSET") then Reset(Arg(line, 5))
    else if Word(line, 0, "QUIT") then QuitCmd(Arg(line, 5))
    else if Word(line, 0, "STAR") then (if Word(line, 4, "TTLS") then Other(Arg(line, 9)) else Unrecognized)
    else if Word(line, 0, "AUTH") then Auth(Arg(line, 5))
    else if Word(line, 0, "BDAT") then Data(Arg(line, 5))
    else if Word(line, 0, "HELP") || Word(line, 0, "VRFY") || Word(line, 0, "EXPN")
            || Word(line, 0, "ATRN") || Word(line, 0, "ETRN") then Other(Arg(line, 5))
    else Unrecognized
  }

  // ---------- The loop ----------

  datatype Wait = ForCommand | ForLine | ForData | Over

  function Next(s: State): Wait {
    match s
    case ExpectHello | ExpectAuth | ExpectMail | ExpectRecipient => ForCommand
    case AuthExpectUsername | AuthExpectPassword => ForLine
    case ExpectData => ForData
    case Quit => Over
  }

  /** What comes next from the client: some text, or a failed or timed out receive. */
  datatype Input = Received(text: string, w: World) | Lost

  datatype Event = Event(before: Record, text: string, w: World, after: Record, answer: Option<Answer>)

  /** One turn of the loop: the session afterwards, the answer if any, and what is waited for next. Data
      answers are never looked at for an abort. */
  function Turn(s: Record, text: string, w: World): (Record, Option<Answer>, Wait) {
    match Next(s.state)
    case ForCommand =>
      (match AfterCommand(s, Parse(text), w)
       case None => (s, None, Over)
       case Some((t, a)) => (t, Some(a), if a.aborts || !w.sent then Over else Next(t.state)))
    case ForLine =>
      var (t, a) := AfterLine(s, text, w);
      (t, Some(a), if a.aborts || !w.sent then Over else Next(t.state))
    case ForData =>
      var (t, a) := AfterChunk(s, text, w);
      (t, a, if a.Some? && !w.sent then Over else Next(t.state))
    case Over => (s, None, Over)
  }

  /** Everything that happens from session `s` on. */
  function Trace(s: Record, wait: Wait, inputs: seq<Input>): (r: seq<Event>)
    decreases |inputs|
  {
    if wait.Over? || inputs == [] || inputs[0].Lost? then []
    else
      var (t, a, next) := Turn(s, inputs[0].text, inputs[0].w);
      [Event(s, inputs[0].text, inputs[0].w, t, a)] + Trace(t, next, inputs[1..])
  }

  function Session0(inputs: seq<Input>): seq<Event> { Trace(FRESH, ForCommand, inputs) }

  function Final(s: Record, events: seq<Event>): Record { if events == [] then s else events[|events| - 1].after }

  method TakeTurn(sess: Session, text: string, w: World) returns (a: Option<Answer>, wait: Wait)
    requires !Next(sess.state).Over?
    modifies sess
    ensures (sess.View(), a, wait) == Turn(old(sess.View()), text, w)
  {
    hide AfterCommand, AfterLine, AfterChunk, Parse;
    match Next(sess.state) {
      case ForCommand =>
        a := sess.OnCommand(Parse(text), w);
        wait := if a.None? || a.value.aborts || !w.sent then Over else Next(sess.state);
      case ForLine =>
        var r := sess.OnLine(text, w);
        a := Some(r);
        wait := if r.aborts || !w.sent then Over else Next(sess.state);
      case ForData =>
        a := sess.OnData(text, w);
        wait := if a.Some? && !w.sent then Over else Next(sess.state);
    }
  }

  lemma TurnWaits(s: Record, text: string, w: World)
    ensures var (t, a, next) := Turn(s, text, w); next.Over? || next == Next(t.state)
  {
    hide AfterCommand, AfterLine, AfterChunk, Parse;
  }

  lemma TraceStep(s: Record, wait: Wait, inputs: seq<Input>, i: nat)
    requires i < |inputs| && inputs[i].Received? && !wait.Over?
    ensures var (t, a, next) := Turn(s, inputs[i].text, inputs[i].w);
            Trace(s, wait, inputs[i..]) == [Event(s, inputs[i].text, inputs[i].w, t, a)]
              + Trace(t, next, inputs[i + 1..])
  {
    hide Turn;
    assert inputs[i..][0] == inputs[i] && inputs[i..][1..] == inputs[i + 1..];
  }

  lemma TraceEnd(s: Record, wait: Wait, inputs: seq<Input>, i: nat)
    requires i <= |inputs| && (i < |inputs| && !wait.Over? ==> inputs[i].Lost?)
    ensures Trace(s, wait, inputs[i..]) == []
  {}

  /** A connection: a server that is not ready refuses with 421; otherwise the greeting is sent, and the loop
      runs over the object until the session is over. */
  method StartSession(sess: Session, ready: bool, greetingSent: bool, inputs: seq<Input>)
    returns (opening: Answer, events: seq<Event>)
    requires sess.View() == FRESH
    modifies sess
    ensures opening == Say(if ready then 220 else 421)
    ensures events == if ready && greetingSent then Session0(inputs) else []
    ensures sess.View() == Final(FRESH, events)
  {
    opening, events := Say(220), [];
    if !ready {
      opening := Say(421);
    } else if greetingSent {
      events := Loop(sess, inputs);
    }
  }

  method Loop(sess: Session, inputs: seq<Input>) returns (events: seq<Event>)
    requires sess.View() == FRESH
    modifies sess
    ensures events == Session0(inputs)
    ensures sess.View() == Final(FRESH, events)
  {
    hide Turn, Trace;
    events := [];
    var wait, i := Next(sess.state), 0;
    assert inputs[0..] == inputs;
    while wait != Over && i < |inputs| && inputs[i].Received?
      invariant i <= |inputs|
      invariant !wait.Over? ==> wait == Next(sess.state)
      invariant events + Trace(sess.View(), wait, inputs[i..]) == Session0(inputs)
      invariant sess.View() == Final(FRESH, events)
    {
      var now := sess.View();
      TraceStep(now, wait, inputs, i);
      TurnWaits(now, inputs[i].text, inputs[i].w);
      var a;
      a, wait := TakeTurn(sess, inputs[i].text, inputs[i].w);
      events := events + [Event(now, inputs[i].text, inputs[i].w, sess.View(), a)];
      i := i + 1;
    }
    TraceEnd(sess.View(), wait, inputs, i);
  }

  // ---------- Single turns ----------

  predicate Mailing(s: State) { s.ExpectMail? || s.ExpectRecipient? || s.ExpectData? }

  predicate Answers(e: Event, code: int) { e.answer.Some? && e.answer.value.code == code }

  /** A credential line answered 235 by the credential check, for the mechanism and user name given before. */
  predicate Accepts(e: Event) {
    && e.before.state.AuthExpectPassword? && e.after.state.ExpectMail?
    && e.answer == Some(e.w.check(e.before.mechanism, e.before.arg0, e.text)) && Answers(e, 235)
  }

  /** A greeting answered 250. */
  predicate Greets(e: Event) { Parse(e.text).Hello? && e.before.state.ExpectHello? && Answers(e, 250) }

  /** What one turn can do to the state. */
  lemma TurnMoves(s: Record, text: string, w: World)
    ensures var (t, a, next) := Turn(s, text, w);
            var e := Event(s, text, w, t, a);
            && (Mailing(t.state) && !Mailing(s.state) ==> Accepts(e))
            && (t.state.ExpectData? && !s.state.ExpectData? ==> s.state.ExpectRecipient? && Answers(e, 354))
            && (s.state.ExpectHello? && !t.state.ExpectHello? && !t.state.Quit? ==> Greets(e))
            && (t.state.ExpectHello? ==> s.state.ExpectHello?)
            && (t.state.Quit? ==> next.Over?)
  {
    hide Parse, Split, Slide, Ends;
  }

  // ---------- Whole sessions ----------

  predicate InStep(s: Record, wait: Wait) { wait.Over? || wait == Next(s.state) }

  lemma TraceHead(s: Record, wait: Wait, inputs: seq<Input>)
    requires InStep(s, wait) && Trace(s, wait, inputs) != []
    ensures !wait.Over? && inputs != [] && inputs[0].Received?
    ensures var (t, a, next) := Turn(s, inputs[0].text, inputs[0].w);
            var all := Trace(s, wait, inputs);
            InStep(t, next) && all[0] == Event(s, inputs[0].text, inputs[0].w, t, a)
              && all[1..] == Trace(t, next, inputs[1..])
  {
    TurnWaits(s, inputs[0].text, inputs[0].w);
    hide Turn;
  }

  lemma {:induction false} AcceptedFrom(s: Record, wait: Wait, inputs: seq<Input>, i: nat) returns (j: nat)
    requires InStep(s, wait) && i < |Trace(s, wait, inputs)|
    requires !Mailing(s.state) && Mailing(Trace(s, wait, inputs)[i].after.state)
    ensures j <= i && Accepts(Trace(s, wait, inputs)[j])
    decreases |inputs|
  {
    hide Turn, Trace, Accepts, Greets;
    TraceHead(s, wait, inputs);
    var (t, a, next) := Turn(s, inputs[0].text, inputs[0].w);
    TurnMoves(s, inputs[0].text, inputs[0].w);
    if Mailing(t.state) {
      j := 0;
    } else {
      var k := AcceptedFrom(t, next, inputs[1..], i - 1);
      j := k + 1;
    }
  }

  /** Whenever a session is in one of the three mail states, a credential line has earlier been answered
      235. */
  lemma AuthenticatedFirst(inputs: seq<Input>, i: nat)
    requires i < |Session0(inputs)| && Mailing(Session0(inputs)[i].after.state)
    ensures exists j :: 0 <= j <= i && Accepts(Session0(inputs)[j])
  {
    var j := AcceptedFrom(FRESH, ForCommand, inputs, i);
  }

  lemma {:induction false} GreetedFrom(s: Record, wait: Wait, inputs: seq<Input>, i: nat) returns (j: nat)
    requires InStep(s, wait) && i < |Trace(s, wait, inputs)| && s.state.ExpectHello?
    requires var e := Trace(s, wait, inputs)[i]; !e.after.state.ExpectHello? && !e.after.state.Quit?
    ensures j <= i && Greets(Trace(s, wait, inputs)[j])
    decreases |inputs|
  {
    hide Turn, Trace, Accepts, Greets;
    TraceHead(s, wait, inputs);
    var (t, a, next) := Turn(s, inputs[0].text, inputs[0].w);
    TurnMoves(s, inputs[0].text, inputs[0].w);
    if !t.state.ExpectHello? {
      if t.state.Quit? { OverIsEnd(t, next, inputs[1..]); }
      j := 0;
    } else {
      var k := GreetedFrom(t, next, inputs[1..], i - 1);
      j := k + 1;
    }
  }

  lemma OverIsEnd(s: Record, wait: Wait, inputs: seq<Input>)
    requires wait.Over?
    ensures Trace(s, wait, inputs) == []
  {}

  /** Nothing but a refusal or the end comes before an accepted greeting. */
  lemma GreetedFirst(inputs: seq<Input>, i: nat)
    requires i < |Session0(inputs)|
    requires var e := Session0(inputs)[i]; !e.after.state.ExpectHello? && !e.after.state.Quit?
    ensures exists j :: 0 <= j <= i && Greets(Session0(inputs)[j])
  {
    var j := GreetedFrom(FRESH, ForCommand, inputs, i);
  }

  lemma {:induction false} EventIsTurn(s: Record, wait: Wait, inputs: seq<Input>, i: nat) returns (next: Wait)
    requires InStep(s, wait) && i < |Trace(s, wait, inputs)|
    ensures var e := Trace(s, wait, inputs)[i]; Turn(e.before, e.text, e.w) == (e.after, e.answer, next)
    ensures next.Over? ==> i == |Trace(s, wait, inputs)| - 1
    decreases |inputs|
  {
    hide Turn, Trace;
    TraceHead(s, wait, inputs);
    var (t, a, n) := Turn(s, inputs[0].text, inputs[0].w);
    if i == 0 {
      next := n;
      if n.Over? { OverIsEnd(t, n, inputs[1..]); }
    } else {
      next := EventIsTurn(t, n, inputs[1..], i - 1);
    }
  }

  /** Data is accepted only after recipients are expected and by an answer of 354; and once a session has
      quit, nothing more is handled. */
  lemma DataEnteredAndQuitFinal(inputs: seq<Input>, i: nat)
    requires i < |Session0(inputs)|
    ensures var e := Session0(inputs)[i];
            && (e.after.state.ExpectData? && !e.before.state.ExpectData? ==>
                e.before.state.ExpectRecipient? && Answers(e, 354))
            && (e.after.state.Quit? ==> i == |Session0(inputs)| - 1)
  {
    hide Turn, Trace, Accepts, Greets;
    var next := EventIsTurn(FRESH, ForCommand, inputs, i);
    var e := Session0(inputs)[i];
    TurnMoves(e.before, e.text, e.w);
  }

  lemma {:induction false} EventsChain(s: Record, wait: Wait, inputs: seq<Input>, i: nat)
    requires InStep(s, wait) && i < |Trace(s, wait, inputs)|
    ensures var all := Trace(s, wait, inputs); all[i].before == if i == 0 then s else all[i - 1].after
    decreases |inputs|
  {
    hide Turn, Trace;
    TraceHead(s, wait, inputs);
    if i > 0 {
      var (t, a, n) := Turn(s, inputs[0].text, inputs[0].w);
      EventsChain(t, n, inputs[1..], i - 1);
    }
  }

  // ---------- User name and credentials ----------

  /** A user name is waited for only by LOGIN, and credentials only by a known mechanism. */
  predicate Consistent(s: Record) {
    (s.state.AuthExpectUsername? ==> s.mechanism.Login?) && (s.state.AuthExpectPassword? ==> !s.mechanism.Unknown?)
  }

  /** What made the session wait for credentials: a user name line, AUTH LOGIN with the user name, or AUTH
      PLAIN without credentials. */
  predicate AsksFor(e: Event, mechanism: Mechanism, user: string) {
    if e.before.state.AuthExpectUsername? then mechanism.Login? && user == e.text
    else e.before.state.ExpectAuth? && match Parse(e.text)
      case Auth(arg) => Split(arg) == Some((mechanism, if mechanism.Login? then user else ""))
        && (mechanism.Login? ==> user != "")
      case _ => false
  }

  lemma TurnConsistent(s: Record, text: string, w: World)
    requires Consistent(s)
    ensures var (t, a, next) := Turn(s, text, w);
            && Consistent(t)
            && (t.state.AuthExpectPassword? ==> AsksFor(Event(s, text, w, t, a), t.mechanism, t.arg0))
  {
    hide Parse, Split;
  }

  /** An event that asks for credentials leaves the session waiting for them, with the mechanism and user asked for. */
  lemma AskedForIsKept(s: Record, text: string, w: World, mechanism: Mechanism, user: string)
    requires Consistent(s) && !mechanism.Unknown?
    requires var (t, a, next) := Turn(s, text, w); AsksFor(Event(s, text, w, t, a), mechanism, user)
    ensures var (t, _, _) := Turn(s, text, w);
            t.state.AuthExpectPassword? && t.mechanism == mechanism && (mechanism.Login? ==> t.arg0 == user)
  {
    hide Parse, Split;
    NothingSplits();
  }

  lemma NothingSplits()
    ensures Split("").None?
  {}

  lemma {:induction false} EventsConsistent(s: Record, wait: Wait, inputs: seq<Input>, i: nat)
    requires InStep(s, wait) && Consistent(s) && i < |Trace(s, wait, inputs)|
    ensures Consistent(Trace(s, wait, inputs)[i].before)
    decreases |inputs|
  {
    hide Turn, Trace, Consistent;
    TraceHead(s, wait, inputs);
    TurnConsistent(s, inputs[0].text, inputs[0].w);
    if i > 0 {
      var (t, a, n) := Turn(s, inputs[0].text, inputs[0].w);
      EventsConsistent(t, n, inputs[1..], i - 1);
    }
  }

  /** A credential line is checked with the mechanism and the user name asked for in the turn right before. */
  lemma CredentialsPaired(inputs: seq<Input>, i: nat)
    requires i < |Session0(inputs)| && Session0(inputs)[i].before.state.AuthExpectPassword?
    ensures i > 0
    ensures var e := Session0(inputs)[i]; AsksFor(Session0(inputs)[i - 1], e.before.mechanism, e.before.arg0)
  {
    hide Turn, Trace, AsksFor;
    EventsChain(FRESH, ForCommand, inputs, i);
    var d := Session0(inputs)[i - 1];
    EventsConsistent(FRESH, ForCommand, inputs, i - 1);
    var _ := EventIsTurn(FRESH, ForCommand, inputs, i - 1);
    TurnConsistent(d.before, d.text, d.w);
  }

  // ---------- Recipients ----------

  /** An accepted greeting, RSET or accepted QUIT. */
  predicate Clears(e: Event) {
    Next(e.before.state).ForCommand? && match Parse(e.text)
      case Hello(_) => Answers(e, 250)
      case Reset(_) => true
      case QuitCmd(_) => Answers(e, 221)
      case _ => false
  }

  /** The recipient an event adds: one whose handler answered, while recipients were expected. */
  function Adds(e: Event): seq<string> {
    if e.before.state.ExpectRecipient? && Parse(e.text).RcptTo? && !e.w.rest && e.w.handler.Some?
    then [e.w.rcpt] else []
  }

  /** All recipients added since the last event that clears them, in order. */
  function Envelope(events: seq<Event>): seq<string> {
    if events == [] then []
    else if Clears(events[|events| - 1]) then []
    else Envelope(events[..|events| - 1]) + Adds(events[|events| - 1])
  }

  lemma TurnEnvelope(s: Record, text: string, w: World)
    ensures var (t, a, next) := Turn(s, text, w);
            var e := Event(s, text, w, t, a);
            t.recipients == if Clears(e) then [] else s.recipients + Adds(e)
  {
    hide Parse, Split, Slide, Ends;
  }

  /** In every run the recipients of a session are exactly those added since they were last cleared. */
  lemma {:induction false} RecipientsAre(inputs: seq<Input>, i: nat)
    requires i < |Session0(inputs)|
    ensures Session0(inputs)[i].after.recipients == Envelope(Session0(inputs)[..i + 1])
  {
    hide Turn, Trace, Clears, Adds;
    var all := Session0(inputs);
    var e := all[i];
    EventsChain(FRESH, ForCommand, inputs, i);
    var _ := EventIsTurn(FRESH, ForCommand, inputs, i);
    TurnEnvelope(e.before, e.text, e.w);
    assert all[..i + 1][..i] == all[..i] && all[..i + 1][i] == e;
    if i > 0 { RecipientsAre(inputs, i - 1); }
  }

  // ---------- Sender, size and last chunk ----------

  /** A MAIL command that is taken: mail was expected and its address could be parsed. */
  predicate Sends(e: Event) { e.before.state.ExpectMail? && Parse(e.text).MailFrom? && e.w.size >= 0 }

  /** The sender of the last MAIL command taken, unless its handler threw or an event has cleared it since. */
  function Sender(events: seq<Event>): string {
    if events == [] then ""
    else
      var e := events[|events| - 1];
      if Clears(e) then ""
      else if Sends(e) then (if e.w.handler.Some? then e.w.addr else "")
      else Sender(events[..|events| - 1])
  }

  /** The size the last MAIL command gave while mail was expected, taken or not. */
  function Size(events: seq<Event>): int {
    if events == [] then 0
    else
      var e := events[|events| - 1];
      if e.before.state.ExpectMail? && Parse(e.text).MailFrom? then e.w.size else Size(events[..|events| - 1])
  }

  /** The last chunk of mail data. */
  function LastChunk(events: seq<Event>): string {
    if events == [] then ""
    else
      var e := events[|events| - 1];
      if e.before.state.ExpectData? then e.text else LastChunk(events[..|events| - 1])
  }

  lemma TurnMail(s: Record, text: string, w: World)
    ensures var (t, a, next) := Turn(s, text, w);
            var e := Event(s, text, w, t, a);
            && t.from == (if Clears(e) then ""
                          else if Sends(e) then (if w.handler.Some? then w.addr else "")
                          else s.from)
            && t.expectedSize == (if s.state.ExpectMail? && Parse(text).MailFrom? then w.size else s.expectedSize)
            && t.rxd == if s.state.ExpectData? then text else s.rxd
  {
    hide Parse, Split, Slide, Ends;
  }

  /** In every run the sender of a session is that of the last MAIL command taken, the expected size is the last one
      given, and what it keeps of the mail data is the last chunk. */
  lemma {:induction false} SenderIs(inputs: seq<Input>, i: nat)
    requires i < |Session0(inputs)|
    ensures var events, s := Session0(inputs)[..i + 1], Session0(inputs)[i].after;
            s.from == Sender(events) && s.expectedSize == Size(events) && s.rxd == LastChunk(events)
  {
    hide Turn, Trace, Clears, Sends, Sender, Size, LastChunk, Parse;
    var all := Session0(inputs);
    var e := all[i];
    EventsChain(FRESH, ForCommand, inputs, i);
    var _ := EventIsTurn(FRESH, ForCommand, inputs, i);
    TurnMail(e.before, e.text, e.w);
    MailSnoc(all[..i], e);
    assert all[..i + 1] == all[..i] + [e];
    if i > 0 { SenderIs(inputs, i - 1); } else { NoMail(); }
  }

  lemma NoMail()
    ensures Sender([]) == "" && Size([]) == 0 && LastChunk([]) == ""
  {}

  lemma MailSnoc(events: seq<Event>, e: Event)
    ensures Sender(events + [e]) ==
            if Clears(e) then "" else if Sends(e) then (if e.w.handler.Some? then e.w.addr else "") else Sender(events)
    ensures Size(events + [e]) ==
            if e.before.state.ExpectMail? && Parse(e.text).MailFrom? then e.w.size else Size(events)
    ensures LastChunk(events + [e]) == if e.before.state.ExpectData? then e.text else LastChunk(events)
  {
    hide Clears, Sends, Parse;
    assert (events + [e])[..|events|] == events;
  }

  // ---------- The end of mail data ----------

  /** The chunks of mail data received so far, over all messages of the session. */
  function Chunks(events: seq<Event>): seq<string> {
    if events == [] then []
    else (if events[0].before.state.ExpectData? then [events[0].text] else []) + Chunks(events[1..])
  }

  lemma TurnSlides(s: Record, text: string, w: World)
    ensures var (t, a, next) := Turn(s, text, w);
            if s.state.ExpectData? then
              t.term == Slide(s.term, text) && t.state == if Ends(t.term) then ExpectMail else ExpectData
            else t.term == s.term
  {
    hide Parse, Split, Slide, Ends;
  }

  lemma WindowSnoc(seen: seq<string>, chunk: string)
    ensures Window(seen + [chunk]) == Slide(Window(seen), chunk)
  {
    assert (seen + [chunk])[..|seen|] == seen;
  }

  lemma {:induction false} WindowFrom(s: Record, wait: Wait, inputs: seq<Input>, seen: seq<string>, i: nat)
    requires InStep(s, wait) && i < |Trace(s, wait, inputs)| && s.term == Window(seen)
    ensures var all := Trace(s, wait, inputs);
            var e, chunks := all[i], seen + Chunks(all[..i + 1]);
            e.after.term == Window(chunks)
            && (e.before.state.ExpectData? ==> e.after.state == if Ends(Window(chunks)) then ExpectMail else ExpectData)
    decreases |inputs|
  {
    hide Turn, Trace, Window, Slide, Ends;
    TraceHead(s, wait, inputs);
    var all := Trace(s, wait, inputs);
    var (t, a, next) := Turn(s, inputs[0].text, inputs[0].w);
    TurnSlides(s, inputs[0].text, inputs[0].w);
    var now := if s.state.ExpectData? then seen + [inputs[0].text] else seen;
    WindowSnoc(seen, inputs[0].text);
    if i == 0 {
      assert all[..1] == [all[0]] && all[..1][1..] == [];
      assert seen + Chunks(all[..1]) == now;
    } else {
      WindowFrom(t, next, inputs[1..], now, i - 1);
      assert all[..i + 1][0] == all[0] && all[..i + 1][1..] == all[1..][..i];
      assert seen + Chunks(all[..i + 1]) == now + Chunks(all[1..][..i]);
    }
  }

  /** A session leaves the data state with a chunk exactly when some chunk of the session so far had five
      characters or more and all mail data so far ends with the terminator. */
  lemma DataEndsIff(inputs: seq<Input>, i: nat)
    requires i < |Session0(inputs)| && Session0(inputs)[i].before.state.ExpectData?
    ensures var all := Session0(inputs);
            var chunks := Chunks(all[..i + 1]);
            && (all[i].after.state.ExpectMail? || all[i].after.state.ExpectData?)
            && (all[i].after.state.ExpectMail? <==>
                  (exists k :: 0 <= k < |chunks| && |chunks[k]| >= 5)
                  && |Stream(chunks)| >= 5 && Last(Stream(chunks), 5) == END)
  {
    hide Turn, Trace, Window, Ends;
    WindowNone();
    WindowFrom(FRESH, ForCommand, inputs, [], i);
    var chunks := Chunks(Session0(inputs)[..i + 1]);
    assert [] + chunks == chunks;
    EndReportedIff(chunks);
  }

  lemma WindowNone()
    ensures Window([]) == ""
  {}

  // ---------- What becomes of an accepted authentication ----------

  /** While authentication is due, an answer of 235 leads to the mail states if and only if a credential line
      was waited for: credentials given with the AUTH command itself are accepted without effect. */
  lemma AcceptedCountsIff(s: Record, text: string, w: World)
    requires s.state.ExpectAuth? || s.state.AuthExpectUsername? || s.state.AuthExpectPassword?
    requires var (t, a, _) := Turn(s, text, w); a.Some? && a.value.code == 235
    ensures var (t, _, _) := Turn(s, text, w); Mailing(t.state) <==> s.state.AuthExpectPassword?
  {
    hide Parse, Split;
  }

  lemma {:induction false} UppersAt(s: string, i: nat)
    requires i < |s|
    ensures Uppers(s)[i] == Upper(s[i])
  {
    if i > 0 { UppersAt(s[1..], i - 1); }
  }

  lemma UppersOf(s: string, word: string)
    requires |s| == |word| && forall i :: 0 <= i < |s| ==> Upper(s[i]) == word[i]
    ensures Uppers(s) == word
  {
    forall i | 0 <= i < |s| ensures Uppers(s)[i] == word[i] { UppersAt(s, i); }
  }

  lemma ParsedAuth(arg: string)
    requires arg != ""
    ensures Parse("AUTH " + arg) == Auth(arg)
  {
    hide Uppers;
    var line := "AUTH " + arg;
    assert line[0..4] == "AUTH" && line[5..] == arg;
    UppersOf(line[0..4], "AUTH");
  }

  lemma SplitPlain(auth: string)
    ensures Split("PLAIN " + auth) == Some((Plain, auth))
  {
    var arg := "PLAIN " + auth;
    assert arg[..5] == "PLAIN" && arg[5] == ' ' && forall j :: 0 <= j < 5 ==> arg[j] == "PLAIN"[j];
    assert IndexOf(arg, ' ') == 5;
    assert arg[6..] == auth;
    UppersOf("PLAIN", "PLAIN");
  }

  /** So a client that sends PLAIN credentials with the command is told that it is authorised and is then
      refused when it sends mail. */
  lemma InlinePlainHasNoEffect(s: Record, auth: string, w: World, v: World, from: string)
    requires s.state.ExpectAuth? && auth != "" && w.check(Plain, "", auth) == Say(235)
    ensures var (t, a, _) := Turn(s, "AUTH " + ("PLAIN " + auth), w);
            a == Some(Say(235)) && t.state == ExpectAuth && AfterCommand(t, MailFrom(from), v) == Some((t, Say(503)))
  {
    hide Parse, Split;
    ParsedAuth("PLAIN " + auth);
    SplitPlain(auth);
  }

  /** AUTH throws, which ends the session, exactly when its first word has fewer than four characters or no
      space behind it; an argument that starts with a space is all one word. */
  lemma AuthThrowsIff(s: Record, arg: string, w: World)
    ensures AfterAuth(s, arg, w).None? <==>
              s.state.ExpectAuth? && arg != ""
              && if arg[0] == ' ' then |arg| < 4
                 else ' ' !in arg || exists k :: 0 <= k < 4 && k < |arg| && arg[k] == ' '
  {
    hide Uppers;
    if arg != "" {
      var n := IndexOf(arg, ' ');
      assert n < |arg| ==> arg[n] in arg;
    }
  }

  /** The mechanism's name alone, which asks the server for a challenge, ends the session without an answer. */
  lemma AuthPlainThrows(s: Record, w: World)
    requires s.state.ExpectAuth?
    ensures Turn(s, "AUTH PLAIN", w) == (s, None, Over)
  {
    hide Parse;
    assert "AUTH PLAIN" == "AUTH " + "PLAIN";
    ParsedAuth("PLAIN");
    AuthThrowsIff(s, "PLAIN", w);
  }
}
