/** What each SMTP command, line and chunk of data does to a session (sections 3.3 and 4.1.4 of RFC 5321).
    The answers of overridable handlers, of the credential check and of the address parser are part of the
    environment. */
module SmtpSession {
  import opened Options
  import opened SmtpWindow

  datatype State =
    | ExpectHello | ExpectAuth | AuthExpectUsername | AuthExpectPassword
    | ExpectMail | ExpectRecipient | ExpectData | Quit

  datatype Mechanism = Login | Plain | Unknown

  datatype Answer = Answer(code: int, aborts: bool)

  /** One session, as a value. */
  datatype Record = Record(
    state: State,
    from: string,
    recipients: seq<string>,
    expectedSize: int,
    rxd: string,
    term: string,
    arg0: string,
    mechanism: Mechanism)

  const FRESH: Record := Record(ExpectHello, "", [], 0, "", "", "", Plain)

  datatype Command =
    | Hello(domain: string)          // HELO and EHLO
    | Auth(arg: string)
    | QuitCmd(arg: string)
    | MailFrom(arg: string)
    | RcptTo(arg: string)
    | Data(arg: string)              // DATA and BDAT
    | Reset(arg: string)
    | Noop
    | Other(arg: string)             // HELP, VRFY, EXPN, ETRN, ATRN, STARTTLS
    | Unrecognized

  /** What the code around the session answers. */
  datatype World = World(
    domainOk: bool,                  // validateDomain
    size: int, addr: string,         // parseMailFrom
    rest: bool, rcpt: string,        // extractEmail: something follows the address; the address
    handler: Option<Answer>,         // the overridable handler of the command; none when it throws
    check: (Mechanism, string, string) -> Answer,   // the credential check
    sent: bool)                      // whether the reply could be sent

  function Say(code: int): Answer { Answer(code, false) }

  // ---------- Commands ----------

  function Cleared(s: Record, next: State): Record { s.(from := "", recipients := [], state := next) }

  function AfterHello(s: Record, domain: string, w: World): (Record, Answer) {
    if domain == "" || !w.domainOk then (s.(state := Quit), Answer(501, true))
    else (Cleared(s, if s.state.ExpectHello? then ExpectAuth else s.state), Say(250))
  }

  function AfterQuit(s: Record, arg: string): (Record, Answer) {
    if arg != "" then (s, Say(501)) else (Cleared(s, Quit), Say(221))
  }

  function AfterMail(s: Record, w: World): (Record, Answer) {
    if !s.state.ExpectMail? then (s, Say(503))
    else
      var t := s.(expectedSize := w.size);
      if w.size < 0 then (t, Say(if w.addr == "" then 553 else 555))
      else if w.handler.None? then (t.(from := ""), Say(555))
      else if w.handler.value.code == 250 then (t.(from := w.addr, state := ExpectRecipient), w.handler.value)
      else (t.(from := w.addr), w.handler.value)
  }

  function AfterRcpt(s: Record, w: World): (Record, Answer) {
    if !s.state.ExpectRecipient? then (s, Say(503))
    else if w.rest then (s, Say(553))
    else if w.handler.None? then (s, Say(555))
    else (s.(recipients := s.recipients + [w.rcpt]), w.handler.value)
  }

  function AfterData(s: Record, arg: string, w: World): (Record, Answer) {
    if arg != "" then (s, Say(501))
    else if !s.state.ExpectRecipient? then (s, Say(503))
    else if w.handler.None? then (s, Say(555))
    else (if w.handler.value.code == 354 then s.(state := ExpectData) else s, w.handler.value)
  }

  // ---------- Authentication ----------

  function Upper(c: char): char { if 'a' <= c <= 'z' then c - 'a' + 'A' else c }

  function Uppers(s: string): (r: string)
    ensures |r| == |s|
  {
    if s == "" then "" else [Upper(s[0])] + Uppers(s[1..])
  }

  function IndexOf(s: string, c: char): (i: nat)
    ensures i <= |s| && (i < |s| ==> s[i] == c) && forall j :: 0 <= j < i ==> s[j] != c
  {
    if s == "" || s[0] == c then 0 else IndexOf(s[1..], c) + 1
  }

  /** The mechanism and the argument behind it; nothing when the mechanism is too short to be looked at,
      which throws. A word without a space leaves the mechanism empty and becomes the argument. */
  function Split(arg: string): Option<(Mechanism, string)> {
    var space := IndexOf(arg, ' ');
    var proto, auth := if space == 0 then arg else if space < |arg| then arg[..space] else "",
                       if space == 0 then "" else if space < |arg| then arg[space + 1..] else arg;
    if |proto| < 4 then None
    else Some((if Uppers(proto) == "LOGIN" then Login else if Uppers(proto) == "PLAIN" then Plain else Unknown, auth))
  }

  /** AUTH, or nothing when it throws. */
  function AfterAuth(s: Record, arg: string, w: World): Option<(Record, Answer)> {
    if !s.state.ExpectAuth? then Some((s, Say(503)))
    else if arg == "" then Some((s, Say(501)))
    else match Split(arg)
      case None => None
      case Some((Unknown, _)) => Some((s.(mechanism := Unknown), Say(504)))
      case Some((Plain, auth)) =>
        var t := s.(mechanism := Plain);
        Some(if auth != "" then (t, w.check(Plain, "", auth)) else (t.(state := AuthExpectPassword), Say(334)))
      case Some((Login, auth)) =>
        var t := s.(mechanism := Login);
        var waiting :=
          if auth != "" then t.(arg0 := auth, state := AuthExpectPassword) else t.(state := AuthExpectUsername);
        Some((waiting, Say(334)))
  }

  function AfterLine(s: Record, line: string, w: World): (Record, Answer) {
    if s.state.AuthExpectUsername? then (s.(arg0 := line, state := AuthExpectPassword), Say(334))
    else if s.state.AuthExpectPassword? then
      var a := w.check(s.mechanism, s.arg0, line);
      (s.(state := if a.code == 235 then ExpectMail else ExpectAuth), a)
    else (s, Say(502))
  }

  // ---------- Mail data ----------

  function AfterChunk(s: Record, data: string, w: World): (Record, Option<Answer>) {
    if !s.state.ExpectData? then (s, Some(Say(503)))
    else
      var t := s.(term := Slide(s.term, data), rxd := data);
      if !Ends(t.term) then (t, None)
      else (t.(state := ExpectMail), Some(if w.handler.None? then Say(553) else w.handler.value))
  }

  /** Any command, or nothing when it throws. */
  function AfterCommand(s: Record, cmd: Command, w: World): Option<(Record, Answer)> {
    match cmd
    case Hello(domain) => Some(AfterHello(s, domain, w))
    case Auth(arg) => AfterAuth(s, arg, w)
    case QuitCmd(arg) => Some(AfterQuit(s, arg))
    case MailFrom(_) => Some(AfterMail(s, w))
    case RcptTo(_) => Some(AfterRcpt(s, w))
    case Data(arg) => Some(AfterData(s, arg, w))
    case Reset(_) => Some((Cleared(s, s.state), Say(250)))
    case Noop => Some((s, Say(250)))
    case Other(_) => if w.handler.None? then None else Some((s, w.handler.value))
    case Unrecognized => Some((s, Say(500)))
  }

  // ---------- The object ----------

  class Session {
    var state: State
    var from: string
    var recipients: seq<string>
    var expectedSize: int
    var rxd: string
    var term: string
    var arg0: string
    var mechanism: Mechanism

    constructor ()
      ensures View() == FRESH
    {
      state, from, recipients, expectedSize := ExpectHello, "", [], 0;
      rxd, term, arg0, mechanism := "", "", "", Plain;
    }

    function View(): Record
      reads this
    {
      Record(state, from, recipients, expectedSize, rxd, term, arg0, mechanism)
    }

    method ResetTo(next: State)
      modifies this
      ensures View() == Cleared(old(View()), next)
    {
      from := "";
      recipients := [];
      state := next;
    }

    method DoHello(domain: string, w: World) returns (a: Answer)
      modifies this
      ensures (View(), a) == AfterHello(old(View()), domain, w)
    {
      if domain == "" {
        state := Quit;
        return Answer(501, true);
      }
      if !w.domainOk {
        state := Quit;
        return Answer(501, true);
      }
      ResetTo(if state.ExpectHello? then ExpectAuth else state);
      return Say(250);
    }

    method DoQuit(arg: string) returns (a: Answer)
      modifies this
      ensures (View(), a) == AfterQuit(old(View()), arg)
    {
      if arg != "" {
        return Say(501);
      }
      ResetTo(ExpectHello);
      state := Quit;
      return Say(221);
    }

    method StartEmail(w: World) returns (a: Answer)
      modifies this
      ensures (View(), a) == AfterMail(old(View()), w)
    {
      if !state.ExpectMail? {
        return Say(503);
      }
      expectedSize := w.size;
      if expectedSize < 0 {
        return if w.addr == "" then Say(553) else Say(555);
      }
      from := w.addr;
      if w.handler.None? {
        from := "";
        return Say(555);
      }
      if w.handler.value.code == 250 {
        state := ExpectRecipient;
      }
      return w.handler.value;
    }

    method AddRecipient(w: World) returns (a: Answer)
      modifies this
      ensures (View(), a) == AfterRcpt(old(View()), w)
    {
      if !state.ExpectRecipient? {
        return Say(503);
      }
      if w.rest {
        return Say(553);
      }
      recipients := recipients + [w.rcpt];
      if w.handler.None? {
        recipients := recipients[..|recipients| - 1];
        assert recipients == old(recipients);
        return Say(555);
      }
      return w.handler.value;
    }

    method StartData(arg: string, w: World) returns (a: Answer)
      modifies this
      ensures (View(), a) == AfterData(old(View()), arg, w)
    {
      if arg != "" {
        return Say(501);
      }
      if !state.ExpectRecipient? {
        return Say(503);
      }
      if w.handler.None? {
        return Say(555);
      }
      if w.handler.value.code == 354 {
        state := ExpectData;
      }
      return w.handler.value;
    }

    method StartAuth(arg: string, w: World) returns (a: Option<Answer>)
      modifies this
      ensures match AfterAuth(old(View()), arg, w)
              case None => a.None? && View() == old(View())
              case Some(r) => a.Some? && (View(), a.value) == r
    {
      if !state.ExpectAuth? {
        return Some(Say(503));
      }
      if arg == "" {
        return Some(Say(501));
      }
      var parts := Split(arg);
      if parts.None? {
        return None;
      }
      mechanism := parts.value.0;
      var reply := ProtocolAuth(parts.value.1, w);
      return Some(reply);
    }

    method ProtocolAuth(auth: string, w: World) returns (a: Answer)
      modifies this
      ensures mechanism == old(mechanism)
      ensures mechanism.Unknown? ==> View() == old(View()) && a == Say(504)
      ensures mechanism.Plain? && auth != "" ==> View() == old(View()) && a == w.check(Plain, "", auth)
      ensures mechanism.Plain? && auth == "" ==> View() == old(View()).(state := AuthExpectPassword) && a == Say(334)
      ensures mechanism.Login? && auth != "" ==>
                View() == old(View()).(arg0 := auth, state := AuthExpectPassword) && a == Say(334)
      ensures mechanism.Login? && auth == "" ==> View() == old(View()).(state := AuthExpectUsername) && a == Say(334)
    {
      match mechanism
      case Plain =>
        if auth != "" {
          return w.check(Plain, "", auth);
        }
        state := AuthExpectPassword;
        return Say(334);
      case Login =>
        if auth != "" {
          arg0 := auth;
          state := AuthExpectPassword;
        } else {
          state := AuthExpectUsername;
        }
        return Say(334);
      case Unknown =>
        return Say(504);
    }

    method OnLine(line: string, w: World) returns (a: Answer)
      modifies this
      ensures (View(), a) == AfterLine(old(View()), line, w)
    {
      if state.AuthExpectUsername? {
        arg0 := line;
        state := AuthExpectPassword;
        return Say(334);
      } else if state.AuthExpectPassword? {
        a := w.check(mechanism, arg0, line);
        if a.code != 235 {
          state := ExpectAuth;
        } else {
          state := ExpectMail;
        }
        return;
      } else {
        return Say(502);
      }
    }

    method IsTermination(data: string) returns (done: bool)
      modifies this`term
      ensures term == Slide(old(term), data) && done == Ends(term)
    {
      var pick := Min(|data|, 5);
      term := term[Min(|term|, pick)..];
      var kept := term;
      var i := |data| - pick;
      while i < |data|
        invariant |data| - pick <= i <= |data| && term == kept + data[|data| - pick..i]
      {
        term := term + [data[i]];
        i := i + 1;
      }
      assert data[|data| - pick..|data|] == Last(data, pick);
      if |term| < 5 {
        return false;
      }
      return term[..5] == END;
    }

    method OnData(data: string, w: World) returns (a: Option<Answer>)
      modifies this
      ensures (View(), a) == AfterChunk(old(View()), data, w)
    {
      if !state.ExpectData? {
        return Some(Say(503));
      }
      var done := IsTermination(data);
      rxd := data;
      if done {
        state := ExpectMail;
        return Some(if w.handler.None? then Say(553) else w.handler.value);
      }
      return None;
    }

    method OnCommand(cmd: Command, w: World) returns (a: Option<Answer>)
      modifies this
      ensures match AfterCommand(old(View()), cmd, w)
              case None => a.None? && View() == old(View())
              case Some(r) => a.Some? && (View(), a.value) == r
    {
      hide AfterHello, AfterQuit, AfterMail, AfterRcpt, AfterData, AfterAuth;
      var r;
      match cmd {
      case Hello(domain) => r := DoHello(domain, w);
      case Auth(arg) =>
        a := StartAuth(arg, w);
        return;
      case QuitCmd(arg) => r := DoQuit(arg);
      case MailFrom(_) => r := StartEmail(w);
      case RcptTo(_) => r := AddRecipient(w);
      case Data(arg) => r := StartData(arg, w);
      case Reset(_) =>
        ResetTo(state);
        r := Say(250);
      case Noop => r := Say(250);
      case Other(_) => return w.handler;
      case Unrecognized => r := Say(500);
      }
      a := Some(r);
    }
  }
}
