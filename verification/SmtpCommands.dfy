/** Which command a line is, and what each kind of input does to a session, told by the words of RFC 5321. */
module SmtpCommands {
  import opened Options
  import opened SmtpWindow
  import opened SmtpSession
  import opened SmtpRuns

  // ---------- Words ----------

  /** `s` is the word in capital or small letters. */
  predicate Reads(s: string, word: string) {
    |s| == |word| && forall i :: 0 <= i < |s| ==>
      s[i] == word[i] || ('A' <= word[i] <= 'Z' && s[i] as int == word[i] as int + 32)
  }

  predicate Begins(line: string, word: string) { |word| <= |line| && Reads(line[..|word|], word) }

  predicate Capital(word: string) { forall i :: 0 <= i < |word| ==> word[i] == ' ' || 'A' <= word[i] <= 'Z' }

  lemma ReadsIff(s: string, word: string)
    requires Capital(word)
    ensures Uppers(s) == word <==> Reads(s, word)
  {
    hide Uppers;
    forall i | 0 <= i < |s| ensures Uppers(s)[i] == Upper(s[i]) { UppersAt(s, i); }
    if Uppers(s) == word {
      forall i | 0 <= i < |s| ensures s[i] == word[i] || ('A' <= word[i] <= 'Z' && s[i] as int == word[i] as int + 32) {
        assert Upper(s[i]) == word[i];
      }
    }
    if Reads(s, word) {
      forall i | 0 <= i < |s| ensures Upper(s[i]) == word[i] {}
      assert Uppers(s) == word;
    }
  }

  lemma WordIff(line: string, at: nat, word: string)
    requires Capital(word)
    ensures Word(line, at, word) <==> at + |word| <= |line| && Reads(line[at..at + |word|], word)
  {
    hide Reads, Uppers, Capital;
    if at + |word| <= |line| { ReadsIff(line[at..at + |word|], word); }
  }

  // ---------- Lines ----------

  /** The command of a line by its first four letters. */
  lemma ParseByCode(line: string, code: string)
    requires |line| >= 4 && Uppers(line[..4]) == code
    ensures Parse(line) ==
            if code == "HELO" || code == "EHLO" then Hello(Arg(line, 5))
            else if code == "DATA" then Data("")
            else if code == "RCPT" then (if Word(line, 4, " TO") then RcptTo(Arg(line, 7)) else Unrecognized)
            else if code == "MAIL" then (if Word(line, 4, " FROM") then MailFrom(Arg(line, 9)) else Unrecognized)
            else if code == "NOOP" then Noop
            else if code == "RSET" then Reset(Arg(line, 5))
            else if code == "QUIT" then QuitCmd(Arg(line, 5))
            else if code == "STAR" then (if Word(line, 4, "TTLS") then Other(Arg(line, 9)) else Unrecognized)
            else if code == "AUTH" then Auth(Arg(line, 5))
            else if code == "BDAT" then Data(Arg(line, 5))
            else if code == "HELP" || code == "VRFY" || code == "EXPN" || code == "ATRN" || code == "ETRN" then
              Other(Arg(line, 5))
            else Unrecognized
  {
    hide Uppers;
    assert line[0..4] == line[..4];
  }

  /** A line that begins with a word of four letters and more behind it. */
  lemma CodeOf(line: string, code: string, more: string)
    requires Begins(line, code + more) && Capital(code + more) && |code| == 4
    ensures |line| >= 4 && Uppers(line[..4]) == code && Word(line, 4, more)
  {
    hide Uppers, Word;
    var word := code + more;
    assert forall i :: 0 <= i < 4 ==> word[i] == code[i] && line[..|word|][i] == line[..4][i];
    assert forall i :: 0 <= i < |more| ==> word[i + 4] == more[i] && line[..|word|][i + 4] == line[4..4 + |more|][i];
    assert Capital(code) && Capital(more);
    ReadsIff(line[..4], code);
    WordIff(line, 4, more);
  }

  lemma OfCode(line: string, code: string, more: string)
    requires |line| >= 4 && |code| == 4 && Uppers(line[..4]) == code && Word(line, 4, more)
    requires Capital(code) && Capital(more)
    ensures Begins(line, code + more)
  {
    hide Uppers, Word;
    var word := code + more;
    ReadsIff(line[..4], code);
    WordIff(line, 4, more);
    forall i | 0 <= i < |word|
      ensures line[..|word|][i] == word[i]
              || ('A' <= word[i] <= 'Z' && line[..|word|][i] as int == word[i] as int + 32)
    {
      if i < 4 {
        assert line[..4][i] == line[i] && word[i] == code[i];
      } else {
        assert line[4..4 + |more|][i - 4] == line[i] && word[i] == more[i - 4];
      }
    }
  }

  /** A line that begins with a word, and what is behind it: directly, or after one character. */
  lemma Behind(w: string, code: string, more: string, c: char, arg: string)
    requires Reads(w, code + more) && Capital(code + more) && |code| == 4
    ensures var n := 4 + |more|;
            |w| == n && Arg(w, n + 1) == "" && Arg(w + ([c] + arg), n + 1) == arg && Arg(w + arg, n) == arg
    ensures Uppers(w[..4]) == Uppers((w + ([c] + arg))[..4]) == Uppers((w + arg)[..4]) == code
    ensures Word(w + arg, 4, more) && Word(w + ([c] + arg), 4, more) && Word(w, 4, more)
  {
    hide Uppers, Capital, Word;
    assert w[..|w|] == w && (w + ([c] + arg))[..|w|] == w && (w + arg)[..|w|] == w;
    CodeOf(w, code, more);
    CodeOf(w + ([c] + arg), code, more);
    CodeOf(w + arg, code, more);
    assert arg != "" ==> (w + arg)[|w|..] == arg;
    assert (w + ([c] + arg))[|w| + 1..] == arg;
  }

  lemma HelloLine(w: string, word: string, c: char, arg: string)
    requires Reads(w, word) && (word == "HELO" || word == "EHLO")
    ensures Parse(w) == Hello("") && Parse(w + ([c] + arg)) == Hello(arg)
  {
    hide Reads, Uppers, Word, Parse;
    assert word + "" == word;
    Behind(w, word, "", c, arg);
    ParseByCode(w, word);
    ParseByCode(w + ([c] + arg), word);
  }

  lemma OtherLine(w: string, word: string, c: char, arg: string)
    requires Reads(w, word) && (word == "HELP" || word == "VRFY" || word == "EXPN" || word == "ATRN" || word == "ETRN")
    ensures Parse(w) == Other("") && Parse(w + ([c] + arg)) == Other(arg)
  {
    hide Reads, Uppers, Word, Parse;
    assert word + "" == word;
    Behind(w, word, "", c, arg);
    ParseByCode(w, word);
    ParseByCode(w + ([c] + arg), word);
  }

  lemma AuthLine(w: string, word: string, c: char, arg: string)
    requires Reads(w, word) && word == "AUTH"
    ensures Parse(w) == Auth("") && Parse(w + ([c] + arg)) == Auth(arg)
  {
    hide Reads, Uppers, Word, Parse;
    assert word + "" == word;
    Behind(w, word, "", c, arg);
    ParseByCode(w, word);
    ParseByCode(w + ([c] + arg), word);
  }

  lemma BdatLine(w: string, word: string, c: char, arg: string)
    requires Reads(w, word) && word == "BDAT"
    ensures Parse(w) == Data("") && Parse(w + ([c] + arg)) == Data(arg)
  {
    hide Reads, Uppers, Word, Parse;
    assert word + "" == word;
    Behind(w, word, "", c, arg);
    ParseByCode(w, word);
    ParseByCode(w + ([c] + arg), word);
  }

  lemma ResetLine(w: string, word: string, c: char, arg: string)
    requires Reads(w, word) && word == "RSET"
    ensures Parse(w) == Reset("") && Parse(w + ([c] + arg)) == Reset(arg)
  {
    hide Reads, Uppers, Word, Parse;
    assert word + "" == word;
    Behind(w, word, "", c, arg);
    ParseByCode(w, word);
    ParseByCode(w + ([c] + arg), word);
  }

  lemma QuitLine(w: string, word: string, c: char, arg: string)
    requires Reads(w, word) && word == "QUIT"
    ensures Parse(w) == QuitCmd("") && Parse(w + ([c] + arg)) == QuitCmd(arg)
  {
    hide Reads, Uppers, Word, Parse;
    assert word + "" == word;
    Behind(w, word, "", c, arg);
    ParseByCode(w, word);
    ParseByCode(w + ([c] + arg), word);
  }

  /** Every command line: the word in any case, and behind it an argument. */
  lemma CommandLines(w: string, c: char, arg: string)
    ensures Reads(w, "HELO") || Reads(w, "EHLO") ==> Parse(w) == Hello("") && Parse(w + ([c] + arg)) == Hello(arg)
    ensures Reads(w, "AUTH") ==> Parse(w) == Auth("") && Parse(w + ([c] + arg)) == Auth(arg)
    ensures Reads(w, "MAIL FROM") ==> Parse(w + arg) == MailFrom(arg)
    ensures Reads(w, "RCPT TO") ==> Parse(w + arg) == RcptTo(arg)
    ensures Reads(w, "DATA") ==> Parse(w + arg) == Data("")
    ensures Reads(w, "BDAT") ==> Parse(w) == Data("") && Parse(w + ([c] + arg)) == Data(arg)
    ensures Reads(w, "RSET") ==> Parse(w) == Reset("") && Parse(w + ([c] + arg)) == Reset(arg)
    ensures Reads(w, "QUIT") ==> Parse(w) == QuitCmd("") && Parse(w + ([c] + arg)) == QuitCmd(arg)
    ensures Reads(w, "NOOP") ==> Parse(w + arg) == Noop
    ensures (Reads(w, "HELP") || Reads(w, "VRFY") || Reads(w, "EXPN") || Reads(w, "ATRN") || Reads(w, "ETRN")
             || Reads(w, "STARTTLS")) ==> Parse(w) == Other("") && Parse(w + ([c] + arg)) == Other(arg)
  {
    hide Reads, Parse;
    if Reads(w, "HELO") { HelloLine(w, "HELO", c, arg); }
    if Reads(w, "EHLO") { HelloLine(w, "EHLO", c, arg); }
    if Reads(w, "AUTH") { AuthLine(w, "AUTH", c, arg); }
    if Reads(w, "BDAT") { BdatLine(w, "BDAT", c, arg); }
    if Reads(w, "RSET") { ResetLine(w, "RSET", c, arg); }
    if Reads(w, "QUIT") { QuitLine(w, "QUIT", c, arg); }
    if Reads(w, "HELP") { OtherLine(w, "HELP", c, arg); }
    if Reads(w, "VRFY") { OtherLine(w, "VRFY", c, arg); }
    if Reads(w, "EXPN") { OtherLine(w, "EXPN", c, arg); }
    if Reads(w, "ATRN") { OtherLine(w, "ATRN", c, arg); }
    if Reads(w, "ETRN") { OtherLine(w, "ETRN", c, arg); }
    if Reads(w, "MAIL FROM") { MailLine(w, c, arg); }
    if Reads(w, "RCPT TO") { RcptLine(w, c, arg); }
    if Reads(w, "DATA") { DataLine(w, c, arg); }
    if Reads(w, "NOOP") { NoopLine(w, c, arg); }
    if Reads(w, "STARTTLS") { StartTlsLine(w, c, arg); }
  }

  lemma MailLine(w: string, c: char, arg: string)
    requires Reads(w, "MAIL FROM")
    ensures Parse(w + arg) == MailFrom(arg)
  {
    hide Reads, Parse, Uppers, Word;
    assert "MAIL FROM" == "MAIL" + " FROM";
    Behind(w, "MAIL", " FROM", c, arg);
    ParseByCode(w + arg, "MAIL");
  }

  lemma RcptLine(w: string, c: char, arg: string)
    requires Reads(w, "RCPT TO")
    ensures Parse(w + arg) == RcptTo(arg)
  {
    hide Reads, Parse, Uppers, Word;
    assert "RCPT TO" == "RCPT" + " TO";
    Behind(w, "RCPT", " TO", c, arg);
    ParseByCode(w + arg, "RCPT");
  }

  lemma DataLine(w: string, c: char, arg: string)
    requires Reads(w, "DATA")
    ensures Parse(w + arg) == Data("")
  {
    hide Reads, Parse, Uppers, Word;
    assert "DATA" == "DATA" + "";
    Behind(w, "DATA", "", c, arg);
    ParseByCode(w + arg, "DATA");
  }

  lemma NoopLine(w: string, c: char, arg: string)
    requires Reads(w, "NOOP")
    ensures Parse(w + arg) == Noop
  {
    hide Reads, Parse, Uppers, Word;
    assert "NOOP" == "NOOP" + "";
    Behind(w, "NOOP", "", c, arg);
    ParseByCode(w + arg, "NOOP");
  }

  lemma StartTlsLine(w: string, c: char, arg: string)
    requires Reads(w, "STARTTLS")
    ensures Parse(w) == Other("") && Parse(w + ([c] + arg)) == Other(arg)
  {
    hide Reads, Parse, Uppers, Word;
    assert "STARTTLS" == "STAR" + "TTLS";
    Behind(w, "STAR", "TTLS", c, arg);
    ParseByCode(w, "STAR");
    ParseByCode(w + ([c] + arg), "STAR");
  }

  /** The words a command line can begin with. */
  const WORDS: set<string> := {
    "HELO", "EHLO", "DATA", "RCPT TO", "MAIL FROM", "NOOP", "RSET", "QUIT", "STARTTLS", "AUTH", "BDAT",
    "HELP", "VRFY", "EXPN", "ATRN", "ETRN"
  }

  /** Any other line is unrecognized. */
  lemma UnrecognizedIff(line: string)
    ensures Parse(line).Unrecognized? <==> forall word :: word in WORDS ==> !Begins(line, word)
  {
    hide Begins, Parse, WORDS;
    if word :| word in WORDS && Begins(line, word) { KnownParses(line, word); }
    if !Parse(line).Unrecognized? {
      var word := ParsedBegins(line);
    }
  }

  lemma KnownParses(line: string, word: string)
    requires word in WORDS && Begins(line, word)
    ensures !Parse(line).Unrecognized?
  {
    hide Reads, Uppers, Word, Parse;
    var w, rest := line[..|word|], line[|word|..];
    assert line == w + rest;
    if rest == "" {
      CommandLines(w, ' ', "");
      assert w + "" == w == line;
    } else {
      CommandLines(w, rest[0], rest[1..]);
      CommandLines(w, ' ', rest);
      assert rest == [rest[0]] + rest[1..];
    }
  }

  lemma ParsedBegins(line: string) returns (word: string)
    requires !Parse(line).Unrecognized?
    ensures word in WORDS && Begins(line, word)
  {
    hide Reads, Uppers, Parse, Begins;
    LongEnough(line);
    var code := Uppers(line[..4]);
    ParseByCode(line, code);
    if code == "RCPT" {
      assert "RCPT TO" == "RCPT" + " TO";
      OfCode(line, "RCPT", " TO");
      word := "RCPT TO";
    } else if code == "MAIL" {
      assert "MAIL FROM" == "MAIL" + " FROM";
      OfCode(line, "MAIL", " FROM");
      word := "MAIL FROM";
    } else if code == "STAR" {
      assert "STARTTLS" == "STAR" + "TTLS";
      OfCode(line, "STAR", "TTLS");
      word := "STARTTLS";
    } else {
      assert code + "" == code;
      Nothing(line);
      OfCode(line, code, "");
      word := code;
    }
  }

  lemma Nothing(line: string)
    requires |line| >= 4
    ensures Word(line, 4, "")
  {
    assert line[4..4] == "";
  }

  lemma LongEnough(line: string)
    requires !Parse(line).Unrecognized?
    ensures |line| >= 4
  {}

  // ---------- The argument of AUTH ----------

  /** The first word of the argument, in any case, is the mechanism, and what is behind the first space goes with it. */
  lemma SplitWords(w: string, auth: string)
    requires ' ' !in w && |w| >= 4
    ensures Split(w + ([' '] + auth)) ==
            Some((if Reads(w, "LOGIN") then Login else if Reads(w, "PLAIN") then Plain else Unknown, auth))
  {
    hide Uppers;
    var arg := w + ([' '] + auth);
    assert arg[|w|] == ' ' && forall j :: 0 <= j < |w| ==> arg[j] == w[j] && w[j] in w;
    assert IndexOf(arg, ' ') == |w|;
    assert arg[..|w|] == w && arg[|w| + 1..] == auth;
    ReadsIff(w, "LOGIN");
    ReadsIff(w, "PLAIN");
  }

  /** An argument that begins with a space is a mechanism of its own, which is not known; one without a space, or with
      fewer than four characters before it, is not looked at. */
  lemma SplitOthers(arg: string)
    requires arg != ""
    ensures arg[0] == ' ' ==> Split(arg) == if |arg| < 4 then None else Some((Unknown, ""))
    ensures arg[0] != ' ' ==> (Split(arg).None? <==> ' ' !in arg || ' ' in arg[..if |arg| < 4 then |arg| else 4])
  {
    hide Uppers;
    var n, k := IndexOf(arg, ' '), if |arg| < 4 then |arg| else 4;
    if n < |arg| {
      assert arg[n] in arg;
      if n < k { assert arg[..k][n] == ' '; }
    }
    if arg[0] == ' ' {
      ReadsIff(arg, "LOGIN");
      ReadsIff(arg, "PLAIN");
    }
  }

  // ---------- What is handled how ----------

  /** The state alone says whether an input is a command, a line or mail data; after an abort, a throw or a reply that
      cannot be sent, and in the quit state, nothing more is waited for. */
  lemma TurnByState(s: Record, text: string, w: World)
    ensures var (t, a, next) := Turn(s, text, w);
            match s.state
            case AuthExpectUsername | AuthExpectPassword => a.Some? && (t, a.value) == AfterLine(s, text, w)
            case ExpectData => (t, a) == AfterChunk(s, text, w)
            case Quit => (t, a, next) == (s, None, Over)
            case _ =>
              if AfterCommand(s, Parse(text), w).None? then (t, a, next) == (s, None, Over)
              else a.Some? && AfterCommand(s, Parse(text), w) == Some((t, a.value))
    ensures var (t, a, next) := Turn(s, text, w);
            !s.state.Quit? && !s.state.ExpectData? ==>
              (next.Over? <==> a.None? || a.value.aborts || !w.sent || t.state.Quit?)
    ensures var (t, a, next) := Turn(s, text, w); s.state.ExpectData? ==> (next.Over? <==> a.Some? && !w.sent)
    ensures var (t, a, next) := Turn(s, text, w); !next.Over? ==>
              && (next.ForLine? <==> t.state.AuthExpectUsername? || t.state.AuthExpectPassword?)
              && (next.ForData? <==> t.state.ExpectData?)
  {
    hide Parse, Split, Slide, Ends;
  }

  /** Of the answers to commands and lines only the refusal of a greeting aborts, unless a handler or the credential
      check says so. */
  lemma AbortsIff(s: Record, text: string, w: World)
    requires w.handler.Some? ==> !w.handler.value.aborts
    requires forall m, user, line :: !w.check(m, user, line).aborts
    ensures var (t, a, next) := Turn(s, text, w);
            a.Some? ==> (a.value.aborts <==>
              Next(s.state).ForCommand? && Parse(text).Hello? && (Parse(text).domain == "" || !w.domainOk))
  {
    hide Parse, Split, Slide, Ends;
  }
}
