/** Many senders, one pipe, one receiver: the steps of a send under the destination's ticket lock and of a
    receive, interleaved in any order, one step per system call or atomic operation. */
module IpcPipe {
  import opened IpcFrames

  /** Where one call of send stands. */
  datatype Phase =
    | Idle
    | Waiting(ticket: nat, m: Message)            // drew a ticket, lock not granted yet
    | Locked(ticket: nat, m: Message)             // holds the lock, header not written
    | Writing(ticket: nat, m: Message, sent: nat) // header and `sent` bytes of the body written
    | Finished(ticket: nat, m: Message)           // everything written, lock not released

  /** Where the receive loop stands. */
  datatype Reader =
    | AtFrame
    | InBody(id: Byte, src: Byte, len: nat, got: seq<Byte>)

  datatype Net = Net(
    threads: map<nat, Phase>,
    next: nat,               // the lock's next ticket
    serving: nat,            // the ticket being served
    pipe: seq<Byte>,
    reader: Reader,
    handled: set<Byte>,      // message ids the worker handles
    issued: seq<Message>,    // every message that drew a ticket, in ticket order
    received: seq<Message>)  // every message handed to a handler, in order

  // ---------- The lock ----------

  /** The ticket is kept in a 32-bit signed variable and compared as a 64-bit unsigned number. */
  function Compared(ticket: nat): nat {
    var low := ticket % 0x1_0000_0000;
    if low < 0x8000_0000 then low else low + 0xFFFF_FFFF_0000_0000
  }

  /** A ticket's turn comes exactly when it survives the narrowing: the first 2^31 tickets, and the last
      2^31 before the 64-bit counters wrap. */
  lemma TurnComesIff(ticket: nat)
    requires ticket < 0x1_0000_0000_0000_0000
    ensures Compared(ticket) == ticket <==> ticket < 0x8000_0000 || ticket >= 0xFFFF_FFFF_8000_0000
  {}

  // ---------- Steps ----------

  datatype Step =
    | Begin(t: nat, m: Message)
    | Acquire(t: nat)
    | PutHeader(t: nat)
    | PutBody(t: nat, k: nat)
    | Release(t: nat)
    | Blocked                  // a write or read that would have blocked, and is tried again
    | TakeHeader
    | TakeBody(k: nat)
    | Enable(id: Byte)
    | Disable(id: Byte)

  predicate Holds(p: Phase) { p.Locked? || p.Writing? || p.Finished? }

  /** The message is on its way: between the sender's test of the handler bit and the receiver's. */
  predicate OnItsWay(s: Net, id: Byte) {
    exists i :: |s.received| <= i < |s.issued| && s.issued[i].id == id
  }

  predicate Enabled(s: Net, step: Step) {
    match step
    case Begin(t, m) => t in s.threads && s.threads[t].Idle? && Sized(m) && m.id in s.handled && s.next < 0x1_0000_0000
    case Acquire(t) => t in s.threads && s.threads[t].Waiting? && s.serving == Compared(s.threads[t].ticket)
    case PutHeader(t) => t in s.threads && s.threads[t].Locked?
    case PutBody(t, k) =>
      t in s.threads && s.threads[t].Writing?
      && var p := s.threads[t]; p.sent <= |p.m.body| && 0 < k <= Min(|p.m.body| - p.sent, PIPE_BUF)
    case Release(t) => t in s.threads && s.threads[t].Finished?
    case Blocked => true
    case TakeHeader => s.reader.AtFrame? && s.pipe != []
    case TakeBody(k) => s.reader.InBody? && 0 < k <= |s.pipe| && k <= Min(PIPE_BUF, s.reader.len - |s.reader.got|)
    case Enable(id) => true
    case Disable(id) => !OnItsWay(s, id)
  }

  function Min(a: int, b: int): int { if a < b then a else b }

  /** What a read of a header gives when fewer bytes come than asked for: the rest stays zero. */
  function ReadHeader(pipe: seq<Byte>): (r: (Byte, Byte, nat))
    requires pipe != []
  {
    var n := Min(HEADER, |pipe|);
    var h := pipe[..n] + seq(HEADER - n, _ => 0);
    (h[0], h[1], FromLittle(h[2..]))
  }

  function Apply(s: Net, step: Step): Net
    requires Enabled(s, step)
  {
    match step
    case Begin(t, m) => s.(threads := s.threads[t := Waiting(s.next, m)], next := s.next + 1, issued := s.issued + [m])
    case Acquire(t) => s.(threads := s.threads[t := Locked(s.threads[t].ticket, s.threads[t].m)])
    case PutHeader(t) =>
      var p := s.threads[t];
      s.(threads := s.threads[t := if |p.m.body| == 0 then Finished(p.ticket, p.m) else Writing(p.ticket, p.m, 0)],
         pipe := s.pipe + Header(p.m))
    case PutBody(t, k) =>
      var p := s.threads[t];
      var q := if p.sent + k < |p.m.body| then Writing(p.ticket, p.m, p.sent + k) else Finished(p.ticket, p.m);
      s.(threads := s.threads[t := q],
         pipe := s.pipe + p.m.body[p.sent..p.sent + k])
    case Release(t) => s.(threads := s.threads[t := Idle], serving := s.serving + 1)
    case Blocked => s
    case TakeHeader =>
      var (id, src, len) := ReadHeader(s.pipe);
      var rest := s.(pipe := s.pipe[Min(HEADER, |s.pipe|)..]);
      if id !in s.handled then rest
      else if len == 0 then rest.(received := s.received + [Message(id, src, [])])
      else rest.(reader := InBody(id, src, len, []))
    case TakeBody(k) =>
      var r := s.reader;
      var got := r.got + s.pipe[..k];
      var rest := s.(pipe := s.pipe[k..]);
      if |got| < r.len then rest.(reader := r.(got := got))
      else rest.(reader := AtFrame, received := s.received + [Message(r.id, r.src, got)])
    case Enable(id) => s.(handled := s.handled + {id})
    case Disable(id) => s.(handled := s.handled - {id})
  }

  /** How much of a body one step may write or read: at least a byte and at most 4096, and no more than is left. */
  lemma PieceIff(s: Net, t: nat, k: nat)
    ensures t in s.threads && s.threads[t].Writing? && s.threads[t].sent <= |s.threads[t].m.body| ==>
              (Enabled(s, PutBody(t, k)) <==> 0 < k <= 4096 && s.threads[t].sent + k <= |s.threads[t].m.body|)
    ensures s.reader.InBody? ==>
              (Enabled(s, TakeBody(k)) <==> 0 < k <= 4096 && k <= |s.pipe| && |s.reader.got| + k <= s.reader.len)
  {}

  // ---------- What every step keeps ----------

  /** The first ticket whose turn never comes. */
  const LAST_TURN: nat := 0x8000_0000

  ghost predicate Busy(s: Net, t: nat) { t in s.threads && !s.threads[t].Idle? }

  /** Tickets are drawn in order, each is held by one thread until its turn is over, and only the thread
      being served is inside. */
  ghost predicate Tickets(s: Net) {
    && s.next == |s.issued| <= 0x1_0000_0000 && s.serving <= s.next && s.serving <= LAST_TURN
    && (forall i :: 0 <= i < |s.issued| ==> Sized(s.issued[i]))
    && (forall t :: Busy(s, t) ==>
          s.serving <= s.threads[t].ticket < s.next && s.issued[s.threads[t].ticket] == s.threads[t].m)
    && (forall t, u :: Busy(s, t) && Busy(s, u) && t != u ==> s.threads[t].ticket != s.threads[u].ticket)
    && (forall t :: Busy(s, t) && Holds(s.threads[t]) ==> s.threads[t].ticket == s.serving < LAST_TURN)
    && (forall t :: Busy(s, t) && s.threads[t].Writing? ==> s.threads[t].sent < |s.threads[t].m.body|)
  }

  /** How many frames have been started in the pipe. */
  ghost function Started(s: Net): nat {
    if exists t :: Busy(s, t) && (s.threads[t].Writing? || s.threads[t].Finished?) then s.serving + 1 else s.serving
  }

  /** The part of the last started frame that is still to be written. */
  ghost function Ahead(s: Net): seq<Byte>
    requires Tickets(s)
  {
    if exists t :: Busy(s, t) && s.threads[t].Writing? then
      var t :| Busy(s, t) && s.threads[t].Writing?;
      s.threads[t].m.body[s.threads[t].sent..]
    else []
  }

  /** The part of the first unreceived frame that has been read. */
  ghost function Behind(s: Net): seq<Byte>
    requires |s.received| < |s.issued| || s.reader.AtFrame?
  {
    if s.reader.AtFrame? then [] else Header(s.issued[|s.received|]) + s.reader.got
  }

  ghost predicate Reading(s: Net) {
    s.reader.InBody? ==>
      && |s.received| < |s.issued| && |s.received| < Started(s)
      && var m := s.issued[|s.received|];
         s.reader.id == m.id && s.reader.src == m.src && s.reader.len == |m.body|
         && |s.reader.got| < |m.body| && s.reader.got == m.body[..|s.reader.got|]
  }

  /** What has been read of a frame, what is in the pipe and what is still to be written of a frame are
      together exactly the started frames not yet received, in ticket order; and what has been received is
      what was sent first. */
  ghost predicate Stream(s: Net)
    requires Tickets(s)
  {
    && |s.received| <= Started(s) <= |s.issued|
    && s.received == s.issued[..|s.received|]
    && Reading(s)
    && Behind(s) + s.pipe + Ahead(s) == Frames(s.issued[|s.received|..Started(s)])
  }

  ghost predicate Expected(s: Net) {
    forall i :: |s.received| <= i < |s.issued| ==> s.issued[i].id in s.handled
  }

  ghost predicate Inv(s: Net) { Tickets(s) && Stream(s) && Expected(s) }

  // ---------- The lock holder ----------

  lemma OneHolder(s: Net, t: nat, u: nat)
    requires Tickets(s) && Busy(s, t) && Busy(s, u) && Holds(s.threads[t]) && Holds(s.threads[u])
    ensures t == u
  {}

  /** Progress of the stream as seen from the thread that holds the lock. */
  lemma HolderView(s: Net, t: nat)
    requires Tickets(s) && Busy(s, t) && Holds(s.threads[t])
    ensures Started(s) == if s.threads[t].Locked? then s.serving else s.serving + 1
    ensures Ahead(s) == if s.threads[t].Writing? then s.threads[t].m.body[s.threads[t].sent..] else []
    ensures Started(s) <= |s.issued|
  {
    if u :| Busy(s, u) && Holds(s.threads[u]) && u != t { OneHolder(s, t, u); }
  }

  lemma NoHolderView(s: Net)
    requires Tickets(s) && forall t :: Busy(s, t) ==> !Holds(s.threads[t])
    ensures Started(s) == s.serving && Ahead(s) == []
  {}

  // ---------- Steps of the lock ----------

  /** A thread moving on with the same ticket and message. */
  lemma Advances(s: Net, n: Net, t: nat, p: Phase)
    requires Tickets(s) && Busy(s, t)
    requires n.threads == s.threads[t := p] && n.next == s.next && n.serving == s.serving && n.issued == s.issued
    requires !p.Idle? && p.ticket == s.threads[t].ticket && p.m == s.threads[t].m
    requires Holds(p) ==> p.ticket == s.serving < LAST_TURN
    requires p.Writing? ==> p.sent < |p.m.body|
    ensures Tickets(n)
    ensures Busy(n, t) && n.threads[t] == p
  {
    hide Sized;
    forall u ensures Busy(n, u) <==> Busy(s, u) {}
    forall u | Busy(n, u) && u != t ensures n.threads[u] == s.threads[u] {}
  }

  lemma BeginTickets(s: Net, t: nat, m: Message)
    requires Tickets(s) && Enabled(s, Begin(t, m))
    ensures Tickets(Apply(s, Begin(t, m)))
  {
    hide Sized;
    var n := Apply(s, Begin(t, m));
    assert n.threads == s.threads[t := Waiting(s.next, m)];
    forall u ensures Busy(n, u) <==> u == t || Busy(s, u) {}
    forall u | Busy(n, u) && u != t ensures n.threads[u] == s.threads[u] {}
  }

  lemma ReleaseTickets(s: Net, t: nat)
    requires Tickets(s) && Enabled(s, Release(t))
    ensures Tickets(Apply(s, Release(t)))
    ensures var n := Apply(s, Release(t)); forall u :: Busy(n, u) ==> !Holds(n.threads[u])
  {
    var n := Apply(s, Release(t));
    assert n.threads == s.threads[t := Idle];
    assert Busy(s, t);
    forall u ensures Busy(n, u) <==> Busy(s, u) && u != t {}
    forall u | Busy(n, u) ensures n.threads[u] == s.threads[u] && s.threads[u].ticket != s.serving {}
  }

  lemma SameHolder(s: Net, n: Net)
    requires Tickets(s) && Tickets(n) && s.serving == n.serving
    requires forall t :: Busy(s, t) && Holds(s.threads[t]) ==> Busy(n, t) && n.threads[t] == s.threads[t]
    requires forall t :: Busy(n, t) && Holds(n.threads[t]) ==> Busy(s, t) && n.threads[t] == s.threads[t]
    ensures Started(s) == Started(n) && Ahead(s) == Ahead(n)
  {
    hide Tickets, Started, Ahead;
    if t :| Busy(s, t) && Holds(s.threads[t]) {
      HolderView(s, t);
      HolderView(n, t);
    } else {
      NoHolderView(s);
      NoHolderView(n);
    }
  }

  lemma BeginKeeps(s: Net, t: nat, m: Message)
    requires Inv(s) && Enabled(s, Begin(t, m))
    ensures Inv(Apply(s, Begin(t, m)))
  {
    hide Tickets, Started, Ahead, Frames;
    var n := Apply(s, Begin(t, m));
    BeginTickets(s, t, m);
    SameHolder(s, n);
    assert n.issued[|n.received|..Started(n)] == s.issued[|s.received|..Started(s)];
  }

  /** While a waiting thread's turn has come, nobody is inside. */
  lemma TurnIsFree(s: Net, t: nat)
    requires Tickets(s) && Enabled(s, Acquire(t))
    ensures s.threads[t].ticket == s.serving < LAST_TURN
    ensures forall u :: Busy(s, u) ==> !Holds(s.threads[u])
  {
    assert Busy(s, t);
  }

  lemma AcquireKeeps(s: Net, t: nat)
    requires Inv(s) && Enabled(s, Acquire(t))
    ensures Inv(Apply(s, Acquire(t)))
  {
    hide Tickets, Started, Ahead, Frames;
    var n := Apply(s, Acquire(t));
    TurnIsFree(s, t);
    Advances(s, n, t, n.threads[t]);
    NoHolderView(s);
    HolderView(n, t);
  }

  lemma ReleaseKeeps(s: Net, t: nat)
    requires Inv(s) && Enabled(s, Release(t))
    ensures Inv(Apply(s, Release(t)))
  {
    hide Tickets, Started, Ahead, Frames;
    var n := Apply(s, Release(t));
    ReleaseTickets(s, t);
    HolderView(s, t);
    NoHolderView(n);
  }

  // ---------- Steps of the writer ----------

  lemma Shift(behind: seq<Byte>, pipe: seq<Byte>, put: seq<Byte>, ahead: seq<Byte>, all: seq<Byte>)
    requires behind + pipe == all
    ensures behind + (pipe + put) + ahead == all + (put + ahead)
  {}

  lemma PutHeaderKeeps(s: Net, t: nat)
    requires Inv(s) && Enabled(s, PutHeader(t))
    ensures Inv(Apply(s, PutHeader(t)))
  {
    hide Tickets, Started, Ahead, Frames, Header;
    var n := Apply(s, PutHeader(t));
    HeldTicket(s, t);
    Advances(s, n, t, n.threads[t]);
    HolderView(s, t);
    HolderView(n, t);
    var m, q := s.threads[t].m, s.issued[|s.received|..s.serving];
    assert s.issued[|s.received|..s.serving + 1] == q + [m];
    FramesSnoc(q, m);
    assert Ahead(n) == m.body;
    Shift(Behind(s), s.pipe, Header(m), m.body, Frames(q));
  }

  lemma HeldTicket(s: Net, t: nat)
    requires Tickets(s) && Busy(s, t) && Holds(s.threads[t])
    ensures s.threads[t].ticket == s.serving < LAST_TURN && s.serving < |s.issued|
            && s.issued[s.serving] == s.threads[t].m
  {}

  lemma PutBodyKeeps(s: Net, t: nat, k: nat)
    requires Inv(s) && Enabled(s, PutBody(t, k))
    ensures Inv(Apply(s, PutBody(t, k)))
  {
    hide Tickets, Started, Ahead, Frames, Header, Sized;
    var n := Apply(s, PutBody(t, k));
    var b, i := s.threads[t].m.body, s.threads[t].sent;
    HeldTicket(s, t);
    Advances(s, n, t, n.threads[t]);
    HolderView(s, t);
    HolderView(n, t);
    assert b[i..] == b[i..i + k] + b[i + k..];
    assert Ahead(n) == b[i + k..];
    Regroup(Behind(s) + s.pipe, b[i..i + k], b[i + k..]);
    Regroup(Behind(s), s.pipe, b[i..i + k]);
  }

  // ---------- Steps of the reader ----------

  lemma AheadIsShort(s: Net)
    requires Tickets(s)
    ensures Started(s) <= |s.issued|
    ensures Ahead(s) != [] ==> Started(s) > 0 && |Ahead(s)| <= |s.issued[Started(s) - 1].body|
  {
    if t :| Busy(s, t) && Holds(s.threads[t]) {
      HolderView(s, t);
    } else {
      NoHolderView(s);
    }
  }

  lemma LastFrame(ms: seq<Message>)
    requires ms != []
    ensures |Frames(ms)| >= HEADER + |ms[|ms| - 1].body|
  {
    var q, m := ms[..|ms| - 1], ms[|ms| - 1];
    assert ms == q + [m];
    FramesSnoc(q, m);
  }

  lemma Cut(pipe: seq<Byte>, ahead: seq<Byte>, x: seq<Byte>, rest: seq<Byte>, k: nat)
    requires pipe + ahead == x + rest && k <= |pipe| && k <= |x|
    ensures pipe[..k] == x[..k] && pipe[k..] + ahead == x[k..] + rest
  {
    assert (pipe + ahead)[..k] == pipe[..k] && (x + rest)[..k] == x[..k];
    assert (pipe + ahead)[k..] == pipe[k..] + ahead && (x + rest)[k..] == x[k..] + rest;
  }

  /** Between frames, a pipe with anything in it starts with a whole header. */
  lemma WholeHeader(s: Net)
    requires Tickets(s) && Stream(s) && s.reader.AtFrame? && s.pipe != []
    ensures |s.received| < Started(s) <= |s.issued| && |s.pipe| >= HEADER
    ensures var m := s.issued[|s.received|];
            s.pipe[..HEADER] == Header(m) && ReadHeader(s.pipe) == (m.id, m.src, |m.body|)
            && s.pipe[HEADER..] + Ahead(s) == m.body + Frames(s.issued[|s.received| + 1..Started(s)])
  {
    hide Tickets, Started, Ahead, Header, FromLittle;
    var q := s.issued[|s.received|..Started(s)];
    assert s.pipe + Ahead(s) == Frames(q);
    assert q != [];
    AheadIsShort(s);
    LastFrame(q);
    var m, rest := q[0], Frames(q[1..]);
    assert q[1..] == s.issued[|s.received| + 1..Started(s)];
    Regroup(Header(m), m.body, rest);
    Cut(s.pipe, Ahead(s), Header(m), m.body + rest, HEADER);
    AllSized(s, |s.received|);
    HeaderParses(m);
    assert s.pipe[..HEADER] + seq(0, _ => 0) == Header(m);
  }

  lemma AllSized(s: Net, i: nat)
    requires Tickets(s) && i < |s.issued|
    ensures Sized(s.issued[i])
  {}

  lemma TakeHeaderKeeps(s: Net)
    requires Inv(s) && Enabled(s, TakeHeader)
    ensures Inv(Apply(s, TakeHeader))
  {
    hide Tickets, Started, Ahead, Header, Frames, ReadHeader;
    var n := Apply(s, TakeHeader);
    WholeHeader(s);
    SameThreads(s, n);
    var m := s.issued[|s.received|];
    if |m.body| == 0 {
      assert m == Message(m.id, m.src, []);
      assert n.received == s.issued[..|s.received|] + [m] == s.issued[..|n.received|];
      assert n.pipe + Ahead(n) == Frames(s.issued[|n.received|..Started(s)]);
    } else {
      assert Behind(n) == Header(m);
      Regroup(Header(m), n.pipe, Ahead(s));
      Regroup(Header(m), s.pipe[HEADER..], Ahead(s));
      assert s.pipe == Header(m) + s.pipe[HEADER..];
    }
  }

  lemma SameThreads(s: Net, n: Net)
    requires Tickets(s) && n.threads == s.threads && n.next == s.next && n.serving == s.serving && n.issued == s.issued
    ensures Tickets(n) && Started(n) == Started(s) && Ahead(n) == Ahead(s)
  {
    forall t ensures Busy(n, t) <==> Busy(s, t) {}
    SameHolder(s, n);
  }

  /** Inside a frame, what comes next in the pipe is the rest of its body. */
  lemma RestOfBody(s: Net)
    requires Tickets(s) && Stream(s) && s.reader.InBody?
    ensures Started(s) <= |s.issued|
    ensures var m, g := s.issued[|s.received|], |s.reader.got|;
            s.pipe + Ahead(s) == m.body[g..] + Frames(s.issued[|s.received| + 1..Started(s)])
  {
    hide Tickets, Started, Ahead, Header;
    AheadIsShort(s);
    var q := s.issued[|s.received|..Started(s)];
    var m, g, rest := q[0], s.reader.got, Frames(q[1..]);
    assert q[1..] == s.issued[|s.received| + 1..Started(s)];
    assert (Header(m) + g) + s.pipe + Ahead(s) == (Header(m) + m.body) + rest;
    Drop(Header(m), g, s.pipe + Ahead(s), m.body, rest);
  }

  lemma Drop(h: seq<Byte>, g: seq<Byte>, pipe: seq<Byte>, body: seq<Byte>, rest: seq<Byte>)
    requires (h + g) + pipe == (h + body) + rest && |g| <= |body|
    ensures pipe == body[|g|..] + rest
  {
    var n := |h| + |g|;
    assert ((h + g) + pipe)[n..] == pipe;
    assert ((h + body) + rest)[n..] == body[|g|..] + rest;
  }

  lemma TakeBodyKeeps(s: Net, k: nat)
    requires Inv(s) && Enabled(s, TakeBody(k))
    ensures Inv(Apply(s, TakeBody(k)))
  {
    hide Tickets, Started, Ahead, Header, Frames;
    var n := Apply(s, TakeBody(k));
    RestOfBody(s);
    SameThreads(s, n);
    var m, g, rest := s.issued[|s.received|], |s.reader.got|, Frames(s.issued[|s.received| + 1..Started(s)]);
    Cut(s.pipe, Ahead(s), m.body[g..], rest, k);
    assert s.reader.got + s.pipe[..k] == m.body[..g + k];
    if g + k < |m.body| {
      assert Behind(n) + n.pipe == Behind(s) + s.pipe by {
        assert s.pipe == s.pipe[..k] + s.pipe[k..];
        Regroup(Header(m), s.reader.got, s.pipe[..k]);
        Regroup(Header(m) + s.reader.got, s.pipe[..k], s.pipe[k..]);
      }
    } else {
      assert m == Message(m.id, m.src, s.reader.got + s.pipe[..k]);
      assert n.received == s.issued[..|s.received|] + [m] == s.issued[..|n.received|];
      assert n.pipe + Ahead(n) == rest;
    }
  }

  // ---------- Whole runs ----------

  ghost predicate Start(s: Net) {
    && s.next == 0 && s.serving == 0 && s.pipe == [] && s.reader.AtFrame? && s.issued == [] && s.received == []
    && forall t :: t in s.threads ==> s.threads[t].Idle?
  }

  predicate Legal(s: Net, steps: seq<Step>)
    decreases |steps|
  {
    steps != [] ==> Enabled(s, steps[0]) && Legal(Apply(s, steps[0]), steps[1..])
  }

  function Run(s: Net, steps: seq<Step>): Net
    requires Legal(s, steps)
    decreases |steps|
  {
    if steps == [] then s else Run(Apply(s, steps[0]), steps[1..])
  }

  lemma RunNone(s: Net)
    ensures Legal(s, []) && Run(s, []) == s
  {}

  lemma {:induction false} RunSnoc(s: Net, steps: seq<Step>, x: Step)
    requires Legal(s, steps) && Enabled(Run(s, steps), x)
    ensures Legal(s, steps + [x]) && Run(s, steps + [x]) == Apply(Run(s, steps), x)
    decreases |steps|
  {
    hide Enabled, Apply;
    if steps == [] {
      assert [] + [x] == [x] && [x][1..] == [];
      assert Legal(Apply(s, x), []);
    } else {
      RunSnoc(Apply(s, steps[0]), steps[1..], x);
      assert (steps + [x])[0] == steps[0] && (steps + [x])[1..] == steps[1..] + [x];
    }
  }

  lemma {:induction false} RunConcat(s: Net, a: seq<Step>, b: seq<Step>)
    requires Legal(s, a) && Legal(Run(s, a), b)
    ensures Legal(s, a + b) && Run(s, a + b) == Run(Run(s, a), b)
    decreases |a|
  {
    hide Enabled, Apply;
    if a == [] {
      assert [] + b == b;
    } else {
      RunConcat(Apply(s, a[0]), a[1..], b);
      assert (a + b)[0] == a[0] && (a + b)[1..] == a[1..] + b;
    }
  }

  lemma RunOne(s: Net, x: Step)
    requires Enabled(s, x)
    ensures Legal(s, [x]) && Run(s, [x]) == Apply(s, x)
  {
    RunNone(s);
    RunSnoc(s, [], x);
    assert [] + [x] == [x];
  }

  lemma StepKeeps(s: Net, step: Step)
    requires Inv(s) && Enabled(s, step)
    ensures Inv(Apply(s, step))
  {
    match step
    case Begin(t, m) => BeginKeeps(s, t, m);
    case Acquire(t) => AcquireKeeps(s, t);
    case PutHeader(t) => PutHeaderKeeps(s, t);
    case PutBody(t, k) => PutBodyKeeps(s, t, k);
    case Release(t) => ReleaseKeeps(s, t);
    case Blocked =>
    case TakeHeader => TakeHeaderKeeps(s);
    case TakeBody(k) => TakeBodyKeeps(s, k);
    case Enable(id) => MaskKeeps(s, step);
    case Disable(id) => MaskKeeps(s, step);
  }

  lemma MaskKeeps(s: Net, step: Step)
    requires Inv(s) && Enabled(s, step) && (step.Enable? || step.Disable?)
    ensures Inv(Apply(s, step))
  {
    SameThreads(s, Apply(s, step));
  }

  lemma {:induction false} RunKeeps(s: Net, steps: seq<Step>)
    requires Inv(s) && Legal(s, steps)
    ensures Inv(Run(s, steps))
    decreases |steps|
  {
    hide Inv, Enabled, Apply;
    if steps != [] {
      StepKeeps(s, steps[0]);
      RunKeeps(Apply(s, steps[0]), steps[1..]);
    }
  }

  /** After any run: what has been handed on is exactly what was sent first, in the order the tickets were
      drawn and with its own source, id and body; what is on its way is whole frames in that order, of which
      only the first can be partly read and only the last partly written. */
  lemma NoFrameTorn(s: Net, steps: seq<Step>)
    requires Start(s) && Legal(s, steps)
    ensures var n := Run(s, steps);
            && Tickets(n)
            && |n.received| <= Started(n) <= |n.issued| && n.received == n.issued[..|n.received|]
            && (n.reader.InBody? ==> |n.received| < Started(n))
            && Behind(n) + n.pipe + Ahead(n) == Frames(n.issued[|n.received|..Started(n)])
  {
    StartHolds(s);
    RunKeeps(s, steps);
    AheadIsShort(Run(s, steps));
  }

  lemma StartHolds(s: Net)
    requires Start(s)
    ensures Inv(s)
  {
    assert forall t :: !Busy(s, t);
  }

  /** Never two threads inside, in any run. */
  lemma MutualExclusion(s: Net, steps: seq<Step>, t: nat, u: nat)
    requires Start(s) && Legal(s, steps)
    requires var n := Run(s, steps); Busy(n, t) && Busy(n, u) && Holds(n.threads[t]) && Holds(n.threads[u])
    ensures t == u
  {
    StartHolds(s);
    RunKeeps(s, steps);
    OneHolder(Run(s, steps), t, u);
  }

  /** Over any run at most 2^31 messages are started. */
  lemma AtMost(s: Net, steps: seq<Step>)
    requires Start(s) && Legal(s, steps)
    ensures |Run(s, steps).received| <= LAST_TURN
  {
    StartHolds(s);
    RunKeeps(s, steps);
    var n := Run(s, steps);
    if t :| Busy(n, t) && Holds(n.threads[t]) {
      HolderView(n, t);
    } else {
      NoHolderView(n);
    }
  }

  // ---------- What a run sends and handles ----------

  /** The messages of the sends begun, in order. */
  function Begun(steps: seq<Step>): seq<Message> {
    if steps == [] then []
    else (if steps[0].Begin? then [steps[0].m] else []) + Begun(steps[1..])
  }

  /** In any run what is issued are the messages of the sends begun. */
  lemma {:induction false} IssuedAre(s: Net, steps: seq<Step>)
    requires Legal(s, steps)
    ensures Run(s, steps).issued == s.issued + Begun(steps)
    decreases |steps|
  {
    hide Enabled, Apply;
    if steps != [] {
      IssuedAre(Apply(s, steps[0]), steps[1..]);
      StepIssues(s, steps[0]);
    }
  }

  lemma StepIssues(s: Net, x: Step)
    requires Enabled(s, x)
    ensures Apply(s, x).issued == s.issued + if x.Begin? then [x.m] else []
  {
    hide ReadHeader, Header, Sized;
  }

  /** A step that registers or unregisters a handler of the id. */
  predicate Concerns(x: Step, id: Byte) { (x.Enable? || x.Disable?) && x.id == id }

  /** In any run an id is handled as the last step that concerns it left it; without such a step as at the start. */
  lemma {:induction false} HandledAre(s: Net, steps: seq<Step>, id: Byte, i: nat)
    requires Legal(s, steps) && i <= |steps|
    requires forall j :: i <= j < |steps| ==> !Concerns(steps[j], id)
    requires i > 0 ==> Concerns(steps[i - 1], id)
    ensures id in Run(s, steps).handled <==> if i > 0 then steps[i - 1].Enable? else id in s.handled
    decreases |steps|
  {
    if steps != [] {
      hide Enabled;
      var n := Apply(s, steps[0]);
      if i > 0 {
        if i == 1 {
          HandledAre(n, steps[1..], id, 0);
          assert Concerns(steps[0], id);
        } else {
          assert steps[1..][i - 2] == steps[i - 1];
          HandledAre(n, steps[1..], id, i - 1);
        }
      } else {
        HandledAre(n, steps[1..], id, 0);
        assert !Concerns(steps[0], id);
      }
    }
  }
}
