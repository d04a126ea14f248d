/** The loops of one send and one receive, driven by what the system calls return, and the steps of the
    pipe machine they perform while the other threads take steps of their own. */
module IpcCalls {
  import opened IpcFrames
  import opened IpcPipe

  /** What a write or read call comes back with. */
  datatype Outcome = Moved(n: nat) | WouldBlock | Broken

  datatype Status =
    | Sent(n: nat)
    | InvalidDestination
    | NotSupported
    | Failed
    | Unfinished             // the given outcomes are used up

  /** The steps the other threads take before the call's `i`-th outcome, given the state they find. */
  type Others = (nat, Net) -> seq<Step>

  // ---------- What a run writes ----------

  ghost function Put(s: Net, x: Step): seq<Byte>
    requires Enabled(s, x)
  {
    match x
    case PutHeader(t) => Header(s.threads[t].m)
    case PutBody(t, k) => var p := s.threads[t]; p.m.body[p.sent..p.sent + k]
    case _ => []
  }

  /** Everything that anybody writes to the pipe in the course of a run. */
  ghost function Written(s: Net, steps: seq<Step>): seq<Byte>
    requires Legal(s, steps)
    decreases |steps|
  {
    if steps == [] then [] else Put(s, steps[0]) + Written(Apply(s, steps[0]), steps[1..])
  }

  /** What was in the pipe and what was written is what was read and what is in the pipe, in that order. */
  lemma {:induction false} PipeBalance(s: Net, steps: seq<Step>) returns (read: seq<Byte>)
    requires Legal(s, steps)
    ensures s.pipe + Written(s, steps) == read + Run(s, steps).pipe
    decreases |steps|
  {
    if steps == [] {
      read := [];
    } else {
      var n := Apply(s, steps[0]);
      var first := StepBalance(s, steps[0]);
      var later := PipeBalance(n, steps[1..]);
      read := first + later;
      Regroup(s.pipe, Put(s, steps[0]), Written(n, steps[1..]));
      Regroup(first, n.pipe, Written(n, steps[1..]));
      Regroup(first, later, Run(s, steps).pipe);
    }
  }

  lemma StepBalance(s: Net, x: Step) returns (read: seq<Byte>)
    requires Enabled(s, x)
    ensures s.pipe + Put(s, x) == read + Apply(s, x).pipe
  {
    hide Header;
    var n := if x.TakeHeader? then Min(HEADER, |s.pipe|) else if x.TakeBody? then x.k else 0;
    read := s.pipe[..n];
  }

  lemma {:induction false} WrittenConcat(s: Net, a: seq<Step>, b: seq<Step>)
    requires Legal(s, a) && Legal(Run(s, a), b)
    ensures Legal(s, a + b) && Run(s, a + b) == Run(Run(s, a), b)
    ensures Written(s, a + b) == Written(s, a) + Written(Run(s, a), b)
    decreases |a|
  {
    hide Enabled, Apply, Put;
    RunConcat(s, a, b);
    if a == [] {
      assert [] + b == b;
    } else {
      var n := Apply(s, a[0]);
      WrittenConcat(n, a[1..], b);
      assert (a + b)[0] == a[0] && (a + b)[1..] == a[1..] + b;
      Regroup(Put(s, a[0]), Written(n, a[1..]), Written(Run(s, a), b));
    }
  }

  /** One more step of the machine. */
  lemma Extend(s: Net, steps: seq<Step>, x: Step)
    requires Legal(s, steps) && Enabled(Run(s, steps), x)
    ensures Legal(s, steps + [x]) && Run(s, steps + [x]) == Apply(Run(s, steps), x)
    ensures Written(s, steps + [x]) == Written(s, steps) + Put(Run(s, steps), x)
  {
    hide Enabled, Apply, Put;
    var n := Run(s, steps);
    RunOne(n, x);
    RunNone(Apply(n, x));
    assert [x][1..] == [];
    assert Written(n, [x]) == Put(n, x) + [];
    WrittenConcat(s, steps, [x]);
  }

  // ---------- The other threads ----------

  predicate By(x: Step, t: nat) {
    (x.Begin? || x.Acquire? || x.PutHeader? || x.PutBody? || x.Release?) && x.t == t
  }

  predicate Reads(x: Step) { x.TakeHeader? || x.TakeBody? }

  /** The other threads take any steps open to them; a step of thread `t` is not theirs. */
  ghost predicate NotBy(others: Others, t: nat) {
    forall i, n :: Legal(n, others(i, n)) && forall x :: x in others(i, n) ==> !By(x, t)
  }

  /** The senders and handlers take any steps open to them; reading is left to the one receiver. */
  ghost predicate NotReading(others: Others) {
    forall i, n :: Legal(n, others(i, n)) && forall x :: x in others(i, n) ==> !Reads(x)
  }

  /** The steps of a thread are those that move it on. */
  lemma ByIff(s: Net, x: Step, t: nat)
    requires Enabled(s, x) && t in s.threads
    ensures var n := Apply(s, x); t in n.threads && (By(x, t) <==> n.threads[t] != s.threads[t])
  {
    hide Header, ReadHeader, Sized;
  }

  /** The reading steps are those that take something out of the pipe. */
  lemma ReadsIff(s: Net, x: Step)
    requires Enabled(s, x)
    ensures Reads(x) <==> |Apply(s, x).pipe| < |s.pipe|
  {
    hide ReadHeader, Sized;
  }

  /** Around a thread that holds the lock, nobody writes. */
  lemma {:induction false} OthersQuiet(s: Net, t: nat, steps: seq<Step>)
    requires Inv(s) && Legal(s, steps) && forall x :: x in steps ==> !By(x, t)
    requires t in s.threads && Holds(s.threads[t])
    ensures Written(s, steps) == [] && Inv(Run(s, steps))
    ensures var n := Run(s, steps); t in n.threads && n.threads[t] == s.threads[t]
    decreases |steps|
  {
    hide Inv, Enabled, Apply, Put, Holds;
    if steps != [] {
      OtherQuiet(s, t, steps[0]);
      StepKeeps(s, steps[0]);
      OthersQuiet(Apply(s, steps[0]), t, steps[1..]);
    }
  }

  lemma OtherQuiet(s: Net, t: nat, x: Step)
    requires Inv(s) && Enabled(s, x) && !By(x, t) && t in s.threads && Holds(s.threads[t])
    ensures Put(s, x) == []
    ensures var n := Apply(s, x); t in n.threads && n.threads[t] == s.threads[t]
  {
    hide Tickets, Stream, Expected, Sized, Header;
    if x.PutHeader? || x.PutBody? {
      assert Busy(s, x.t) && Busy(s, t);
      OneHolder(s, x.t, t);
    }
  }

  lemma {:induction false} ReaderUntouched(s: Net, steps: seq<Step>)
    requires Legal(s, steps) && forall x :: x in steps ==> !Reads(x)
    ensures Run(s, steps).reader == s.reader && Run(s, steps).received == s.received
    decreases |steps|
  {
    if steps != [] {
      assert !Reads(steps[0]);
      ReaderUntouched(Apply(s, steps[0]), steps[1..]);
    }
  }

  // ---------- Send ----------

  /** What happens between an accepted message and the grant of the lock: thread `t` draws its ticket, and the
      other threads take any steps until its turn has come. */
  ghost predicate Granted(s: Net, t: nat, m: Message, waiting: seq<Step>) {
    && Enabled(s, Begin(t, m))
    && var drawn := Apply(s, Begin(t, m));
       Legal(drawn, waiting)
       && var now := Run(drawn, waiting);
          t in now.threads && now.threads[t] == Waiting(s.next, m) && Enabled(now, Acquire(t))
  }

  /** The machine when thread `t` has just been granted the lock. */
  ghost function Inside(s: Net, t: nat, m: Message, waiting: seq<Step>): Net
    requires Granted(s, t, m, waiting)
  {
    Apply(Run(Apply(s, Begin(t, m)), waiting), Acquire(t))
  }

  lemma InsideRuns(s: Net, t: nat, m: Message, waiting: seq<Step>)
    requires Inv(s) && Granted(s, t, m, waiting)
    ensures var before, n := [Begin(t, m)] + waiting + [Acquire(t)], Inside(s, t, m, waiting);
            Legal(s, before) && Run(s, before) == n && Inv(n)
            && t in n.threads && n.threads[t] == Locked(s.next, m)
  {
    hide Inv, Legal, Run;
    RunOne(s, Begin(t, m));
    RunConcat(s, [Begin(t, m)], waiting);
    RunSnoc(s, [Begin(t, m)] + waiting, Acquire(t));
    RunKeeps(s, [Begin(t, m)] + waiting + [Acquire(t)]);
  }

  /** One call of send by thread `t`, which holds no ticket before and none after. A refused message draws no
      ticket and writes nothing. Of a message sent exactly the frame is written, and while the call is inside the
      lock nothing else is written by anybody, whatever steps the other threads take in between. A broken pipe
      or unfinished outcomes leave the call inside. */
  method Send(spid: nat, dst: nat, nworkers: nat, handles: bool, m: Message, outcomes: seq<Outcome>,
              ghost s: Net, ghost t: nat, ghost waiting: seq<Step>, ghost others: Others)
    returns (status: Status, put: seq<Byte>, ghost steps: seq<Step>, ghost inside: seq<Step>)
    requires Inv(s) && NotBy(others, t)
    requires t in s.threads && s.threads[t].Idle? && (handles <==> m.id in s.handled)
    requires spid != dst && dst <= nworkers && handles ==> Granted(s, t, m, waiting)
    ensures status.InvalidDestination? <==> spid == dst || dst > nworkers
    ensures status.NotSupported? <==> spid != dst && dst <= nworkers && !handles
    ensures Legal(s, steps)
    ensures status.InvalidDestination? || status.NotSupported? ==> put == [] && steps == []
    ensures !status.InvalidDestination? && !status.NotSupported? ==>
              put <= Frame(m) && steps == [Begin(t, m)] + waiting + [Acquire(t)] + inside
              && var n := Inside(s, t, m, waiting); Legal(n, inside) && Written(n, inside) == put
    ensures status.Sent? ==> status.n == |m.body| && put == Frame(m)
    ensures status.Sent? ==> t in Run(s, steps).threads && Run(s, steps).threads[t].Idle?
    ensures status.Failed? || status.Unfinished? ==> put != Frame(m)
  {
    hide Inv, Legal, Run, Written, Granted, Inside, NotBy;
    steps, inside := [], [];
    if spid == dst || dst > nworkers {
      RunNone(s);
      return InvalidDestination, [], steps, inside;
    }
    if !handles {
      RunNone(s);
      return NotSupported, [], steps, inside;
    }
    ghost var before := [Begin(t, m)] + waiting + [Acquire(t)];
    ghost var n := Inside(s, t, m, waiting);
    InsideRuns(s, t, m, waiting);
    ghost var net;
    status, put, inside, net := SendLocked(m, outcomes, n, t, others);
    if status.Sent? {
      Extend(n, inside, Release(t));
      inside := inside + [Release(t)];
    }
    RunConcat(s, before, inside);
    steps := before + inside;
  }

  /** The part of a send inside the lock: the header, then the body in pieces, with any steps of the other
      threads before each call. */
  method SendLocked(m: Message, outcomes: seq<Outcome>, ghost s: Net, ghost t: nat, ghost others: Others)
    returns (status: Status, put: seq<Byte>, ghost steps: seq<Step>, ghost net: Net)
    requires Inv(s) && NotBy(others, t)
    requires t in s.threads && s.threads[t].Locked? && s.threads[t].m == m
    ensures status.Sent? || status.Failed? || status.Unfinished?
    ensures Along(s, steps, net, put)
    ensures status.Sent? ==> status.n == |m.body| && put == Frame(m)
    ensures status.Sent? ==> t in net.threads && net.threads[t].Finished?
    ensures put <= Frame(m)
    ensures status.Failed? || status.Unfinished? ==> put != Frame(m)
  {
    hide Inv, NotBy, Header, Along, Enabled, Apply, Put;
    steps, net, put := [], s, [];
    NothingYet(s);
    var i := 0;
    while true
      invariant i <= |outcomes| && put == [] && Along(s, steps, net, put)
      invariant t in net.threads && net.threads[t] == s.threads[t]
      decreases |outcomes| - i
    {
      if i == |outcomes| {
        return Unfinished, put, steps, net;
      }
      steps, net := Interleave(s, steps, net, put, t, others, i);
      if outcomes[i].Moved? && outcomes[i].n > 0 {
        break;
      }
      if !outcomes[i].WouldBlock? {
        return Failed, put, steps, net;
      }
      steps, net := Retry(s, steps, net, put);
      i := i + 1;
    }
    steps, net := WriteHeader(s, steps, net, put, t);
    put := put + Header(m);
    assert put == Header(m) == Header(m) + m.body[..0];
    if |m.body| == 0 {
      return Sent(0), put, steps, net;
    }
    i := i + 1;
    var tsent := 0;
    while tsent < |m.body|
      invariant i <= |outcomes| && 0 <= tsent <= |m.body| && put == Header(m) + m.body[..tsent]
      invariant Along(s, steps, net, put) && t in net.threads && InBodyAt(net.threads[t], m, tsent)
      decreases |outcomes| - i
    {
      if i == |outcomes| {
        return Unfinished, put, steps, net;
      }
      steps, net := Interleave(s, steps, net, put, t, others, i);
      var chunk := Min(|m.body| - tsent, PIPE_BUF);
      if outcomes[i].Moved? && outcomes[i].n > 0 {
        var nsent := Min(outcomes[i].n, chunk);
        steps, net := WriteBody(s, steps, net, put, t, m, tsent, nsent);
        put := put + m.body[tsent..tsent + nsent];
        assert m.body[..tsent + nsent] == m.body[..tsent] + m.body[tsent..tsent + nsent];
        tsent := tsent + nsent;
      } else if outcomes[i].WouldBlock? {
        steps, net := Retry(s, steps, net, put);
      } else {
        return Failed, put, steps, net;
      }
      i := i + 1;
    }
    assert m.body[..tsent] == m.body;
    return Sent(tsent), put, steps, net;
  }

  ghost predicate InBodyAt(p: Phase, m: Message, sent: nat) {
    if sent < |m.body| then p.Writing? && p.m == m && p.sent == sent else p.Finished?
  }

  /** The run so far leads to `net`, and `put` is all that was written in it. */
  ghost predicate Along(s: Net, steps: seq<Step>, net: Net, put: seq<Byte>) {
    Legal(s, steps) && Run(s, steps) == net && Inv(net) && Written(s, steps) == put
  }

  lemma NothingYet(s: Net)
    requires Inv(s)
    ensures Along(s, [], s, [])
  {
    RunNone(s);
  }

  /** The holder of the lock takes a step. */
  lemma Do(s: Net, steps: seq<Step>, net: Net, put: seq<Byte>, x: Step) returns (more: seq<Step>, after: Net)
    requires Along(s, steps, net, put) && Enabled(net, x)
    ensures after == Apply(net, x) && Along(s, more, after, put + Put(net, x))
  {
    hide Inv, Enabled, Apply, Put, Legal, Run, Written;
    Extend(s, steps, x);
    StepKeeps(net, x);
    more, after := steps + [x], Apply(net, x);
  }

  lemma Retry(s: Net, steps: seq<Step>, net: Net, put: seq<Byte>) returns (more: seq<Step>, after: Net)
    requires Along(s, steps, net, put)
    ensures after == net && Along(s, more, net, put)
  {
    more, after := Do(s, steps, net, put, Blocked);
    assert put + [] == put;
  }

  lemma WriteHeader(s: Net, steps: seq<Step>, net: Net, put: seq<Byte>, t: nat) returns (more: seq<Step>, after: Net)
    requires Along(s, steps, net, put) && t in net.threads && net.threads[t].Locked?
    ensures var m := net.threads[t].m;
            Along(s, more, after, put + Header(m)) && t in after.threads && InBodyAt(after.threads[t], m, 0)
  {
    hide Along, Header;
    more, after := Do(s, steps, net, put, PutHeader(t));
  }

  lemma WriteBody(s: Net, steps: seq<Step>, net: Net, put: seq<Byte>, t: nat, m: Message, sent: nat, k: nat)
    returns (more: seq<Step>, after: Net)
    requires Along(s, steps, net, put) && t in net.threads && InBodyAt(net.threads[t], m, sent)
    requires sent < |m.body| && 0 < k <= Min(|m.body| - sent, PIPE_BUF)
    ensures Along(s, more, after, put + m.body[sent..sent + k])
    ensures t in after.threads && InBodyAt(after.threads[t], m, sent + k)
  {
    hide Along;
    more, after := Do(s, steps, net, put, PutBody(t, k));
  }

  /** The other threads take steps around the holder of the lock. */
  lemma Interleave(s: Net, steps: seq<Step>, net: Net, put: seq<Byte>, t: nat, others: Others, i: nat)
    returns (more: seq<Step>, after: Net)
    requires Along(s, steps, net, put) && NotBy(others, t) && t in net.threads && Holds(net.threads[t])
    ensures more == steps + others(i, net) && Along(s, more, after, put)
    ensures t in after.threads && after.threads[t] == net.threads[t]
  {
    hide Inv, Legal, Run, Written, Holds;
    var theirs := others(i, net);
    OthersQuiet(net, t, theirs);
    WrittenConcat(s, steps, theirs);
    more, after := steps + theirs, Run(net, theirs);
  }

  // ---------- Receive ----------

  datatype Receipt =
    | Handed(m: Message)     // given to its handler
    | Unhandled              // a header of a message without handler
    | Lost                   // the pipe failed
    | Pending                // the given outcomes are used up

  /** Receives one message from the pipe of machine state `s`, with any steps of the senders and handlers before
      each read. The message is the next one in the order the tickets were drawn, whole and unmixed. */
  method Receive(s: Net, outcomes: seq<Outcome>, others: Others)
    returns (receipt: Receipt, net: Net, ghost steps: seq<Step>)
    requires s.reader.AtFrame? && NotReading(others)
    ensures Legal(s, steps) && net == Run(s, steps)
    ensures receipt.Handed? ==> net.received == s.received + [receipt.m]
    ensures receipt.Handed? || receipt.Unhandled? ==> net.reader.AtFrame?
    ensures !receipt.Handed? ==> net.received == s.received
    ensures Inv(s) && receipt.Handed? ==> |s.received| < |net.issued| && receipt.m == net.issued[|s.received|]
    ensures Inv(s) ==> !receipt.Unhandled?
  {
    hide Legal, Run, Inv, NotReading, FromLittle, HEADER, ReadHeader;
    net, steps := s, [];
    RunNone(s);
    var i := 0;
    while true
      invariant i <= |outcomes| && Legal(s, steps) && net == Run(s, steps)
      invariant net.reader.AtFrame? && net.received == s.received
      decreases |outcomes| - i
    {
      if i == |outcomes| {
        return Pending, net, steps;
      }
      ghost var theirs := LetOthers(s, steps, net, others, i);
      steps, net := steps + theirs, Run(net, others(i, net));
      if outcomes[i].Moved? && net.pipe != [] {
        break;
      }
      if !outcomes[i].WouldBlock? {
        return Lost, net, steps;
      }
      RunSnoc(s, steps, Blocked);
      steps := steps + [Blocked];
      i := i + 1;
    }
    i := i + 1;
    var (id, src, len) := ReadHeader(net.pipe);
    ghost var found := net;
    RunSnoc(s, steps, TakeHeader);
    steps, net := steps + [TakeHeader], Apply(net, TakeHeader);
    if id !in net.handled {
      if Inv(s) {
        RunKeeps(s, steps[..|steps| - 1]);
        assert steps[..|steps| - 1] + [TakeHeader] == steps;
        FirstIsHandled(found);
      }
      return Unhandled, net, steps;
    }
    var data: seq<Byte> := [];
    while |data| < len
      invariant i <= |outcomes| && |data| <= len && Legal(s, steps) && net == Run(s, steps)
      invariant if |data| < len then net.reader == InBody(id, src, len, data) && net.received == s.received
                else net.reader.AtFrame? && net.received == s.received + [Message(id, src, data)]
      decreases |outcomes| - i
    {
      if i == |outcomes| {
        return Pending, net, steps;
      }
      ghost var theirs := LetOthers(s, steps, net, others, i);
      steps, net := steps + theirs, Run(net, others(i, net));
      if outcomes[i].Moved? && outcomes[i].n > 0 && net.pipe != [] {
        var nread := Min(outcomes[i].n, Min(|net.pipe|, Min(PIPE_BUF, len - |data|)));
        data := data + net.pipe[..nread];
        RunSnoc(s, steps, TakeBody(nread));
        steps, net := steps + [TakeBody(nread)], Apply(net, TakeBody(nread));
      } else if outcomes[i].WouldBlock? {
        RunSnoc(s, steps, Blocked);
        steps := steps + [Blocked];
      } else {
        return Lost, net, steps;
      }
      i := i + 1;
    }
    if Inv(s) {
      RunKeeps(s, steps);
      NewestIsNext(net, s.received, Message(id, src, data));
    }
    return Handed(Message(id, src, data)), net, steps;
  }

  /** The senders and handlers take steps between two reads. */
  lemma LetOthers(s: Net, steps: seq<Step>, net: Net, others: Others, i: nat) returns (theirs: seq<Step>)
    requires Legal(s, steps) && Run(s, steps) == net && NotReading(others)
    ensures theirs == others(i, net) && Legal(net, theirs)
    ensures Legal(s, steps + theirs) && Run(s, steps + theirs) == Run(net, theirs)
    ensures Run(net, theirs).reader == net.reader && Run(net, theirs).received == net.received
  {
    hide Legal, Run;
    theirs := others(i, net);
    RunConcat(s, steps, theirs);
    ReaderUntouched(net, theirs);
  }

  lemma FirstIsHandled(s: Net)
    requires Inv(s) && s.reader.AtFrame? && s.pipe != []
    ensures ReadHeader(s.pipe).0 in s.handled
  {
    WholeHeader(s);
  }

  lemma NewestIsNext(n: Net, received: seq<Message>, m: Message)
    requires Inv(n) && n.received == received + [m]
    ensures |received| < |n.issued| && m == n.issued[|received|]
  {
    assert n.received[|received|] == m;
  }
}
