/** What becomes of messages in the end: nothing is lost, sends come to their turn, and everything can be
    received, as long as the lock's tickets are small enough. */
module IpcProgress {
  import opened IpcFrames
  import opened IpcPipe

  ghost predicate Owner(s: Net, t: nat, k: nat) { Busy(s, t) && s.threads[t].ticket == k }

  /** Every ticket whose turn is not over is held by somebody. */
  ghost predicate Owned(s: Net) { forall k :: s.serving <= k < s.next ==> Taken(s, k) }

  ghost predicate Taken(s: Net, k: nat) { exists t :: Owner(s, t, k) }

  lemma StepKeepsOwned(s: Net, step: Step)
    requires Tickets(s) && Owned(s) && Enabled(s, step)
    ensures Owned(Apply(s, step))
  {
    hide Tickets;
    var n := Apply(s, step);
    forall k | n.serving <= k < n.next ensures Taken(n, k) {
      if step.Begin? && k == s.next {
        assert Owner(n, step.t, k);
      } else {
        assert Taken(s, k);
        var t :| Owner(s, t, k);
        OwnerKept(s, step, t, k);
      }
    }
  }

  lemma OwnerKept(s: Net, step: Step, t: nat, k: nat)
    requires Tickets(s) && Enabled(s, step) && Owner(s, t, k) && (step.Release? ==> k > s.serving)
    ensures Owner(Apply(s, step), t, k)
  {
    if step.Release? { assert Busy(s, step.t); }
  }

  lemma {:induction false} RunKeepsOwned(s: Net, steps: seq<Step>)
    requires Inv(s) && Owned(s) && Legal(s, steps)
    ensures Owned(Run(s, steps))
    decreases |steps|
  {
    hide Enabled, Apply, Owned, Taken, Tickets, Stream, Expected;
    if steps != [] {
      StepKeeps(s, steps[0]);
      StepKeepsOwned(s, steps[0]);
      RunKeepsOwned(Apply(s, steps[0]), steps[1..]);
    }
  }

  /** When no send is under way and the pipe is empty, everything sent has been received. */
  lemma NothingLost(s: Net, steps: seq<Step>)
    requires Start(s) && Legal(s, steps)
    requires var n := Run(s, steps); n.pipe == [] && forall t :: !Busy(n, t)
    ensures var n := Run(s, steps); n.reader.AtFrame? && n.received == n.issued
  {
    StartHolds(s);
    RunKeeps(s, steps);
    RunKeepsOwned(s, steps);
    AllServed(Run(s, steps));
  }

  lemma AllServed(n: Net)
    requires Inv(n) && Owned(n) && n.pipe == [] && forall t :: !Busy(n, t)
    ensures n.reader.AtFrame? && n.received == n.issued
  {
    hide Frames, Header;
    assert n.serving < n.next ==> Taken(n, n.serving);
    NoHolderView(n);
    var q := n.issued[|n.received|..Started(n)];
    assert |Frames(q)| == |Behind(n)|;
    if q != [] {
      LastFrame(q);
      FirstIn(q);
    }
  }

  lemma FirstIn(q: seq<Message>)
    requires q != []
    ensures |Frames(q)| >= HEADER + |q[0].body|
  {}

  // ---------- Who can move ----------

  ghost predicate CanMove(s: Net, t: nat) {
    Enabled(s, Acquire(t)) || Enabled(s, PutHeader(t)) || Enabled(s, PutBody(t, 1)) || Enabled(s, Release(t))
  }

  lemma OwnerMoves(s: Net, t: nat)
    requires Tickets(s) && Owner(s, t, s.serving) && s.serving < LAST_TURN
    ensures CanMove(s, t)
  {
    TurnComesIff(s.serving);
  }

  /** In any run, while sends are under way, one of them can take its next step if and only if the turn is one of
      the first 2^31; from then on none ever can, because the narrowed ticket never matches. */
  lemma MovesIff(s: Net, steps: seq<Step>)
    requires Start(s) && Legal(s, steps) && exists t :: Busy(Run(s, steps), t)
    ensures (exists t :: CanMove(Run(s, steps), t)) <==> Run(s, steps).serving < LAST_TURN
  {
    hide Stream, Expected;
    StartHolds(s);
    RunKeeps(s, steps);
    RunKeepsOwned(s, steps);
    var n := Run(s, steps);
    var t0 :| Busy(n, t0);
    if n.serving < LAST_TURN {
      assert Taken(n, n.serving);
      var t :| Owner(n, t, n.serving);
      OwnerMoves(n, t);
    } else {
      forall t ensures !CanMove(n, t) {
        assert t in n.threads && !n.threads[t].Idle? ==> Busy(n, t);
      }
    }
  }

  // ---------- The lock is used up ----------

  /** One whole send of an empty message, with nobody else at the lock. */
  lemma OneSend(n: Net, t: nat, m: Message)
    requires t in n.threads && n.threads[t].Idle? && n.next == n.serving < LAST_TURN
    requires m.body == [] && m.id in n.handled
    ensures var steps := [Begin(t, m), Acquire(t), PutHeader(t), Release(t)];
            Legal(n, steps)
            && var r := Run(n, steps);
               t in r.threads && r.threads[t].Idle? && r.next == r.serving == n.next + 1 && r.handled == n.handled
  {
    TurnComesIff(n.next);
    var a := Apply(n, Begin(t, m));
    var b := Apply(a, Acquire(t));
    var c := Apply(b, PutHeader(t));
    var d := Apply(c, Release(t));
    RunNone(d);
    RunFirst(c, Release(t), []);
    RunFirst(b, PutHeader(t), [Release(t)]);
    RunFirst(a, Acquire(t), [PutHeader(t), Release(t)]);
    RunFirst(n, Begin(t, m), [Acquire(t), PutHeader(t), Release(t)]);
  }

  lemma RunFirst(s: Net, x: Step, steps: seq<Step>)
    requires Enabled(s, x) && Legal(Apply(s, x), steps)
    ensures Legal(s, [x] + steps) && Run(s, [x] + steps) == Run(Apply(s, x), steps)
  {
    hide Enabled, Apply;
    assert ([x] + steps)[1..] == steps;
  }

  /** A run in which the first `k` turns have come and gone. */
  lemma {:induction false} TurnsServed(s: Net, t: nat, m: Message, k: nat) returns (steps: seq<Step>)
    requires Start(s) && t in s.threads && m.body == [] && m.id in s.handled && k <= LAST_TURN
    ensures Legal(s, steps)
    ensures var n := Run(s, steps);
            t in n.threads && n.threads[t].Idle? && n.next == n.serving == k && n.handled == s.handled
    decreases k
  {
    if k == 0 {
      steps := [];
      RunNone(s);
    } else {
      var before := TurnsServed(s, t, m, k - 1);
      var one := [Begin(t, m), Acquire(t), PutHeader(t), Release(t)];
      OneSend(Run(s, before), t, m);
      RunConcat(s, before, one);
      steps := before + one;
    }
  }

  /** From every start with a thread and a handled message there is a run after which a send is under way and no
      send can ever take a step again. */
  lemma LockUsedUp(s: Net, t: nat, m: Message) returns (steps: seq<Step>)
    requires Start(s) && t in s.threads && m.body == [] && m.id in s.handled
    ensures Legal(s, steps) && Busy(Run(s, steps), t)
    ensures forall more, u :: Legal(Run(s, steps), more) ==> !CanMove(Run(Run(s, steps), more), u)
  {
    hide Tickets, Stream, Expected, CanMove, Legal, Run;
    var before := TurnsServed(s, t, m, LAST_TURN);
    var n := Run(s, before);
    RunSnoc(s, before, Begin(t, m));
    steps := before + [Begin(t, m)];
    var r := Run(s, steps);
    assert r.serving == LAST_TURN && Busy(r, t);
    StartHolds(s);
    RunKeeps(s, steps);
    forall more, u | Legal(r, more) ensures !CanMove(Run(r, more), u) {
      RunKeeps(r, more);
      TurnsOnlyRise(r, more);
      NobodyMoves(Run(r, more), u);
    }
  }

  lemma {:induction false} TurnsOnlyRise(s: Net, steps: seq<Step>)
    requires Legal(s, steps)
    ensures s.serving <= Run(s, steps).serving
    decreases |steps|
  {
    if steps != [] { TurnsOnlyRise(Apply(s, steps[0]), steps[1..]); }
  }

  lemma NobodyMoves(n: Net, u: nat)
    requires Tickets(n) && n.serving >= LAST_TURN
    ensures !CanMove(n, u)
  {
    assert u in n.threads && !n.threads[u].Idle? ==> Busy(n, u);
  }

  // ---------- Everything can be received ----------

  /** How much a thread has still to do, once its turn has come. */
  function Work(p: Phase): int {
    match p
    case Idle => 0
    case Waiting(_, m) => |m.body| + 4
    case Locked(_, m) => |m.body| + 3
    case Writing(_, m, sent) => |m.body| - sent + 2
    case Finished(_, _) => 1
  }

  lemma StepKeepsAll(s: Net, step: Step)
    requires Inv(s) && Owned(s) && Enabled(s, step)
    ensures Inv(Apply(s, step)) && Owned(Apply(s, step))
  {
    StepKeeps(s, step);
    StepKeepsOwned(s, step);
  }

  /** The thread whose turn it is can take a step that brings it nearer to the end of its turn, or ends it. */
  lemma TurnStep(s: Net, t: nat) returns (x: Step)
    requires Tickets(s) && Owner(s, t, s.serving) && s.serving < LAST_TURN
    ensures Enabled(s, x) && !x.Begin? && Apply(s, x).issued == s.issued && Apply(s, x).next == s.next
    ensures var n := Apply(s, x);
            if n.serving == s.serving then Owner(n, t, s.serving) && 0 <= Work(n.threads[t]) < Work(s.threads[t])
            else n.serving == s.serving + 1
  {
    TurnComesIff(s.serving);
    match s.threads[t]
    case Waiting(_, _) => x := Acquire(t);
    case Locked(_, _) => x := PutHeader(t);
    case Writing(_, _, _) => x := PutBody(t, 1);
    case Finished(_, _) => x := Release(t);
  }

  lemma {:induction false} FinishTurn(s: Net, t: nat) returns (steps: seq<Step>)
    requires Inv(s) && Owned(s) && Owner(s, t, s.serving) && s.serving < LAST_TURN
    ensures Legal(s, steps)
    ensures var n := Run(s, steps);
            Inv(n) && Owned(n) && n.serving == s.serving + 1 && n.next == s.next && n.issued == s.issued
    decreases if Work(s.threads[t]) < 0 then 0 else Work(s.threads[t])
  {
    hide Inv, Owned, Enabled, Apply, Work;
    TurnTickets(s);
    var x := TurnStep(s, t);
    StepKeepsAll(s, x);
    var n := Apply(s, x);
    if n.serving == s.serving {
      var more := FinishTurn(n, t);
      RunFirst(s, x, more);
      steps := [x] + more;
    } else {
      RunNone(n);
      RunFirst(s, x, []);
      steps := [x] + [];
    }
  }

  lemma TurnTickets(s: Net)
    requires Inv(s)
    ensures Tickets(s) && s.serving <= s.next
  {}

  lemma {:induction false} FinishAll(s: Net) returns (steps: seq<Step>)
    requires Inv(s) && Owned(s) && s.next <= LAST_TURN
    ensures Legal(s, steps)
    ensures var n := Run(s, steps); Inv(n) && Owned(n) && n.serving == n.next && n.issued == s.issued
    decreases s.next - s.serving
  {
    hide Inv, Enabled, Apply, Legal, Run, Tickets;
    TurnTickets(s);
    if s.serving == s.next {
      RunNone(s);
      steps := [];
    } else {
      assert Taken(s, s.serving);
      var t :| Owner(s, t, s.serving);
      var turn := FinishTurn(s, t);
      var n := Run(s, turn);
      TurnTickets(n);
      var more := FinishAll(n);
      RunConcat(s, turn, more);
      steps := turn + more;
    }
  }

  lemma ReadStep(s: Net) returns (x: Step)
    requires Inv(s) && s.pipe != []
    ensures Enabled(s, x) && |Apply(s, x).pipe| < |s.pipe|
    ensures var n := Apply(s, x); n.issued == s.issued && n.next == s.next && n.serving == s.serving
  {
    hide Tickets, Started, Ahead, Frames, Header, ReadHeader, Expected, Sized;
    x := if s.reader.AtFrame? then TakeHeader else TakeBody(1);
  }

  lemma {:induction false} ReadAll(s: Net) returns (steps: seq<Step>)
    requires Inv(s) && Owned(s) && s.serving == s.next
    ensures Legal(s, steps)
    ensures var n := Run(s, steps); Inv(n) && Owned(n) && n.serving == n.next && n.issued == s.issued && n.pipe == []
    decreases |s.pipe|
  {
    hide Inv, Owned, Enabled, Apply;
    if s.pipe == [] {
      RunNone(s);
      steps := [];
    } else {
      var x := ReadStep(s);
      StepKeepsAll(s, x);
      var more := ReadAll(Apply(s, x));
      RunFirst(s, x, more);
      steps := [x] + more;
    }
  }

  /** Every run in which at most 2^31 tickets have been drawn can be continued until everything sent in it is
      received, in order, and nobody is under way. */
  lemma AllCanBeReceived(s: Net, steps: seq<Step>) returns (more: seq<Step>)
    requires Start(s) && Legal(s, steps) && Run(s, steps).next <= LAST_TURN
    ensures Legal(s, steps + more)
    ensures var n := Run(s, steps + more);
            n.received == n.issued == Run(s, steps).issued && n.pipe == [] && forall t :: !Busy(n, t)
  {
    hide Legal, Run, Tickets, Stream, Expected, Owned;
    StartHolds(s);
    StartOwned(s);
    RunKeeps(s, steps);
    RunKeepsOwned(s, steps);
    var n := Run(s, steps);
    var finish := FinishAll(n);
    var read := ReadAll(Run(n, finish));
    RunConcat(n, finish, read);
    more := finish + read;
    RunConcat(s, steps, more);
    var last := Run(s, steps + more);
    NobodyBusy(last);
    AllServed(last);
  }

  lemma StartOwned(s: Net)
    requires Start(s)
    ensures Owned(s)
  {}

  lemma NobodyBusy(s: Net)
    requires Tickets(s) && s.serving == s.next
    ensures forall t :: !Busy(s, t)
  {}
}
