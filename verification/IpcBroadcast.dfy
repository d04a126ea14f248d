/** An asynchronous broadcast: one send per interested worker, all reading the same copied payload, which is
    released once the wait for their signals is over. Whether it ever is, is a property of the handler bits. */
module IpcBroadcast {
  import opened Options

  datatype Cast = Cast(
    nworkers: nat,
    spid: nat,
    at: nat,                   // the worker looked at next: an 8-bit counter that starts at 1
    bits: seq<bool>,           // what the handler tests said, in order
    started: seq<nat>,         // destinations of the sends started
    running: multiset<nat>,    // sends that may still read the payload
    signalled: seq<nat>,       // signals put into the channel
    taken: nat,                // signals taken out
    left: Option<int>,         // how many receives the channel still waits for, once it waits
    freed: bool)

  datatype Step =
    | Check(bit: bool)
    | Finish(dst: nat, ok: bool)   // a send ends, well or not, and signals
    | Wait                         // all workers are tested: the channel is told how many signals to receive
    | Take
    | Free

  /** The receives a channel waits for when told to wait for `n`: none at all means without end. */
  function Receives(n: nat): int { if n <= 0 then -1 else n }

  predicate Enabled(b: Cast, s: Step) {
    match s
    case Check(_) => b.at <= b.nworkers && b.left.None?
    case Finish(dst, _) => dst in b.running
    case Wait => b.at > b.nworkers && b.left.None?
    case Take => b.left.Some? && b.left.value != 0 && b.taken < |b.signalled|
    case Free => b.left == Some(0) && !b.freed
  }

  function Apply(b: Cast, s: Step): Cast
    requires Enabled(b, s)
  {
    match s
    case Check(bit) =>
      var c := b.(at := (b.at + 1) % 256, bits := b.bits + [bit]);
      if b.at != b.spid && bit then c.(started := b.started + [b.at], running := b.running + multiset{b.at}) else c
    case Finish(dst, _) => b.(running := b.running - multiset{dst}, signalled := b.signalled + [dst])
    case Wait => b.(left := Some(Receives(|b.started|)))
    case Take => b.(taken := b.taken + 1, left := Some(b.left.value - 1))
    case Free => b.(freed := true)
  }

  /** A broadcast about to start; the number of workers is an 8-bit number. */
  function Init(nworkers: nat, spid: nat): Cast
    requires nworkers <= 255
  {
    Cast(nworkers, spid, 1, [], [], multiset{}, [], 0, None, false)
  }

  /** Worker `d` is another worker whose bit was set when tested. */
  predicate Interested(b: Cast, d: nat) { 1 <= d <= b.nworkers && d != b.spid && d <= |b.bits| && b.bits[d - 1] }

  // ---------- What every step keeps ----------

  /** Each send is running or has signalled once, and the wait has as many receives left as signals are
      still to be taken; without sends it has no end. */
  ghost predicate Counted(b: Cast) {
    && multiset(b.started) == b.running + multiset(b.signalled)
    && b.taken <= |b.signalled|
    && (b.left.None? ==> b.taken == 0)
    && (b.left.Some? ==> b.left.value == if b.started == [] then -1 else |b.started| - b.taken)
    && (b.freed ==> b.left == Some(0))
  }

  /** With at most 254 workers each is tested once. */
  ghost predicate Tested(b: Cast) {
    && 1 <= b.at <= b.nworkers + 1 && |b.bits| == b.at - 1
    && (forall d :: d in b.started <==> Interested(b, d))
    && (forall d :: multiset(b.started)[d] <= 1)
    && (b.left.Some? ==> b.at > b.nworkers)
  }

  ghost predicate Inv(b: Cast) {
    b.nworkers <= 255 && Counted(b) && if b.nworkers < 255 then Tested(b) else b.at <= 255 && b.left.None?
  }

  lemma CheckTests(b: Cast, bit: bool)
    requires b.nworkers < 255 && Tested(b) && Enabled(b, Check(bit))
    ensures Tested(Apply(b, Check(bit)))
  {
    var c := Apply(b, Check(bit));
    assert forall i :: 0 <= i < |b.bits| ==> c.bits[i] == b.bits[i];
    assert b.at !in b.started;
    assert multiset(b.started)[b.at] == 0;
    forall d ensures d in c.started <==> Interested(c, d) {
      assert d in c.started <==> d in b.started || (d == b.at && b.at != b.spid && bit);
      assert Interested(c, d) <==> Interested(b, d) || (d == b.at && b.at != b.spid && bit);
    }
  }

  lemma CheckCounts(b: Cast, bit: bool)
    requires Counted(b) && Enabled(b, Check(bit))
    ensures Counted(Apply(b, Check(bit)))
  {
    assert multiset(b.started + [b.at]) == multiset(b.started) + multiset{b.at};
  }

  lemma FinishCounts(b: Cast, dst: nat, ok: bool)
    requires Counted(b) && Enabled(b, Finish(dst, ok))
    ensures Counted(Apply(b, Finish(dst, ok)))
  {
    assert multiset(b.signalled + [dst]) == multiset(b.signalled) + multiset{dst};
  }

  lemma StepCounts(b: Cast, s: Step)
    requires Counted(b) && Enabled(b, s)
    ensures Counted(Apply(b, s))
  {
    match s
    case Check(bit) => CheckCounts(b, bit);
    case Finish(dst, ok) => FinishCounts(b, dst, ok);
    case _ =>
  }

  /** A step that tests nobody leaves what is known of the tests alone. */
  lemma OtherStepTests(b: Cast, s: Step)
    requires b.nworkers < 255 && Tested(b) && Enabled(b, s) && !s.Check?
    ensures Tested(Apply(b, s))
  {
    var c := Apply(b, s);
    forall d ensures d in c.started <==> Interested(c, d) {
      assert Interested(c, d) <==> Interested(b, d);
    }
  }

  lemma StepKeeps(b: Cast, s: Step)
    requires Inv(b) && Enabled(b, s)
    ensures Inv(Apply(b, s))
  {
    hide Counted, Tested;
    StepCounts(b, s);
    if b.nworkers < 255 {
      if s.Check? { CheckTests(b, s.bit); } else { OtherStepTests(b, s); }
    }
  }

  // ---------- Runs ----------

  ghost predicate Legal(b: Cast, steps: seq<Step>)
    decreases |steps|
  {
    steps != [] ==> Enabled(b, steps[0]) && Legal(Apply(b, steps[0]), steps[1..])
  }

  ghost function Run(b: Cast, steps: seq<Step>): Cast
    requires Legal(b, steps)
    decreases |steps|
  {
    if steps == [] then b else Run(Apply(b, steps[0]), steps[1..])
  }

  lemma {:induction false} RunKeeps(b: Cast, steps: seq<Step>)
    requires Inv(b) && Legal(b, steps)
    ensures Inv(Run(b, steps)) && Run(b, steps).nworkers == b.nworkers && Run(b, steps).spid == b.spid
    ensures b.at > b.nworkers ==> Run(b, steps).bits == b.bits && Run(b, steps).at == b.at
    decreases |steps|
  {
    hide Inv;
    if steps != [] {
      StepKeeps(b, steps[0]);
      RunKeeps(Apply(b, steps[0]), steps[1..]);
    }
  }

  lemma Sizes(b: Cast)
    requires Counted(b)
    ensures |b.started| == |b.running| + |b.signalled|
  {
    assert |multiset(b.started)| == |b.running| + |multiset(b.signalled)|;
  }

  lemma StartInv(nworkers: nat, spid: nat)
    requires nworkers <= 255
    ensures Inv(Init(nworkers, spid))
  {}

  /** In every run: while any send may still read the payload it is not released; and when it is released,
      exactly the other workers whose bit was set when tested have each had one send, at least one of them,
      and each of these sends has signalled, exactly once. */
  lemma ReleasedAfterAll(nworkers: nat, spid: nat, steps: seq<Step>)
    requires nworkers <= 255 && Legal(Init(nworkers, spid), steps)
    ensures var b := Run(Init(nworkers, spid), steps);
            && (b.running != multiset{} ==> !b.freed)
            && (b.freed ==>
                  |b.bits| == nworkers < 255
                  && (exists d :: Interested(b, d))
                  && (forall d :: multiset(b.signalled)[d] == if Interested(b, d) then 1 else 0))
  {
    StartInv(nworkers, spid);
    RunKeeps(Init(nworkers, spid), steps);
    var b := Run(Init(nworkers, spid), steps);
    if b.freed {
      Sizes(b);
      assert b.running == multiset{};
      assert multiset(b.signalled) == multiset(b.started);
      forall d ensures multiset(b.signalled)[d] == if Interested(b, d) then 1 else 0 {
        assert d in b.started <==> multiset(b.started)[d] > 0;
      }
      assert Interested(b, b.started[0]) by { assert b.started[0] in b.started; }
    }
  }

  // ---------- Whether the payload is released ----------

  /** Nothing can happen any more exactly after the release, or when the channel waits for signals and no
      send was started. */
  lemma StuckIff(b: Cast)
    requires Inv(b)
    ensures (forall s :: !Enabled(b, s)) <==> b.freed || (b.left.Some? && b.started == [])
  {
    Sizes(b);
    if b.freed || (b.left.Some? && b.started == []) {
      assert b.running == multiset{};
    } else if b.left.None? {
      assert Enabled(b, Check(true)) || Enabled(b, Wait);
    } else if b.running != multiset{} {
      var d :| d in b.running;
      assert Enabled(b, Finish(d, true));
    } else {
      assert Enabled(b, Take) || Enabled(b, Free);
    }
  }

  /** A waiting broadcast with sends comes to its release. */
  lemma {:induction false} Releases(b: Cast) returns (steps: seq<Step>)
    requires Inv(b) && b.nworkers < 255 && b.at > b.nworkers && b.started != []
    ensures Legal(b, steps) && Run(b, steps).freed
    decreases |b.running|, if b.left.None? then 1 else 0, |b.signalled| - b.taken, if b.freed then 0 else 1
  {
    Sizes(b);
    if b.freed {
      steps := [];
    } else {
      var s: Step;
      if b.running != multiset{} {
        var d :| d in b.running;
        s := Finish(d, true);
        assert |b.running - multiset{d}| < |b.running|;
      } else if b.left.None? {
        s := Wait;
      } else if b.left.value != 0 {
        s := Take;
      } else {
        s := Free;
      }
      StepKeeps(b, s);
      var more := Releases(Apply(b, s));
      steps := [s] + more;
      assert steps[1..] == more;
    }
  }

  /** Once all workers are tested the payload can still be released if and only if some other worker's bit was
      set when tested. */
  lemma ReleasableIff(b: Cast)
    requires Inv(b) && b.at > b.nworkers
    ensures (exists steps :: Legal(b, steps) && Run(b, steps).freed) <==> exists d :: Interested(b, d)
  {
    if d :| Interested(b, d) {
      assert d in b.started;
      var steps := Releases(b);
    } else {
      forall steps | Legal(b, steps) ensures !Run(b, steps).freed {
        RunKeeps(b, steps);
        var c := Run(b, steps);
        if c.started != [] {
          assert c.started[0] in c.started;
          assert Interested(b, c.started[0]);
        }
      }
    }
  }

  /** A run that has come to its end has released the payload if and only if some other worker's bit was set
      when tested: otherwise the broadcast waits for ever and keeps it. */
  lemma EndReleasedIff(nworkers: nat, spid: nat, steps: seq<Step>)
    requires nworkers <= 255 && Legal(Init(nworkers, spid), steps)
    requires forall s :: !Enabled(Run(Init(nworkers, spid), steps), s)
    ensures var b := Run(Init(nworkers, spid), steps);
            |b.bits| == nworkers && (b.freed <==> exists d :: Interested(b, d))
  {
    StartInv(nworkers, spid);
    RunKeeps(Init(nworkers, spid), steps);
    var b := Run(Init(nworkers, spid), steps);
    StuckIff(b);
    assert b.nworkers < 255 ==> forall d :: Interested(b, d) ==> d in b.started;
    if b.freed {
      ReleasedAfterAll(nworkers, spid, steps);
    }
  }

  /** How much is still to happen after the tests. */
  function Ahead(b: Cast): nat {
    3 * (if b.at <= b.nworkers then b.nworkers + 1 - b.at else 0) + (if b.left.None? then 1 else 0)
    + 2 * |b.running| + (if b.taken <= |b.signalled| then |b.signalled| - b.taken else 0) + (if b.freed then 0 else 1)
  }

  /** With at most 254 workers every run ends, after `3 * nworkers + 2` steps at the latest. */
  lemma {:induction false} RunsEnd(b: Cast, steps: seq<Step>)
    requires Inv(b) && b.nworkers < 255 && Legal(b, steps)
    ensures |steps| <= Ahead(b)
    decreases |steps|
  {
    hide Inv;
    if steps != [] {
      StepKeeps(b, steps[0]);
      StepShortens(b, steps[0]);
      RunsEnd(Apply(b, steps[0]), steps[1..]);
    }
  }

  lemma StepShortens(b: Cast, s: Step)
    requires Inv(b) && b.nworkers < 255 && Enabled(b, s)
    ensures Ahead(Apply(b, s)) < Ahead(b)
  {}

  /** With 255 workers the counter never passes the last one: the tests go on for ever. */
  lemma TestsWithoutEnd(spid: nat, steps: seq<Step>)
    requires Legal(Init(255, spid), steps)
    ensures var b := Run(Init(255, spid), steps); !b.freed && Enabled(b, Check(false))
  {
    StartInv(255, spid);
    RunKeeps(Init(255, spid), steps);
  }

  /** One worker without the handler: the broadcast never ends and never releases its payload. */
  lemma NobodyInterested()
    ensures var steps := [Check(false), Wait];
            Legal(Init(1, 0), steps)
            && var b := Run(Init(1, 0), steps); !b.freed && forall s :: !Enabled(b, s)
  {
    var steps := [Check(false), Wait];
    var a := Init(1, 0);
    var c := Apply(a, Check(false));
    var b := Apply(c, Wait);
    assert steps[1..] == [Wait] && [Wait][1..] == [];
    assert Legal(b, []) && Run(b, []) == b;
    assert Legal(c, [Wait]) && Run(c, [Wait]) == b;
    assert b.left == Some(-1) && b.running == multiset{};
  }
}
