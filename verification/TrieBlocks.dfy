/**
 What the fragments of a node are. Additions make fragments of one character; merging works from the top and
 absorbs only children it has not reached yet, so that the fragments of one node stay equally long and no path
 of that length is lost: they are one block of the literals that go on from the node.
 */
module TrieBlocks {
  import opened Options
  import opened RouteRules
  import opened TrieNodes
  import opened TrieMerge
  import opened TrieRelocate
  import opened TrieInsert

  /** The paths a trie started with: with every path also what it begins with. */
  type Paths = p: iset<seq<Token>> | forall q, r :: r in p && q <= r ==> q in p witness iset{}

  /** The fragments of the node named `name` are the block of length `m`: all the paths that go on from it with
      exactly `m` literals. It also has a child for every parameter that goes on from it. */
  ghost predicate Block(paths: Paths, n: Node, name: seq<Token>, m: nat) {
    && m > 0
    && (forall k :: k in n.children ==> |k| == m)
    && (forall w: string :: |w| == m && name + Lits(w) in paths ==> w in n.children)
    && (forall t :: name + [Par(t)] in paths ==> n.params[Slot(t)] != 0)
  }

  ghost predicate Whole(paths: Paths, n: Node, name: seq<Token>) { exists m: nat :: Block(paths, n, name, m) }

  /** Nothing merged yet at `i` or below it. */
  ghost predicate RawFrom(paths: Paths, names: seq<seq<Token>>, nodes: seq<Node>, i: nat)
    requires WellFormed(nodes) && i < |nodes| == |names|
    decreases |nodes| - i
  {
    && Block(paths, nodes[i], names[i], 1)
    && (forall k :: k in nodes[i].children ==> RawFrom(paths, names, nodes, nodes[i].children[k]))
    && (forall s :: 0 <= s < SLOTS && nodes[i].params[s] != 0 ==> RawFrom(paths, names, nodes, nodes[i].params[s]))
  }

  /** At `i` and everywhere below it the fragments of one node are one block. */
  ghost predicate BlocksFrom(paths: Paths, names: seq<seq<Token>>, nodes: seq<Node>, i: nat)
    requires WellFormed(nodes) && i < |nodes| == |names|
    decreases |nodes| - i
  {
    && Whole(paths, nodes[i], names[i])
    && (forall k :: k in nodes[i].children ==> BlocksFrom(paths, names, nodes, nodes[i].children[k]))
    && (forall s :: 0 <= s < SLOTS && nodes[i].params[s] != 0 ==> BlocksFrom(paths, names, nodes, nodes[i].params[s]))
  }

  ghost predicate Done(paths: Paths, names: seq<seq<Token>>, nodes: seq<Node>, i: nat)
    requires WellFormed(nodes) && i < |nodes| == |names|
  {
    SettledFrom(nodes, i) && BlocksFrom(paths, names, nodes, i)
  }

  /** Node `i` may have absorbed some levels already; its literal children are untouched, its parameter
      children untouched or done. */
  ghost predicate Ready(paths: Paths, names: seq<seq<Token>>, nodes: seq<Node>, i: nat)
    requires WellFormed(nodes) && i < |nodes| == |names|
  {
    && Whole(paths, nodes[i], names[i])
    && (forall k :: k in nodes[i].children ==> RawFrom(paths, names, nodes, nodes[i].children[k]))
    && (forall s :: 0 <= s < SLOTS && nodes[i].params[s] != 0 ==>
         RawFrom(paths, names, nodes, nodes[i].params[s]) || Done(paths, names, nodes, nodes[i].params[s]))
  }

  ghost predicate Workable(paths: Paths, names: seq<seq<Token>>, nodes: seq<Node>, i: nat)
    requires WellFormed(nodes) && i < |nodes| == |names|
  {
    Ready(paths, names, nodes, i) || Done(paths, names, nodes, i)
  }

  lemma RawReady(paths: Paths, names: seq<seq<Token>>, nodes: seq<Node>, i: nat)
    requires WellFormed(nodes) && i < |nodes| == |names| && RawFrom(paths, names, nodes, i)
    ensures Ready(paths, names, nodes, i)
  {}

  // ---------- What work elsewhere leaves alone ----------

  /** Only nodes whose names extend `name` may have changed. */
  ghost predicate Within(before: seq<Node>, after: seq<Node>, names: seq<seq<Token>>, name: seq<Token>) {
    |before| == |after| == |names|
    && forall j :: 0 <= j < |before| && !(name <= names[j]) ==> after[j] == before[j]
  }

  /** Nodes whose names extend `name` are as they were. */
  ghost predicate Apart(before: seq<Node>, after: seq<Node>, names: seq<seq<Token>>, name: seq<Token>) {
    |before| == |after| == |names|
    && forall j :: 0 <= j < |before| && name <= names[j] ==> after[j] == before[j]
  }

  lemma ApartDown(before: seq<Node>, after: seq<Node>, names: seq<seq<Token>>, i: nat)
    requires WellFormed(before) && Named(before, names) && i < |before| && Apart(before, after, names, names[i])
    ensures after[i] == before[i]
    ensures forall k :: k in before[i].children ==> Apart(before, after, names, names[before[i].children[k]])
    ensures forall s :: 0 <= s < SLOTS && before[i].params[s] != 0 ==>
              Apart(before, after, names, names[before[i].params[s]])
  {
    forall k | k in before[i].children ensures names[i] <= names[before[i].children[k]] {
      assert names[before[i].children[k]] == names[i] + Lits(k);
    }
    forall s | 0 <= s < SLOTS && before[i].params[s] != 0 ensures names[i] <= names[before[i].params[s]] {
      assert Slot(TypeAt(s)) == s;
      assert before[i].params[Slot(TypeAt(s))] != 0;
    }
  }

  lemma {:induction false} RawKept(paths: Paths, before: seq<Node>, after: seq<Node>, names: seq<seq<Token>>, i: nat)
    requires WellFormed(before) && WellFormed(after) && Named(before, names) && i < |before|
    requires Apart(before, after, names, names[i]) && RawFrom(paths, names, before, i)
    ensures RawFrom(paths, names, after, i)
    decreases |before| - i
  {
    ApartDown(before, after, names, i);
    forall k | k in after[i].children ensures RawFrom(paths, names, after, after[i].children[k]) {
      RawKept(paths, before, after, names, before[i].children[k]);
    }
    forall s | 0 <= s < SLOTS && after[i].params[s] != 0 ensures RawFrom(paths, names, after, after[i].params[s]) {
      RawKept(paths, before, after, names, before[i].params[s]);
    }
  }

  lemma {:induction false} BlocksKept(paths: Paths, before: seq<Node>, after: seq<Node>, names: seq<seq<Token>>, i: nat)
    requires WellFormed(before) && WellFormed(after) && Named(before, names) && i < |before|
    requires Apart(before, after, names, names[i]) && BlocksFrom(paths, names, before, i)
    ensures BlocksFrom(paths, names, after, i)
    decreases |before| - i
  {
    ApartDown(before, after, names, i);
    forall k | k in after[i].children ensures BlocksFrom(paths, names, after, after[i].children[k]) {
      BlocksKept(paths, before, after, names, before[i].children[k]);
    }
    forall s | 0 <= s < SLOTS && after[i].params[s] != 0 ensures BlocksFrom(paths, names, after, after[i].params[s]) {
      BlocksKept(paths, before, after, names, before[i].params[s]);
    }
  }

  lemma WithinWider(before: seq<Node>, after: seq<Node>, names: seq<seq<Token>>, name: seq<Token>, longer: seq<Token>)
    requires Within(before, after, names, longer) && name <= longer
    ensures Within(before, after, names, name)
  {}

  lemma WithinTransitive(a: seq<Node>, b: seq<Node>, c: seq<Node>, names: seq<seq<Token>>, name: seq<Token>)
    requires Within(a, b, names, name) && Within(b, c, names, name)
    ensures Within(a, c, names, name)
  {}

  /** Work below one link leaves everything below another link of the same node alone. */
  lemma OtherLinkApart(before: seq<Node>, after: seq<Node>, names: seq<seq<Token>>, i: nat, e: Edge, f: Edge)
    requires WellFormed(before) && Named(before, names) && i < |before|
    requires HasEdge(before[i], e) && HasEdge(before[i], f) && e != f
    requires Within(before, after, names, names[Target(before[i], e)])
    ensures Apart(before, after, names, names[Target(before[i], f)])
  {
    forall j | 0 <= j < |before| && names[Target(before[i], f)] <= names[j] ensures after[j] == before[j] {
      if names[Target(before[i], e)] <= names[j] { SiblingsApart(before, names, i, e, f, names[j]); }
    }
  }

  lemma OtherLinkKept(paths: Paths, before: seq<Node>, after: seq<Node>, names: seq<seq<Token>>, i: nat, e: Edge,
                      f: Edge)
    requires WellFormed(before) && WellFormed(after) && Named(before, names) && i < |before|
    requires HasEdge(before[i], e) && HasEdge(before[i], f) && e != f
    requires Within(before, after, names, names[Target(before[i], e)])
    ensures Target(before[i], f) < |before|
    ensures RawFrom(paths, names, before, Target(before[i], f)) ==> RawFrom(paths, names, after, Target(before[i], f))
    ensures BlocksFrom(paths, names, before, Target(before[i], f)) ==>
              BlocksFrom(paths, names, after, Target(before[i], f))
  {
    hide RawFrom, BlocksFrom, Apart, Within;
    var x := Target(before[i], f);
    OtherLinkApart(before, after, names, i, e, f);
    if RawFrom(paths, names, before, x) { RawKept(paths, before, after, names, x); }
    if BlocksFrom(paths, names, before, x) { BlocksKept(paths, before, after, names, x); }
  }

  lemma OtherLinkDone(paths: Paths, before: seq<Node>, after: seq<Node>, names: seq<seq<Token>>, i: nat, e: Edge,
                      f: Edge)
    requires Reworked(before, after) && Named(before, names) && i < |before|
    requires HasEdge(before[i], e) && HasEdge(before[i], f) && e != f
    requires Within(before, after, names, names[Target(before[i], e)])
    ensures Target(before[i], f) < |before|
    ensures Done(paths, names, before, Target(before[i], f)) ==> Done(paths, names, after, Target(before[i], f))
  {
    hide RawFrom, BlocksFrom, SettledFrom, Within, Reworked, Pruned;
    ReworkedFormed(before, after);
    var x := Target(before[i], f);
    OtherLinkKept(paths, before, after, names, i, e, f);
    if Done(paths, names, before, x) { SettledFromKept(before, after, x); }
  }

  lemma ReworkedFormed(before: seq<Node>, after: seq<Node>)
    requires Reworked(before, after)
    ensures WellFormed(before) && WellFormed(after) && |before| == |after|
  {}

  // ---------- Steps of merging ----------

  /** Parameter child `s` of node `i` is done now. */
  lemma ReadyAfterSlot(paths: Paths, before: seq<Node>, after: seq<Node>, names: seq<seq<Token>>, i: nat, s: nat)
    requires Reworked(before, after) && Named(before, names) && i < |before| == |names| && s < SLOTS
             && before[i].params[s] != 0
    requires after[i] == before[i] && before[i].params[s] < |before|
             && Within(before, after, names, names[before[i].params[s]])
    requires Ready(paths, names, before, i) && Done(paths, names, after, before[i].params[s])
    ensures Ready(paths, names, after, i)
    ensures forall t :: 0 <= t < SLOTS && before[i].params[t] != 0 && t != s ==>
              && before[i].params[t] < |before|
              && (Done(paths, names, before, before[i].params[t]) ==> Done(paths, names, after, before[i].params[t]))
  {
    hide RawFrom, BlocksFrom, SettledFrom, Within, Reworked, Pruned, Done, Named;
    ReworkedFormed(before, after);
    var e := Hole(TypeAt(s));
    forall k | k in after[i].children ensures RawFrom(paths, names, after, after[i].children[k]) {
      OtherLinkKept(paths, before, after, names, i, e, Frag(k));
    }
    forall t | 0 <= t < SLOTS && before[i].params[t] != 0 && t != s
      ensures before[i].params[t] < |before|
              && (Done(paths, names, before, before[i].params[t]) ==> Done(paths, names, after, before[i].params[t]))
      ensures RawFrom(paths, names, before, before[i].params[t]) ==> RawFrom(paths, names, after, before[i].params[t])
    {
      OtherLinkKept(paths, before, after, names, i, e, Hole(TypeAt(t)));
      OtherLinkDone(paths, before, after, names, i, e, Hole(TypeAt(t)));
    }
  }

  lemma {:induction false} RawLater(paths: Paths, names: seq<seq<Token>>, before: seq<Node>, after: seq<Node>, x: nat)
    requires WellFormed(before) && WellFormed(after) && x < |before| == |after| == |names|
             && RawFrom(paths, names, before, x)
    requires forall j :: x <= j < |before| ==> after[j] == before[j]
    ensures RawFrom(paths, names, after, x)
    decreases |before| - x
  {
    forall k | k in after[x].children
      ensures RawFrom(paths, names, after, after[x].children[k])
    {
      RawLater(paths, names, before, after, before[x].children[k]);
    }
    forall s | 0 <= s < SLOTS && after[x].params[s] != 0 ensures RawFrom(paths, names, after, after[x].params[s]) {
      RawLater(paths, names, before, after, before[x].params[s]);
    }
  }

  lemma {:induction false} BlocksLater(paths: Paths, names: seq<seq<Token>>, before: seq<Node>, after: seq<Node>,
                                       x: nat)
    requires WellFormed(before) && WellFormed(after) && x < |before| == |after| == |names|
             && BlocksFrom(paths, names, before, x)
    requires forall j :: x <= j < |before| ==> after[j] == before[j]
    ensures BlocksFrom(paths, names, after, x)
    decreases |before| - x
  {
    forall k | k in after[x].children
      ensures BlocksFrom(paths, names, after, after[x].children[k])
    {
      BlocksLater(paths, names, before, after, before[x].children[k]);
    }
    forall s | 0 <= s < SLOTS && after[x].params[s] != 0 ensures BlocksFrom(paths, names, after, after[x].params[s]) {
      BlocksLater(paths, names, before, after, before[x].params[s]);
    }
  }

  /** Absorbing one level of untouched children keeps the fragments one block. */
  lemma AbsorbReady(paths: Paths, names: seq<seq<Token>>, nodes: seq<Node>, after: seq<Node>, i: nat,
                    merged: map<string, nat>)
    requires WellFormed(nodes) && WellFormed(after) && Named(nodes, names) && i < |nodes| == |names|
             && Merged(nodes, nodes[i], merged)
    requires after == nodes[i := nodes[i].(children := merged)] && Reworked(nodes, after)
    requires Ready(paths, names, nodes, i)
    ensures Ready(paths, names, after, i)
  {
    hide Whole, Named, RawFrom, BlocksFrom, SettledFrom, Reworked, Merged, WellFormed;
    ReadyAbsorbs(paths, names, nodes, i, merged);
    forall m | m in merged ensures merged[m] < |nodes| && RawFrom(paths, names, after, merged[m]) {
      AbsorbedRaw(paths, names, nodes, i, merged, m);
      RawLater(paths, names, nodes, after, merged[m]);
    }
    forall s | 0 <= s < SLOTS && after[i].params[s] != 0
      ensures i < after[i].params[s] < |after|
              && (RawFrom(paths, names, after, after[i].params[s]) || Done(paths, names, after, after[i].params[s]))
    {
      SlotForward(nodes, i, s);
      var x := nodes[i].params[s];
      if RawFrom(paths, names, nodes, x) {
        RawLater(paths, names, nodes, after, x);
      } else {
        BlocksLater(paths, names, nodes, after, x);
        SettledFromKept(nodes, after, x);
      }
    }
  }

  lemma SlotForward(nodes: seq<Node>, i: nat, s: nat)
    requires WellFormed(nodes) && i < |nodes| && s < SLOTS && nodes[i].params[s] != 0
    ensures i < nodes[i].params[s] < |nodes|
  {
    assert Forward(nodes[i], i, |nodes|);
  }

  lemma AbsorbedRaw(paths: Paths, names: seq<seq<Token>>, nodes: seq<Node>, i: nat, merged: map<string, nat>, m: string)
    requires WellFormed(nodes) && i < |nodes| == |names| && Merged(nodes, nodes[i], merged)
             && Ready(paths, names, nodes, i) && m in merged
    ensures i < merged[m] < |nodes| && RawFrom(paths, names, nodes, merged[m])
  {
    var k, l :| m == k + l && Grand(nodes, nodes[i], k, l, merged[m]);
    var v := nodes[i].children[k];
    assert Forward(nodes[i], i, |nodes|) && Forward(nodes[v], v, |nodes|);
    assert RawFrom(paths, names, nodes, v);
  }

  lemma AbsorbedLength(nodes: seq<Node>, i: nat, merged: map<string, nat>, m: nat, w: string)
    requires WellFormed(nodes) && i < |nodes| && Merged(nodes, nodes[i], merged) && w in merged
    requires forall k :: k in nodes[i].children ==> |k| == m
    requires forall k, l :: k in nodes[i].children && l in nodes[nodes[i].children[k]].children ==> |l| == 1
    ensures |w| == m + 1
  {
    var k, l :| w == k + l && Grand(nodes, nodes[i], k, l, merged[w]);
  }

  /** The children of a node with nothing merged yet below it, by their names. */
  ghost predicate RawChildren(paths: Paths, nodes: seq<Node>, n: Node, name: seq<Token>) {
    forall k :: k in n.children ==> n.children[k] < |nodes| && Block(paths, nodes[n.children[k]], name + Lits(k), 1)
  }

  lemma SplitPath(paths: Paths, name: seq<Token>, w: string, m: nat)
    requires m <= |w| && name + Lits(w) in paths
    ensures w == w[..m] + w[m..] && name + Lits(w[..m]) in paths && (name + Lits(w[..m])) + Lits(w[m..]) in paths
  {
    LitsConcat(w[..m], w[m..]);
    assert w == w[..m] + w[m..];
    assert name + Lits(w) == (name + Lits(w[..m])) + Lits(w[m..]);
    assert name + Lits(w[..m]) <= name + Lits(w);
  }

  /** After absorbing one level the fragments are the next longer block: a path of one literal more goes through
      a child to a grandchild. */
  lemma AbsorbedBlock(paths: Paths, name: seq<Token>, nodes: seq<Node>, i: nat, merged: map<string, nat>, m: nat)
    requires WellFormed(nodes) && i < |nodes| && Merged(nodes, nodes[i], merged)
    requires Block(paths, nodes[i], name, m) && RawChildren(paths, nodes, nodes[i], name)
    ensures Block(paths, nodes[i].(children := merged), name, m + 1)
  {
    hide WellFormed, Lits;
    forall w | w in merged ensures |w| == m + 1 { AbsorbedLength(nodes, i, merged, m, w); }
    forall w: string | |w| == m + 1 && name + Lits(w) in paths ensures w in merged {
      SplitPath(paths, name, w, m);
      var k, l := w[..m], w[m..];
      assert k in nodes[i].children;
      assert l in nodes[nodes[i].children[k]].children;
      assert Grand(nodes, nodes[i], k, l, nodes[nodes[i].children[k]].children[l]);
    }
  }

  lemma ReadyAbsorbs(paths: Paths, names: seq<seq<Token>>, nodes: seq<Node>, i: nat, merged: map<string, nat>)
    requires WellFormed(nodes) && Named(nodes, names) && i < |nodes| == |names| && Merged(nodes, nodes[i], merged)
    requires Ready(paths, names, nodes, i)
    ensures Whole(paths, nodes[i].(children := merged), names[i])
  {
    hide Block, Merged, Lits;
    var m: nat :| Block(paths, nodes[i], names[i], m);
    forall k | k in nodes[i].children
      ensures nodes[i].children[k] < |nodes| && Block(paths, nodes[nodes[i].children[k]], names[i] + Lits(k), 1)
    {
      assert RawFrom(paths, names, nodes, nodes[i].children[k]);
      assert names[nodes[i].children[k]] == names[i] + Lits(k);
    }
    AbsorbedBlock(paths, names[i], nodes, i, merged, m);
  }

  lemma {:induction false} RelocatedBlocks(paths: Paths, names: seq<seq<Token>>, names': seq<seq<Token>>,
                                          src: seq<Node>, dst: seq<Node>, from: seq<nat>, x: nat)
    requires Relocated(src, dst, from) && WellFormed(src) && WellFormed(dst) && |names| == |src| && |names'| == |dst|
    requires Renamed(from, names, names') && x < |dst| && from[x] < |src| && BlocksFrom(paths, names, src, from[x])
    ensures BlocksFrom(paths, names', dst, x)
    decreases |dst| - x
  {
    hide Whole, Relocated, WellFormed;
    CopyAt(src, dst, from, x);
    CopiedBlock(paths, src, dst, from, x, names'[x]);
    forall k | k in dst[x].children ensures BlocksFrom(paths, names', dst, dst[x].children[k]) {
      assert k in src[from[x]].children;
      RelocatedBlocks(paths, names, names', src, dst, from, dst[x].children[k]);
    }
    forall s | 0 <= s < SLOTS && dst[x].params[s] != 0 ensures BlocksFrom(paths, names', dst, dst[x].params[s]) {
      RelocatedBlocks(paths, names, names', src, dst, from, dst[x].params[s]);
    }
  }

  lemma CopyAt(src: seq<Node>, dst: seq<Node>, from: seq<nat>, x: nat)
    requires Relocated(src, dst, from) && WellFormed(dst) && x < |dst|
    ensures |from| == |dst| && Copy(src, dst, from, x) && Forward(dst[x], x, |dst|)
  {}

  lemma CopiedBlock(paths: Paths, src: seq<Node>, dst: seq<Node>, from: seq<nat>, x: nat, name: seq<Token>)
    requires |from| == |dst| && x < |dst| && from[x] < |src| && Copy(src, dst, from, x)
             && Whole(paths, src[from[x]], name)
    ensures Whole(paths, dst[x], name)
  {
    var m: nat :| Block(paths, src[from[x]], name, m);
    assert forall k :: k in dst[x].children <==> k in src[from[x]].children;
    assert Block(paths, dst[x], name, m);
  }

  // ---------- Steps of the optimizing methods ----------

  lemma WithinNothing(nodes: seq<Node>, names: seq<seq<Token>>, name: seq<Token>)
    requires |nodes| == |names|
    ensures Within(nodes, nodes, names, name)
  {}

  lemma AfterSlotDone(paths: Paths, names: seq<seq<Token>>, nodes: seq<Node>, x: nat)
    requires WellFormed(nodes) && x < |nodes| == |names| && SettledFrom(nodes, x) && BlocksFrom(paths, names, nodes, x)
    ensures Done(paths, names, nodes, x)
  {}

  lemma NamesDown(nodes: seq<Node>, names: seq<seq<Token>>, i: nat, e: Edge)
    requires WellFormed(nodes) && Named(nodes, names) && i < |nodes| && HasEdge(nodes[i], e)
    ensures i < Target(nodes[i], e) < |nodes| && names[i] <= names[Target(nodes[i], e)]
  {
    assert Forward(nodes[i], i, |nodes|);
    match e
    case Frag(k) => assert names[nodes[i].children[k]] == names[i] + Lits(k);
    case Hole(t) => assert nodes[i].params[Slot(t)] != 0;
  }

  lemma AbsorbWithin(start: seq<Node>, before: seq<Node>, after: seq<Node>, names: seq<seq<Token>>, i: nat)
    requires i < |before| == |after| == |names| && Within(start, before, names, names[i])
    requires forall j :: 0 <= j < |before| && j != i ==> after[j] == before[j]
    ensures Within(start, after, names, names[i])
  {}

  lemma LinkWithin(start: seq<Node>, before: seq<Node>, after: seq<Node>, names: seq<seq<Token>>, i: nat, e: Edge)
    requires WellFormed(before) && Named(before, names) && i < |before| && HasEdge(before[i], e)
             && Target(before[i], e) < |names|
    requires Within(start, before, names, names[i]) && Within(before, after, names, names[Target(before[i], e)])
    ensures Within(start, after, names, names[i])
  {
    NamesDown(before, names, i, e);
    WithinWider(before, after, names, names[i], names[Target(before[i], e)]);
    WithinTransitive(start, before, after, names, names[i]);
  }

  lemma SlotWithin(start: seq<Node>, before: seq<Node>, after: seq<Node>, names: seq<seq<Token>>, i: nat, s: nat)
    requires WellFormed(before) && Named(before, names) && i < |before| && s < SLOTS && before[i].params[s] != 0
    requires before[i].params[s] < |names|
    requires Within(start, before, names, names[i]) && Within(before, after, names, names[before[i].params[s]])
    ensures Within(start, after, names, names[i])
  {
    LinkWithin(start, before, after, names, i, Hole(TypeAt(s)));
  }

  lemma ChildWithin(start: seq<Node>, before: seq<Node>, after: seq<Node>, names: seq<seq<Token>>, i: nat, k: string)
    requires WellFormed(before) && Named(before, names) && i < |before| && k in before[i].children
    requires before[i].children[k] < |names|
    requires Within(start, before, names, names[i]) && Within(before, after, names, names[before[i].children[k]])
    ensures Within(start, after, names, names[i])
  {
    LinkWithin(start, before, after, names, i, Frag(k));
  }

  lemma ReadySlot(paths: Paths, names: seq<seq<Token>>, nodes: seq<Node>, i: nat, s: nat)
    requires WellFormed(nodes) && i < |nodes| == |names| && s < SLOTS && nodes[i].params[s] != 0
    ensures i < nodes[i].params[s] < |nodes|
    ensures Ready(paths, names, nodes, i) ==> Workable(paths, names, nodes, nodes[i].params[s])
  {
    SlotForward(nodes, i, s);
    if RawFrom(paths, names, nodes, nodes[i].params[s]) { RawReady(paths, names, nodes, nodes[i].params[s]); }
  }

  lemma RawWorkable(paths: Paths, names: seq<seq<Token>>, nodes: seq<Node>, x: nat)
    requires WellFormed(nodes) && x < |nodes| == |names|
    ensures RawFrom(paths, names, nodes, x) ==> Workable(paths, names, nodes, x)
  {
    if RawFrom(paths, names, nodes, x) { RawReady(paths, names, nodes, x); }
  }

  lemma OthersAfterChild(paths: Paths, before: seq<Node>, after: seq<Node>, names: seq<seq<Token>>, i: nat, k: string)
    requires WellFormed(before) && WellFormed(after) && Named(before, names)
             && i < |before| == |after| == |names| && k in before[i].children
    requires before[i].children[k] < |names| && Within(before, after, names, names[before[i].children[k]])
    ensures forall l :: l in before[i].children && l != k ==>
              before[i].children[l] < |before|
              && (RawFrom(paths, names, before, before[i].children[l]) ==>
                  RawFrom(paths, names, after, before[i].children[l]))
              && (BlocksFrom(paths, names, before, before[i].children[l]) ==>
                  BlocksFrom(paths, names, after, before[i].children[l]))
    ensures forall s :: 0 <= s < SLOTS && before[i].params[s] != 0 ==>
              before[i].params[s] < |before|
              && (BlocksFrom(paths, names, before, before[i].params[s]) ==>
                  BlocksFrom(paths, names, after, before[i].params[s]))
  {
    hide RawFrom, BlocksFrom, Within, Named;
    forall l | l in before[i].children && l != k
      ensures before[i].children[l] < |before|
              && (RawFrom(paths, names, before, before[i].children[l]) ==>
                  RawFrom(paths, names, after, before[i].children[l]))
              && (BlocksFrom(paths, names, before, before[i].children[l]) ==>
                  BlocksFrom(paths, names, after, before[i].children[l]))
    {
      OtherLinkKept(paths, before, after, names, i, Frag(k), Frag(l));
    }
    forall s | 0 <= s < SLOTS && before[i].params[s] != 0
      ensures before[i].params[s] < |before|
              && (BlocksFrom(paths, names, before, before[i].params[s]) ==>
                  BlocksFrom(paths, names, after, before[i].params[s]))
    {
      OtherLinkKept(paths, before, after, names, i, Frag(k), Hole(TypeAt(s)));
    }
  }

  /** A node whose own fragments and whose children are even is even from there on. */
  lemma BlocksHere(paths: Paths, names: seq<seq<Token>>, start: seq<Node>, nodes: seq<Node>, i: nat)
    requires WellFormed(start) && WellFormed(nodes) && i < |start| == |nodes| == |names|
    requires SettledFrom(start, i) ==> nodes == start
    requires Ready(paths, names, start, i) ==>
               && Whole(paths, nodes[i], names[i])
               && (forall k :: k in nodes[i].children ==> BlocksFrom(paths, names, nodes, nodes[i].children[k]))
               && (forall s :: 0 <= s < SLOTS && nodes[i].params[s] != 0 ==>
                   BlocksFrom(paths, names, nodes, nodes[i].params[s]))
    ensures Workable(paths, names, start, i) ==> BlocksFrom(paths, names, nodes, i)
  {}

  lemma ReadyKids(paths: Paths, names: seq<seq<Token>>, nodes: seq<Node>, i: nat)
    requires WellFormed(nodes) && i < |nodes| == |names|
    ensures Ready(paths, names, nodes, i) ==> forall k :: k in nodes[i].children ==>
              RawFrom(paths, names, nodes, nodes[i].children[k])
  {}

  lemma SettledKid(nodes: seq<Node>, i: nat, k: string)
    requires WellFormed(nodes) && i < |nodes| && SettledFrom(nodes, i) && k in nodes[i].children
    ensures SettledFrom(nodes, nodes[i].children[k])
  {}

  // ---------- Tries that only additions have touched ----------

  lemma FreshBlock(paths: Paths, names: seq<seq<Token>>, nodes: seq<Node>, i: nat)
    requires Fresh(nodes, names) && WellFormed(nodes) && i < |nodes| == |names| && Walk(nodes, 0, names[i]) == Some(i)
    requires forall q :: q in paths ==> Walk(nodes, 0, q).Some?
    ensures Block(paths, nodes[i], names[i], 1)
  {
    hide Walk, WellFormed;
    assert UnitNode(nodes[i]);
    forall w: string | |w| == 1 && names[i] + Lits(w) in paths ensures w in nodes[i].children {
      LiteralChild(nodes, i, names[i], w);
    }
    forall t | names[i] + [Par(t)] in paths ensures nodes[i].params[Slot(t)] != 0 {
      WalkParameter(nodes, 0, names[i], t);
    }
  }

  lemma LiteralChild(nodes: seq<Node>, i: nat, a: seq<Token>, w: string)
    requires WellFormed(nodes) && Walk(nodes, 0, a) == Some(i) && UnitNode(nodes[i])
    requires |w| == 1 && Walk(nodes, 0, a + Lits(w)).Some?
    ensures w in nodes[i].children
  {
    hide WellFormed;
    WalkOn(nodes, 0, a, Lits(w));
    var k := FittingFragment(nodes[i], Lits(w)).value;
    assert Lits(k)[0] == Lits(w)[0];
    assert k == w;
  }

  lemma {:induction false} FreshRaw(paths: Paths, names: seq<seq<Token>>, nodes: seq<Node>, i: nat)
    requires Fresh(nodes, names) && WellFormed(nodes) && i < |nodes| == |names| && Walk(nodes, 0, names[i]) == Some(i)
    requires forall q :: q in paths ==> Walk(nodes, 0, q).Some?
    ensures RawFrom(paths, names, nodes, i)
    decreases |nodes| - i
  {
    hide Fresh, Block, Walk;
    FreshBlock(paths, names, nodes, i);
    FreshNode(nodes, names, i);
    forall k | k in nodes[i].children ensures RawFrom(paths, names, nodes, nodes[i].children[k]) {
      FragmentWalk(nodes, i, names[i], k);
      FreshRaw(paths, names, nodes, nodes[i].children[k]);
    }
    forall s | 0 <= s < SLOTS && nodes[i].params[s] != 0 ensures RawFrom(paths, names, nodes, nodes[i].params[s]) {
      assert nodes[i].params[Slot(TypeAt(s))] != 0;
      WalkParameter(nodes, 0, names[i], TypeAt(s));
      FreshRaw(paths, names, nodes, nodes[i].params[s]);
    }
  }

  lemma FragmentWalk(nodes: seq<Node>, i: nat, a: seq<Token>, k: string)
    requires WellFormed(nodes) && Walk(nodes, 0, a) == Some(i) && k in nodes[i].children
    ensures Walk(nodes, 0, a + Lits(k)) == Some(nodes[i].children[k])
  {
    WalkOn(nodes, 0, a, Lits(k));
    assert Lits(k)[..|k|] == Lits(k) && Lits(k)[|k|..] == [];
    WalkFragment(nodes, i, k, Lits(k));
  }

  /** So a trie that only additions have touched ends up with one block at every node, for its own paths. */
  lemma FreshWorkable(paths: Paths, names: seq<seq<Token>>, nodes: seq<Node>)
    requires Fresh(nodes, names)
    requires WellFormed(nodes) ==> forall q :: q in paths ==> Walk(nodes, 0, q).Some?
    ensures WellFormed(nodes) && Workable(paths, names, nodes, 0)
  {
    FreshIsWellFormed(nodes, names);
    FreshRaw(paths, names, nodes, 0);
    RawReady(paths, names, nodes, 0);
  }

  /** The paths that the rules' token sequences begin with. */
  ghost function RulePaths(rules: Rules): Paths {
    var p := iset q | Leads(rules, q);
    assert forall q, r :: r in p && q <= r ==> q in p by {
      forall q, r | r in p && q <= r ensures q in p { LeadsDown(rules, q, r); }
    }
    p
  }

  lemma LeadsDown(rules: Rules, q: seq<Token>, r: seq<Token>)
    requires Leads(rules, r) && q <= r
    ensures Leads(rules, q)
  {
    if r == [] {
      assert q == [];
    } else {
      var s :| s in rules && r <= s;
      assert q <= s;
    }
  }
}
