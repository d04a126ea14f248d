/**
 Edge merging as a relation on node vectors. Absorbing the children of one node, when they
 are all simple, changes no stored index anywhere: it can only forget a dead path.
 */
module TrieMerge {
  import opened Options
  import opened RouteRules
  import opened TrieNodes

  /** `after` answers like `before`, except that paths to simple nodes may be gone. */
  ghost predicate PrunedAt(before: seq<Node>, after: seq<Node>, i: nat, toks: seq<Token>)
    requires WellFormed(before) && WellFormed(after) && i < |before| == |after|
  {
    var b, a := Walk(before, i, toks), Walk(after, i, toks);
    a == b || (a.None? && b.Some? && before[b.value].IsSimple())
  }

  ghost predicate Pruned(before: seq<Node>, after: seq<Node>) {
    && WellFormed(before) && WellFormed(after) && |before| == |after|
    && (forall i :: 0 <= i < |before| ==>
         after[i].index == before[i].index && after[i].params == before[i].params)
    && forall i, toks :: 0 <= i < |before| ==> PrunedAt(before, after, i, toks)
  }

  lemma PrunedTransitive(a: seq<Node>, b: seq<Node>, c: seq<Node>)
    requires Pruned(a, b) && Pruned(b, c)
    ensures Pruned(a, c)
  {
    forall i, toks | 0 <= i < |a| ensures PrunedAt(a, c, i, toks) {
      assert PrunedAt(a, b, i, toks) && PrunedAt(b, c, i, toks);
    }
  }

  ghost predicate AllSimple(nodes: seq<Node>, n: Node) {
    forall k :: k in n.children ==> n.children[k] < |nodes| && nodes[n.children[k]].IsSimple()
  }

  /** Nothing to merge at this node. */
  ghost predicate Settled(nodes: seq<Node>, n: Node) {
    n.children == map[] || !AllSimple(nodes, n)
  }

  /** The entry of a grandchild under the concatenated fragment. */
  ghost predicate Grand(nodes: seq<Node>, n: Node, k: string, l: string, v: nat) {
    && k in n.children && n.children[k] < |nodes|
    && l in nodes[n.children[k]].children && nodes[n.children[k]].children[l] == v
  }

  /** `merged` is the map of all grandchildren of `n`, each under its concatenated fragment. */
  ghost predicate Merged(nodes: seq<Node>, n: Node, merged: map<string, nat>) {
    && (forall k, l, v :: Grand(nodes, n, k, l, v) ==> k + l in merged && merged[k + l] == v)
    && (forall m :: m in merged ==> exists k, l :: m == k + l && Grand(nodes, n, k, l, merged[m]))
  }

  lemma ComparablePrefixes(a: string, b: string, s: string)
    requires a <= s && b <= s
    ensures a <= b || b <= a
  {}

  /** Concatenated fragments never collide. */
  lemma ConcatInjective(nodes: seq<Node>, i: nat, k: string, l: string, v: nat, k': string, l': string, v': nat)
    requires WellFormed(nodes) && i < |nodes|
    requires Grand(nodes, nodes[i], k, l, v) && Grand(nodes, nodes[i], k', l', v')
    requires k + l <= k' + l'
    ensures k == k' && l == l' && v == v'
  {
    assert k <= k + l <= k' + l';
    ComparablePrefixes(k, k', k' + l');
    assert l == (k + l)[|k|..] <= (k' + l')[|k|..] == l';
  }

  lemma MergedForward(nodes: seq<Node>, i: nat, merged: map<string, nat>, m: string) returns (k: string)
    requires WellFormed(nodes) && i < |nodes| && Merged(nodes, nodes[i], merged) && m in merged
    ensures k in nodes[i].children && i < nodes[i].children[k] < merged[m] < |nodes| && m != ""
  {
    hide PrefixFree;
    var l: string;
    k, l :| m == k + l && Grand(nodes, nodes[i], k, l, merged[m]);
    FragmentNonempty(nodes, i, k);
    assert Forward(nodes[nodes[i].children[k]], nodes[i].children[k], |nodes|);
  }

  lemma MergedPrefixFree(nodes: seq<Node>, i: nat, merged: map<string, nat>, m: string, m': string)
    requires WellFormed(nodes) && i < |nodes| && Merged(nodes, nodes[i], merged)
    requires m in merged && m' in merged && m <= m'
    ensures m == m'
  {
    hide WellFormed;
    var k, l :| m == k + l && Grand(nodes, nodes[i], k, l, merged[m]);
    var k', l' :| m' == k' + l' && Grand(nodes, nodes[i], k', l', merged[m']);
    ConcatInjective(nodes, i, k, l, merged[m], k', l', merged[m']);
  }

  lemma MergedIsWellFormed(nodes: seq<Node>, i: nat, merged: map<string, nat>)
    requires WellFormed(nodes) && i < |nodes| && Merged(nodes, nodes[i], merged)
    ensures WellFormed(nodes[i := nodes[i].(children := merged)])
    ensures forall m :: m in merged ==> exists k :: k in nodes[i].children && nodes[i].children[k] < merged[m] < |nodes|
  {
    hide Merged;
    var n := nodes[i].(children := merged);
    forall m | m in merged
      ensures i < merged[m] < |nodes| && m != ""
      ensures exists k :: k in nodes[i].children && nodes[i].children[k] < merged[m] < |nodes|
    {
      var k := MergedForward(nodes, i, merged, m);
    }
    forall m, m' | m in merged && m' in merged && m <= m' ensures m == m' {
      MergedPrefixFree(nodes, i, merged, m, m');
    }
    assert Forward(n, i, |nodes|) && PrefixFree(n);
  }

  /** A merged fragment that fits splits into a fragment and a fragment of the child that fit. */
  lemma MergedFitSplits(nodes: seq<Node>, i: nat, merged: map<string, nat>, m: string, toks: seq<Token>)
    returns (k: string, l: string)
    requires WellFormed(nodes) && i < |nodes| && Merged(nodes, nodes[i], merged)
    requires m in merged && Lits(m) <= toks
    ensures m == k + l && Grand(nodes, nodes[i], k, l, merged[m])
    ensures Fits(nodes[i], k, toks) && Lits(l) <= toks[|k|..]
  {
    hide WellFormed;
    k, l :| m == k + l && Grand(nodes, nodes[i], k, l, merged[m]);
    LitsConcat(k, l);
    assert toks[..|m|] == Lits(k) + Lits(l);
    assert toks[|k|..][..|l|] == toks[..|m|][|k|..];
  }

  /** Two literal steps that fit make one merged step that fits. */
  lemma MergedFitJoins(nodes: seq<Node>, n: Node, merged: map<string, nat>, k: string, l: string, v: nat,
                       toks: seq<Token>)
    requires Merged(nodes, n, merged) && Grand(nodes, n, k, l, v)
    requires Lits(k) <= toks && Lits(l) <= toks[|k|..]
    ensures Fits(n.(children := merged), k + l, toks) && merged[k + l] == v
  {
    LitsConcat(k, l);
    assert toks == toks[..|k|] + toks[|k|..];
  }

  lemma {:induction false} AbsorbKeepsWalk(nodes: seq<Node>, after: seq<Node>, i: nat, merged: map<string, nat>,
                                           j: nat, toks: seq<Token>)
    requires WellFormed(nodes) && i < |nodes| && j < |nodes|
    requires Merged(nodes, nodes[i], merged) && AllSimple(nodes, nodes[i])
    requires after == nodes[i := nodes[i].(children := merged)] && WellFormed(after)
    ensures PrunedAt(nodes, after, j, toks)
    decreases |toks|
  {
    if toks != [] {
      match toks[0]
      case Par(t) =>
        var v := nodes[j].params[Slot(t)];
        if v != 0 { AbsorbKeepsWalk(nodes, after, i, merged, v, toks[1..]); }
      case Lit(c) =>
        if j == i {
          AbsorbKeepsWalkHere(nodes, after, i, merged, toks);
        } else {
          var f := FittingFragment(nodes[j], toks);
          if f.Some? {
            WalkFragment(nodes, j, f.value, toks);
            WalkFragment(after, j, f.value, toks);
            AbsorbKeepsWalk(nodes, after, i, merged, nodes[j].children[f.value], toks[|f.value|..]);
          }
        }
    }
  }

  lemma {:induction false} AbsorbKeepsWalkHere(nodes: seq<Node>, after: seq<Node>, i: nat, merged: map<string, nat>,
                                               toks: seq<Token>)
    requires WellFormed(nodes) && i < |nodes| && toks != [] && toks[0].Lit?
    requires Merged(nodes, nodes[i], merged) && AllSimple(nodes, nodes[i])
    requires after == nodes[i := nodes[i].(children := merged)] && WellFormed(after)
    ensures PrunedAt(nodes, after, i, toks)
    decreases |toks|, 0
  {
    hide Merged, PrefixFree;
    var g := FittingFragment(after[i], toks);
    if g.Some? {
      FragmentNonempty(after, i, g.value);
      var k, l := MergedFitSplits(nodes, i, merged, g.value, toks);
      var v, rest := nodes[i].children[k], toks[|k|..];
      WalkFragment(nodes, i, k, toks);
      assert Fits(nodes[v], l, rest);
      WalkFragment(nodes, v, l, rest);
      WalkFragment(after, i, g.value, toks);
      assert rest[|l|..] == toks[|g.value|..];
      AbsorbKeepsWalk(nodes, after, i, merged, merged[g.value], toks[|g.value|..]);
    } else {
      assert Walk(after, i, toks).None?;
      var f := FittingFragment(nodes[i], toks);
      if f.Some? { AbsorbForgetsOnlyDead(nodes, after, i, merged, f.value, toks); }
    }
  }

  /** Where no merged fragment fits, the original path ends at a simple child or leads nowhere. */
  lemma AbsorbForgetsOnlyDead(nodes: seq<Node>, after: seq<Node>, i: nat, merged: map<string, nat>, k: string,
                              toks: seq<Token>)
    requires WellFormed(nodes) && i < |nodes|
    requires Merged(nodes, nodes[i], merged) && AllSimple(nodes, nodes[i])
    requires after == nodes[i := nodes[i].(children := merged)] && WellFormed(after)
    requires Fits(nodes[i], k, toks) && FittingFragment(after[i], toks).None?
    ensures var w := Walk(nodes, i, toks); w.Some? ==> nodes[w.value].IsSimple()
  {
    var v, rest := nodes[i].children[k], toks[|k|..];
    WalkFragment(nodes, i, k, toks);
    if rest != [] && rest[0].Lit? {
      var f := FittingFragment(nodes[v], rest);
      if f.Some? {
        assert Grand(nodes, nodes[i], k, f.value, nodes[v].children[f.value]);
        MergedFitJoins(nodes, nodes[i], merged, k, f.value, nodes[v].children[f.value], toks);
        assert false;
      }
    }
  }

  /** Absorbing simple children at one node prunes dead paths and changes nothing else. */
  lemma AbsorbPrunes(nodes: seq<Node>, i: nat, merged: map<string, nat>)
    requires WellFormed(nodes) && i < |nodes|
    requires Merged(nodes, nodes[i], merged) && AllSimple(nodes, nodes[i])
    ensures Pruned(nodes, nodes[i := nodes[i].(children := merged)])
  {
    MergedIsWellFormed(nodes, i, merged);
    var after := nodes[i := nodes[i].(children := merged)];
    forall j, toks | 0 <= j < |nodes| ensures PrunedAt(nodes, after, j, toks) {
      AbsorbKeepsWalk(nodes, after, i, merged, j, toks);
    }
  }

  // ---------- Whole runs of merging ----------

  /** What any amount of merging does: prunes dead paths, and leaves settled nodes alone. */
  ghost predicate Reworked(before: seq<Node>, after: seq<Node>) {
    && Pruned(before, after)
    && forall j :: 0 <= j < |before| && Settled(before, before[j]) ==> after[j] == before[j]
  }

  lemma ReworkedReflexive(nodes: seq<Node>)
    requires WellFormed(nodes)
    ensures Reworked(nodes, nodes)
  {}

  lemma SettledKept(before: seq<Node>, after: seq<Node>, j: nat)
    requires Reworked(before, after) && j < |before| && Settled(before, before[j])
    ensures Settled(after, before[j])
  {
    if AllSimple(after, before[j]) {
      forall k | k in before[j].children ensures before[before[j].children[k]].IsSimple() {
        assert after[before[j].children[k]].IsSimple();
      }
      assert AllSimple(before, before[j]);
    }
  }

  lemma ReworkedTransitive(a: seq<Node>, b: seq<Node>, c: seq<Node>)
    requires Reworked(a, b) && Reworked(b, c)
    ensures Reworked(a, c)
  {
    PrunedTransitive(a, b, c);
    forall j | 0 <= j < |a| && Settled(a, a[j]) ensures c[j] == a[j] { SettledKept(a, b, j); }
  }

  /** Nothing is left to merge at `i` or anywhere below it. */
  ghost predicate SettledFrom(nodes: seq<Node>, i: nat)
    requires WellFormed(nodes) && i < |nodes|
    decreases |nodes| - i
  {
    && Settled(nodes, nodes[i])
    && (forall k :: k in nodes[i].children ==> SettledFrom(nodes, nodes[i].children[k]))
    && (forall s :: 0 <= s < SLOTS && nodes[i].params[s] != 0 ==> SettledFrom(nodes, nodes[i].params[s]))
  }

  lemma {:induction false} SettledFromKept(before: seq<Node>, after: seq<Node>, i: nat)
    requires Reworked(before, after) && i < |before| && SettledFrom(before, i)
    ensures SettledFrom(after, i)
    decreases |before| - i
  {
    SettledKept(before, after, i);
    forall k | k in after[i].children ensures SettledFrom(after, after[i].children[k]) {
      SettledFromKept(before, after, before[i].children[k]);
    }
    forall s | 0 <= s < SLOTS && after[i].params[s] != 0 ensures SettledFrom(after, after[i].params[s]) {
      SettledFromKept(before, after, before[i].params[s]);
    }
  }

  lemma AbsorbReworks(nodes: seq<Node>, i: nat, merged: map<string, nat>)
    requires WellFormed(nodes) && i < |nodes|
    requires Merged(nodes, nodes[i], merged) && AllSimple(nodes, nodes[i]) && nodes[i].children != map[]
    ensures Reworked(nodes, nodes[i := nodes[i].(children := merged)])
  {
    AbsorbPrunes(nodes, i, merged);
  }

  /** A node that nothing merges at, all of whose children are done, is done. */
  lemma SettledHere(before: seq<Node>, after: seq<Node>, i: nat)
    requires Reworked(before, after) && i < |before| && after[i] == before[i] && Settled(before, before[i])
    requires forall k :: k in after[i].children ==> SettledFrom(after, after[i].children[k])
    requires forall s :: 0 <= s < SLOTS && after[i].params[s] != 0 ==> SettledFrom(after, after[i].params[s])
    ensures SettledFrom(after, i)
  {
    SettledKept(before, after, i);
  }

  lemma SettledSlotsKept(before: seq<Node>, after: seq<Node>, i: nat)
    requires Reworked(before, after) && i < |before|
    requires forall s :: 0 <= s < SLOTS && before[i].params[s] != 0 ==> SettledFrom(before, before[i].params[s])
    ensures forall s :: 0 <= s < SLOTS && after[i].params[s] != 0 ==> SettledFrom(after, after[i].params[s])
  {
    forall s | 0 <= s < SLOTS && after[i].params[s] != 0 ensures SettledFrom(after, after[i].params[s]) {
      SettledFromKept(before, after, before[i].params[s]);
    }
  }

  lemma SettledParts(nodes: seq<Node>, i: nat)
    requires WellFormed(nodes) && i < |nodes| && SettledFrom(nodes, i)
    ensures forall s :: 0 <= s < SLOTS && nodes[i].params[s] != 0 ==> SettledFrom(nodes, nodes[i].params[s])
  {}

  lemma SettledTop(nodes: seq<Node>, i: nat)
    requires WellFormed(nodes) && i < |nodes|
    ensures SettledFrom(nodes, i) ==> Settled(nodes, nodes[i])
  {}

  // ---------- Collecting the grandchildren ----------

  /** `merged` holds the grandchildren of the fragment pairs in `done`, and nothing else. */
  ghost predicate MergedSoFar(nodes: seq<Node>, n: Node, merged: map<string, nat>, done: set<(string, string)>) {
    && (forall k, l, v :: Grand(nodes, n, k, l, v) && (k, l) in done ==> k + l in merged && merged[k + l] == v)
    && (forall m :: m in merged ==> exists k, l :: m == k + l && Grand(nodes, n, k, l, merged[m]))
  }

  lemma MergedSoFarStep(nodes: seq<Node>, i: nat, merged: map<string, nat>, done: set<(string, string)>, k: string,
                        l: string)
    requires WellFormed(nodes) && i < |nodes| && MergedSoFar(nodes, nodes[i], merged, done)
    requires k in nodes[i].children && l in nodes[nodes[i].children[k]].children
    ensures MergedSoFar(nodes, nodes[i], merged[k + l := nodes[nodes[i].children[k]].children[l]], done + {(k, l)})
  {
    var w := nodes[nodes[i].children[k]].children[l];
    var merged' := merged[k + l := w];
    assert Grand(nodes, nodes[i], k, l, w);
    forall k', l', v | Grand(nodes, nodes[i], k', l', v) && (k', l') in done + {(k, l)}
      ensures k' + l' in merged' && merged'[k' + l'] == v
    {
      if k' + l' == k + l { ConcatInjective(nodes, i, k, l, w, k', l', v); }
    }
    forall m | m in merged' ensures exists k', l' :: m == k' + l' && Grand(nodes, nodes[i], k', l', merged'[m]) {
      if m != k + l {
        var k', l' :| m == k' + l' && Grand(nodes, nodes[i], k', l', merged[m]);
      }
    }
  }

  // ---------- Node names ----------

  /** `names[j]` is the token path of node `j`: every link extends its owner's name by its own tokens. */
  ghost predicate Named(nodes: seq<Node>, names: seq<seq<Token>>)
    requires WellFormed(nodes)
  {
    && |names| == |nodes|
    && names[0] == []
    && (forall i, k :: 0 <= i < |nodes| && k in nodes[i].children ==>
         names[nodes[i].children[k]] == names[i] + Lits(k))
    && (forall i, t :: 0 <= i < |nodes| && nodes[i].params[Slot(t)] != 0 ==>
         names[nodes[i].params[Slot(t)]] == names[i] + [Par(t)])
  }

  lemma MergedName(nodes: seq<Node>, names: seq<seq<Token>>, i: nat, merged: map<string, nat>, m: string)
    requires WellFormed(nodes) && i < |nodes| && Merged(nodes, nodes[i], merged) && Named(nodes, names)
    requires m in merged && merged[m] < |nodes|
    ensures names[merged[m]] == names[i] + Lits(m)
  {
    hide WellFormed, Named;
    var k, l :| m == k + l && Grand(nodes, nodes[i], k, l, merged[m]);
    LitsConcat(k, l);
    ChildName(nodes, names, i, k);
    ChildName(nodes, names, nodes[i].children[k], l);
    assert names[i] + (Lits(k) + Lits(l)) == (names[i] + Lits(k)) + Lits(l);
  }

  lemma ChildName(nodes: seq<Node>, names: seq<seq<Token>>, i: nat, k: string)
    requires WellFormed(nodes) && Named(nodes, names) && i < |nodes| && k in nodes[i].children
    ensures nodes[i].children[k] < |nodes| == |names| && names[nodes[i].children[k]] == names[i] + Lits(k)
  {
    hide PrefixFree;
    assert Forward(nodes[i], i, |nodes|);
  }

  lemma AbsorbKeepsNames(nodes: seq<Node>, names: seq<seq<Token>>, i: nat, merged: map<string, nat>)
    requires WellFormed(nodes) && i < |nodes| && Merged(nodes, nodes[i], merged) && Named(nodes, names)
    requires WellFormed(nodes[i := nodes[i].(children := merged)])
    ensures Named(nodes[i := nodes[i].(children := merged)], names)
  {
    hide Merged, PrefixFree, Lits;
    var after := nodes[i := nodes[i].(children := merged)];
    forall j, m | 0 <= j < |after| && m in after[j].children
      ensures names[after[j].children[m]] == names[j] + Lits(m)
    {
      if j == i {
        assert Forward(after[i], i, |nodes|);
        MergedName(nodes, names, i, merged, m);
      } else { assert m in nodes[j].children; }
    }
    forall j, t | 0 <= j < |after| && after[j].params[Slot(t)] != 0
      ensures names[after[j].params[Slot(t)]] == names[j] + [Par(t)]
    {
      assert after[j].params == nodes[j].params;
    }
  }
}
