/**
 The paths of an optimized trie, read off the rules. From every path that is left, literal tokens lead on in
 blocks: the shortest block at whose end some path stores a rule or goes on with a parameter.
 */
module TrieSurvivors {
  import opened Options
  import opened RouteRules
  import opened TrieNodes
  import opened TrieMerge
  import opened TrieBlocks
  import opened TrieInsert
  import opened TrieSearch
  import opened TrieTheorems

  /** At `q` a rule is stored or a parameter follows: its node is not simple. */
  ghost predicate Stands(rules: Rules, q: seq<Token>) {
    IndexOf(rules, q) != 0 || exists t :: Leads(rules, q + [Par(t)])
  }

  /** The literals after `a` come in blocks of `n`. */
  ghost predicate IsBlock(rules: Rules, a: seq<Token>, n: nat) {
    && n > 0
    && (exists w :: |w| == n && Stands(rules, a + Lits(w)))
    && forall w :: 0 < |w| < n ==> !Stands(rules, a + Lits(w))
  }

  /** The next `n` tokens of `p` are literals. */
  predicate Literal(p: seq<Token>, n: nat) { n <= |p| && forall i :: 0 <= i < n ==> p[i].Lit? }

  /** From the path `a`, which is left, the tokens `p` lead to a path that is left. */
  ghost predicate SurvivesFrom(rules: Rules, a: seq<Token>, p: seq<Token>)
    decreases |p|
  {
    p == []
    || (p[0].Par? && Leads(rules, a + [p[0]]) && SurvivesFrom(rules, a + [p[0]], p[1..]))
    || (exists n :: SurvivesBlock(rules, a, p, n))
  }

  ghost predicate SurvivesBlock(rules: Rules, a: seq<Token>, p: seq<Token>, n: nat)
    decreases |p|, 0
  {
    0 < n && Literal(p, n) && IsBlock(rules, a, n) && Leads(rules, a + p[..n])
      && SurvivesFrom(rules, a + p[..n], p[n..])
  }

  ghost predicate Survives(rules: Rules, p: seq<Token>) { SurvivesFrom(rules, [], p) }

  // ---------- From rules to nodes ----------

  /** `nodes` stores the rules, and paths that stand are left. */
  ghost predicate Keeps(rules: Rules, nodes: seq<Node>) {
    && WellFormed(nodes)
    && (forall q :: Walk(nodes, 0, q).Some? ==> Leads(rules, q) && Lookup(nodes, 0, q) == Some(IndexOf(rules, q)))
    && (forall q :: Stands(rules, q) ==> Walk(nodes, 0, q).Some?)
  }

  lemma LeadsUp(rules: Rules, q: seq<Token>, rest: seq<Token>)
    requires Leads(rules, q + rest)
    ensures Leads(rules, q)
  {
    if q + rest != [] {
      var r :| r in rules && q + rest <= r;
      assert q <= q + rest;
    }
  }

  lemma OptimizedKeeps(adds: seq<Addition>, after: seq<Node>)
    requires Optimized(AddAll(adds), after)
    ensures Keeps(RulesOf(adds), after)
  {
    hide Leads, AddAll, RulesOf;
    var names := AddAllHolds(adds);
    var before, rules := AddAll(adds), RulesOf(adds);
    forall q | Walk(after, 0, q).Some? ensures Leads(rules, q) && Lookup(after, 0, q) == Some(IndexOf(rules, q)) {
      assert KeptOrGone(before, after, q);
      assert Walk(before, 0, q).Some?;
      assert Stored(before, 0, q) == IndexOf(rules, q);
    }
    forall q | Stands(rules, q) ensures Walk(after, 0, q).Some? {
      assert KeptOrGone(before, after, q);
      assert Stored(before, 0, q) == IndexOf(rules, q);
      if t :| Leads(rules, q + [Par(t)]) {
        LeadsUp(rules, q, [Par(t)]);
        assert Walk(before, 0, q + [Par(t)]).Some?;
        assert Lookup(before, 0, q + [Par(t)]).Some?;
      }
    }
  }

  // ---------- Blocks are fragments ----------

  lemma StandsHere(rules: Rules, nodes: seq<Node>, i: nat, a: seq<Token>, q: seq<Token>)
    requires Keeps(rules, nodes) && Walk(nodes, 0, a) == Some(i) && Stands(rules, a + q)
    ensures Walk(nodes, i, q).Some?
  {
    WalkOn(nodes, 0, a, q);
  }

  /** A literal step takes a fragment. */
  lemma FragmentOn(nodes: seq<Node>, i: nat, p: seq<Token>)
    requires WellFormed(nodes) && i < |nodes| && p != [] && p[0].Lit? && Walk(nodes, i, p).Some?
    ensures FittingFragment(nodes[i], p).Some?
    ensures FittingFragment(nodes[i], p).value in nodes[i].children && |FittingFragment(nodes[i], p).value| <= |p|
  {}

  /** In a settled node whose fragments are equally long their length is the length of the rules' block. */
  lemma FragmentsAreBlock(rules: Rules, nodes: seq<Node>, i: nat, a: seq<Token>, k: string)
    requires Keeps(rules, nodes) && Walk(nodes, 0, a) == Some(i)
    requires k in nodes[i].children && Settled(nodes, nodes[i])
    requires forall l :: l in nodes[i].children ==> |l| == |k|
    ensures IsBlock(rules, a, |k|)
  {
    hide Leads, Walk, WellFormed, Stands;
    FragmentNonempty(nodes, i, k);
    StandingChild(rules, nodes, i, a);
    forall w | 0 < |w| < |k| ensures !Stands(rules, a + Lits(w)) {
      if Stands(rules, a + Lits(w)) {
        StandsHere(rules, nodes, i, a, Lits(w));
        FragmentOn(nodes, i, Lits(w));
      }
    }
  }

  /** The path of a node that is not simple stands. */
  lemma NotSimpleStands(rules: Rules, nodes: seq<Node>, v: nat, b: seq<Token>)
    requires Keeps(rules, nodes) && Walk(nodes, 0, b) == Some(v) && !nodes[v].IsSimple()
    ensures Stands(rules, b)
  {
    hide Leads, Walk, WellFormed;
    if nodes[v].index == 0 {
      var s :| 0 <= s < SLOTS && nodes[v].params[s] != 0;
      assert Slot(TypeAt(s)) == s;
      WalkParameter(nodes, 0, b, TypeAt(s));
      assert Leads(rules, b + [Par(TypeAt(s))]);
    }
  }

  /** A settled node with fragments has a child that stands. */
  lemma StandingChild(rules: Rules, nodes: seq<Node>, i: nat, a: seq<Token>)
    requires Keeps(rules, nodes) && Walk(nodes, 0, a) == Some(i)
    requires nodes[i].children != map[] && Settled(nodes, nodes[i])
    ensures exists l :: l in nodes[i].children && Stands(rules, a + Lits(l))
  {
    hide Leads, Walk, PrefixFree;
    assert Forward(nodes[i], i, |nodes|);
    var l :| l in nodes[i].children && !nodes[nodes[i].children[l]].IsSimple();
    FragmentWalk(nodes, i, a, l);
    NotSimpleStands(rules, nodes, nodes[i].children[l], a + Lits(l));
  }

  lemma BlockUnique(rules: Rules, a: seq<Token>, m: nat, n: nat)
    requires IsBlock(rules, a, m) && IsBlock(rules, a, n)
    ensures m == n
  {}

  // ---------- What is left ----------

  /** Node `i`, reached along its name, and everything below it are settled and made of blocks. */
  ghost predicate Compact(rules: Rules, names: seq<seq<Token>>, nodes: seq<Node>, i: nat) {
    && Keeps(rules, nodes) && Named(nodes, names) && i < |nodes| == |names| && Walk(nodes, 0, names[i]) == Some(i)
    && SettledFrom(nodes, i) && BlocksFrom(RulePaths(rules), names, nodes, i)
  }

  lemma CompactHere(rules: Rules, names: seq<seq<Token>>, nodes: seq<Node>, i: nat) returns (m: nat)
    requires Compact(rules, names, nodes, i)
    ensures WellFormed(nodes) && i < |nodes| == |names| && Settled(nodes, nodes[i])
    ensures Block(RulePaths(rules), nodes[i], names[i], m)
  {
    hide Block, Keeps, Named;
    assert WellFormed(nodes) by { KeepsFormed(rules, nodes); }
    m :| Block(RulePaths(rules), nodes[i], names[i], m);
  }

  lemma KeepsFormed(rules: Rules, nodes: seq<Node>)
    requires Keeps(rules, nodes)
    ensures WellFormed(nodes)
  {}

  lemma CompactSlot(rules: Rules, names: seq<seq<Token>>, nodes: seq<Node>, i: nat, t: ParamType)
    requires Compact(rules, names, nodes, i) && nodes[i].params[Slot(t)] != 0
    ensures Compact(rules, names, nodes, nodes[i].params[Slot(t)])
    ensures names[nodes[i].params[Slot(t)]] == names[i] + [Par(t)]
  {
    hide Block, Keeps, RulePaths;
    KeepsFormed(rules, nodes);
    assert Forward(nodes[i], i, |nodes|);
    WalkParameter(nodes, 0, names[i], t);
  }

  lemma CompactChild(rules: Rules, names: seq<seq<Token>>, nodes: seq<Node>, i: nat, k: string)
    requires Compact(rules, names, nodes, i) && k in nodes[i].children
    ensures Compact(rules, names, nodes, nodes[i].children[k])
    ensures names[nodes[i].children[k]] == names[i] + Lits(k)
  {
    hide Block, Keeps, RulePaths, Lits, Walk;
    KeepsFormed(rules, nodes);
    assert Forward(nodes[i], i, |nodes|);
    FragmentWalk(nodes, i, names[i], k);
  }

  /** A compact node has a child for exactly the parameters that go on from its path. */
  lemma CompactParameter(rules: Rules, names: seq<seq<Token>>, nodes: seq<Node>, i: nat, t: ParamType)
    requires Compact(rules, names, nodes, i)
    ensures nodes[i].params[Slot(t)] != 0 <==> Leads(rules, names[i] + [Par(t)])
  {
    hide SettledFrom, BlocksFrom;
    var m := CompactHere(rules, names, nodes, i);
    WalkParameter(nodes, 0, names[i], t);
  }

  /** A compact node's fragments are the rules' block. */
  lemma CompactFragment(rules: Rules, names: seq<seq<Token>>, nodes: seq<Node>, i: nat, k: string, w: string)
    requires Compact(rules, names, nodes, i) && k in nodes[i].children
    ensures IsBlock(rules, names[i], |k|)
    ensures |w| == |k| && Leads(rules, names[i] + Lits(w)) ==> w in nodes[i].children
  {
    hide SettledFrom, BlocksFrom, Leads, Walk, Keeps, IsBlock, Named;
    var m := CompactHere(rules, names, nodes, i);
    FragmentsAreBlock(rules, nodes, i, names[i], k);
  }

  /** From a compact node the trie can be followed along `p` exactly when `p` survives. */
  lemma {:induction false} SurvivesAt(rules: Rules, names: seq<seq<Token>>, nodes: seq<Node>, i: nat, p: seq<Token>)
    requires Compact(rules, names, nodes, i)
    ensures Walk(nodes, i, p).Some? <==> SurvivesFrom(rules, names[i], p)
    decreases |p|, 1
  {
    hide Leads, Compact, WellFormed, IsBlock, Block;
    var _ := CompactHere(rules, names, nodes, i);
    if p != [] && p[0].Par? {
      var t := p[0].t;
      CompactParameter(rules, names, nodes, i, t);
      if nodes[i].params[Slot(t)] != 0 {
        CompactSlot(rules, names, nodes, i, t);
        var _ := CompactHere(rules, names, nodes, nodes[i].params[Slot(t)]);
        SurvivesAt(rules, names, nodes, nodes[i].params[Slot(t)], p[1..]);
      }
    } else if p != [] {
      SurvivesLiteral(rules, names, nodes, i, p);
    }
  }

  lemma {:induction false} SurvivesLiteral(rules: Rules, names: seq<seq<Token>>, nodes: seq<Node>, i: nat,
                                           p: seq<Token>)
    requires Compact(rules, names, nodes, i) && p != [] && p[0].Lit?
    ensures Walk(nodes, i, p).Some? <==> SurvivesFrom(rules, names[i], p)
    decreases |p|, 0
  {
    hide Leads, Compact, WellFormed, IsBlock, PrefixFree, Block;
    var _ := CompactHere(rules, names, nodes, i);
    match FittingFragment(nodes[i], p)
    case Some(k) =>
      var v, n, a := nodes[i].children[k], |k|, names[i];
      FragmentNonempty(nodes, i, k);
      CompactChild(rules, names, nodes, i, k);
      var _ := CompactHere(rules, names, nodes, v);
      CompactFragment(rules, names, nodes, i, k, k);
      WalkFragment(nodes, i, k, p);
      assert p[..n] == Lits(k);
      CompactLeads(rules, names, nodes, v);
      SurvivesAt(rules, names, nodes, v, p[n..]);
      assert Literal(p, n) by { assert forall j :: 0 <= j < n ==> p[j] == Lits(k)[j]; }
      if Walk(nodes, i, p).Some? { assert SurvivesBlock(rules, a, p, n); }
      if m :| SurvivesBlock(rules, a, p, m) { BlockUnique(rules, a, m, n); }
    case None =>
      if n :| SurvivesBlock(rules, names[i], p, n) { NoBlockHere(rules, names, nodes, i, p, n); }
  }

  lemma CompactLeads(rules: Rules, names: seq<seq<Token>>, nodes: seq<Node>, i: nat)
    requires Compact(rules, names, nodes, i)
    ensures Leads(rules, names[i])
  {
    hide Leads;
  }

  /** Where no fragment fits, no block survives. */
  lemma NoBlockHere(rules: Rules, names: seq<seq<Token>>, nodes: seq<Node>, i: nat, p: seq<Token>, n: nat)
    requires Compact(rules, names, nodes, i) && 0 < n && Literal(p, n)
    requires IsBlock(rules, names[i], n) && Leads(rules, names[i] + p[..n])
    ensures FittingFragment(nodes[i], p).Some?
  {
    hide Leads, Compact, WellFormed, PrefixFree, Block, Stands, Walk;
    var _ := CompactHere(rules, names, nodes, i);
    var w: string :| |w| == n && Stands(rules, names[i] + Lits(w));
    CompactStands(rules, names, nodes, i, Lits(w));
    FragmentOn(nodes, i, Lits(w));
    var k := FittingFragment(nodes[i], Lits(w)).value;
    var u := seq(n, j requires 0 <= j < n => p[j].c);
    assert Lits(u) == p[..n];
    CompactFragment(rules, names, nodes, i, k, u);
    BlockUnique(rules, names[i], |k|, n);
    assert Fits(nodes[i], u, p);
  }

  lemma CompactStands(rules: Rules, names: seq<seq<Token>>, nodes: seq<Node>, i: nat, q: seq<Token>)
    requires Compact(rules, names, nodes, i) && Stands(rules, names[i] + q)
    ensures WellFormed(nodes) && Walk(nodes, i, q).Some?
  {
    hide Keeps, Stands;
    KeepsFormed(rules, nodes);
    StandsHere(rules, nodes, i, names[i], q);
  }

  /** `nodes` is what optimizing has made of the trie of a run of additions. */
  ghost predicate Compacted(adds: seq<Addition>, nodes: seq<Node>, names: seq<seq<Token>>) {
    && Optimized(AddAll(adds), nodes) && Named(nodes, names) && |nodes| == |names|
    && SettledFrom(nodes, 0) && BlocksFrom(RulePaths(RulesOf(adds)), names, nodes, 0)
  }

  /** Which paths an optimized trie has, for any run of additions. */
  lemma SurvivesIff(adds: seq<Addition>, after: seq<Node>, names: seq<seq<Token>>, p: seq<Token>)
    requires Compacted(adds, after, names)
    ensures Walk(after, 0, p).Some? <==> Survives(RulesOf(adds), p)
  {
    hide Keeps, RulesOf, RulePaths, AddAll;
    OptimizedKeeps(adds, after);
    SurvivesAt(RulesOf(adds), names, after, 0, p);
  }

  /** After optimizing, the parameters of the winning rule are handed over whole exactly when no surviving path
      consumes the URL, is tried first and shares a parameter with it. */
  lemma OptimizedHandedIff(sc: Scanners, adds: seq<Addition>, after: seq<Node>, names: seq<seq<Token>>,
                           url: string, p: seq<Token>)
    requires Compacted(adds, after, names) && Wins(sc, RulesOf(adds), url, p)
    ensures Winner(sc, after, url).Some? && Decode(sc, p, url, 0).Some?
    ensures Handed(sc, after, url) == Decode(sc, p, url, 0).value <==>
            !exists q :: Survives(RulesOf(adds), q) && Matches(sc, q, url) && Before(q, p) && SharedParams(q, p) > 0
  {
    hide Found, Winner, Handed, AddAll, RulesOf, WellFormed, Decode, Before, SharedParams, Survives, SettledFrom,
         BlocksFrom, RulePaths, Named, Optimized, Walk;
    var _ := AddAllHolds(adds);
    OptimizedHolds(AddAll(adds), after, RulesOf(adds));
    WinsIff(sc, after, RulesOf(adds), url, p);
    WinnerWins(sc, after, RulesOf(adds), url);
    HandedCompleteIff(sc, after, url);
    forall q ensures Robs(sc, after, url, q, p) <==>
      Survives(RulesOf(adds), q) && Matches(sc, q, url) && Before(q, p) && SharedParams(q, p) > 0
    {
      SurvivesIff(adds, after, names, q);
    }
  }
}
