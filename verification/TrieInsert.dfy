/**
 Adding a rule, as a function on node vectors whose fragments are still single characters:
 follow the tokens, creating the nodes that are missing, and store the index at the end.
 */
module TrieInsert {
  import opened Options
  import opened RouteRules
  import opened TrieNodes
  import opened TrieMerge

  /** The child of `n` for one token; 0 if there is none. */
  function ChildFor(n: Node, tok: Token): nat {
    match tok
    case Par(t) => n.params[Slot(t)]
    case Lit(c) => if [c] in n.children then n.children[[c]] else 0
  }

  function WithChild(n: Node, tok: Token, v: nat): Node {
    match tok
    case Par(t) => n.(params := n.params[Slot(t) := v])
    case Lit(c) => n.(children := n.children[[c] := v])
  }

  lemma ChildForWithChild(n: Node, tok: Token, v: nat, tok': Token)
    ensures ChildFor(WithChild(n, tok, v), tok') == if tok == tok' then v else ChildFor(n, tok')
  {}

  ghost predicate UnitNode(n: Node) {
    forall k :: k in n.children ==> |k| == 1 && n.children[k] != 0
  }

  ghost predicate ChildOk(nodes: seq<Node>, names: seq<seq<Token>>, i: nat, tok: Token)
    requires i < |nodes| == |names|
  {
    var v := ChildFor(nodes[i], tok);
    v != 0 ==> i < v < |nodes| && names[v] == names[i] + [tok]
  }

  /** A trie that only additions have touched: single-character fragments, every node named by its path. */
  ghost predicate Fresh(nodes: seq<Node>, names: seq<seq<Token>>) {
    && |nodes| == |names| > 0
    && names[0] == []
    && (forall i :: 0 <= i < |nodes| ==> UnitNode(nodes[i]))
    && (forall i, tok :: 0 <= i < |nodes| ==> ChildOk(nodes, names, i, tok))
  }

  lemma FreshNode(nodes: seq<Node>, names: seq<seq<Token>>, i: nat)
    requires Fresh(nodes, names) && i < |nodes|
    ensures Forward(nodes[i], i, |nodes|) && PrefixFree(nodes[i])
    ensures forall k :: k in nodes[i].children ==> names[nodes[i].children[k]] == names[i] + Lits(k)
    ensures forall t :: nodes[i].params[Slot(t)] != 0 ==> names[nodes[i].params[Slot(t)]] == names[i] + [Par(t)]
  {
    assert UnitNode(nodes[i]);
    forall k | k in nodes[i].children
      ensures i < nodes[i].children[k] < |nodes| && names[nodes[i].children[k]] == names[i] + Lits(k)
    {
      assert k == [k[0]];
      assert ChildOk(nodes, names, i, Lit(k[0]));
    }
    forall t ensures nodes[i].params[Slot(t)] != 0 ==>
      i < nodes[i].params[Slot(t)] < |nodes| && names[nodes[i].params[Slot(t)]] == names[i] + [Par(t)]
    {
      assert ChildOk(nodes, names, i, Par(t));
    }
    assert Slot(Int) == 0 && Slot(Uint) == 1 && Slot(Double) == 2 && Slot(String) == 3 && Slot(Path) == 4;
  }

  lemma FreshIsWellFormed(nodes: seq<Node>, names: seq<seq<Token>>)
    requires Fresh(nodes, names)
    ensures WellFormed(nodes) && Named(nodes, names)
  {
    forall i | 0 <= i < |nodes|
      ensures Forward(nodes[i], i, |nodes|) && PrefixFree(nodes[i])
      ensures forall k :: k in nodes[i].children ==> names[nodes[i].children[k]] == names[i] + Lits(k)
      ensures forall t :: nodes[i].params[Slot(t)] != 0 ==> names[nodes[i].params[Slot(t)]] == names[i] + [Par(t)]
    {
      FreshNode(nodes, names, i);
    }
  }

  // ---------- Token by token ----------

  /** The node reached token by token; the walk of a fresh trie. */
  ghost function Go(nodes: seq<Node>, i: nat, toks: seq<Token>): (r: Option<nat>)
    ensures r.Some? ==> r.value < |nodes|
    decreases |toks|
  {
    if i >= |nodes| then None
    else if toks == [] then Some(i)
    else
      var v := ChildFor(nodes[i], toks[0]);
      if v == 0 then None else Go(nodes, v, toks[1..])
  }

  lemma SingleFits(n: Node, c: char, toks: seq<Token>)
    requires toks != [] && toks[0] == Lit(c) && PrefixFree(n) && UnitNode(n)
    ensures FittingFragment(n, toks) == if [c] in n.children then Some([c]) else None
  {
    assert forall k :: Fits(n, k, toks) ==> k == [c] by {
      forall k | Fits(n, k, toks) ensures k == [c] { assert Lits(k)[0] == toks[0]; }
    }
    if [c] in n.children {
      assert Lits([c]) == toks[..1];
      assert Fits(n, [c], toks);
    }
  }

  lemma {:induction false} GoIsWalk(nodes: seq<Node>, names: seq<seq<Token>>, i: nat, toks: seq<Token>)
    requires Fresh(nodes, names) && WellFormed(nodes) && i < |nodes|
    ensures Go(nodes, i, toks) == Walk(nodes, i, toks)
    decreases |toks|
  {
    if toks != [] {
      assert UnitNode(nodes[i]);
      if toks[0].Lit? { SingleFits(nodes[i], toks[0].c, toks); }
      var v := ChildFor(nodes[i], toks[0]);
      if v != 0 {
        assert ChildOk(nodes, names, i, toks[0]);
        GoIsWalk(nodes, names, v, toks[1..]);
      }
    }
  }

  lemma {:induction false} GoAppend(nodes: seq<Node>, i: nat, p: seq<Token>, tok: Token)
    ensures var w := Go(nodes, i, p);
            Go(nodes, i, p + [tok]) ==
              if w.None? then None
              else var v := ChildFor(nodes[w.value], tok); if v == 0 || v >= |nodes| then None else Some(v)
    decreases |p|
  {
    if i < |nodes| && p != [] {
      assert (p + [tok])[0] == p[0] && (p + [tok])[1..] == p[1..] + [tok];
      GoAppend(nodes, ChildFor(nodes[i], p[0]), p[1..], tok);
    }
  }

  lemma {:induction false} GoNames(nodes: seq<Node>, names: seq<seq<Token>>, i: nat, p: seq<Token>)
    requires Fresh(nodes, names) && Go(nodes, i, p).Some?
    ensures i < |nodes| && names[Go(nodes, i, p).value] == names[i] + p
    decreases |p|
  {
    if p != [] {
      var v := ChildFor(nodes[i], p[0]);
      assert ChildOk(nodes, names, i, p[0]);
      GoNames(nodes, names, v, p[1..]);
      assert names[i] + p == (names[i] + [p[0]]) + p[1..];
    }
  }

  lemma {:induction false} GoPrefix(nodes: seq<Node>, i: nat, p: seq<Token>, q: seq<Token>)
    requires Go(nodes, i, p + q).Some?
    ensures Go(nodes, i, p).Some?
    decreases |q|
  {
    if q == [] {
      assert p + q == p;
    } else {
      assert p + q == (p + q[..|q|-1]) + [q[|q|-1]];
      GoAppend(nodes, i, p + q[..|q|-1], q[|q|-1]);
      GoPrefix(nodes, i, p, q[..|q|-1]);
    }
  }

  // ---------- One step ----------

  /** One token step from node `i`: the vector, with a new child if there was none, and the child. */
  function Extend(nodes: seq<Node>, i: nat, tok: Token): (r: (seq<Node>, nat))
    requires i < |nodes|
  {
    var v := ChildFor(nodes[i], tok);
    if v != 0 then (nodes, v)
    else (nodes[i := WithChild(nodes[i], tok, |nodes|)] + [EMPTY], |nodes|)
  }

  ghost function ExtendNames(nodes: seq<Node>, names: seq<seq<Token>>, i: nat, tok: Token): seq<seq<Token>>
    requires i < |nodes| == |names|
  {
    if ChildFor(nodes[i], tok) != 0 then names else names + [names[i] + [tok]]
  }

  lemma ExtendFresh(nodes: seq<Node>, names: seq<seq<Token>>, i: nat, tok: Token)
    requires Fresh(nodes, names) && i < |nodes|
    ensures var (nodes', v) := Extend(nodes, i, tok);
            v < |nodes'| && Fresh(nodes', ExtendNames(nodes, names, i, tok))
  {
    assert ChildOk(nodes, names, i, tok);
    if ChildFor(nodes[i], tok) == 0 {
      var (nodes', v) := Extend(nodes, i, tok);
      var names' := ExtendNames(nodes, names, i, tok);
      assert UnitNode(nodes[i]);
      forall j, t | 0 <= j < |nodes'| ensures ChildOk(nodes', names', j, t) {
        if j < |nodes| { assert ChildOk(nodes, names, j, t); }
        if j == i { ChildForWithChild(nodes[i], tok, |nodes|, t); }
      }
    }
  }

  /** A token step creates the one missing path and no other; existing paths stay. */
  lemma {:induction false} ExtendGo(nodes: seq<Node>, names: seq<seq<Token>>, i: nat, tok: Token, p: seq<Token>)
    requires Fresh(nodes, names) && i < |nodes|
    ensures var nodes' := Extend(nodes, i, tok).0;
            var w := Go(nodes, 0, p);
            Go(nodes', 0, p) ==
              if w.Some? then w
              else if p != [] && Go(nodes, 0, p[..|p|-1]) == Some(i) && p[|p|-1] == tok then Some(|nodes|)
              else None
    decreases |p|
  {
    var nodes' := Extend(nodes, i, tok).0;
    if p != [] && nodes' != nodes {
      var q, last := p[..|p|-1], p[|p|-1];
      assert p == q + [last];
      GoAppend(nodes, 0, q, last);
      GoAppend(nodes', 0, q, last);
      ExtendGo(nodes, names, i, tok, q);
      var w := Go(nodes, 0, q);
      if w.Some? {
        assert ChildOk(nodes, names, w.value, last);
        if w.value == i { ChildForWithChild(nodes[i], tok, |nodes|, last); }
      }
    } else if p != [] {
      assert p == p[..|p|-1] + [p[|p|-1]];
      GoAppend(nodes, 0, p[..|p|-1], p[|p|-1]);
      assert ChildOk(nodes, names, i, tok);
    }
  }

  // ---------- A whole path ----------

  /** Following the tokens from node `i`: the vector with all missing nodes created, and the last node. */
  function Follow(nodes: seq<Node>, i: nat, toks: seq<Token>): (r: (seq<Node>, nat))
    decreases |toks|
  {
    if i >= |nodes| || toks == [] then (nodes, i)
    else
      var (nodes', v) := Extend(nodes, i, toks[0]);
      Follow(nodes', v, toks[1..])
  }

  /** Growing by the prefixes of `path` longer than `done`: new paths store no index, old ones are unchanged. */
  ghost predicate Grown(nodes: seq<Node>, nodes': seq<Node>, done: seq<Token>, path: seq<Token>) {
    && |nodes| <= |nodes'|
    && (forall j :: 0 <= j < |nodes| ==> nodes'[j].index == nodes[j].index)
    && (forall j :: |nodes| <= j < |nodes'| ==> nodes'[j].index == 0)
    && (forall p :: GrownAt(nodes, nodes', done, path, p))
  }

  ghost predicate GrownAt(nodes: seq<Node>, nodes': seq<Node>, done: seq<Token>, path: seq<Token>, p: seq<Token>) {
    if Go(nodes, 0, p).Some? then Go(nodes', 0, p) == Go(nodes, 0, p)
    else Go(nodes', 0, p).Some? ==> done < p <= path && Go(nodes', 0, p).value >= |nodes|
  }

  lemma ExtendGrows(nodes: seq<Node>, names: seq<seq<Token>>, i: nat, done: seq<Token>, tok: Token)
    requires Fresh(nodes, names) && i < |nodes| && Go(nodes, 0, done) == Some(i)
    ensures var (nodes', v) := Extend(nodes, i, tok);
            Grown(nodes, nodes', done, done + [tok]) && Go(nodes', 0, done + [tok]) == Some(v)
  {
    hide Go;
    var (nodes', v) := Extend(nodes, i, tok);
    forall p ensures GrownAt(nodes, nodes', done, done + [tok], p) {
      ExtendGo(nodes, names, i, tok, p);
      if p != [] && Go(nodes, 0, p[..|p|-1]) == Some(i) && p[|p|-1] == tok {
        GoNames(nodes, names, 0, p[..|p|-1]);
        GoNames(nodes, names, 0, done);
        assert [] + p[..|p|-1] == p[..|p|-1] && [] + done == done;
        assert p == done + [tok];
      }
    }
    GoAppend(nodes, 0, done, tok);
    assert ChildOk(nodes, names, i, tok);
    ExtendGo(nodes, names, i, tok, done + [tok]);
    assert (done + [tok])[..|done|] == done;
  }

  lemma GrownNothing(nodes: seq<Node>, done: seq<Token>)
    ensures Grown(nodes, nodes, done, done)
  {}

  lemma GrownTransitive(a: seq<Node>, b: seq<Node>, c: seq<Node>, done: seq<Token>, mid: seq<Token>, path: seq<Token>)
    requires Grown(a, b, done, mid) && Grown(b, c, mid, path) && done <= mid <= path
    ensures Grown(a, c, done, path)
  {
    forall p ensures GrownAt(a, c, done, path, p) {
      assert GrownAt(a, b, done, mid, p) && GrownAt(b, c, mid, path, p);
    }
  }

  lemma {:induction false} FollowGrows(nodes: seq<Node>, names: seq<seq<Token>>, i: nat, done: seq<Token>,
                                       toks: seq<Token>)
    returns (names': seq<seq<Token>>)
    requires Fresh(nodes, names) && i < |nodes| && Go(nodes, 0, done) == Some(i)
    ensures var (nodes', j) := Follow(nodes, i, toks);
            && Fresh(nodes', names')
            && Grown(nodes, nodes', done, done + toks)
            && Go(nodes', 0, done + toks) == Some(j)
    decreases |toks|
  {
    hide Fresh, Go, Grown;
    if toks == [] {
      assert done + toks == done;
      GrownNothing(nodes, done);
      names' := names;
    } else {
      var (mid, v) := Extend(nodes, i, toks[0]);
      ExtendFresh(nodes, names, i, toks[0]);
      ExtendGrows(nodes, names, i, done, toks[0]);
      var step := done + [toks[0]];
      assert done + toks == step + toks[1..];
      names' := FollowGrows(mid, ExtendNames(nodes, names, i, toks[0]), v, step, toks[1..]);
      GrownTransitive(nodes, mid, Follow(nodes, i, toks).0, done, step, done + toks);
    }
  }

  /** A path that is already there is followed without any change. */
  lemma {:induction false} FollowUnchanged(nodes: seq<Node>, i: nat, toks: seq<Token>)
    requires Go(nodes, i, toks).Some?
    ensures Follow(nodes, i, toks) == (nodes, Go(nodes, i, toks).value)
    decreases |toks|
  {
    if toks != [] {
      FollowUnchanged(nodes, ChildFor(nodes[i], toks[0]), toks[1..]);
    }
  }

  // ---------- Adding a rule ----------

  /** The vector after adding a rule with these tokens; nothing if they already have an index. */
  function Added(nodes: seq<Node>, toks: seq<Token>, index: nat): (r: Option<seq<Node>>) {
    var (nodes', j) := Follow(nodes, 0, toks);
    if j < |nodes'| && nodes'[j].index == 0 then Some(nodes'[j := nodes'[j].(index := index)]) else None
  }

  lemma {:induction false} GoIgnoresIndex(nodes: seq<Node>, j: nat, index: nat, i: nat, p: seq<Token>)
    requires j < |nodes|
    ensures Go(nodes[j := nodes[j].(index := index)], i, p) == Go(nodes, i, p)
    decreases |p|
  {
    if i < |nodes| && p != [] {
      GoIgnoresIndex(nodes, j, index, ChildFor(nodes[i], p[0]), p[1..]);
    }
  }

  lemma IndexKeepsFresh(nodes: seq<Node>, names: seq<seq<Token>>, j: nat, index: nat)
    requires Fresh(nodes, names) && j < |nodes|
    ensures Fresh(nodes[j := nodes[j].(index := index)], names)
  {
    var nodes' := nodes[j := nodes[j].(index := index)];
    forall i, tok | 0 <= i < |nodes'| ensures ChildOk(nodes', names, i, tok) {
      assert ChildOk(nodes, names, i, tok);
    }
    forall i | 0 <= i < |nodes'| ensures UnitNode(nodes'[i]) { assert UnitNode(nodes[i]); }
  }

  /** The index stored along a token-by-token path, 0 if it leads nowhere. */
  ghost function IndexAt(nodes: seq<Node>, p: seq<Token>): nat {
    var w := Go(nodes, 0, p);
    if w.Some? then nodes[w.value].index else 0
  }

  lemma FreshStored(nodes: seq<Node>, names: seq<seq<Token>>, p: seq<Token>)
    requires Fresh(nodes, names) && WellFormed(nodes)
    ensures Stored(nodes, 0, p) == IndexAt(nodes, p)
  {
    GoIsWalk(nodes, names, 0, p);
  }

  /** A rule whose tokens already have an index is refused, and following it changed nothing. */
  lemma DuplicateRefused(nodes: seq<Node>, names: seq<seq<Token>>, toks: seq<Token>, index: nat)
    requires Fresh(nodes, names) && IndexAt(nodes, toks) != 0
    ensures Added(nodes, toks, index).None? && Follow(nodes, 0, toks).0 == nodes
  {
    FollowUnchanged(nodes, 0, toks);
  }

  /** Otherwise exactly the rule's own path gets the index, and exactly its prefixes become paths. */
  lemma AddedExactly(nodes: seq<Node>, names: seq<seq<Token>>, toks: seq<Token>, index: nat)
    returns (names': seq<seq<Token>>)
    requires Fresh(nodes, names) && IndexAt(nodes, toks) == 0
    ensures var r := Added(nodes, toks, index);
            && r.Some? && Fresh(r.value, names')
            && (forall p :: IndexAt(r.value, p) == if p == toks then index else IndexAt(nodes, p))
            && (forall p :: Go(r.value, 0, p).Some? <==> Go(nodes, 0, p).Some? || p <= toks)
  {
    names' := FollowGrows(nodes, names, 0, [], toks);
    var (grown, j) := Follow(nodes, 0, toks);
    assert [] + toks == toks;
    assert GrownAt(nodes, grown, [], toks, toks);
    IndexKeepsFresh(grown, names', j, index);
    var nodes' := Added(nodes, toks, index).value;
    forall p ensures IndexAt(nodes', p) == if p == toks then index else IndexAt(nodes, p)
             ensures Go(nodes', 0, p).Some? <==> Go(nodes, 0, p).Some? || p <= toks
    {
      GoIgnoresIndex(grown, j, index, 0, p);
      assert GrownAt(nodes, grown, [], toks, p);
      if Go(grown, 0, p) == Some(j) {
        GoNames(grown, names', 0, p);
        GoNames(grown, names', 0, toks);
        assert [] + p == p;
      }
      if p <= toks {
        assert p + toks[|p|..] == toks;
        GoPrefix(grown, 0, p, toks[|p|..]);
      }
    }
  }

  lemma FollowEnd(nodes: seq<Node>, i: nat)
    ensures Follow(nodes, i, []) == (nodes, i)
  {}

  /** At the end of following a rule's tokens, the index found there decides. */
  lemma AddDecided(start: seq<Node>, names: seq<seq<Token>>, toks: seq<Token>, index: nat, nodes: seq<Node>, j: nat)
    requires Fresh(start, names) && (nodes, j) == Follow(start, 0, toks) && j < |nodes|
    ensures nodes[j].index == 0 <==> IndexAt(start, toks) == 0
    ensures nodes[j].index == 0 ==> Added(start, toks, index) == Some(nodes[j := nodes[j].(index := index)])
    ensures nodes[j].index != 0 ==> nodes == start
  {
    if IndexAt(start, toks) != 0 {
      DuplicateRefused(start, names, toks, index);
    } else {
      var _ := AddedExactly(start, names, toks, index);
    }
  }

  lemma FreshNonempty(nodes: seq<Node>, names: seq<seq<Token>>)
    requires Fresh(nodes, names)
    ensures |nodes| > 0
  {}

  // ---------- Runs of additions ----------

  datatype Addition = Addition(rule: string, index: nat)

  /** The dictionary after a run of additions: the first nonzero index given to a token sequence stays. */
  function RulesOf(adds: seq<Addition>): Rules {
    if adds == [] then map[]
    else
      var rules := RulesOf(adds[..|adds|-1]);
      var add := adds[|adds|-1];
      var toks := Tokens(add.rule);
      if toks in rules && rules[toks] != 0 then rules else rules[toks := add.index]
  }

  /** The vector after a run of additions, refused ones having no effect. */
  function AddAll(adds: seq<Addition>): (nodes: seq<Node>) {
    if adds == [] then [EMPTY]
    else
      var nodes := AddAll(adds[..|adds|-1]);
      var r := Added(nodes, Tokens(adds[|adds|-1].rule), adds[|adds|-1].index);
      if r.Some? then r.value else nodes
  }

  /** `p` leads somewhere: it is a prefix of some rule's token sequence. */
  ghost predicate Leads(rules: Rules, p: seq<Token>) {
    p == [] || exists q :: q in rules && p <= q
  }

  ghost function IndexOf(rules: Rules, p: seq<Token>): nat { if p in rules then rules[p] else 0 }

  lemma EmptyTrie()
    ensures Fresh([EMPTY], [[]])
    ensures forall p :: IndexAt([EMPTY], p) == 0 && (Go([EMPTY], 0, p).Some? <==> Leads(map[], p))
  {
    assert forall tok :: ChildFor(EMPTY, tok) == 0;
  }

  lemma {:induction false} AddAllPaths(adds: seq<Addition>) returns (names: seq<seq<Token>>)
    ensures Fresh(AddAll(adds), names)
    ensures forall p :: IndexAt(AddAll(adds), p) == IndexOf(RulesOf(adds), p)
    ensures forall p :: Go(AddAll(adds), 0, p).Some? <==> Leads(RulesOf(adds), p)
    decreases |adds|
  {
    hide Fresh, IndexAt, Go, Tokens, Added, Leads;
    if adds == [] {
      names := [[]];
      EmptyTrie();
    } else {
      var before, rules0 := AddAll(adds[..|adds|-1]), RulesOf(adds[..|adds|-1]);
      var names0 := AddAllPaths(adds[..|adds|-1]);
      var toks, index := Tokens(adds[|adds|-1].rule), adds[|adds|-1].index;
      assert IndexAt(before, toks) == IndexOf(rules0, toks);
      if IndexAt(before, toks) != 0 {
        DuplicateRefused(before, names0, toks, index);
        names := names0;
      } else {
        names := AddedExactly(before, names0, toks, index);
        forall p ensures Leads(RulesOf(adds), p) <==> Leads(rules0, p) || p <= toks {
          LeadsAfter(rules0, toks, index, p);
        }
      }
    }
  }

  lemma LeadsAfter(rules: Rules, toks: seq<Token>, index: nat, p: seq<Token>)
    ensures Leads(rules[toks := index], p) <==> Leads(rules, p) || p <= toks
  {
    assert toks in rules[toks := index];
    if exists q :: q in rules && p <= q {
      var q :| q in rules && p <= q;
      assert q in rules[toks := index];
    }
  }

  /** After any run of additions the trie holds exactly the dictionary of the run,
      and its paths are exactly the prefixes of the rules' token sequences. */
  lemma AddAllHolds(adds: seq<Addition>) returns (names: seq<seq<Token>>)
    ensures Fresh(AddAll(adds), names) && Holds(AddAll(adds), RulesOf(adds))
    ensures forall p :: Walk(AddAll(adds), 0, p).Some? <==> Leads(RulesOf(adds), p)
  {
    names := AddAllPaths(adds);
    FreshIsWellFormed(AddAll(adds), names);
    forall p ensures Stored(AddAll(adds), 0, p) == IndexOf(RulesOf(adds), p)
             ensures Walk(AddAll(adds), 0, p).Some? <==> Leads(RulesOf(adds), p)
    {
      FreshStored(AddAll(adds), names, p);
      GoIsWalk(AddAll(adds), names, 0, p);
    }
  }

  /** What one more addition does, told by the dictionary of those before it. */
  lemma AddAllSnoc(adds: seq<Addition>, add: Addition) returns (names: seq<seq<Token>>)
    ensures var nodes, toks := AddAll(adds), Tokens(add.rule);
            && IndexAt(nodes, toks) == IndexOf(RulesOf(adds), toks)
            && (IndexAt(nodes, toks) == 0 ==> Added(nodes, toks, add.index).Some?)
            && AddAll(adds + [add]) == (if IndexAt(nodes, toks) != 0 then nodes
                                        else Added(nodes, toks, add.index).value)
    ensures Fresh(AddAll(adds + [add]), names)
  {
    hide Fresh, IndexAt, Go, Tokens, Added, Leads;
    var before := AddAllPaths(adds);
    var toks := Tokens(add.rule);
    assert (adds + [add])[..|adds|] == adds;
    if IndexAt(AddAll(adds), toks) != 0 {
      DuplicateRefused(AddAll(adds), before, toks, add.index);
    } else {
      var _ := AddedExactly(AddAll(adds), before, toks, add.index);
    }
    names := AddAllPaths(adds + [add]);
  }
}
