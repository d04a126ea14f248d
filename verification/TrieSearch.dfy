/**
 The search as an enumeration: all complete parses of a URL that the trie spells out, in the
 order the backtracking search meets them, and what the search makes of that list.
 */
module TrieSearch {
  import opened Options
  import opened RouteRules
  import opened TrieNodes

  /** A complete parse: its token path, the values it decodes, and the index stored at its end. */
  datatype Leaf = Leaf(path: seq<Token>, vals: seq<Value>, index: nat)

  function Prepend(toks: seq<Token>, vals: seq<Value>, leaf: Leaf): Leaf {
    Leaf(toks + leaf.path, vals + leaf.vals, leaf.index)
  }

  function Wrap(toks: seq<Token>, vals: seq<Value>, leaves: seq<Leaf>): (r: seq<Leaf>)
    ensures |r| == |leaves|
    ensures forall j :: 0 <= j < |r| ==> r[j] == Prepend(toks, vals, leaves[j])
  {
    seq(|leaves|, j requires 0 <= j < |leaves| => Prepend(toks, vals, leaves[j]))
  }

  /** What slot `s` of a node makes of the URL: nothing without a child there. */
  function Attempt(sc: Scanners, n: Node, url: string, pos: nat, s: nat): (r: Option<(nat, Value)>)
    requires pos < |url| && s < SLOTS
    ensures r.Some? ==> pos < r.value.0 <= |url| && n.params[s] != 0
  {
    if n.params[s] == 0 then None else Consume(sc, TypeAt(s), url, pos)
  }

  /** The complete parses of the URL from `pos` on, below node `i`, in search order. */
  ghost function Leaves(sc: Scanners, nodes: seq<Node>, i: nat, url: string, pos: nat): seq<Leaf>
    requires WellFormed(nodes) && i < |nodes| && pos <= |url|
    decreases |url| - pos, SLOTS + 2
  {
    if pos == |url| then [Leaf([], [], nodes[i].index)] else LeavesFrom(sc, nodes, i, url, pos, 0)
  }

  /** Those through the parameter slots from `s` on and then through a literal fragment. */
  ghost function LeavesFrom(sc: Scanners, nodes: seq<Node>, i: nat, url: string, pos: nat, s: nat): seq<Leaf>
    requires WellFormed(nodes) && i < |nodes| && pos < |url| && s <= SLOTS
    decreases |url| - pos, SLOTS - s + 1
  {
    if s == SLOTS then LitLeaves(sc, nodes, i, url, pos)
    else ParLeaves(sc, nodes, i, url, pos, s) + LeavesFrom(sc, nodes, i, url, pos, s + 1)
  }

  ghost function ParLeaves(sc: Scanners, nodes: seq<Node>, i: nat, url: string, pos: nat, s: nat): seq<Leaf>
    requires WellFormed(nodes) && i < |nodes| && pos < |url| && s < SLOTS
    decreases |url| - pos, 0
  {
    match Attempt(sc, nodes[i], url, pos, s)
    case None => []
    case Some((next, val)) => Wrap([Par(TypeAt(s))], [val], Leaves(sc, nodes, nodes[i].params[s], url, next))
  }

  ghost function LitLeaves(sc: Scanners, nodes: seq<Node>, i: nat, url: string, pos: nat): seq<Leaf>
    requires WellFormed(nodes) && i < |nodes| && pos < |url|
    decreases |url| - pos, 0
  {
    match FittingFragment(nodes[i], Lits(url[pos..]))
    case None => []
    case Some(k) =>
      assert |k| == |Lits(k)| <= |Lits(url[pos..])|;
      assert k != "";
      Wrap(Lits(k), [], Leaves(sc, nodes, nodes[i].children[k], url, pos + |k|))
  }

  lemma LitsStart(k: string, s: string)
    ensures Lits(k) <= Lits(s) <==> k <= s
  {
    if Lits(k) <= Lits(s) { LitsPrefix(k, s, Lits(s)); }
  }

  // ---------- Decoding literal runs ----------

  lemma {:induction false} DecodeLits(sc: Scanners, k: string, p: seq<Token>, url: string, pos: nat)
    requires pos <= |url|
    ensures Decode(sc, Lits(k) + p, url, pos) ==
      if k <= url[pos..] then Decode(sc, p, url, pos + |k|) else None
    decreases |k|
  {
    var toks := Lits(k) + p;
    if k == "" {
      assert toks == p;
    } else if pos < |url| {
      assert toks[0] == Lit(k[0]) && toks[1..] == Lits(k[1..]) + p;
      if url[pos] == k[0] {
        DecodeLits(sc, k[1..], p, url, pos + 1);
        assert k <= url[pos..] <==> k[1..] <= url[pos + 1..];
      }
    }
  }

  /** Tokens that begin with a literal and decode agree with the URL on any literal prefix. */
  lemma DecodedPrefix(sc: Scanners, k: string, toks: seq<Token>, url: string, pos: nat)
    requires pos <= |url| && Lits(k) <= toks && Decode(sc, toks, url, pos).Some?
    ensures k <= url[pos..] && Decode(sc, toks, url, pos) == Decode(sc, toks[|k|..], url, pos + |k|)
  {
    assert toks == Lits(k) + toks[|k|..];
    DecodeLits(sc, k, toks[|k|..], url, pos);
  }

  // ---------- The enumeration is sound and complete ----------

  ghost predicate Genuine(sc: Scanners, nodes: seq<Node>, i: nat, url: string, pos: nat, leaf: Leaf)
    requires WellFormed(nodes) && i < |nodes| && pos <= |url|
  {
    && Lookup(nodes, i, leaf.path) == Some(leaf.index)
    && Decode(sc, leaf.path, url, pos) == Some(leaf.vals)
  }

  lemma GenuineFragment(sc: Scanners, nodes: seq<Node>, i: nat, url: string, pos: nat, k: string, sub: Leaf)
    requires WellFormed(nodes) && i < |nodes| && pos < |url| && k in nodes[i].children && k <= url[pos..]
    requires Genuine(sc, nodes, nodes[i].children[k], url, pos + |k|, sub)
    ensures var leaf := Prepend(Lits(k), [], sub);
            Genuine(sc, nodes, i, url, pos, leaf) && leaf.path != [] && Rank(leaf.path[0]) == SLOTS
  {
    hide Decode, WellFormed, Walk;
    var path := Lits(k) + sub.path;
    FragmentNonempty(nodes, i, k);
    assert path[|k|..] == sub.path && path[0] == Lits(k)[0];
    WalkFragment(nodes, i, k, path);
    DecodeLits(sc, k, sub.path, url, pos);
    assert [] + sub.vals == sub.vals;
  }

  lemma GenuineParameter(sc: Scanners, nodes: seq<Node>, i: nat, url: string, pos: nat, s: nat, sub: Leaf)
    requires WellFormed(nodes) && i < |nodes| && pos < |url| && s < SLOTS && Attempt(sc, nodes[i], url, pos, s).Some?
    requires nodes[i].params[s] < |nodes|
    requires Genuine(sc, nodes, nodes[i].params[s], url, Attempt(sc, nodes[i], url, pos, s).value.0, sub)
    ensures var leaf := Prepend([Par(TypeAt(s))], [Attempt(sc, nodes[i], url, pos, s).value.1], sub);
            Genuine(sc, nodes, i, url, pos, leaf) && leaf.path != [] && leaf.path[0] == Par(TypeAt(s))
  {
    hide WellFormed;
    var path := [Par(TypeAt(s))] + sub.path;
    assert path[1..] == sub.path;
  }

  lemma {:induction false} LeavesSound(sc: Scanners, nodes: seq<Node>, i: nat, url: string, pos: nat, j: nat)
    requires WellFormed(nodes) && i < |nodes| && pos <= |url| && j < |Leaves(sc, nodes, i, url, pos)|
    ensures Genuine(sc, nodes, i, url, pos, Leaves(sc, nodes, i, url, pos)[j])
    decreases |url| - pos, SLOTS + 2
  {
    hide WellFormed, LeavesFrom;
    if pos < |url| { LeavesFromSound(sc, nodes, i, url, pos, 0, j); }
  }

  lemma {:induction false} LeavesFromSound(sc: Scanners, nodes: seq<Node>, i: nat, url: string, pos: nat, s: nat,
                                           j: nat)
    requires WellFormed(nodes) && i < |nodes| && pos < |url| && s <= SLOTS
    requires j < |LeavesFrom(sc, nodes, i, url, pos, s)|
    ensures var leaf := LeavesFrom(sc, nodes, i, url, pos, s)[j];
            Genuine(sc, nodes, i, url, pos, leaf) && leaf.path != [] && Rank(leaf.path[0]) >= s
    decreases |url| - pos, SLOTS - s + 1
  {
    hide Genuine, WellFormed, ParLeaves, LitLeaves, Leaves;
    if s == SLOTS {
      LitLeavesSound(sc, nodes, i, url, pos, j);
    } else {
      var here := ParLeaves(sc, nodes, i, url, pos, s);
      if j < |here| {
        ParLeavesSound(sc, nodes, i, url, pos, s, j);
      } else {
        LeavesFromSound(sc, nodes, i, url, pos, s + 1, j - |here|);
      }
    }
  }

  lemma {:induction false} LitLeavesSound(sc: Scanners, nodes: seq<Node>, i: nat, url: string, pos: nat, j: nat)
    requires WellFormed(nodes) && i < |nodes| && pos < |url| && j < |LitLeaves(sc, nodes, i, url, pos)|
    ensures var leaf := LitLeaves(sc, nodes, i, url, pos)[j];
            Genuine(sc, nodes, i, url, pos, leaf) && leaf.path != [] && Rank(leaf.path[0]) == SLOTS
    decreases |url| - pos, 0
  {
    hide Genuine, WellFormed, Leaves, Wrap, Prepend;
    var k := FittingFragment(nodes[i], Lits(url[pos..])).value;
    LitsStart(k, url[pos..]);
    FragmentNonempty(nodes, i, k);
    var child := nodes[i].children[k];
    LeavesSound(sc, nodes, child, url, pos + |k|, j);
    GenuineFragment(sc, nodes, i, url, pos, k, Leaves(sc, nodes, child, url, pos + |k|)[j]);
  }

  lemma {:induction false} ParLeavesSound(sc: Scanners, nodes: seq<Node>, i: nat, url: string, pos: nat, s: nat, j: nat)
    requires WellFormed(nodes) && i < |nodes| && pos < |url| && s < SLOTS && j < |ParLeaves(sc, nodes, i, url, pos, s)|
    ensures var leaf := ParLeaves(sc, nodes, i, url, pos, s)[j];
            Genuine(sc, nodes, i, url, pos, leaf) && leaf.path != [] && leaf.path[0] == Par(TypeAt(s))
    decreases |url| - pos, 0
  {
    hide Genuine, WellFormed, Leaves, Wrap, Prepend;
    var (next, val) := Attempt(sc, nodes[i], url, pos, s).value;
    ParameterForward(nodes, i, s);
    LeavesSound(sc, nodes, nodes[i].params[s], url, next, j);
    GenuineParameter(sc, nodes, i, url, pos, s, Leaves(sc, nodes, nodes[i].params[s], url, next)[j]);
  }

  lemma ParameterForward(nodes: seq<Node>, i: nat, s: nat)
    requires WellFormed(nodes) && i < |nodes| && s < SLOTS && nodes[i].params[s] != 0
    ensures i < nodes[i].params[s] < |nodes|
  {
    assert Forward(nodes[i], i, |nodes|);
  }

  /** Every path of the trie that consumes the URL is among the leaves. */
  lemma {:induction false} LeavesComplete(sc: Scanners, nodes: seq<Node>, i: nat, url: string, pos: nat, p: seq<Token>)
    returns (j: nat)
    requires WellFormed(nodes) && i < |nodes| && pos <= |url|
    requires Walk(nodes, i, p).Some? && Decode(sc, p, url, pos).Some?
    ensures j < |Leaves(sc, nodes, i, url, pos)| && Leaves(sc, nodes, i, url, pos)[j].path == p
    decreases |url| - pos, SLOTS + 2
  {
    hide WellFormed, LeavesFrom, Walk;
    if pos == |url| { j := 0; } else { j := LeavesFromComplete(sc, nodes, i, url, pos, p, 0); }
  }

  lemma {:induction false} LeavesFromComplete(sc: Scanners, nodes: seq<Node>, i: nat, url: string, pos: nat,
                                              p: seq<Token>, s: nat)
    returns (j: nat)
    requires WellFormed(nodes) && i < |nodes| && pos < |url| && s <= SLOTS
    requires Walk(nodes, i, p).Some? && Decode(sc, p, url, pos).Some? && p != [] && Rank(p[0]) >= s
    ensures var ls := LeavesFrom(sc, nodes, i, url, pos, s); j < |ls| && ls[j].path == p
    decreases |url| - pos, SLOTS - s + 1
  {
    hide WellFormed, ParLeaves, LitLeaves, Leaves, Walk, Decode;
    if s == SLOTS {
      j := LitLeavesComplete(sc, nodes, i, url, pos, p);
    } else if Rank(p[0]) == s {
      RankIsSlot(p[0], s);
      j := ParLeavesComplete(sc, nodes, i, url, pos, p, s);
    } else {
      j := LeavesFromComplete(sc, nodes, i, url, pos, p, s + 1);
      j := |ParLeaves(sc, nodes, i, url, pos, s)| + j;
    }
  }

  lemma RankIsSlot(tok: Token, s: nat)
    requires s < SLOTS && Rank(tok) == s
    ensures tok == Par(TypeAt(s))
  {}

  lemma {:induction false} LitLeavesComplete(sc: Scanners, nodes: seq<Node>, i: nat, url: string, pos: nat,
                                             p: seq<Token>)
    returns (j: nat)
    requires WellFormed(nodes) && i < |nodes| && pos < |url|
    requires Walk(nodes, i, p).Some? && Decode(sc, p, url, pos).Some? && p != [] && p[0].Lit?
    ensures var ls := LitLeaves(sc, nodes, i, url, pos); j < |ls| && ls[j].path == p
    decreases |url| - pos, 0
  {
    hide WellFormed, Leaves, Decode, Wrap;
    var k := FittingFragment(nodes[i], p).value;
    FragmentNonempty(nodes, i, k);
    DecodedPrefix(sc, k, p, url, pos);
    FitsUrl(nodes, i, k, url[pos..]);
    WalkFragment(nodes, i, k, p);
    j := LeavesComplete(sc, nodes, nodes[i].children[k], url, pos + |k|, p[|k|..]);
    assert p == Lits(k) + p[|k|..];
  }

  lemma FitsUrl(nodes: seq<Node>, i: nat, k: string, rest: string)
    requires WellFormed(nodes) && i < |nodes| && k in nodes[i].children && k <= rest
    ensures FittingFragment(nodes[i], Lits(rest)) == Some(k)
  {
    LitsStart(k, rest);
    assert Fits(nodes[i], k, Lits(rest));
    FitsUnique(nodes[i], k, FittingFragment(nodes[i], Lits(rest)).value, Lits(rest));
  }

  lemma {:induction false} ParLeavesComplete(sc: Scanners, nodes: seq<Node>, i: nat, url: string, pos: nat,
                                             p: seq<Token>, s: nat)
    returns (j: nat)
    requires WellFormed(nodes) && i < |nodes| && pos < |url| && s < SLOTS
    requires Walk(nodes, i, p).Some? && Decode(sc, p, url, pos).Some? && p != [] && p[0] == Par(TypeAt(s))
    ensures var ls := ParLeaves(sc, nodes, i, url, pos, s); j < |ls| && ls[j].path == p
    decreases |url| - pos, 0
  {
    hide WellFormed, Leaves, Wrap;
    ParameterForward(nodes, i, s);
    var (next, _) := Attempt(sc, nodes[i], url, pos, s).value;
    j := LeavesComplete(sc, nodes, nodes[i].params[s], url, next, p[1..]);
    assert p == [p[0]] + p[1..];
  }

  // ---------- Search order ----------

  /** The order in which the search tries the tokens of one node. */
  function Rank(tok: Token): (r: nat)
    ensures r <= SLOTS
  {
    match tok case Par(t) => Slot(t) case Lit(_) => SLOTS
  }

  /** `p` is tried before `q`: at their first difference it takes the earlier kind of token. */
  ghost predicate Before(p: seq<Token>, q: seq<Token>) {
    p != [] && q != [] && if p[0] == q[0] then Before(p[1..], q[1..]) else Rank(p[0]) < Rank(q[0])
  }

  lemma {:induction false} BeforeAsymmetric(p: seq<Token>, q: seq<Token>)
    requires Before(p, q)
    ensures !Before(q, p) && p != q
    decreases |p|
  {
    if p[0] == q[0] { BeforeAsymmetric(p[1..], q[1..]); }
  }

  lemma {:induction false} BeforeWrapped(toks: seq<Token>, p: seq<Token>, q: seq<Token>)
    ensures Before(toks + p, toks + q) == Before(p, q)
    decreases |toks|
  {
    if toks == [] {
      assert toks + p == p && toks + q == q;
    } else {
      BeforeWrapped(toks[1..], p, q);
      assert (toks + p)[1..] == toks[1..] + p && (toks + q)[1..] == toks[1..] + q;
    }
  }

  /** The leaves come in search order. */
  lemma {:induction false} LeavesOrdered(sc: Scanners, nodes: seq<Node>, i: nat, url: string, pos: nat, a: nat, b: nat)
    requires WellFormed(nodes) && i < |nodes| && pos <= |url| && a < b < |Leaves(sc, nodes, i, url, pos)|
    ensures Before(Leaves(sc, nodes, i, url, pos)[a].path, Leaves(sc, nodes, i, url, pos)[b].path)
    decreases |url| - pos, SLOTS + 2
  {
    hide WellFormed, Before, LeavesFrom;
    LeavesFromOrdered(sc, nodes, i, url, pos, 0, a, b);
  }

  lemma {:induction false} LeavesFromOrdered(sc: Scanners, nodes: seq<Node>, i: nat, url: string, pos: nat, s: nat,
                                             a: nat, b: nat)
    requires WellFormed(nodes) && i < |nodes| && pos < |url| && s <= SLOTS
    requires a < b < |LeavesFrom(sc, nodes, i, url, pos, s)|
    ensures var ls := LeavesFrom(sc, nodes, i, url, pos, s); Before(ls[a].path, ls[b].path)
    decreases |url| - pos, SLOTS - s + 1
  {
    hide WellFormed, ParLeaves, LitLeaves, Leaves, Before, Genuine;
    if s == SLOTS {
      LitLeavesOrdered(sc, nodes, i, url, pos, a, b);
    } else {
      var here := ParLeaves(sc, nodes, i, url, pos, s);
      if b < |here| {
        ParLeavesOrdered(sc, nodes, i, url, pos, s, a, b);
      } else if a >= |here| {
        LeavesFromOrdered(sc, nodes, i, url, pos, s + 1, a - |here|, b - |here|);
      } else {
        ParLeavesSound(sc, nodes, i, url, pos, s, a);
        LeavesFromSound(sc, nodes, i, url, pos, s + 1, b - |here|);
        BeforeByRank(here[a].path, LeavesFrom(sc, nodes, i, url, pos, s + 1)[b - |here|].path);
      }
    }
  }

  lemma BeforeByRank(p: seq<Token>, q: seq<Token>)
    requires p != [] && q != [] && Rank(p[0]) < Rank(q[0])
    ensures Before(p, q)
  {}

  lemma {:induction false} LitLeavesOrdered(sc: Scanners, nodes: seq<Node>, i: nat, url: string, pos: nat, a: nat,
                                            b: nat)
    requires WellFormed(nodes) && i < |nodes| && pos < |url| && a < b < |LitLeaves(sc, nodes, i, url, pos)|
    ensures var ls := LitLeaves(sc, nodes, i, url, pos); Before(ls[a].path, ls[b].path)
    decreases |url| - pos, 0
  {
    hide WellFormed, Leaves, Wrap, Before;
    var k := FittingFragment(nodes[i], Lits(url[pos..])).value;
    LitsStart(k, url[pos..]);
    FragmentNonempty(nodes, i, k);
    var sub := Leaves(sc, nodes, nodes[i].children[k], url, pos + |k|);
    LeavesOrdered(sc, nodes, nodes[i].children[k], url, pos + |k|, a, b);
    BeforeWrapped(Lits(k), sub[a].path, sub[b].path);
  }

  lemma {:induction false} ParLeavesOrdered(sc: Scanners, nodes: seq<Node>, i: nat, url: string, pos: nat, s: nat,
                                            a: nat, b: nat)
    requires WellFormed(nodes) && i < |nodes| && pos < |url| && s < SLOTS
             && a < b < |ParLeaves(sc, nodes, i, url, pos, s)|
    ensures var ls := ParLeaves(sc, nodes, i, url, pos, s); Before(ls[a].path, ls[b].path)
    decreases |url| - pos, 0
  {
    hide WellFormed, Leaves, Wrap, Before;
    var (next, _) := Attempt(sc, nodes[i], url, pos, s).value;
    ParameterForward(nodes, i, s);
    var sub := Leaves(sc, nodes, nodes[i].params[s], url, next);
    LeavesOrdered(sc, nodes, nodes[i].params[s], url, next, a, b);
    BeforeWrapped([Par(TypeAt(s))], sub[a].path, sub[b].path);
  }

  // ---------- What the search keeps ----------

  /** The position of the kept leaf among the first `n`: a nonzero index, smaller than any kept before. */
  function BestOf(leaves: seq<Leaf>, n: nat): (b: Option<nat>)
    requires n <= |leaves|
    ensures b.Some? ==> b.value < n && leaves[b.value].index != 0
  {
    if n == 0 then None
    else
      var b := BestOf(leaves, n - 1);
      if leaves[n-1].index != 0 && (b.None? || leaves[b.value].index > leaves[n-1].index) then Some(n - 1) else b
  }

  /** The kept leaf is the first one with the least nonzero index. */
  lemma {:induction false} BestOfLeast(leaves: seq<Leaf>, n: nat)
    requires n <= |leaves|
    ensures var b := BestOf(leaves, n);
            if b.Some? then
              && (forall j :: 0 <= j < n && leaves[j].index != 0 ==> leaves[b.value].index <= leaves[j].index)
              && (forall j :: 0 <= j < b.value && leaves[j].index != 0 ==> leaves[b.value].index < leaves[j].index)
            else forall j :: 0 <= j < n ==> leaves[j].index == 0
  {
    if n > 0 { BestOfLeast(leaves, n - 1); }
  }

  function BestIndex(leaves: seq<Leaf>): nat {
    var b := BestOf(leaves, |leaves|);
    if b.Some? then leaves[b.value].index else 0
  }

  /** The number of parameters two paths have in common before they part. */
  ghost function SharedParams(p: seq<Token>, q: seq<Token>): nat {
    if p == [] || q == [] || p[0] != q[0] then 0
    else (if p[0].Par? then 1 else 0) + SharedParams(p[1..], q[1..])
  }

  function Drop<T>(s: seq<T>, n: nat): seq<T> { if n <= |s| then s[n..] else [] }

  /** The values handed over with leaf `k` when the stack held `st` at the start. Handing values
      over empties the stack, so from then on the parameters shared with the previous leaf are missing. */
  ghost function Delivered(leaves: seq<Leaf>, st: seq<Value>, k: nat): seq<Value>
    requires k < |leaves|
  {
    if k == 0 then st + leaves[0].vals
    else Drop(leaves[k].vals, SharedParams(leaves[k-1].path, leaves[k].path))
  }

  /** The state of a search: the index found, the values kept with it, and the shared stack. */
  datatype State = State(found: nat, matched: seq<Value>, stack: seq<Value>)

  /** The state after the leaves `ls` have been met, the stack holding `st` at the start. */
  ghost function Result(ls: seq<Leaf>, st: seq<Value>): State {
    var b := BestOf(ls, |ls|);
    State(BestIndex(ls), if b.Some? then Delivered(ls, st, b.value) else [], if ls == [] then st else [])
  }

  /** Whether a branch's result replaces the one found so far. */
  predicate Better(found: nat, found': nat) { found' != 0 && (found == 0 || found > found') }

  /** Adding a branch's result, its value popped again. */
  ghost function Join(a: State, b: State): State {
    var stack := if b.stack == [] then [] else a.stack;
    if Better(a.found, b.found) then State(b.found, b.matched, stack) else State(a.found, a.matched, stack)
  }

  lemma {:induction false} SharedWrapped(toks: seq<Token>, p: seq<Token>, q: seq<Token>)
    ensures SharedParams(toks + p, toks + q) == SharedParams(toks, toks) + SharedParams(p, q)
    decreases |toks|
  {
    if toks == [] {
      assert toks + p == p && toks + q == q;
    } else {
      SharedWrapped(toks[1..], p, q);
      assert (toks + p)[1..] == toks[1..] + p && (toks + q)[1..] == toks[1..] + q;
    }
  }

  lemma {:induction false} LitsShareNothing(k: string)
    ensures SharedParams(Lits(k), Lits(k)) == 0
    decreases |k|
  {
    if k != "" {
      assert Lits(k)[1..] == Lits(k[1..]);
      LitsShareNothing(k[1..]);
    }
  }

  lemma {:induction false} BestOfConcat(ls: seq<Leaf>, ms: seq<Leaf>, n: nat)
    requires n <= |ms|
    ensures var b, c := BestOf(ls, |ls|), BestOf(ms, n);
            BestOf(ls + ms, |ls| + n) ==
              if c.Some? && (b.None? || ls[b.value].index > ms[c.value].index) then Some(|ls| + c.value) else b
  {
    if n == 0 {
      BestOfPrefix(ls, ms, |ls|);
    } else {
      BestOfConcat(ls, ms, n - 1);
      assert (ls + ms)[|ls| + n - 1] == ms[n - 1];
    }
  }

  lemma {:induction false} BestOfPrefix(ls: seq<Leaf>, ms: seq<Leaf>, n: nat)
    requires n <= |ls|
    ensures BestOf(ls + ms, n) == BestOf(ls, n)
  {
    if n > 0 { BestOfPrefix(ls, ms, n - 1); }
  }

  lemma {:induction false} BestOfWrap(toks: seq<Token>, vals: seq<Value>, ls: seq<Leaf>, n: nat)
    requires n <= |ls|
    ensures BestOf(Wrap(toks, vals, ls), n) == BestOf(ls, n)
  {
    if n > 0 { BestOfWrap(toks, vals, ls, n - 1); }
  }

  /** A later leaf of a branch gets the same values as within its own subtree. */
  lemma DeliveredLater(ls: seq<Leaf>, st: seq<Value>, st': seq<Value>, toks: seq<Token>, vals: seq<Value>,
                       sub: seq<Leaf>, k: nat)
    requires 0 < k < |sub| && SharedParams(toks, toks) == |vals|
    ensures Delivered(ls + Wrap(toks, vals, sub), st, |ls| + k) == Delivered(sub, st', k)
  {
    hide Wrap, SharedParams;
    var ms := Wrap(toks, vals, sub);
    assert (ls + ms)[|ls| + k] == ms[k] && (ls + ms)[|ls| + k - 1] == ms[k - 1];
    SharedWrapped(toks, sub[k-1].path, sub[k].path);
    DropAppend(vals, sub[k].vals, SharedParams(sub[k-1].path, sub[k].path));
  }

  lemma DropAppend<T>(s: seq<T>, t: seq<T>, n: nat)
    ensures Drop(s + t, |s| + n) == Drop(t, n)
  {}

  /** The first leaf of a branch gets what the stack holds when the branch is entered. */
  lemma DeliveredFirst(ls: seq<Leaf>, st: seq<Value>, toks: seq<Token>, vals: seq<Value>, sub: seq<Leaf>)
    requires sub != [] && toks != [] && LastBelow(ls, Rank(toks[0]))
    ensures Delivered(ls + Wrap(toks, vals, sub), st, |ls|) == (if ls == [] then st else []) + vals + sub[0].vals
  {
    hide Wrap;
    var ms := Wrap(toks, vals, sub);
    assert (ls + ms)[|ls|] == ms[0];
    if ls == [] {
      assert st + (vals + sub[0].vals) == st + vals + sub[0].vals;
    } else {
      assert (ls + ms)[|ls| - 1] == ls[|ls| - 1];
      assert ms[0].path[0] == toks[0];
      assert [] + vals == vals;
    }
  }

  lemma DeliveredPrefix(ls: seq<Leaf>, ms: seq<Leaf>, st: seq<Value>, k: nat)
    requires k < |ls|
    ensures Delivered(ls + ms, st, k) == Delivered(ls, st, k)
  {
    assert (ls + ms)[k] == ls[k] && (k > 0 ==> (ls + ms)[k - 1] == ls[k - 1]);
  }

  /** One more branch of a node: the leaves of a child, met with the branch's values on the stack. */
  lemma ResultBranch(ls: seq<Leaf>, st: seq<Value>, toks: seq<Token>, vals: seq<Value>, sub: seq<Leaf>)
    requires toks != [] && LastBelow(ls, Rank(toks[0])) && SharedParams(toks, toks) == |vals|
    ensures Result(ls + Wrap(toks, vals, sub), st) == Join(Result(ls, st), Result(sub, Result(ls, st).stack + vals))
  {
    hide BestOf, SharedParams, Drop, Wrap, LastBelow;
    var ms := Wrap(toks, vals, sub);
    var stack := Result(ls, st).stack;
    BestOfConcat(ls, ms, |ms|);
    BestOfWrap(toks, vals, sub, |sub|);
    assert |ls + ms| == |ls| + |ms|;
    var b, c := BestOf(ls, |ls|), BestOf(sub, |sub|);
    if c.Some? && (b.None? || ls[b.value].index > sub[c.value].index) {
      if c.value > 0 { DeliveredLater(ls, st, stack + vals, toks, vals, sub, c.value); }
      else { DeliveredFirst(ls, st, toks, vals, sub); }
      assert (ls + ms)[|ls| + c.value] == ms[c.value];
    } else if b.Some? {
      DeliveredPrefix(ls, ms, st, b.value);
      assert (ls + ms)[b.value] == ls[b.value];
    }
  }

  lemma ResultLeaf(index: nat, st: seq<Value>)
    ensures Result([Leaf([], [], index)], st) == State(index, if index != 0 then st else [], [])
  {
    var ls := [Leaf([], [], index)];
    assert BestOf(ls, 1) == if index != 0 then Some(0) else BestOf(ls, 0);
    assert st + [] == st;
  }

  /** The leaves of the parameter slots before `s`. */
  ghost function SlotsBefore(sc: Scanners, nodes: seq<Node>, i: nat, url: string, pos: nat, s: nat): seq<Leaf>
    requires WellFormed(nodes) && i < |nodes| && pos < |url| && s <= SLOTS
    decreases s
  {
    if s == 0 then []
    else SlotsBefore(sc, nodes, i, url, pos, s - 1) + ParLeaves(sc, nodes, i, url, pos, s - 1)
  }

  lemma {:induction false} LeavesBySlots(sc: Scanners, nodes: seq<Node>, i: nat, url: string, pos: nat, s: nat)
    requires WellFormed(nodes) && i < |nodes| && pos < |url| && s <= SLOTS
    ensures Leaves(sc, nodes, i, url, pos) ==
            SlotsBefore(sc, nodes, i, url, pos, s) + LeavesFrom(sc, nodes, i, url, pos, s)
    decreases s
  {
    hide WellFormed, ParLeaves, LitLeaves;
    if s > 0 {
      LeavesBySlots(sc, nodes, i, url, pos, s - 1);
    }
  }

  /** The last leaf comes from a token tried before rank `r`. */
  ghost predicate LastBelow(ls: seq<Leaf>, r: nat) {
    ls != [] ==> ls[|ls|-1].path != [] && Rank(ls[|ls|-1].path[0]) < r
  }

  lemma ParLeavesStart(sc: Scanners, nodes: seq<Node>, i: nat, url: string, pos: nat, s: nat)
    requires WellFormed(nodes) && i < |nodes| && pos < |url| && s < SLOTS
    ensures LastBelow(ParLeaves(sc, nodes, i, url, pos, s), s + 1)
  {
    hide WellFormed, Attempt, Leaves;
    assert Rank(Par(TypeAt(s))) == s;
  }

  lemma {:induction false} SlotsBeforeLast(sc: Scanners, nodes: seq<Node>, i: nat, url: string, pos: nat, s: nat)
    requires WellFormed(nodes) && i < |nodes| && pos < |url| && s <= SLOTS
    ensures LastBelow(SlotsBefore(sc, nodes, i, url, pos, s), s)
    decreases s
  {
    if s > 0 {
      hide WellFormed, ParLeaves, Rank;
      SlotsBeforeLast(sc, nodes, i, url, pos, s - 1);
      ParLeavesStart(sc, nodes, i, url, pos, s - 1);
      var ls, ms := SlotsBefore(sc, nodes, i, url, pos, s - 1), ParLeaves(sc, nodes, i, url, pos, s - 1);
      if ms != [] { assert (ls + ms)[|ls + ms| - 1] == ms[|ms| - 1]; } else { assert ls + ms == ls; }
    }
  }

  /** The search state when the parameter slots before `s` have been tried. */
  ghost function SlotState(sc: Scanners, nodes: seq<Node>, i: nat, url: string, pos: nat, s: nat, st: seq<Value>): State
    requires WellFormed(nodes) && i < |nodes| && pos < |url| && s <= SLOTS
  {
    Result(SlotsBefore(sc, nodes, i, url, pos, s), st)
  }

  /** The state when a whole node has been searched. */
  ghost function NodeState(sc: Scanners, nodes: seq<Node>, i: nat, url: string, pos: nat, st: seq<Value>): State
    requires WellFormed(nodes) && i < |nodes| && pos <= |url|
  {
    Result(Leaves(sc, nodes, i, url, pos), st)
  }

  lemma ParameterBranch(sc: Scanners, nodes: seq<Node>, i: nat, url: string, pos: nat, s: nat, st: seq<Value>)
    requires WellFormed(nodes) && i < |nodes| && pos < |url| && s < SLOTS
    ensures var before, after := SlotState(sc, nodes, i, url, pos, s, st), SlotState(sc, nodes, i, url, pos, s + 1, st);
            match Attempt(sc, nodes[i], url, pos, s)
            case None => after == before
            case Some((next, v)) =>
              after == Join(before, NodeState(sc, nodes, nodes[i].params[s], url, next, before.stack + [v]))
  {
    var ls := SlotsBefore(sc, nodes, i, url, pos, s);
    SlotsBeforeLast(sc, nodes, i, url, pos, s);
    match Attempt(sc, nodes[i], url, pos, s)
    case None => assert SlotsBefore(sc, nodes, i, url, pos, s + 1) == ls + [] == ls;
    case Some((next, v)) =>
      ResultBranch(ls, st, [Par(TypeAt(s))], [v], Leaves(sc, nodes, nodes[i].params[s], url, next));
  }

  lemma SlotsThenLiterals(sc: Scanners, nodes: seq<Node>, i: nat, url: string, pos: nat)
    requires WellFormed(nodes) && i < |nodes| && pos < |url|
    ensures Leaves(sc, nodes, i, url, pos) ==
            SlotsBefore(sc, nodes, i, url, pos, SLOTS) + LitLeaves(sc, nodes, i, url, pos)
  {
    LeavesBySlots(sc, nodes, i, url, pos, SLOTS);
  }

  /** No fragment matches: the literal branches contribute nothing. */
  lemma NoFragmentBranch(sc: Scanners, nodes: seq<Node>, i: nat, url: string, pos: nat, st: seq<Value>)
    requires WellFormed(nodes) && i < |nodes| && pos < |url|
    requires FittingFragment(nodes[i], Lits(url[pos..])).None?
    ensures NodeState(sc, nodes, i, url, pos, st) == SlotState(sc, nodes, i, url, pos, SLOTS, st)
  {
    SlotsThenLiterals(sc, nodes, i, url, pos);
    assert LitLeaves(sc, nodes, i, url, pos) == [];
    assert Leaves(sc, nodes, i, url, pos) == SlotsBefore(sc, nodes, i, url, pos, SLOTS);
  }

  lemma FragmentLeaves(sc: Scanners, nodes: seq<Node>, i: nat, url: string, pos: nat, k: string)
    requires WellFormed(nodes) && i < |nodes| && pos < |url|
    requires FittingFragment(nodes[i], Lits(url[pos..])) == Some(k) && k <= url[pos..]
    ensures Leaves(sc, nodes, i, url, pos) ==
      SlotsBefore(sc, nodes, i, url, pos, SLOTS)
        + Wrap(Lits(k), [], Leaves(sc, nodes, nodes[i].children[k], url, pos + |k|))
  {
    hide Leaves, SlotsBefore, Wrap;
    SlotsThenLiterals(sc, nodes, i, url, pos);
  }

  lemma FragmentBranch(sc: Scanners, nodes: seq<Node>, i: nat, url: string, pos: nat, st: seq<Value>, k: string)
    requires WellFormed(nodes) && i < |nodes| && pos < |url|
    requires FittingFragment(nodes[i], Lits(url[pos..])) == Some(k) && k <= url[pos..]
    ensures var before := SlotState(sc, nodes, i, url, pos, SLOTS, st);
            NodeState(sc, nodes, i, url, pos, st) ==
              Join(before, NodeState(sc, nodes, nodes[i].children[k], url, pos + |k|, before.stack))
  {
    hide Leaves, SlotsBefore, Wrap, Result, LastBelow, SharedParams;
    var ls := SlotsBefore(sc, nodes, i, url, pos, SLOTS);
    var sub := Leaves(sc, nodes, nodes[i].children[k], url, pos + |k|);
    SlotsBeforeLast(sc, nodes, i, url, pos, SLOTS);
    LitsShareNothing(k);
    assert Result(ls, st).stack + [] == Result(ls, st).stack;
    assert Lits(k)[0] == Lit(k[0]);
    ResultBranch(ls, st, Lits(k), [], sub);
    FragmentLeaves(sc, nodes, i, url, pos, k);
  }

  /** At the end of the URL the node's own index is the result, and the stack is handed over. */
  lemma EndState(sc: Scanners, nodes: seq<Node>, i: nat, url: string, st: seq<Value>)
    requires WellFormed(nodes) && i < |nodes|
    ensures var index := nodes[i].index;
            NodeState(sc, nodes, i, url, |url|, st) == State(index, if index != 0 then st else [], [])
  {
    ResultLeaf(nodes[i].index, st);
  }

  lemma StartState(sc: Scanners, nodes: seq<Node>, i: nat, url: string, pos: nat, st: seq<Value>)
    requires WellFormed(nodes) && i < |nodes| && pos < |url|
    ensures SlotState(sc, nodes, i, url, pos, 0, st) == State(0, [], st)
  {}

  /** A search leaves the stack as it was, or empty if it handed values over. */
  lemma NodeStack(sc: Scanners, nodes: seq<Node>, i: nat, url: string, pos: nat, st: seq<Value>)
    requires WellFormed(nodes) && i < |nodes| && pos <= |url|
    ensures var s := NodeState(sc, nodes, i, url, pos, st).stack; s == [] || s == st
  {}
}
