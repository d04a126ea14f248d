/**
 The trie's node vector as a value: well-formedness, walking token paths, and the
 single local step (absorbing the children of a node) that edge merging is made of.
 */
module TrieNodes {
  import opened Options
  import opened RouteRules

  const SLOTS: nat := 5

  function Slot(t: ParamType): (s: nat)
    ensures s < SLOTS
  {
    match t case Int => 0 case Uint => 1 case Double => 2 case String => 3 case Path => 4
  }

  function TypeAt(s: nat): (t: ParamType)
    requires s < SLOTS
    ensures Slot(t) == s
  {
    match s case 0 => Int case 1 => Uint case 2 => Double case 3 => String case _ => Path
  }

  type Links = s: seq<nat> | |s| == SLOTS witness [0, 0, 0, 0, 0]

  /** `params[s] == 0` means there is no child for that parameter type; index 0 means no rule. */
  datatype Node = Node(index: nat, params: Links, children: map<string, nat>) {
    predicate IsSimple() { index == 0 && forall s | 0 <= s < SLOTS :: params[s] == 0 }
  }

  const EMPTY: Node := Node(0, [0, 0, 0, 0, 0], map[])

  /** The literal tokens a fragment stands for. */
  function Lits(k: string): (toks: seq<Token>)
    ensures |toks| == |k|
  {
    seq(|k|, i requires 0 <= i < |k| => Lit(k[i]))
  }

  lemma LitsConcat(k: string, l: string)
    ensures Lits(k + l) == Lits(k) + Lits(l)
  {}

  lemma LitsPrefix(k: string, l: string, toks: seq<Token>)
    requires Lits(k) <= toks && Lits(l) <= toks && |k| <= |l|
    ensures k <= l
  {
    forall i | 0 <= i < |k| ensures k[i] == l[i] {
      assert Lits(k)[i] == toks[i] == Lits(l)[i];
    }
  }

  // ---------- Well-formedness ----------

  /** All links of a node lead to strictly larger indices of the vector. */
  ghost predicate Forward(n: Node, i: nat, size: nat) {
    && (forall k :: k in n.children ==> i < n.children[k] < size)
    && (forall s :: 0 <= s < SLOTS ==> n.params[s] == 0 || i < n.params[s] < size)
  }

  /** Fragments are nonempty and none is a prefix of another, so at most one can match. */
  ghost predicate PrefixFree(n: Node) {
    && "" !in n.children
    && forall k, l :: k in n.children && l in n.children && k <= l ==> k == l
  }

  ghost predicate WellFormed(nodes: seq<Node>) {
    && |nodes| > 0
    && forall i :: 0 <= i < |nodes| ==> Forward(nodes[i], i, |nodes|) && PrefixFree(nodes[i])
  }

  // ---------- Paths ----------

  ghost predicate Fits(n: Node, k: string, toks: seq<Token>) {
    k in n.children && Lits(k) <= toks
  }

  lemma FitsUnique(n: Node, k: string, l: string, toks: seq<Token>)
    requires PrefixFree(n) && Fits(n, k, toks) && Fits(n, l, toks)
    ensures k == l
  {
    if |k| <= |l| { LitsPrefix(k, l, toks); } else { LitsPrefix(l, k, toks); }
  }

  /** The fragment of `n` that starts `toks`, if there is one. */
  ghost function FittingFragment(n: Node, toks: seq<Token>): (r: Option<string>)
    ensures r.Some? ==> Fits(n, r.value, toks)
    ensures r.None? ==> forall k :: !Fits(n, k, toks)
  {
    if k :| Fits(n, k, toks) then Some(k) else None
  }

  /** The node reached from node `i` along the token path. */
  ghost function Walk(nodes: seq<Node>, i: nat, toks: seq<Token>): (r: Option<nat>)
    requires WellFormed(nodes) && i < |nodes|
    ensures r.Some? ==> i <= r.value < |nodes|
    decreases |toks|
  {
    if toks == [] then Some(i)
    else match toks[0]
      case Par(t) =>
        var v := nodes[i].params[Slot(t)];
        if v == 0 then None else Walk(nodes, v, toks[1..])
      case Lit(_) =>
        match FittingFragment(nodes[i], toks)
        case None => None
        case Some(k) => Walk(nodes, nodes[i].children[k], toks[|k|..])
  }

  /** What the trie stores under a path: nothing if the path leads nowhere, else an index (0: no rule). */
  ghost function Lookup(nodes: seq<Node>, i: nat, toks: seq<Token>): (r: Option<nat>)
    requires WellFormed(nodes) && i < |nodes|
  {
    match Walk(nodes, i, toks)
    case None => None
    case Some(j) => Some(nodes[j].index)
  }

  lemma FragmentNonempty(nodes: seq<Node>, i: nat, k: string)
    requires WellFormed(nodes) && i < |nodes| && k in nodes[i].children
    ensures k != "" && i < nodes[i].children[k] < |nodes|
  {
    assert PrefixFree(nodes[i]) && Forward(nodes[i], i, |nodes|);
  }

  /** Walking along a fragment that fits, and then on. */
  lemma WalkFragment(nodes: seq<Node>, i: nat, k: string, toks: seq<Token>)
    requires WellFormed(nodes) && i < |nodes| && Fits(nodes[i], k, toks)
    ensures Walk(nodes, i, toks) == Walk(nodes, nodes[i].children[k], toks[|k|..])
  {
    FitsUnique(nodes[i], k, FittingFragment(nodes[i], toks).value, toks);
    assert toks[0] == Lits(k)[0];
  }

  /** Walking on from where a walk has come to. */
  lemma {:induction false} WalkOn(nodes: seq<Node>, i: nat, p: seq<Token>, rest: seq<Token>)
    requires WellFormed(nodes) && i < |nodes| && Walk(nodes, i, p).Some?
    ensures Walk(nodes, i, p + rest) == Walk(nodes, Walk(nodes, i, p).value, rest)
    decreases |p|
  {
    if p == [] {
      assert p + rest == rest;
    } else {
      assert (p + rest)[1..] == p[1..] + rest && (p + rest)[0] == p[0];
      match p[0]
      case Par(t) => WalkOn(nodes, nodes[i].params[Slot(t)], p[1..], rest);
      case Lit(_) =>
        var k := FittingFragment(nodes[i], p).value;
        assert (p + rest)[..|k|] == p[..|k|] && (p + rest)[|k|..] == p[|k|..] + rest;
        assert Fits(nodes[i], k, p + rest);
        WalkFragment(nodes, i, k, p);
        WalkFragment(nodes, i, k, p + rest);
        WalkOn(nodes, nodes[i].children[k], p[|k|..], rest);
    }
  }

  /** A parameter behind a path: there is one exactly where the node has a child for it. */
  lemma {:induction false} WalkParameter(nodes: seq<Node>, i: nat, p: seq<Token>, t: ParamType)
    requires WellFormed(nodes) && i < |nodes|
    ensures Walk(nodes, i, p + [Par(t)]) ==
            match Walk(nodes, i, p)
            case None => None
            case Some(j) => var v := nodes[j].params[Slot(t)]; if v == 0 then None else Some(v)
    decreases |p|
  {
    var q := p + [Par(t)];
    if p == [] {
      assert q == [Par(t)] && q[1..] == [];
    } else {
      assert q[1..] == p[1..] + [Par(t)] && q[0] == p[0];
      match p[0]
      case Par(u) =>
        if nodes[i].params[Slot(u)] != 0 { WalkParameter(nodes, nodes[i].params[Slot(u)], p[1..], t); }
      case Lit(_) =>
        match FittingFragment(nodes[i], p)
        case Some(k) =>
          assert q[..|k|] == p[..|k|] && q[|k|..] == p[|k|..] + [Par(t)];
          assert Fits(nodes[i], k, q);
          WalkFragment(nodes, i, k, p);
          WalkFragment(nodes, i, k, q);
          WalkParameter(nodes, nodes[i].children[k], p[|k|..], t);
        case None =>
          forall k ensures !Fits(nodes[i], k, q) {
            if Fits(nodes[i], k, q) { FitsBefore(nodes[i], k, p, t); }
          }
    }
  }

  /** Fragments are literal: one that fits with a parameter behind fits without it. */
  lemma FitsBefore(n: Node, k: string, p: seq<Token>, t: ParamType)
    requires Fits(n, k, p + [Par(t)])
    ensures Fits(n, k, p)
  {
    var q := p + [Par(t)];
    assert q[|p|] == Par(t);
    assert forall i {:trigger q[i]} :: 0 <= i < |k| ==> q[i] == Lits(k)[i];
    assert (p + [Par(t)])[..|k|] == p[..|k|];
  }

  /** The stored index, with 0 also for a path that leads nowhere. */
  ghost function Stored(nodes: seq<Node>, i: nat, toks: seq<Token>): nat
    requires WellFormed(nodes) && i < |nodes|
  {
    match Lookup(nodes, i, toks) case None => 0 case Some(x) => x
  }

  /** The trie holds exactly the given rules and stores no other index. */
  ghost predicate Holds(nodes: seq<Node>, rules: Rules) {
    && WellFormed(nodes)
    && forall p :: Stored(nodes, 0, p) == if p in rules then rules[p] else 0
  }
}
