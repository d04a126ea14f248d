/**
 Relocation as a relation between two node vectors: a copy of the reachable nodes in
 which every link is renamed consistently. Names show that the reachable part is a tree.
 */
module TrieRelocate {
  import opened Options
  import opened RouteRules
  import opened TrieNodes
  import opened TrieMerge

  /** The links of a node, literal and parameter ones alike. */
  datatype Edge = Frag(k: string) | Hole(t: ParamType)

  ghost function Label(e: Edge): seq<Token> {
    match e case Frag(k) => Lits(k) case Hole(t) => [Par(t)]
  }

  ghost predicate HasEdge(n: Node, e: Edge) {
    match e case Frag(k) => k in n.children case Hole(t) => n.params[Slot(t)] != 0
  }

  ghost function Target(n: Node, e: Edge): nat
    requires HasEdge(n, e)
  {
    match e case Frag(k) => n.children[k] case Hole(t) => n.params[Slot(t)]
  }

  ghost function Edges(n: Node): (es: set<Edge>)
    ensures forall e :: e in es <==> HasEdge(n, e)
  {
    var frags := set k | k in n.children :: Frag(k);
    var holes := set t: ParamType | n.params[Slot(t)] != 0 :: Hole(t);
    assert forall k :: k in n.children ==> Frag(k) in frags;
    assert forall t: ParamType :: n.params[Slot(t)] != 0 ==> Hole(t) in holes;
    frags + holes
  }

  /** The nodes reachable from node `i`. */
  ghost function Below(nodes: seq<Node>, i: nat): (s: set<nat>)
    requires WellFormed(nodes) && i < |nodes|
    ensures i in s && forall y :: y in s ==> i <= y < |nodes|
    decreases |nodes| - i
  {
    {i} + (set e, y | e in Edges(nodes[i]) && y in Below(nodes, Target(nodes[i], e)) :: y)
  }

  lemma {:induction false} NamesExtend(nodes: seq<Node>, names: seq<seq<Token>>, i: nat, y: nat)
    requires WellFormed(nodes) && Named(nodes, names) && i < |nodes| && y in Below(nodes, i)
    ensures names[i] <= names[y]
    decreases |nodes| - i
  {
    if y != i {
      var e :| e in Edges(nodes[i]) && y in Below(nodes, Target(nodes[i], e));
      NamesExtend(nodes, names, Target(nodes[i], e), y);
      assert names[Target(nodes[i], e)] == names[i] + Label(e);
    }
  }

  /** No name extends the names across two different links of one node. */
  lemma SiblingsApart(nodes: seq<Node>, names: seq<seq<Token>>, i: nat, e: Edge, f: Edge, name: seq<Token>)
    requires WellFormed(nodes) && Named(nodes, names) && i < |nodes|
    requires HasEdge(nodes[i], e) && HasEdge(nodes[i], f)
    requires names[Target(nodes[i], e)] <= name && names[Target(nodes[i], f)] <= name
    ensures e == f
  {
    assert names[Target(nodes[i], e)] == names[i] + Label(e);
    assert names[Target(nodes[i], f)] == names[i] + Label(f);
    var rest := name[|names[i]|..];
    assert Label(e) <= rest && Label(f) <= rest;
    assert Label(e) != [] && Label(f) != [] by {
      assert e.Frag? ==> e.k in nodes[i].children && e.k != "";
      assert f.Frag? ==> f.k in nodes[i].children && f.k != "";
    }
    assert Label(e)[0] == rest[0] == Label(f)[0];
    if e.Frag? && f.Frag? { FitsUnique(nodes[i], e.k, f.k, rest); }
  }

  lemma BelowApart(nodes: seq<Node>, names: seq<seq<Token>>, i: nat, e: Edge, f: Edge, y: nat)
    requires WellFormed(nodes) && Named(nodes, names) && i < |nodes|
    requires HasEdge(nodes[i], e) && HasEdge(nodes[i], f)
    requires y in Below(nodes, Target(nodes[i], e)) && y in Below(nodes, Target(nodes[i], f))
    ensures e == f
  {
    NamesExtend(nodes, names, Target(nodes[i], e), y);
    NamesExtend(nodes, names, Target(nodes[i], f), y);
    SiblingsApart(nodes, names, i, e, f, names[y]);
  }

  lemma TargetInBelow(nodes: seq<Node>, i: nat, x: nat, e: Edge)
    requires WellFormed(nodes) && i < |nodes| && x in Below(nodes, i) && HasEdge(nodes[x], e)
    ensures Target(nodes[x], e) in Below(nodes, i)
    decreases |nodes| - i
  {
    if x == i {
      assert e in Edges(nodes[i]) && Target(nodes[i], e) in Below(nodes, Target(nodes[i], e));
    } else {
      var f :| f in Edges(nodes[i]) && x in Below(nodes, Target(nodes[i], f));
      TargetInBelow(nodes, Target(nodes[i], f), x, e);
    }
  }

  /** The reachable part is a tree: a node has at most one incoming link from it. */
  lemma {:induction false} OneParent(nodes: seq<Node>, names: seq<seq<Token>>, i: nat, x: nat, e: Edge, y: nat, f: Edge)
    requires WellFormed(nodes) && Named(nodes, names) && i < |nodes|
    requires x in Below(nodes, i) && y in Below(nodes, i) && HasEdge(nodes[x], e) && HasEdge(nodes[y], f)
    requires Target(nodes[x], e) == Target(nodes[y], f)
    ensures x == y && e == f
    decreases |nodes| - i
  {
    var v := Target(nodes[x], e);
    var ex := if x == i then e else var g :| g in Edges(nodes[i]) && x in Below(nodes, Target(nodes[i], g)); g;
    var ey := if y == i then f else var g :| g in Edges(nodes[i]) && y in Below(nodes, Target(nodes[i], g)); g;
    var cx, cy := Target(nodes[i], ex), Target(nodes[i], ey);
    if x != i { TargetInBelow(nodes, cx, x, e); }
    if y != i { TargetInBelow(nodes, cy, y, f); }
    assert v in Below(nodes, cx) && v in Below(nodes, cy);
    BelowApart(nodes, names, i, ex, ey, v);
    if x != i && y != i {
      OneParent(nodes, names, cx, x, e, y, f);
    }
  }

  lemma {:induction false} HasParent(nodes: seq<Node>, i: nat, v: nat) returns (x: nat, e: Edge)
    requires WellFormed(nodes) && i < |nodes| && v in Below(nodes, i) && v != i
    ensures x in Below(nodes, i) && HasEdge(nodes[x], e) && Target(nodes[x], e) == v
    decreases |nodes| - i
  {
    var g :| g in Edges(nodes[i]) && v in Below(nodes, Target(nodes[i], g));
    if Target(nodes[i], g) == v {
      x, e := i, g;
    } else {
      x, e := HasParent(nodes, Target(nodes[i], g), v);
      assert x in Below(nodes, i);
    }
  }

  // ---------- Copies ----------

  /** Node `x` of `dst` is a copy of node `from[x]` of `src`, its links leading to copies of the linked nodes. */
  ghost predicate Copy(src: seq<Node>, dst: seq<Node>, from: seq<nat>, x: nat)
    requires |from| == |dst| && x < |dst|
  {
    && from[x] < |src|
    && dst[x].index == src[from[x]].index
    && dst[x].children.Keys == src[from[x]].children.Keys
    && Forward(dst[x], x, |dst|)
    && (forall k :: k in dst[x].children ==> from[dst[x].children[k]] == src[from[x]].children[k])
    && (forall s :: 0 <= s < SLOTS ==>
         && (dst[x].params[s] == 0 <==> src[from[x]].params[s] == 0)
         && (dst[x].params[s] != 0 ==> from[dst[x].params[s]] == src[from[x]].params[s]))
  }

  /** The whole vector is a copy, from the root on. */
  ghost predicate Relocated(src: seq<Node>, dst: seq<Node>, from: seq<nat>) {
    && WellFormed(src)
    && |from| == |dst| > 0
    && from[0] == 0
    && forall x :: 0 <= x < |dst| ==> Copy(src, dst, from, x)
  }

  lemma RelocatedIsWellFormed(src: seq<Node>, dst: seq<Node>, from: seq<nat>)
    requires Relocated(src, dst, from)
    ensures WellFormed(dst)
  {
    forall x | 0 <= x < |dst| ensures Forward(dst[x], x, |dst|) && PrefixFree(dst[x]) {
      assert Copy(src, dst, from, x);
      assert forall k :: k in dst[x].children <==> k in src[from[x]].children;
    }
  }

  /** Walks in the copy mirror walks in the source. */
  lemma {:induction false} RelocatedWalk(src: seq<Node>, dst: seq<Node>, from: seq<nat>, x: nat, toks: seq<Token>)
    requires Relocated(src, dst, from) && WellFormed(dst) && x < |dst|
    ensures Copy(src, dst, from, x)
    ensures var w := Walk(dst, x, toks);
            Walk(src, from[x], toks) == if w.Some? then Some(from[w.value]) else None
    decreases |toks|
  {
    assert Copy(src, dst, from, x);
    if toks != [] {
      match toks[0]
      case Par(t) =>
        if dst[x].params[Slot(t)] != 0 { RelocatedWalk(src, dst, from, dst[x].params[Slot(t)], toks[1..]); }
      case Lit(_) =>
        match FittingFragment(dst[x], toks)
        case None =>
          forall k ensures !Fits(src[from[x]], k, toks) { assert !Fits(dst[x], k, toks); }
        case Some(k) =>
          assert Fits(src[from[x]], k, toks);
          WalkFragment(dst, x, k, toks);
          WalkFragment(src, from[x], k, toks);
          RelocatedWalk(src, dst, from, dst[x].children[k], toks[|k|..]);
    }
  }

  /** Relocation keeps every stored index. */
  lemma RelocatedLookup(src: seq<Node>, dst: seq<Node>, from: seq<nat>, toks: seq<Token>)
    requires Relocated(src, dst, from) && WellFormed(dst)
    ensures Lookup(dst, 0, toks) == Lookup(src, 0, toks)
  {
    RelocatedWalk(src, dst, from, 0, toks);
    var w := Walk(dst, 0, toks);
    if w.Some? { assert Copy(src, dst, from, w.value); }
  }

  /** The copies carry the names of their originals. */
  ghost predicate Renamed(from: seq<nat>, names: seq<seq<Token>>, names': seq<seq<Token>>) {
    |from| == |names'| && forall x :: 0 <= x < |from| ==> from[x] < |names| && names'[x] == names[from[x]]
  }

  /** Every copy is on the token path its original is on. */
  lemma RelocatedNames(src: seq<Node>, dst: seq<Node>, from: seq<nat>, names: seq<seq<Token>>)
    returns (names': seq<seq<Token>>)
    requires Relocated(src, dst, from) && WellFormed(dst) && Named(src, names)
    ensures Named(dst, names') && Renamed(from, names, names')
  {
    assert forall x :: 0 <= x < |dst| ==> Copy(src, dst, from, x);
    names' := seq(|dst|, x requires 0 <= x < |dst| => assert Copy(src, dst, from, x); names[from[x]]);
    forall i, k | 0 <= i < |dst| && k in dst[i].children
      ensures names'[dst[i].children[k]] == names'[i] + Lits(k)
    {
      assert Copy(src, dst, from, i) && k in src[from[i]].children;
    }
    forall i, t | 0 <= i < |dst| && dst[i].params[Slot(t)] != 0
      ensures names'[dst[i].params[Slot(t)]] == names'[i] + [Par(t)]
    {
      assert Copy(src, dst, from, i);
    }
    forall x | 0 <= x < |dst| ensures from[x] < |src| && names'[x] == names[from[x]] {
      assert Copy(src, dst, from, x);
    }
  }

  lemma {:induction false} RelocatedSettled(src: seq<Node>, dst: seq<Node>, from: seq<nat>, x: nat)
    requires Relocated(src, dst, from) && WellFormed(dst) && x < |dst| && from[x] < |src| && SettledFrom(src, from[x])
    ensures SettledFrom(dst, x)
    decreases |dst| - x
  {
    assert Copy(src, dst, from, x);
    if AllSimple(dst, dst[x]) && dst[x].children != map[] {
      forall k | k in src[from[x]].children ensures src[src[from[x]].children[k]].IsSimple() {
        assert k in dst[x].children;
        assert Copy(src, dst, from, dst[x].children[k]);
      }
      assert AllSimple(src, src[from[x]]);
    }
    forall k | k in dst[x].children ensures SettledFrom(dst, dst[x].children[k]) {
      assert k in src[from[x]].children;
      RelocatedSettled(src, dst, from, dst[x].children[k]);
    }
    forall s | 0 <= s < SLOTS && dst[x].params[s] != 0 ensures SettledFrom(dst, dst[x].params[s]) {
      RelocatedSettled(src, dst, from, dst[x].params[s]);
    }
  }

  /** The copied nodes are exactly the nodes below `i`, each copied once. */
  ghost predicate ExactlyBelow(src: seq<Node>, i: nat, copied: seq<nat>)
    requires WellFormed(src) && i < |src|
  {
    && (forall y :: y in copied <==> y in Below(src, i))
    && forall a, b :: 0 <= a < b < |copied| ==> copied[a] != copied[b]
  }

  lemma CopyKept(src: seq<Node>, dst: seq<Node>, from: seq<nat>, dst': seq<Node>, from': seq<nat>, x: nat)
    requires |from| == |dst| && |from'| == |dst'| && x < |dst| && dst <= dst' && from <= from'
    requires Copy(src, dst, from, x)
    ensures Copy(src, dst', from', x)
  {}

  /** Every node reachable from the original is reachable, as a copy, from the copy. */
  lemma {:induction false} RelocatedReach(src: seq<Node>, dst: seq<Node>, from: seq<nat>, x: nat, y: nat)
    returns (z: nat)
    requires Relocated(src, dst, from) && WellFormed(dst) && x < |dst| && from[x] < |src| && y in Below(src, from[x])
    ensures z in Below(dst, x) && from[z] == y
    decreases |dst| - x
  {
    assert Copy(src, dst, from, x);
    if y == from[x] {
      z := x;
    } else {
      var e :| e in Edges(src[from[x]]) && y in Below(src, Target(src[from[x]], e));
      assert e in Edges(dst[x]) && from[Target(dst[x], e)] == Target(src[from[x]], e);
      z := RelocatedReach(src, dst, from, Target(dst[x], e), y);
    }
  }

  /** The relocated vector has no orphans. */
  lemma NoOrphans(src: seq<Node>, dst: seq<Node>, from: seq<nat>, x: nat)
    requires Relocated(src, dst, from) && WellFormed(dst) && ExactlyBelow(src, 0, from) && x < |dst|
    ensures x in Below(dst, 0)
  {
    hide WellFormed, Below;
    assert from[x] in from;
    var z := RelocatedReach(src, dst, from, 0, from[x]);
  }

  /** Every node can be reached from the root. */
  ghost predicate AllReached(nodes: seq<Node>)
    requires WellFormed(nodes)
  {
    forall x :: 0 <= x < |nodes| ==> x in Below(nodes, 0)
  }

  lemma RelocatedReached(src: seq<Node>, dst: seq<Node>, from: seq<nat>)
    requires Relocated(src, dst, from) && WellFormed(dst) && ExactlyBelow(src, 0, from)
    ensures AllReached(dst)
  {
    forall x | 0 <= x < |dst| ensures x in Below(dst, 0) { NoOrphans(src, dst, from, x); }
  }

  /** A vector without orphans is copied whole. */
  lemma RelocatedWhole(src: seq<Node>, dst: seq<Node>, from: seq<nat>)
    requires Relocated(src, dst, from) && ExactlyBelow(src, 0, from) && AllReached(src)
    ensures |dst| == |src|
  {
    hide WellFormed, Below;
    forall y ensures y in from <==> 0 <= y < |src| { BelowInside(src, y); }
    CountDistinct(from, |src|);
  }

  lemma BelowInside(nodes: seq<Node>, y: int)
    requires WellFormed(nodes) && AllReached(nodes)
    ensures y in Below(nodes, 0) <==> 0 <= y < |nodes|
  {}

  /** A sequence of each number below `n` once has `n` entries. */
  lemma {:induction false} CountDistinct(s: seq<nat>, n: nat)
    requires forall y :: y in s <==> 0 <= y < n
    requires forall a, b :: 0 <= a < b < |s| ==> s[a] != s[b]
    ensures |s| == n
    decreases n
  {
    if n > 0 {
      assert n - 1 in s;
      var i :| 0 <= i < |s| && s[i] == n - 1;
      var rest := s[..i] + s[i + 1..];
      forall y ensures y in rest <==> 0 <= y < n - 1 {
        if y in s && y != n - 1 {
          var j :| 0 <= j < |s| && s[j] == y;
          assert rest[if j < i then j else j - 1] == y;
        }
      }
      CountDistinct(rest, n - 1);
    } else if s != [] {
      SomeElement(s);
    }
  }

  lemma SomeElement(s: seq<nat>)
    requires s != []
    ensures exists y :: y in s
  {
    assert s[0] in s;
  }

  // ---------- Copying one node, link by link ----------

  function WithTarget(n: Node, e: Edge, v: nat): Node {
    match e
    case Frag(k) => n.(children := n.children[k := v])
    case Hole(t) => n.(params := n.params[Slot(t) := v])
  }

  lemma LinkMoved(n: Node, e: Edge, v: nat, f: Edge)
    requires HasEdge(n, e) && v > 0
    ensures HasEdge(WithTarget(n, e, v), f) <==> HasEdge(n, f)
    ensures HasEdge(n, f) ==> Target(WithTarget(n, e, v), f) == if f == e then v else Target(n, f)
    ensures WithTarget(n, e, v).index == n.index
  {
    if e.Hole? && f.Hole? && f.t != e.t { assert TypeAt(Slot(f.t)) == f.t && TypeAt(Slot(e.t)) == e.t; }
  }

  /** Node `i` is being copied to `at`: the links in `done` already lead to copies of their subtrees,
      which fill the vector behind `at`; the other links and their subtrees are as they were. */
  ghost predicate Halfway(src: seq<Node>, nodes: seq<Node>, i: nat, at: nat, dst: seq<Node>, from: seq<nat>,
                          done: set<Edge>)
    requires WellFormed(src) && i < |src|
  {
    && |nodes| == |src| && |from| == |dst| && at < |dst| && from[at] == i
    && nodes[i].index == src[i].index
    && (forall e :: HasEdge(nodes[i], e) <==> HasEdge(src[i], e))
    && done <= Edges(src[i])
    && (forall e :: e in done ==> at < Target(nodes[i], e) < |dst| && from[Target(nodes[i], e)] == Target(src[i], e))
    && (forall e :: HasEdge(src[i], e) && e !in done ==> Target(nodes[i], e) == Target(src[i], e))
    && (forall e, y :: HasEdge(src[i], e) && e !in done && y in Below(src, Target(src[i], e)) ==> nodes[y] == src[y])
    && (forall x :: at < x < |dst| ==> Copy(src, dst, from, x))
    && (forall y :: y in from[at..] <==> Visited(src, i, done, y))
    && (forall a, b :: at <= a < b < |from| ==> from[a] != from[b])
  }

  /** What copying the subtree of node `v` does: appends exactly its nodes, and touches nothing else. */
  ghost predicate Gathered(src: seq<Node>, nodes: seq<Node>, nodes': seq<Node>, v: nat,
                           dst: seq<Node>, from: seq<nat>, dst': seq<Node>, from': seq<nat>)
    requires WellFormed(src) && v < |src|
  {
    && |nodes| == |nodes'| == |src|
    && (forall y :: 0 <= y < |src| && y !in Below(src, v) ==> nodes'[y] == nodes[y])
    && |from| == |dst| < |dst'| == |from'|
    && dst <= dst' && from <= from' && from'[|dst|] == v
    && (forall x :: |dst| <= x < |dst'| ==> Copy(src, dst', from', x))
    && ExactlyBelow(src, v, from'[|dst|..])
  }

  lemma HalfwayStart(src: seq<Node>, nodes: seq<Node>, i: nat, dst: seq<Node>, from: seq<nat>)
    requires WellFormed(src) && i < |src| == |nodes| && |from| == |dst|
    requires forall y :: y in Below(src, i) ==> nodes[y] == src[y]
    ensures Halfway(src, nodes, i, |dst|, dst + [EMPTY], from + [i], {})
  {
    forall e, y | HasEdge(src[i], e) && y in Below(src, Target(src[i], e)) ensures nodes[y] == src[y] {
      assert e in Edges(src[i]);
      assert y in Below(src, i);
    }
    assert (from + [i])[|dst|..] == [i];
  }

  lemma LinkBelow(src: seq<Node>, i: nat, e: Edge)
    requires WellFormed(src) && i < |src| && HasEdge(src[i], e)
    ensures Below(src, Target(src[i], e)) <= Below(src, i) && i !in Below(src, Target(src[i], e))
  {
    assert e in Edges(src[i]);
  }

  lemma TargetForward(src: seq<Node>, i: nat, e: Edge)
    requires WellFormed(src) && i < |src| && HasEdge(src[i], e)
    ensures i < Target(src[i], e) < |src|
  {}

  lemma BelowAbove(src: seq<Node>, i: nat, y: nat)
    requires WellFormed(src) && i < |src| && y in Below(src, i)
    ensures i <= y < |src|
  {}

  lemma HalfwayStep(src: seq<Node>, names: seq<seq<Token>>, nodes: seq<Node>, nodes': seq<Node>, i: nat, at: nat,
                    dst: seq<Node>, from: seq<nat>, dst': seq<Node>, from': seq<nat>, done: set<Edge>, e: Edge)
    requires WellFormed(src) && Named(src, names) && i < |src|
    requires Halfway(src, nodes, i, at, dst, from, done) && HasEdge(src[i], e) && e !in done
    requires Gathered(src, nodes, nodes', Target(src[i], e), dst, from, dst', from')
    ensures Halfway(src, nodes'[i := WithTarget(nodes'[i], e, |dst|)], i, at, dst', from', done + {e})
  {
    hide Below, WellFormed, Named, Copy, Visited, HasEdge, Target, WithTarget;
    TargetForward(src, i, e);
    var v := Target(src[i], e);
    var after := nodes'[i := WithTarget(nodes'[i], e, |dst|)];
    assert nodes'[i] == nodes[i];
    LinkMoved(nodes[i], e, |dst|, e);
    forall f ensures HasEdge(after[i], f) <==> HasEdge(src[i], f)
             ensures HasEdge(src[i], f) ==> Target(after[i], f) == if f == e then |dst| else Target(nodes[i], f)
    {
      assert HasEdge(nodes[i], f) <==> HasEdge(src[i], f);
      LinkMoved(nodes[i], e, |dst|, f);
    }
    forall f | HasEdge(src[i], f) ensures i < Target(src[i], f) < |src| { TargetForward(src, i, f); }
    forall f, y | HasEdge(src[i], f) && f !in done + {e} && y in Below(src, Target(src[i], f))
      ensures after[y] == src[y]
    {
      if y in Below(src, v) { BelowApart(src, names, i, e, f, y); }
      BelowAbove(src, Target(src[i], f), y);
    }
    forall x | at < x < |dst'| ensures Copy(src, dst', from', x) {
      if x < |dst| { CopyKept(src, dst, from, dst', from', x); }
    }
    HalfwayVisits(src, names, i, at, from, from', done, e);
  }

  /** Node `i` itself, or a node behind one of the links `done`. */
  ghost predicate Visited(src: seq<Node>, i: nat, done: set<Edge>, y: nat)
    requires WellFormed(src) && i < |src|
  {
    y == i || exists e :: e in done && HasEdge(src[i], e) && y in Below(src, Target(src[i], e))
  }

  lemma VisitedStep(src: seq<Node>, i: nat, done: set<Edge>, e: Edge, y: nat)
    requires WellFormed(src) && i < |src| && HasEdge(src[i], e)
    ensures Visited(src, i, done + {e}, y) <==> Visited(src, i, done, y) || y in Below(src, Target(src[i], e))
  {
    hide Below;
    if y in Below(src, Target(src[i], e)) { assert e in done + {e}; }
    if f :| f in done && HasEdge(src[i], f) && y in Below(src, Target(src[i], f)) { assert f in done + {e}; }
  }

  lemma VisitedApart(src: seq<Node>, names: seq<seq<Token>>, i: nat, done: set<Edge>, e: Edge, y: nat)
    requires WellFormed(src) && Named(src, names) && i < |src| && HasEdge(src[i], e) && e !in done
    requires Visited(src, i, done, y)
    ensures y !in Below(src, Target(src[i], e))
  {
    if y in Below(src, Target(src[i], e)) && y != i {
      var f :| f in done && HasEdge(src[i], f) && y in Below(src, Target(src[i], f));
      BelowApart(src, names, i, e, f, y);
    }
  }

  lemma HalfwayVisits(src: seq<Node>, names: seq<seq<Token>>, i: nat, at: nat, from: seq<nat>, from': seq<nat>,
                      done: set<Edge>, e: Edge)
    requires WellFormed(src) && Named(src, names) && i < |src| && at < |from| && from <= from'
    requires HasEdge(src[i], e) && e !in done
    requires forall y :: y in from[at..] <==> Visited(src, i, done, y)
    requires forall a, b :: at <= a < b < |from| ==> from[a] != from[b]
    requires Target(src[i], e) < |src| && ExactlyBelow(src, Target(src[i], e), from'[|from|..])
    ensures forall y :: y in from'[at..] <==> Visited(src, i, done + {e}, y)
    ensures forall a, b :: at <= a < b < |from'| ==> from'[a] != from'[b]
  {
    hide Below, WellFormed, Named, Visited;
    var old', new' := from[at..], from'[|from|..];
    assert from'[at..] == old' + new';
    forall y ensures y in from'[at..] <==> Visited(src, i, done + {e}, y) {
      VisitedStep(src, i, done, e, y);
    }
    forall a, b | at <= a < b < |from'| ensures from'[a] != from'[b] {
      if a >= |from| {
        assert from'[a] == new'[a - |from|] && from'[b] == new'[b - |from|];
      } else if b < |from| {
        assert from'[a] == from[a] && from'[b] == from[b];
      } else {
        assert from'[b] == new'[b - |from|] && from'[a] == old'[a - at];
        VisitedApart(src, names, i, done, e, from'[a]);
      }
    }
  }

  /** When all links are done, filling in the node itself completes the copy. */
  lemma HalfwayDone(src: seq<Node>, nodes: seq<Node>, i: nat, at: nat, dst: seq<Node>, from: seq<nat>)
    requires WellFormed(src) && i < |src|
    requires Halfway(src, nodes, i, at, dst, from, Edges(src[i]))
    ensures var dst' := dst[at := nodes[i]];
            && (forall x :: at <= x < |dst| ==> Copy(src, dst', from, x))
            && ExactlyBelow(src, i, from[at..])
  {
    var dst' := dst[at := nodes[i]];
    assert Copy(src, dst', from, at) by {
      forall k ensures k in nodes[i].children <==> k in src[i].children {
        assert HasEdge(nodes[i], Frag(k)) <==> HasEdge(src[i], Frag(k));
      }
      forall k | k in nodes[i].children
        ensures at < nodes[i].children[k] < |dst| && from[nodes[i].children[k]] == src[i].children[k]
      {
        assert HasEdge(nodes[i], Frag(k)) && Frag(k) in Edges(src[i]);
      }
      forall s | 0 <= s < SLOTS
        ensures nodes[i].params[s] == 0 <==> src[i].params[s] == 0
        ensures nodes[i].params[s] != 0 ==>
                  at < nodes[i].params[s] < |dst| && from[nodes[i].params[s]] == src[i].params[s]
      {
        var t: ParamType :| Slot(t) == s by { SlotIsOnto(s); }
        assert HasEdge(nodes[i], Hole(t)) <==> HasEdge(src[i], Hole(t));
        if nodes[i].params[s] != 0 { assert Hole(t) in Edges(src[i]); }
      }
    }
    forall x | at < x < |dst| ensures Copy(src, dst', from, x) { assert Copy(src, dst, from, x); }
  }

  lemma HalfwayEdge(src: seq<Node>, nodes: seq<Node>, i: nat, at: nat, dst: seq<Node>, from: seq<nat>,
                    done: set<Edge>, e: Edge)
    requires WellFormed(src) && i < |src| == |nodes| && Halfway(src, nodes, i, at, dst, from, done)
    ensures HasEdge(nodes[i], e) <==> HasEdge(src[i], e)
  {}

  lemma GatherEnd(src: seq<Node>, start: seq<Node>, nodes: seq<Node>, i: nat, dst: seq<Node>, from: seq<nat>,
                  dst': seq<Node>, from': seq<nat>)
    requires WellFormed(src) && i < |src| == |start| == |nodes| && |dst| == |from|
    requires Halfway(src, nodes, i, |dst|, dst', from', Edges(src[i]))
    requires dst + [EMPTY] <= dst' && from + [i] <= from'
    requires forall y :: 0 <= y < |src| && y !in Below(src, i) ==> nodes[y] == start[y]
    ensures Gathered(src, start, nodes[i := nodes[i].(children := map[])], i, dst, from, dst'[|dst| := nodes[i]], from')
  {
    hide Below, Copy;
    HalfwayDone(src, nodes, i, |dst|, dst', from');
    assert dst == (dst + [EMPTY])[..|dst|] == dst'[..|dst|];
    assert from == (from + [i])[..|from|] == from'[..|from|];
  }

  lemma SlotIsOnto(s: nat)
    requires s < SLOTS
    ensures exists t: ParamType :: Slot(t) == s
  {
    assert Slot(Int) == 0 && Slot(Uint) == 1 && Slot(Double) == 2 && Slot(String) == 3 && Slot(Path) == 4;
  }
}
