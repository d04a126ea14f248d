/** The route trie itself: a node vector that additions, merging and relocation rewrite in place. */
module RouteTrie {
  import opened Options
  import opened RouteRules
  import opened TrieNodes
  import opened TrieMerge
  import opened TrieRelocate
  import opened TrieInsert
  import opened TrieBlocks
  import opened TrieSearch
  import opened TrieTheorems

  // ---------- Parameter containers ----------

  /** Decoded parameters as handed to a handler: one sequence for each kind. */
  datatype Params = Params(ints: seq<int>, uints: seq<nat>, doubles: seq<real>, strings: seq<string>)

  const NO_PARAMS: Params := Params([], [], [], [])

  function Append(p: Params, v: Value): Params {
    match v
    case IntV(i) => p.(ints := p.ints + [i])
    case UintV(u) => p.(uints := p.uints + [u])
    case DoubleV(d) => p.(doubles := p.doubles + [d])
    case StrV(s) => p.(strings := p.strings + [s])
  }

  /** The values sorted into the containers, each keeping its order. */
  function Sorted(vals: seq<Value>): Params {
    if vals == [] then NO_PARAMS else Append(Sorted(vals[..|vals|-1]), vals[|vals|-1])
  }

  lemma SortedSnoc(vals: seq<Value>, v: Value)
    ensures Sorted(vals + [v]) == Append(Sorted(vals), v)
  {
    assert (vals + [v])[..|vals|] == vals;
  }

  /** The parameter stack the search shares between its branches. */
  class ParamStack {
    var ints: seq<int>
    var uints: seq<nat>
    var doubles: seq<real>
    var strings: seq<string>
    /** The values on the stack, in the order they were pushed. */
    ghost var values: seq<Value>

    ghost predicate Valid()
      reads this
    {
      Params(ints, uints, doubles, strings) == Sorted(values)
    }

    constructor ()
      ensures Valid() && values == []
    {
      ints, uints, doubles, strings := [], [], [], [];
      values := [];
    }

    method Push(v: Value)
      requires Valid()
      modifies this
      ensures Valid() && values == old(values) + [v]
    {
      hide Sorted;
      SortedSnoc(values, v);
      match v {
        case IntV(i) => ints := ints + [i];
        case UintV(u) => uints := uints + [u];
        case DoubleV(d) => doubles := doubles + [d];
        case StrV(s) => strings := strings + [s];
      }
      values := values + [v];
    }

    /** Drops the last value of the kind of `v`, if there is one. */
    method Pop(v: Value)
      requires Valid()
      requires values == [] || values[|values|-1] == v
      modifies this
      ensures Valid() && values == if old(values) == [] then [] else old(values)[..|old(values)|-1]
    {
      match v {
        case IntV(_) => if ints != [] { ints := ints[..|ints|-1]; }
        case UintV(_) => if uints != [] { uints := uints[..|uints|-1]; }
        case DoubleV(_) => if doubles != [] { doubles := doubles[..|doubles|-1]; }
        case StrV(_) => if strings != [] { strings := strings[..|strings|-1]; }
      }
      if values != [] { values := values[..|values|-1]; }
    }

    /** Moves the content out, leaving the stack empty. */
    method Take() returns (p: Params)
      requires Valid()
      modifies this
      ensures Valid() && values == [] && p == Sorted(old(values))
    {
      p := Params(ints, uints, doubles, strings);
      ints, uints, doubles, strings := [], [], [], [];
      values := [];
    }
  }

  // ---------- The trie ----------

  class RoutesTrie {
    var nodes: seq<Node>

    constructor ()
      ensures nodes == AddAll([])
    {
      nodes := [EMPTY];
    }

    // ---- Adding ----

    /** Appends a node with no links. */
    method CreateNode() returns (idx: nat)
      modifies this
      ensures idx == |old(nodes)| && nodes == old(nodes) + [EMPTY]
    {
      idx := |nodes|;
      nodes := nodes + [EMPTY];
    }

    /** The child of node `idx` for a token, created if it is missing. */
    method Enter(idx: nat, tok: Token, ghost rest: seq<Token>, ghost names: seq<seq<Token>>)
      returns (child: nat, ghost names': seq<seq<Token>>)
      requires Fresh(nodes, names) && idx < |nodes|
      modifies this
      ensures (nodes, child) == Extend(old(nodes), idx, tok)
      ensures child < |nodes| && Fresh(nodes, names')
      ensures Follow(nodes, child, rest) == Follow(old(nodes), idx, [tok] + rest)
    {
      hide Fresh;
      ghost var before := nodes;
      ExtendFresh(nodes, names, idx, tok);
      names' := ExtendNames(nodes, names, idx, tok);
      assert ([tok] + rest)[1..] == rest;
      child := ChildFor(nodes[idx], tok);
      if child == 0 {
        child := CreateNode();
        nodes := nodes[idx := WithChild(nodes[idx], tok, child)];
        assert nodes == before[idx := WithChild(before[idx], tok, |before|)] + [EMPTY];
      }
    }

    /** Registers a rule; refuses it, changing nothing, if its tokens already have an index. */
    method Add(rule: string, index: nat, ghost names: seq<seq<Token>>) returns (ok: bool)
      requires Fresh(nodes, names)
      modifies this
      ensures ok <==> IndexAt(old(nodes), Tokens(rule)) == 0
      ensures ok ==> Added(old(nodes), Tokens(rule), index) == Some(nodes)
      ensures !ok ==> nodes == old(nodes)
    {
      hide Fresh, IndexAt, Follow;
      ghost var start := nodes;
      ghost var ns := names;
      FreshNonempty(nodes, names);
      var idx: nat, i: nat := 0, 0;
      while i < |rule|
        invariant i <= |rule| && idx < |nodes| && Fresh(nodes, ns)
        invariant Follow(nodes, idx, TokensFrom(rule, i)) == Follow(start, 0, Tokens(rule))
      {
        if rule[i] == '{' {
          var s := 0;
          while s < |SPELLINGS| && !(SPELLINGS[s].1 <= rule[i..])
            invariant s <= |SPELLINGS| && SpellingAt(rule, i, s) == SpellingAt(rule, i, 0)
          {
            s := s + 1;
          }
          if s < |SPELLINGS| {
            idx, ns := Enter(idx, Par(SPELLINGS[s].0), TokensFrom(rule, i + |SPELLINGS[s].1|), ns);
            i := i + |SPELLINGS[s].1|;
          } else {
            i := i + 1;
          }
        } else {
          idx, ns := Enter(idx, Lit(rule[i]), TokensFrom(rule, i + 1), ns);
          i := i + 1;
        }
      }
      FollowEnd(nodes, idx);
      AddDecided(start, names, Tokens(rule), index, nodes, idx);
      ok := nodes[idx].index == 0;
      if ok {
        nodes := nodes[idx := nodes[idx].(index := index)];
      }
    }

    // ---- Optimizing ----

    /** Merges chains and fans of simple children below node `i` into longer fragments.
        `lo` bounds the children from below: it rises with every merge. */
    method OptimizeNode(i: nat, ghost lo: nat, ghost paths: Paths, ghost names: seq<seq<Token>>)
      requires WellFormed(nodes) && i <= lo < |nodes| == |names| && Named(nodes, names)
      requires forall k :: k in nodes[i].children ==> lo < nodes[i].children[k]
      modifies this
      ensures Reworked(old(nodes), nodes) && WellFormed(nodes) && |nodes| == |old(nodes)| && SettledFrom(nodes, i)
      ensures forall j :: 0 <= j < i ==> nodes[j] == old(nodes)[j]
      ensures SettledFrom(old(nodes), i) ==> nodes == old(nodes)
      ensures Named(nodes, names) && Within(old(nodes), nodes, names, names[i])
      ensures Workable(paths, names, old(nodes), i) ==> BlocksFrom(paths, names, nodes, i)
      decreases |nodes| - i, |nodes| - lo
    {
      hide SettledFrom, Reworked, Named, Within, RawFrom, BlocksFrom;
      ghost var start := nodes;
      OptimizeParameters(i, paths, names);
      if nodes[i].children == map[] {
        SettledHere(start, nodes, i);
        BlocksHere(paths, names, start, nodes, i);
        return;
      }
      var merge := ChildrenSimple(i);
      if merge {
        SettledTop(start, i);
        ghost var before := nodes;
        var merged := MergedChildren(i);
        AbsorbReworks(nodes, i, merged);
        MergedIsWellFormed(nodes, i, merged);
        nodes := nodes[i := nodes[i].(children := merged)];
        AbsorbKeepsNames(before, names, i, merged);
        AbsorbWithin(start, before, nodes, names, i);
        if Ready(paths, names, before, i) { AbsorbReady(paths, names, before, nodes, i, merged); }
        ReworkedTransitive(start, before, nodes);
        ghost var mid := nodes;
        OptimizeNode(i, lo + 1, paths, names);
        ReworkedTransitive(start, mid, nodes);
        WithinTransitive(start, mid, nodes, names, names[i]);
      } else {
        ghost var mid := nodes;
        OptimizeChildren(i, paths, names);
        ReworkedTransitive(start, mid, nodes);
        WithinTransitive(start, mid, nodes, names, names[i]);
        SettledSlotsKept(mid, nodes, i);
        SettledHere(mid, nodes, i);
        BlocksHere(paths, names, start, nodes, i);
      }
    }

    method OptimizeParameters(i: nat, ghost paths: Paths, ghost names: seq<seq<Token>>)
      requires WellFormed(nodes) && i < |nodes| == |names| && Named(nodes, names)
      modifies this
      ensures Reworked(old(nodes), nodes) && WellFormed(nodes) && |nodes| == |old(nodes)|
      ensures forall j :: 0 <= j <= i ==> nodes[j] == old(nodes)[j]
      ensures forall s :: 0 <= s < SLOTS && nodes[i].params[s] != 0 ==> SettledFrom(nodes, nodes[i].params[s])
      ensures SettledFrom(old(nodes), i) ==> nodes == old(nodes)
      ensures Named(nodes, names) && Within(old(nodes), nodes, names, names[i])
      ensures Ready(paths, names, old(nodes), i) ==>
                && Ready(paths, names, nodes, i)
                && forall s :: 0 <= s < SLOTS && nodes[i].params[s] != 0 ==>
                     Done(paths, names, nodes, nodes[i].params[s])
      decreases |nodes| - i, 0
    {
      hide SettledFrom, Reworked, Named, Within, RawFrom, BlocksFrom, Done, Ready, Workable, PrefixFree;
      ghost var start := nodes;
      ReworkedReflexive(start);
      WithinNothing(start, names, names[i]);
      for s := 0 to SLOTS
        invariant Reworked(start, nodes) && WellFormed(nodes) && |nodes| == |start|
        invariant forall j :: 0 <= j <= i ==> nodes[j] == start[j]
        invariant forall t :: 0 <= t < s && start[i].params[t] != 0 ==> SettledFrom(nodes, start[i].params[t])
        invariant SettledFrom(start, i) ==> nodes == start
        invariant Named(nodes, names) && Within(start, nodes, names, names[i])
        invariant Ready(paths, names, start, i) ==>
                    && Ready(paths, names, nodes, i)
                    && forall t :: 0 <= t < s && start[i].params[t] != 0 ==>
                         Done(paths, names, nodes, start[i].params[t])
      {
        var x := nodes[i].params[s];
        if x != 0 {
          ghost var before := nodes;
          if SettledFrom(start, i) { SettledParts(start, i); }
          ReadySlot(paths, names, before, i, s);
          OptimizeNode(x, x, paths, names);
          ReworkedTransitive(start, before, nodes);
          SlotWithin(start, before, nodes, names, i, s);
          forall t | 0 <= t < s && start[i].params[t] != 0 ensures SettledFrom(nodes, start[i].params[t]) {
            SettledFromKept(before, nodes, start[i].params[t]);
          }
          if Ready(paths, names, start, i) {
            AfterSlotDone(paths, names, nodes, x);
            ReadyAfterSlot(paths, before, nodes, names, i, s);
          }
        }
      }
    }

    method OptimizeChildren(i: nat, ghost paths: Paths, ghost names: seq<seq<Token>>)
      requires WellFormed(nodes) && i < |nodes| == |names| && Named(nodes, names)
      modifies this
      ensures Reworked(old(nodes), nodes) && WellFormed(nodes) && |nodes| == |old(nodes)|
      ensures forall j :: 0 <= j <= i ==> nodes[j] == old(nodes)[j]
      ensures forall k :: k in nodes[i].children ==> SettledFrom(nodes, nodes[i].children[k])
      ensures SettledFrom(old(nodes), i) ==> nodes == old(nodes)
      ensures Named(nodes, names) && Within(old(nodes), nodes, names, names[i])
      ensures Ready(paths, names, old(nodes), i) ==> forall k :: k in nodes[i].children ==>
                BlocksFrom(paths, names, nodes, nodes[i].children[k])
      ensures forall s ::
                0 <= s < SLOTS && nodes[i].params[s] != 0
                  && BlocksFrom(paths, names, old(nodes), nodes[i].params[s]) ==>
                BlocksFrom(paths, names, nodes, nodes[i].params[s])
      decreases |nodes| - i, 0
    {
      hide SettledFrom, Within, RawFrom, BlocksFrom, Named, Reworked, Ready, Workable, PrefixFree;
      ghost var start := nodes;
      ReadyKids(paths, names, start, i);
      ReworkedReflexive(start);
      WithinNothing(start, names, names[i]);
      var todo := nodes[i].children.Keys;
      while todo != {}
        invariant todo <= start[i].children.Keys
        invariant Reworked(start, nodes) && WellFormed(nodes) && |nodes| == |start|
        invariant forall j :: 0 <= j <= i ==> nodes[j] == start[j]
        invariant forall k :: k in start[i].children && k !in todo ==> SettledFrom(nodes, start[i].children[k])
        invariant SettledFrom(start, i) ==> nodes == start
        invariant Named(nodes, names) && Within(start, nodes, names, names[i])
        invariant Ready(paths, names, start, i) ==> forall k :: k in start[i].children ==>
                    if k in todo then RawFrom(paths, names, nodes, start[i].children[k])
                    else BlocksFrom(paths, names, nodes, start[i].children[k])
        invariant forall s ::
                    0 <= s < SLOTS && start[i].params[s] != 0 && BlocksFrom(paths, names, start, start[i].params[s]) ==>
                    BlocksFrom(paths, names, nodes, start[i].params[s])
        decreases todo
      {
        var k :| k in todo;
        todo := todo - {k};
        ghost var before := nodes;
        var v := nodes[i].children[k];
        RawWorkable(paths, names, before, v);
        if SettledFrom(start, i) { SettledKid(start, i, k); }
        OptimizeNode(v, v, paths, names);
        ReworkedTransitive(start, before, nodes);
        ChildWithin(start, before, nodes, names, i, k);
        forall l | l in start[i].children && l !in todo ensures SettledFrom(nodes, start[i].children[l]) {
          if l != k { SettledFromKept(before, nodes, start[i].children[l]); }
        }
        OthersAfterChild(paths, before, nodes, names, i, k);
      }
    }

    /** Whether all children of node `i` are simple. */
    method ChildrenSimple(i: nat) returns (simple: bool)
      requires WellFormed(nodes) && i < |nodes|
      ensures simple == AllSimple(nodes, nodes[i])
    {
      simple := true;
      var todo := nodes[i].children.Keys;
      while todo != {}
        invariant todo <= nodes[i].children.Keys
        invariant simple ==> forall k :: k in nodes[i].children && k !in todo ==> nodes[nodes[i].children[k]].IsSimple()
        invariant !simple ==> !AllSimple(nodes, nodes[i])
        decreases todo
      {
        var k :| k in todo;
        todo := todo - {k};
        if !nodes[nodes[i].children[k]].IsSimple() {
          simple := false;
          break;
        }
      }
    }

    /** The grandchildren of node `i`, each under its concatenated fragment. */
    method MergedChildren(i: nat) returns (merged: map<string, nat>)
      requires WellFormed(nodes) && i < |nodes|
      ensures Merged(nodes, nodes[i], merged)
    {
      merged := map[];
      ghost var done: set<(string, string)> := {};
      var ks := nodes[i].children.Keys;
      while ks != {}
        invariant ks <= nodes[i].children.Keys
        invariant MergedSoFar(nodes, nodes[i], merged, done)
        invariant forall k, l, v :: Grand(nodes, nodes[i], k, l, v) && k !in ks ==> (k, l) in done
        decreases ks
      {
        var k :| k in ks;
        ks := ks - {k};
        var child := nodes[nodes[i].children[k]];
        var ls := child.children.Keys;
        while ls != {}
          invariant ls <= child.children.Keys
          invariant MergedSoFar(nodes, nodes[i], merged, done)
          invariant forall k', l, v :: Grand(nodes, nodes[i], k', l, v) && k' !in ks && k' != k ==> (k', l) in done
          invariant forall l :: l in child.children && l !in ls ==> (k, l) in done
          decreases ls
        {
          var l :| l in ls;
          ls := ls - {l};
          MergedSoFarStep(nodes, i, merged, done, k, l);
          merged := merged[k + l := child.children[l]];
          done := done + {(k, l)};
        }
      }
    }

    // ---- Relocating ----

    /** Copies the subtree of node `i` to the end of `dst`, rewriting every link on the way. */
    method Gather(dst: seq<Node>, i: nat, ghost src: seq<Node>, ghost names: seq<seq<Token>>, ghost from: seq<nat>)
      returns (dst': seq<Node>, ghost from': seq<nat>)
      requires WellFormed(src) && Named(src, names) && i < |src| == |nodes| && |from| == |dst|
      requires forall y :: y in Below(src, i) ==> nodes[y] == src[y]
      modifies this
      ensures Gathered(src, old(nodes), nodes, i, dst, from, dst', from')
      decreases |src| - i, 1
    {
      hide Halfway, Gathered, Below, WellFormed, Named;
      ghost var start := nodes;
      var at := |dst|;
      dst', from' := dst + [EMPTY], from + [i];
      ghost var done: set<Edge> := {};
      HalfwayStart(src, nodes, i, dst, from);
      var todo := nodes[i].children.Keys;
      while todo != {}
        invariant todo <= src[i].children.Keys && |nodes| == |src|
        invariant Halfway(src, nodes, i, at, dst', from', done)
        invariant forall e :: e in done <==> e.Frag? && e.k in src[i].children && e.k !in todo
        invariant dst + [EMPTY] <= dst' && from + [i] <= from'
        invariant forall y :: 0 <= y < |src| && y !in Below(src, i) ==> nodes[y] == start[y]
        decreases todo
      {
        var k :| k in todo;
        todo := todo - {k};
        dst', from', done := GatherLink(i, Frag(k), at, dst', src, names, from', done);
      }
      for s := 0 to SLOTS
        invariant |nodes| == |src|
        invariant Halfway(src, nodes, i, at, dst', from', done)
        invariant forall e :: e in done <==> HasEdge(src[i], e) && (e.Hole? ==> Slot(e.t) < s)
        invariant dst + [EMPTY] <= dst' && from + [i] <= from'
        invariant forall y :: 0 <= y < |src| && y !in Below(src, i) ==> nodes[y] == start[y]
      {
        HalfwayEdge(src, nodes, i, at, dst', from', done, Hole(TypeAt(s)));
        if nodes[i].params[s] != 0 {
          dst', from', done := GatherLink(i, Hole(TypeAt(s)), at, dst', src, names, from', done);
        }
      }
      assert done == Edges(src[i]);
      GatherEnd(src, start, nodes, i, dst, from, dst', from');
      dst' := dst'[at := nodes[i]];
      nodes := nodes[i := nodes[i].(children := map[])];
    }

    /** Copies the subtree behind one link and points the link at the copy. */
    method GatherLink(i: nat, e: Edge, at: nat, dst: seq<Node>, ghost src: seq<Node>, ghost names: seq<seq<Token>>,
                      ghost from: seq<nat>, ghost done: set<Edge>)
      returns (dst': seq<Node>, ghost from': seq<nat>, ghost done': set<Edge>)
      requires WellFormed(src) && Named(src, names) && i < |src| == |nodes| && HasEdge(src[i], e) && e !in done
      requires Halfway(src, nodes, i, at, dst, from, done)
      modifies this
      ensures done' == done + {e} && Halfway(src, nodes, i, at, dst', from', done')
      ensures dst <= dst' && from <= from' && |nodes| == |src|
      ensures forall y :: 0 <= y < |src| && y !in Below(src, i) ==> nodes[y] == old(nodes)[y]
      decreases |src| - i, 0
    {
      hide Below, Named;
      ghost var before := nodes;
      assert HasEdge(nodes[i], e);
      var idx := |dst|;
      var target := match e case Frag(k) => nodes[i].children[k] case Hole(t) => nodes[i].params[Slot(t)];
      dst', from' := Gather(dst, target, src, names, from);
      HalfwayStep(src, names, before, nodes, i, at, dst, from, dst', from', done, e);
      LinkBelow(src, i, e);
      nodes := nodes[i := WithTarget(nodes[i], e, idx)];
      done' := done + {e};
    }

    /** Merges, then relocates the reachable tree to a vector of its own, every node of which keeps its name.
        A second run merges nothing and keeps the number of nodes. */
    method Optimize(ghost paths: Paths, ghost names: seq<seq<Token>>)
      returns (ghost mid: seq<Node>, ghost from: seq<nat>, ghost names': seq<seq<Token>>)
      requires WellFormed(nodes) && Named(nodes, names)
      modifies this
      ensures Pruned(old(nodes), mid) && Named(mid, names)
      ensures Relocated(mid, nodes, from) && ExactlyBelow(mid, 0, from)
      ensures WellFormed(nodes) && Named(nodes, names') && AllReached(nodes)
      ensures Optimized(old(nodes), nodes) && SettledFrom(nodes, 0)
      ensures Workable(paths, names, old(nodes), 0) ==> BlocksFrom(paths, names', nodes, 0)
      ensures SettledFrom(old(nodes), 0) ==> mid == old(nodes)
      ensures SettledFrom(old(nodes), 0) && AllReached(old(nodes)) ==> |nodes| == |old(nodes)|
    {
      hide Workable, BlocksFrom, AllReached;
      ghost var start := nodes;
      OptimizeNode(0, 0, paths, names);
      mid := nodes;
      var tmp;
      tmp, from := Gather([], 0, mid, names, []);
      nodes := tmp;
      assert from[0..] == from;
      RelocatedIsWellFormed(mid, nodes, from);
      RelocatedSettled(mid, nodes, from, 0);
      MergedAndRelocated(start, mid, nodes, from);
      names' := RelocatedNames(mid, nodes, from, names);
      if BlocksFrom(paths, names, mid, 0) { RelocatedBlocks(paths, names, names', mid, nodes, from, 0); }
      RelocatedReached(mid, nodes, from);
      if AllReached(mid) { RelocatedWhole(mid, nodes, from); }
    }

    /** Refuses a trie whose root is not simple; otherwise optimizes. */
    method Validate(ghost paths: Paths, ghost names: seq<seq<Token>>) returns (ok: bool, ghost names': seq<seq<Token>>)
      requires WellFormed(nodes) && Named(nodes, names)
      modifies this
      ensures ok == old(nodes)[0].IsSimple()
      ensures WellFormed(nodes) && Named(nodes, names')
      ensures if ok then Optimized(old(nodes), nodes) && SettledFrom(nodes, 0) && AllReached(nodes)
              else nodes == old(nodes)
      ensures ok && Workable(paths, names, old(nodes), 0) ==> BlocksFrom(paths, names', nodes, 0)
    {
      ok := nodes[0].IsSimple();
      names' := names;
      if ok {
        var _, _, renamed := Optimize(paths, names);
        names' := renamed;
      }
    }

    // ---- Search ----

    /** The search state, as the program holds it. */
    ghost predicate Holding(s: State, found: nat, matched: Params, params: ParamStack)
      reads params
    {
      params.Valid() && params.values == s.stack && found == s.found && (found != 0 ==> matched == Sorted(s.matched))
    }

    /** Searches from node `i` and URL position `pos`, with the shared parameter stack. */
    method Find(sc: Scanners, url: string, i: nat, pos: nat, params: ParamStack)
      returns (found: nat, matched: Params)
      requires WellFormed(nodes) && i < |nodes| && pos <= |url| && params.Valid()
      modifies params
      ensures Holding(NodeState(sc, nodes, i, url, pos, old(params.values)), found, matched, params)
      decreases |url| - pos, 1
    {
      hide NodeState, SlotState;
      ghost var st := params.values;
      if pos == |url| {
        EndState(sc, nodes, i, url, st);
        found := nodes[i].index;
        matched := params.Take();
        return;
      }
      StartState(sc, nodes, i, url, pos, st);
      found, matched := 0, NO_PARAMS;
      found, matched := TryParameter(sc, url, i, pos, params, Int, found, matched, st);
      found, matched := TryParameter(sc, url, i, pos, params, Uint, found, matched, st);
      found, matched := TryParameter(sc, url, i, pos, params, Double, found, matched, st);
      found, matched := TryParameter(sc, url, i, pos, params, String, found, matched, st);
      found, matched := TryParameter(sc, url, i, pos, params, Path, found, matched, st);
      found, matched := TryFragments(sc, url, i, pos, params, found, matched, st);
    }

    /** One parameter branch: consume, push, search below, keep the better result, pop. */
    method TryParameter(sc: Scanners, url: string, i: nat, pos: nat, params: ParamStack, t: ParamType,
                        found: nat, matched: Params, ghost st: seq<Value>)
      returns (found': nat, matched': Params)
      requires WellFormed(nodes) && i < |nodes| && pos < |url|
      requires Holding(SlotState(sc, nodes, i, url, pos, Slot(t), st), found, matched, params)
      modifies params
      ensures Holding(SlotState(sc, nodes, i, url, pos, Slot(t) + 1, st), found', matched', params)
      decreases |url| - pos, 0
    {
      hide NodeState, SlotState;
      found', matched' := found, matched;
      ParameterBranch(sc, nodes, i, url, pos, Slot(t), st);
      assert TypeAt(Slot(t)) == t;
      var child := nodes[i].params[Slot(t)];
      if child != 0 {
        var c := Consume(sc, t, url, pos);
        if c.Some? {
          var (next, v) := c.value;
          params.Push(v);
          NodeStack(sc, nodes, child, url, next, params.values);
          var below, deep := Find(sc, url, child, next, params);
          if Better(found, below) {
            found', matched' := below, deep;
          }
          params.Pop(v);
        }
      }
    }

    /** The literal branches, in whatever order the children come: at most one can match. */
    method TryFragments(sc: Scanners, url: string, i: nat, pos: nat, params: ParamStack,
                        found: nat, matched: Params, ghost st: seq<Value>)
      returns (found': nat, matched': Params)
      requires WellFormed(nodes) && i < |nodes| && pos < |url|
      requires Holding(SlotState(sc, nodes, i, url, pos, SLOTS, st), found, matched, params)
      modifies params
      ensures Holding(NodeState(sc, nodes, i, url, pos, st), found', matched', params)
      decreases |url| - pos, 0
    {
      hide NodeState, SlotState;
      found', matched' := found, matched;
      ghost var fit := FittingFragment(nodes[i], Lits(url[pos..]));
      if fit.None? { NoFragmentBranch(sc, nodes, i, url, pos, st); }
      var todo := nodes[i].children.Keys;
      while todo != {}
        invariant todo <= nodes[i].children.Keys
        invariant fit.Some? && fit.value !in todo ==>
                    Holding(NodeState(sc, nodes, i, url, pos, st), found', matched', params)
        invariant fit.None? || fit.value in todo ==>
                    Holding(SlotState(sc, nodes, i, url, pos, SLOTS, st), found', matched', params)
        decreases todo
      {
        var k :| k in todo;
        todo := todo - {k};
        LitsStart(k, url[pos..]);
        if k <= url[pos..] {
          assert Fits(nodes[i], k, Lits(url[pos..]));
          FitsUnique(nodes[i], k, fit.value, Lits(url[pos..]));
          FragmentBranch(sc, nodes, i, url, pos, st, k);
          NodeStack(sc, nodes, nodes[i].children[k], url, pos + |k|, params.values);
          var below, deep := Find(sc, url, nodes[i].children[k], pos + |k|, params);
          if Better(found', below) {
            found', matched' := below, deep;
          }
        }
      }
    }

    /** The public search: the best index for the URL and the parameters handed over with it. */
    method FindRoute(sc: Scanners, url: string) returns (found: nat, matched: Params)
      requires WellFormed(nodes)
      ensures found == Answer(sc, nodes, url)
      ensures found != 0 ==> Winner(sc, nodes, url).Some? && matched == Sorted(Handed(sc, nodes, url))
    {
      var params := new ParamStack();
      found, matched := Find(sc, url, 0, 0, params);
    }
  }
}
