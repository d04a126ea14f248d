/**
 What the search answers, stated over the rules alone; that merging and relocation keep the
 answer; and exactly when the decoded parameters handed over with it are complete.
 */
module TrieTheorems {
  import opened Options
  import opened RouteRules
  import opened TrieNodes
  import opened TrieMerge
  import opened TrieRelocate
  import opened TrieInsert
  import opened TrieSearch

  ghost function Found(sc: Scanners, nodes: seq<Node>, url: string): seq<Leaf>
    requires WellFormed(nodes)
  {
    Leaves(sc, nodes, 0, url, 0)
  }

  /** The index the search returns. */
  ghost function Answer(sc: Scanners, nodes: seq<Node>, url: string): nat
    requires WellFormed(nodes)
  {
    BestIndex(Found(sc, nodes, url))
  }

  /** The search answers with the least index among the matching rules, and 0 if none matches. */
  lemma SearchIsBest(sc: Scanners, nodes: seq<Node>, rules: Rules, url: string)
    requires Holds(nodes, rules)
    ensures IsBest(sc, rules, url, Answer(sc, nodes, url))
  {
    var ls := Found(sc, nodes, url);
    BestOfLeast(ls, |ls|);
    var b := BestOf(ls, |ls|);
    if b.Some? {
      LeavesSound(sc, nodes, 0, url, 0, b.value);
      var p := ls[b.value].path;
      assert Stored(nodes, 0, p) == ls[b.value].index;
      assert p in rules && Matches(sc, p, url);
    }
    forall p | p in rules && rules[p] != 0 && Matches(sc, p, url)
      ensures Answer(sc, nodes, url) != 0 && Answer(sc, nodes, url) <= rules[p]
    {
      assert Stored(nodes, 0, p) == rules[p];
      var j := LeavesComplete(sc, nodes, 0, url, 0, p);
      LeavesSound(sc, nodes, 0, url, 0, j);
    }
  }

  /** The specification determines the answer. */
  lemma BestIsUnique(sc: Scanners, rules: Rules, url: string, r: nat, s: nat)
    requires IsBest(sc, rules, url, r) && IsBest(sc, rules, url, s)
    ensures r == s
  {
    if r != 0 {
      var p :| p in rules && rules[p] == r && Matches(sc, p, url);
    }
    if s != 0 {
      var q :| q in rules && rules[q] == s && Matches(sc, q, url);
    }
  }

  // ---------- Optimized tries ----------

  /** `after` stores what `before` stores and has no path that `before` lacks; a path that is gone stored
      nothing and no parameter followed it. */
  ghost predicate Optimized(before: seq<Node>, after: seq<Node>) {
    && WellFormed(before) && WellFormed(after)
    && forall p :: KeptOrGone(before, after, p)
  }

  ghost predicate KeptOrGone(before: seq<Node>, after: seq<Node>, p: seq<Token>)
    requires WellFormed(before) && WellFormed(after)
  {
    var b, a := Lookup(before, 0, p), Lookup(after, 0, p);
    a == b || (a.None? && b == Some(0) && forall t :: Lookup(before, 0, p + [Par(t)]).None?)
  }

  /** Merging followed by relocation optimizes. */
  lemma MergedAndRelocated(before: seq<Node>, mid: seq<Node>, after: seq<Node>, from: seq<nat>)
    requires Pruned(before, mid) && Relocated(mid, after, from)
    ensures Optimized(before, after)
  {
    RelocatedIsWellFormed(mid, after, from);
    forall p ensures KeptOrGone(before, after, p) {
      assert PrunedAt(before, mid, 0, p);
      RelocatedLookup(mid, after, from, p);
      forall t
        ensures Walk(before, 0, p).Some? && before[Walk(before, 0, p).value].IsSimple() ==>
                  Walk(before, 0, p + [Par(t)]).None?
      {
        WalkParameter(before, 0, p, t);
      }
    }
  }

  lemma OptimizedHolds(before: seq<Node>, after: seq<Node>, rules: Rules)
    requires Optimized(before, after) && Holds(before, rules)
    ensures Holds(after, rules)
  {
    forall p ensures Stored(after, 0, p) == if p in rules then rules[p] else 0 {
      assert Stored(before, 0, p) == if p in rules then rules[p] else 0;
      assert KeptOrGone(before, after, p);
    }
  }

  /** The kept leaf: the best answer's parse, if there is an answer. */
  ghost function Winner(sc: Scanners, nodes: seq<Node>, url: string): (b: Option<nat>)
    requires WellFormed(nodes)
    ensures b.Some? ==> b.value < |Found(sc, nodes, url)|
  {
    BestOf(Found(sc, nodes, url), |Found(sc, nodes, url)|)
  }

  lemma KeptTransfers(sc: Scanners, a: seq<Node>, b: seq<Node>, url: string) returns (j: nat)
    requires WellFormed(a) && WellFormed(b) && Winner(sc, a, url).Some?
    requires forall p :: Stored(a, 0, p) == Stored(b, 0, p)
    ensures j < |Found(sc, b, url)| && Found(sc, b, url)[j] == Found(sc, a, url)[Winner(sc, a, url).value]
  {
    var k := Winner(sc, a, url).value;
    LeavesSound(sc, a, 0, url, 0, k);
    var p := Found(sc, a, url)[k].path;
    assert Stored(b, 0, p) == Stored(a, 0, p) != 0;
    j := LeavesComplete(sc, b, 0, url, 0, p);
    LeavesSound(sc, b, 0, url, 0, j);
  }

  /** Optimizing keeps the answer to every URL and the parse it rests on: same index, path and values. */
  lemma OptimizeKeepsAnswer(sc: Scanners, before: seq<Node>, after: seq<Node>, url: string)
    requires Optimized(before, after)
    ensures Answer(sc, before, url) == Answer(sc, after, url)
    ensures var k, k' := Winner(sc, before, url), Winner(sc, after, url);
            && k.Some? == k'.Some?
            && (k.Some? ==> Found(sc, before, url)[k.value] == Found(sc, after, url)[k'.value])
  {
    forall p ensures Stored(before, 0, p) == Stored(after, 0, p) {
      assert KeptOrGone(before, after, p);
    }
    var ls, ls' := Found(sc, before, url), Found(sc, after, url);
    BestOfLeast(ls, |ls|);
    BestOfLeast(ls', |ls'|);
    var k, k' := Winner(sc, before, url), Winner(sc, after, url);
    if k.Some? {
      var j' := KeptTransfers(sc, before, after, url);
      var j := KeptTransfers(sc, after, before, url);
      assert ls[k.value].index == ls'[k'.value].index;
      if j' != k'.value {
        LeavesOrdered(sc, after, 0, url, 0, k'.value, j');
        assert Before(ls'[k'.value].path, ls'[j'].path);
        if j > k.value {
          LeavesOrdered(sc, before, 0, url, 0, k.value, j);
          BeforeAsymmetric(ls[k.value].path, ls[j].path);
        }
      }
    } else if k'.Some? {
      var j := KeptTransfers(sc, after, before, url);
    }
  }

  // ---------- When the handed-over parameters are complete ----------

  /** The values handed over with the answer. */
  ghost function Handed(sc: Scanners, nodes: seq<Node>, url: string): seq<Value>
    requires WellFormed(nodes) && Winner(sc, nodes, url).Some?
  {
    Delivered(Found(sc, nodes, url), [], Winner(sc, nodes, url).value)
  }

  /** Another path of the trie consumes the URL too, is tried first, and shares a parameter with `p`. */
  ghost predicate Robs(sc: Scanners, nodes: seq<Node>, url: string, q: seq<Token>, p: seq<Token>)
    requires WellFormed(nodes)
  {
    Walk(nodes, 0, q).Some? && Matches(sc, q, url) && Before(q, p) && SharedParams(q, p) > 0
  }

  lemma {:induction false} SharedMonotone(p: seq<Token>, q: seq<Token>, r: seq<Token>)
    requires Before(p, q) && Before(q, r)
    ensures SharedParams(p, r) <= SharedParams(q, r)
    decreases |p|
  {
    if p[0] == r[0] {
      assert q[0] == p[0];
      SharedMonotone(p[1..], q[1..], r[1..]);
    }
  }

  lemma {:induction false} SharedAtMostValues(sc: Scanners, q: seq<Token>, p: seq<Token>, url: string, pos: nat)
    requires pos <= |url| && Decode(sc, p, url, pos).Some?
    ensures SharedParams(q, p) <= |Decode(sc, p, url, pos).value|
    decreases |p|
  {
    if p != [] && q != [] && p[0] == q[0] {
      match p[0]
      case Lit(c) => SharedAtMostValues(sc, q[1..], p[1..], url, pos + 1);
      case Par(t) => SharedAtMostValues(sc, q[1..], p[1..], url, Consume(sc, t, url, pos).value.0);
    }
  }

  /** A robbing path is met before the winner, and the leaf met last before it shares at least as much. */
  lemma RobbedByPrevious(sc: Scanners, nodes: seq<Node>, url: string, k: nat, q: seq<Token>)
    requires WellFormed(nodes) && k < |Found(sc, nodes, url)|
    requires Robs(sc, nodes, url, q, Found(sc, nodes, url)[k].path)
    ensures k > 0
    ensures SharedParams(q, Found(sc, nodes, url)[k].path) <=
            SharedParams(Found(sc, nodes, url)[k-1].path, Found(sc, nodes, url)[k].path)
  {
    var ls := Found(sc, nodes, url);
    var p := ls[k].path;
    var j := LeavesComplete(sc, nodes, 0, url, 0, q);
    BeforeAsymmetric(q, p);
    if k < j { LeavesOrdered(sc, nodes, 0, url, 0, k, j); }
    assert j < k;
    if j < k - 1 {
      LeavesOrdered(sc, nodes, 0, url, 0, j, k - 1);
      LeavesOrdered(sc, nodes, 0, url, 0, k - 1, k);
      SharedMonotone(q, ls[k-1].path, p);
    }
  }

  lemma PreviousRobs(sc: Scanners, nodes: seq<Node>, url: string, k: nat)
    requires WellFormed(nodes) && 0 < k < |Found(sc, nodes, url)|
    requires SharedParams(Found(sc, nodes, url)[k-1].path, Found(sc, nodes, url)[k].path) > 0
    ensures Robs(sc, nodes, url, Found(sc, nodes, url)[k-1].path, Found(sc, nodes, url)[k].path)
  {
    LeavesSound(sc, nodes, 0, url, 0, k - 1);
    LeavesOrdered(sc, nodes, 0, url, 0, k - 1, k);
  }

  lemma DeliveredWhole(ls: seq<Leaf>, k: nat)
    requires k < |ls| && (k > 0 ==> SharedParams(ls[k-1].path, ls[k].path) <= |ls[k].vals|)
    ensures Delivered(ls, [], k) == ls[k].vals <==> k == 0 || SharedParams(ls[k-1].path, ls[k].path) == 0
  {
    assert [] + ls[0].vals == ls[0].vals;
  }

  lemma HandedComplete(sc: Scanners, nodes: seq<Node>, url: string, k: nat)
    requires WellFormed(nodes) && k < |Found(sc, nodes, url)|
    ensures var ls := Found(sc, nodes, url);
            Delivered(ls, [], k) == ls[k].vals <==> k == 0 || SharedParams(ls[k-1].path, ls[k].path) == 0
  {
    var ls := Found(sc, nodes, url);
    LeavesSound(sc, nodes, 0, url, 0, k);
    if k > 0 { SharedAtMostValues(sc, ls[k-1].path, ls[k].path, url, 0); }
    DeliveredWhole(ls, k);
  }

  /** The handed-over parameters are exactly the decoded ones if and only if no earlier-tried
      complete path shares a parameter with the winning one. */
  lemma HandedCompleteIff(sc: Scanners, nodes: seq<Node>, url: string)
    requires WellFormed(nodes) && Winner(sc, nodes, url).Some?
    ensures var leaf := Found(sc, nodes, url)[Winner(sc, nodes, url).value];
            Handed(sc, nodes, url) == leaf.vals <==> !exists q :: Robs(sc, nodes, url, q, leaf.path)
  {
    var k := Winner(sc, nodes, url).value;
    HandedComplete(sc, nodes, url, k);
    if q :| Robs(sc, nodes, url, q, Found(sc, nodes, url)[k].path) {
      RobbedByPrevious(sc, nodes, url, k, q);
    } else if k > 0 && SharedParams(Found(sc, nodes, url)[k-1].path, Found(sc, nodes, url)[k].path) > 0 {
      PreviousRobs(sc, nodes, url, k);
      assert false;
    }
  }

  /** Optimizing never spoils parameters: if they were complete before, they are complete after. */
  lemma OptimizeKeepsHanded(sc: Scanners, before: seq<Node>, after: seq<Node>, url: string)
    requires Optimized(before, after) && Winner(sc, before, url).Some?
    requires Handed(sc, before, url) == Found(sc, before, url)[Winner(sc, before, url).value].vals
    ensures Winner(sc, after, url).Some? && Handed(sc, after, url) == Handed(sc, before, url)
  {
    OptimizeKeepsAnswer(sc, before, after, url);
    HandedCompleteIff(sc, before, url);
    HandedCompleteIff(sc, after, url);
    var p := Found(sc, before, url)[Winner(sc, before, url).value].path;
    forall q | Robs(sc, after, url, q, p) ensures Robs(sc, before, url, q, p) {
      assert KeptOrGone(before, after, q);
    }
  }

  // ---------- From the rule texts ----------

  /** For every run of additions and every URL: the search, before or after optimizing, answers
      with the least index among the run's rules that match, and 0 if none does. */
  lemma RoutesAnswer(sc: Scanners, adds: seq<Addition>, after: seq<Node>, url: string)
    requires Optimized(AddAll(adds), after)
    ensures IsBest(sc, RulesOf(adds), url, Answer(sc, AddAll(adds), url))
    ensures Answer(sc, after, url) == Answer(sc, AddAll(adds), url)
  {
    var names := AddAllHolds(adds);
    SearchIsBest(sc, AddAll(adds), RulesOf(adds), url);
    OptimizeKeepsAnswer(sc, AddAll(adds), after, url);
  }

  /** Rule `p` wins: it matches, no matching rule has a smaller index, and of those with the same index it is
      tried first. */
  ghost predicate Wins(sc: Scanners, rules: Rules, url: string, p: seq<Token>) {
    && p in rules && rules[p] != 0 && Matches(sc, p, url)
    && forall q :: q in rules && q != p && rules[q] != 0 && Matches(sc, q, url) ==> Beats(rules, p, q)
  }

  ghost predicate Beats(rules: Rules, p: seq<Token>, q: seq<Token>)
    requires p in rules && q in rules
  {
    rules[p] < rules[q] || (rules[p] == rules[q] && Before(p, q))
  }

  lemma WinnerWins(sc: Scanners, nodes: seq<Node>, rules: Rules, url: string)
    requires Holds(nodes, rules) && Winner(sc, nodes, url).Some?
    ensures var leaf := Found(sc, nodes, url)[Winner(sc, nodes, url).value];
            Wins(sc, rules, url, leaf.path) && Decode(sc, leaf.path, url, 0) == Some(leaf.vals)
  {
    hide WellFormed, Decode, Before, Leaves;
    var ls := Found(sc, nodes, url);
    var k := Winner(sc, nodes, url).value;
    BestOfLeast(ls, |ls|);
    WinnerIsRule(sc, nodes, rules, url);
    var p := ls[k].path;
    forall q | q in rules && q != p && rules[q] != 0 && Matches(sc, q, url) ensures Beats(rules, p, q) {
      assert Stored(nodes, 0, q) == rules[q];
      var j := LeavesComplete(sc, nodes, 0, url, 0, q);
      LeavesSound(sc, nodes, 0, url, 0, j);
      if j > k { LeavesOrdered(sc, nodes, 0, url, 0, k, j); }
    }
  }

  lemma OneWins(sc: Scanners, rules: Rules, url: string, p: seq<Token>, q: seq<Token>)
    requires Wins(sc, rules, url, p) && Wins(sc, rules, url, q)
    ensures p == q
  {
    hide Decode, Before;
    assert p == q || (Beats(rules, p, q) && Beats(rules, q, p));
    if Before(p, q) { BeforeAsymmetric(p, q); }
  }

  /** The search finds the winning rule, whichever it is. */
  lemma WinsIff(sc: Scanners, nodes: seq<Node>, rules: Rules, url: string, p: seq<Token>)
    requires Holds(nodes, rules)
    ensures Wins(sc, rules, url, p) <==>
              Winner(sc, nodes, url).Some? && Found(sc, nodes, url)[Winner(sc, nodes, url).value].path == p
  {
    hide WellFormed, Decode, Before, Leaves;
    var ls := Found(sc, nodes, url);
    if Wins(sc, rules, url, p) {
      BestOfLeast(ls, |ls|);
      assert Stored(nodes, 0, p) == rules[p];
      var j := LeavesComplete(sc, nodes, 0, url, 0, p);
      LeavesSound(sc, nodes, 0, url, 0, j);
    }
    if Winner(sc, nodes, url).Some? {
      WinnerWins(sc, nodes, rules, url);
      var q := ls[Winner(sc, nodes, url).value].path;
      if Wins(sc, rules, url, p) { OneWins(sc, rules, url, p, q); }
    }
  }

  /** Before optimizing, the parameters of the winning rule are handed over whole exactly when no path that
      some rule begins with consumes the URL, is tried first and shares a parameter with it. */
  lemma RoutesHandedIff(sc: Scanners, adds: seq<Addition>, url: string, p: seq<Token>)
    requires Wins(sc, RulesOf(adds), url, p)
    ensures WellFormed(AddAll(adds)) && Winner(sc, AddAll(adds), url).Some? && Decode(sc, p, url, 0).Some?
    ensures Handed(sc, AddAll(adds), url) == Decode(sc, p, url, 0).value <==>
            !exists q :: Leads(RulesOf(adds), q) && Matches(sc, q, url) && Before(q, p) && SharedParams(q, p) > 0
  {
    hide Found, Winner, Handed, AddAll, RulesOf, WellFormed, Decode, Before, SharedParams, Leads;
    var names := AddAllHolds(adds);
    WinsIff(sc, AddAll(adds), RulesOf(adds), url, p);
    WinnerWins(sc, AddAll(adds), RulesOf(adds), url);
    WinnerHandedIff(sc, adds, url);
  }

  lemma WinnerHandedIff(sc: Scanners, adds: seq<Addition>, url: string)
    requires WellFormed(AddAll(adds)) && Winner(sc, AddAll(adds), url).Some?
    ensures var leaf := Found(sc, AddAll(adds), url)[Winner(sc, AddAll(adds), url).value];
            Handed(sc, AddAll(adds), url) == leaf.vals <==>
            !exists q ::
              Leads(RulesOf(adds), q) && Matches(sc, q, url) && Before(q, leaf.path) && SharedParams(q, leaf.path) > 0
  {
    var names := AddAllHolds(adds);
    HandedCompleteIff(sc, AddAll(adds), url);
    var p := Found(sc, AddAll(adds), url)[Winner(sc, AddAll(adds), url).value].path;
    forall q ensures Robs(sc, AddAll(adds), url, q, p) <==>
      Leads(RulesOf(adds), q) && Matches(sc, q, url) && Before(q, p) && SharedParams(q, p) > 0
    {
    }
  }

  // ---------- Complete parameters are not guaranteed ----------

  lemma RobbedTokens()
    ensures Tokens("{int}/{str}") == [Par(Int), Lit('/'), Par(String)]
    ensures Tokens("{int}/a") == [Par(Int), Lit('/'), Lit('a')]
  {
    var r := "{int}/{str}";
    assert r[6..] == "{str}" && SPELLINGS[4].1 <= r[6..];
    assert r[6..][1] == 's';
    assert SPELLINGS[0].1[1] == 'i' && SPELLINGS[1].1[1] == 'u' && SPELLINGS[2].1[1] == 'f' && SPELLINGS[3].1[1] == 'd';
    assert SpellingAt(r, 6, 3) == Some(4) && SpellingAt(r, 6, 1) == Some(4);
    assert SpellingAt(r, 6, 0) == Some(4);
    assert SPELLINGS[0].1 <= r[0..] && SpellingAt(r, 0, 0) == Some(0);
    assert TokensFrom(r, 11) == [];
    assert TokensFrom(r, 6) == [Par(String)];
    assert TokensFrom(r, 5) == [Lit('/')] + TokensFrom(r, 6);
    var s := "{int}/a";
    assert SPELLINGS[0].1 <= s[0..] && SpellingAt(s, 0, 0) == Some(0);
    assert TokensFrom(s, 7) == [];
    assert TokensFrom(s, 6) == [Lit('a')];
    assert TokensFrom(s, 5) == [Lit('/')] + TokensFrom(s, 6);
  }

  /** What is lost at `5/a`: the route `{int}/a` answers, and without its integer. */
  ghost predicate LosesInteger(sc: Scanners, nodes: seq<Node>) {
    && WellFormed(nodes)
    && Answer(sc, nodes, "5/a") == 1
    && Winner(sc, nodes, "5/a").Some?
    && Found(sc, nodes, "5/a")[Winner(sc, nodes, "5/a").value].vals == [IntV(5)]
    && Handed(sc, nodes, "5/a") != [IntV(5)]
  }

  /** With `{int}/{str}` registered second-best, the route `{int}/a` answers `5/a` without its integer, before
      optimizing and after it. */
  lemma ParametersCanBeLost(sc: Scanners, after: seq<Node>)
    requires sc.toInt("5/a", 0) == Some((1, IntV(5)))
    requires Optimized(AddAll([Addition("{int}/{str}", 2), Addition("{int}/a", 1)]), after)
    ensures LosesInteger(sc, AddAll([Addition("{int}/{str}", 2), Addition("{int}/a", 1)]))
    ensures LosesInteger(sc, after)
  {
    hide LosesInteger, AddAll, RulesOf, Optimized;
    var adds := [Addition("{int}/{str}", 2), Addition("{int}/a", 1)];
    var _ := AddAllHolds(adds);
    RobbedRules(adds);
    OptimizedHolds(AddAll(adds), after, RulesOf(adds));
    IntegerLost(sc, AddAll(adds));
    IntegerLost(sc, after);
  }

  lemma IntegerLost(sc: Scanners, nodes: seq<Node>)
    requires sc.toInt("5/a", 0) == Some((1, IntV(5)))
    requires Holds(nodes, map[[Par(Int), Lit('/'), Par(String)] := 2, [Par(Int), Lit('/'), Lit('a')] := 1])
    ensures LosesInteger(sc, nodes)
  {
    hide Found, Winner, Handed, Answer, Decode, Before, SharedParams, Walk;
    var q, p := [Par(Int), Lit('/'), Par(String)], [Par(Int), Lit('/'), Lit('a')];
    assert q[2] != p[2];
    RobbedDecodes(sc, "5/a");
    RobbedOrder();
    RobbedWinner(sc, nodes, q, p, "5/a");
    HandedCompleteIff(sc, nodes, "5/a");
    assert Stored(nodes, 0, q) == 2;
    assert Robs(sc, nodes, "5/a", q, p);
  }

  lemma RobbedWinner(sc: Scanners, nodes: seq<Node>, q: seq<Token>, p: seq<Token>, url: string)
    requires p != q && Holds(nodes, map[q := 2, p := 1]) && Decode(sc, p, url, 0).Some?
    ensures Answer(sc, nodes, url) == 1 && Winner(sc, nodes, url).Some?
    ensures var leaf := Found(sc, nodes, url)[Winner(sc, nodes, url).value];
            leaf.path == p && Decode(sc, p, url, 0) == Some(leaf.vals)
  {
    hide Found, Winner, Handed, Answer, WellFormed, Decode;
    var rules := map[q := 2, p := 1];
    assert p in rules && Matches(sc, p, url);
    assert IsBest(sc, rules, url, 1);
    SearchIsBest(sc, nodes, rules, url);
    BestIsUnique(sc, rules, url, Answer(sc, nodes, url), 1);
    WinnerIsRule(sc, nodes, rules, url);
  }

  lemma RobbedRules(adds: seq<Addition>)
    requires adds == [Addition("{int}/{str}", 2), Addition("{int}/a", 1)]
    ensures RulesOf(adds) == map[[Par(Int), Lit('/'), Par(String)] := 2, [Par(Int), Lit('/'), Lit('a')] := 1]
  {
    RobbedTokens();
    assert adds[..1] == [adds[0]] && adds[..1][..0] == [];
    assert [Par(Int), Lit('/'), Par(String)][2] != [Par(Int), Lit('/'), Lit('a')][2];
    assert RulesOf(adds[..1]) == map[[Par(Int), Lit('/'), Par(String)] := 2];
  }

  lemma RobbedOrder()
    ensures var q, p := [Par(Int), Lit('/'), Par(String)], [Par(Int), Lit('/'), Lit('a')];
            Before(q, p) && SharedParams(q, p) > 0
  {
    var q, p := [Par(Int), Lit('/'), Par(String)], [Par(Int), Lit('/'), Lit('a')];
    assert p[1..][1..] == [Lit('a')] && q[1..][1..] == [Par(String)];
    assert p[1..][0] == q[1..][0] == Lit('/');
    assert Before(q[1..][1..], p[1..][1..]);
  }

  lemma RobbedDecodes(sc: Scanners, url: string)
    requires url == "5/a" && sc.toInt("5/a", 0) == Some((1, IntV(5)))
    ensures Decode(sc, [Par(Int), Lit('/'), Par(String)], url, 0) == Some([IntV(5), StrV("a")])
    ensures Decode(sc, [Par(Int), Lit('/'), Lit('a')], url, 0) == Some([IntV(5)])
  {
    assert Decode(sc, [], url, 3) == Some([]);
    assert SegmentEnd(url, 3) == 3 && SegmentEnd(url, 2) == 3 && url[2..3] == "a";
    var q, p := [Par(Int), Lit('/'), Par(String)], [Par(Int), Lit('/'), Lit('a')];
    assert q[1..] == [Lit('/'), Par(String)] && q[1..][1..] == [Par(String)] && q[1..][1..][1..] == [];
    assert p[1..] == [Lit('/'), Lit('a')] && p[1..][1..] == [Lit('a')] && p[1..][1..][1..] == [];
    assert Decode(sc, q[1..][1..][1..], url, 3) == Some([]) && Consume(sc, String, url, 2) == Some((3, StrV("a")));
    assert [StrV("a")] + [] == [StrV("a")];
    assert Decode(sc, q[1..][1..], url, 2) == Some([StrV("a")]);
    assert Decode(sc, p[1..][1..], url, 2) == Some([]);
    assert Decode(sc, q[1..], url, 1) == Some([StrV("a")]);
    assert Decode(sc, p[1..], url, 1) == Some([]);
    assert Consume(sc, Int, url, 0) == Some((1, IntV(5)));
    assert [IntV(5)] + [] == [IntV(5)] && [IntV(5)] + [StrV("a")] == [IntV(5), StrV("a")];
  }

  /** A nonzero answer comes from a registered rule that matches. */
  lemma WinnerIsRule(sc: Scanners, nodes: seq<Node>, rules: Rules, url: string)
    requires Holds(nodes, rules) && Answer(sc, nodes, url) != 0
    ensures Winner(sc, nodes, url).Some?
    ensures var leaf := Found(sc, nodes, url)[Winner(sc, nodes, url).value];
            && leaf.path in rules && rules[leaf.path] == leaf.index == Answer(sc, nodes, url)
            && Decode(sc, leaf.path, url, 0) == Some(leaf.vals)
  {
    var k := Winner(sc, nodes, url).value;
    LeavesSound(sc, nodes, 0, url, 0, k);
    assert Stored(nodes, 0, Found(sc, nodes, url)[k].path) == Found(sc, nodes, url)[k].index;
  }
}
