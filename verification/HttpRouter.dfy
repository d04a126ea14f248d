/** The router over the trie: it numbers the registered rules, adds each of them to the trie, and an entry for its
    missing trailing slash, and selects the rule of a request. */
module HttpRouter {
  import opened Options
  import opened RouteRules
  import opened TrieNodes
  import opened TrieMerge
  import opened TrieRelocate
  import opened TrieInsert
  import opened TrieBlocks
  import opened TrieSearch
  import opened TrieTheorems
  import opened TrieSurvivors
  import opened RouteTrie

  /** The index of entries for a missing trailing slash. */
  const REDIRECT: nat := 1

  /** The rule table starts with this many empty slots. */
  const RESERVED: nat := 2

  const FILE_ROUTE: string := "/1b7647618ea63937daae8ebb903e9175"

  datatype Rule = Rule(text: string, enabled: bool)

  datatype Selection =
    | Selected(index: nat, params: Params)
    | NotFound
    | SystemError
    | EmptySlot            // the answer is the index of a slot that holds no rule

  /** The first `n` characters; asking for none gives all. */
  function Front(s: string, n: nat): string
    requires n <= |s|
  {
    if n == 0 then s else s[..n]
  }

  predicate EndsWithSlash(text: string) { text != "" && text[|text| - 1] == '/' }

  function WithoutSlash(text: string): string
    requires EndsWithSlash(text)
  {
    Front(text, |text| - 1)
  }

  // ---------- What a run of registrations adds ----------

  /** An index is stored under the tokens. */
  ghost predicate Taken(texts: seq<string>, p: seq<Token>) { IndexOf(RulesOf(Attempts(texts)), p) != 0 }

  /** The additions attempted for the rule texts in turn: each with the index of its slot, and unless that was
      refused, one more for a trailing slash. */
  ghost function Attempts(texts: seq<string>): seq<Addition>
    decreases |texts|
  {
    if texts == [] then []
    else
      var before, text := texts[..|texts| - 1], texts[|texts| - 1];
      var own := Attempts(before) + [Addition(text, |texts| + 1)];
      if IndexOf(RulesOf(Attempts(before)), Tokens(text)) == 0 && EndsWithSlash(text)
      then own + [Addition(WithoutSlash(text), REDIRECT)]
      else own
  }

  /** The `i`-th text has left an entry for its missing trailing slash: neither the text nor the text without the
      slash was there before, and they are different. */
  ghost predicate SlashEntry(texts: seq<string>, i: nat) {
    && i < |texts| && EndsWithSlash(texts[i])
    && !Taken(texts[..i], Tokens(texts[i])) && !Taken(texts[..i], Tokens(WithoutSlash(texts[i])))
    && Tokens(WithoutSlash(texts[i])) != Tokens(texts[i])
  }

  /** The dictionary in terms of the texts: index 1 is an entry for a missing slash, any other index is that of
      the text with these tokens, and every text is there with its own index or a smaller one. */
  ghost predicate Table(texts: seq<string>, rules: Rules) {
    && (forall p :: p in rules ==> OwnText(texts, p, rules[p]))
    && (forall i :: 0 <= i < |texts| ==> Listed(rules, Tokens(texts[i]), i + RESERVED))
    && (forall i: nat :: SlashEntry(texts, i) ==> IndexOf(rules, Tokens(WithoutSlash(texts[i]))) == REDIRECT)
  }

  ghost predicate Listed(rules: Rules, p: seq<Token>, k: nat) { p in rules && 0 < rules[p] <= k }

  ghost predicate OwnText(texts: seq<string>, p: seq<Token>, k: nat) {
    if k == REDIRECT then exists i: nat :: SlashEntry(texts, i) && Tokens(WithoutSlash(texts[i])) == p
    else RESERVED <= k < |texts| + RESERVED && Tokens(texts[k - RESERVED]) == p
  }

  /** The dictionary after one more addition. */
  function Entered(rules: Rules, p: seq<Token>, index: nat): Rules {
    if p in rules && rules[p] != 0 then rules else rules[p := index]
  }

  lemma RulesSnoc(adds: seq<Addition>, add: Addition)
    ensures RulesOf(adds + [add]) == Entered(RulesOf(adds), Tokens(add.rule), add.index)
  {
    var all := adds + [add];
    assert all[..|all| - 1] == adds;
  }

  /** What one more text does to the dictionary. */
  lemma TextEntered(texts: seq<string>)
    requires texts != []
    ensures var n, text, rules := |texts|, texts[|texts| - 1], RulesOf(Attempts(texts[..|texts| - 1]));
            var own := Entered(rules, Tokens(text), n + 1);
            RulesOf(Attempts(texts)) ==
            if IndexOf(rules, Tokens(text)) == 0 && EndsWithSlash(text)
            then Entered(own, Tokens(WithoutSlash(text)), REDIRECT) else own
  {
    hide Tokens, RulesOf;
    var n, text, before := |texts|, texts[|texts| - 1], Attempts(texts[..|texts| - 1]);
    RulesSnoc(before, Addition(text, n + 1));
    if IndexOf(RulesOf(before), Tokens(text)) == 0 && EndsWithSlash(text) {
      RulesSnoc(before + [Addition(text, n + 1)], Addition(WithoutSlash(text), REDIRECT));
    }
  }

  /** Earlier entries for slashes stay what they are. */
  lemma EntriesStay(texts: seq<string>)
    requires texts != []
    ensures var before := texts[..|texts| - 1];
            && (forall i: nat :: i < |before| ==> (SlashEntry(texts, i) <==> SlashEntry(before, i)))
            && (forall p, k: nat :: OwnText(before, p, k) ==> OwnText(texts, p, k))
  {
    hide Tokens, Taken, WithoutSlash;
    var before := texts[..|texts| - 1];
    forall i: nat | i < |before| ensures SlashEntry(texts, i) <==> SlashEntry(before, i) {
      assert texts[..i] == before[..i];
    }
    forall p, k: nat | OwnText(before, p, k) ensures OwnText(texts, p, k) {
      if k == REDIRECT {
        var i: nat :| SlashEntry(before, i) && Tokens(WithoutSlash(before[i])) == p;
        assert SlashEntry(texts, i);
      }
    }
  }

  lemma {:induction false} TableHolds(texts: seq<string>)
    ensures Table(texts, RulesOf(Attempts(texts)))
    decreases |texts|
  {
    hide Tokens, RulesOf, WithoutSlash, SlashEntry, OwnText, Listed, Attempts;
    if texts == [] {
      NoTexts();
    } else {
      TableHolds(texts[..|texts| - 1]);
      OwnersStay(texts);
      ListingsStay(texts);
      EntriesListed(texts);
    }
  }

  lemma OwnersStay(texts: seq<string>)
    requires texts != [] && Table(texts[..|texts| - 1], RulesOf(Attempts(texts[..|texts| - 1])))
    ensures var rules := RulesOf(Attempts(texts)); forall p :: p in rules ==> OwnText(texts, p, rules[p])
  {
    hide Tokens, RulesOf, WithoutSlash, SlashEntry, OwnText, Listed, Attempts, EndsWithSlash;
    var before, n := texts[..|texts| - 1], |texts|;
    var rules0, rules, text := RulesOf(Attempts(before)), RulesOf(Attempts(texts)), texts[n - 1];
    TextEntered(texts);
    EntriesStay(texts);
    OwnLast(texts);
    forall p | p in rules ensures OwnText(texts, p, rules[p]) {
      if p in rules0 && rules[p] == rules0[p] { assert OwnText(before, p, rules0[p]); }
    }
  }

  /** The last text owns what it adds. */
  lemma OwnLast(texts: seq<string>)
    requires texts != []
    ensures var n, text, rules := |texts|, texts[|texts| - 1], RulesOf(Attempts(texts[..|texts| - 1]));
            && OwnText(texts, Tokens(text), n + 1)
            && ((EndsWithSlash(text) && IndexOf(rules, Tokens(text)) == 0
                 && IndexOf(rules, Tokens(WithoutSlash(text))) == 0 && Tokens(WithoutSlash(text)) != Tokens(text)) ==>
                  OwnText(texts, Tokens(WithoutSlash(text)), REDIRECT))
  {
    hide Tokens, RulesOf, WithoutSlash, SlashEntry, Attempts, EndsWithSlash;
    LastEntry(texts);
  }

  lemma ListingsStay(texts: seq<string>)
    requires texts != [] && Table(texts[..|texts| - 1], RulesOf(Attempts(texts[..|texts| - 1])))
    ensures forall i :: 0 <= i < |texts| ==> Listed(RulesOf(Attempts(texts)), Tokens(texts[i]), i + RESERVED)
  {
    hide Tokens, RulesOf, WithoutSlash, SlashEntry, OwnText, Attempts, EndsWithSlash, Listed, Entered;
    var before, last := texts[..|texts| - 1], |texts| - 1;
    var rules, p := RulesOf(Attempts(before)), Tokens(texts[last]);
    var own := Entered(rules, p, |texts| + 1);
    TextEntered(texts);
    forall i | 0 <= i < |texts| ensures Listed(RulesOf(Attempts(texts)), Tokens(texts[i]), i + RESERVED) {
      var q := Tokens(texts[i]);
      if i < last {
        assert Listed(rules, Tokens(before[i]), i + RESERVED);
      } else if p in rules {
        OwnSmall(before, p);
      }
      EnteredListed(rules, p, |texts| + 1, q, i + RESERVED);
      if EndsWithSlash(texts[last]) { EnteredListed(own, Tokens(WithoutSlash(texts[last])), REDIRECT, q, i + RESERVED); }
    }
  }

  lemma EnteredListed(rules: Rules, p: seq<Token>, index: nat, q: seq<Token>, k: nat)
    ensures Listed(rules, q, k) ==> Listed(Entered(rules, p, index), q, k)
    ensures p == q && 0 < index <= k && (p in rules ==> rules[p] <= k) ==> Listed(Entered(rules, p, index), q, k)
  {}

  lemma OwnSmall(texts: seq<string>, p: seq<Token>)
    requires Table(texts, RulesOf(Attempts(texts))) && p in RulesOf(Attempts(texts))
    ensures 0 < RulesOf(Attempts(texts))[p] < |texts| + RESERVED
  {
    hide Tokens, RulesOf, SlashEntry, Attempts, WithoutSlash, Listed;
    assert OwnText(texts, p, RulesOf(Attempts(texts))[p]);
  }

  lemma EntriesListed(texts: seq<string>)
    requires texts != [] && Table(texts[..|texts| - 1], RulesOf(Attempts(texts[..|texts| - 1])))
    ensures forall i: nat :: SlashEntry(texts, i) ==>
              EndsWithSlash(texts[i]) && IndexOf(RulesOf(Attempts(texts)), Tokens(WithoutSlash(texts[i]))) == REDIRECT
  {
    hide Tokens, RulesOf, WithoutSlash, SlashEntry, OwnText, Attempts, EndsWithSlash, Listed;
    var before := texts[..|texts| - 1];
    TextEntered(texts);
    EntriesStay(texts);
    LastEntry(texts);
    forall i: nat | SlashEntry(texts, i)
      ensures EndsWithSlash(texts[i]) && IndexOf(RulesOf(Attempts(texts)), Tokens(WithoutSlash(texts[i]))) == REDIRECT
    {
      if i < |before| { assert SlashEntry(before, i); }
    }
  }

  lemma NoTexts()
    ensures Table([], RulesOf(Attempts([])))
  {}

  lemma LastEntry(texts: seq<string>)
    requires texts != []
    ensures var last, rules := |texts| - 1, RulesOf(Attempts(texts[..|texts| - 1]));
            SlashEntry(texts, last) <==>
              && EndsWithSlash(texts[last])
              && IndexOf(rules, Tokens(texts[last])) == 0 && IndexOf(rules, Tokens(WithoutSlash(texts[last]))) == 0
              && Tokens(WithoutSlash(texts[last])) != Tokens(texts[last])
    ensures forall i: nat :: SlashEntry(texts, i) ==> i < |texts| && EndsWithSlash(texts[i])
  {}

  // ---------- Which rule a URL selects ----------

  ghost predicate MatchesText(sc: Scanners, text: string, url: string) { Matches(sc, Tokens(text), url) }

  /** The `i`-th text is the first registered one that matches. */
  ghost predicate FirstMatch(sc: Scanners, texts: seq<string>, url: string, i: nat) {
    i < |texts| && MatchesText(sc, texts[i], url) && forall j :: 0 <= j < i ==> !MatchesText(sc, texts[j], url)
  }

  /** An entry for a missing slash matches. */
  ghost predicate LacksSlash(sc: Scanners, texts: seq<string>, url: string) {
    exists i: nat :: SlashEntry(texts, i) && MatchesText(sc, WithoutSlash(texts[i]), url)
  }

  lemma SlashEntryEnds(texts: seq<string>)
    ensures forall i: nat :: SlashEntry(texts, i) ==> i < |texts| && EndsWithSlash(texts[i])
  {}

  /** The answer in terms of the registered texts: 1 exactly when an entry for a missing slash matches; otherwise
      the slot of the first registered text that matches, and 0 if there is none. */
  lemma FirstMatchWins(sc: Scanners, texts: seq<string>, url: string, r: nat)
    requires IsBest(sc, RulesOf(Attempts(texts)), url, r)
    ensures r < |texts| + 2
    ensures r == 1 <==> LacksSlash(sc, texts, url)
    ensures r >= 2 ==> FirstMatch(sc, texts, url, r - 2)
    ensures r == 0 ==> forall i :: 0 <= i < |texts| ==> !MatchesText(sc, texts[i], url)
  {
    hide Tokens, RulesOf, SlashEntry, Attempts, WithoutSlash, IsBest, LacksSlash, MatchesText;
    AnswerOwned(sc, texts, url, r);
    AnswerBounded(sc, texts, url, r);
  }

  /** A nonzero answer is the index of an entry for a missing slash that matches, or of a text that matches. */
  lemma AnswerOwned(sc: Scanners, texts: seq<string>, url: string, r: nat)
    requires IsBest(sc, RulesOf(Attempts(texts)), url, r)
    ensures r < |texts| + RESERVED && (r == REDIRECT ==> LacksSlash(sc, texts, url))
    ensures r >= RESERVED ==> MatchesText(sc, texts[r - RESERVED], url)
  {
    hide Tokens, RulesOf, SlashEntry, Attempts, WithoutSlash, Decode, Listed;
    TableHolds(texts);
    SlashEntryEnds(texts);
    var rules := RulesOf(Attempts(texts));
    if r != 0 {
      var p :| p in rules && rules[p] == r && Matches(sc, p, url);
      assert OwnText(texts, p, r);
    }
  }

  /** No matching text is beaten by the answer, nor an entry for a missing slash. */
  lemma AnswerBounded(sc: Scanners, texts: seq<string>, url: string, r: nat)
    requires IsBest(sc, RulesOf(Attempts(texts)), url, r)
    ensures forall i :: 0 <= i < |texts| && MatchesText(sc, texts[i], url) ==> 0 < r <= i + RESERVED
    ensures LacksSlash(sc, texts, url) ==> r == REDIRECT
  {
    hide Tokens, RulesOf, SlashEntry, Attempts, WithoutSlash, Decode, OwnText;
    TableHolds(texts);
    SlashEntryEnds(texts);
    var rules := RulesOf(Attempts(texts));
    forall i | 0 <= i < |texts| && MatchesText(sc, texts[i], url) ensures 0 < r <= i + RESERVED {
      assert Listed(rules, Tokens(texts[i]), i + RESERVED);
    }
    if i: nat :| SlashEntry(texts, i) && MatchesText(sc, WithoutSlash(texts[i]), url) {
      assert rules[Tokens(WithoutSlash(texts[i]))] == REDIRECT;
    }
  }

  lemma FirstMatchIsOne(sc: Scanners, texts: seq<string>, url: string)
    ensures forall i: nat, j: nat :: FirstMatch(sc, texts, url, i) && FirstMatch(sc, texts, url, j) ==> i == j
    ensures (forall i :: 0 <= i < |texts| ==> !MatchesText(sc, texts[i], url)) ==>
              forall i: nat :: !FirstMatch(sc, texts, url, i)
  {
    hide MatchesText;
  }

  /** The first registered text that matches wins, unless an entry for a missing slash matches. */
  lemma FirstMatchIsWinner(sc: Scanners, texts: seq<string>, url: string, i: nat)
    requires FirstMatch(sc, texts, url, i) && !LacksSlash(sc, texts, url)
    ensures Wins(sc, RulesOf(Attempts(texts)), url, Tokens(texts[i]))
  {
    hide Tokens, RulesOf, SlashEntry, Attempts, WithoutSlash, Decode, Before;
    TableHolds(texts);
    SlashEntryEnds(texts);
    var rules, p := RulesOf(Attempts(texts)), Tokens(texts[i]);
    assert Listed(rules, p, i + RESERVED);
    forall q | q in rules && rules[q] != 0 && Matches(sc, q, url)
      ensures RESERVED <= rules[q] < |texts| + RESERVED && i <= rules[q] - RESERVED
              && Tokens(texts[rules[q] - RESERVED]) == q
    {
      assert OwnText(texts, q, rules[q]);
      if rules[q] != REDIRECT { assert MatchesText(sc, texts[rules[q] - RESERVED], url); }
    }
  }

  /** In a validated router the first registered text that matches is handed all its parameters exactly when no
      path left in the trie consumes the URL, is tried first and shares a parameter with it. */
  lemma FirstMatchHandedIff(sc: Scanners, texts: seq<string>, nodes: seq<Node>, names: seq<seq<Token>>,
                            url: string, i: nat)
    requires Compacted(Attempts(texts), nodes, names)
    requires FirstMatch(sc, texts, url, i) && !LacksSlash(sc, texts, url)
    ensures WellFormed(nodes) && Winner(sc, nodes, url).Some? && Decode(sc, Tokens(texts[i]), url, 0).Some?
    ensures var p := Tokens(texts[i]);
            Handed(sc, nodes, url) == Decode(sc, p, url, 0).value <==>
            !exists q ::
              Survives(RulesOf(Attempts(texts)), q) && Matches(sc, q, url) && Before(q, p) && SharedParams(q, p) > 0
  {
    hide Tokens, RulesOf, Attempts, Compacted, Winner, Handed, Survives, Decode, Before, SharedParams;
    FirstMatchIsWinner(sc, texts, url, i);
    CompactedFormed(Attempts(texts), nodes, names);
    OptimizedHandedIff(sc, Attempts(texts), nodes, names, url, Tokens(texts[i]));
  }

  lemma CompactedFormed(adds: seq<Addition>, nodes: seq<Node>, names: seq<seq<Token>>)
    requires Compacted(adds, nodes, names)
    ensures WellFormed(nodes)
  {}

  /** Registered with a slash and requested without: the entry for the slash answers, whose slot is empty. */
  lemma MissingSlash(sc: Scanners)
    ensures LacksSlash(sc, ["/a/"], "/a")
  {
    assert ["/a/"][..0] == [] && "/a/"[..2] == WithoutSlash("/a/") == "/a";
    PlainTokens("/a/", 0);
    PlainTokens("/a", 0);
    assert |Tokens("/a/")| == 3 && |Tokens("/a")| == 2;
    assert RulesOf(Attempts([])) == map[];
    assert SlashEntry(["/a/"], 0);
    assert Tokens("/a") == [Lit('/'), Lit('a')];
    assert [Lit('/'), Lit('a')][1..] == [Lit('a')] && [Lit('a')][1..] == [];
    assert Decode(sc, [], "/a", 2) == Some([]);
    assert Decode(sc, [Lit('a')], "/a", 1).Some?;
    assert MatchesText(sc, "/a", "/a");
  }

  lemma {:induction false} PlainTokens(s: string, i: nat)
    requires i <= |s| && '{' !in s
    ensures TokensFrom(s, i) == Lits(s[i..])
    decreases |s| - i
  {
    if i < |s| {
      PlainTokens(s, i + 1);
      assert Lits(s[i..]) == [Lit(s[i])] + Lits(s[i + 1..]);
    } else {
      assert Lits(s[i..]) == [];
    }
  }

  // ---------- Which rules validate ----------

  /** No spelling reaches over a slash at the end. */
  lemma SpellingsKept(s: string, i: nat, from: nat)
    requires i <= |s| && from <= |SPELLINGS|
    ensures SpellingAt(s + "/", i, from) == SpellingAt(s, i, from)
    decreases |SPELLINGS| - from
  {
    if from < |SPELLINGS| {
      var x := SPELLINGS[from].1;
      assert x[|x| - 1] == '}';
      assert (s + "/")[i..] == s[i..] + "/";
      assert (s[i..] + "/")[|s| - i] == '/';
      SpellingsKept(s, i, from + 1);
    }
  }

  lemma SpellingNonempty(k: nat)
    requires k < |SPELLINGS|
    ensures SPELLINGS[k].1 != ""
  {}

  lemma {:induction false} SlashTokens(s: string, i: nat)
    requires i <= |s|
    ensures TokensFrom(s + "/", i) == TokensFrom(s, i) + [Lit('/')]
    decreases |s| - i
  {
    hide SpellingAt, SPELLINGS, TokensFrom;
    TokensStep(s, i);
    TokensStep(s + "/", i);
    if i == |s| {
      TokensStep(s + "/", i + 1);
    } else {
      SpellingsKept(s, i, 0);
      if s[i] != '{' || SpellingAt(s, i, 0).None? {
        SlashTokens(s, i + 1);
      } else {
        SpellingNonempty(SpellingAt(s, i, 0).value);
        SlashTokens(s, i + |SPELLINGS[SpellingAt(s, i, 0).value].1|);
      }
    }
  }

  /** The tokens start with a literal, and no slash entry is left for them without a token. */
  ghost predicate Rooted(texts: seq<string>, i: nat) {
    && i < |texts|
    && var p := Tokens(texts[i]); p != [] && p[0].Lit? && (SlashEntry(texts, i) ==> |p| > 1)
  }

  lemma EntryTokens(texts: seq<string>, i: nat)
    requires SlashEntry(texts, i)
    ensures Tokens(texts[i]) == Tokens(WithoutSlash(texts[i])) + [Lit('/')]
  {
    var text := texts[i];
    if |text| > 1 {
      assert text == WithoutSlash(text) + "/";
      SlashTokens(WithoutSlash(text), 0);
    }
  }

  /** The root of the trie is simple exactly when every text starts with a literal and is more than a slash that
      has left an entry. */
  lemma RootSimpleIff(texts: seq<string>)
    ensures (IndexOf(RulesOf(Attempts(texts)), []) == 0 && forall t :: !Leads(RulesOf(Attempts(texts)), [Par(t)])) <==>
            forall i: nat :: i < |texts| ==> Rooted(texts, i)
  {
    hide Tokens, RulesOf, Attempts, WithoutSlash;
    TableHolds(texts);
    if forall i: nat :: i < |texts| ==> Rooted(texts, i) {
      forall p: seq<Token> | p in RulesOf(Attempts(texts)) ensures p != [] && p[0].Lit? { RootedPath(texts, p); }
    } else {
      var i: nat :| i < |texts| && !Rooted(texts, i);
      UnrootedPath(texts, i);
    }
  }

  lemma RootedPath(texts: seq<string>, p: seq<Token>)
    requires p in RulesOf(Attempts(texts)) && forall i: nat :: i < |texts| ==> Rooted(texts, i)
    ensures p != [] && p[0].Lit?
  {
    hide Tokens, RulesOf, Attempts, WithoutSlash, SlashEntry;
    TableHolds(texts);
    SlashEntryEnds(texts);
    var k := RulesOf(Attempts(texts))[p];
    assert OwnText(texts, p, k);
    if k == REDIRECT {
      var i: nat :| SlashEntry(texts, i) && Tokens(WithoutSlash(texts[i])) == p;
      EntryTokens(texts, i);
      assert Rooted(texts, i);
    } else {
      assert Rooted(texts, k - RESERVED);
    }
  }

  lemma UnrootedPath(texts: seq<string>, i: nat)
    requires i < |texts| && !Rooted(texts, i)
    ensures IndexOf(RulesOf(Attempts(texts)), []) != 0 || exists t :: Leads(RulesOf(Attempts(texts)), [Par(t)])
  {
    hide Tokens, RulesOf, Attempts, WithoutSlash, SlashEntry;
    TableHolds(texts);
    SlashEntryEnds(texts);
    var rules, p := RulesOf(Attempts(texts)), Tokens(texts[i]);
    assert Listed(rules, p, i + RESERVED);
    if p != [] && p[0].Par? {
      assert [Par(p[0].t)] <= p;
      assert Leads(rules, [Par(p[0].t)]);
    } else if p != [] {
      EntryTokens(texts, i);
      assert Tokens(WithoutSlash(texts[i])) == [];
    }
  }

  // ---------- The router ----------

  lemma AttemptsSnoc(texts: seq<string>)
    requires texts != []
    ensures var before, text := texts[..|texts| - 1], texts[|texts| - 1];
            var own := Attempts(before) + [Addition(text, |texts| + 1)];
            Attempts(texts) ==
            if IndexOf(RulesOf(Attempts(before)), Tokens(text)) == 0 && EndsWithSlash(text)
            then own + [Addition(WithoutSlash(text), REDIRECT)] else own
  {
    hide Tokens, RulesOf, IndexOf, WithoutSlash;
  }

  /** After an accepted addition the index of a path is the new one or the old one. */
  lemma OwnIndex(adds: seq<Addition>, add: Addition, p: seq<Token>)
    requires IndexOf(RulesOf(adds), Tokens(add.rule)) == 0
    ensures IndexOf(RulesOf(adds + [add]), p) == if p == Tokens(add.rule) then add.index else IndexOf(RulesOf(adds), p)
  {
    hide Tokens, RulesOf;
    RulesSnoc(adds, add);
  }

  /** The part of a request's path that the trie is searched for. */
  function UrlOf(base: string, path: string): string {
    if base == "" || base <= path then path[|base|..] else FILE_ROUTE
  }

  lemma HoldsFormed(nodes: seq<Node>, rules: Rules)
    requires Holds(nodes, rules)
    ensures WellFormed(nodes)
  {}

  /** The trie of a run of additions, before it is optimized. */
  lemma FreshFacts(adds: seq<Addition>, names: seq<seq<Token>>)
    requires Fresh(AddAll(adds), names)
    ensures WellFormed(AddAll(adds)) && Named(AddAll(adds), names)
    ensures Workable(RulePaths(RulesOf(adds)), names, AddAll(adds), 0)
    ensures AddAll(adds)[0].IsSimple() <==>
              IndexOf(RulesOf(adds), []) == 0 && forall t :: !Leads(RulesOf(adds), [Par(t)])
  {
    hide Fresh, AddAll, RulesOf, Leads, Workable, WellFormed, Named;
    FreshFormed(AddAll(adds), names);
    var _ := AddAllHolds(adds);
    FreshWorkable(RulePaths(RulesOf(adds)), names, AddAll(adds));
    RootStores(AddAll(adds), RulesOf(adds));
  }

  lemma FreshFormed(nodes: seq<Node>, names: seq<seq<Token>>)
    requires Fresh(nodes, names)
    ensures WellFormed(nodes) && Named(nodes, names) && |nodes| == |names|
  {
    FreshIsWellFormed(nodes, names);
    forall i: nat | i < |nodes|
      ensures forall k :: k in nodes[i].children ==> names[nodes[i].children[k]] == names[i] + Lits(k)
      ensures forall t :: nodes[i].params[Slot(t)] != 0 ==> names[nodes[i].params[Slot(t)]] == names[i] + [Par(t)]
    {
      FreshNode(nodes, names, i);
    }
  }

  lemma RootStores(nodes: seq<Node>, rules: Rules)
    requires Holds(nodes, rules) && forall p :: Walk(nodes, 0, p).Some? <==> Leads(rules, p)
    ensures nodes[0].IsSimple() <==> IndexOf(rules, []) == 0 && forall t :: !Leads(rules, [Par(t)])
  {
    hide Leads;
    assert Stored(nodes, 0, []) == IndexOf(rules, []);
    forall t ensures Leads(rules, [Par(t)]) <==> nodes[0].params[Slot(t)] != 0 {
      WalkParameter(nodes, 0, [], t);
      assert [] + [Par(t)] == [Par(t)];
    }
    forall s | 0 <= s < SLOTS ensures nodes[0].params[s] != 0 <==> Leads(rules, [Par(TypeAt(s))]) {
      assert Slot(TypeAt(s)) == s;
    }
  }

  /** Every text has its slot behind the empty ones. */
  predicate Slots(rules: seq<Option<Rule>>, texts: seq<string>) {
    && |rules| == |texts| + RESERVED
    && forall k :: 0 <= k < |rules| ==>
         if k < RESERVED then rules[k].None? else rules[k].Some? && rules[k].value.text == texts[k - RESERVED]
  }

  /** What is left of a path behind the base is searched for; a path without the base goes to the file server. */
  lemma UrlIs(base: string, path: string)
    ensures base <= path ==> path == base + UrlOf(base, path)
    ensures !(base <= path) ==> UrlOf(base, path) == "/1b7647618ea63937daae8ebb903e9175"
  {}

  lemma UrlBehind(base: string, rest: string)
    ensures UrlOf(base, base + rest) == rest
  {
    UrlIs(base, base + rest);
  }

  /** Taking off the slash gives the text before it, but the slash alone stays what it is. */
  lemma SlashTaken(text: string)
    ensures EndsWithSlash(text + "/") && WithoutSlash(text + "/") == if text == "" then "/" else text
    ensures EndsWithSlash(text) ==> text == text[..|text| - 1] + "/"
  {
    assert text != "" ==> (text + "/")[..|text|] == text;
  }

  class Router {
    const apiBase: string
    const trie: RoutesTrie
    var rules: seq<Option<Rule>>
    /** The texts registered so far, also those that were refused. */
    ghost var texts: seq<string>
    ghost var names: seq<seq<Token>>

    /** Every text has its slot, and the trie stores their dictionary. */
    ghost predicate Valid()
      reads this, trie
    {
      Slots(rules, texts) && Holds(trie.nodes, RulesOf(Attempts(texts)))
    }

    /** Not validated yet. */
    ghost predicate Open()
      reads this, trie
    {
      Valid() && trie.nodes == AddAll(Attempts(texts)) && Fresh(trie.nodes, names)
    }

    constructor (base: string)
      ensures Open() && fresh(trie) && texts == [] && apiBase == if base == "/" then "" else base
    {
      apiBase := if base == "/" then "" else base;
      trie := new RoutesTrie();
      rules := [None, None];
      texts := [];
      new;
      names := AddAllHolds([]);
    }

    /** Registers a rule; refuses it when its tokens, or those without its trailing slash, are there already. A
        refused rule keeps its slot, and when only the entry without the slash is refused, the rule itself stays. */
    method CreateDynamicRule(text: string) returns (ok: bool)
      requires Open()
      modifies this, trie
      ensures Open() && texts == old(texts) + [text] && rules == old(rules) + [Some(Rule(text, true))]
      ensures ok <==>
                && !old(Taken(texts, Tokens(text)))
                && (EndsWithSlash(text) ==>
                      !old(Taken(texts, Tokens(WithoutSlash(text)))) && Tokens(WithoutSlash(text)) != Tokens(text))
    {
      hide Fresh, Holds, RulesOf, AddAll, Attempts, Tokens, WithoutSlash, IndexOf, IndexAt, Added, Entered;
      ghost var adds := Attempts(texts);
      rules := rules + [Some(Rule(text, true))];
      texts := texts + [text];
      AttemptsSnoc(texts);
      assert texts[..|texts| - 1] == old(texts);
      ok := trie.Add(text, |rules| - 1, names);
      names := AddAllSnoc(adds, Addition(text, |rules| - 1));
      if ok && EndsWithSlash(text) {
        ghost var own := adds + [Addition(text, |rules| - 1)];
        OwnIndex(adds, Addition(text, |rules| - 1), Tokens(WithoutSlash(text)));
        ok := trie.Add(WithoutSlash(text), REDIRECT, names);
        names := AddAllSnoc(own, Addition(WithoutSlash(text), REDIRECT));
      }
      assert trie.nodes == AddAll(Attempts(texts)) && Fresh(trie.nodes, names);
      assert Holds(trie.nodes, RulesOf(Attempts(texts))) by { var _ := AddAllHolds(Attempts(texts)); }
    }

    /** Validates the trie; refuses, changing nothing, unless every text starts with a literal and is more than
        a slash that has left an entry. */
    method Validate() returns (ok: bool)
      requires Open()
      modifies this, trie
      ensures texts == old(texts) && rules == old(rules)
      ensures ok <==> forall i: nat :: i < |texts| ==> Rooted(texts, i)
      ensures if ok then Valid() && Compacted(Attempts(texts), trie.nodes, names) else Open()
    {
      hide Fresh, Holds, RulesOf, AddAll, Attempts, Optimized, Workable, BlocksFrom, SettledFrom, WellFormed, Named,
           RulePaths, AllReached, Rooted;
      FreshFacts(Attempts(texts), names);
      RootSimpleIff(texts);
      ghost var renamed;
      ok, renamed := trie.Validate(RulePaths(RulesOf(Attempts(texts))), names);
      if ok {
        names := renamed;
        OptimizedHolds(AddAll(Attempts(texts)), trie.nodes, RulesOf(Attempts(texts)));
      }
    }

    /** Selects the rule for a request's path: the trie is searched for `url`, which is what is left of the path
        behind the base, or the route of the file server for a path without it. */
    method Before(sc: Scanners, path: string) returns (selection: Selection, ghost url: string)
      requires Valid()
      ensures WellFormed(trie.nodes)
      ensures path == apiBase + url || (!(apiBase <= path) && url == "/1b7647618ea63937daae8ebb903e9175")
      ensures selection.EmptySlot? <==> LacksSlash(sc, texts, url)
      ensures selection.Selected? ==>
                2 <= selection.index && FirstMatch(sc, texts, url, selection.index - 2)
                && rules[selection.index].value.enabled
      ensures selection.Selected? ==>
                Winner(sc, trie.nodes, url).Some? && selection.params == Sorted(Handed(sc, trie.nodes, url))
      ensures selection.NotFound? ==>
                forall i: nat :: FirstMatch(sc, texts, url, i) ==> !rules[i + 2].value.enabled
      ensures !selection.SystemError?
    {
      hide Holds, RulesOf, Attempts, LacksSlash, Winner, Handed, Answer, WellFormed, IsBest, FirstMatch, UrlOf, Sorted;
      HoldsFormed(trie.nodes, RulesOf(Attempts(texts)));
      var target := UrlOf(apiBase, path);
      url := target;
      UrlIs(apiBase, path);
      var found, params := trie.FindRoute(sc, target);
      SearchIsBest(sc, trie.nodes, RulesOf(Attempts(texts)), url);
      FirstMatchWins(sc, texts, url, found);
      FirstMatchIsOne(sc, texts, url);
      selection :=
        if found == 0 then NotFound
        else if found >= |rules| then SystemError
        else if rules[found].None? then EmptySlot
        else if !rules[found].value.enabled then NotFound
        else Selected(found, params);
    }
  }
}
