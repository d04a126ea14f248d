/** The loops of the JSON parser, which builds node trees, and of the printers, which walk them, against the
    functions that specify them on values. */
module JsonLoops {
  import opened Options
  import opened JsonUtf8
  import opened JsonStrings
  import opened JsonNumbers
  import opened JsonText
  import opened JsonNodes
  import opened JsonCheck
  import opened JsonTrees

  // ---------- Parsing loops ----------

  method SkipSpaceLoop(t: Text) returns (s: Text)
    ensures s == SkipSpace(t)
  {
    s := t;
    while s != [] && IsSpace(s[0])
      invariant SkipSpace(s) == SkipSpace(t)
      decreases |s|
    {
      s := s[1..];
    }
  }

  // A call without a place for the result (`build` false) makes no nodes.

  /** A node without children and without parent, as a tree of its own. */
  method MakeLeaf(build: bool, tag: Tag, flag: bool, text: Text, ghost v: Json)
    returns (n: JsonNode?, ghost nodes: set<JsonNode>, ghost kids: map<JsonNode, seq<JsonNode>>)
    requires LeafFits(tag, flag, text, v)
    ensures build <==> n != null
    ensures fresh(nodes)
    ensures build ==> Rooted(nodes, kids, n, v)
  {
    hide Forest;
    n, nodes, kids := null, {}, map[];
    if build {
      NoNodes(nodes, kids);
      var c := MakeNode(tag, flag, text, nodes, kids);
      n, nodes, kids := c, nodes + {c}, kids[c := []];
      LoneAcyclic(nodes, c);
    }
  }

  predicate LeafFits(tag: Tag, flag: bool, text: Text, v: Json) {
    match v
    case Null => tag.NullTag?
    case Bool(b) => tag.BoolTag? && flag == b
    case Number(lexeme) => tag.NumberTag? && text == lexeme
    case String(str) => tag.StringTag? && text == str
    case Array(items) => tag.ArrayTag? && items == []
    case Object(members) => tag.ObjectTag? && members == []
  }

  lemma LoneAcyclic(nodes: set<JsonNode>, c: JsonNode)
    requires nodes == {c} && c.parent == null
    ensures Acyclic(Parents(nodes))
  {
    var par := Parents(nodes);
    forall k: nat | k > 0 ensures Up(par, c, k) != c { assert Up(par, c, k) == Up(par, par[c], k - 1); }
  }

  method ParseValueCall(t: Text, build: bool)
    returns (r: Option<Text>, n: JsonNode?, ghost nodes: set<JsonNode>, ghost kids: map<JsonNode, seq<JsonNode>>)
    ensures r == Second(ParseValue(t))
    ensures fresh(nodes) && (!build ==> n == null)
    ensures build && r.Some? ==> n != null && Rooted(nodes, kids, n, ParseValue(t).value.0)
    decreases |t|, 1
  {
    hide ParseArray, ParseObject, ParseNumber, ParseString, ExpectLiteral, Rooted;
    var c := At(t, 0);
    r, n, nodes, kids := None, null, {}, map[];
    if c == 0x6E {
      r := ExpectLiteral(t, NULL_WORD);
      if r.Some? { n, nodes, kids := MakeLeaf(build, NullTag, false, [], Null); }
    } else if c == 0x66 {
      r := ExpectLiteral(t, FALSE_WORD);
      if r.Some? { n, nodes, kids := MakeLeaf(build, BoolTag, false, [], Bool(false)); }
    } else if c == 0x74 {
      r := ExpectLiteral(t, TRUE_WORD);
      if r.Some? { n, nodes, kids := MakeLeaf(build, BoolTag, true, [], Bool(true)); }
    } else if c == QUOTE {
      var p := ParseStringLoop(t);
      if p.Some? {
        r := Some(p.value.1);
        n, nodes, kids := MakeLeaf(build, StringTag, false, p.value.0, String(p.value.0));
      }
    } else if c == OPEN_BRACKET {
      r, n, nodes, kids := ParseArrayLoop(t, build);
    } else if c == OPEN_BRACE {
      r, n, nodes, kids := ParseObjectLoop(t, build);
    } else {
      var p := ParseNumberLoop(t);
      if p.Some? {
        r := Some(p.value.1);
        n, nodes, kids := MakeLeaf(build, NumberTag, false, p.value.0, Number(p.value.0));
      }
    }
  }

  function Prefixed<T>(done: seq<T>, r: Option<(seq<T>, Text)>): Option<(seq<T>, Text)> {
    match r case None => None case Some((more, s)) => Some((done + more, s))
  }

  lemma PrefixedStep<T>(done: seq<T>, x: T, r: Option<(seq<T>, Text)>)
    ensures Prefixed(done + [x], r) == Prefixed(done, Prefixed([x], r))
  {
    if r.Some? { assert (done + [x]) + r.value.0 == done + ([x] + r.value.0); }
  }

  lemma PrefixedNothing<T>(r: Option<(seq<T>, Text)>)
    ensures Prefixed([], r) == r
  {
    if r.Some? { assert [] + r.value.0 == r.value.0; }
  }

  method ParseArrayLoop(t: Text, build: bool)
    returns (r: Option<Text>, ret: JsonNode?, ghost nodes: set<JsonNode>, ghost kids: map<JsonNode, seq<JsonNode>>)
    ensures r == Second(ParseArray(t))
    ensures fresh(nodes) && (!build ==> ret == null)
    ensures build && r.Some? ==> ret != null && Rooted(nodes, kids, ret, ParseArray(t).value.0)
    decreases |t|, 0
  {
    hide ParseValue, SkipSpace, Rooted;
    ret, nodes, kids := MakeLeaf(build, ArrayTag, false, [], Array([]));
    if At(t, 0) != OPEN_BRACKET { return None, ret, nodes, kids; }
    var s := SkipSpaceLoop(t[1..]);
    if At(s, 0) == CLOSE_BRACKET { return Some(s[1..]), ret, nodes, kids; }
    ghost var start := s;
    ghost var items: seq<Json> := [];
    PrefixedNothing(ParseItems(s));
    while true
      invariant |s| < |t| && ParseItems(start) == Prefixed(items, ParseItems(s))
      invariant fresh(nodes) && (build <==> ret != null) && (build ==> Rooted(nodes, kids, ret, Array(items)))
      decreases |s|
    {
      var after, element;
      ghost var more, kids';
      after, element, more, kids' := ParseValueCall(s, build);
      if after.None? { return None, ret, nodes, kids; }
      ghost var before, v := items, ParseValue(s).value.0;
      items := items + [v];
      s := SkipSpaceLoop(after.value);
      if build {
        Adopt(ret, None, element, nodes, kids, Array(before), more, kids', v);
        nodes, kids := nodes + more, Merge(kids, kids', ret, element);
      }
      if At(s, 0) == CLOSE_BRACKET { return Some(s[1..]), ret, nodes, kids; }
      if At(s, 0) != COMMA { return None, ret, nodes, kids; }
      s := SkipSpaceLoop(s[1..]);
      PrefixedStep(before, v, ParseItems(s));
    }
  }

  method ParseObjectLoop(t: Text, build: bool)
    returns (r: Option<Text>, ret: JsonNode?, ghost nodes: set<JsonNode>, ghost kids: map<JsonNode, seq<JsonNode>>)
    ensures r == Second(ParseObject(t))
    ensures fresh(nodes) && (!build ==> ret == null)
    ensures build && r.Some? ==> ret != null && Rooted(nodes, kids, ret, ParseObject(t).value.0)
    decreases |t|, 0
  {
    hide ParseValue, SkipSpace, ParseString, Rooted;
    ret, nodes, kids := MakeLeaf(build, ObjectTag, false, [], Object([]));
    if At(t, 0) != OPEN_BRACE { return None, ret, nodes, kids; }
    var s := SkipSpaceLoop(t[1..]);
    if At(s, 0) == CLOSE_BRACE { return Some(s[1..]), ret, nodes, kids; }
    ghost var start := s;
    ghost var members: seq<Member> := [];
    PrefixedNothing(ParseMembers(s));
    while true
      invariant |s| < |t| && ParseMembers(start) == Prefixed(members, ParseMembers(s))
      invariant fresh(nodes) && (build <==> ret != null) && (build ==> Rooted(nodes, kids, ret, Object(members)))
      decreases |s|
    {
      ghost var top := s;
      var key := ParseStringLoop(s);
      if key.None? { return None, ret, nodes, kids; }
      s := SkipSpaceLoop(key.value.1);
      if At(s, 0) != COLON { return None, ret, nodes, kids; }
      s := SkipSpaceLoop(s[1..]);
      var after, value;
      ghost var more, kids';
      after, value, more, kids' := ParseValueCall(s, build);
      if after.None? { return None, ret, nodes, kids; }
      ghost var before, v := members, ParseValue(s).value.0;
      ghost var m := Member(key.value.0, v);
      members := members + [m];
      assert ParseMember(top) == Some((m, after.value));
      s := SkipSpaceLoop(after.value);
      if build {
        Adopt(ret, Some(key.value.0), value, nodes, kids, Object(before), more, kids', v);
        nodes, kids := nodes + more, Merge(kids, kids', ret, value);
      }
      if At(s, 0) == CLOSE_BRACE { return Some(s[1..]), ret, nodes, kids; }
      if At(s, 0) != COMMA { return None, ret, nodes, kids; }
      s := SkipSpaceLoop(s[1..]);
      PrefixedStep(before, m, ParseMembers(s));
    }
  }

  /** A whole document to a node tree; none if it is not one. */
  method DecodeDocument(t: Text)
    returns (n: JsonNode?, ghost nodes: set<JsonNode>, ghost kids: map<JsonNode, seq<JsonNode>>)
    ensures fresh(nodes) && (n != null <==> Decode(t).Some?)
    ensures n != null ==> Rooted(nodes, kids, n, Decode(t).value)
  {
    hide ParseValue, SkipSpace, Rooted;
    var s := SkipSpaceLoop(t);
    var r;
    r, n, nodes, kids := ParseValueCall(s, true);
    if r.None? { return null, nodes, kids; }
    s := SkipSpaceLoop(r.value);
    if At(s, 0) != 0 { return null, nodes, kids; }
  }

  /** Whether a text is a document, without building it. */
  method ValidateLoop(t: Text) returns (ok: bool)
    ensures ok <==> Decode(t).Some?
  {
    hide ParseValue, SkipSpace;
    var s := SkipSpaceLoop(t);
    var r, _, _, _ := ParseValueCall(s, false);
    if r.None? { return false; }
    s := SkipSpaceLoop(r.value);
    return At(s, 0) == 0;
  }

  /** Every node of a parsed tree passes the consistency check, which ends. */
  lemma ParsedIsSound(t: Text, nodes: set<JsonNode>, kids: map<JsonNode, seq<JsonNode>>, n: JsonNode, x: JsonNode)
    requires Decode(t).Some? && Rooted(nodes, kids, n, Decode(t).value)
    requires x in nodes && Above(Parents(nodes), n, x)
    ensures Closed(nodes) && Sound(nodes, x) && !Circular(nodes, x)
  {
    hide Forest, Sound, Circular, Depicts, Good, TextFits, ParseValue, SkipSpace;
    var v := Decode(t).value;
    ParsedGood(SkipSpace(t));
    assert x in Parents(nodes);
    ForestClosed(nodes, kids);
    RootKey(nodes, kids, n);
    forall y | y in nodes && Above(Parents(nodes), x, y) ensures TextFits(y) {
      var i: nat :| Up(Parents(nodes), y, i) == x;
      var j: nat :| Up(Parents(nodes), x, j) == n;
      UpAdd(Parents(nodes), y, i, j);
      TreeTexts(nodes, kids, n, v, y, i + j);
    }
    ForestCheckIff(nodes, kids, x);
    if Circular(nodes, x) { CircularIsOwnAncestor(nodes, x); }
  }

  lemma RootKey(nodes: set<JsonNode>, kids: map<JsonNode, seq<JsonNode>>, n: JsonNode)
    requires Forest(nodes, kids) && n in nodes && n.parent == null
    ensures n.key.None?
  {}

  // ---------- Printing loops ----------

  /** Prints the value of a node in the compact layout to the end of `out`. */
  method EmitValue(out: Text, n: JsonNode, ghost nodes: set<JsonNode>, ghost kids: map<JsonNode, seq<JsonNode>>,
                   ghost v: Json)
    returns (r: Text)
    requires Tree(nodes, kids, n, v) && Printable(v)
    ensures r == out + Print(v, Compact, 0)
    decreases v, 0
  {
    hide Tree;
    TreeLabel(nodes, kids, n, v);
    match n.tag {
      case NullTag => r := out + NULL_WORD;
      case BoolTag => r := out + if n.flag then TRUE_WORD else FALSE_WORD;
      case NumberTag => r := out + n.text;
      case StringTag =>
        var e := EmitStringLoop(n.text);
        r := out + e.value;
      case ArrayTag => r := EmitArray(out, n, nodes, kids, v.items);
      case ObjectTag => r := EmitObject(out, n, nodes, kids, v.members);
    }
  }

  /** The compact text of the items from `i` on. */
  ghost function CompactItemsFrom(items: seq<Json>, i: nat): Text
    requires i <= |items| && AllPrintable(items)
  {
    if i == |items| then [] else PrintItems(items[i..], Compact, 0)
  }

  lemma CompactItems(items: seq<Json>, i: nat)
    requires i < |items| && AllPrintable(items)
    ensures CompactItemsFrom(items, i) ==
      Print(items[i], Compact, 0) + if i + 1 == |items| then [] else [COMMA] + CompactItemsFrom(items, i + 1)
  {
    assert items[i..][1..] == items[i + 1..];
  }

  lemma CompactItemsEnd(items: seq<Json>)
    requires AllPrintable(items)
    ensures CompactItemsFrom(items, |items|) == []
  {}

  lemma {:induction false} CompactLevel(v: Json, level: nat)
    requires Printable(v)
    ensures Print(v, Compact, level) == Print(v, Compact, 0)
    decreases v, 0
  {
    match v
    case Array(items) => if items != [] { CompactItemsLevel(items, level + 1); CompactItemsLevel(items, 1); }
    case Object(members) =>
      if members != [] {
        CompactMembersLevel(members, level + 1);
        CompactMembersLevel(members, 1);
      }
    case _ =>
  }

  lemma {:induction false} CompactItemsLevel(items: seq<Json>, level: nat)
    requires items != [] && AllPrintable(items)
    ensures PrintItems(items, Compact, level) == PrintItems(items, Compact, 0)
    decreases items, 0
  {
    CompactLevel(items[0], level);
    if |items| > 1 { CompactItemsLevel(items[1..], level); }
  }

  lemma {:induction false} CompactMembersLevel(members: seq<Member>, level: nat)
    requires members != [] && AllPrintableMembers(members)
    ensures PrintMembers(members, Compact, level) == PrintMembers(members, Compact, 0)
    decreases members, 0
  {
    assert members[0].value < members[0];
    CompactLevel(members[0].value, level);
    if |members| > 1 { CompactMembersLevel(members[1..], level); }
  }

  method EmitArray(out: Text, n: JsonNode, ghost nodes: set<JsonNode>, ghost kids: map<JsonNode, seq<JsonNode>>,
                   ghost items: seq<Json>)
    returns (r: Text)
    requires Tree(nodes, kids, n, Array(items)) && AllPrintable(items)
    ensures r == out + Print(Array(items), Compact, 0)
    decreases items, 1
  {
    hide Print, PrintItems, CompactItemsFrom, Tree, NodeAt;
    TreeLinks(nodes, kids, n, Array(items));
    r := out + [OPEN_BRACKET];
    ghost var goal := CompactItemsFrom(items, 0);
    var element := n.head;
    TreeItem(nodes, kids, n, items, 0, element);
    ghost var i := 0;
    while element != null
      invariant i <= |items| && element == NodeAt(kids[n], i) && Tree(nodes, kids, n, Array(items))
      invariant element == null <==> i == |items|
      invariant r + CompactItemsFrom(items, i) == out + [OPEN_BRACKET] + goal
      decreases |items| - i
    {
      ghost var before := r;
      TreeItem(nodes, kids, n, items, i, element);
      CompactItems(items, i);
      r := EmitValue(r, element, nodes, kids, items[i]);
      if element.next != null { r := r + [COMMA]; }
      i := i + 1;
      Behind(before, Print(items[i - 1], Compact, 0), CompactItemsFrom(items, i));
      if i == |items| { CompactItemsEnd(items); }
      element := element.next;
      TreeItem(nodes, kids, n, items, i, element);
    }
    assert r + [] == r;
    CompactItemsEnd(items);
    CompactArrayText(items);
    assert out + [OPEN_BRACKET] + goal + [CLOSE_BRACKET] == out + ([OPEN_BRACKET] + goal + [CLOSE_BRACKET]);
    r := r + [CLOSE_BRACKET];
  }

  /** Text behind an entry, with and without a comma. */
  lemma Behind(before: Text, entry: Text, more: Text)
    ensures (before + entry) + [] == before + (entry + [])
    ensures (before + entry + [COMMA]) + more == before + (entry + ([COMMA] + more))
  {}

  lemma CompactArrayText(items: seq<Json>)
    requires AllPrintable(items)
    ensures Print(Array(items), Compact, 0) ==
      [OPEN_BRACKET] + CompactItemsFrom(items, 0) + [CLOSE_BRACKET]
  {
    assert items[0..] == items;
    if items != [] { CompactItemsLevel(items, 1); }
  }

  method EmitObject(out: Text, n: JsonNode, ghost nodes: set<JsonNode>, ghost kids: map<JsonNode, seq<JsonNode>>,
                    ghost members: seq<Member>)
    returns (r: Text)
    requires Tree(nodes, kids, n, Object(members)) && AllPrintableMembers(members)
    ensures r == out + Print(Object(members), Compact, 0)
    decreases members, 1
  {
    hide Print, PrintMembers, CompactMembersFrom, PrintMember, Validate, Tree, NodeAt;
    TreeLinks(nodes, kids, n, Object(members));
    r := out + [OPEN_BRACE];
    ghost var goal := CompactMembersFrom(members, 0);
    var member := n.head;
    TreeMember(nodes, kids, n, members, 0, member);
    ghost var i := 0;
    while member != null
      invariant i <= |members| && member == NodeAt(kids[n], i) && Tree(nodes, kids, n, Object(members))
      invariant member == null <==> i == |members|
      invariant r + CompactMembersFrom(members, i) == out + [OPEN_BRACE] + goal
      decreases |members| - i
    {
      ghost var before := r;
      TreeMember(nodes, kids, n, members, i, member);
      CompactMembers(members, i);
      r := EmitMember(r, member, nodes, kids, members[i]);
      if member.next != null { r := r + [COMMA]; }
      i := i + 1;
      Behind(before, PrintMember(members[i - 1], Compact, 0), CompactMembersFrom(members, i));
      if i == |members| { CompactMembersEnd(members); }
      member := member.next;
      TreeMember(nodes, kids, n, members, i, member);
    }
    assert r + [] == r;
    CompactMembersEnd(members);
    CompactObjectText(members);
    assert out + [OPEN_BRACE] + goal + [CLOSE_BRACE] == out + ([OPEN_BRACE] + goal + [CLOSE_BRACE]);
    r := r + [CLOSE_BRACE];
  }

  /** One member in the compact layout: key, colon, value. */
  method EmitMember(out: Text, member: JsonNode, ghost nodes: set<JsonNode>, ghost kids: map<JsonNode, seq<JsonNode>>,
                    ghost m: Member)
    returns (r: Text)
    requires Tree(nodes, kids, member, m.value) && member.key == Some(m.key) && Validate(m.key) && Printable(m.value)
    ensures r == out + PrintMember(m, Compact, 0)
    decreases m, 0
  {
    hide Print, Validate, EmitString, Tree;
    assert m.value < m;
    var key := EmitStringLoop(member.key.value);
    KeyPrints(m.key);
    r := EmitValue(out + key.value + [COLON], member, nodes, kids, m.value);
  }

  lemma KeyPrints(key: Text)
    requires Validate(key)
    ensures EmitString(key).Some?
  {}

  ghost function CompactMembersFrom(members: seq<Member>, i: nat): Text
    requires i <= |members| && AllPrintableMembers(members)
  {
    if i == |members| then [] else PrintMembers(members[i..], Compact, 0)
  }

  lemma CompactMembers(members: seq<Member>, i: nat)
    requires i < |members| && AllPrintableMembers(members)
    ensures CompactMembersFrom(members, i) ==
      PrintMember(members[i], Compact, 0)
        + if i + 1 == |members| then [] else [COMMA] + CompactMembersFrom(members, i + 1)
  {
    hide PrintMember, Validate;
    assert members[i..][1..] == members[i + 1..];
  }

  lemma CompactMembersEnd(members: seq<Member>)
    requires AllPrintableMembers(members)
    ensures CompactMembersFrom(members, |members|) == []
  {}

  lemma CompactObjectText(members: seq<Member>)
    requires AllPrintableMembers(members)
    ensures Print(Object(members), Compact, 0) ==
      [OPEN_BRACE] + CompactMembersFrom(members, 0) + [CLOSE_BRACE]
  {
    hide Validate;
    assert members[0..] == members;
    if members != [] { CompactMembersLevel(members, 1); }
  }

  /** Writes the indentation unit `n` times. */
  method Indent(out: Text, space: Text, n: nat) returns (r: Text)
    ensures r == out + Repeat(space, n)
  {
    r := out;
    var i := 0;
    while i < n
      invariant i <= n && r + Repeat(space, n - i) == out + Repeat(space, n)
    {
      assert r + (space + Repeat(space, n - i - 1)) == (r + space) + Repeat(space, n - i - 1);
      r := r + space;
      i := i + 1;
    }
    assert r + [] == r;
  }

  /** Prints the value of a node in the indented layout to the end of `out`. */
  method EmitIndented(out: Text, n: JsonNode, space: Text, level: nat, ghost nodes: set<JsonNode>,
                      ghost kids: map<JsonNode, seq<JsonNode>>, ghost v: Json)
    returns (r: Text)
    requires Tree(nodes, kids, n, v) && Printable(v)
    ensures r == out + Print(v, Indented(space), level)
    decreases v, 0
  {
    hide Tree;
    TreeLabel(nodes, kids, n, v);
    match n.tag {
      case NullTag => r := out + NULL_WORD;
      case BoolTag => r := out + if n.flag then TRUE_WORD else FALSE_WORD;
      case NumberTag => r := out + n.text;
      case StringTag =>
        var e := EmitStringLoop(n.text);
        r := out + e.value;
      case ArrayTag => r := EmitArrayIndented(out, n, space, level, nodes, kids, v.items);
      case ObjectTag => r := EmitObjectIndented(out, n, space, level, nodes, kids, v.members);
    }
  }

  method EmitArrayIndented(out: Text, n: JsonNode, space: Text, level: nat, ghost nodes: set<JsonNode>,
                           ghost kids: map<JsonNode, seq<JsonNode>>,
                           ghost items: seq<Json>)
    returns (r: Text)
    requires Tree(nodes, kids, n, Array(items)) && AllPrintable(items)
    ensures r == out + Print(Array(items), Indented(space), level)
    decreases items, 1
  {
    hide Print, PrintItems, Repeat, Tree, NodeAt;
    TreeLinks(nodes, kids, n, Array(items));
    var element := n.head;
    TreeItem(nodes, kids, n, items, 0, element);
    if element == null {
      EmptyTexts(Indented(space), level);
      return out + [OPEN_BRACKET, CLOSE_BRACKET];
    }
    ghost var lay := Indented(space);
    r := out + [OPEN_BRACKET] + [0x0A];
    ghost var goal := out + [OPEN_BRACKET] + PrintItems(items, lay, level + 1) + [0x0A];
    assert items[0..] == items;
    IndentedItems(items, 0, space, level + 1);
    ghost var i := 0;
    while element != null
      invariant i <= |items| && element == NodeAt(kids[n], i) && Tree(nodes, kids, n, Array(items))
      invariant element == null <==> i == |items|
      invariant i < |items| ==> r + UnpaddedItems(items[i..], space, level + 1) + [0x0A] == goal
      invariant i == |items| ==> r == goal
      decreases |items| - i
    {
      ghost var before := r;
      TreeItem(nodes, kids, n, items, i, element);
      UnpaddedItemsStep(items, i, space, level + 1);
      r := Indent(r, space, level + 1);
      r := EmitIndented(r, element, space, level + 1, nodes, kids, items[i]);
      element := element.next;
      i := i + 1;
      TreeItem(nodes, kids, n, items, i, element);
      r := r + if element != null then [COMMA, 0x0A] else [0x0A];
      assert i < |items| ==>
          r + UnpaddedItems(items[i..], space, level + 1) + [0x0A] ==
          before + UnpaddedItems(items[i - 1..], space, level + 1) + [0x0A];
      assert i == |items| ==> r == before + UnpaddedItems(items[i - 1..], space, level + 1) + [0x0A];
    }
    r := Indent(r, space, level);
    r := r + [CLOSE_BRACKET];
    IndentedArrayText(items, space, level);
  }

  /** Printed items without the newline before the first. */
  function UnpaddedItems(items: seq<Json>, space: Text, level: nat): Text
    requires items != [] && AllPrintable(items)
  {
    PrintItems(items, Indented(space), level)[1..]
  }

  lemma IndentedItems(items: seq<Json>, i: nat, space: Text, level: nat)
    requires i < |items| && AllPrintable(items)
    ensures PrintItems(items[i..], Indented(space), level) == [0x0A] + UnpaddedItems(items[i..], space, level)
  {
    hide Print, Repeat;
  }

  lemma UnpaddedItemsStep(items: seq<Json>, i: nat, space: Text, level: nat)
    requires i < |items| && AllPrintable(items)
    ensures UnpaddedItems(items[i..], space, level) ==
      Repeat(space, level) + Print(items[i], Indented(space), level)
      + if i + 1 == |items| then [] else [COMMA, 0x0A] + UnpaddedItems(items[i + 1..], space, level)
  {
    hide Print, Repeat;
    assert items[i..][1..] == items[i + 1..];
    if i + 1 < |items| { IndentedItems(items, i + 1, space, level); }
  }

  lemma EmptyTexts(lay: Layout, level: nat)
    ensures Print(Array([]), lay, level) == [OPEN_BRACKET, CLOSE_BRACKET]
    ensures Print(Object([]), lay, level) == [OPEN_BRACE, CLOSE_BRACE]
  {}

  lemma IndentedArrayText(items: seq<Json>, space: Text, level: nat)
    requires items != [] && AllPrintable(items)
    ensures Print(Array(items), Indented(space), level) ==
      [OPEN_BRACKET] + PrintItems(items, Indented(space), level + 1) + [0x0A] + Repeat(space, level) + [CLOSE_BRACKET]
  {
    hide PrintItems, Repeat;
  }

  method EmitObjectIndented(out: Text, n: JsonNode, space: Text, level: nat, ghost nodes: set<JsonNode>,
                            ghost kids: map<JsonNode, seq<JsonNode>>,
                            ghost members: seq<Member>)
    returns (r: Text)
    requires Tree(nodes, kids, n, Object(members)) && AllPrintableMembers(members)
    ensures r == out + Print(Object(members), Indented(space), level)
    decreases members, 1
  {
    hide Print, PrintMembers, PrintMember, Repeat, Validate, Tree, NodeAt;
    TreeLinks(nodes, kids, n, Object(members));
    var member := n.head;
    TreeMember(nodes, kids, n, members, 0, member);
    if member == null {
      EmptyTexts(Indented(space), level);
      return out + [OPEN_BRACE, CLOSE_BRACE];
    }
    ghost var lay := Indented(space);
    r := out + [OPEN_BRACE] + [0x0A];
    ghost var goal := out + [OPEN_BRACE] + PrintMembers(members, lay, level + 1) + [0x0A];
    assert members[0..] == members;
    IndentedMembers(members, 0, space, level + 1);
    ghost var i := 0;
    while member != null
      invariant i <= |members| && member == NodeAt(kids[n], i) && Tree(nodes, kids, n, Object(members))
      invariant member == null <==> i == |members|
      invariant i < |members| ==> r + UnpaddedMembers(members[i..], space, level + 1) + [0x0A] == goal
      invariant i == |members| ==> r == goal
      decreases |members| - i
    {
      ghost var before := r;
      TreeMember(nodes, kids, n, members, i, member);
      UnpaddedMembersStep(members, i, space, level + 1);
      r := Indent(r, space, level + 1);
      r := EmitMemberIndented(r, member, space, level + 1, nodes, kids, members[i]);
      member := member.next;
      i := i + 1;
      TreeMember(nodes, kids, n, members, i, member);
      r := r + if member != null then [COMMA, 0x0A] else [0x0A];
      assert i < |members| ==>
          r + UnpaddedMembers(members[i..], space, level + 1) + [0x0A] ==
          before + UnpaddedMembers(members[i - 1..], space, level + 1) + [0x0A];
      assert i == |members| ==> r == before + UnpaddedMembers(members[i - 1..], space, level + 1) + [0x0A];
    }
    r := Indent(r, space, level);
    r := r + [CLOSE_BRACE];
    IndentedObjectText(members, space, level);
  }

  /** One member in the indented layout: key, colon, space, value. */
  method EmitMemberIndented(out: Text, member: JsonNode, space: Text, level: nat, ghost nodes: set<JsonNode>,
                            ghost kids: map<JsonNode, seq<JsonNode>>, ghost m: Member)
    returns (r: Text)
    requires Tree(nodes, kids, member, m.value) && member.key == Some(m.key) && Validate(m.key) && Printable(m.value)
    ensures r == out + PrintMember(m, Indented(space), level)
    decreases m, 0
  {
    hide Print, Validate, EmitString, Tree;
    assert m.value < m;
    var key := EmitStringLoop(member.key.value);
    KeyPrints(m.key);
    r := EmitIndented(out + key.value + [COLON, 0x20], member, space, level, nodes, kids, m.value);
  }

  function UnpaddedMembers(members: seq<Member>, space: Text, level: nat): Text
    requires members != [] && AllPrintableMembers(members)
  {
    PrintMembers(members, Indented(space), level)[1..]
  }

  lemma IndentedMembers(members: seq<Member>, i: nat, space: Text, level: nat)
    requires i < |members| && AllPrintableMembers(members)
    ensures PrintMembers(members[i..], Indented(space), level) == [0x0A] + UnpaddedMembers(members[i..], space, level)
  {
    hide Print, Repeat, PrintMember, Validate;
  }

  lemma UnpaddedMembersStep(members: seq<Member>, i: nat, space: Text, level: nat)
    requires i < |members| && AllPrintableMembers(members)
    ensures UnpaddedMembers(members[i..], space, level) ==
      Repeat(space, level) + PrintMember(members[i], Indented(space), level)
      + if i + 1 == |members| then [] else [COMMA, 0x0A] + UnpaddedMembers(members[i + 1..], space, level)
  {
    hide PrintMember, Repeat, Validate;
    assert members[i..][1..] == members[i + 1..];
    if i + 1 < |members| { IndentedMembers(members, i + 1, space, level); }
  }

  lemma IndentedObjectText(members: seq<Member>, space: Text, level: nat)
    requires members != [] && AllPrintableMembers(members)
    ensures Print(Object(members), Indented(space), level) ==
      [OPEN_BRACE] + PrintMembers(members, Indented(space), level + 1) + [0x0A] + Repeat(space, level) + [CLOSE_BRACE]
  {
    hide PrintMembers, Repeat, Validate;
  }
}
