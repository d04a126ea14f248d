/** The value a node tree stands for, and what linking trees together does to it. */
module JsonTrees {
  import opened Options
  import opened JsonUtf8
  import opened JsonText
  import opened JsonNodes
  import opened JsonCheck

  /** What a node says itself, apart from its links. */
  datatype Label = Label(tag: Tag, flag: bool, text: Text, key: Option<Text>)

  ghost function Labels(nodes: set<JsonNode>): map<JsonNode, Label>
    reads nodes`tag, nodes`flag, nodes`text, nodes`key
  {
    map x | x in nodes :: Label(x.tag, x.flag, x.text, x.key)
  }

  /** Node `n`, with its child lists, stands for the value `v`: children in order, members under their keys. */
  ghost predicate Depicts(labels: map<JsonNode, Label>, kids: map<JsonNode, seq<JsonNode>>, n: JsonNode, v: Json)
    decreases v
  {
    n in labels && n in kids
    && match v
       case Null => labels[n].tag.NullTag?
       case Bool(b) => labels[n].tag.BoolTag? && labels[n].flag == b
       case Number(lexeme) => labels[n].tag.NumberTag? && labels[n].text == lexeme
       case String(s) => labels[n].tag.StringTag? && labels[n].text == s
       case Array(items) =>
         labels[n].tag.ArrayTag? && |kids[n]| == |items|
         && forall i :: 0 <= i < |items| ==> Depicts(labels, kids, kids[n][i], items[i])
       case Object(members) =>
         labels[n].tag.ObjectTag? && |kids[n]| == |members|
         && forall i :: 0 <= i < |members| ==>
              Keyed(labels, kids[n][i], members[i].key) && Depicts(labels, kids, kids[n][i], members[i].value)
  }

  ghost predicate Keyed(labels: map<JsonNode, Label>, n: JsonNode, key: Text) {
    n in labels && labels[n].key == Some(key)
  }

  /** A forest without cycles in which `n` stands for `v`. */
  ghost predicate Tree(nodes: set<JsonNode>, kids: map<JsonNode, seq<JsonNode>>, n: JsonNode, v: Json)
    reads nodes
  {
    Forest(nodes, kids) && Acyclic(Parents(nodes)) && n in nodes && Depicts(Labels(nodes), kids, n, v)
  }

  /** A tree of its own, without parent. */
  ghost predicate Rooted(nodes: set<JsonNode>, kids: map<JsonNode, seq<JsonNode>>, n: JsonNode, v: Json)
    reads nodes
  {
    Tree(nodes, kids, n, v) && n.parent == null
  }

  /** A tree keeps its value when nothing below its root changes but links outside it; the root's own key is no
      part of its value. */
  lemma {:induction false} DepictsKept(labels: map<JsonNode, Label>, kids: map<JsonNode, seq<JsonNode>>,
                                       labels': map<JsonNode, Label>, kids': map<JsonNode, seq<JsonNode>>,
                                       nodes: set<JsonNode>, n: JsonNode, v: Json)
    requires Depicts(labels, kids, n, v) && n in nodes && nodes <= labels'.Keys && nodes <= labels.Keys
    requires nodes <= kids.Keys && nodes <= kids'.Keys
    requires forall x :: x in nodes ==> kids'[x] == kids[x]
    requires forall x, i :: x in nodes && 0 <= i < |kids[x]| ==>
               kids[x][i] in nodes && labels'[kids[x][i]] == labels[kids[x][i]]
    requires forall x :: x in nodes ==> labels'[x].(key := None) == labels[x].(key := None)
    ensures Depicts(labels', kids', n, v)
    decreases v
  {
    assert labels'[n].(key := None) == labels[n].(key := None);
    match v
    case Array(items) =>
      forall i | 0 <= i < |items| ensures Depicts(labels', kids', kids[n][i], items[i]) {
        DepictsKept(labels, kids, labels', kids', nodes, kids[n][i], items[i]);
      }
    case Object(members) =>
      forall i | 0 <= i < |members|
        ensures Keyed(labels', kids[n][i], members[i].key) && Depicts(labels', kids', kids[n][i], members[i].value)
      {
        assert Keyed(labels, kids[n][i], members[i].key);
        assert members[i].value < members[i];
        DepictsKept(labels, kids, labels', kids', nodes, kids[n][i], members[i].value);
      }
    case _ =>
  }

  // ---------- Two forests side by side ----------

  lemma ForestUnion(nodes: set<JsonNode>, kids: map<JsonNode, seq<JsonNode>>, more: set<JsonNode>,
                    kids': map<JsonNode, seq<JsonNode>>)
    requires Forest(nodes, kids) && Forest(more, kids') && nodes !! more
    ensures Forest(nodes + more, kids + kids')
  {
    hide Children;
  }

  lemma {:induction false} UpInside(par: map<JsonNode, JsonNode?>, all: map<JsonNode, JsonNode?>, x: JsonNode?, k: nat)
    requires par.Keys <= all.Keys && forall y :: y in par ==> all[y] == par[y] && OneOf(par.Keys, par[y])
    requires OneOf(par.Keys, x)
    ensures Up(all, x, k) == Up(par, x, k)
    decreases k
  {
    if k > 0 && x != null { UpInside(par, all, par[x], k - 1); }
  }

  lemma AcyclicUnion(nodes: set<JsonNode>, more: set<JsonNode>)
    requires Closed(nodes) && Closed(more) && nodes !! more && Acyclic(Parents(nodes)) && Acyclic(Parents(more))
    ensures Acyclic(Parents(nodes + more))
  {
    var all := Parents(nodes + more);
    forall x | x in all ensures !OwnAncestor(all, x) {
      var par := if x in nodes then Parents(nodes) else Parents(more);
      forall k ensures Up(all, x, k) == Up(par, x, k) { UpInside(par, all, x, k); }
    }
  }

  /** A root has only itself above it. */
  lemma RootNotBelow(par: map<JsonNode, JsonNode?>, root: JsonNode, c: JsonNode)
    requires root in par && par[root] == null && c != root
    ensures !Above(par, c, root)
  {
    forall k: nat ensures Up(par, root, k) != c {
      if k > 0 { assert Up(par, root, k) == Up(par, par[root], k - 1); }
    }
  }

  // ---------- Growing a tree ----------

  ghost predicate IsBranchValue(w: Json, key: Option<Text>) { if key.Some? then w.Object? else w.Array? }

  /** The value with one more item or member at its end. */
  ghost function Extended(w: Json, key: Option<Text>, v: Json): Json
    requires IsBranchValue(w, key)
  {
    match w case Array(items) => Array(items + [v]) case Object(members) => Object(members + [Member(key.value, v)])
  }

  /** No list holds a node without parent. */
  lemma RootsUnlisted(nodes: set<JsonNode>, kids: map<JsonNode, seq<JsonNode>>, root: JsonNode)
    requires Forest(nodes, kids) && root.parent == null
    ensures kids.Keys == nodes
    ensures forall x, i :: x in nodes && 0 <= i < |kids[x]| ==> kids[x][i] in nodes && kids[x][i] != root
  {
    hide Children;
    forall x, i | x in nodes && 0 <= i < |kids[x]| ensures kids[x][i] in nodes && kids[x][i] != root {
      EndsListed(x, kids[x]);
      assert kids[x][i] in kids[x];
    }
  }

  /** The values of both trees, put together. */
  lemma Joined(labels: map<JsonNode, Label>, kids: map<JsonNode, seq<JsonNode>>, p: JsonNode, w: Json,
               labels': map<JsonNode, Label>, kids': map<JsonNode, seq<JsonNode>>, c: JsonNode, v: Json,
               key: Option<Text>)
    requires labels.Keys == kids.Keys && labels'.Keys == kids'.Keys && kids.Keys !! kids'.Keys
    requires Depicts(labels, kids, p, w) && Depicts(labels', kids', c, v) && IsBranchValue(w, key)
    requires forall x, i :: x in kids && 0 <= i < |kids[x]| ==> kids[x][i] in kids && kids[x][i] != p
    requires forall x, i :: x in kids' && 0 <= i < |kids'[x]| ==> kids'[x][i] in kids' && kids'[x][i] != c
    ensures Depicts((labels + labels')[c := labels'[c].(key := key)], (kids + kids')[p := kids[p] + [c]], p,
                    Extended(w, key, v))
  {
    var all, lists := (labels + labels')[c := labels'[c].(key := key)], (kids + kids')[p := kids[p] + [c]];
    DepictsKept(labels', kids', all, lists, kids'.Keys, c, v);
    match w
    case Array(items) =>
      forall i | 0 <= i < |items| + 1 ensures Depicts(all, lists, lists[p][i], (items + [v])[i]) {
        if i < |items| { DepictsKept(labels, kids, all, lists, kids.Keys - {p}, kids[p][i], items[i]); }
      }
    case Object(members) =>
      var ms := members + [Member(key.value, v)];
      forall i | 0 <= i < |members| + 1
        ensures Keyed(all, lists[p][i], ms[i].key) && Depicts(all, lists, lists[p][i], ms[i].value)
      {
        if i < |members| {
          assert Keyed(labels, kids[p][i], members[i].key);
          DepictsKept(labels, kids, all, lists, kids.Keys - {p}, kids[p][i], members[i].value);
        }
      }
  }

  ghost function Merge(kids: map<JsonNode, seq<JsonNode>>, kids': map<JsonNode, seq<JsonNode>>, p: JsonNode,
                       c: JsonNode): map<JsonNode, seq<JsonNode>>
    requires p in kids
  {
    (kids + kids')[p := kids[p] + [c]]
  }

  /** Appends the tree of `c` to the array or object `p`, as an item or under a key. */
  method Adopt(p: JsonNode, key: Option<Text>, c: JsonNode, ghost nodes: set<JsonNode>,
               ghost kids: map<JsonNode, seq<JsonNode>>, ghost w: Json,
               ghost more: set<JsonNode>, ghost kids': map<JsonNode, seq<JsonNode>>, ghost v: Json)
    requires Rooted(nodes, kids, p, w) && Rooted(more, kids', c, v) && nodes !! more && IsBranchValue(w, key)
    modifies nodes, more
    ensures p in kids && Rooted(nodes + more, Merge(kids, kids', p, c), p, Extended(w, key, v))
  {
    hide Forest, Acyclic, Above, Closed, Depicts, Extended;
    ghost var labels, labels' := Labels(nodes), Labels(more);
    RootsUnlisted(nodes, kids, p);
    RootsUnlisted(more, kids', c);
    ForestClosed(nodes, kids);
    ForestClosed(more, kids');
    ForestUnion(nodes, kids, more, kids');
    AcyclicUnion(nodes, more);
    RootNotBelow(Parents(nodes + more), p, c);
    BranchTag(labels, kids, p, w, key);
    Joined(labels, kids, p, w, labels', kids', c, v, key);
    Append(p, key, c, nodes + more, kids + kids');
    assert Labels(nodes + more) == (labels + labels')[c := labels'[c].(key := key)];
  }

  lemma BranchTag(labels: map<JsonNode, Label>, kids: map<JsonNode, seq<JsonNode>>, p: JsonNode, w: Json,
                  key: Option<Text>)
    requires Depicts(labels, kids, p, w) && IsBranchValue(w, key)
    ensures p in labels && if key.Some? then labels[p].tag.ObjectTag? else labels[p].tag.ArrayTag?
  {}

  // ---------- Reading a tree ----------

  /** The links a walk over the children of `n` follows. */
  lemma TreeLinks(nodes: set<JsonNode>, kids: map<JsonNode, seq<JsonNode>>, n: JsonNode, v: Json)
    requires Tree(nodes, kids, n, v)
    ensures n in kids && n.head == NodeAt(kids[n], 0)
    ensures forall i :: 0 <= i < |kids[n]| ==> kids[n][i].next == NodeAt(kids[n], i + 1)
  {
    hide Depicts, Acyclic;
    assert Children(n, kids[n]);
  }

  /** Child `i` of an array, met on a walk over its children. */
  lemma TreeItem(nodes: set<JsonNode>, kids: map<JsonNode, seq<JsonNode>>, n: JsonNode, items: seq<Json>, i: nat,
                 here: JsonNode?)
    requires Tree(nodes, kids, n, Array(items)) && n in kids && i <= |items| && here == NodeAt(kids[n], i)
    ensures here == null <==> i == |items|
    ensures here != null ==>
              && Tree(nodes, kids, here, items[i]) && here.next == NodeAt(kids[n], i + 1)
              && (here.next == null <==> i + 1 == |items|)
  {
    hide Forest, Acyclic;
    TreeLinks(nodes, kids, n, Array(items));
    TreeLabel(nodes, kids, n, Array(items));
    assert i < |items| ==> Depicts(Labels(nodes), kids, kids[n][i], items[i]);
  }

  /** Child `i` of an object, met on a walk over its children. */
  lemma TreeMember(nodes: set<JsonNode>, kids: map<JsonNode, seq<JsonNode>>, n: JsonNode, members: seq<Member>,
                   i: nat, here: JsonNode?)
    requires Tree(nodes, kids, n, Object(members)) && n in kids && i <= |members| && here == NodeAt(kids[n], i)
    ensures here == null <==> i == |members|
    ensures here != null ==>
              Tree(nodes, kids, here, members[i].value) && here.key == Some(members[i].key)
              && here.next == NodeAt(kids[n], i + 1) && (here.next == null <==> i + 1 == |members|)
  {
    hide Forest, Acyclic;
    TreeLinks(nodes, kids, n, Object(members));
    TreeLabel(nodes, kids, n, Object(members));
    assert i < |members| ==> Keyed(Labels(nodes), kids[n][i], members[i].key);
    assert i < |members| ==> Depicts(Labels(nodes), kids, kids[n][i], members[i].value);
  }

  /** A node says what kind of value it stands for, and a leaf says the value. */
  lemma TreeLabel(nodes: set<JsonNode>, kids: map<JsonNode, seq<JsonNode>>, n: JsonNode, v: Json)
    requires Tree(nodes, kids, n, v)
    ensures match v
            case Null => n.tag.NullTag?
            case Bool(b) => n.tag.BoolTag? && n.flag == b
            case Number(lexeme) => n.tag.NumberTag? && n.text == lexeme
            case String(s) => n.tag.StringTag? && n.text == s
            case Array(items) => n.tag.ArrayTag? && n in kids && |kids[n]| == |items|
            case Object(members) => n.tag.ObjectTag? && n in kids && |kids[n]| == |members|
  {
    hide Forest, Acyclic;
    assert n in Labels(nodes);
  }

  // ---------- Texts ----------

  /** A node that stands for a value a text can hold has valid texts. */
  lemma DepictsTexts(nodes: set<JsonNode>, kids: map<JsonNode, seq<JsonNode>>, n: JsonNode, v: Json)
    requires n in nodes && Depicts(Labels(nodes), kids, n, v) && Good(v)
    requires n.key.Some? ==> Validate(n.key.value)
    ensures TextFits(n)
  {
    hide Validate;
    assert Labels(nodes)[n].tag == n.tag && Labels(nodes)[n].text == n.text;
  }

  /** A child stands for a value a text can hold, too, and has a valid key. */
  lemma DepictsChild(nodes: set<JsonNode>, kids: map<JsonNode, seq<JsonNode>>, n: JsonNode, v: Json, c: JsonNode)
    returns (w: Json)
    requires Forest(nodes, kids) && n in nodes && c in nodes && c in kids[n] && c.parent == n
    requires Depicts(Labels(nodes), kids, n, v) && Good(v)
    ensures Depicts(Labels(nodes), kids, c, w) && Good(w) && (c.key.Some? ==> Validate(c.key.value))
  {
    hide AllLists, Listed, Validate;
    var j :| 0 <= j < |kids[n]| && kids[n][j] == c;
    assert Labels(nodes)[n].tag == n.tag;
    ForestList(nodes, kids, n);
    assert IsBranch(n);
    match v
    case Array(items) => w := items[j];
    case Object(members) =>
      w := members[j].value;
      assert Keyed(Labels(nodes), c, members[j].key);
  }

  lemma {:induction false} TreeTexts(nodes: set<JsonNode>, kids: map<JsonNode, seq<JsonNode>>, n: JsonNode, v: Json,
                                     y: JsonNode, i: nat)
    requires Forest(nodes, kids) && n in nodes && y in nodes && Up(Parents(nodes), y, i) == n
    requires Depicts(Labels(nodes), kids, n, v) && Good(v) && (n.key.Some? ==> Validate(n.key.value))
    ensures TextFits(y)
    decreases i
  {
    hide Forest, Depicts, Good, Validate, TextFits;
    if i == 0 {
      DepictsTexts(nodes, kids, n, v);
    } else {
      var par := Parents(nodes);
      UpAdd(par, y, i - 1, 1);
      var c: JsonNode := Up(par, y, i - 1);
      assert c in nodes && c.parent == n;
      InList(nodes, kids, c, n);
      ForestList(nodes, kids, n);
      var w := DepictsChild(nodes, kids, n, v, c);
      TreeTexts(nodes, kids, c, w, y, i - 1);
    }
  }
}
