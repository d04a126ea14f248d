/** The doubly linked child lists of the JSON node tree. */
module JsonNodes {
  import opened Options
  import opened JsonUtf8

  datatype Tag = NullTag | BoolTag | StringTag | NumberTag | ArrayTag | ObjectTag

  class JsonNode {
    var tag: Tag
    var key: Option<Text>
    var flag: bool            // the value of a boolean
    var text: Text            // the value of a string, the lexeme of a number
    var parent: JsonNode?
    var prev: JsonNode?
    var next: JsonNode?
    var head: JsonNode?
    var tail: JsonNode?

    /** A detached node without children. */
    constructor (tag: Tag, flag: bool, text: Text)
      ensures this.tag == tag && this.flag == flag && this.text == text && key.None?
      ensures parent == null && prev == null && next == null && head == null && tail == null
    {
      this.tag, this.flag, this.text := tag, flag, text;
      key := None;
      parent, prev, next, head, tail := null, null, null, null, null;
    }
  }

  ghost function NodeAt(s: seq<JsonNode>, i: int): JsonNode? { if 0 <= i < |s| then s[i] else null }

  /** The child list of `p` is the sequence `ks`: head and tail are its ends, neighbours point at each
      other, every child points back to `p`, and no node occurs twice. */
  ghost predicate Children(p: JsonNode, ks: seq<JsonNode>)
    reads p`head, p`tail, ks`parent, ks`prev, ks`next
  {
    && p.head == NodeAt(ks, 0) && p.tail == NodeAt(ks, |ks| - 1)
    && (forall i {:trigger ks[i].parent} :: 0 <= i < |ks| ==> ks[i].parent == p)
    && (forall i {:trigger ks[i].prev} :: 0 <= i < |ks| ==> ks[i].prev == NodeAt(ks, i - 1))
    && (forall i {:trigger ks[i].next} :: 0 <= i < |ks| ==> ks[i].next == NodeAt(ks, i + 1))
    && (forall i, j :: 0 <= i < j < |ks| ==> ks[i] != ks[j])
  }

  /** Every one of `nodes` has the child list that `kids` gives for it. */
  ghost predicate AllLists(nodes: set<JsonNode>, kids: map<JsonNode, seq<JsonNode>>)
    reads nodes`head, nodes`tail, nodes`parent, nodes`prev, nodes`next
  {
    && kids.Keys == nodes
    && (forall q, i :: q in nodes && 0 <= i < |kids[q]| ==> kids[q][i] in nodes)
    && (forall q :: q in nodes ==> Children(q, kids[q]))
  }

  /** Every node with a parent is in the parent's list. */
  ghost predicate Listed(nodes: set<JsonNode>, kids: map<JsonNode, seq<JsonNode>>)
    requires kids.Keys == nodes
    reads nodes`parent
  {
    forall c :: c in nodes && c.parent != null ==> c.parent in nodes && c in kids[c.parent]
  }

  ghost function Ends(n: JsonNode?): set<JsonNode> { if n == null then {} else {n} }

  // ---------- One list ----------

  method LinkLast(p: JsonNode, c: JsonNode, ghost ks: seq<JsonNode>)
    requires Children(p, ks) && c !in ks
    modifies p`head, p`tail, c`parent, c`prev, c`next, Ends(p.tail)`next
    ensures Children(p, ks + [c]) && c.parent == p
  {
    c.parent := p;
    c.prev := p.tail;
    c.next := null;
    if p.tail != null {
      p.tail.next := c;
    } else {
      p.head := c;
    }
    p.tail := c;
  }

  method LinkFirst(p: JsonNode, c: JsonNode, ghost ks: seq<JsonNode>)
    requires Children(p, ks) && c !in ks
    modifies p`head, p`tail, c`parent, c`prev, c`next, Ends(p.head)`prev
    ensures Children(p, [c] + ks) && c.parent == p
  {
    c.parent := p;
    c.prev := null;
    c.next := p.head;
    if p.head != null {
      p.head.prev := c;
    } else {
      p.tail := c;
    }
    p.head := c;
  }

  /** The links of a list from which entry `i` has been taken out. */
  ghost predicate Skipped(p: JsonNode, ks: seq<JsonNode>, i: nat)
    requires i < |ks|
    reads p, ks
  {
    && p.head == (if i == 0 then NodeAt(ks, 1) else ks[0])
    && p.tail == (if i == |ks| - 1 then NodeAt(ks, i - 1) else ks[|ks| - 1])
    && (forall j {:trigger ks[j].parent} :: 0 <= j < |ks| && j != i ==> ks[j].parent == p)
    && (forall j {:trigger ks[j].prev} :: 0 <= j < |ks| && j != i ==>
         ks[j].prev == NodeAt(ks, if j == i + 1 then i - 1 else j - 1))
    && (forall j {:trigger ks[j].next} :: 0 <= j < |ks| && j != i ==>
         ks[j].next == NodeAt(ks, if j == i - 1 then i + 1 else j + 1))
    && (forall j, k :: 0 <= j < k < |ks| ==> ks[j] != ks[k])
  }

  ghost function Without(ks: seq<JsonNode>, i: nat): (r: seq<JsonNode>)
    requires i < |ks|
    ensures |r| == |ks| - 1 && forall j :: 0 <= j < |r| ==> r[j] == ks[if j < i then j else j + 1]
    ensures forall x :: x in r ==> x in ks
    ensures forall x :: x in ks && x != ks[i] ==> x in r
  {
    ks[..i] + ks[i + 1..]
  }

  ghost function IndexOf(ks: seq<JsonNode>, c: JsonNode): (i: nat)
    requires c in ks
    ensures i < |ks| && ks[i] == c
  {
    if ks[0] == c then 0 else IndexOf(ks[1..], c) + 1
  }

  lemma WithoutAt(ks: seq<JsonNode>, i: nat, j: int)
    requires i < |ks|
    ensures NodeAt(Without(ks, i), j) == NodeAt(ks, if j < i then j else j + 1)
  {}

  lemma SkippedLinks(p: JsonNode, ks: seq<JsonNode>, i: nat, j: nat)
    requires i < |ks| && Skipped(p, ks, i) && j < |Without(ks, i)|
    ensures var r := Without(ks, i);
            r[j] in ks && r[j].parent == p && r[j].prev == NodeAt(r, j - 1) && r[j].next == NodeAt(r, j + 1)
  {
    hide Without, NodeAt;
    var k := if j < i then j else j + 1;
    assert Without(ks, i)[j] == ks[k];
    assert ks[k].parent == p && ks[k].prev == NodeAt(ks, if k == i + 1 then i - 1 else k - 1);
    WithoutAt(ks, i, j - 1);
    WithoutAt(ks, i, j + 1);
  }

  lemma SkippedIsChildren(p: JsonNode, ks: seq<JsonNode>, i: nat)
    requires i < |ks| && Skipped(p, ks, i)
    ensures Children(p, Without(ks, i))
  {
    hide Without, NodeAt, Skipped;
    var r := Without(ks, i);
    forall j | 0 <= j < |r|
      ensures r[j] in ks && r[j].parent == p && r[j].prev == NodeAt(r, j - 1) && r[j].next == NodeAt(r, j + 1)
    {
      SkippedLinks(p, ks, i, j);
    }
    SkippedEnds(p, ks, i);
  }

  lemma SkippedEnds(p: JsonNode, ks: seq<JsonNode>, i: nat)
    requires i < |ks| && Skipped(p, ks, i)
    ensures var r := Without(ks, i); p.head == NodeAt(r, 0) && p.tail == NodeAt(r, |r| - 1)
    ensures forall j, k :: 0 <= j < k < |Without(ks, i)| ==> Without(ks, i)[j] != Without(ks, i)[k]
  {
    WithoutAt(ks, i, 0);
    WithoutAt(ks, i, |ks| - 2);
  }

  /** Takes entry `i` out of the list and detaches it. */
  method Unlink(c: JsonNode, p: JsonNode, ghost ks: seq<JsonNode>, ghost i: nat)
    requires Children(p, ks) && i < |ks| && ks[i] == c
    modifies p`head, p`tail, c`parent, c`prev, c`next, c`key, Ends(c.prev)`next, Ends(c.next)`prev
    ensures Children(p, Without(ks, i))
    ensures c.parent == null && c.prev == null && c.next == null && c.key.None?
  {
    hide Without;
    assert c.prev == NodeAt(ks, i - 1) && c.next == NodeAt(ks, i + 1);
    assert forall j :: 0 <= j < |ks| && j != i ==> ks[j] != c;
    if c.prev != null {
      c.prev.next := c.next;
    } else {
      p.head := c.next;
    }
    if c.next != null {
      c.next.prev := c.prev;
    } else {
      p.tail := c.prev;
    }
    assert Skipped(p, ks, i);
    c.parent := null;
    c.prev := null;
    c.next := null;
    c.key := None;
    SkippedIsChildren(p, ks, i);
  }

  // ---------- Parents ----------

  ghost function Parents(nodes: set<JsonNode>): map<JsonNode, JsonNode?>
    reads nodes`parent
  {
    map x | x in nodes :: x.parent
  }

  /** The node reached from `x` by `k` parent links. */
  ghost function Up(par: map<JsonNode, JsonNode?>, x: JsonNode?, k: nat): JsonNode? {
    if k == 0 || x == null then x else if x in par then Up(par, par[x], k - 1) else null
  }

  /** `x` is met again by following parent links from it. */
  ghost predicate OwnAncestor(par: map<JsonNode, JsonNode?>, x: JsonNode) { exists k :: k > 0 && Up(par, x, k) == x }

  ghost predicate Acyclic(par: map<JsonNode, JsonNode?>) { forall x :: x in par ==> !OwnAncestor(par, x) }

  ghost predicate Above(par: map<JsonNode, JsonNode?>, a: JsonNode, x: JsonNode) { exists k :: Up(par, x, k) == a }

  lemma {:induction false} UpAdd(par: map<JsonNode, JsonNode?>, x: JsonNode?, i: nat, j: nat)
    ensures Up(par, x, i + j) == Up(par, Up(par, x, i), j)
    decreases i
  {
    if i > 0 && x != null && x in par { UpAdd(par, par[x], i - 1, j); }
  }

  lemma {:induction false} UpSame(par: map<JsonNode, JsonNode?>, c: JsonNode, v: JsonNode?, x: JsonNode?, k: nat)
    requires c in par && forall i :: 0 <= i < k ==> Up(par, x, i) != c
    ensures Up(par[c := v], x, k) == Up(par, x, k)
    decreases k
  {
    if k > 0 && x != null && x in par {
      assert Up(par, x, 0) == x;
      forall i | 0 <= i < k - 1 ensures Up(par, par[x], i) != c { assert Up(par, x, i + 1) == Up(par, par[x], i); }
      UpSame(par, c, v, par[x], k - 1);
    }
  }

  /** The first of the nodes from `x` up that is `c`. */
  lemma {:induction false} FirstHit(par: map<JsonNode, JsonNode?>, x: JsonNode?, c: JsonNode, k: nat) returns (i: nat)
    requires Up(par, x, k) == c
    ensures i <= k && Up(par, x, i) == c && forall j :: 0 <= j < i ==> Up(par, x, j) != c
    decreases k
  {
    if j :| 0 <= j < k && Up(par, x, j) == c {
      i := FirstHit(par, x, c, j);
    } else {
      i := k;
    }
  }

  /** Giving a detached node `c` the parent `p` keeps out cycles exactly when `c` is not `p` or above it. */
  lemma AttachedAcyclicIff(par: map<JsonNode, JsonNode?>, p: JsonNode, c: JsonNode)
    requires p in par && c in par && par[c] == null
    ensures Acyclic(par[c := p]) <==> Acyclic(par) && !Above(par, c, p)
  {
    if !Acyclic(par) {
      var x :| x in par && OwnAncestor(par, x);
      CycleKept(par, c, p, x);
    } else if k :| Up(par, p, k) == c {
      var i := FirstHit(par, p, c, k);
      UpSame(par, c, p, p, i);
      assert Up(par[c := p], c, i + 1) == Up(par[c := p], p, i);
    } else {
      forall x | x in par ensures !OwnAncestor(par[c := p], x) {
        if OwnAncestor(par[c := p], x) { NewCycle(par, p, c, x); }
      }
    }
  }

  lemma CycleKept(par: map<JsonNode, JsonNode?>, c: JsonNode, v: JsonNode?, x: JsonNode)
    requires c in par && par[c] == null && OwnAncestor(par, x)
    ensures OwnAncestor(par[c := v], x)
  {
    var k :| k > 0 && Up(par, x, k) == x;
    forall i | 0 <= i < k ensures Up(par, x, i) != c {
      UpAdd(par, x, i, k - i);
      assert Up(par, c, k - i) == null;
    }
    UpSame(par, c, v, x, k);
  }

  /** A cycle that attaching `c` below `p` makes runs through `p` up to `c`. */
  lemma NewCycle(par: map<JsonNode, JsonNode?>, p: JsonNode, c: JsonNode, x: JsonNode)
    requires p in par && c in par && par[c] == null && !OwnAncestor(par, x) && OwnAncestor(par[c := p], x)
    ensures Above(par, c, p)
  {
    var now := par[c := p];
    var k :| k > 0 && Up(now, x, k) == x;
    if forall i :: 0 <= i < k ==> Up(now, x, i) != c {
      assert now[c := null] == par;
      UpSame(now, c, null, x, k);
    } else {
      var i :| 0 <= i < k && Up(now, x, i) == c;
      UpAdd(now, x, i, k);
      UpAdd(now, x, k, i);
      assert Up(now, c, k) == c && Up(now, c, k) == Up(now, p, k - 1);
      var j := FirstHit(now, p, c, k - 1);
      assert now[c := null] == par;
      UpSame(now, c, null, p, j);
    }
  }

  lemma DetachedAcyclic(par: map<JsonNode, JsonNode?>, c: JsonNode)
    requires c in par && Acyclic(par)
    ensures Acyclic(par[c := null])
  {
    var now := par[c := null];
    assert now[c := par[c]] == par;
    forall x | x in now ensures !OwnAncestor(now, x) {
      if OwnAncestor(now, x) { CycleKept(now, c, par[c], x); }
    }
  }

  // ---------- The forest ----------

  /** Nodes under construction: child lists everywhere, only arrays and objects have children, exactly the
      members of objects carry a key, and nodes without a parent are in no list. */
  ghost predicate Forest(nodes: set<JsonNode>, kids: map<JsonNode, seq<JsonNode>>)
    reads nodes
  {
    && kids.Keys == nodes
    && AllLists(nodes, kids)
    && Listed(nodes, kids)
    && (forall c :: c in nodes ==> (c.key.Some? <==> c.parent != null && c.parent.tag.ObjectTag?))
    && (forall c :: c in nodes && c.parent == null ==> c.prev == null && c.next == null)
    && (forall c :: c in nodes && c.parent != null ==> c.parent.tag.ArrayTag? || c.parent.tag.ObjectTag?)
  }

  lemma ListsApart(nodes: set<JsonNode>, kids: map<JsonNode, seq<JsonNode>>, p: JsonNode, q: JsonNode)
    requires AllLists(nodes, kids) && p in nodes && q in nodes && p != q
    ensures forall x :: x in kids[p] ==> x !in kids[q]
  {
    EndsListed(p, kids[p]);
    EndsListed(q, kids[q]);
  }

  lemma EndsListed(p: JsonNode, ks: seq<JsonNode>)
    requires Children(p, ks)
    ensures p.head == null || p.head in ks
    ensures p.tail == null || p.tail in ks
    ensures forall k :: k in ks ==>
              k.parent == p && (k.prev == null || k.prev in ks) && (k.next == null || k.next in ks)
  {}

  method LinkLastAmong(p: JsonNode, c: JsonNode, ghost nodes: set<JsonNode>, ghost kids: map<JsonNode, seq<JsonNode>>)
    requires AllLists(nodes, kids) && p in nodes && c in nodes && c.parent == null
    modifies nodes`head, nodes`tail, nodes`prev, nodes`next, c`parent
    ensures AllLists(nodes, kids[p := kids[p] + [c]])
    ensures c.parent == p
    ensures forall x :: x in nodes && x != c && x.parent == null ==> x.prev == old(x.prev) && x.next == old(x.next)
  {
    hide Children, NodeAt;
    forall q | q in nodes ensures c !in kids[q] {
      EndsListed(q, kids[q]);
    }
    forall q | q in nodes && q != p ensures p.tail == null || p.tail !in kids[q] {
      ListsApart(nodes, kids, p, q);
      EndsListed(p, kids[p]);
    }
    EndsListed(p, kids[p]);
    LinkLast(p, c, kids[p]);
  }

  method LinkFirstAmong(p: JsonNode, c: JsonNode, ghost nodes: set<JsonNode>, ghost kids: map<JsonNode, seq<JsonNode>>)
    requires AllLists(nodes, kids) && p in nodes && c in nodes && c.parent == null
    modifies nodes`head, nodes`tail, nodes`prev, nodes`next, c`parent
    ensures AllLists(nodes, kids[p := [c] + kids[p]])
    ensures c.parent == p
    ensures forall x :: x in nodes && x != c && x.parent == null ==> x.prev == old(x.prev) && x.next == old(x.next)
  {
    hide Children, NodeAt;
    forall q | q in nodes ensures c !in kids[q] {
      EndsListed(q, kids[q]);
    }
    forall q | q in nodes && q != p ensures p.head == null || p.head !in kids[q] {
      ListsApart(nodes, kids, p, q);
      EndsListed(p, kids[p]);
    }
    EndsListed(p, kids[p]);
    LinkFirst(p, c, kids[p]);
  }

  method UnlinkAmong(c: JsonNode, p: JsonNode, ghost nodes: set<JsonNode>, ghost kids: map<JsonNode, seq<JsonNode>>,
                     ghost i: nat)
    requires AllLists(nodes, kids) && p in nodes && i < |kids[p]| && kids[p][i] == c
    modifies nodes`head, nodes`tail, nodes`prev, nodes`next, c`parent, c`key
    ensures AllLists(nodes, kids[p := Without(kids[p], i)])
    ensures c.parent == null && c.prev == null && c.next == null && c.key.None?
    ensures forall x :: x in nodes && x != c && x.parent == null ==> x.prev == old(x.prev) && x.next == old(x.next)
  {
    hide Children, NodeAt;
    EndsListed(p, kids[p]);
    forall q | q in nodes && q != p ensures forall x :: x in kids[p] ==> x !in kids[q] {
      ListsApart(nodes, kids, p, q);
    }
    assert c in kids[p];
    Unlink(c, p, kids[p], i);
    forall q | q in nodes && q != p ensures Children(q, kids[q]) {
      assert old(Children(q, kids[q]));
    }
    ghost var now := kids[p := Without(kids[p], i)];
    forall q, j | q in nodes && 0 <= j < |now[q]| ensures now[q][j] in nodes {
      assert now[q][j] in kids[q];
    }
  }

  /** A new node joins the forest without changing anything else in it. */
  method MakeNode(tag: Tag, flag: bool, text: Text, ghost nodes: set<JsonNode>,
                  ghost kids: map<JsonNode, seq<JsonNode>>)
    returns (c: JsonNode)
    requires Forest(nodes, kids)
    ensures fresh(c) && c.tag == tag && c.flag == flag && c.text == text && c.parent == null
    ensures Forest(nodes + {c}, kids[c := []])
  {
    hide NodeAt, Children;
    c := new JsonNode(tag, flag, text);
    NoList(c);
    assert AllLists(nodes, kids);
    assert AllLists(nodes + {c}, kids[c := []]);
  }

  lemma NoList(n: JsonNode)
    requires n.head == null && n.tail == null
    ensures Children(n, [])
  {}

  /** Puts the detached node `c` at the end of the list of the array or object `p`; members get their key. The
      lists stay proper whatever `c` is, also `p` itself or above it; cycles stay out exactly when it is not. */
  method Append(p: JsonNode, key: Option<Text>, c: JsonNode, ghost nodes: set<JsonNode>,
                ghost kids: map<JsonNode, seq<JsonNode>>)
    requires Forest(nodes, kids) && p in nodes && c in nodes
    requires (if key.Some? then p.tag.ObjectTag? else p.tag.ArrayTag?) && c.parent == null
    modifies nodes`head, nodes`tail, nodes`prev, nodes`next, c`parent, c`key
    ensures Forest(nodes, kids[p := kids[p] + [c]]) && c.key == key && c.parent == p
    ensures Acyclic(Parents(nodes)) <==> old(Acyclic(Parents(nodes)) && !Above(Parents(nodes), c, p))
  {
    hide AllLists, Acyclic, Above;
    ghost var par := Parents(nodes);
    AttachedAcyclicIff(par, p, c);
    if key.Some? {
      c.key := key;
    }
    LinkLastAmong(p, c, nodes, kids);
    assert Parents(nodes) == par[c := p];
  }

  /** Puts the detached node `c` at the front of the list of the array or object `p`. */
  method Prepend(p: JsonNode, key: Option<Text>, c: JsonNode, ghost nodes: set<JsonNode>,
                 ghost kids: map<JsonNode, seq<JsonNode>>)
    requires Forest(nodes, kids) && p in nodes && c in nodes
    requires (if key.Some? then p.tag.ObjectTag? else p.tag.ArrayTag?) && c.parent == null
    modifies nodes`head, nodes`tail, nodes`prev, nodes`next, c`parent, c`key
    ensures Forest(nodes, kids[p := [c] + kids[p]]) && c.key == key && c.parent == p
    ensures Acyclic(Parents(nodes)) <==> old(Acyclic(Parents(nodes)) && !Above(Parents(nodes), c, p))
  {
    hide AllLists, Acyclic, Above;
    ghost var par := Parents(nodes);
    AttachedAcyclicIff(par, p, c);
    if key.Some? {
      c.key := key;
    }
    LinkFirstAmong(p, c, nodes, kids);
    assert Parents(nodes) == par[c := p];
  }

  /** The child lists after `c` has left the list it is in, if any. */
  ghost function Removed(kids: map<JsonNode, seq<JsonNode>>, c: JsonNode): map<JsonNode, seq<JsonNode>>
    reads c`parent
    requires c.parent != null ==> c.parent in kids && c in kids[c.parent]
  {
    if c.parent == null then kids
    else kids[c.parent := Without(kids[c.parent], IndexOf(kids[c.parent], c))]
  }

  /** Takes `c` out of the list it is in; a detached node stays as it is. */
  method RemoveFromParent(c: JsonNode, ghost nodes: set<JsonNode>, ghost kids: map<JsonNode, seq<JsonNode>>)
    requires Forest(nodes, kids) && c in nodes
    modifies nodes`head, nodes`tail, nodes`prev, nodes`next, c`parent, c`key
    ensures Forest(nodes, old(Removed(kids, c)))
    ensures c.parent == null && c.key.None?
    ensures old(c.parent) == null ==> unchanged(nodes)
    ensures old(Acyclic(Parents(nodes))) ==> Acyclic(Parents(nodes))
  {
    hide AllLists, Acyclic;
    ghost var par := Parents(nodes);
    if c.parent != null {
      if Acyclic(par) { DetachedAcyclic(par, c); }
      UnlinkAmong(c, c.parent, nodes, kids, IndexOf(kids[c.parent], c));
      assert Parents(nodes) == par[c := null];
    }
  }
}
