/**
 The consistency check written for node trees, on any links whatever between finitely many nodes: what it
 answers, and exactly when its recursion comes to an end.
 */
module JsonCheck {
  import opened Options
  import opened JsonUtf8
  import opened JsonNodes

  ghost predicate OneOf(nodes: set<JsonNode>, n: JsonNode?) { n == null || n in nodes }

  /** Links lead to `nodes` or nowhere; nothing else is known about them. */
  ghost predicate Closed(nodes: set<JsonNode>)
    reads nodes
  {
    forall x :: x in nodes ==> OneOf(nodes, x.parent) && OneOf(nodes, x.prev) && OneOf(nodes, x.next)
                               && OneOf(nodes, x.head) && OneOf(nodes, x.tail)
  }

  predicate IsBranch(n: JsonNode)
    reads n`tag
  {
    n.tag.ArrayTag? || n.tag.ObjectTag?
  }

  predicate KeyFits(n: JsonNode, child: JsonNode)
    reads n`tag, child`key
  {
    (n.tag.ArrayTag? ==> child.key.None?) && (n.tag.ObjectTag? ==> child.key.Some?)
  }

  /** The key and the text of a string are valid UTF-8. */
  predicate TextFits(n: JsonNode)
    reads n`tag, n`key, n`text
  {
    (n.key.Some? ==> Validate(n.key.value)) && (n.tag.StringTag? ==> Validate(n.text))
  }

  // ---------- What is right ----------

  /** At most `m` nodes met by following next links from `here`. */
  ghost function Following(nodes: set<JsonNode>, here: JsonNode?, m: nat): (ks: seq<JsonNode>)
    reads nodes`next
    ensures forall k :: k in ks ==> k in nodes
  {
    if here == null || m == 0 || here !in nodes then [] else [here] + Following(nodes, here.next, m - 1)
  }

  /** `ks` is the child list of `n`, which is not in it itself, with keys exactly in objects. */
  ghost predicate ProperList(nodes: set<JsonNode>, n: JsonNode, ks: seq<JsonNode>)
    reads nodes
    requires n in nodes && forall k :: k in ks ==> k in nodes
  {
    Children(n, ks) && n !in ks && forall k :: k in ks ==> KeyFits(n, k)
  }

  /** `n` has valid texts and a proper list, and so has everything below it, less than `d` levels down. */
  ghost predicate SoundTo(nodes: set<JsonNode>, n: JsonNode, d: nat)
    requires n in nodes
    reads nodes
    decreases d
  {
    d > 0 && TextFits(n)
    && (IsBranch(n) ==>
          exists m :: var ks := Following(nodes, n.head, m);
                      ProperList(nodes, n, ks) && forall k :: k in ks ==> SoundTo(nodes, k, d - 1))
  }

  ghost predicate Sound(nodes: set<JsonNode>, n: JsonNode)
    requires n in nodes
    reads nodes
  {
    exists d :: SoundTo(nodes, n, d)
  }

  // ---------- What the check does ----------

  /** The tests made at an entry before the check descends into it. */
  ghost predicate EntryFits(nodes: set<JsonNode>, n: JsonNode, c: JsonNode)
    requires Closed(nodes) && n in nodes && c in nodes
    reads nodes
  {
    c != n && c.next != c && c.next != n.head && c.parent == n && (c.next == null || c.next.prev == c) && KeyFits(n, c)
  }

  /** The entries from `here` on that pass these tests, up to the first that does not. */
  ghost function Passing(nodes: set<JsonNode>, n: JsonNode, here: JsonNode?, m: nat): (es: seq<JsonNode>)
    requires Closed(nodes) && n in nodes && OneOf(nodes, here)
    reads nodes
    ensures forall e :: e in es ==> e in nodes && EntryFits(nodes, n, e)
  {
    if here == null || m == 0 || !EntryFits(nodes, n, here) then [] else [here] + Passing(nodes, n, here.next, m - 1)
  }

  /** The entries of `n` that the check descends into, as long as the descents succeed. */
  ghost function Entered(nodes: set<JsonNode>, n: JsonNode): (es: seq<JsonNode>)
    requires Closed(nodes) && n in nodes
    reads nodes
    ensures forall e :: e in es ==> e in nodes && EntryFits(nodes, n, e)
  {
    if !TextFits(n) || !IsBranch(n) || n.head == null || n.tail == null || n.head.prev != null then []
    else Passing(nodes, n, n.head, |nodes|)
  }

  /** The tests at `n` itself succeed. */
  ghost predicate ListFits(nodes: set<JsonNode>, n: JsonNode)
    requires Closed(nodes) && n in nodes
    reads nodes
  {
    TextFits(n) && (IsBranch(n) ==> ProperList(nodes, n, Entered(nodes, n)))
  }

  /** The answer for `n` when the check may be `d` levels deep; none when that is not enough. */
  ghost function CheckTo(nodes: set<JsonNode>, n: JsonNode, d: nat): Option<bool>
    requires Closed(nodes) && n in nodes
    reads nodes
    decreases d, 0
  {
    if d == 0 then None
    else match CheckAll(nodes, Entered(nodes, n), d - 1)
      case Some(true) => Some(ListFits(nodes, n))
      case r => r
  }

  /** The entries are checked in order, up to the first that fails. */
  ghost function CheckAll(nodes: set<JsonNode>, es: seq<JsonNode>, d: nat): Option<bool>
    requires Closed(nodes) && forall e :: e in es ==> e in nodes
    reads nodes
    decreases d, |es| + 1
  {
    if es == [] then Some(true)
    else match CheckTo(nodes, es[0], d)
      case Some(true) => CheckAll(nodes, es[1..], d)
      case r => r
  }

  /** The check of `n` comes to an end. */
  ghost predicate Ends(nodes: set<JsonNode>, n: JsonNode)
    requires Closed(nodes) && n in nodes
    reads nodes
  {
    exists d :: CheckTo(nodes, n, d).Some?
  }

  // ---------- More depth changes no answer ----------

  lemma {:induction false} DeeperSame(nodes: set<JsonNode>, n: JsonNode, d: nat, e: nat)
    requires Closed(nodes) && n in nodes && d <= e && CheckTo(nodes, n, d).Some?
    ensures CheckTo(nodes, n, e) == CheckTo(nodes, n, d)
    decreases d, 0
  {
    hide ListFits, Entered;
    DeeperAll(nodes, Entered(nodes, n), d - 1, e - 1);
  }

  lemma {:induction false} DeeperAll(nodes: set<JsonNode>, es: seq<JsonNode>, d: nat, e: nat)
    requires Closed(nodes) && (forall x :: x in es ==> x in nodes) && d <= e && CheckAll(nodes, es, d).Some?
    ensures CheckAll(nodes, es, e) == CheckAll(nodes, es, d)
    decreases d, |es| + 1
  {
    hide Entered;
    if es != [] {
      DeeperSame(nodes, es[0], d, e);
      if CheckTo(nodes, es[0], d) == Some(true) { DeeperAll(nodes, es[1..], d, e); }
    }
  }

  lemma {:induction false} AllPass(nodes: set<JsonNode>, es: seq<JsonNode>, d: nat)
    requires Closed(nodes) && forall e :: e in es ==> e in nodes
    ensures CheckAll(nodes, es, d) == Some(true) <==> forall e :: e in es ==> CheckTo(nodes, e, d) == Some(true)
    decreases |es|
  {
    hide CheckTo;
    if es != [] {
      AllPass(nodes, es[1..], d);
      assert es == [es[0]] + es[1..];
      assert es[0] in es;
      if CheckAll(nodes, es, d) == Some(true) {
        forall e | e in es ensures CheckTo(nodes, e, d) == Some(true) {}
      }
    }
  }

  /** The first entry that does not pass decides. */
  lemma {:induction false} FirstDecides(nodes: set<JsonNode>, es: seq<JsonNode>, j: nat, d: nat)
    requires Closed(nodes) && (forall e :: e in es ==> e in nodes) && j < |es|
    requires forall i :: 0 <= i < j ==> CheckTo(nodes, es[i], d) == Some(true)
    requires CheckTo(nodes, es[j], d) != Some(true)
    ensures CheckAll(nodes, es, d) == CheckTo(nodes, es[j], d)
    decreases |es|
  {
    hide CheckTo;
    if j > 0 {
      assert forall i :: 0 <= i < j - 1 ==> es[1..][i] == es[i + 1];
      FirstDecides(nodes, es[1..], j - 1, d);
    }
  }

  // ---------- The check accepts exactly what is right ----------

  lemma {:induction false} ListIsFollowing(nodes: set<JsonNode>, n: JsonNode, ks: seq<JsonNode>, i: nat)
    requires Children(n, ks) && i <= |ks| && forall k :: k in ks ==> k in nodes
    ensures Following(nodes, NodeAt(ks, i), |ks| - i) == ks[i..]
    decreases |ks| - i
  {
    if i < |ks| {
      ListIsFollowing(nodes, n, ks, i + 1);
      assert ks[i].next == NodeAt(ks, i + 1);
    }
  }

  lemma HeadListed(n: JsonNode, ks: seq<JsonNode>)
    requires Children(n, ks)
    ensures n.head == NodeAt(ks, 0) && n.tail == NodeAt(ks, |ks| - 1)
    ensures n.head == null <==> n.tail == null
    ensures n.head != null ==> n.head.prev == null
    ensures ks != [] ==> ks[|ks| - 1].next == null
  {
    if ks != [] { assert ks[0].prev == NodeAt(ks, -1) && ks[|ks| - 1].next == NodeAt(ks, |ks|); }
  }

  lemma SoundList(nodes: set<JsonNode>, n: JsonNode, d: nat) returns (ks: seq<JsonNode>)
    requires n in nodes && IsBranch(n) && SoundTo(nodes, n, d)
    ensures d > 0 && (forall k :: k in ks ==> k in nodes) && ProperList(nodes, n, ks)
    ensures forall k :: k in ks ==> SoundTo(nodes, k, d - 1)
  {
    hide ProperList;
    var m: nat :| var ks := Following(nodes, n.head, m);
                  ProperList(nodes, n, ks) && forall k :: k in ks ==> SoundTo(nodes, k, d - 1);
    ks := Following(nodes, n.head, m);
  }

  lemma ListSound(nodes: set<JsonNode>, n: JsonNode, ks: seq<JsonNode>, d: nat)
    requires n in nodes && (forall k :: k in ks ==> k in nodes) && ProperList(nodes, n, ks)
    requires TextFits(n) && forall k :: k in ks ==> SoundTo(nodes, k, d)
    ensures SoundTo(nodes, n, d + 1)
  {
    hide Children, Following, KeyFits, TextFits;
    ListIsFollowing(nodes, n, ks, 0);
    HeadListed(n, ks);
    assert ks[0..] == ks;
    assert Following(nodes, n.head, |ks|) == ks;
  }

  lemma ListEntryFits(nodes: set<JsonNode>, n: JsonNode, ks: seq<JsonNode>, i: nat)
    requires Closed(nodes) && n in nodes && (forall k :: k in ks ==> k in nodes) && ProperList(nodes, n, ks) && i < |ks|
    ensures EntryFits(nodes, n, ks[i]) && ks[i].next == NodeAt(ks, i + 1)
  {
    hide Closed, KeyFits;
    assert ks[i] in ks;
    assert ks[i].next == NodeAt(ks, i + 1);
    assert i + 1 < |ks| ==> ks[i + 1].prev == NodeAt(ks, i);
  }

  lemma {:induction false} PassingAll(nodes: set<JsonNode>, n: JsonNode, ks: seq<JsonNode>, i: nat, m: nat)
    requires Closed(nodes) && n in nodes && (forall k :: k in ks ==> k in nodes) && ProperList(nodes, n, ks)
    requires i <= |ks| <= i + m
    ensures OneOf(nodes, NodeAt(ks, i)) && Passing(nodes, n, NodeAt(ks, i), m) == ks[i..]
    decreases |ks| - i
  {
    hide EntryFits, ProperList, Closed;
    if i < |ks| {
      assert ks[i] in ks;
      ListEntryFits(nodes, n, ks, i);
      PassingAll(nodes, n, ks, i + 1, m - 1);
    }
  }

  lemma {:induction false} DistinctFits(ks: seq<JsonNode>, nodes: set<JsonNode>)
    requires forall k :: k in ks ==> k in nodes
    requires forall i, j :: 0 <= i < j < |ks| ==> ks[i] != ks[j]
    ensures |ks| <= |nodes|
    decreases |ks|
  {
    if ks != [] {
      var last, rest := ks[|ks| - 1], ks[..|ks| - 1];
      assert last in ks && last !in rest;
      assert forall k :: k in rest ==> k in ks;
      DistinctFits(rest, nodes - {last});
    }
  }

  /** Every entry of a proper list is entered, and the tests at its owner succeed. */
  lemma EnteredAll(nodes: set<JsonNode>, n: JsonNode, ks: seq<JsonNode>)
    requires Closed(nodes) && n in nodes && IsBranch(n) && (forall k :: k in ks ==> k in nodes)
             && ProperList(nodes, n, ks) && TextFits(n)
    ensures Entered(nodes, n) == ks && ListFits(nodes, n)
  {
    hide TextFits, Closed, EntryFits, KeyFits, Passing;
    HeadListed(n, ks);
    DistinctFits(ks, nodes);
    PassingAll(nodes, n, ks, 0, |nodes|);
    assert ks[0..] == ks;
  }

  /** The check answers true exactly when texts are valid and lists proper at the node and everywhere below it. */
  lemma {:induction false} PassesIff(nodes: set<JsonNode>, n: JsonNode, d: nat)
    requires Closed(nodes) && n in nodes
    ensures CheckTo(nodes, n, d) == Some(true) <==> SoundTo(nodes, n, d)
    decreases d
  {
    hide Closed, EntryFits, Following, ProperList, Entered, TextFits;
    if d > 0 {
      var es := Entered(nodes, n);
      AllPass(nodes, es, d - 1);
      if CheckTo(nodes, n, d) == Some(true) {
        forall k | k in es ensures SoundTo(nodes, k, d - 1) { PassesIff(nodes, k, d - 1); }
        if IsBranch(n) { ListSound(nodes, n, es, d - 1); }
      }
      if SoundTo(nodes, n, d) {
        if IsBranch(n) {
          var ks := SoundList(nodes, n, d);
          EnteredAll(nodes, n, ks);
        } else {
          LeafEntersNone(nodes, n);
        }
        forall k | k in es ensures CheckTo(nodes, k, d - 1) == Some(true) { PassesIff(nodes, k, d - 1); }
      }
    }
  }

  lemma LeafEntersNone(nodes: set<JsonNode>, n: JsonNode)
    requires Closed(nodes) && n in nodes && !IsBranch(n)
    ensures Entered(nodes, n) == []
  {}

  /** A sound node is passed, at any depth that is enough. */
  lemma SoundPasses(nodes: set<JsonNode>, n: JsonNode, d: nat)
    requires Closed(nodes) && n in nodes && Sound(nodes, n)
    ensures CheckTo(nodes, n, d).None? || CheckTo(nodes, n, d) == Some(true)
  {
    hide CheckTo, SoundTo;
    var e: nat :| SoundTo(nodes, n, e);
    PassesIff(nodes, n, e);
    if CheckTo(nodes, n, d).Some? {
      DeeperSame(nodes, n, d, d + e);
      DeeperSame(nodes, n, e, d + e);
    }
  }

  // ---------- When the check ends ----------

  /** The check of `p` descends into `c`: everything entered before it is sound. */
  ghost predicate Descends(nodes: set<JsonNode>, p: JsonNode, c: JsonNode)
    requires Closed(nodes) && p in nodes
    reads nodes
  {
    exists j :: DescendsAt(nodes, p, c, j)
  }

  ghost predicate DescendsAt(nodes: set<JsonNode>, p: JsonNode, c: JsonNode, j: nat)
    requires Closed(nodes) && p in nodes
    reads nodes
  {
    var es := Entered(nodes, p);
    j < |es| && es[j] == c && forall i :: 0 <= i < j ==> Sound(nodes, es[i])
  }

  /** The check descends into the node `i` parent links above `n` from the node above it. */
  ghost predicate DescendsBy(nodes: set<JsonNode>, n: JsonNode, i: nat)
    requires Closed(nodes)
    reads nodes
  {
    var p, c := Up(Parents(nodes), n, i + 1), Up(Parents(nodes), n, i);
    p != null && c != null && p in nodes && Descends(nodes, p, c)
  }

  /** Parent links lead from `n` back to `n`, and the check descends along all of them. */
  ghost predicate Circular(nodes: set<JsonNode>, n: JsonNode)
    requires Closed(nodes) && n in nodes
    reads nodes
  {
    exists k :: CircularBy(nodes, n, k)
  }

  ghost predicate CircularBy(nodes: set<JsonNode>, n: JsonNode, k: nat)
    requires Closed(nodes)
    reads nodes
  {
    k > 0 && Up(Parents(nodes), n, k) == n && forall i :: 0 <= i < k ==> DescendsBy(nodes, n, i)
  }

  /** On a circle the check never ends. */
  lemma {:induction false} CircularNeverEnds(nodes: set<JsonNode>, n: JsonNode, d: nat)
    requires Closed(nodes) && n in nodes && Circular(nodes, n)
    ensures CheckTo(nodes, n, d).None?
    decreases d
  {
    hide Closed, Entered, EntryFits, ListFits, Sound, Parents;
    if d > 0 {
      var k: nat :| CircularBy(nodes, n, k);
      var par := Parents(nodes);
      var c := Up(par, n, k - 1);
      assert DescendsBy(nodes, n, k - 1);
      CircleTurns(nodes, n, k);
      var j: nat :| DescendsAt(nodes, n, c, j);
      var es := Entered(nodes, n);
      CircularNeverEnds(nodes, c, d - 1);
      StopsAt(nodes, es, j, d - 1);
    }
  }

  /** Where everything before entry `j` is sound and entry `j` does not end, the whole list does not end. */
  lemma {:induction false} StopsAt(nodes: set<JsonNode>, es: seq<JsonNode>, j: nat, d: nat)
    requires Closed(nodes) && (forall e :: e in es ==> e in nodes) && j < |es|
    requires (forall i :: 0 <= i < j ==> Sound(nodes, es[i])) && CheckTo(nodes, es[j], d).None?
    ensures CheckAll(nodes, es, d).None?
    decreases |es|
  {
    hide Closed, Sound, CheckTo;
    if j > 0 {
      SoundPasses(nodes, es[0], d);
      assert forall i :: 0 <= i < j - 1 ==> es[1..][i] == es[i + 1];
      StopsAt(nodes, es[1..], j - 1, d);
    }
  }

  /** The node before `n` on a circle is on the same circle. */
  lemma CircleTurns(nodes: set<JsonNode>, n: JsonNode, k: nat)
    requires Closed(nodes) && n in nodes && CircularBy(nodes, n, k)
    ensures var c := Up(Parents(nodes), n, k - 1); c != null && c in nodes && Circular(nodes, c)
  {
    hide Closed, Parents, Descends;
    var par := Parents(nodes);
    assert DescendsBy(nodes, n, k - 1);
    var c := Up(par, n, k - 1);
    DescendedIn(nodes, n, k - 1);
    UpAdd(par, n, k - 1, 1);
    assert Up(par, c, 1) == n;
    forall i | 0 <= i < k ensures DescendsBy(nodes, c, i) {
      UpAdd(par, c, 1, i);
      if i > 0 {
        UpAdd(par, c, 1, i - 1);
        assert DescendsBy(nodes, n, i - 1);
      }
    }
    UpAdd(par, c, 1, k - 1);
    assert CircularBy(nodes, c, k);
  }

  lemma DescendedIn(nodes: set<JsonNode>, n: JsonNode, i: nat)
    requires Closed(nodes) && DescendsBy(nodes, n, i)
    ensures Up(Parents(nodes), n, i) in nodes
  {
    hide Closed, Parents;
    var p, c := Up(Parents(nodes), n, i + 1), Up(Parents(nodes), n, i);
    var j: nat :| DescendsAt(nodes, p, c, j);
    assert c in Entered(nodes, p);
  }

  /** A chain of descents through different nodes. */
  ghost predicate Path(nodes: set<JsonNode>, path: seq<JsonNode>)
    requires Closed(nodes)
    reads nodes
  {
    && path != [] && (forall x :: x in path ==> x in nodes)
    && (forall i {:trigger path[i]} :: 0 <= i < |path| - 1 ==> Descends(nodes, path[i], path[i + 1]))
    && (forall i, j :: 0 <= i < j < |path| ==> path[i] != path[j])
  }

  lemma DescendsToChild(nodes: set<JsonNode>, p: JsonNode, c: JsonNode)
    requires Closed(nodes) && p in nodes && Descends(nodes, p, c)
    ensures c in nodes && c.parent == p && c != p
  {
    hide Closed, Entered;
    var j: nat :| DescendsAt(nodes, p, c, j);
    assert c in Entered(nodes, p);
  }

  lemma {:induction false} PathUp(nodes: set<JsonNode>, path: seq<JsonNode>, i: nat)
    requires Closed(nodes) && Path(nodes, path) && i < |path|
    ensures Up(Parents(nodes), path[|path| - 1], i) == path[|path| - 1 - i]
    decreases i
  {
    hide Closed, Descends;
    if i > 0 {
      PathUp(nodes, path, i - 1);
      UpAdd(Parents(nodes), path[|path| - 1], i - 1, 1);
      var c, p := path[|path| - i], path[|path| - 1 - i];
      assert Descends(nodes, p, c) by { assert path[|path| - 1 - i] == p; }
      DescendsToChild(nodes, p, c);
      assert c in path && Up(Parents(nodes), c, 1) == p;
    }
  }

  /** A descent to a node of the path closes a circle through its first node. */
  lemma ClosesCircle(nodes: set<JsonNode>, path: seq<JsonNode>)
    requires Closed(nodes) && Path(nodes, path) && Descends(nodes, path[|path| - 1], path[0])
    ensures path[0] in nodes && Circular(nodes, path[0])
  {
    hide Closed, Descends;
    var n, last, par := path[0], path[|path| - 1], Parents(nodes);
    assert n in path && last in path;
    DescendsToChild(nodes, last, n);
    forall i | 0 <= i < |path| ensures DescendsBy(nodes, n, i) {
      CircleUp(nodes, path, i);
      if i > 0 { CircleUp(nodes, path, i - 1); }
      assert path[|path| - 1 - i] in path;
      assert i > 0 ==> Descends(nodes, path[|path| - 1 - i], path[|path| - i]);
    }
    CircleUp(nodes, path, |path| - 1);
    assert CircularBy(nodes, n, |path|);
  }

  lemma CircleUp(nodes: set<JsonNode>, path: seq<JsonNode>, i: nat)
    requires Closed(nodes) && Path(nodes, path) && i < |path| && path[0].parent == path[|path| - 1]
    ensures Up(Parents(nodes), path[0], i + 1) == path[|path| - 1 - i]
  {
    hide Closed, Descends;
    assert path[0] in path;
    assert Up(Parents(nodes), path[0], 1) == path[|path| - 1];
    UpAdd(Parents(nodes), path[0], 1, i);
    PathUp(nodes, path, i);
  }

  lemma Deeper(nodes: set<JsonNode>, path: seq<JsonNode>, e: JsonNode)
    requires Closed(nodes) && Path(nodes, path) && path[0] in nodes && !Circular(nodes, path[0])
    requires Descends(nodes, path[|path| - 1], e)
    ensures e in nodes && Path(nodes, path + [e]) && |path| < |nodes|
  {
    hide Closed, Descends, Circular;
    var last := path[|path| - 1];
    assert last in path;
    DescendsToChild(nodes, last, e);
    forall j | 0 <= j < |path| ensures path[j] != e {
      if path[j] == e {
        if j == 0 {
          ClosesCircle(nodes, path);
        } else {
          assert path[j - 1] in path;
          DescendsToChild(nodes, path[j - 1], path[j]);
        }
      }
    }
    var more := path + [e];
    forall i {:trigger more[i]} | 0 <= i < |more| - 1 ensures Descends(nodes, more[i], more[i + 1]) {
      if i < |path| - 1 { assert more[i] == path[i] && more[i + 1] == path[i + 1]; }
    }
    DistinctFits(more, nodes);
  }

  lemma {:induction false} EndsFrom(nodes: set<JsonNode>, path: seq<JsonNode>)
    requires Closed(nodes) && Path(nodes, path) && path[0] in nodes && !Circular(nodes, path[0])
    ensures path[|path| - 1] in nodes && |path| <= |nodes|
            && CheckTo(nodes, path[|path| - 1], |nodes| - |path| + 1).Some?
    decreases |nodes| - |path|, 1, 0
  {
    hide Closed, Descends, Circular, Entered, ListFits;
    assert path[|path| - 1] in path;
    DistinctFits(path, nodes);
    EndsAmong(nodes, path, 0);
  }

  lemma {:induction false} EndsAmong(nodes: set<JsonNode>, path: seq<JsonNode>, j: nat)
    requires Closed(nodes) && path != [] && Path(nodes, path) && path[0] in nodes && !Circular(nodes, path[0])
    requires path[|path| - 1] in nodes && |path| <= |nodes| && j <= |Entered(nodes, path[|path| - 1])|
    requires var es := Entered(nodes, path[|path| - 1]);
             forall i :: 0 <= i < j ==> CheckTo(nodes, es[i], |nodes| - |path|) == Some(true)
    ensures CheckAll(nodes, Entered(nodes, path[|path| - 1]), |nodes| - |path|).Some?
    decreases |nodes| - |path|, 0, |Entered(nodes, path[|path| - 1])| - j
  {
    hide Closed, Circular, Entered, CheckTo, Path;
    var es, d := Entered(nodes, path[|path| - 1]), |nodes| - |path|;
    if j == |es| {
      AllPass(nodes, es, d);
    } else {
      PassedSound(nodes, es, j, d);
      assert DescendsAt(nodes, path[|path| - 1], es[j], j);
      Deeper(nodes, path, es[j]);
      StartKept(path, es[j]);
      EndsFrom(nodes, path + [es[j]]);
      if CheckTo(nodes, es[j], d) == Some(true) {
        EndsAmong(nodes, path, j + 1);
      } else {
        FirstDecides(nodes, es, j, d);
      }
    }
  }

  lemma StartKept(path: seq<JsonNode>, e: JsonNode)
    requires path != []
    ensures (path + [e])[0] == path[0] && (path + [e])[|path + [e]| - 1] == e
  {}

  lemma PassedSound(nodes: set<JsonNode>, es: seq<JsonNode>, j: nat, d: nat)
    requires Closed(nodes) && (forall e :: e in es ==> e in nodes) && j <= |es|
    requires forall i :: 0 <= i < j ==> CheckTo(nodes, es[i], d) == Some(true)
    ensures forall i :: 0 <= i < j ==> Sound(nodes, es[i])
  {
    hide Closed, CheckTo, SoundTo;
    forall i | 0 <= i < j ensures Sound(nodes, es[i]) {
      PassesIff(nodes, es[i], d);
    }
  }

  /** On any links the check ends exactly when its node is on no circle of descents; along one its parent
      links lead back to it. */
  lemma EndsIff(nodes: set<JsonNode>, n: JsonNode)
    requires Closed(nodes) && n in nodes
    ensures Ends(nodes, n) <==> !Circular(nodes, n)
  {
    hide Closed, Circular, CheckTo;
    if Circular(nodes, n) {
      forall d ensures CheckTo(nodes, n, d).None? { CircularNeverEnds(nodes, n, d); }
    } else {
      EndsFrom(nodes, [n]);
    }
  }

  lemma CircularIsOwnAncestor(nodes: set<JsonNode>, n: JsonNode)
    requires Closed(nodes) && n in nodes && Circular(nodes, n)
    ensures OwnAncestor(Parents(nodes), n) && n.parent != n
  {
    hide Closed, Descends;
    var k: nat :| CircularBy(nodes, n, k);
    if n.parent == n {
      assert DescendsBy(nodes, n, 0);
      assert Up(Parents(nodes), n, 1) == n && Up(Parents(nodes), n, 0) == n;
      DescendsToChild(nodes, n, n);
    }
  }

  // ---------- The check itself ----------

  /** The answer of the check, at some depth. */
  ghost predicate Answers(nodes: set<JsonNode>, n: JsonNode, ok: bool)
    requires Closed(nodes) && n in nodes
    reads nodes
  {
    exists d :: CheckTo(nodes, n, d) == Some(ok)
  }

  /** True means sound, and there is only one answer. */
  lemma AnswersIff(nodes: set<JsonNode>, n: JsonNode, ok: bool)
    requires Closed(nodes) && n in nodes && Answers(nodes, n, ok)
    ensures ok <==> Sound(nodes, n)
  {
    hide Closed, CheckTo, SoundTo;
    var d: nat :| CheckTo(nodes, n, d) == Some(ok);
    PassesIff(nodes, n, d);
    if Sound(nodes, n) { SoundPasses(nodes, n, d); }
  }

  lemma SoundAnswers(nodes: set<JsonNode>, n: JsonNode)
    requires Closed(nodes) && n in nodes && Sound(nodes, n)
    ensures Answers(nodes, n, true)
  {
    hide Closed, CheckTo, SoundTo;
    var d: nat :| SoundTo(nodes, n, d);
    PassesIff(nodes, n, d);
  }

  /** One depth is enough for finitely many sound nodes. */
  lemma {:induction false} CommonDepth(nodes: set<JsonNode>, es: seq<JsonNode>, least: nat) returns (d: nat)
    requires Closed(nodes) && forall e :: e in es ==> e in nodes && Sound(nodes, e)
    ensures least <= d && forall e :: e in es ==> CheckTo(nodes, e, d) == Some(true)
    decreases |es|
  {
    hide Closed, CheckTo, Sound;
    if es == [] {
      d := least;
    } else {
      var last := es[|es| - 1];
      assert last in es;
      var rest := es[..|es| - 1];
      SoundAnswers(nodes, last);
      var e: nat :| CheckTo(nodes, last, e) == Some(true);
      var c := CommonDepth(nodes, rest, least);
      d := c + e;
      DeeperSame(nodes, last, e, d);
      forall x | x in es ensures CheckTo(nodes, x, d) == Some(true) {
        if x in rest { DeeperSame(nodes, x, c, d); }
      }
    }
  }

  /** All entries are sound: the tests at the node itself decide. */
  lemma EntriesSound(nodes: set<JsonNode>, n: JsonNode, ok: bool)
    requires Closed(nodes) && n in nodes && ok == ListFits(nodes, n)
    requires forall e :: e in Entered(nodes, n) ==> Sound(nodes, e)
    ensures Answers(nodes, n, ok)
  {
    hide Closed, Sound, ListFits, Entered;
    var d := CommonDepth(nodes, Entered(nodes, n), 0);
    AllPass(nodes, Entered(nodes, n), d);
    assert CheckTo(nodes, n, d + 1) == Some(ok);
  }

  /** Some entry fails, and all before it are sound. */
  lemma EntryFails(nodes: set<JsonNode>, n: JsonNode, j: nat)
    requires Closed(nodes) && n in nodes && j < |Entered(nodes, n)|
    requires (forall i :: 0 <= i < j ==> Sound(nodes, Entered(nodes, n)[i]))
             && Answers(nodes, Entered(nodes, n)[j], false)
    ensures Answers(nodes, n, false)
  {
    hide Closed, Sound, ListFits, Entered;
    var es := Entered(nodes, n);
    var e: nat :| CheckTo(nodes, es[j], e) == Some(false);
    var d := CommonDepth(nodes, es[..j], e);
    DeeperSame(nodes, es[j], e, d);
    forall i | 0 <= i < j ensures CheckTo(nodes, es[i], d) == Some(true) { assert es[..j][i] == es[i]; }
    FirstDecides(nodes, es, j, d);
    assert CheckTo(nodes, n, d + 1) == Some(false);
  }

  /** The entries met before `here` by following next links from the head of `n`. */
  ghost predicate Visited(nodes: set<JsonNode>, n: JsonNode, vs: seq<JsonNode>, here: JsonNode?)
    reads nodes
  {
    && n in nodes && (forall k :: k in vs ==> k in nodes) && OneOf(nodes, here)
    && n.head == (if vs == [] then here else vs[0])
    && (forall i {:trigger vs[i].parent} :: 0 <= i < |vs| ==> vs[i].parent == n)
    && (forall i {:trigger vs[i].prev} :: 0 <= i < |vs| ==> vs[i].prev == NodeAt(vs, i - 1))
    && (forall i {:trigger vs[i].next} :: 0 <= i < |vs| ==> vs[i].next == if i + 1 < |vs| then vs[i + 1] else here)
    && (forall i, j :: 0 <= i < j < |vs| ==> vs[i] != vs[j])
    && n !in vs
    && (here != null ==> here.prev == NodeAt(vs, |vs| - 1) && here !in vs)
  }

  lemma VisitNone(nodes: set<JsonNode>, n: JsonNode)
    requires n in nodes && OneOf(nodes, n.head) && (n.head == null || n.head.prev == null)
    ensures Visited(nodes, n, [], n.head)
  {}

  /** An entry that passes its tests leads on to one not met before. */
  lemma VisitOne(nodes: set<JsonNode>, n: JsonNode, vs: seq<JsonNode>, here: JsonNode)
    requires Closed(nodes) && Visited(nodes, n, vs, here) && here in nodes && EntryFits(nodes, n, here)
    ensures here !in vs && Visited(nodes, n, vs + [here], here.next)
  {
    hide Closed, KeyFits;
    NextIn(nodes, here);
    assert forall i {:trigger vs[i]} :: 0 <= i < |vs| ==> vs[i].prev == NodeAt(vs, i - 1);
  }

  lemma NextIn(nodes: set<JsonNode>, x: JsonNode)
    requires Closed(nodes) && x in nodes
    ensures OneOf(nodes, x.next) && OneOf(nodes, x.head) && OneOf(nodes, x.tail)
  {}

  /** What has been visited is what is entered, up to here. */
  ghost predicate SoFar(nodes: set<JsonNode>, n: JsonNode, vs: seq<JsonNode>, here: JsonNode?)
    requires Closed(nodes)
    reads nodes
  {
    && Visited(nodes, n, vs, here) && |vs| <= |nodes|
    && Entered(nodes, n) == vs + Passing(nodes, n, here, |nodes| - |vs|)
    && forall v :: v in vs ==> Sound(nodes, v)
  }

  lemma SoFarStart(nodes: set<JsonNode>, n: JsonNode)
    requires Closed(nodes) && n in nodes && TextFits(n) && IsBranch(n)
    requires n.head != null && n.tail != null && n.head.prev == null
    ensures SoFar(nodes, n, [], n.head)
  {
    hide Closed, Visited, Passing, Sound, TextFits;
    NextIn(nodes, n);
    VisitNone(nodes, n);
    VisitedHere(nodes, n, [], n.head);
    assert [] + Passing(nodes, n, n.head, |nodes|) == Passing(nodes, n, n.head, |nodes|);
  }

  lemma VisitedHere(nodes: set<JsonNode>, n: JsonNode, vs: seq<JsonNode>, here: JsonNode?)
    requires Visited(nodes, n, vs, here)
    ensures n in nodes && OneOf(nodes, here) && forall k :: k in vs ==> k in nodes
    ensures here != null ==> |vs| < |nodes|
    ensures |vs| <= |nodes|
  {
    if here != null { DistinctFits(vs + [here], nodes); }
    DistinctFits(vs, nodes);
  }

  /** The entry here passes its tests: it is entered next. */
  lemma EnteredNext(nodes: set<JsonNode>, n: JsonNode, vs: seq<JsonNode>, here: JsonNode)
    requires Closed(nodes) && SoFar(nodes, n, vs, here) && here in nodes && n in nodes && EntryFits(nodes, n, here)
    ensures |vs| < |Entered(nodes, n)| && Entered(nodes, n)[|vs|] == here && Descends(nodes, n, here)
    ensures forall i :: 0 <= i < |vs| ==> Sound(nodes, Entered(nodes, n)[i])
  {
    hide Closed, Visited, Sound, EntryFits, Entered;
    VisitedHere(nodes, n, vs, here);
    var es := Entered(nodes, n);
    forall i | 0 <= i < |vs| ensures Sound(nodes, es[i]) { assert es[i] == vs[i] && vs[i] in vs; }
    assert DescendsAt(nodes, n, here, |vs|);
  }

  lemma SoFarNext(nodes: set<JsonNode>, n: JsonNode, vs: seq<JsonNode>, here: JsonNode)
    requires Closed(nodes) && SoFar(nodes, n, vs, here) && here in nodes && n in nodes && EntryFits(nodes, n, here)
    requires Sound(nodes, here)
    ensures here !in vs && SoFar(nodes, n, vs + [here], here.next)
  {
    hide Closed, Visited, Sound, EntryFits, Entered;
    VisitedHere(nodes, n, vs, here);
    VisitOne(nodes, n, vs, here);
    NextIn(nodes, here);
    VisitedHere(nodes, n, vs + [here], here.next);
    assert vs + Passing(nodes, n, here, |nodes| - |vs|)
        == (vs + [here]) + Passing(nodes, n, here.next, |nodes| - |vs + [here]|);
  }

  /** A test at an entry fails, or the last entry is not the tail. */
  lemma EndsBadly(nodes: set<JsonNode>, n: JsonNode, vs: seq<JsonNode>, here: JsonNode?)
    requires Closed(nodes) && SoFar(nodes, n, vs, here) && n in nodes && IsBranch(n)
    requires if here != null then here in nodes && !EntryFits(nodes, n, here) else n.tail != NodeAt(vs, |vs| - 1)
    ensures Answers(nodes, n, false)
  {
    hide Closed, Sound, EntryFits, Entered, KeyFits;
    assert Entered(nodes, n) == vs;
    assert !Children(n, vs) by {
      if Children(n, vs) { HeadListed(n, vs); }
    }
    EntriesSound(nodes, n, false);
  }

  lemma EndsWell(nodes: set<JsonNode>, n: JsonNode, vs: seq<JsonNode>)
    requires Closed(nodes) && SoFar(nodes, n, vs, null) && n in nodes && n.tail == NodeAt(vs, |vs| - 1)
    requires TextFits(n)
    ensures Answers(nodes, n, true)
  {
    hide TextFits, Closed, Sound, Entered, KeyFits;
    assert Entered(nodes, n) == vs;
    assert Children(n, vs);
    EntriesSound(nodes, n, true);
  }

  /** Nothing is entered: a wrong text, a leaf, or a list whose ends do not agree. */
  lemma NothingEntered(nodes: set<JsonNode>, n: JsonNode, ok: bool)
    requires Closed(nodes) && n in nodes
    requires !TextFits(n) || !IsBranch(n) || n.head == null || n.tail == null || n.head.prev != null
    requires ok <==> TextFits(n) && (!IsBranch(n) || (n.head == null && n.tail == null))
    ensures Answers(nodes, n, ok)
  {
    hide TextFits, Closed, Sound, KeyFits;
    if IsBranch(n) && Children(n, []) { HeadListed(n, []); }
    EntriesSound(nodes, n, ok);
  }

  /** The check, on any links on which it ends. */
  method Check(n: JsonNode, ghost nodes: set<JsonNode>) returns (ok: bool)
    requires Closed(nodes) && n in nodes && !Circular(nodes, n)
    ensures ok <==> Sound(nodes, n)
  {
    ok := CheckFrom(n, nodes, [n]);
    AnswersIff(nodes, n, ok);
  }

  /** `path` is the chain of calls that led to `n`. */
  method CheckFrom(n: JsonNode, ghost nodes: set<JsonNode>, ghost path: seq<JsonNode>) returns (ok: bool)
    requires Closed(nodes) && path != [] && Path(nodes, path) && n in nodes && path[|path| - 1] == n
    requires path[0] in nodes && !Circular(nodes, path[0])
    ensures Answers(nodes, n, ok)
    decreases |nodes| - |path|, 1
  {
    hide Closed, Path, Circular, Answers, Visited, Sound, Entered, Passing;
    PathFits(nodes, path);
    if n.key.Some? && !Validate(n.key.value) {
      NothingEntered(nodes, n, false);
      return false;
    }
    if n.tag.StringTag? {
      ok := Validate(n.text);
      NothingEntered(nodes, n, ok);
      return ok;
    }
    if !n.tag.ArrayTag? && !n.tag.ObjectTag? {
      NothingEntered(nodes, n, true);
      return true;
    }
    if n.head == null || n.tail == null {
      ok := n.head == null && n.tail == null;
      NothingEntered(nodes, n, ok);
    } else if n.head.prev != null {
      ok := false;
      NothingEntered(nodes, n, false);
    } else {
      ok := CheckEntries(n, nodes, path);
    }
  }

  lemma PathFits(nodes: set<JsonNode>, path: seq<JsonNode>)
    requires Closed(nodes) && Path(nodes, path)
    ensures |path| <= |nodes|
  {
    DistinctFits(path, nodes);
  }

  /** The loop over the entries of a list with both ends. */
  method CheckEntries(n: JsonNode, ghost nodes: set<JsonNode>, ghost path: seq<JsonNode>) returns (ok: bool)
    requires Closed(nodes) && path != [] && Path(nodes, path) && n in nodes && path[|path| - 1] == n
    requires path[0] in nodes && !Circular(nodes, path[0])
    requires TextFits(n) && IsBranch(n) && n.head != null && n.tail != null && n.head.prev == null
    ensures Answers(nodes, n, ok)
    decreases |nodes| - |path|, 0
  {
    hide TextFits, Closed, Path, Circular, Answers, Visited, Sound, Entered, Passing, SoFar, Descends;
    PathFits(nodes, path);
    var child: JsonNode? := n.head;
    var last: JsonNode? := null;
    ghost var vs: seq<JsonNode> := [];
    ghost var left := nodes;
    SoFarStart(nodes, n);
    NextIn(nodes, n);
    while child != null
      invariant SoFar(nodes, n, vs, child) && OneOf(nodes, child)
      invariant last == NodeAt(vs, |vs| - 1)
      invariant forall x :: x in nodes && x !in vs ==> x in left
      decreases |left|
    {
      ghost var fits := EntryFits(nodes, n, child);
      if !fits { EndsBadly(nodes, n, vs, child); }
      if child == n { return false; }
      if child.next == child { return false; }
      if child.next == n.head { return false; }
      if child.parent != n { return false; }
      if child.next != null && child.next.prev != child { return false; }
      if n.tag.ArrayTag? && child.key.Some? { return false; }
      if n.tag.ObjectTag? && child.key.None? { return false; }
      EnteredNext(nodes, n, vs, child);
      Deeper(nodes, path, child);
      StartKept(path, child);
      var below := CheckFrom(child, nodes, path + [child]);
      if !below {
        EntryFails(nodes, n, |vs|);
        return false;
      }
      AnswersIff(nodes, child, true);
      SoFarNext(nodes, n, vs, child);
      NextIn(nodes, child);
      vs := vs + [child];
      left := left - {child};
      last := child;
      child := child.next;
    }
    if last != n.tail {
      EndsBadly(nodes, n, vs, null);
      return false;
    }
    EndsWell(nodes, n, vs);
    return true;
  }

  // ---------- Node trees built by the list operations ----------

  /** In a forest links lead to nodes of the forest. */
  lemma ForestClosed(nodes: set<JsonNode>, kids: map<JsonNode, seq<JsonNode>>)
    requires Forest(nodes, kids)
    ensures Closed(nodes)
  {
    hide Children, NodeAt;
    forall x | x in nodes ensures OneOf(nodes, x.parent) && OneOf(nodes, x.prev) && OneOf(nodes, x.next)
                                  && OneOf(nodes, x.head) && OneOf(nodes, x.tail) {
      EndsListed(x, kids[x]);
      if x.parent != null { EndsListed(x.parent, kids[x.parent]); }
    }
  }

  lemma ForestList(nodes: set<JsonNode>, kids: map<JsonNode, seq<JsonNode>>, n: JsonNode)
    requires Forest(nodes, kids) && n in nodes
    ensures kids.Keys == nodes && Children(n, kids[n])
    ensures forall k :: k in kids[n] ==> k in nodes && k.parent == n && KeyFits(n, k)
    ensures !IsBranch(n) ==> kids[n] == []
  {
    hide Children;
    EndsListed(n, kids[n]);
    forall k | k in kids[n] ensures k in nodes && k.parent == n && KeyFits(n, k) {}
    if kids[n] != [] { assert kids[n][0] in kids[n]; }
  }

  /** `above` holds only nodes above `n`. */
  ghost predicate AllAbove(nodes: set<JsonNode>, above: set<JsonNode>, n: JsonNode)
    reads nodes
  {
    above <= nodes && forall a :: a in above ==> Above(Parents(nodes), a, n)
  }

  lemma ChildAbove(nodes: set<JsonNode>, n: JsonNode, k: JsonNode)
    requires n in nodes && k in nodes && k.parent == n
    ensures OwnAncestor(Parents(nodes), k) ==> OwnAncestor(Parents(nodes), n)
    ensures Above(Parents(nodes), n, k)
    ensures forall a :: Above(Parents(nodes), a, n) ==> Above(Parents(nodes), a, k)
    ensures Above(Parents(nodes), k, n) ==> OwnAncestor(Parents(nodes), k)
  {
    var par := Parents(nodes);
    assert par[k] == n;
    assert Up(par, k, 1) == Up(par, n, 0) == n;
    if i: nat :| i > 0 && Up(par, k, i) == k {
      UpAdd(par, k, 1, i);
      UpAdd(par, k, i, 1);
      assert Up(par, n, i) == n;
    }
    forall a | Above(par, a, n) ensures Above(par, a, k) {
      var i: nat :| Up(par, n, i) == a;
      assert Up(par, k, i + 1) == a;
    }
    if i: nat :| Up(par, n, i) == k { assert Up(par, k, i + 1) == k; }
  }

  /** The texts at `n` and below it are valid. */
  ghost predicate TextsBelow(nodes: set<JsonNode>, n: JsonNode)
    reads nodes
  {
    forall x :: x in nodes && Above(Parents(nodes), n, x) ==> TextFits(x)
  }

  lemma TextsDown(nodes: set<JsonNode>, n: JsonNode, k: JsonNode)
    requires n in nodes && k in nodes && k.parent == n && TextsBelow(nodes, n)
    ensures TextFits(n) && TextsBelow(nodes, k)
  {
    hide TextFits;
    var par := Parents(nodes);
    SelfAbove(nodes, n);
    forall x | x in nodes && Above(par, k, x) ensures Above(par, n, x) {
      var i: nat :| Up(par, x, i) == k;
      UpAdd(par, x, i, 1);
      assert Up(par, k, 1) == Up(par, n, 0) == n;
      assert Up(par, x, i + 1) == n;
    }
  }

  /** A node of a forest that is not its own ancestor, with valid texts below it, is sound. */
  lemma {:induction false} SoundBelow(nodes: set<JsonNode>, kids: map<JsonNode, seq<JsonNode>>, n: JsonNode,
                                      above: set<JsonNode>)
    requires Forest(nodes, kids) && Closed(nodes) && n in nodes && !OwnAncestor(Parents(nodes), n)
    requires AllAbove(nodes, above, n) && n !in above && TextsBelow(nodes, n)
    ensures Sound(nodes, n)
    decreases |nodes - above|
  {
    hide Forest, Closed, OwnAncestor, Above, KeyFits, Children, TextFits, TextsBelow;
    ForestList(nodes, kids, n);
    TextsHere(nodes, n);
    if IsBranch(n) {
      forall k | k in kids[n] ensures Sound(nodes, k) && k != n {
        ChildAbove(nodes, n, k);
        TextsDown(nodes, n, k);
        SelfAbove(nodes, n);
        assert nodes - (above + {n}) < nodes - above;
        Fewer(nodes - (above + {n}), nodes - above);
        SoundBelow(nodes, kids, k, above + {n});
      }
      var d := CommonDepth(nodes, kids[n], 0);
      forall k | k in kids[n] ensures SoundTo(nodes, k, d) { PassesIff(nodes, k, d); }
      ListSound(nodes, n, kids[n], d);
      assert SoundTo(nodes, n, d + 1);
    } else {
      assert SoundTo(nodes, n, 1);
    }
  }

  lemma TextsHere(nodes: set<JsonNode>, n: JsonNode)
    requires n in nodes && TextsBelow(nodes, n)
    ensures TextFits(n)
  {
    hide TextFits;
    SelfAbove(nodes, n);
  }

  /** Below a sound node all texts are valid. */
  lemma {:induction false} SoundTexts(nodes: set<JsonNode>, kids: map<JsonNode, seq<JsonNode>>, n: JsonNode,
                                      x: JsonNode, i: nat)
    requires Forest(nodes, kids) && n in nodes && x in nodes && Sound(nodes, n) && Up(Parents(nodes), x, i) == n
    ensures TextFits(x)
    decreases i
  {
    hide Forest, Children, TextFits, ProperList, Following;
    var d: nat :| SoundTo(nodes, n, d);
    if i > 0 {
      var par := Parents(nodes);
      UpAdd(par, x, i - 1, 1);
      var y: JsonNode := Up(par, x, i - 1);
      assert y in nodes && y.parent == n;
      InList(nodes, kids, y, n);
      SoundChild(nodes, kids, n, y, d);
      SoundTexts(nodes, kids, y, x, i - 1);
    }
  }

  lemma SoundChild(nodes: set<JsonNode>, kids: map<JsonNode, seq<JsonNode>>, n: JsonNode, y: JsonNode, d: nat)
    requires Forest(nodes, kids) && n in nodes && IsBranch(n) && SoundTo(nodes, n, d) && y in nodes && y in kids[n]
    ensures d > 0 && SoundTo(nodes, y, d - 1)
  {
    hide Forest, Children, SoundTo;
    ForestList(nodes, kids, n);
    var ks := SoundList(nodes, n, d);
    SameList(n, ks, kids[n]);
  }

  lemma SelfAbove(nodes: set<JsonNode>, n: JsonNode)
    requires n in nodes
    ensures Above(Parents(nodes), n, n)
  {
    assert Up(Parents(nodes), n, 0) == n;
  }

  lemma Fewer(a: set<JsonNode>, b: set<JsonNode>)
    requires a < b
    ensures |a| < |b|
  {
    var x :| x in b && x !in a;
    assert b == (b - a) + a && |b| == |b - a| + |a|;
    assert x in b - a;
  }

  lemma {:induction false} UpCycle(par: map<JsonNode, JsonNode?>, p: JsonNode, a: nat, m: nat)
    requires Up(par, p, a) == p
    ensures Up(par, p, m * a) == p
  {
    if m > 0 {
      UpCycle(par, p, a, m - 1);
      UpAdd(par, p, a, (m - 1) * a);
      assert m * a == a + (m - 1) * a;
    }
  }

  /** Of the children of one node at most one is its own ancestor. */
  lemma OneOnCycle(par: map<JsonNode, JsonNode?>, p: JsonNode, c: JsonNode, e: JsonNode)
    requires c in par && e in par && par[c] == p == par[e] && OwnAncestor(par, c) && OwnAncestor(par, e)
    ensures c == e
  {
    var a: nat :| a > 0 && Up(par, c, a) == c;
    var b: nat :| b > 0 && Up(par, e, b) == e;
    assert Up(par, p, a - 1) == c && Up(par, p, b - 1) == e;
    UpAdd(par, p, a - 1, 1);
    UpAdd(par, p, b - 1, 1);
    assert Up(par, c, 1) == p && Up(par, e, 1) == p;
    UpCycle(par, p, a, b - 1);
    UpCycle(par, p, b, a - 1);
    UpAdd(par, p, (b - 1) * a, a - 1);
    UpAdd(par, p, (a - 1) * b, b - 1);
    assert (b - 1) * a + (a - 1) == (a - 1) * b + (b - 1);
  }

  lemma {:induction false} UpNull(par: map<JsonNode, JsonNode?>, n: JsonNode?, i: nat, k: nat)
    requires i <= k && Up(par, n, i) == null
    ensures Up(par, n, k) == null
  {
    UpAdd(par, n, i, k - i);
  }

  lemma {:induction false} SelfStays(par: map<JsonNode, JsonNode?>, p: JsonNode, j: nat)
    requires p in par && par[p] == p
    ensures Up(par, p, j) == p
  {
    if j > 0 { SelfStays(par, p, j - 1); }
  }

  /** On a cycle of a forest the check descends from every node to the one below it. */
  lemma CycleDescends(nodes: set<JsonNode>, kids: map<JsonNode, seq<JsonNode>>, n: JsonNode, k: nat, i: nat)
    requires Forest(nodes, kids) && Closed(nodes) && n in nodes && n.parent != n
    requires i < k && Up(Parents(nodes), n, k) == n && forall x :: x in nodes ==> TextFits(x)
    ensures DescendsBy(nodes, n, i)
  {
    hide Forest, Closed, Children, KeyFits, OwnAncestor, Entered, TextFits;
    var par := Parents(nodes);
    if Up(par, n, i) == null { UpNull(par, n, i, k); }
    if Up(par, n, i + 1) == null { UpNull(par, n, i + 1, k); }
    var c: JsonNode, p: JsonNode := Up(par, n, i), Up(par, n, i + 1);
    UpAdd(par, n, i, 1);
    assert c in par && par[c] == p;
    InList(nodes, kids, c, p);
    ForestList(nodes, kids, p);
    CycleTurns(par, n, k, i);
    if p.parent == p {
      UpAdd(par, n, i + 1, k - i - 1);
      SelfStays(par, p, k - i - 1);
    }
    assert p !in kids[p];
    EnteredAll(nodes, p, kids[p]);
    var j :| 0 <= j < |kids[p]| && kids[p][j] == c;
    forall m | 0 <= m < j ensures Sound(nodes, kids[p][m]) {
      var e := kids[p][m];
      assert e in kids[p];
      if OwnAncestor(par, e) {
        OneOnCycle(par, p, c, e);
        DistinctEntries(p, kids[p], m, j);
      }
      SoundBelow(nodes, kids, e, {});
    }
    assert DescendsAt(nodes, p, c, j);
  }

  lemma DistinctEntries(p: JsonNode, ks: seq<JsonNode>, m: nat, j: nat)
    requires Children(p, ks) && m < j < |ks|
    ensures ks[m] != ks[j]
  {}

  lemma InList(nodes: set<JsonNode>, kids: map<JsonNode, seq<JsonNode>>, c: JsonNode, p: JsonNode)
    requires Forest(nodes, kids) && c in nodes && c.parent == p
    ensures p in nodes && c in kids[p] && IsBranch(p)
  {}

  lemma CycleTurns(par: map<JsonNode, JsonNode?>, n: JsonNode, k: nat, i: nat)
    requires k > 0 && Up(par, n, k) == n && Up(par, n, i) != null
    ensures OwnAncestor(par, Up(par, n, i))
  {
    UpAdd(par, n, i, k);
    UpAdd(par, n, k, i);
    assert Up(par, Up(par, n, i), k) == Up(par, n, i);
  }

  /** Of a forest: the check answers true exactly on the nodes that are not their own ancestors and have valid
      texts below them; and where all texts are valid, it fails to end exactly on those that are their own
      ancestors, but not as their own children. */
  lemma ForestCheckIff(nodes: set<JsonNode>, kids: map<JsonNode, seq<JsonNode>>, n: JsonNode)
    requires Forest(nodes, kids) && n in nodes
    ensures Closed(nodes)
    ensures Sound(nodes, n) <==> !OwnAncestor(Parents(nodes), n) && TextsBelow(nodes, n)
    ensures (forall x :: x in nodes ==> TextFits(x)) ==>
              (Circular(nodes, n) <==> OwnAncestor(Parents(nodes), n) && n.parent != n)
  {
    hide Forest, Closed, Children, KeyFits, Sound, Circular, TextFits;
    ForestClosed(nodes, kids);
    if Sound(nodes, n) {
      forall x | x in nodes && Above(Parents(nodes), n, x) ensures TextFits(x) {
        var i: nat :| Up(Parents(nodes), x, i) == n;
        SoundTexts(nodes, kids, n, x, i);
      }
      if OwnAncestor(Parents(nodes), n) { NeverSound(nodes, kids, n); }
    } else if !OwnAncestor(Parents(nodes), n) && TextsBelow(nodes, n) {
      SoundBelow(nodes, kids, n, {});
    }
    if forall x :: x in nodes ==> TextFits(x) { CircularForest(nodes, kids, n); }
  }

  /** A node that is its own ancestor is not sound to any depth: each turn needs more. */
  lemma {:induction false} CycleUnsound(nodes: set<JsonNode>, kids: map<JsonNode, seq<JsonNode>>, n: JsonNode, d: nat)
    requires Forest(nodes, kids) && n in nodes && OwnAncestor(Parents(nodes), n)
    ensures !SoundTo(nodes, n, d)
    decreases d
  {
    hide Forest, Children, SoundTo;
    var par := Parents(nodes);
    var k: nat :| k > 0 && Up(par, n, k) == n;
    UpAdd(par, n, k - 1, 1);
    var y: JsonNode := Up(par, n, k - 1);
    assert y in nodes && y.parent == n;
    InList(nodes, kids, y, n);
    CycleTurns(par, n, k, k - 1);
    if SoundTo(nodes, n, d) {
      SoundChild(nodes, kids, n, y, d);
      CycleUnsound(nodes, kids, y, d - 1);
    }
  }

  lemma CircularForest(nodes: set<JsonNode>, kids: map<JsonNode, seq<JsonNode>>, n: JsonNode)
    requires Forest(nodes, kids) && Closed(nodes) && n in nodes && forall x :: x in nodes ==> TextFits(x)
    ensures Circular(nodes, n) <==> OwnAncestor(Parents(nodes), n) && n.parent != n
  {
    hide Forest, Closed, Children, KeyFits, Sound, Circular, DescendsBy, TextFits;
    var par := Parents(nodes);
    if !OwnAncestor(par, n) || n.parent == n {
      if Circular(nodes, n) { CircularIsOwnAncestor(nodes, n); }
    } else {
      var k: nat :| k > 0 && Up(par, n, k) == n;
      forall i | 0 <= i < k ensures DescendsBy(nodes, n, i) { CycleDescends(nodes, kids, n, k, i); }
      CircularHere(nodes, n, k);
    }
  }

  lemma CircularHere(nodes: set<JsonNode>, n: JsonNode, k: nat)
    requires Closed(nodes) && n in nodes && CircularBy(nodes, n, k)
    ensures Circular(nodes, n)
  {}

  lemma NeverSound(nodes: set<JsonNode>, kids: map<JsonNode, seq<JsonNode>>, n: JsonNode)
    requires Forest(nodes, kids) && n in nodes && OwnAncestor(Parents(nodes), n)
    ensures !Sound(nodes, n)
  {
    hide Forest, SoundTo;
    forall d ensures !SoundTo(nodes, n, d) { CycleUnsound(nodes, kids, n, d); }
  }

  lemma SameList(n: JsonNode, ks: seq<JsonNode>, ls: seq<JsonNode>)
    requires Children(n, ks) && Children(n, ls)
    ensures forall k :: k in ls ==> k in ks
  {
    forall i | 0 <= i < |ls| ensures i < |ks| && ls[i] == ks[i] { SameEntry(n, ks, ls, i); }
  }

  lemma {:induction false} SameEntry(n: JsonNode, ks: seq<JsonNode>, ls: seq<JsonNode>, i: nat)
    requires Children(n, ks) && Children(n, ls) && i < |ls|
    ensures i < |ks| && ls[i] == ks[i]
  {
    if i > 0 {
      SameEntry(n, ks, ls, i - 1);
      assert ls[i - 1].next == NodeAt(ls, i) && ks[i - 1].next == NodeAt(ks, i);
    }
  }

  /** Two arrays put into each other: both calls are accepted, and the check of either never ends. */
  method Ring() returns (x: JsonNode, ghost nodes: set<JsonNode>, ghost kids: map<JsonNode, seq<JsonNode>>)
    ensures fresh(nodes) && x in nodes && Forest(nodes, kids) && Closed(nodes) && !Ends(nodes, x)
  {
    hide Forest, Closed, Circular, Ends, Sound, TextsBelow, Validate, AllLists, Children, Acyclic, Above;
    nodes, kids := {}, map[];
    assert Forest(nodes, kids) by { NoNodes(nodes, kids); }
    x := MakeNode(ArrayTag, false, [], nodes, kids);
    nodes, kids := nodes + {x}, kids[x := []];
    var y := MakeNode(ArrayTag, false, [], nodes, kids);
    nodes, kids := nodes + {y}, kids[y := []];
    Append(x, None, y, nodes, kids);
    kids := kids[x := kids[x] + [y]];
    Append(y, None, x, nodes, kids);
    kids := kids[y := kids[y] + [x]];
    var par := Parents(nodes);
    assert Up(par, x, 2) == Up(par, y, 1) == Up(par, x, 0) == x;
    ForestCheckIff(nodes, kids, x);
    EndsIff(nodes, x);
  }

  lemma NoNodes(nodes: set<JsonNode>, kids: map<JsonNode, seq<JsonNode>>)
    requires nodes == {} && kids == map[]
    ensures Forest(nodes, kids)
  {}
}
