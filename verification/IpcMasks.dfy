/** The shared handler masks: four 64-bit words per worker, one bit per message id. */
module IpcMasks {
  type Word = bv64
  type Id = bv8

  function Flag(i: Id): Word
    requires i < 64
  {
    (1 as Word) << i
  }

  function Both(v: Word, f: Word): Word { v & f }
  function Raised(v: Word, f: Word): Word { v | f }
  function Lowered(v: Word, f: Word): Word { v & !f }

  predicate Bit(v: Word, i: Id)
    requires i < 64
  {
    Both(v, Flag(i)) == Flag(i)
  }

  lemma FlagsApart(i: Id, j: Id)
    requires i < 64 && j < 64 && i != j
    ensures Both(Flag(i), Flag(j)) == 0
  {}

  lemma RaisedApart(v: Word, f: Word, g: Word)
    requires Both(f, g) == 0
    ensures Both(Raised(v, f), g) == Both(v, g)
  {
    OrApart(v, f, g);
  }

  lemma OrApart(v: Word, f: Word, g: Word)
    requires f & g == 0
    ensures (v | f) & g == v & g
  {}

  lemma LoweredApart(v: Word, f: Word, g: Word)
    requires Both(f, g) == 0
    ensures Both(Lowered(v, f), g) == Both(v, g)
  {}

  lemma RaisedSame(v: Word, f: Word)
    ensures Both(Raised(v, f), f) == f
  {}

  lemma LoweredSame(v: Word, f: Word)
    ensures Both(Lowered(v, f), f) == 0
  {}

  lemma FlagSet(i: Id)
    requires i < 64
    ensures Flag(i) != 0
  {}

  /** Setting or clearing one bit leaves every other bit alone. */
  lemma OneBit(v: Word, i: Id, j: Id)
    requires i < 64 && j < 64
    ensures Bit(Raised(v, Flag(i)), j) <==> i == j || Bit(v, j)
    ensures Bit(Lowered(v, Flag(i)), j) <==> i != j && Bit(v, j)
  {
    hide Flag, Both, Raised, Lowered;
    if i == j {
      FlagSet(i);
      RaisedSame(v, Flag(i));
      LoweredSame(v, Flag(i));
    } else {
      FlagsApart(i, j);
      RaisedApart(v, Flag(i), Flag(j));
      LoweredApart(v, Flag(i), Flag(j));
    }
  }

  /** Which of the four words holds the bit of `m`. */
  function Index(m: Id): (k: nat)
    ensures k < 4
  {
    if m < 64 then 0 else if m < 128 then 1 else if m < 192 then 2 else 3
  }

  lemma IndexIsQuotient(m: Id)
    ensures m / 64 == Index(m) as Id
  {}

  lemma SameBit(m: Id, n: Id)
    ensures m % 64 < 64
    ensures Index(m) == Index(n) && m % 64 == n % 64 ==> m == n
  {}

  predicate Has(mask: seq<Word>, m: Id)
    requires |mask| == 4
  {
    SameBit(m, m);
    Bit(mask[Index(m)], m % 64)
  }

  function SetBit(mask: seq<Word>, m: Id, en: bool): (r: seq<Word>)
    requires |mask| == 4
    ensures |r| == 4
  {
    SameBit(m, m);
    var k, f := Index(m), Flag(m % 64);
    mask[k := if en then Raised(mask[k], f) else Lowered(mask[k], f)]
  }

  /** The mask stands for exactly the ids in `ids`. */
  ghost predicate Represents(mask: seq<Word>, ids: set<Id>) {
    |mask| == 4 && forall m: Id :: Has(mask, m) <==> m in ids
  }

  function SetId(ids: set<Id>, m: Id, en: bool): set<Id> { if en then ids + {m} else ids - {m} }

  lemma SetBitAt(mask: seq<Word>, m: Id, en: bool, n: Id)
    requires |mask| == 4
    ensures Has(SetBit(mask, m, en), n) <==> if n == m then en else Has(mask, n)
  {
    hide Bit, Flag, Index, Raised, Lowered;
    SameBit(m, n);
    SameBit(n, m);
    OneBit(mask[Index(m)], m % 64, n % 64);
  }

  lemma SetBitRefines(mask: seq<Word>, ids: set<Id>, m: Id, en: bool)
    requires Represents(mask, ids)
    ensures Represents(SetBit(mask, m, en), SetId(ids, m, en))
  {
    hide Has, SetBit;
    forall n: Id ensures Has(SetBit(mask, m, en), n) <==> n in SetId(ids, m, en) {
      SetBitAt(mask, m, en, n);
    }
  }

  // ---------- The table in shared memory ----------

  const PARENT: nat := 0

  /** The masks of the parent (0) and of workers 1 to `nworkers`. */
  class Table {
    const nworkers: nat
    const masks: array2<Word>
    const active: seq<bool>

    ghost predicate Valid() {
      nworkers <= 255 && masks.Length0 == nworkers + 1 && masks.Length1 == 4 && |active| == nworkers + 1
    }

    ghost function Mask(w: nat): (r: seq<Word>)
      requires Valid() && w <= nworkers
      reads masks
      ensures |r| == 4
    {
      [masks[w, 0], masks[w, 1], masks[w, 2], masks[w, 3]]
    }

    /** The table stands for one set of message ids per process. */
    ghost predicate Holds(ids: seq<set<Id>>)
      requires Valid()
      reads masks
    {
      |ids| == nworkers + 1 && forall w :: 0 <= w <= nworkers ==> Represents(Mask(w), ids[w])
    }

    method HasMessageHandler(w: nat, m: Id, ghost ids: seq<set<Id>>) returns (r: bool)
      requires Valid() && Holds(ids)
      ensures r <==> w <= nworkers && active[w] && m in ids[w]
    {
      hide Bit, Flag, Both;
      if w <= nworkers && active[w] {
        SameBit(m, m);
        assert Represents(Mask(w), ids[w]);
        var val := masks[w, Index(m)];
        assert val == Mask(w)[Index(m)];
        return Bit(val, m % 64);
      }
      return false;
    }

    method SetMessageHandler(w: nat, m: Id, en: bool, ghost ids: seq<set<Id>>)
      requires Valid() && Holds(ids)
      modifies masks
      ensures Holds(if w <= nworkers then ids[w := SetId(ids[w], m, en)] else ids)
    {
      hide Bit, Flag, Both, Raised, Lowered, Represents;
      if w <= nworkers {
        SameBit(m, m);
        SetBitRefines(Mask(w), ids[w], m, en);
        var k, f := Index(m), Flag(m % 64);
        masks[w, k] := if en then Raised(masks[w, k], f) else Lowered(masks[w, k], f);
        assert Mask(w) == SetBit(old(Mask(w)), m, en);
        forall v | 0 <= v <= nworkers && v != w ensures Mask(v) == old(Mask(v)) {}
      }
    }

    /** Registering and unregistering: a worker changes its own mask, the parent those of all workers but
        never its own. */
    method SetHandler(spid: nat, m: Id, en: bool, ghost ids: seq<set<Id>>)
      requires Valid() && |ids| == nworkers + 1 && Holds(ids) && spid <= nworkers
      requires spid == PARENT ==> CounterPasses(nworkers)
      modifies masks
      ensures Holds(Registered(ids, Call(spid, m, en)))
    {
      hide Holds;
      if spid == PARENT {
        CounterPassesIff(nworkers);
        ghost var now := ids;
        var w := 1;
        while w <= nworkers
          invariant 1 <= w <= nworkers + 1
          invariant Holds(now) && |now| == |ids| == nworkers + 1
          invariant forall v :: 0 <= v <= nworkers ==> now[v] == if 1 <= v < w then SetId(ids[v], m, en) else ids[v]
        {
          SetMessageHandler(w, m, en, now);
          now := now[w := SetId(now[w], m, en)];
          w := (w + 1) % 256;
        }
        assert now == Registered(ids, Call(spid, m, en));
      } else {
        SetMessageHandler(spid, m, en, ids);
        assert ids[spid := SetId(ids[spid], m, en)] == Registered(ids, Call(spid, m, en));
      }
    }

    /** Any sequence of registrations and unregistrations by any processes. */
    method Replay(calls: seq<Call>, ghost ids: seq<set<Id>>)
      requires Valid() && |ids| == nworkers + 1 && Holds(ids) && forall c :: c in calls ==> c.spid <= nworkers
      requires forall c :: c in calls && c.spid == PARENT ==> CounterPasses(nworkers)
      modifies masks
      ensures Holds(Replayed(ids, calls))
    {
      hide Holds, Registered;
      for i := 0 to |calls|
        invariant |Replayed(ids, calls[..i])| == nworkers + 1 && Holds(Replayed(ids, calls[..i]))
      {
        SetHandler(calls[i].spid, calls[i].m, calls[i].en, Replayed(ids, calls[..i]));
        assert calls[..i + 1][..i] == calls[..i];
      }
      assert calls[..|calls|] == calls;
    }
  }

  /** The 8-bit counter of a loop over the workers from 1 on, after `k` turns. */
  function Counter(k: nat): nat { (1 + k) % 256 }

  /** The counter comes past the last worker, so that the loop ends. */
  ghost predicate CounterPasses(nworkers: nat) { exists k :: Counter(k) > nworkers }

  /** It does for every number of workers but the largest, 255, for which the parent's loops go on for ever. */
  lemma CounterPassesIff(nworkers: nat)
    requires nworkers <= 255
    ensures CounterPasses(nworkers) <==> nworkers < 255
  {
    if nworkers < 255 { assert Counter(nworkers) > nworkers; }
  }

  datatype Call = Call(spid: nat, m: Id, en: bool)

  predicate Affects(c: Call, w: nat, m: Id) {
    c.m == m && w != PARENT && (c.spid == w || c.spid == PARENT)
  }

  function Registered(ids: seq<set<Id>>, c: Call): (r: seq<set<Id>>)
    ensures |r| == |ids|
  {
    seq(|ids|, w requires 0 <= w < |ids| => if Affects(c, w, c.m) then SetId(ids[w], c.m, c.en) else ids[w])
  }

  function Replayed(ids: seq<set<Id>>, calls: seq<Call>): (r: seq<set<Id>>)
    ensures |r| == |ids|
  {
    if calls == [] then ids else Registered(Replayed(ids, calls[..|calls| - 1]), calls[|calls| - 1])
  }

  /** A bit is what the last call that concerns it made of it; without such a call it is as it was. */
  lemma {:induction false} LastCallDecides(ids: seq<set<Id>>, calls: seq<Call>, w: nat, m: Id, i: nat)
    requires w < |ids| && i <= |calls|
    requires forall j :: i <= j < |calls| ==> !Affects(calls[j], w, m)
    requires i > 0 ==> Affects(calls[i - 1], w, m)
    ensures m in Replayed(ids, calls)[w] <==> if i > 0 then calls[i - 1].en else m in ids[w]
  {
    if i < |calls| {
      LastCallDecides(ids, calls[..|calls| - 1], w, m, i);
    }
  }

  /** A worker's call makes its own set gain or lose the id and leaves all others alone; the parent's call does so to
      the sets of all workers and leaves its own alone. */
  lemma CallConcerns(ids: seq<set<Id>>, m: Id, en: bool, spid: nat, w: nat)
    requires spid < |ids| && w < |ids|
    ensures var now := Registered(ids, Call(spid, m, en))[w];
            now == if (spid == 0 && w != 0) || (spid != 0 && w == spid) then (if en then ids[w] + {m} else ids[w] - {m})
                   else ids[w]
  {}
}
