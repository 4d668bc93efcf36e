/** Taking blocks for fresh use: uninitialized blocks first, oldest first, then the matchable blocks
    in the order of priority and return tick. */
module Eviction {
  import opened Tokens
  import opened Pool
  import opened Options

  function MinKey(ks: set<PriorityKey>): (k: PriorityKey)
    requires ks != {}
    ensures IsMin(k, ks)
  {
    MinExists(ks);
    var k :| k in ks && IsMin(k, ks);
    k
  }

  /** The block of the index that goes first; None when there is none. */
  function FirstHash(p: Pool): Option<Hash> {
    if p.prio.Keys != {} && p.prio[MinKey(p.prio.Keys)] in p.lookup then Some(p.prio[MinKey(p.prio.Keys)]) else None
  }

  function TakeOne(p: Pool): (Pool, Option<KvBlock>) {
    if p.uninit != [] then (p.(uninit := p.uninit[1..]), Some(p.uninit[0]))
    else if FirstHash(p).Some? then (Removed(p, FirstHash(p).value), Some(p.lookup[FirstHash(p).value]))
    else (p, None)
  }

  function TakeMany(p: Pool, n: nat): (Pool, seq<KvBlock>)
    decreases n
  {
    var (q, b) := TakeOne(p);
    if n == 0 || b.None? then (p, [])
    else
      var r := TakeMany(q, n - 1);
      (r.0, [b.value] + r.1)
  }

  /** Every matchable block is wiped, in eviction order. */
  function WipedAll(p: Pool): Pool
    decreases |p.lookup|
  {
    if FirstHash(p).None? then p
    else
      var h := FirstHash(p).value;
      assert WipeOne(p, h).lookup == p.lookup - {h} && p.lookup.Keys == (p.lookup - {h}).Keys + {h};
      WipedAll(WipeOne(p, h))
  }

  /** Nothing stays matchable, and every block stays parked. */
  lemma {:induction false} WipedAllEffect(p: Pool)
    requires Valid(p)
    ensures var q := WipedAll(p);
            Valid(q) && Uids(q) == Uids(p) && q.total == p.total && q.available == p.available && q.lookup == map[] && q.prio == map[]
    decreases |p.lookup|
  {
    hide Indexed, Ticked, Distinct, LookupUids, UidsOf, FirstHash, MinKey;
    FirstHashEffect(p);
    if FirstHash(p).Some? {
      var h := FirstHash(p).value;
      assert WipeOne(p, h).lookup == p.lookup - {h} && p.lookup.Keys == (p.lookup - {h}).Keys + {h};
      ReplacedShape(p, h, ResetBlock(p.lookup[h]));
      WipedAllEffect(WipeOne(p, h));
    } else {
      NoneLeft(p);
    }
  }

  lemma WipedAllNext(p: Pool)
    ensures FirstHash(p).Some? ==> WipedAll(p) == WipedAll(WipeOne(p, FirstHash(p).value))
  {
    hide FirstHash, WipeOne;
  }

  lemma WipedAllEmpty(p: Pool)
    requires Valid(p) && p.prio.Keys == {}
    ensures WipedAll(p) == p && p.lookup == map[] && p.prio == map[]
  {
    hide Ticked, Distinct, LookupUids, UidsOf;
    FirstHashEffect(p);
    assert FirstHash(p).None?;
    NoneLeft(p);
  }

  lemma NoneLeft(p: Pool)
    requires Indexed(p.lookup, p.prio) && |p.lookup| == 0
    ensures p.lookup == map[] && p.prio == map[]
  {
    assert p.lookup.Keys == {};
    forall k | k in p.prio ensures p.prio[k] in p.lookup.Keys {}
    assert p.prio.Keys == {};
  }

  lemma TakeManyStep(p: Pool, n: nat)
    ensures n == 0 || TakeOne(p).1.None? ==> TakeMany(p, n) == (p, [])
    ensures n > 0 && TakeOne(p).1.Some? ==>
              var r := TakeMany(TakeOne(p).0, n - 1);
              TakeMany(p, n) == (r.0, [TakeOne(p).1.value] + r.1)
  {
  }

  lemma FirstHashEffect(p: Pool)
    requires Indexed(p.lookup, p.prio)
    ensures FirstHash(p).None? <==> |p.lookup| == 0
    ensures FirstHash(p).Some? ==>
              var h := FirstHash(p).value;
              && h in p.lookup && p.lookup[h].data.seqHash == h
              && forall g :: g in p.lookup && g != h ==> Less(KeyOf(p.lookup[h]), KeyOf(p.lookup[g]))
  {
    if p.prio.Keys != {} {
      var k := MinKey(p.prio.Keys);
      forall g | g in p.lookup && g != p.prio[k] ensures Less(KeyOf(p.lookup[p.prio[k]]), KeyOf(p.lookup[g])) {
        assert KeyOf(p.lookup[g]) in p.prio.Keys;
      }
      assert p.prio[k] in p.lookup.Keys;
    } else {
      forall h | h in p.lookup ensures KeyOf(p.lookup[h]) in p.prio.Keys { }
      assert p.lookup.Keys == {};
    }
  }

  lemma TakeOneEffect(p: Pool)
    requires Shape(p)
    ensures var (p', b) := TakeOne(p);
            && Shape(p') && p'.total == p.total && p'.available == p.available
            && (b.None? <==> Parked(p) == 0) && (b.None? ==> p' == p)
            && (b.Some? ==> Parked(p') == Parked(p) - 1 && b.value.uid in Uids(p) && Uids(p') == Uids(p) - {b.value.uid})
  {
    hide Indexed, Ticked, Distinct, LookupUids, UidsOf, FirstHash;
    FirstHashEffect(p);
    if p.uninit != [] {
      PoppedShape(p);
    } else if FirstHash(p).Some? {
      RemovedShape(p, FirstHash(p).value);
    }
  }

  function Least(a: nat, b: nat): nat { if a < b then a else b }

  /** The taken blocks: `n` or all that are parked; each leaves the pool once. */
  lemma {:induction false} TakeManyCounts(p: Pool, n: nat)
    requires Shape(p)
    ensures var (p', bs) := TakeMany(p, n);
            && Shape(p') && p'.total == p.total && p'.available == p.available
            && |bs| == Least(n, Parked(p)) && Parked(p') == Parked(p) - |bs|
            && DistinctBlocks(bs) && UidsOf(bs) <= Uids(p) && Uids(p') == Uids(p) - UidsOf(bs)
    decreases n
  {
    hide Shape, Uids, UidsOf, DistinctBlocks, TakeOne, TakeMany;
    TakeOneEffect(p);
    TakeManyStep(p, n);
    NoBlocks();
    var (q, b) := TakeOne(p);
    if n > 0 && b.Some? {
      TakeManyCounts(q, n - 1);
      var bs := TakeMany(q, n - 1).1;
      UidsOfAppend([b.value], bs);
      UidsOfOne(b.value);
      DistinctAppend([b.value], bs);
    }
  }

  /** `bs` are blocks of the index in strictly increasing key order, all before what stays. */
  ghost predicate Evicted(m: map<Hash, KvBlock>, m': map<Hash, KvBlock>, bs: seq<KvBlock>) {
    && (forall i :: 0 <= i < |bs| ==> bs[i].data.seqHash in m && m[bs[i].data.seqHash] == bs[i] && bs[i].data.seqHash !in m')
    && (forall i, j :: 0 <= i < j < |bs| ==> Less(KeyOf(bs[i]), KeyOf(bs[j])))
    && (forall h, i :: h in m' && 0 <= i < |bs| ==> Less(KeyOf(bs[i]), KeyOf(m'[h])))
    && (forall h :: h in m' ==> h in m && m'[h] == m[h])
    && (forall h :: h in m && h !in m' ==> m[h] in bs)
  }

  lemma EvictedCons(m: map<Hash, KvBlock>, b: KvBlock, m': map<Hash, KvBlock>, bs: seq<KvBlock>)
    requires b.data.seqHash in m && m[b.data.seqHash] == b
    requires forall h :: h in m && h != b.data.seqHash ==> Less(KeyOf(b), KeyOf(m[h]))
    requires Evicted(m - {b.data.seqHash}, m', bs)
    ensures Evicted(m, m', [b] + bs)
  {
    var h0, cs := b.data.seqHash, [b] + bs;
    forall i | 0 <= i < |bs| ensures Less(KeyOf(b), KeyOf(bs[i])) { assert bs[i].data.seqHash in m - {h0}; }
    forall i, j | 0 <= i < j < |cs| ensures Less(KeyOf(cs[i]), KeyOf(cs[j])) {
      if i > 0 { assert Less(KeyOf(bs[i - 1]), KeyOf(bs[j - 1])); }
    }
    forall h | h in m' ensures h in m && m'[h] == m[h] { assert h in m - {h0}; }
    forall h, i | h in m' && 0 <= i < |cs| ensures Less(KeyOf(cs[i]), KeyOf(m'[h])) {
      if i == 0 { assert h in m - {h0}; } else { assert Less(KeyOf(bs[i - 1]), KeyOf(m'[h])); }
    }
    forall h | h in m && h !in m' ensures m[h] in cs {
      if h != h0 { assert h in m - {h0} && m[h] in bs; }
    }
  }

  lemma FirstOfIndex(p: Pool)
    requires Shape(p) && p.uninit == []
    ensures var (q, b) := TakeOne(p);
            b.Some? ==>
              var h := b.value.data.seqHash;
              && q.uninit == [] && h in p.lookup && p.lookup[h] == b.value && q.lookup == p.lookup - {h}
              && forall g :: g in p.lookup && g != h ==> Less(KeyOf(b.value), KeyOf(p.lookup[g]))
  {
    hide Indexed, Ticked, Distinct, FirstHash, Less;
    FirstHashEffect(p);
  }

  /** With no uninitialized block left, blocks leave the index in increasing key order, and none
      leaves while one with a smaller key stays. */
  lemma {:induction false} TakeManyEvicts(p: Pool, n: nat)
    requires Shape(p) && p.uninit == []
    ensures Evicted(p.lookup, TakeMany(p, n).0.lookup, TakeMany(p, n).1) && TakeMany(p, n).0.uninit == []
    decreases n
  {
    hide Shape, TakeOne, TakeMany, Evicted, Less, KeyOf;
    FirstOfIndex(p);
    TakeOneEffect(p);
    TakeManyStep(p, n);
    NoneEvicted(p.lookup);
    if n > 0 && TakeOne(p).1.Some? {
      var q, b := TakeOne(p).0, TakeOne(p).1.value;
      TakeManyEvicts(q, n - 1);
      EvictedCons(p.lookup, b, TakeMany(q, n - 1).0.lookup, TakeMany(q, n - 1).1);
    }
  }

  lemma NoneEvicted(m: map<Hash, KvBlock>)
    ensures Evicted(m, m, [])
  {
  }

  lemma TakeOnePops(p: Pool)
    requires p.uninit != []
    ensures TakeOne(p) == (p.(uninit := p.uninit[1..]), Some(p.uninit[0]))
  {
  }

  /** The uninitialized blocks go first, in FIFO order. */
  lemma {:induction false} TakeManySplits(p: Pool, n: nat, m: nat)
    requires m <= n && m <= |p.uninit|
    ensures var q := p.(uninit := p.uninit[m..]);
            TakeMany(p, n) == (TakeMany(q, n - m).0, p.uninit[..m] + TakeMany(q, n - m).1)
    decreases m
  {
    hide FirstHash, TakeOne, TakeMany;
    if m == 0 {
      assert p.uninit[0..] == p.uninit && p.uninit[..0] == [];
      assert [] + TakeMany(p, n).1 == TakeMany(p, n).1;
    } else {
      var p1 := p.(uninit := p.uninit[1..]);
      TakeOnePops(p);
      TakeManyStep(p, n);
      TakeManySplits(p1, n - 1, m - 1);
      assert p.uninit[1..][m - 1..] == p.uninit[m..];
      var r := TakeMany(p.(uninit := p.uninit[m..]), n - m);
      assert p.uninit[..m] == [p.uninit[0]] + p1.uninit[..m - 1];
      assert [p.uninit[0]] + (p1.uninit[..m - 1] + r.1) == ([p.uninit[0]] + p1.uninit[..m - 1]) + r.1;
    }
  }

  lemma {:induction false} PoppedMany(p: Pool, m: nat)
    requires Shape(p) && m <= |p.uninit|
    ensures Shape(p.(uninit := p.uninit[m..]))
    decreases m
  {
    hide Indexed, Ticked, Distinct;
    if m == 0 {
      assert p.uninit[0..] == p.uninit;
    } else {
      PoppedShape(p);
      PoppedMany(p.(uninit := p.uninit[1..]), m - 1);
      assert p.uninit[1..][m - 1..] == p.uninit[m..];
    }
  }

  /** Eviction: what `take_blocks(n)` takes, for every pool and every n. */
  lemma TakeBlocksOrder(p: Pool, n: nat)
    requires Shape(p)
    ensures var (p', bs) := TakeMany(p, n);
            var m := Least(n, |p.uninit|);
            && |bs| == Least(n, Parked(p)) && m <= |bs|
            && bs[..m] == p.uninit[..m] && p'.uninit == p.uninit[m..]
            && Evicted(p.lookup, p'.lookup, bs[m..])
  {
    hide Shape, Evicted, DistinctBlocks, UidsOf, Uids, TakeMany;
    TakeManyCounts(p, n);
    var m := Least(n, |p.uninit|);
    var bs, q := TakeMany(p, n).1, p.(uninit := p.uninit[m..]);
    TakeManySplits(p, n, m);
    PoppedMany(p, m);
    var rest := TakeMany(q, n - m);
    assert bs[..m] == p.uninit[..m] && bs[m..] == rest.1;
    if m == |p.uninit| {
      TakeManyEvicts(q, n - m);
    } else {
      TakeManyStep(q, 0);
      NoneEvicted(p.lookup);
    }
  }
}
